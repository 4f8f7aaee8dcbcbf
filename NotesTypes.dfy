/** The content model of the notes app: the nested catalog subject -> chapter -> topic
    and the search result record. Optional TypeScript fields are `Option`s; a `Date`
    is an integer timestamp. */
module NotesTypes {

  datatype Option<+T> = None | Some(value: T)

  /** `type: 'text' | 'pdf'` (the field is called `kind` here, `type` being a keyword). */
  datatype TopicType = Text | Pdf

  datatype Topic = Topic(
    id: string,
    name: string,
    hindiName: Option<string>,
    chapterId: string,
    content: string,
    kind: TopicType,
    filePath: Option<string>,
    isCompleted: Option<bool>,
    pdfUrl: Option<string>,
    lastRead: Option<int>,
    bookmark: Option<bool>,
    tags: Option<seq<string>>)

  datatype Chapter = Chapter(
    id: string,
    name: string,
    subjectId: string,
    topics: seq<Topic>,
    isCompleted: Option<bool>)

  datatype Subject = Subject(
    id: string,
    name: string,
    icon: string,
    color: string,
    chapters: seq<Chapter>,
    totalTopics: Option<int>,
    completedTopics: Option<int>)

  datatype SearchResult = SearchResult(topic: Topic, chapter: Chapter, subject: Subject, matchText: string)

  /** JavaScript truthiness of the optional `isCompleted` flag: an absent flag counts as false. */
  predicate IsCompleted(t: Topic) {
    t.isCompleted == Some(true)
  }
}
