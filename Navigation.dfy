/** The main page's navigation state machine: a view with an optional subject,
    chapter and topic, plus the search query and results. The pure step functions
    say what each handler does to the whole page state; the class `IndexPage` runs
    the handlers themselves against the notes store. */
module Navigation {
  import opened NotesTypes
  import opened JsText
  import opened NotesStore

  datatype View = Home | Subjects | Chapters | Topics | Content | Search | Progress

  datatype NavigationState = NavigationState(
    view: View,
    currentSubject: Option<Subject>,
    currentChapter: Option<Chapter>,
    currentTopic: Option<Topic>)

  /** The three pieces of page state the handlers update. */
  datatype Page = Page(navigation: NavigationState, searchQuery: string, searchResults: seq<SearchResult>)

  /** `{ view: v }`: a view with no subject, chapter or topic. */
  function AtView(v: View): NavigationState {
    NavigationState(v, None, None, None)
  }

  const InitialPage: Page := Page(AtView(Home), "", [])

  function GoHome(p: Page): Page {
    Page(AtView(Home), "", [])
  }

  function GoSubjects(p: Page): Page {
    p.(navigation := AtView(Subjects))
  }

  function GoChapters(p: Page, subject: Subject): Page {
    p.(navigation := NavigationState(Chapters, Some(subject), None, None))
  }

  function GoTopics(p: Page, chapter: Chapter): Page {
    p.(navigation := NavigationState(Topics, p.navigation.currentSubject, Some(chapter), None))
  }

  function GoContent(p: Page, topic: Topic): Page {
    p.(navigation := NavigationState(Content, p.navigation.currentSubject, p.navigation.currentChapter, Some(topic)))
  }

  function GoProgress(p: Page): Page {
    p.(navigation := AtView(Progress))
  }

  /** navigateBack. */
  function Back(p: Page): Page {
    var n := p.navigation;
    match n.view
    case Subjects => GoHome(p)
    case Chapters => GoSubjects(p)
    case Topics => if n.currentSubject.Some? then GoChapters(p, n.currentSubject.value) else p
    case Content => if n.currentChapter.Some? then GoTopics(p, n.currentChapter.value) else p
    case Search => GoHome(p)
    case Progress => GoHome(p)
    case Home => GoHome(p)
  }

  /** handleSearch, given the results searchTopics returns for the query. */
  function HandleSearchStep(p: Page, query: string, results: seq<SearchResult>): Page {
    if !IsBlank(query) then Page(AtView(Search), query, results)
    else if p.navigation.view == Search then GoHome(p)
    else p.(searchQuery := query, searchResults := [])
  }

  /** getPageTitle: a JavaScript `||` falls back on an absent or empty name. */
  function Title(n: NavigationState): string {
    match n.view
    case Subjects => "सभी विषय"
    case Chapters => if n.currentSubject.Some? && n.currentSubject.value.name != "" then n.currentSubject.value.name else "अध्याय"
    case Topics => if n.currentChapter.Some? && n.currentChapter.value.name != "" then n.currentChapter.value.name else "विषय"
    case Content => if n.currentTopic.Some? && n.currentTopic.value.name != "" then n.currentTopic.value.name else "नोट्स"
    case Search => "खोज परिणाम"
    case Progress => "प्रगति रिपोर्ट"
    case Home => "PET Gyan"
  }

  /** The header's back button: the header is drawn on every view but content, and shows the
      button on all of them but home. */
  predicate HeaderBackButton(n: NavigationState) {
    n.view != Content && n.view != Home
  }

  /** The topic page's own back button: the content view draws the topic page instead of the
      header whenever a topic is open, and that page always has the button. */
  predicate ContentBackButton(n: NavigationState) {
    n.view == Content && n.currentTopic.Some?
  }

  /** A back button is on screen, from the header or from the topic page. */
  predicate ShowBackButton(n: NavigationState) {
    HeaderBackButton(n) || ContentBackButton(n)
  }

  /** On a well-formed page a back button is on screen exactly off home: the header supplies it on
      every other view but content, and the topic page on content. */
  lemma BackButtonSpec(n: NavigationState)
    requires WellFormed(n)
    ensures ShowBackButton(n) <==> n.view != Home
    ensures n.view == Content ==> ContentBackButton(n) && !HeaderBackButton(n)
  {
  }

  /** The context each view carries: none on home, subjects, search and progress; a subject alone on
      chapters; a chapter but no topic on topics; a topic on content. */
  predicate WellFormed(n: NavigationState) {
    match n.view
    case Chapters => n.currentSubject.Some? && n.currentChapter.None? && n.currentTopic.None?
    case Topics => n.currentChapter.Some? && n.currentTopic.None?
    case Content => n.currentTopic.Some?
    case _ => n.currentSubject.None? && n.currentChapter.None? && n.currentTopic.None?
  }

  /** The view's level in the subject -> chapter -> topic hierarchy. */
  function Depth(v: View): nat {
    match v
    case Home => 0
    case Subjects => 1
    case Search => 1
    case Progress => 1
    case Chapters => 2
    case Topics => 3
    case Content => 4
  }

  /** Back from a view reached through the hierarchy is possible: topics know their subject and
      content knows its chapter and subject. */
  predicate HasPath(n: NavigationState) {
    && (n.view == Topics ==> n.currentSubject.Some?)
    && (n.view == Content ==> n.currentSubject.Some? && n.currentChapter.Some?)
  }

  function BackTimes(p: Page, k: nat): Page
    decreases k
  {
    if k == 0 then p else BackTimes(Back(p), k - 1)
  }

  /** Every handler keeps the page well formed. */
  lemma StepsKeepWellFormed(p: Page, s: Subject, c: Chapter, t: Topic, query: string, results: seq<SearchResult>)
    requires WellFormed(p.navigation)
    ensures WellFormed(InitialPage.navigation)
    ensures WellFormed(GoHome(p).navigation) && WellFormed(GoSubjects(p).navigation)
    ensures WellFormed(GoChapters(p, s).navigation) && WellFormed(GoTopics(p, c).navigation)
    ensures WellFormed(GoContent(p, t).navigation) && WellFormed(GoProgress(p).navigation)
    ensures WellFormed(Back(p).navigation) && WellFormed(HandleSearchStep(p, query, results).navigation)
  {
  }

  /** Back never goes down the hierarchy: it moves to a shallower view, or it stays where it is, which
      happens only on home and on topics or content opened without the context to return to. */
  lemma BackGoesUp(p: Page)
    ensures Depth(Back(p).navigation.view) < Depth(p.navigation.view)
         || Back(p) == p
         || (p.navigation.view == Home && Back(p) == GoHome(p))
    ensures Back(p) == p && p.navigation.view != Home ==>
      (p.navigation.view == Topics && p.navigation.currentSubject.None?)
      || (p.navigation.view == Content && p.navigation.currentChapter.None?)
  {
  }

  /** Back undoes each step down the hierarchy. */
  lemma BackUndoesForward(p: Page, s: Subject, c: Chapter, t: Topic)
    ensures p.navigation.view == Subjects ==> Back(GoChapters(p, s)) == GoSubjects(p)
    ensures p.navigation == NavigationState(Chapters, Some(s), None, None) ==> Back(GoTopics(p, c)) == p
    ensures p.navigation.view == Topics && p.navigation.currentChapter.Some? && p.navigation.currentTopic.None?
      ==> Back(GoContent(p, t)) == p
  {
  }

  /** The dead end: content opened from the search results shows the topic page's back button, but has no
      chapter, so back leaves the page exactly as it is, however often it is pressed. */
  lemma SearchContentDeadEnd(p: Page, query: string, results: seq<SearchResult>, t: Topic, k: nat)
    requires !IsBlank(query)
    ensures var q := GoContent(HandleSearchStep(p, query, results), t);
      q.navigation == NavigationState(Content, None, None, Some(t)) && ContentBackButton(q.navigation)
      && BackTimes(q, k) == q
  {
    var q := GoContent(HandleSearchStep(p, query, results), t);
    BackFixed(q, k);
  }

  /** The same dead end from home: a topic opened from the recent list on home has no chapter
      either, so back leaves it as it is, however often it is pressed. */
  lemma HomeContentDeadEnd(p: Page, t: Topic, k: nat)
    requires p.navigation.view == Home && WellFormed(p.navigation)
    ensures var q := GoContent(p, t);
      q.navigation == NavigationState(Content, None, None, Some(t)) && ContentBackButton(q.navigation)
      && BackTimes(q, k) == q
  {
    BackFixed(GoContent(p, t), k);
  }

  lemma {:induction false} BackFixed(q: Page, k: nat)
    requires Back(q) == q
    ensures BackTimes(q, k) == q
    decreases k
  {
    if k > 0 {
      BackFixed(q, k - 1);
    }
  }

  /** From any well-formed view reached along the hierarchy, pressing back at most four times
      returns home. */
  lemma {:induction false} BackReachesHome(p: Page, k: nat)
    requires WellFormed(p.navigation) && HasPath(p.navigation)
    requires Depth(p.navigation.view) <= k
    ensures BackTimes(p, k).navigation.view == Home
    decreases k
  {
    if k > 0 {
      var b := Back(p);
      assert WellFormed(b.navigation) && HasPath(b.navigation);
      assert Depth(b.navigation.view) <= k - 1;
      BackReachesHome(b, k - 1);
    }
  }

  /** A non-blank query always shows the search view with its results; a blank one empties the
      results and goes home only from the search view, where the query is cleared too. */
  lemma HandleSearchSpec(p: Page, query: string, results: seq<SearchResult>)
    ensures var r := HandleSearchStep(p, query, results);
      && (!IsBlank(query) ==> r.navigation == AtView(Search) && r.searchResults == results && r.searchQuery == query)
      && (IsBlank(query) ==> r.searchResults == [])
      && (IsBlank(query) && p.navigation.view == Search ==> r == InitialPage)
      && (IsBlank(query) && p.navigation.view != Search ==> r.navigation == p.navigation && r.searchQuery == query)
  {
  }

  /** The title is never empty; the chapters, topics and content views show the name they carry
      whenever it is non-empty, and a fixed fallback otherwise. */
  lemma TitleSpec(n: NavigationState)
    ensures Title(n) != ""
    ensures n.view == Chapters && n.currentSubject.Some? && n.currentSubject.value.name != "" ==> Title(n) == n.currentSubject.value.name
    ensures n.view == Chapters && (n.currentSubject.None? || n.currentSubject.value.name == "") ==> Title(n) == "अध्याय"
    ensures n.view == Topics && n.currentChapter.Some? && n.currentChapter.value.name != "" ==> Title(n) == n.currentChapter.value.name
    ensures n.view == Topics && (n.currentChapter.None? || n.currentChapter.value.name == "") ==> Title(n) == "विषय"
    ensures n.view == Content && n.currentTopic.Some? && n.currentTopic.value.name != "" ==> Title(n) == n.currentTopic.value.name
    ensures n.view == Content && (n.currentTopic.None? || n.currentTopic.value.name == "") ==> Title(n) == "नोट्स"
    ensures n.view == Home ==> Title(n) == "PET Gyan"
  {
  }

  /** The page component: its own state plus the notes store it reads and updates. */
  class IndexPage {
    const notes: NotesData
    var navigation: NavigationState
    var searchQuery: string
    var searchResults: seq<SearchResult>

    function Snapshot(): Page
      reads this
    {
      Page(navigation, searchQuery, searchResults)
    }

    constructor (store: NotesData)
      ensures notes == store && Snapshot() == InitialPage
    {
      notes := store;
      navigation := AtView(Home);
      searchQuery := "";
      searchResults := [];
    }

    method NavigateHome()
      modifies this
      ensures Snapshot() == GoHome(old(Snapshot()))
    {
      navigation := AtView(Home);
      searchQuery := "";
      searchResults := [];
    }

    method NavigateToSubjects()
      modifies this
      ensures Snapshot() == GoSubjects(old(Snapshot()))
    {
      navigation := AtView(Subjects);
    }

    method NavigateToChapters(subject: Subject)
      modifies this
      ensures Snapshot() == GoChapters(old(Snapshot()), subject)
    {
      navigation := NavigationState(Chapters, Some(subject), None, None);
    }

    method NavigateToTopics(chapter: Chapter)
      modifies this
      ensures Snapshot() == GoTopics(old(Snapshot()), chapter)
    {
      navigation := NavigationState(Topics, navigation.currentSubject, Some(chapter), None);
    }

    /** Stamps the topic's `lastRead` in the store, then opens the topic as it was passed in. */
    method NavigateToContent(topic: Topic, now: int)
      modifies this, notes
      ensures Snapshot() == GoContent(old(Snapshot()), topic)
      ensures notes.subjects == TouchInCatalog(old(notes.subjects), topic.id, now)
      ensures notes.isDark == old(notes.isDark)
    {
      notes.UpdateTopicLastRead(topic.id, now);
      navigation := NavigationState(Content, navigation.currentSubject, navigation.currentChapter, Some(topic));
    }

    method NavigateToProgress()
      modifies this
      ensures Snapshot() == GoProgress(old(Snapshot()))
    {
      navigation := AtView(Progress);
    }

    method NavigateBack()
      modifies this
      ensures Snapshot() == Back(old(Snapshot()))
    {
      match navigation.view {
        case Subjects =>
          NavigateHome();
        case Chapters =>
          NavigateToSubjects();
        case Topics =>
          if navigation.currentSubject.Some? {
            NavigateToChapters(navigation.currentSubject.value);
          }
        case Content =>
          if navigation.currentChapter.Some? {
            NavigateToTopics(navigation.currentChapter.value);
          }
        case Search =>
          NavigateHome();
        case Progress =>
          NavigateHome();
        case Home =>
          NavigateHome();
      }
    }

    method HandleSearch(query: string)
      modifies this
      ensures Snapshot() == HandleSearchStep(old(Snapshot()), query, NotesStore.Search(notes.subjects, query))
    {
      searchQuery := query;
      if !IsBlank(query) {
        var results := notes.SearchTopics(query);
        searchResults := results;
        navigation := AtView(Search);
      } else {
        searchResults := [];
        if navigation.view == Search {
          NavigateHome();
        }
      }
    }

    /** The content view's completion button: `onToggleComplete(topic.id)` on the topic shown. */
    method ToggleCurrentTopic(now: int)
      modifies notes
      ensures navigation.view == Content && navigation.currentTopic.Some? ==>
        notes.subjects == ToggleInCatalog(old(notes.subjects), navigation.currentTopic.value.id, now)
      ensures !(navigation.view == Content && navigation.currentTopic.Some?) ==> notes.subjects == old(notes.subjects)
      ensures notes.isDark == old(notes.isDark)
    {
      if navigation.view == Content && navigation.currentTopic.Some? {
        notes.ToggleTopicComplete(navigation.currentTopic.value.id, now);
      }
    }

    function PageTitle(): string
      reads this
    {
      Title(navigation)
    }
  }
}
