# PET Gyan study notes — a Dafny model

PET Gyan is a study-notes app for an exam syllabus. Its catalog is nested: subjects hold chapters, and chapters hold topics. A reader browses subjects, chapters and topics and opens a topic's notes. The app records when each topic was last read and lets the reader mark topics completed. It searches topic names and contents and lists the most recently read topics. It shows progress counters, percentages and badges per chapter, per subject and overall. The reading view has a font-size control. Downloaded PDFs are tracked per topic. An admin form uploads PDF notes to storage.

This project models that core in Dafny:

- `NotesTypes`: the catalog records (`Subject`, `Chapter`, `Topic`, `SearchResult`). Optional fields are `Option`s and a date is an integer timestamp.
- `JsText`: the JavaScript string operations the app relies on: `trim()` emptiness, `toLowerCase()`, `includes()` and `substring(0, n)`.
- `Hierarchy`: the traversal order over subjects, chapters and topics (`Entries`, `AllTopics`, `AllChapters`) and its decomposition lemmas.
- `NotesStore`: the notes hook.
  - Functions: the catalog rewrite behind toggling completion and stamping the read time; search; the recent-topics list; the lookups by id.
  - The class `NotesData` holds the catalog and the theme flag. Its methods update them in place, and its search and recent-topics methods run the source's nested loops, proved equal to those functions.
- `Navigation`: the main page's view state machine as pure step functions over a `Page`, and the class `IndexPage` whose handlers update the page's state and call the store.
- `TopicDisplay`: the choice between a topic's English and Hindi names, and the Hindi name table.
- `TopicContent`: the reading view's font size, clamped to 12..24 in steps of 2, with a reset to 16.
- `ChapterList`, `SubjectCard` and `ProgressDashboard`: the completion counters, percentages and badges.
- `DownloadTracker`: the downloaded-PDF records and the class `PdfDownloadTracker`, which loads and saves them through a storage slot.
- `AdminPanel`: the upload form (PDF-only file filter, completeness guard, storage path, reset on success) and the subject-label formatter.
- `SeedCatalog`: the twelve seeded subjects, with proofs that their back-references agree with the nesting, that every seeded topic starts fresh, and that subject and topic ids are unique.

## Model

| member | source | states |
|---|---|---|
| JsText.LowerSpec | src/hooks/useNotesData.ts:87 | lower-casing leaves no ASCII capital, fixes exactly the strings that have none, is idempotent, and maps two strings alike exactly when they agree up to ASCII case |
| JsText.Prefix | src/hooks/useNotesData.ts:98 | `substring(0, n)` is the prefix of length min(n, length) |
| Hierarchy.EntriesCover | src/hooks/useNotesData.ts:89-91 | every subject/chapter/topic position is visited by the nested traversal, with its own subject and chapter |
| Hierarchy.EntriesFrom | src/hooks/useNotesData.ts:89-91 | every visited entry comes from some position of the catalog |
| NotesStore.ToggleEffect | src/hooks/useNotesData.ts:46-64 | toggling negates the completion flag (an absent flag counts as false) and stamps the read time on every topic with that id; every other topic and the catalog's shape and order are unchanged |
| NotesStore.TouchEffect | src/hooks/useNotesData.ts:67-81 | stamping sets the read time of every topic with that id and changes nothing else |
| NotesStore.ToggleTwice | src/hooks/useNotesData.ts:46-64 | toggling twice restores every completion flag and leaves the later read time |
| NotesStore.TouchThenToggle | src/hooks/useNotesData.ts:46-81 | a stamp followed by a toggle equals the toggle alone |
| NotesStore.TouchTwice | src/hooks/useNotesData.ts:67-81 | two stamps equal the later one |
| NotesStore.SearchEntriesOrder | src/hooks/useNotesData.ts:89-109 | the results are exactly the matching entries, one per match, in traversal order |
| NotesStore.SearchSound | src/hooks/useNotesData.ts:83-112 | a blank query yields nothing; every result's topic matches the lower-cased query in name or content, lies in its chapter and subject, and carries the name, or else the first 100 content characters followed by "...", as its match text |
| NotesStore.SearchComplete | src/hooks/useNotesData.ts:89-106 | for a non-blank query, every topic whose name or content matches appears among the results |
| NotesStore.ReadTopicsSpec | src/hooks/useNotesData.ts:115-124 | the collected topics are exactly the topics with a read time |
| NotesStore.InsertByRecencyElements | src/hooks/useNotesData.ts:126-129 | insertion adds exactly the one topic |
| NotesStore.InsertByRecencySorted | src/hooks/useNotesData.ts:126-129 | insertion keeps a list sorted newest first |
| NotesStore.InsertByRecencyStable | src/hooks/useNotesData.ts:126-129 | insertion places the topic after every topic read at the same time |
| NotesStore.SortByRecencySpec | src/hooks/useNotesData.ts:126-129 | the sort is a permutation, newest first, and stable: topics read at the same time keep their order |
| NotesStore.RecentSpec | src/hooks/useNotesData.ts:114-131 | the recent list holds only read topics, newest first, and has min(limit, number read) entries for a non-negative limit; any read topic it leaves out is no newer than its last entry |
| NotesStore.FindSubjectSpec | src/hooks/useNotesData.ts:134-136 | the lookup fails iff no subject has the id, and otherwise returns the first one that does |
| NotesStore.FindChapterSpec | src/hooks/useNotesData.ts:140 | the same for chapters of a list |
| NotesStore.FindTopicSpec | src/hooks/useNotesData.ts:149 | the same for topics of a list |
| NotesStore.SearchChapter | src/hooks/useNotesData.ts:91-107 | the inner loop appends exactly the chapter's matching results |
| NotesStore.SearchSubject | src/hooks/useNotesData.ts:90-108 | the middle loop appends exactly the subject's matching results |
| NotesStore.CollectChapter | src/hooks/useNotesData.ts:118-122 | the inner loop appends exactly the chapter's read topics |
| NotesStore.CollectSubject | src/hooks/useNotesData.ts:117-123 | the middle loop appends exactly the subject's read topics |
| NotesStore.NotesData.constructor | src/hooks/useNotesData.ts:6-7 | the store starts from the given catalog with the light theme |
| NotesStore.NotesData.ToggleTheme | src/hooks/useNotesData.ts:42-44 | the theme flag flips and the catalog is untouched |
| NotesStore.NotesData.ToggleTopicComplete | src/hooks/useNotesData.ts:46-64 | the catalog becomes the toggled catalog (see ToggleEffect) and the theme is untouched |
| NotesStore.NotesData.UpdateTopicLastRead | src/hooks/useNotesData.ts:67-81 | the catalog becomes the stamped catalog (see TouchEffect) and the theme is untouched |
| NotesStore.NotesData.SearchTopics | src/hooks/useNotesData.ts:83-112 | the loops return exactly the specified search results (see SearchSound, SearchComplete) |
| NotesStore.NotesData.GetRecentTopics | src/hooks/useNotesData.ts:114-131 | the loops return exactly the specified recent list (see RecentSpec) |
| NotesStore.NotesData.GetChapterById | src/hooks/useNotesData.ts:138-144 | the loop returns the first chapter with the id in traversal order, or nothing |
| NotesStore.NotesData.GetTopicById | src/hooks/useNotesData.ts:146-154 | the loops return the first topic with the id in traversal order, or nothing |
| Navigation.StepsKeepWellFormed | src/pages/Index.tsx:36-122 | every handler leaves a well-formed page: the subject, chapter and topic are present only in the views that use them |
| Navigation.BackGoesUp | src/pages/Index.tsx:79-104 | back moves to a shallower view or stays put, and it stays put off home only on topics without a subject or content without a chapter |
| Navigation.BackUndoesForward | src/pages/Index.tsx:54-104 | back undoes each step down from subjects to chapters, to topics, to content |
| Navigation.SearchContentDeadEnd | src/pages/Index.tsx:69-118 | content opened from search results shows the topic page's back button (drawn instead of the header, Index.tsx lines 222-229 and 272-273, and TopicContent.tsx lines 25-27), but has no chapter, so any number of backs leaves the page unchanged |
| Navigation.HomeContentDeadEnd | src/pages/Index.tsx:165-167 | a topic opened from home's recent list has no chapter either, so it shows the topic page's back button but any number of backs leaves the page unchanged |
| Navigation.BackButtonSpec | src/pages/Index.tsx:272-281 | on a well-formed page a back button is on screen exactly off home: the header's on every view but content, the topic page's own on content |
| Navigation.BackReachesHome | src/pages/Index.tsx:79-104 | from a view reached along the hierarchy, as many backs as its depth return home |
| Navigation.HandleSearchSpec | src/pages/Index.tsx:106-118 | a non-blank query shows the search view with the results; a blank one clears the results and returns home (query cleared) only from the search view |
| Navigation.TitleSpec | src/pages/Index.tsx:126-143 | the title is never empty; the chapters, topics and content views show the current name or a fixed fallback when it is missing or empty; home shows the app name |
| Navigation.IndexPage.constructor | src/pages/Index.tsx:36-41 | the page starts at home with an empty query and no results |
| Navigation.IndexPage.NavigateHome | src/pages/Index.tsx:44-48 | home view, query and results cleared |
| Navigation.IndexPage.NavigateToSubjects | src/pages/Index.tsx:50-52 | subjects view with no context |
| Navigation.IndexPage.NavigateToChapters | src/pages/Index.tsx:54-59 | chapters view of the given subject |
| Navigation.IndexPage.NavigateToTopics | src/pages/Index.tsx:61-67 | topics view of the given chapter, keeping the subject |
| Navigation.IndexPage.NavigateToContent | src/pages/Index.tsx:69-77 | stamps the topic's read time in the store, then shows it, keeping subject and chapter |
| Navigation.IndexPage.NavigateToProgress | src/pages/Index.tsx:120-122 | progress view with no context |
| Navigation.IndexPage.NavigateBack | src/pages/Index.tsx:79-104 | the page moves as the back step prescribes (see BackGoesUp, BackReachesHome) |
| Navigation.IndexPage.HandleSearch | src/pages/Index.tsx:106-118 | the page moves as the search step prescribes, with the store's results for the query (see HandleSearchSpec) |
| Navigation.IndexPage.ToggleCurrentTopic | src/pages/Index.tsx:222-228 | on a content view with a topic, toggles that topic's id in the store; otherwise the store is unchanged |
| TopicDisplay.GetTopicDisplayName | src/utils/topicDisplay.ts:4-12 | the name shown is the topic's English or Hindi name, and always the English one in search and admin |
| TopicDisplay.DisplayNameSpec | src/utils/topicDisplay.ts:4-12 | the full rule: the English name in search and admin; in the default display context the Hindi name exactly when it is set and non-empty, else the English one; the context defaults to display |
| TopicContent.ApplyKeepsValid | src/components/TopicContent.tsx:15-18 | each button keeps an even size within 12..24; increase adds 2 except at 24, decrease subtracts 2 except at 12 |
| TopicContent.RunKeepsValid | src/components/TopicContent.tsx:15-18 | any sequence of presses from a valid size ends at a valid size |
| TopicContent.StepsUndo | src/components/TopicContent.tsx:17-18 | below the maximum, decrease undoes increase; above the minimum, increase undoes decrease |
| TopicContent.FontSizeControl.constructor | src/components/TopicContent.tsx:15 | the size starts at 16 |
| TopicContent.FontSizeControl.IncreaseFontSize | src/components/TopicContent.tsx:17 | the size grows by 2, capped at 24 |
| TopicContent.FontSizeControl.DecreaseFontSize | src/components/TopicContent.tsx:18 | the size shrinks by 2, floored at 12 |
| TopicContent.FontSizeControl.ResetFontSize | src/components/TopicContent.tsx:62 | the size returns to 16 |
| ChapterList.CompletedCount | src/components/ChapterList.tsx:16 | the completed count never exceeds the topic count |
| ChapterList.CompletedCountAppend | src/components/ChapterList.tsx:16 | counting distributes over concatenation |
| ChapterList.CompletedCountSpec | src/components/ChapterList.tsx:16 | the count equals the topic count iff all topics are completed, and is zero iff none is |
| ChapterList.ProgressSpec | src/components/ChapterList.tsx:17 | the percentage lies in 0..100, is 100 iff there are topics and all are completed, is positive iff some is, and is 0 when there are no topics |
| ChapterList.ChapterCompleted | src/components/ChapterList.tsx:15-16 | a chapter's completed count never exceeds its topic count |
| ChapterList.ChapterBadgeSpec | src/components/ChapterList.tsx:42-56 | the three badges partition the chapters: done iff some topic and all completed, a percentage iff strictly between, start iff none completed |
| ChapterList.ChapterDoneSpec | src/components/ChapterList.tsx:42-46 | a chapter is marked done iff it has topics and every one is completed |
| SubjectCard.ChaptersCountSpec | src/components/SubjectCard.tsx:12-15 | the two folds over chapters count the subject's topics and its completed topics |
| SubjectCard.SubjectCountsSpec | src/components/SubjectCard.tsx:12-45 | completed never exceeds total; the remaining count is non-negative and zero iff every topic is completed; progress lies in 0..100 and is 0 with no topics |
| ProgressDashboard.TotalsSpec | src/components/ProgressDashboard.tsx:13-19 | the nested folds count the catalog's topics and completed topics, so completed never exceeds total |
| ProgressDashboard.PerSubjectSumsSpec | src/components/ProgressDashboard.tsx:33-36 | the per-subject tiles' counts add up to the overall counts |
| ProgressDashboard.OverallProgress | src/components/ProgressDashboard.tsx:21 | the overall percentage lies in 0..100, is 0 with no topics, and is 100 iff there are topics and all are completed |
| ProgressDashboard.SuccessBadgeSpec | src/components/ProgressDashboard.tsx:37-50 | a subject tile shows the success badge iff the subject has topics and all are completed |
| DownloadTracker.WithoutSpec | src/hooks/usePdfDownloadTracker.ts:85 | the filter keeps exactly the records of other topics and leaves none of the given topic |
| DownloadTracker.WithoutAppend | src/hooks/usePdfDownloadTracker.ts:85 | the filter distributes over concatenation, so the kept records stay in their order |
| DownloadTracker.WithoutKeepsUnique | src/hooks/usePdfDownloadTracker.ts:72 | filtering keeps the one-record-per-topic invariant |
| DownloadTracker.WithoutTwice | src/hooks/usePdfDownloadTracker.ts:85 | filtering is idempotent |
| DownloadTracker.FindPdfSpec | src/hooks/usePdfDownloadTracker.ts:76-82 | the lookup finds a record iff the topic has one, and what it finds is the first record of that topic in the list |
| DownloadTracker.MarkedSpec | src/hooks/usePdfDownloadTracker.ts:64-74 | after marking, the topic has exactly the new record, at the end, and the lookup returns it; other topics' records and lookups are unchanged; uniqueness is kept |
| DownloadTracker.MarkedOwn | src/hooks/usePdfDownloadTracker.ts:72 | the new record is the marked topic's only record, at the end of the list |
| DownloadTracker.MarkedOther | src/hooks/usePdfDownloadTracker.ts:72 | marking one topic leaves every other topic's records and lookup as they were |
| DownloadTracker.MarkedUnique | src/hooks/usePdfDownloadTracker.ts:72 | marking keeps one record per topic |
| DownloadTracker.MarkedIdempotent | src/hooks/usePdfDownloadTracker.ts:64-74 | marking the same record twice equals marking it once |
| DownloadTracker.RemovedSpec | src/hooks/usePdfDownloadTracker.ts:84-87 | after removal the topic has no record and the lookup fails; other topics' records and lookups are unchanged; uniqueness is kept |
| DownloadTracker.PdfDownloadTracker.constructor | src/hooks/usePdfDownloadTracker.ts:13 | the tracker starts with no records |
| DownloadTracker.PdfDownloadTracker.LoadDownloadedPdfs | src/hooks/usePdfDownloadTracker.ts:20-41 | the records become the parsed list the storage slot holds; unreadable data empties them; a missing slot empties them on the device and keeps them on the web; the slot is unchanged |
| DownloadTracker.PdfDownloadTracker.SaveDownloadedPdfs | src/hooks/usePdfDownloadTracker.ts:43-62 | a successful write stores the list and adopts it; a failed one changes nothing |
| DownloadTracker.PdfDownloadTracker.MarkPdfAsDownloaded | src/hooks/usePdfDownloadTracker.ts:64-74 | saves the marked list (see MarkedSpec) |
| DownloadTracker.PdfDownloadTracker.RemovePdfRecord | src/hooks/usePdfDownloadTracker.ts:84-87 | saves the filtered list (see RemovedSpec) |
| DownloadTracker.PdfDownloadTracker.SaveThenReload | src/hooks/usePdfDownloadTracker.ts:13-62 | after a successful save, a new tracker on the same slot holds exactly the saved list once its mount-time load has run, on either platform; after a failed write the slot is unchanged and the new tracker holds what it held before |
| AdminPanel.StoragePathInjective | src/components/AdminPanel.tsx:59 | with a slash-free subject key and file name, and any chapter text, the storage path determines the subject, chapter and file name |
| AdminPanel.AdminSubjectsSlashFree | src/components/AdminPanel.tsx:27-31 | every subject key the form offers is slash-free |
| AdminPanel.ReplaceFirstHyphenSpec | src/components/AdminPanel.tsx:111 | a string-pattern replace changes only the first hyphen, into a space |
| AdminPanel.HyphenToSpace | src/components/AdminPanel.tsx:111 | in a two-word key the hyphen becomes a space and both words are kept |
| AdminPanel.CapitalizeJoin | src/components/AdminPanel.tsx:111 | capitalising works word by word across a separator that is not a word character |
| AdminPanel.CapitalizeWord | src/components/AdminPanel.tsx:111 | a lower-case word is capitalised at its first letter only |
| AdminPanel.CapitalizeWordsSpec | src/components/AdminPanel.tsx:111 | capitalising changes letter case only (lower-casing undoes it) and is idempotent |
| AdminPanel.TwoWordLabel | src/components/AdminPanel.tsx:111 | a two-word key such as `indian-history` is labelled with a space and both words capitalised |
| AdminPanel.SubjectLabelSecondHyphen | src/components/AdminPanel.tsx:111 | a key with two hyphens keeps the second one, and the letter after it is still capitalised |
| AdminPanel.UploadForm.constructor | src/components/AdminPanel.tsx:18-24 | the form starts empty, not uploading, with no storage calls |
| AdminPanel.UploadForm.HandleFileChange | src/components/AdminPanel.tsx:33-44 | only a file whose MIME type is exactly `application/pdf` is kept; anything else raises the wrong-file notice and changes nothing |
| AdminPanel.UploadForm.HandleUpload | src/components/AdminPanel.tsx:46-92 | an incomplete form is refused with no storage call and nothing changed; a complete one stores to its path, resets the form on success, keeps it on failure, and clears the uploading flag |
| SeedCatalog.UniqueIdsFind | src/hooks/useNotesData.ts:146-154 | in a topic list without repeated ids, looking up a topic's id finds that topic |
| SeedCatalog.CatalogIdsDistinct | src/data/subjects.ts:3-248 | distinct ids within each subject, plus disjoint id sets across subjects, give distinct ids across the catalog |
| SeedCatalog.SeedIdsDistinct | src/data/subjects.ts:3-248 | a catalog whose subjects carry the seed's topic id lists has distinct topic ids |
| SeedCatalog.SeedIndianHistory | src/data/subjects.ts:4-29 | one chapter; the back-references agree; all topics are fresh text topics; the topic ids are as listed |
| SeedCatalog.SeedNationalMovement | src/data/subjects.ts:30-47 | as above |
| SeedCatalog.SeedGeography | src/data/subjects.ts:48-70 | as above |
| SeedCatalog.SeedIndianEconomy | src/data/subjects.ts:71-95 | as above |
| SeedCatalog.SeedConstitutionAdministration | src/data/subjects.ts:96-116 | as above |
| SeedCatalog.SeedGeneralScience | src/data/subjects.ts:117-132 | as above |
| SeedCatalog.SeedElementaryArithmetic | src/data/subjects.ts:133-151 | as above |
| SeedCatalog.SeedGeneralHindi | src/data/subjects.ts:152-172 | as above |
| SeedCatalog.SeedGeneralEnglish | src/data/subjects.ts:173-187 | as above |
| SeedCatalog.SeedLogicReasoning | src/data/subjects.ts:188-206 | as above |
| SeedCatalog.SeedCurrentAffairs | src/data/subjects.ts:207-221 | as above |
| SeedCatalog.SeedGeneralAwareness | src/data/subjects.ts:222-247 | as above |
| SeedCatalog.SeedSubjects | src/data/subjects.ts:3-248 | twelve subjects with distinct ids, each with a single chapter whose back-references agree and whose topics are fresh; topic ids are distinct across the catalog, so every lookup by id is unambiguous |

## Left out

- Persistence of the notes store is left out: loading the saved catalog and theme on mount, and saving them on change. The store starts from the catalog it is given.
- The theme's effect on the page is left out: the `dark` class on the document element.
- The file system and local storage behind the download tracker are reduced to one storage slot. The slot holds a parsed list, unreadable data, or nothing. Whether a write succeeds is a parameter.
- The storage and database clients behind the admin upload are reduced to a recorded storage path and a success-or-failure outcome. The metadata written to the database is not modelled.
- Clocks are parameters: the read time `new Date()` is an integer `now`, and the download time is a given ISO string.
- Dates are integer timestamps. Sorting compares them as numbers, as `getTime()` does.
- The "read today" counter of the progress dashboard (src/components/ProgressDashboard.tsx:23-28) is left out. It needs calendar dates in the local time zone.
- Percentages are exact reals rather than IEEE doubles, and `Math.round` is not modelled. With the catalog's small counts, (completed / total) * 100 equals 100 exactly when completed equals total under both readings.
- JsText.Prefix: strings are sequences of Unicode scalar values, while `substring(0, 100)` counts UTF-16 code units. Content with characters outside the Basic Multilingual Plane (emoji) before position 100 gets a longer prefix in the model, and JavaScript can cut such a character in half.
- AdminPanel.StoragePathInjective: file names are assumed slash-free, as browser file names are base names. The model does not derive this.
- JsText.Lower: only ASCII letters are lower-cased. The full Unicode case mapping of `toLowerCase()` in search is not modelled. (The label formatter loses nothing here: `/\b\w/g` matches only ASCII word characters, on which `UpperChar` is exactly `toUpperCase()`.)
- AdminPanel.UploadForm.HandleUpload: the intermediate `uploading = true` seen while the asynchronous upload is pending is not observable in the contract. Only the final state is stated. Interleaving with other events during the `await`s is not modelled.
- Notifications are reduced to their kind. Their Hindi titles and descriptions are left out.
- The rendering of every component is left out, as are the PDF viewer, the PDF data hook, the search bar, the header and the ad banner.
- TopicDisplay.HindiTopicNames: the table is reproduced, but the display-name choice does not consult it, just as the source's function does not.
- NotesStore.NotesData.GetSubjectById is a reads-only function over the store. Its behaviour is stated by FindSubjectSpec.
- The seed catalog is written as one constant per subject plus one wrapper method per subject. This keeps each proof over the large string literals small. `SeedSubjects` assembles the twelve in source order.
