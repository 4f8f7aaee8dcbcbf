/** The progress dashboard's catalog-wide counters and the per-subject success badge. */
module ProgressDashboard {
  import opened NotesTypes
  import opened Hierarchy
  import opened ChapterList
  import opened SubjectCard

  /** `subjects.reduce((total, subject) => total + subject.chapters.reduce(...topics.length...), 0)`. */
  function TotalTopics(ss: seq<Subject>): nat {
    if ss == [] then 0 else TotalTopics(ss[..|ss| - 1]) + ChaptersTotal(ss[|ss| - 1].chapters)
  }

  /** The same fold counting completed topics. */
  function CompletedTopics(ss: seq<Subject>): nat {
    if ss == [] then 0 else CompletedTopics(ss[..|ss| - 1]) + ChaptersCompleted(ss[|ss| - 1].chapters)
  }

  /** The dashboard's totals count the catalog's topics and completed topics in traversal order,
      so completed never exceeds total. */
  lemma {:induction false} TotalsSpec(ss: seq<Subject>)
    ensures TotalTopics(ss) == |AllTopics(ss)|
    ensures CompletedTopics(ss) == CompletedCount(AllTopics(ss))
    ensures CompletedTopics(ss) <= TotalTopics(ss)
  {
    if ss != [] {
      var n := |ss| - 1;
      TotalsSpec(ss[..n]);
      assert ss == ss[..n] + [ss[n]];
      AllTopicsSnoc(ss[..n], ss[n]);
      ChaptersCountSpec(ss[n].chapters);
      CompletedCountAppend(AllTopics(ss[..n]), ChapterTopics(ss[n].chapters));
    }
  }

  function PerSubjectTotals(ss: seq<Subject>): nat {
    if ss == [] then 0 else PerSubjectTotals(ss[..|ss| - 1]) + SubjectTotal(ss[|ss| - 1])
  }

  function PerSubjectCompleted(ss: seq<Subject>): nat {
    if ss == [] then 0 else PerSubjectCompleted(ss[..|ss| - 1]) + SubjectCompleted(ss[|ss| - 1])
  }

  /** The per-subject tiles' counts add up to the catalog-wide counts, both being the number of
      topics and of completed topics in the whole catalog. */
  lemma {:induction false} PerSubjectSumsSpec(ss: seq<Subject>)
    ensures PerSubjectTotals(ss) == |AllTopics(ss)| == TotalTopics(ss)
    ensures PerSubjectCompleted(ss) == CompletedCount(AllTopics(ss)) == CompletedTopics(ss)
  {
    TotalsSpec(ss);
    if ss != [] {
      var n := |ss| - 1;
      PerSubjectSumsSpec(ss[..n]);
      assert ss == ss[..n] + [ss[n]];
      AllTopicsSnoc(ss[..n], ss[n]);
      ChaptersCountSpec(ss[n].chapters);
      CompletedCountAppend(AllTopics(ss[..n]), ChapterTopics(ss[n].chapters));
    }
  }

  /** `totalTopics > 0 ? (completedTopics / totalTopics) * 100 : 0`. */
  function OverallProgress(ss: seq<Subject>): (r: real)
    ensures TotalTopics(ss) == 0 ==> r == 0.0
    ensures 0.0 <= r <= 100.0
    ensures r == 100.0 <==> TotalTopics(ss) > 0 && CompletedTopics(ss) == TotalTopics(ss)
  {
    TotalsSpec(ss);
    ProgressSpec(CompletedTopics(ss), TotalTopics(ss));
    Progress(CompletedTopics(ss), TotalTopics(ss))
  }

  /** `subjectProgress === 100`: the tile's success badge. */
  predicate SuccessBadge(s: Subject) {
    Progress(SubjectCompleted(s), SubjectTotal(s)) == 100.0
  }

  /** A subject gets the success badge iff it has topics and all of them are completed. */
  lemma SuccessBadgeSpec(s: Subject)
    ensures SuccessBadge(s) <==>
      |ChapterTopics(s.chapters)| > 0 && forall t :: t in ChapterTopics(s.chapters) ==> IsCompleted(t)
  {
    var ts := ChapterTopics(s.chapters);
    ChaptersCountSpec(s.chapters);
    CompletedCountSpec(ts);
    ProgressSpec(SubjectCompleted(s), SubjectTotal(s));
    if forall t :: t in ts ==> IsCompleted(t) {
      forall i | 0 <= i < |ts| ensures IsCompleted(ts[i]) {
        assert ts[i] in ts;
      }
    }
  }
}
