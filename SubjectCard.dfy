/** The subject card's counters: topics and completed topics summed over the chapters, the
    remaining count and the progress percentage. */
module SubjectCard {
  import opened NotesTypes
  import opened Hierarchy
  import opened ChapterList

  /** `chapters.reduce((total, chapter) => total + chapter.topics.length, 0)`. */
  function ChaptersTotal(cs: seq<Chapter>): nat {
    if cs == [] then 0 else ChaptersTotal(cs[..|cs| - 1]) + |cs[|cs| - 1].topics|
  }

  /** `chapters.reduce((total, chapter) => total + chapter.topics.filter(t => t.isCompleted).length, 0)`. */
  function ChaptersCompleted(cs: seq<Chapter>): nat {
    if cs == [] then 0 else ChaptersCompleted(cs[..|cs| - 1]) + CompletedCount(cs[|cs| - 1].topics)
  }

  /** The folds count the subject's topics and its completed topics. */
  lemma {:induction false} ChaptersCountSpec(cs: seq<Chapter>)
    ensures ChaptersTotal(cs) == |ChapterTopics(cs)|
    ensures ChaptersCompleted(cs) == CompletedCount(ChapterTopics(cs))
  {
    if cs != [] {
      var n := |cs| - 1;
      ChaptersCountSpec(cs[..n]);
      CompletedCountAppend(ChapterTopics(cs[..n]), cs[n].topics);
    }
  }

  function SubjectTotal(s: Subject): nat {
    ChaptersTotal(s.chapters)
  }

  function SubjectCompleted(s: Subject): nat {
    ChaptersCompleted(s.chapters)
  }

  /** `totalTopics - completedTopics`. */
  function Remaining(s: Subject): int {
    SubjectTotal(s) - SubjectCompleted(s)
  }

  function SubjectProgress(s: Subject): real
  {
    Progress(SubjectCompleted(s), SubjectTotal(s))
  }

  /** Completed never exceeds total, so the remaining count is a count of the subject's
      uncompleted topics; the progress is a percentage, zero for a subject without topics. */
  lemma SubjectCountsSpec(s: Subject)
    ensures SubjectCompleted(s) <= SubjectTotal(s)
    ensures Remaining(s) >= 0
    ensures Remaining(s) == 0 <==> forall t :: t in ChapterTopics(s.chapters) ==> IsCompleted(t)
    ensures 0.0 <= SubjectProgress(s) <= 100.0
    ensures SubjectTotal(s) == 0 ==> SubjectProgress(s) == 0.0
  {
    ChaptersCountSpec(s.chapters);
    var ts := ChapterTopics(s.chapters);
    CompletedCountSpec(ts);
    ProgressSpec(SubjectCompleted(s), SubjectTotal(s));
    if forall t :: t in ts ==> IsCompleted(t) {
      assert forall i :: 0 <= i < |ts| ==> IsCompleted(ts[i]) by {
        forall i | 0 <= i < |ts| ensures IsCompleted(ts[i]) {
          assert ts[i] in ts;
        }
      }
    }
  }
}
