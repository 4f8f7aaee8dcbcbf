/** The chapter list's per-chapter counters and its three-way badge. Percentages are exact
    rationals here; the display rounding is not modelled. */
module ChapterList {
  import opened NotesTypes

  /** `topics.filter(topic => topic.isCompleted).length`. */
  function CompletedCount(ts: seq<Topic>): (r: nat)
    ensures r <= |ts|
  {
    if ts == [] then 0
    else CompletedCount(ts[..|ts| - 1]) + (if IsCompleted(ts[|ts| - 1]) then 1 else 0)
  }

  lemma CompletedCountAppend(a: seq<Topic>, b: seq<Topic>)
    ensures CompletedCount(a + b) == CompletedCount(a) + CompletedCount(b)
    decreases |b|
  {
    if b == [] {
      assert a + b == a;
    } else {
      assert (a + b)[..|a + b| - 1] == a + b[..|b| - 1];
      CompletedCountAppend(a, b[..|b| - 1]);
    }
  }

  /** The count reaches the length exactly when every topic is completed, and is zero exactly
      when none is. */
  lemma {:induction false} CompletedCountSpec(ts: seq<Topic>)
    ensures CompletedCount(ts) == |ts| <==> forall i :: 0 <= i < |ts| ==> IsCompleted(ts[i])
    ensures CompletedCount(ts) == 0 <==> forall i :: 0 <= i < |ts| ==> !IsCompleted(ts[i])
  {
    if ts != [] {
      var n := |ts| - 1;
      CompletedCountSpec(ts[..n]);
      assert forall i :: 0 <= i < n ==> ts[..n][i] == ts[i];
    }
  }

  /** `totalTopics > 0 ? (completedTopics / totalTopics) * 100 : 0`. */
  function Progress(completed: nat, total: nat): real {
    if total > 0 then (completed as real / total as real) * 100.0 else 0.0
  }

  lemma ScaleQuotient(c: real, t: real)
    requires t > 0.0
    ensures c / t * 100.0 == (c * 100.0) / t
  {
  }

  lemma QuotientFacts(x: real, t: real)
    requires t > 0.0
    ensures x / t * t == x
    ensures x / t <= 100.0 <==> x <= 100.0 * t
    ensures x / t == 100.0 <==> x == 100.0 * t
    ensures x / t > 0.0 <==> x > 0.0
    ensures x / t >= 0.0 <==> x >= 0.0
  {
  }

  /** A percentage within 0..100; 100 exactly when every one of at least one topic is completed;
      positive exactly when some topic is. */
  lemma ProgressSpec(completed: nat, total: nat)
    requires completed <= total
    ensures 0.0 <= Progress(completed, total) <= 100.0
    ensures Progress(completed, total) == 100.0 <==> total > 0 && completed == total
    ensures Progress(completed, total) > 0.0 <==> completed > 0
    ensures total == 0 ==> Progress(completed, total) == 0.0
  {
    if total > 0 {
      var c, t := completed as real, total as real;
      ScaleQuotient(c, t);
      QuotientFacts(c * 100.0, t);
      assert Progress(completed, total) == (c * 100.0) / t;
    }
  }

  datatype Badge = Done | Percent | Start

  /** `progress === 100 ? done : progress > 0 ? percentage : start`. */
  function BadgeFor(progress: real): Badge {
    if progress == 100.0 then Done else if progress > 0.0 then Percent else Start
  }

  /** The counters the list shows for one chapter. */
  function ChapterTotal(c: Chapter): nat {
    |c.topics|
  }

  function ChapterCompleted(c: Chapter): (r: nat)
    ensures r <= ChapterTotal(c)
  {
    CompletedCount(c.topics)
  }

  function ChapterBadge(c: Chapter): Badge {
    BadgeFor(Progress(ChapterCompleted(c), ChapterTotal(c)))
  }

  /** The three badges partition the chapters: done iff some topic and all completed, percentage
      iff strictly between, start iff none completed (an empty chapter included). */
  lemma ChapterBadgeSpec(c: Chapter)
    ensures ChapterBadge(c) == Done <==> ChapterTotal(c) > 0 && ChapterCompleted(c) == ChapterTotal(c)
    ensures ChapterBadge(c) == Percent <==> 0 < ChapterCompleted(c) < ChapterTotal(c)
    ensures ChapterBadge(c) == Start <==> ChapterCompleted(c) == 0
  {
    ProgressSpec(ChapterCompleted(c), ChapterTotal(c));
  }

  /** Done exactly for a non-empty chapter whose topics are all completed. */
  lemma ChapterDoneSpec(c: Chapter)
    ensures ChapterBadge(c) == Done <==>
      |c.topics| > 0 && forall i :: 0 <= i < |c.topics| ==> IsCompleted(c.topics[i])
  {
    ChapterBadgeSpec(c);
    CompletedCountSpec(c.topics);
  }
}
