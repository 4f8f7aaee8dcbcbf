/** Traversal of the nested catalog in the order the hooks' nested `forEach` and
    `for ... of` loops visit it: subject by subject, chapter by chapter, topic by topic.
    Each flattening is defined by its last element, so that extending a loop's
    visited prefix by one element extends the flattening by definition. */
module Hierarchy {
  import opened NotesTypes

  /** A topic together with the chapter and subject enclosing it. */
  datatype Entry = Entry(subject: Subject, chapter: Chapter, topic: Topic)

  predicate ValidPos(ss: seq<Subject>, i: int, j: int, k: int) {
    0 <= i < |ss| && 0 <= j < |ss[i].chapters| && 0 <= k < |ss[i].chapters[j].topics|
  }

  function TopicAt(ss: seq<Subject>, i: int, j: int, k: int): Topic
    requires ValidPos(ss, i, j, k)
  {
    ss[i].chapters[j].topics[k]
  }

  function EntryAt(ss: seq<Subject>, i: int, j: int, k: int): Entry
    requires ValidPos(ss, i, j, k)
  {
    Entry(ss[i], ss[i].chapters[j], ss[i].chapters[j].topics[k])
  }

  function TopicEntries(s: Subject, c: Chapter, ts: seq<Topic>): seq<Entry> {
    if ts == [] then [] else TopicEntries(s, c, ts[..|ts| - 1]) + [Entry(s, c, ts[|ts| - 1])]
  }

  /** The entries of one chapter pair each of its topics, in order, with the chapter and subject. */
  lemma {:induction false} TopicEntriesSpec(s: Subject, c: Chapter, ts: seq<Topic>)
    ensures |TopicEntries(s, c, ts)| == |ts|
    ensures forall k :: 0 <= k < |ts| ==> TopicEntries(s, c, ts)[k] == Entry(s, c, ts[k])
  {
    if ts != [] {
      TopicEntriesSpec(s, c, ts[..|ts| - 1]);
    }
  }

  function ChapterEntries(s: Subject, cs: seq<Chapter>): seq<Entry> {
    if cs == [] then [] else ChapterEntries(s, cs[..|cs| - 1]) + TopicEntries(s, cs[|cs| - 1], cs[|cs| - 1].topics)
  }

  /** Every topic of the catalog with its context, in traversal order. */
  function Entries(ss: seq<Subject>): seq<Entry> {
    if ss == [] then [] else Entries(ss[..|ss| - 1]) + ChapterEntries(ss[|ss| - 1], ss[|ss| - 1].chapters)
  }

  function ChapterTopics(cs: seq<Chapter>): seq<Topic> {
    if cs == [] then [] else ChapterTopics(cs[..|cs| - 1]) + cs[|cs| - 1].topics
  }

  /** Every topic of the catalog, in traversal order. */
  function AllTopics(ss: seq<Subject>): seq<Topic> {
    ChapterTopics(AllChapters(ss))
  }

  /** Every chapter of the catalog, in traversal order. */
  function AllChapters(ss: seq<Subject>): seq<Chapter> {
    if ss == [] then [] else AllChapters(ss[..|ss| - 1]) + ss[|ss| - 1].chapters
  }

  /** One more topic visited: the flattening grows by its entry. */
  lemma TopicEntriesSnoc(s: Subject, c: Chapter, ts: seq<Topic>, t: Topic)
    ensures TopicEntries(s, c, ts + [t]) == TopicEntries(s, c, ts) + [Entry(s, c, t)]
  {
    assert (ts + [t])[..|ts|] == ts;
  }

  /** One more chapter visited: the flattening grows by its topics' entries. */
  lemma ChapterEntriesSnoc(s: Subject, cs: seq<Chapter>, c: Chapter)
    ensures ChapterEntries(s, cs + [c]) == ChapterEntries(s, cs) + TopicEntries(s, c, c.topics)
  {
    assert (cs + [c])[..|cs|] == cs;
  }

  /** One more subject visited: the flattening grows by its chapters' entries. */
  lemma EntriesSnoc(ss: seq<Subject>, x: Subject)
    ensures Entries(ss + [x]) == Entries(ss) + ChapterEntries(x, x.chapters)
  {
    assert (ss + [x])[..|ss|] == ss;
  }

  lemma ChapterTopicsSnoc(cs: seq<Chapter>, c: Chapter)
    ensures ChapterTopics(cs + [c]) == ChapterTopics(cs) + c.topics
  {
    assert (cs + [c])[..|cs|] == cs;
  }

  lemma AllTopicsSnoc(ss: seq<Subject>, x: Subject)
    ensures AllTopics(ss + [x]) == AllTopics(ss) + ChapterTopics(x.chapters)
  {
    AllChaptersSnoc(ss, x);
    ChapterTopicsAppend(AllChapters(ss), x.chapters);
  }

  lemma AllChaptersSnoc(ss: seq<Subject>, x: Subject)
    ensures AllChapters(ss + [x]) == AllChapters(ss) + x.chapters
  {
    assert (ss + [x])[..|ss|] == ss;
  }

  lemma {:induction false} ChapterEntriesCover(s: Subject, cs: seq<Chapter>, j: int, k: int)
    requires 0 <= j < |cs| && 0 <= k < |cs[j].topics|
    ensures Entry(s, cs[j], cs[j].topics[k]) in ChapterEntries(s, cs)
  {
    var n := |cs| - 1;
    if j < n {
      ChapterEntriesCover(s, cs[..n], j, k);
    } else {
      TopicEntriesSpec(s, cs[n], cs[n].topics);
      assert TopicEntries(s, cs[n], cs[n].topics)[k] == Entry(s, cs[j], cs[j].topics[k]);
    }
  }

  /** Every position of the catalog is visited. */
  lemma {:induction false} EntriesCover(ss: seq<Subject>, i: int, j: int, k: int)
    requires ValidPos(ss, i, j, k)
    ensures EntryAt(ss, i, j, k) in Entries(ss)
  {
    var n := |ss| - 1;
    if i < n {
      assert ValidPos(ss[..n], i, j, k);
      EntriesCover(ss[..n], i, j, k);
    } else {
      ChapterEntriesCover(ss[n], ss[n].chapters, j, k);
    }
  }

  lemma {:induction false} ChapterEntriesFrom(s: Subject, cs: seq<Chapter>, e: Entry)
    requires e in ChapterEntries(s, cs)
    ensures e.subject == s
    ensures exists j, k :: 0 <= j < |cs| && 0 <= k < |cs[j].topics| && e.chapter == cs[j] && e.topic == cs[j].topics[k]
  {
    var n := |cs| - 1;
    if e in ChapterEntries(s, cs[..n]) {
      ChapterEntriesFrom(s, cs[..n], e);
      var j, k :| 0 <= j < |cs[..n]| && 0 <= k < |cs[..n][j].topics| && e.chapter == cs[..n][j] && e.topic == cs[..n][j].topics[k];
      assert cs[..n][j] == cs[j];
    } else {
      var ts := TopicEntries(s, cs[n], cs[n].topics);
      TopicEntriesSpec(s, cs[n], cs[n].topics);
      var k :| 0 <= k < |ts| && ts[k] == e;
      assert e.chapter == cs[n] && e.topic == cs[n].topics[k];
    }
  }

  /** Every visited entry is a topic of the catalog with its own chapter and subject. */
  lemma {:induction false} EntriesFrom(ss: seq<Subject>, e: Entry)
    requires e in Entries(ss)
    ensures exists i, j, k :: ValidPos(ss, i, j, k) && e == EntryAt(ss, i, j, k)
  {
    var n := |ss| - 1;
    if e in Entries(ss[..n]) {
      EntriesFrom(ss[..n], e);
      var i, j, k :| ValidPos(ss[..n], i, j, k) && e == EntryAt(ss[..n], i, j, k);
      assert ss[..n][i] == ss[i];
      assert ValidPos(ss, i, j, k) && e == EntryAt(ss, i, j, k);
    } else {
      ChapterEntriesFrom(ss[n], ss[n].chapters, e);
      var j, k :| 0 <= j < |ss[n].chapters| && 0 <= k < |ss[n].chapters[j].topics|
        && e.chapter == ss[n].chapters[j] && e.topic == ss[n].chapters[j].topics[k];
      assert ValidPos(ss, n, j, k) && e == EntryAt(ss, n, j, k);
    }
  }

  lemma {:induction false} ChapterTopicsAppend(a: seq<Chapter>, b: seq<Chapter>)
    ensures ChapterTopics(a + b) == ChapterTopics(a) + ChapterTopics(b)
  {
    if b == [] {
      assert a + b == a;
    } else {
      var n := |b| - 1;
      assert (a + b)[..|a + b| - 1] == a + b[..n];
      ChapterTopicsAppend(a, b[..n]);
    }
  }

  lemma AllTopicsAppend(a: seq<Subject>, b: seq<Subject>)
    ensures AllTopics(a + b) == AllTopics(a) + AllTopics(b)
  {
    AllChaptersAppend(a, b);
    ChapterTopicsAppend(AllChapters(a), AllChapters(b));
  }

  lemma {:induction false} AllChaptersAppend(a: seq<Subject>, b: seq<Subject>)
    ensures AllChapters(a + b) == AllChapters(a) + AllChapters(b)
  {
    if b == [] {
      assert a + b == a;
    } else {
      var n := |b| - 1;
      assert (a + b)[..|a + b| - 1] == a + b[..n];
      AllChaptersAppend(a, b[..n]);
    }
  }

  /** The topics of the catalog split around subject i. */
  lemma AllTopicsSplit(ss: seq<Subject>, i: int)
    requires 0 <= i < |ss|
    ensures AllTopics(ss) == AllTopics(ss[..i]) + ChapterTopics(ss[i].chapters) + AllTopics(ss[i + 1..])
  {
    var a, c, b := AllChapters(ss[..i]), ss[i].chapters, AllChapters(ss[i + 1..]);
    AllChaptersSplit(ss, i);
    ChapterTopicsAppend(a + c, b);
    ChapterTopicsAppend(a, c);
  }

  /** The topics of a subject split around chapter j. */
  lemma {:induction false} ChapterTopicsSplit(cs: seq<Chapter>, j: int)
    requires 0 <= j < |cs|
    ensures ChapterTopics(cs) == ChapterTopics(cs[..j]) + cs[j].topics + ChapterTopics(cs[j + 1..])
  {
    var a, x, b := cs[..j], cs[j], cs[j + 1..];
    assert cs == (a + [x]) + b;
    ChapterTopicsAppend(a + [x], b);
    ChapterTopicsAppend(a, [x]);
    assert ChapterTopics([x]) == x.topics by { assert [x][..0] == []; }
  }

  /** The chapters of the catalog split around subject i. */
  lemma {:induction false} AllChaptersSplit(ss: seq<Subject>, i: int)
    requires 0 <= i < |ss|
    ensures AllChapters(ss) == AllChapters(ss[..i]) + ss[i].chapters + AllChapters(ss[i + 1..])
  {
    var a, x, b := ss[..i], ss[i], ss[i + 1..];
    assert ss == (a + [x]) + b;
    AllChaptersAppend(a + [x], b);
    AllChaptersAppend(a, [x]);
    assert AllChapters([x]) == x.chapters by { assert [x][..0] == []; }
  }
}
