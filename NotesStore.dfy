/** The notes store hook: the catalog state with its two whole-tree updates
    (toggle completion, touch last-read), substring search, the recent-topics
    selection and the first-match lookups by id. The pure definitions come first;
    the class `NotesData` at the end holds the hook's state and runs its loops. */
module NotesStore {
  import opened NotesTypes
  import opened JsText
  import opened Hierarchy

  // ------------------------------------------------------------------------
  // Whole-tree updates
  // ------------------------------------------------------------------------

  /** What an update does to a matching topic, with the time it was made. */
  datatype Stamp = Toggle(now: int) | Touch(now: int)

  function Stamped(t: Topic, u: Stamp): Topic {
    match u
    case Toggle(now) => t.(isCompleted := Some(!IsCompleted(t)), lastRead := Some(now))
    case Touch(now) => t.(lastRead := Some(now))
  }

  function StampTopics(ts: seq<Topic>, id: string, u: Stamp): seq<Topic> {
    seq(|ts|, k requires 0 <= k < |ts| => if ts[k].id == id then Stamped(ts[k], u) else ts[k])
  }

  function StampChapters(cs: seq<Chapter>, id: string, u: Stamp): seq<Chapter> {
    seq(|cs|, j requires 0 <= j < |cs| => cs[j].(topics := StampTopics(cs[j].topics, id, u)))
  }

  /** The nested `map` over subjects, chapters and topics that rewrites every topic with the given id. */
  function StampCatalog(ss: seq<Subject>, id: string, u: Stamp): seq<Subject> {
    seq(|ss|, i requires 0 <= i < |ss| => ss[i].(chapters := StampChapters(ss[i].chapters, id, u)))
  }

  /** toggleTopicComplete(topicId) at time now. */
  function ToggleInCatalog(ss: seq<Subject>, id: string, now: int): seq<Subject> {
    StampCatalog(ss, id, Toggle(now))
  }

  /** updateTopicLastRead(topicId) at time now. */
  function TouchInCatalog(ss: seq<Subject>, id: string, now: int): seq<Subject> {
    StampCatalog(ss, id, Touch(now))
  }

  /** b has the subjects, chapters and topic positions of a, and differs from it at most inside topics,
      where topic ids are kept. */
  ghost predicate SameShape(a: seq<Subject>, b: seq<Subject>) {
    && |a| == |b|
    && (forall i :: 0 <= i < |a| ==>
          b[i] == a[i].(chapters := b[i].chapters) && |b[i].chapters| == |a[i].chapters|)
    && (forall i, j :: 0 <= i < |a| && 0 <= j < |a[i].chapters| ==>
          b[i].chapters[j] == a[i].chapters[j].(topics := b[i].chapters[j].topics)
          && |b[i].chapters[j].topics| == |a[i].chapters[j].topics|)
    && (forall i, j, k :: ValidPos(a, i, j, k) ==> TopicAt(b, i, j, k).id == TopicAt(a, i, j, k).id)
  }

  /** Toggling negates `isCompleted` (absent counts as false) and stamps `lastRead` on every topic
      with that id; all other topics and the shape and order of the catalog are unchanged. */
  lemma ToggleEffect(ss: seq<Subject>, id: string, now: int)
    ensures SameShape(ss, ToggleInCatalog(ss, id, now))
    ensures forall i, j, k :: ValidPos(ss, i, j, k) ==>
      var t, t' := TopicAt(ss, i, j, k), TopicAt(ToggleInCatalog(ss, id, now), i, j, k);
      if t.id == id then
        && IsCompleted(t') == !IsCompleted(t)
        && t'.isCompleted.Some?
        && t'.lastRead == Some(now)
        && t' == t.(isCompleted := t'.isCompleted, lastRead := t'.lastRead)
      else t' == t
  {
  }

  /** Touching sets `lastRead` on every topic with that id and changes nothing else. */
  lemma TouchEffect(ss: seq<Subject>, id: string, now: int)
    ensures SameShape(ss, TouchInCatalog(ss, id, now))
    ensures forall i, j, k :: ValidPos(ss, i, j, k) ==>
      var t, t' := TopicAt(ss, i, j, k), TopicAt(TouchInCatalog(ss, id, now), i, j, k);
      t' == if t.id == id then t.(lastRead := Some(now)) else t
  {
  }

  /** Toggling the same topic twice restores its completion, but `lastRead` keeps the second time. */
  lemma ToggleTwice(ss: seq<Subject>, id: string, t1: int, t2: int)
    ensures SameShape(ss, ToggleInCatalog(ToggleInCatalog(ss, id, t1), id, t2))
    ensures forall i, j, k :: ValidPos(ss, i, j, k) ==>
      var t, t' := TopicAt(ss, i, j, k), TopicAt(ToggleInCatalog(ToggleInCatalog(ss, id, t1), id, t2), i, j, k);
      if t.id == id then
        && IsCompleted(t') == IsCompleted(t)
        && t'.lastRead == Some(t2)
        && t' == t.(isCompleted := t'.isCompleted, lastRead := t'.lastRead)
      else t' == t
  {
    ToggleEffect(ss, id, t1);
    ToggleEffect(ToggleInCatalog(ss, id, t1), id, t2);
  }

  /** A touch followed by any stamp acts like that stamp alone on every topic with the id: the later
      stamp overwrites `lastRead`, and a touch leaves the completion flag a toggle reads untouched. */
  lemma {:induction false} TouchThenStamp(ss: seq<Subject>, id: string, t1: int, u: Stamp)
    ensures StampCatalog(StampCatalog(ss, id, Touch(t1)), id, u) == StampCatalog(ss, id, u)
  {
    var l, r := StampCatalog(StampCatalog(ss, id, Touch(t1)), id, u), StampCatalog(ss, id, u);
    forall i | 0 <= i < |ss| ensures l[i] == r[i] {
      var cs := ss[i].chapters;
      var lc, rc := l[i].chapters, r[i].chapters;
      forall j | 0 <= j < |cs| ensures lc[j] == rc[j] {
        var ts := cs[j].topics;
        var lt, rt := lc[j].topics, rc[j].topics;
        forall k | 0 <= k < |ts| ensures lt[k] == rt[k] {
          var t := ts[k];
          if t.id == id {
            var t' := Stamped(t, Touch(t1));
            assert t'.id == id && IsCompleted(t') == IsCompleted(t);
            assert lt[k] == Stamped(t', u);
          }
        }
        assert lt == rt;
      }
      assert lc == rc;
    }
    assert l == r;
  }

  /** A touch followed by a toggle is the toggle alone: the toggle's time overwrites the touch's. */
  lemma TouchThenToggle(ss: seq<Subject>, id: string, t1: int, t2: int)
    ensures ToggleInCatalog(TouchInCatalog(ss, id, t1), id, t2) == ToggleInCatalog(ss, id, t2)
  {
    TouchThenStamp(ss, id, t1, Toggle(t2));
  }

  /** Touching twice is touching once with the later time. */
  lemma TouchTwice(ss: seq<Subject>, id: string, t1: int, t2: int)
    ensures TouchInCatalog(TouchInCatalog(ss, id, t1), id, t2) == TouchInCatalog(ss, id, t2)
  {
    TouchThenStamp(ss, id, t1, Touch(t2));
  }

  // ------------------------------------------------------------------------
  // Search
  // ------------------------------------------------------------------------

  /** Length of the content excerpt shown when only the content matched. */
  const ExcerptLength: nat := 100

  predicate NameMatches(t: Topic, term: string) {
    Contains(Lower(t.name), term)
  }

  predicate TopicMatches(t: Topic, term: string) {
    NameMatches(t, term) || Contains(Lower(t.content), term)
  }

  function MatchText(t: Topic, term: string): string {
    if NameMatches(t, term) then t.name else Prefix(t.content, ExcerptLength) + "..."
  }

  function ResultOf(e: Entry, term: string): SearchResult {
    SearchResult(e.topic, e.chapter, e.subject, MatchText(e.topic, term))
  }

  /** The results pushed while visiting es, for an already lowercased search term. */
  function SearchEntries(es: seq<Entry>, term: string): seq<SearchResult> {
    if es == [] then []
    else
      var last := es[|es| - 1];
      SearchEntries(es[..|es| - 1], term) + (if TopicMatches(last.topic, term) then [ResultOf(last, term)] else [])
  }

  lemma SearchEntriesSnoc(es: seq<Entry>, e: Entry, term: string)
    ensures SearchEntries(es + [e], term)
         == SearchEntries(es, term) + (if TopicMatches(e.topic, term) then [ResultOf(e, term)] else [])
  {
    assert (es + [e])[..|es|] == es;
  }

  lemma {:induction false} SearchEntriesAppend(a: seq<Entry>, b: seq<Entry>, term: string)
    ensures SearchEntries(a + b, term) == SearchEntries(a, term) + SearchEntries(b, term)
  {
    if b == [] {
      assert a + b == a;
    } else {
      var n := |b| - 1;
      assert (a + b)[..|a + b| - 1] == a + b[..n];
      SearchEntriesAppend(a, b[..n], term);
    }
  }

  /** searchTopics(query). The term is the lowercased query, not trimmed. */
  function Search(ss: seq<Subject>, query: string): seq<SearchResult> {
    if IsBlank(query) then [] else SearchEntries(Entries(ss), Lower(query))
  }

  /** The positions in es of the matching topics, in increasing order. */
  function MatchIndices(es: seq<Entry>, term: string): seq<int> {
    if es == [] then []
    else MatchIndices(es[..|es| - 1], term) + (if TopicMatches(es[|es| - 1].topic, term) then [|es| - 1] else [])
  }

  /** The m-th result is built from the entry at the m-th matching position. */
  lemma {:induction false} SearchEntriesAt(es: seq<Entry>, term: string)
    ensures var r, ix := SearchEntries(es, term), MatchIndices(es, term);
      && |r| == |ix|
      && (forall m :: 0 <= m < |ix| ==> 0 <= ix[m] < |es| && r[m] == ResultOf(es[ix[m]], term))
  {
    if es != [] {
      var n := |es| - 1;
      SearchEntriesAt(es[..n], term);
      var ix0 := MatchIndices(es[..n], term);
      assert forall m :: 0 <= m < |ix0| ==> es[..n][ix0[m]] == es[ix0[m]];
    }
  }

  /** The matching positions are listed in increasing order, each once. */
  lemma {:induction false} MatchIndicesIncreasing(es: seq<Entry>, term: string)
    ensures forall m :: 0 <= m < |MatchIndices(es, term)| ==> 0 <= MatchIndices(es, term)[m] < |es|
    ensures forall m, m' :: 0 <= m < m' < |MatchIndices(es, term)| ==> MatchIndices(es, term)[m] < MatchIndices(es, term)[m']
  {
    if es != [] {
      MatchIndicesIncreasing(es[..|es| - 1], term);
    }
  }

  /** A position is listed exactly when its topic matches. */
  lemma {:induction false} MatchIndicesExact(es: seq<Entry>, term: string)
    ensures forall p :: 0 <= p < |es| ==> (TopicMatches(es[p].topic, term) <==> p in MatchIndices(es, term))
  {
    if es != [] {
      var n := |es| - 1;
      MatchIndicesIncreasing(es[..n], term);
      MatchIndicesExact(es[..n], term);
      assert forall p :: 0 <= p < n ==> es[..n][p] == es[p];
    }
  }

  /** The results are exactly the matching entries, each once, in the order visited. */
  lemma SearchEntriesOrder(es: seq<Entry>, term: string)
    ensures var r, ix := SearchEntries(es, term), MatchIndices(es, term);
      && |r| == |ix|
      && (forall m :: 0 <= m < |ix| ==> 0 <= ix[m] < |es| && r[m] == ResultOf(es[ix[m]], term))
      && (forall m, m' :: 0 <= m < m' < |ix| ==> ix[m] < ix[m'])
      && (forall p :: 0 <= p < |es| ==> (TopicMatches(es[p].topic, term) <==> p in ix))
  {
    SearchEntriesAt(es, term);
    MatchIndicesIncreasing(es, term);
    MatchIndicesExact(es, term);
  }

  /** With a blank query there are no results; otherwise every result is a matching topic of the
      catalog, carried with its own chapter and subject, and its matchText is the name when the
      name matched and else the first 100 characters of the content followed by "...". */
  lemma SearchSound(ss: seq<Subject>, query: string)
    ensures IsBlank(query) ==> Search(ss, query) == []
    ensures forall r :: r in Search(ss, query) ==>
      && TopicMatches(r.topic, Lower(query))
      && r.subject in ss && r.chapter in r.subject.chapters && r.topic in r.chapter.topics
      && r.matchText == if Contains(Lower(r.topic.name), Lower(query)) then r.topic.name
                        else Prefix(r.topic.content, 100) + "..."
  {
    if !IsBlank(query) {
      var es, term := Entries(ss), Lower(query);
      SearchEntriesOrder(es, term);
      forall r | r in Search(ss, query)
        ensures TopicMatches(r.topic, term)
        ensures r.subject in ss && r.chapter in r.subject.chapters && r.topic in r.chapter.topics
      {
        var m :| 0 <= m < |SearchEntries(es, term)| && SearchEntries(es, term)[m] == r;
        var p := MatchIndices(es, term)[m];
        EntriesFrom(ss, es[p]);
      }
    }
  }

  /** Every topic of the catalog that matches a non-blank query is found, with its context. */
  lemma SearchComplete(ss: seq<Subject>, query: string, i: int, j: int, k: int)
    requires ValidPos(ss, i, j, k) && !IsBlank(query)
    requires TopicMatches(TopicAt(ss, i, j, k), Lower(query))
    ensures ResultOf(EntryAt(ss, i, j, k), Lower(query)) in Search(ss, query)
  {
    var es, term := Entries(ss), Lower(query);
    EntriesCover(ss, i, j, k);
    SearchEntriesOrder(es, term);
    var p :| 0 <= p < |es| && es[p] == EntryAt(ss, i, j, k);
    var m :| 0 <= m < |MatchIndices(es, term)| && MatchIndices(es, term)[m] == p;
    assert SearchEntries(es, term)[m] == ResultOf(EntryAt(ss, i, j, k), term);
  }

  // ------------------------------------------------------------------------
  // Recent topics
  // ------------------------------------------------------------------------

  const DefaultRecentLimit: int := 5

  /** The `lastRead` time of a topic that has one. */
  function RecencyKey(t: Topic): int {
    if t.lastRead.Some? then t.lastRead.value else 0
  }

  /** The topics whose `lastRead` is set, in the order visited. */
  function ReadTopics(ts: seq<Topic>): seq<Topic> {
    if ts == [] then []
    else ReadTopics(ts[..|ts| - 1]) + (if ts[|ts| - 1].lastRead.Some? then [ts[|ts| - 1]] else [])
  }

  /** The read topics are exactly the topics with a `lastRead`. */
  lemma {:induction false} ReadTopicsSpec(ts: seq<Topic>)
    ensures forall m :: 0 <= m < |ReadTopics(ts)| ==> ReadTopics(ts)[m].lastRead.Some?
    ensures forall t :: t in ReadTopics(ts) <==> t in ts && t.lastRead.Some?
  {
    if ts != [] {
      var n := |ts| - 1;
      ReadTopicsSpec(ts[..n]);
      assert ts == ts[..n] + [ts[n]];
    }
  }

  lemma ReadTopicsSnoc(ts: seq<Topic>, t: Topic)
    ensures ReadTopics(ts + [t]) == ReadTopics(ts) + (if t.lastRead.Some? then [t] else [])
  {
    assert (ts + [t])[..|ts|] == ts;
  }

  ghost predicate SortedByRecency(s: seq<Topic>) {
    forall a, b :: 0 <= a < b < |s| ==> RecencyKey(s[a]) >= RecencyKey(s[b])
  }

  /** The elements of s with time v, in order. */
  function WithKey(s: seq<Topic>, v: int): seq<Topic> {
    if s == [] then []
    else WithKey(s[..|s| - 1], v) + (if RecencyKey(s[|s| - 1]) == v then [s[|s| - 1]] else [])
  }

  /** Insert t into a list sorted by decreasing time, after every element at least as recent. */
  function InsertByRecency(t: Topic, s: seq<Topic>): (r: seq<Topic>)
    ensures |r| == |s| + 1
  {
    if s == [] then [t]
    else if RecencyKey(s[0]) < RecencyKey(t) then [t] + s
    else [s[0]] + InsertByRecency(t, s[1..])
  }

  /** `Array.prototype.sort` with comparator `b.lastRead - a.lastRead`: a stable sort by decreasing time. */
  function SortByRecency(ts: seq<Topic>): (r: seq<Topic>)
    ensures |r| == |ts|
  {
    if ts == [] then [] else InsertByRecency(ts[|ts| - 1], SortByRecency(ts[..|ts| - 1]))
  }

  /** The end index `Array.prototype.slice(0, end)` uses: a negative end counts from the back. */
  function SliceEnd(n: nat, end: int): (r: nat)
    ensures r <= n
  {
    if end < 0 then (if n + end < 0 then 0 else n + end) else if end < n then end else n
  }

  /** getRecentTopics(limit). */
  function Recent(ss: seq<Subject>, limit: int): seq<Topic> {
    var sorted := SortByRecency(ReadTopics(AllTopics(ss)));
    sorted[..SliceEnd(|sorted|, limit)]
  }

  lemma {:induction false} WithKeyAppend(a: seq<Topic>, b: seq<Topic>, v: int)
    ensures WithKey(a + b, v) == WithKey(a, v) + WithKey(b, v)
  {
    if b == [] {
      assert a + b == a;
    } else {
      var n := |b| - 1;
      assert (a + b)[..|a + b| - 1] == a + b[..n];
      WithKeyAppend(a, b[..n], v);
    }
  }

  lemma {:induction false} WithKeyOlder(s: seq<Topic>, v: int)
    requires forall m :: 0 <= m < |s| ==> RecencyKey(s[m]) < v
    ensures WithKey(s, v) == []
  {
    if s != [] {
      WithKeyOlder(s[..|s| - 1], v);
    }
  }

  lemma {:induction false} InsertByRecencyElements(t: Topic, s: seq<Topic>)
    ensures multiset(InsertByRecency(t, s)) == multiset(s) + multiset{t}
  {
    if s != [] && RecencyKey(t) <= RecencyKey(s[0]) {
      InsertByRecencyElements(t, s[1..]);
      assert s == [s[0]] + s[1..];
    }
  }

  lemma {:induction false} InsertByRecencySorted(t: Topic, s: seq<Topic>)
    requires SortedByRecency(s)
    ensures SortedByRecency(InsertByRecency(t, s))
  {
    if s != [] && RecencyKey(t) <= RecencyKey(s[0]) {
      InsertByRecencySorted(t, s[1..]);
      InsertByRecencyBounded(t, s[1..], RecencyKey(s[0]));
      assert InsertByRecency(t, s) == [s[0]] + InsertByRecency(t, s[1..]);
    }
  }

  /** Inserting keeps every time under a bound that t and all of s respect. */
  lemma {:induction false} InsertByRecencyBounded(t: Topic, s: seq<Topic>, k: int)
    requires RecencyKey(t) <= k
    requires forall m :: 0 <= m < |s| ==> RecencyKey(s[m]) <= k
    ensures forall m :: 0 <= m <= |s| ==> RecencyKey(InsertByRecency(t, s)[m]) <= k
  {
    if s != [] && RecencyKey(t) <= RecencyKey(s[0]) {
      InsertByRecencyBounded(t, s[1..], k);
      assert InsertByRecency(t, s) == [s[0]] + InsertByRecency(t, s[1..]);
    }
  }

  lemma WithKeySingle(t: Topic, v: int)
    ensures WithKey([t], v) == if RecencyKey(t) == v then [t] else []
  {
    assert [t][..0] == [];
  }

  /** Inserting in front of older elements. */
  lemma InsertFront(t: Topic, s: seq<Topic>, v: int)
    requires forall m :: 0 <= m < |s| ==> RecencyKey(s[m]) < RecencyKey(t)
    ensures WithKey([t] + s, v) == WithKey(s, v) + (if RecencyKey(t) == v then [t] else [])
  {
    WithKeyAppend([t], s, v);
    WithKeySingle(t, v);
    if RecencyKey(t) == v {
      WithKeyOlder(s, v);
    }
  }

  /** Inserting behind the head. */
  lemma InsertBehind(x: Topic, t: Topic, s: seq<Topic>, rest: seq<Topic>, v: int)
    requires WithKey(rest, v) == WithKey(s, v) + (if RecencyKey(t) == v then [t] else [])
    ensures WithKey([x] + rest, v) == WithKey([x] + s, v) + (if RecencyKey(t) == v then [t] else [])
  {
    WithKeyAppend([x], rest, v);
    WithKeyAppend([x], s, v);
  }

  lemma {:induction false} InsertByRecencyStable(t: Topic, s: seq<Topic>, v: int)
    requires SortedByRecency(s)
    ensures WithKey(InsertByRecency(t, s), v) == WithKey(s, v) + (if RecencyKey(t) == v then [t] else [])
  {
    if s == [] {
      WithKeySingle(t, v);
    } else if RecencyKey(s[0]) < RecencyKey(t) {
      InsertFront(t, s, v);
    } else {
      InsertByRecencyStable(t, s[1..], v);
      InsertBehind(s[0], t, s[1..], InsertByRecency(t, s[1..]), v);
      assert s == [s[0]] + s[1..];
    }
  }

  lemma {:induction false} SortByRecencyElements(ts: seq<Topic>)
    ensures multiset(SortByRecency(ts)) == multiset(ts)
  {
    if ts != [] {
      var n := |ts| - 1;
      SortByRecencyElements(ts[..n]);
      InsertByRecencyElements(ts[n], SortByRecency(ts[..n]));
      assert ts == ts[..n] + [ts[n]];
    }
  }

  lemma {:induction false} SortByRecencySorted(ts: seq<Topic>)
    ensures SortedByRecency(SortByRecency(ts))
  {
    if ts != [] {
      var n := |ts| - 1;
      SortByRecencySorted(ts[..n]);
      InsertByRecencySorted(ts[n], SortByRecency(ts[..n]));
    }
  }

  lemma {:induction false} SortByRecencyStable(ts: seq<Topic>, v: int)
    ensures WithKey(SortByRecency(ts), v) == WithKey(ts, v)
  {
    if ts != [] {
      var n := |ts| - 1;
      SortByRecencyStable(ts[..n], v);
      SortByRecencySorted(ts[..n]);
      InsertByRecencyStable(ts[n], SortByRecency(ts[..n]), v);
    }
  }

  /** Sorting gives a list ordered by decreasing time that, time by time, lists the same topics in
      the same order as the input: a stable sort, and so a permutation. */
  lemma SortByRecencySpec(ts: seq<Topic>)
    ensures SortedByRecency(SortByRecency(ts))
    ensures multiset(SortByRecency(ts)) == multiset(ts)
    ensures forall v :: WithKey(SortByRecency(ts), v) == WithKey(ts, v)
  {
    SortByRecencyElements(ts);
    SortByRecencySorted(ts);
    forall v ensures WithKey(SortByRecency(ts), v) == WithKey(ts, v) {
      SortByRecencyStable(ts, v);
    }
  }

  /** getRecentTopics returns only topics that were read, most recent first, with ties in catalog
      order; it holds min(limit, #read) topics for a limit >= 0, all of them at least as recent as
      any read topic it leaves out. */
  lemma RecentSpec(ss: seq<Subject>, limit: int)
    ensures var read, r := ReadTopics(AllTopics(ss)), Recent(ss, limit);
      && (forall m :: 0 <= m < |r| ==> r[m].lastRead.Some?)
      && SortedByRecency(r)
      && (0 <= limit ==> |r| == if limit < |read| then limit else |read|)
      && (forall v :: WithKey(r, v) <= WithKey(read, v))
      && (forall t :: t in read && t !in r && r != [] ==> RecencyKey(t) <= RecencyKey(r[|r| - 1]))
  {
    var read := ReadTopics(AllTopics(ss));
    ReadTopicsSpec(AllTopics(ss));
    var sorted := SortByRecency(read);
    SortByRecencyElements(read);
    var e := SliceEnd(|sorted|, limit);
    PrefixRead(read, e);
    PrefixSorted(read, e);
    forall v ensures WithKey(sorted[..e], v) <= WithKey(read, v) {
      PrefixStable(read, e, v);
    }
    if 0 < e {
      PrefixTopK(read, e);
    }
  }

  lemma PrefixRead(read: seq<Topic>, e: nat)
    requires e <= |SortByRecency(read)|
    requires forall m :: 0 <= m < |read| ==> read[m].lastRead.Some?
    ensures forall m :: 0 <= m < e ==> SortByRecency(read)[m].lastRead.Some?
  {
    var sorted := SortByRecency(read);
    SortByRecencyElements(read);
    forall m | 0 <= m < e ensures sorted[m].lastRead.Some? {
      assert sorted[m] in multiset(read);
    }
  }

  lemma PrefixSorted(read: seq<Topic>, e: nat)
    requires e <= |SortByRecency(read)|
    ensures SortedByRecency(SortByRecency(read)[..e])
  {
    SortByRecencySorted(read);
  }

  lemma PrefixStable(read: seq<Topic>, e: nat, v: int)
    requires e <= |SortByRecency(read)|
    ensures WithKey(SortByRecency(read)[..e], v) <= WithKey(read, v)
  {
    var sorted := SortByRecency(read);
    SortByRecencyStable(read, v);
    assert sorted == sorted[..e] + sorted[e..];
    WithKeyAppend(sorted[..e], sorted[e..], v);
  }

  lemma PrefixTopK(read: seq<Topic>, e: nat)
    requires 0 < e <= |SortByRecency(read)|
    ensures forall t :: t in read && t !in SortByRecency(read)[..e] ==> RecencyKey(t) <= RecencyKey(SortByRecency(read)[e - 1])
  {
    var sorted := SortByRecency(read);
    SortByRecencyElements(read);
    SortByRecencySorted(read);
    forall t | t in read && t !in sorted[..e] ensures RecencyKey(t) <= RecencyKey(sorted[e - 1]) {
      assert t in multiset(sorted);
      var p :| 0 <= p < |sorted| && sorted[p] == t;
      assert p >= e;
    }
  }

  // ------------------------------------------------------------------------
  // Lookups by id
  // ------------------------------------------------------------------------

  /** `subjects.find(s => s.id === id)`. */
  function FindSubject(ss: seq<Subject>, id: string): Option<Subject> {
    if ss == [] then None else if ss[0].id == id then Some(ss[0]) else FindSubject(ss[1..], id)
  }

  /** `chapters.find(ch => ch.id === id)`. */
  function FindChapter(cs: seq<Chapter>, id: string): Option<Chapter> {
    if cs == [] then None else if cs[0].id == id then Some(cs[0]) else FindChapter(cs[1..], id)
  }

  /** `topics.find(t => t.id === id)`. */
  function FindTopic(ts: seq<Topic>, id: string): Option<Topic> {
    if ts == [] then None else if ts[0].id == id then Some(ts[0]) else FindTopic(ts[1..], id)
  }

  /** `find` yields nothing exactly when no subject has the id, and otherwise the first one that does. */
  lemma {:induction false} FindSubjectSpec(ss: seq<Subject>, id: string)
    ensures FindSubject(ss, id).None? <==> forall m :: 0 <= m < |ss| ==> ss[m].id != id
    ensures FindSubject(ss, id).Some? ==>
      exists m :: 0 <= m < |ss| && ss[m] == FindSubject(ss, id).value && ss[m].id == id
                && forall p :: 0 <= p < m ==> ss[p].id != id
  {
    if ss != [] && ss[0].id != id {
      FindSubjectSpec(ss[1..], id);
      if FindSubject(ss, id).Some? {
        var m :| 0 <= m < |ss| - 1 && ss[1..][m] == FindSubject(ss, id).value && ss[1..][m].id == id
                 && forall p :: 0 <= p < m ==> ss[1..][p].id != id;
        assert ss[m + 1] == FindSubject(ss, id).value && forall p :: 0 <= p < m + 1 ==> ss[p].id != id;
      }
    }
  }

  /** `find` yields nothing exactly when no chapter has the id, and otherwise the first one that does. */
  lemma {:induction false} FindChapterSpec(cs: seq<Chapter>, id: string)
    ensures FindChapter(cs, id).None? <==> forall m :: 0 <= m < |cs| ==> cs[m].id != id
    ensures FindChapter(cs, id).Some? ==>
      exists m :: 0 <= m < |cs| && cs[m] == FindChapter(cs, id).value && cs[m].id == id
                && forall p :: 0 <= p < m ==> cs[p].id != id
  {
    if cs != [] && cs[0].id != id {
      FindChapterSpec(cs[1..], id);
      if FindChapter(cs, id).Some? {
        var m :| 0 <= m < |cs| - 1 && cs[1..][m] == FindChapter(cs, id).value && cs[1..][m].id == id
                 && forall p :: 0 <= p < m ==> cs[1..][p].id != id;
        assert cs[m + 1] == FindChapter(cs, id).value && forall p :: 0 <= p < m + 1 ==> cs[p].id != id;
      }
    }
  }

  /** `find` yields nothing exactly when no topic has the id, and otherwise the first one that does. */
  lemma {:induction false} FindTopicSpec(ts: seq<Topic>, id: string)
    ensures FindTopic(ts, id).None? <==> forall m :: 0 <= m < |ts| ==> ts[m].id != id
    ensures FindTopic(ts, id).Some? ==>
      exists m :: 0 <= m < |ts| && ts[m] == FindTopic(ts, id).value && ts[m].id == id
                && forall p :: 0 <= p < m ==> ts[p].id != id
  {
    if ts != [] && ts[0].id != id {
      FindTopicSpec(ts[1..], id);
      if FindTopic(ts, id).Some? {
        var m :| 0 <= m < |ts| - 1 && ts[1..][m] == FindTopic(ts, id).value && ts[1..][m].id == id
                 && forall p :: 0 <= p < m ==> ts[1..][p].id != id;
        assert ts[m + 1] == FindTopic(ts, id).value && forall p :: 0 <= p < m + 1 ==> ts[p].id != id;
      }
    }
  }

  lemma {:induction false} FindChapterAppend(a: seq<Chapter>, b: seq<Chapter>, id: string)
    ensures FindChapter(a + b, id) == if FindChapter(a, id).Some? then FindChapter(a, id) else FindChapter(b, id)
  {
    if a != [] {
      assert (a + b)[1..] == a[1..] + b;
      FindChapterAppend(a[1..], b, id);
    } else {
      assert a + b == b;
    }
  }

  lemma {:induction false} FindTopicAppend(a: seq<Topic>, b: seq<Topic>, id: string)
    ensures FindTopic(a + b, id) == if FindTopic(a, id).Some? then FindTopic(a, id) else FindTopic(b, id)
  {
    if a != [] {
      assert (a + b)[1..] == a[1..] + b;
      FindTopicAppend(a[1..], b, id);
    } else {
      assert a + b == b;
    }
  }

  // ------------------------------------------------------------------------
  // The hook's state
  // ------------------------------------------------------------------------

  lemma SearchChapterStep(subject: Subject, chapter: Chapter, k: int, term: string)
    requires 0 <= k < |chapter.topics|
    ensures var t := chapter.topics[k];
      SearchEntries(TopicEntries(subject, chapter, chapter.topics[..k + 1]), term)
      == SearchEntries(TopicEntries(subject, chapter, chapter.topics[..k]), term)
         + (if TopicMatches(t, term) then [ResultOf(Entry(subject, chapter, t), term)] else [])
  {
    var t := chapter.topics[k];
    SearchEntriesSnoc(TopicEntries(subject, chapter, chapter.topics[..k]), Entry(subject, chapter, t), term);
    TopicEntriesSnoc(subject, chapter, chapter.topics[..k], t);
    assert chapter.topics[..k + 1] == chapter.topics[..k] + [t];
  }

  lemma SearchSubjectStep(subject: Subject, j: int, term: string)
    requires 0 <= j < |subject.chapters|
    ensures var c := subject.chapters[j];
      SearchEntries(ChapterEntries(subject, subject.chapters[..j + 1]), term)
      == SearchEntries(ChapterEntries(subject, subject.chapters[..j]), term)
         + SearchEntries(TopicEntries(subject, c, c.topics), term)
  {
    var c := subject.chapters[j];
    ChapterEntriesSnoc(subject, subject.chapters[..j], c);
    SearchEntriesAppend(ChapterEntries(subject, subject.chapters[..j]), TopicEntries(subject, c, c.topics), term);
    assert subject.chapters[..j + 1] == subject.chapters[..j] + [c];
  }

  lemma SearchCatalogStep(ss: seq<Subject>, i: int, term: string)
    requires 0 <= i < |ss|
    ensures SearchEntries(Entries(ss[..i + 1]), term)
         == SearchEntries(Entries(ss[..i]), term) + SearchEntries(ChapterEntries(ss[i], ss[i].chapters), term)
  {
    EntriesSnoc(ss[..i], ss[i]);
    SearchEntriesAppend(Entries(ss[..i]), ChapterEntries(ss[i], ss[i].chapters), term);
    assert ss[..i + 1] == ss[..i] + [ss[i]];
  }

  /** The `forEach` over one chapter's topics in searchTopics, appending to results. */
  method SearchChapter(subject: Subject, chapter: Chapter, searchTerm: string, acc: seq<SearchResult>)
    returns (results: seq<SearchResult>)
    ensures results == acc + SearchEntries(TopicEntries(subject, chapter, chapter.topics), searchTerm)
  {
    results := acc;
    var k := 0;
    while k < |chapter.topics|
      invariant 0 <= k <= |chapter.topics|
      invariant results == acc + SearchEntries(TopicEntries(subject, chapter, chapter.topics[..k]), searchTerm)
    {
      var topic := chapter.topics[k];
      var matchInName := Contains(Lower(topic.name), searchTerm);
      var matchInContent := Contains(Lower(topic.content), searchTerm);
      ghost var found := SearchEntries(TopicEntries(subject, chapter, chapter.topics[..k]), searchTerm);
      SearchChapterStep(subject, chapter, k, searchTerm);
      if matchInName || matchInContent {
        var matchText := if matchInName then topic.name else Prefix(topic.content, 100) + "...";
        var result := SearchResult(topic, chapter, subject, matchText);
        assert result == ResultOf(Entry(subject, chapter, topic), searchTerm);
        ConcatAssoc(acc, found, [result]);
        results := results + [result];
      } else {
        assert found + [] == found;
      }
      k := k + 1;
    }
    assert chapter.topics[..k] == chapter.topics;
  }

  /** One round of SearchSubject's loop: appending chapter j's results extends the invariant. */
  lemma SearchSubjectAdvance(subject: Subject, j: int, term: string, acc: seq<SearchResult>, results: seq<SearchResult>)
    requires 0 <= j < |subject.chapters|
    requires results == acc + SearchEntries(ChapterEntries(subject, subject.chapters[..j]), term)
    ensures var c := subject.chapters[j];
      results + SearchEntries(TopicEntries(subject, c, c.topics), term)
      == acc + SearchEntries(ChapterEntries(subject, subject.chapters[..j + 1]), term)
  {
    var c := subject.chapters[j];
    var found := SearchEntries(ChapterEntries(subject, subject.chapters[..j]), term);
    var more := SearchEntries(TopicEntries(subject, c, c.topics), term);
    SearchSubjectStep(subject, j, term);
    ConcatAssoc(acc, found, more);
  }

  lemma ConcatAssoc<T>(a: seq<T>, b: seq<T>, c: seq<T>)
    ensures (a + b) + c == a + (b + c)
  {
  }

  /** The `forEach` over one subject's chapters in searchTopics, appending to results. */
  method SearchSubject(subject: Subject, searchTerm: string, acc: seq<SearchResult>)
    returns (results: seq<SearchResult>)
    ensures results == acc + SearchEntries(ChapterEntries(subject, subject.chapters), searchTerm)
  {
    results := acc;
    var j := 0;
    while j < |subject.chapters|
      invariant 0 <= j <= |subject.chapters|
      invariant results == acc + SearchEntries(ChapterEntries(subject, subject.chapters[..j]), searchTerm)
    {
      SearchSubjectAdvance(subject, j, searchTerm, acc, results);
      results := SearchChapter(subject, subject.chapters[j], searchTerm, results);
      j := j + 1;
    }
    assert subject.chapters[..j] == subject.chapters;
  }

  lemma {:induction false} ReadTopicsAppend(a: seq<Topic>, b: seq<Topic>)
    ensures ReadTopics(a + b) == ReadTopics(a) + ReadTopics(b)
  {
    if b == [] {
      assert a + b == a;
    } else {
      var n := |b| - 1;
      assert (a + b)[..|a + b| - 1] == a + b[..n];
      ReadTopicsAppend(a, b[..n]);
    }
  }

  lemma CollectChapterStep(c: Chapter, k: int)
    requires 0 <= k < |c.topics|
    ensures ReadTopics(c.topics[..k + 1])
         == ReadTopics(c.topics[..k]) + (if c.topics[k].lastRead.Some? then [c.topics[k]] else [])
  {
    ReadTopicsSnoc(c.topics[..k], c.topics[k]);
    assert c.topics[..k + 1] == c.topics[..k] + [c.topics[k]];
  }

  lemma CollectSubjectStep(subject: Subject, j: int)
    requires 0 <= j < |subject.chapters|
    ensures ReadTopics(ChapterTopics(subject.chapters[..j + 1]))
         == ReadTopics(ChapterTopics(subject.chapters[..j])) + ReadTopics(subject.chapters[j].topics)
  {
    var c := subject.chapters[j];
    ChapterTopicsSnoc(subject.chapters[..j], c);
    ReadTopicsAppend(ChapterTopics(subject.chapters[..j]), c.topics);
    assert subject.chapters[..j + 1] == subject.chapters[..j] + [c];
  }

  lemma CollectCatalogStep(ss: seq<Subject>, i: int)
    requires 0 <= i < |ss|
    ensures ReadTopics(AllTopics(ss[..i + 1]))
         == ReadTopics(AllTopics(ss[..i])) + ReadTopics(ChapterTopics(ss[i].chapters))
  {
    AllTopicsSnoc(ss[..i], ss[i]);
    ReadTopicsAppend(AllTopics(ss[..i]), ChapterTopics(ss[i].chapters));
    assert ss[..i + 1] == ss[..i] + [ss[i]];
  }

  /** The `forEach` over one chapter's topics in getRecentTopics, pushing those with a `lastRead`. */
  method CollectChapter(chapter: Chapter, acc: seq<Topic>) returns (allTopics: seq<Topic>)
    ensures allTopics == acc + ReadTopics(chapter.topics)
  {
    allTopics := acc;
    var k := 0;
    while k < |chapter.topics|
      invariant 0 <= k <= |chapter.topics|
      invariant allTopics == acc + ReadTopics(chapter.topics[..k])
    {
      var topic := chapter.topics[k];
      ghost var read := ReadTopics(chapter.topics[..k]);
      CollectChapterStep(chapter, k);
      if topic.lastRead.Some? {
        ConcatAssoc(acc, read, [topic]);
        allTopics := allTopics + [topic];
      } else {
        assert read + [] == read;
      }
      k := k + 1;
    }
    assert chapter.topics[..k] == chapter.topics;
  }

  /** The `forEach` over one subject's chapters in getRecentTopics. */
  method CollectSubject(subject: Subject, acc: seq<Topic>) returns (allTopics: seq<Topic>)
    ensures allTopics == acc + ReadTopics(ChapterTopics(subject.chapters))
  {
    allTopics := acc;
    var j := 0;
    while j < |subject.chapters|
      invariant 0 <= j <= |subject.chapters|
      invariant allTopics == acc + ReadTopics(ChapterTopics(subject.chapters[..j]))
    {
      ghost var read := ReadTopics(ChapterTopics(subject.chapters[..j]));
      ghost var more := ReadTopics(subject.chapters[j].topics);
      allTopics := CollectChapter(subject.chapters[j], allTopics);
      CollectSubjectStep(subject, j);
      ConcatAssoc(acc, read, more);
      j := j + 1;
    }
    assert subject.chapters[..j] == subject.chapters;
  }

  /** After subjects before i found nothing, subject i's own `find` decides the lookup, or the
      search moves on with nothing found. */
  lemma FindChapterStep(ss: seq<Subject>, i: int, id: string)
    requires 0 <= i < |ss|
    requires FindChapter(AllChapters(ss[..i]), id) == None
    ensures FindChapter(ss[i].chapters, id).Some? ==> FindChapter(AllChapters(ss), id) == FindChapter(ss[i].chapters, id)
    ensures FindChapter(ss[i].chapters, id).None? ==> FindChapter(AllChapters(ss[..i + 1]), id) == None
  {
    var a, c := AllChapters(ss[..i]), ss[i].chapters;
    FindChapterAppend(a, c, id);
    AllChaptersSplit(ss, i);
    FindChapterAppend(a + c, AllChapters(ss[i + 1..]), id);
    AllChaptersSnoc(ss[..i], ss[i]);
    assert ss[..i + 1] == ss[..i] + [ss[i]];
  }

  /** Within subject i, after the chapters before j found nothing, chapter j's `find` decides the
      lookup, or the search moves on with nothing found. */
  lemma FindTopicStep(ss: seq<Subject>, i: int, j: int, id: string)
    requires 0 <= i < |ss| && 0 <= j < |ss[i].chapters|
    requires FindTopic(AllTopics(ss[..i]) + ChapterTopics(ss[i].chapters[..j]), id) == None
    ensures FindTopic(ss[i].chapters[j].topics, id).Some? ==>
      FindTopic(AllTopics(ss), id) == FindTopic(ss[i].chapters[j].topics, id)
    ensures FindTopic(ss[i].chapters[j].topics, id).None? ==>
      FindTopic(AllTopics(ss[..i]) + ChapterTopics(ss[i].chapters[..j + 1]), id) == None
  {
    var cs := ss[i].chapters;
    var before, ts := AllTopics(ss[..i]) + ChapterTopics(cs[..j]), cs[j].topics;
    if FindTopic(ts, id).Some? {
      var a, b, d, e := AllTopics(ss[..i]), ChapterTopics(cs[..j]), ChapterTopics(cs[j + 1..]), AllTopics(ss[i + 1..]);
      FindTopicAppend(a, b, id);
      ChapterTopicsSplit(cs, j);
      FindTopicAppend(b, ts, id);
      FindTopicAppend(b + ts, d, id);
      AllTopicsSplit(ss, i);
      FindTopicAppend(a, ChapterTopics(cs), id);
      FindTopicAppend(a + ChapterTopics(cs), e, id);
    } else {
      FindTopicAppend(before, ts, id);
      ChapterTopicsSnoc(cs[..j], cs[j]);
      assert cs[..j + 1] == cs[..j] + [cs[j]];
      assert before + ts == AllTopics(ss[..i]) + ChapterTopics(cs[..j + 1]);
    }
  }

  lemma FindTopicNextSubject(ss: seq<Subject>, i: int, id: string)
    requires 0 <= i < |ss|
    requires FindTopic(AllTopics(ss[..i]) + ChapterTopics(ss[i].chapters[..|ss[i].chapters|]), id) == None
    ensures FindTopic(AllTopics(ss[..i + 1]), id) == None
  {
    assert ss[i].chapters[..|ss[i].chapters|] == ss[i].chapters;
    AllTopicsSnoc(ss[..i], ss[i]);
    assert ss[..i + 1] == ss[..i] + [ss[i]];
  }

  /** The `subjects` and `isDark` state of the hook. The setters replace the whole value. */
  class NotesData {
    var subjects: seq<Subject>
    var isDark: bool

    constructor (initial: seq<Subject>)
      ensures subjects == initial && !isDark
    {
      subjects := initial;
      isDark := false;
    }

    method ToggleTheme()
      modifies this
      ensures isDark == !old(isDark) && subjects == old(subjects)
    {
      isDark := !isDark;
    }

    method ToggleTopicComplete(topicId: string, now: int)
      modifies this
      ensures subjects == ToggleInCatalog(old(subjects), topicId, now) && isDark == old(isDark)
    {
      subjects := ToggleInCatalog(subjects, topicId, now);
    }

    method UpdateTopicLastRead(topicId: string, now: int)
      modifies this
      ensures subjects == TouchInCatalog(old(subjects), topicId, now) && isDark == old(isDark)
    {
      subjects := TouchInCatalog(subjects, topicId, now);
    }

    /** The outer `forEach` of searchTopics, over the subjects. */
    method SearchTopics(query: string) returns (results: seq<SearchResult>)
      ensures results == Search(subjects, query)
    {
      if IsBlank(query) {
        return [];
      }
      results := [];
      var searchTerm := Lower(query);
      var i := 0;
      while i < |subjects|
        invariant 0 <= i <= |subjects|
        invariant results == SearchEntries(Entries(subjects[..i]), searchTerm)
      {
        var subject := subjects[i];
        results := SearchSubject(subject, searchTerm, results);
        SearchCatalogStep(subjects, i, searchTerm);
        i := i + 1;
      }
      assert subjects[..i] == subjects;
    }

    /** getRecentTopics: the outer `forEach` collecting the read topics, then the sort and slice. */
    method GetRecentTopics(limit: int := DefaultRecentLimit) returns (recent: seq<Topic>)
      ensures recent == Recent(subjects, limit)
    {
      var allTopics: seq<Topic> := [];
      var i := 0;
      while i < |subjects|
        invariant 0 <= i <= |subjects|
        invariant allTopics == ReadTopics(AllTopics(subjects[..i]))
      {
        allTopics := CollectSubject(subjects[i], allTopics);
        CollectCatalogStep(subjects, i);
        i := i + 1;
      }
      assert subjects[..i] == subjects;
      var sorted := SortByRecency(allTopics);
      recent := sorted[..SliceEnd(|sorted|, limit)];
    }

    function GetSubjectById(subjectId: string): Option<Subject>
      reads this
    {
      FindSubject(subjects, subjectId)
    }

    /** getChapterById: `find` within each subject in turn, returning the first hit. */
    method GetChapterById(chapterId: string) returns (r: Option<Chapter>)
      ensures r == FindChapter(AllChapters(subjects), chapterId)
    {
      var i := 0;
      while i < |subjects|
        invariant 0 <= i <= |subjects|
        invariant FindChapter(AllChapters(subjects[..i]), chapterId) == None
      {
        var chapter := FindChapter(subjects[i].chapters, chapterId);
        FindChapterStep(subjects, i, chapterId);
        if chapter.Some? {
          return chapter;
        }
        i := i + 1;
      }
      assert subjects[..i] == subjects;
      return None;
    }

    /** getTopicById: `find` within each chapter of each subject in turn, returning the first hit. */
    method GetTopicById(topicId: string) returns (r: Option<Topic>)
      ensures r == FindTopic(AllTopics(subjects), topicId)
    {
      var i := 0;
      while i < |subjects|
        invariant 0 <= i <= |subjects|
        invariant FindTopic(AllTopics(subjects[..i]), topicId) == None
      {
        var subject := subjects[i];
        var j := 0;
        assert subject.chapters[..0] == [];
        assert AllTopics(subjects[..i]) + ChapterTopics(subject.chapters[..0]) == AllTopics(subjects[..i]);
        while j < |subject.chapters|
          invariant 0 <= j <= |subject.chapters|
          invariant FindTopic(AllTopics(subjects[..i]) + ChapterTopics(subject.chapters[..j]), topicId) == None
        {
          var topic := FindTopic(subject.chapters[j].topics, topicId);
          FindTopicStep(subjects, i, j, topicId);
          if topic.Some? {
            return topic;
          }
          j := j + 1;
        }
        FindTopicNextSubject(subjects, i, topicId);
        i := i + 1;
      }
      assert subjects[..i] == subjects;
      return None;
    }
  }
}
