/** The offline-PDF download tracker hook: a list of download records, at most one
    per topic when built through its own operations, mirrored to a storage slot
    (a file on the native platform, a browser storage key on the web). */
module DownloadTracker {
  import opened NotesTypes

  datatype DownloadedPdf = DownloadedPdf(topicId: string, fileName: string, filePath: string, downloadedAt: string)

  /** What the storage slot holds: nothing, a JSON list of records, or text that does not parse. */
  datatype StoredData = Nothing | Json(records: seq<DownloadedPdf>) | Garbage

  /** `pdfs.filter(pdf => pdf.topicId !== topicId)`. */
  function Without(pdfs: seq<DownloadedPdf>, topicId: string): seq<DownloadedPdf> {
    if pdfs == [] then []
    else
      var last := pdfs[|pdfs| - 1];
      Without(pdfs[..|pdfs| - 1], topicId) + (if last.topicId != topicId then [last] else [])
  }

  /** `[...filter(...), newDownload]`: the record replaces every earlier record of its topic, at the end. */
  function Marked(pdfs: seq<DownloadedPdf>, rec: DownloadedPdf): seq<DownloadedPdf> {
    Without(pdfs, rec.topicId) + [rec]
  }

  /** `pdfs.some(pdf => pdf.topicId === topicId)`. */
  predicate HasTopic(pdfs: seq<DownloadedPdf>, topicId: string) {
    exists i :: 0 <= i < |pdfs| && pdfs[i].topicId == topicId
  }

  /** `pdfs.find(pdf => pdf.topicId === topicId)`. */
  function FindPdf(pdfs: seq<DownloadedPdf>, topicId: string): Option<DownloadedPdf> {
    if pdfs == [] then None
    else if pdfs[0].topicId == topicId then Some(pdfs[0])
    else FindPdf(pdfs[1..], topicId)
  }

  /** No topic has two records. */
  predicate UniqueTopics(pdfs: seq<DownloadedPdf>) {
    forall i, j :: 0 <= i < j < |pdfs| ==> pdfs[i].topicId != pdfs[j].topicId
  }

  /** The records of one topic, in list order. */
  function OfTopic(pdfs: seq<DownloadedPdf>, topicId: string): seq<DownloadedPdf> {
    if pdfs == [] then []
    else
      var last := pdfs[|pdfs| - 1];
      OfTopic(pdfs[..|pdfs| - 1], topicId) + (if last.topicId == topicId then [last] else [])
  }

  /** The list the load leaves: a parsed list replaces the state; a failed native read or a parse
      error clears it; on the web an empty slot leaves it as it was. */
  function Loaded(current: seq<DownloadedPdf>, native: bool, stored: StoredData): seq<DownloadedPdf> {
    match stored
    case Json(records) => records
    case Garbage => []
    case Nothing => if native then [] else current
  }

  /** The filter keeps exactly the records of other topics (their order is WithoutAppend's concern). */
  lemma {:induction false} WithoutSpec(pdfs: seq<DownloadedPdf>, topicId: string)
    ensures forall p :: p in Without(pdfs, topicId) <==> p in pdfs && p.topicId != topicId
    ensures |Without(pdfs, topicId)| <= |pdfs|
    ensures !HasTopic(Without(pdfs, topicId), topicId)
    ensures !HasTopic(pdfs, topicId) ==> Without(pdfs, topicId) == pdfs
  {
    if pdfs != [] {
      var n := |pdfs| - 1;
      WithoutSpec(pdfs[..n], topicId);
      assert pdfs == pdfs[..n] + [pdfs[n]];
      var w := Without(pdfs, topicId);
      forall i | 0 <= i < |w| ensures w[i].topicId != topicId {
        assert w[i] in w;
      }
      if !HasTopic(pdfs, topicId) {
        forall i | 0 <= i < n ensures pdfs[..n][i].topicId != topicId {
          assert pdfs[..n][i] == pdfs[i];
        }
        assert pdfs[n].topicId != topicId;
      }
    }
  }

  lemma UniqueSnoc(w: seq<DownloadedPdf>, x: DownloadedPdf)
    requires UniqueTopics(w)
    requires forall i :: 0 <= i < |w| ==> w[i].topicId != x.topicId
    ensures UniqueTopics(w + [x])
  {
    var v := w + [x];
    forall i, j | 0 <= i < j < |v| ensures v[i].topicId != v[j].topicId {
      assert v[i] == w[i];
    }
  }

  /** No record in the list belongs to the topic. */
  predicate NoneOf(pdfs: seq<DownloadedPdf>, topicId: string) {
    forall i :: 0 <= i < |pdfs| ==> pdfs[i].topicId != topicId
  }

  lemma {:induction false} WithoutNoneOf(pdfs: seq<DownloadedPdf>, t: string, x: string)
    requires NoneOf(pdfs, x)
    ensures NoneOf(Without(pdfs, t), x)
  {
    if pdfs != [] {
      var n := |pdfs| - 1;
      assert NoneOf(pdfs[..n], x);
      WithoutNoneOf(pdfs[..n], t, x);
    }
  }

  lemma {:induction false} WithoutKeepsUnique(pdfs: seq<DownloadedPdf>, topicId: string)
    requires UniqueTopics(pdfs)
    ensures UniqueTopics(Without(pdfs, topicId))
  {
    if pdfs != [] {
      var n := |pdfs| - 1;
      var prefix, last := pdfs[..n], pdfs[n];
      assert UniqueTopics(prefix);
      WithoutKeepsUnique(prefix, topicId);
      var w := Without(prefix, topicId);
      if last.topicId != topicId {
        assert Without(pdfs, topicId) == w + [last];
        assert NoneOf(prefix, last.topicId);
        WithoutNoneOf(prefix, topicId, last.topicId);
        UniqueSnoc(w, last);
      } else {
        assert Without(pdfs, topicId) == w;
      }
    }
  }

  /** Filtering twice by the same topic is filtering once. */
  lemma WithoutTwice(pdfs: seq<DownloadedPdf>, topicId: string)
    ensures Without(Without(pdfs, topicId), topicId) == Without(pdfs, topicId)
  {
    WithoutSpec(pdfs, topicId);
    WithoutSpec(Without(pdfs, topicId), topicId);
  }

  lemma {:induction false} WithoutAppend(a: seq<DownloadedPdf>, b: seq<DownloadedPdf>, topicId: string)
    ensures Without(a + b, topicId) == Without(a, topicId) + Without(b, topicId)
  {
    if b == [] {
      assert a + b == a;
    } else {
      var n := |b| - 1;
      assert (a + b)[..|a + b| - 1] == a + b[..n];
      WithoutAppend(a, b[..n], topicId);
    }
  }

  /** `find` returns the first record of the topic, and nothing exactly when the topic has none;
      with duplicate records (a loaded list is taken as it is) the earliest one wins. */
  lemma {:induction false} FindPdfSpec(pdfs: seq<DownloadedPdf>, topicId: string)
    ensures FindPdf(pdfs, topicId).Some? <==> HasTopic(pdfs, topicId)
    ensures FindPdf(pdfs, topicId).Some? ==>
      exists i :: 0 <= i < |pdfs| && pdfs[i] == FindPdf(pdfs, topicId).value && pdfs[i].topicId == topicId
                && forall j :: 0 <= j < i ==> pdfs[j].topicId != topicId
  {
    if pdfs != [] && pdfs[0].topicId != topicId {
      FindPdfSpec(pdfs[1..], topicId);
      if HasTopic(pdfs, topicId) {
        var i :| 0 <= i < |pdfs| && pdfs[i].topicId == topicId;
        assert pdfs[1..][i - 1].topicId == topicId;
      }
      if FindPdf(pdfs, topicId).Some? {
        var i :| 0 <= i < |pdfs| - 1 && pdfs[1..][i] == FindPdf(pdfs, topicId).value && pdfs[1..][i].topicId == topicId
                 && forall j :: 0 <= j < i ==> pdfs[1..][j].topicId != topicId;
        assert pdfs[i + 1] == FindPdf(pdfs, topicId).value && forall j :: 0 <= j < i + 1 ==> pdfs[j].topicId != topicId;
      }
    } else if pdfs != [] {
      assert pdfs[0] == FindPdf(pdfs, topicId).value;
    }
  }

  lemma {:induction false} OfTopicAppend(a: seq<DownloadedPdf>, b: seq<DownloadedPdf>, topicId: string)
    ensures OfTopic(a + b, topicId) == OfTopic(a, topicId) + OfTopic(b, topicId)
  {
    if b == [] {
      assert a + b == a;
    } else {
      var n := |b| - 1;
      assert (a + b)[..|a + b| - 1] == a + b[..n];
      OfTopicAppend(a, b[..n], topicId);
    }
  }

  /** The filter drops every record of its topic and keeps each other topic's records as they were. */
  lemma {:induction false} OfTopicWithout(pdfs: seq<DownloadedPdf>, t: string, id: string)
    ensures OfTopic(Without(pdfs, t), id) == if id == t then [] else OfTopic(pdfs, id)
  {
    if pdfs != [] {
      var n := |pdfs| - 1;
      var x := pdfs[n];
      OfTopicWithout(pdfs[..n], t, id);
      OfTopicAppend(Without(pdfs[..n], t), if x.topicId != t then [x] else [], id);
      assert OfTopic([x], id) == (if x.topicId == id then [x] else []) by { assert [x][..0] == []; }
    }
  }

  /** `HasTopic` is the non-emptiness of the topic's records. */
  lemma {:induction false} OfTopicHas(pdfs: seq<DownloadedPdf>, topicId: string)
    ensures HasTopic(pdfs, topicId) <==> OfTopic(pdfs, topicId) != []
  {
    if pdfs != [] {
      var n := |pdfs| - 1;
      OfTopicHas(pdfs[..n], topicId);
      if HasTopic(pdfs[..n], topicId) {
        var i :| 0 <= i < n && pdfs[..n][i].topicId == topicId;
        assert pdfs[i].topicId == topicId;
      }
      if HasTopic(pdfs, topicId) && pdfs[n].topicId != topicId {
        var i :| 0 <= i < |pdfs| && pdfs[i].topicId == topicId;
        assert pdfs[..n][i].topicId == topicId;
      }
    }
  }

  /** The new record is the marked topic's only record, at the end, and the one `find` returns. */
  lemma MarkedOwn(pdfs: seq<DownloadedPdf>, rec: DownloadedPdf)
    ensures var m := Marked(pdfs, rec);
      && HasTopic(m, rec.topicId)
      && m[|m| - 1] == rec
      && OfTopic(m, rec.topicId) == [rec]
      && FindPdf(m, rec.topicId) == Some(rec)
  {
    var m := Marked(pdfs, rec);
    var w := Without(pdfs, rec.topicId);
    WithoutSpec(pdfs, rec.topicId);
    forall i | 0 <= i < |w| ensures w[i].topicId != rec.topicId {
      assert w[i] in w;
    }
    assert OfTopic([rec], rec.topicId) == [rec] by { assert [rec][..0] == []; }
    OfTopicAppend(w, [rec], rec.topicId);
    OfTopicWithout(pdfs, rec.topicId, rec.topicId);
    OfTopicHas(m, rec.topicId);
    FindPdfFirstMissing(w, rec);
  }

  /** Marking one topic leaves the records of every other topic, and what `find` returns for it. */
  lemma MarkedOther(pdfs: seq<DownloadedPdf>, rec: DownloadedPdf, id: string)
    requires id != rec.topicId
    ensures OfTopic(Marked(pdfs, rec), id) == OfTopic(pdfs, id)
    ensures FindPdf(Marked(pdfs, rec), id) == FindPdf(pdfs, id)
  {
    var w := Without(pdfs, rec.topicId);
    OfTopicAppend(w, [rec], id);
    assert OfTopic([rec], id) == [] by { assert [rec][..0] == []; }
    OfTopicWithout(pdfs, rec.topicId, id);
    FindPdfSkip(pdfs, rec.topicId, id);
    FindPdfAppendMissing(w, [rec], id);
  }

  /** Marking keeps one record per topic. */
  lemma MarkedUnique(pdfs: seq<DownloadedPdf>, rec: DownloadedPdf)
    requires UniqueTopics(pdfs)
    ensures UniqueTopics(Marked(pdfs, rec))
  {
    var w := Without(pdfs, rec.topicId);
    WithoutSpec(pdfs, rec.topicId);
    WithoutKeepsUnique(pdfs, rec.topicId);
    forall i | 0 <= i < |w| ensures w[i].topicId != rec.topicId {
      assert w[i] in w;
    }
    UniqueSnoc(w, rec);
  }

  /** Marking topic t: afterwards t is downloaded, the list holds exactly one record of t, the new
      one, as its last element; every other topic keeps its records in order, so `find` is unchanged
      for it; and one record per topic is kept. */
  lemma MarkedSpec(pdfs: seq<DownloadedPdf>, rec: DownloadedPdf)
    ensures var m := Marked(pdfs, rec);
      && HasTopic(m, rec.topicId)
      && m[|m| - 1] == rec
      && OfTopic(m, rec.topicId) == [rec]
      && FindPdf(m, rec.topicId) == Some(rec)
      && (forall id :: id != rec.topicId ==> OfTopic(m, id) == OfTopic(pdfs, id))
      && (forall id :: id != rec.topicId ==> FindPdf(m, id) == FindPdf(pdfs, id))
      && (UniqueTopics(pdfs) ==> UniqueTopics(m))
  {
    MarkedOwn(pdfs, rec);
    forall id | id != rec.topicId
      ensures OfTopic(Marked(pdfs, rec), id) == OfTopic(pdfs, id)
      ensures FindPdf(Marked(pdfs, rec), id) == FindPdf(pdfs, id)
    {
      MarkedOther(pdfs, rec, id);
    }
    if UniqueTopics(pdfs) {
      MarkedUnique(pdfs, rec);
    }
  }

  /** `find` on a list whose only record of the topic is the appended one returns that record. */
  lemma {:induction false} FindPdfFirstMissing(w: seq<DownloadedPdf>, rec: DownloadedPdf)
    requires forall i :: 0 <= i < |w| ==> w[i].topicId != rec.topicId
    ensures FindPdf(w + [rec], rec.topicId) == Some(rec)
  {
    if w == [] {
      assert w + [rec] == [rec];
    } else {
      assert (w + [rec])[1..] == w[1..] + [rec];
      FindPdfFirstMissing(w[1..], rec);
    }
  }

  /** Filtering out another topic does not change what `find` returns for this one. */
  lemma {:induction false} FindPdfSkip(pdfs: seq<DownloadedPdf>, other: string, topicId: string)
    requires other != topicId
    ensures FindPdf(Without(pdfs, other), topicId) == FindPdf(pdfs, topicId)
  {
    if pdfs != [] {
      var x, rest := pdfs[0], pdfs[1..];
      assert pdfs == [x] + rest;
      WithoutAppend([x], rest, other);
      assert Without([x], other) == (if x.topicId != other then [x] else []) by { assert [x][..0] == []; }
      FindPdfSkip(rest, other, topicId);
      var w := Without(rest, other);
      if x.topicId != other {
        assert Without(pdfs, other) == [x] + w;
        assert ([x] + w)[1..] == w;
      } else {
        assert Without(pdfs, other) == w;
      }
    }
  }

  lemma {:induction false} FindPdfAppendMissing(a: seq<DownloadedPdf>, b: seq<DownloadedPdf>, topicId: string)
    requires forall p :: p in b ==> p.topicId != topicId
    ensures FindPdf(a + b, topicId) == FindPdf(a, topicId)
  {
    if a == [] {
      assert a + b == b;
      FindPdfSpec(b, topicId);
      forall i | 0 <= i < |b| ensures b[i].topicId != topicId {
        assert b[i] in b;
      }
    } else {
      assert (a + b)[1..] == a[1..] + b;
      FindPdfAppendMissing(a[1..], b, topicId);
    }
  }

  /** Marking the same record again changes nothing. */
  lemma MarkedIdempotent(pdfs: seq<DownloadedPdf>, rec: DownloadedPdf)
    ensures Marked(Marked(pdfs, rec), rec) == Marked(pdfs, rec)
  {
    var w := Without(pdfs, rec.topicId);
    WithoutAppend(w, [rec], rec.topicId);
    assert Without([rec], rec.topicId) == [] by { assert [rec][..0] == []; }
    WithoutTwice(pdfs, rec.topicId);
  }

  /** Removing topic t: afterwards t is not downloaded and has no record, every other topic keeps its
      records in order, so `find` is unchanged for it; and one record per topic is kept. */
  lemma RemovedSpec(pdfs: seq<DownloadedPdf>, topicId: string)
    ensures !HasTopic(Without(pdfs, topicId), topicId)
    ensures OfTopic(Without(pdfs, topicId), topicId) == []
    ensures FindPdf(Without(pdfs, topicId), topicId) == None
    ensures forall id :: id != topicId ==> OfTopic(Without(pdfs, topicId), id) == OfTopic(pdfs, id)
    ensures forall id :: id != topicId ==> FindPdf(Without(pdfs, topicId), id) == FindPdf(pdfs, id)
    ensures UniqueTopics(pdfs) ==> UniqueTopics(Without(pdfs, topicId))
  {
    WithoutSpec(pdfs, topicId);
    FindPdfSpec(Without(pdfs, topicId), topicId);
    OfTopicWithout(pdfs, topicId, topicId);
    if UniqueTopics(pdfs) {
      WithoutKeepsUnique(pdfs, topicId);
    }
    forall id | id != topicId
      ensures OfTopic(Without(pdfs, topicId), id) == OfTopic(pdfs, id)
      ensures FindPdf(Without(pdfs, topicId), id) == FindPdf(pdfs, id)
    {
      OfTopicWithout(pdfs, topicId, id);
      FindPdfSkip(pdfs, topicId, id);
    }
  }

  /** The hook's state together with the storage slot it mirrors to. */
  class PdfDownloadTracker {
    var downloadedPdfs: seq<DownloadedPdf>
    var stored: StoredData

    constructor (slot: StoredData)
      ensures downloadedPdfs == [] && stored == slot
    {
      downloadedPdfs := [];
      stored := slot;
    }

    /** loadDownloadedPdfs on the given platform. */
    method LoadDownloadedPdfs(native: bool)
      modifies this
      ensures downloadedPdfs == Loaded(old(downloadedPdfs), native, stored)
      ensures stored == old(stored)
    {
      match stored {
        case Json(records) =>
          downloadedPdfs := records;
        case Garbage =>
          downloadedPdfs := [];
        case Nothing =>
          if native {
            downloadedPdfs := [];
          }
      }
    }

    /** saveDownloadedPdfs: the state follows the list only when the write succeeds; a failed write
        is logged and changes nothing. */
    method SaveDownloadedPdfs(pdfs: seq<DownloadedPdf>, writeSucceeds: bool)
      modifies this
      ensures writeSucceeds ==> downloadedPdfs == pdfs && stored == Json(pdfs)
      ensures !writeSucceeds ==> downloadedPdfs == old(downloadedPdfs) && stored == old(stored)
    {
      if writeSucceeds {
        stored := Json(pdfs);
        downloadedPdfs := pdfs;
      }
    }

    /** markPdfAsDownloaded, stamped with the ISO time `now`. */
    method MarkPdfAsDownloaded(topicId: string, fileName: string, filePath: string, now: string, writeSucceeds: bool)
      modifies this
      ensures var updated := Marked(old(downloadedPdfs), DownloadedPdf(topicId, fileName, filePath, now));
        if writeSucceeds then downloadedPdfs == updated && stored == Json(updated)
        else downloadedPdfs == old(downloadedPdfs) && stored == old(stored)
    {
      var newDownload := DownloadedPdf(topicId, fileName, filePath, now);
      var updated := Without(downloadedPdfs, topicId) + [newDownload];
      SaveDownloadedPdfs(updated, writeSucceeds);
    }

    function IsPdfDownloaded(topicId: string): bool
      reads this
    {
      HasTopic(downloadedPdfs, topicId)
    }

    function GetDownloadedPdf(topicId: string): Option<DownloadedPdf>
      reads this
    {
      FindPdf(downloadedPdfs, topicId)
    }

    /** removePdfRecord. */
    method RemovePdfRecord(topicId: string, writeSucceeds: bool)
      modifies this
      ensures var updated := Without(old(downloadedPdfs), topicId);
        if writeSucceeds then downloadedPdfs == updated && stored == Json(updated)
        else downloadedPdfs == old(downloadedPdfs) && stored == old(stored)
    {
      var updated := Without(downloadedPdfs, topicId);
      SaveDownloadedPdfs(updated, writeSucceeds);
    }

    /** A save followed by a restart of the app: a new tracker on the same storage slot, once its
        mount-time load has run, holds exactly the saved list on either platform; after a failed
        write it holds what the slot held before the save. */
    method SaveThenReload(pdfs: seq<DownloadedPdf>, writeSucceeds: bool, native: bool) returns (next: PdfDownloadTracker)
      modifies this
      ensures fresh(next) && next.stored == stored
      ensures writeSucceeds ==> next.downloadedPdfs == pdfs
      ensures !writeSucceeds ==> stored == old(stored) && next.downloadedPdfs == Loaded([], native, old(stored))
    {
      SaveDownloadedPdfs(pdfs, writeSucceeds);
      next := new PdfDownloadTracker(stored);
      next.LoadDownloadedPdfs(native);
    }
  }
}
