/** The admin upload form: the PDF-only file filter, the upload guard and its reset, the storage
    path and the subject-label formatter. The storage and database clients are outside the model:
    an upload appears as a recorded storage path and a success-or-failure outcome. */
module AdminPanel {
  import opened NotesTypes
  import opened JsText

  datatype File = File(name: string, mimeType: string, size: nat)

  datatype FormData = FormData(subject: string, chapter: string, topicName: string, file: Option<File>)

  const EmptyForm: FormData := FormData("", "", "", None)

  const PdfMimeType: string := "application/pdf"

  /** The notifications the panel raises, by their title. */
  datatype Toast = WrongFile | MissingFields | Uploaded | UploadError

  /** Whether the storage upload and the metadata write both completed. */
  datatype UploadOutcome = Succeeded | Failed

  /** The subject keys offered by the form. */
  const AdminSubjects: seq<string> := [
    "indian-history", "national-movement", "geography",
    "indian-economy", "constitution", "general-science",
    "hindi", "english", "mathematics", "general-awareness", "reasoning"
  ]

  /** `notes/${subject}/${chapter}/${fileName}`. */
  function StoragePath(subject: string, chapter: string, fileName: string): string {
    "notes/" + subject + "/" + chapter + "/" + fileName
  }

  predicate SlashFree(s: string) {
    forall i :: 0 <= i < |s| ==> s[i] != '/'
  }

  /** A slash-free segment followed by a slash is determined by the string it starts. */
  lemma SegmentUnique(a: string, x: string, b: string, y: string)
    requires SlashFree(a) && SlashFree(b)
    requires a + "/" + x == b + "/" + y
    ensures a == b && x == y
  {
    var p := a + "/" + x;
    assert p[|a|] == '/';
    assert p[|b|] == '/';
    assert a == p[..|a|] == b;
    assert x == p[|a| + 1..] == y;
  }

  /** After the slash that precedes a slash-free segment there is no slash. */
  lemma SlashFreeTail(x: string, a: string)
    requires SlashFree(a)
    ensures forall i :: |x| < i < |x + "/" + a| ==> (x + "/" + a)[i] != '/'
  {
    var p := x + "/" + a;
    forall i | |x| < i < |p| ensures p[i] != '/' {
      assert p[i] == a[i - |x| - 1];
    }
  }

  /** A slash followed by a slash-free segment is determined by the string it ends: that slash is
      the last one. */
  lemma SegmentUniqueBack(x: string, a: string, y: string, b: string)
    requires SlashFree(a) && SlashFree(b)
    requires x + "/" + a == y + "/" + b
    ensures x == y && a == b
  {
    var p := x + "/" + a;
    SlashFreeTail(x, a);
    SlashFreeTail(y, b);
    assert p[|x|] == '/';
    assert p[|y|] == '/';
    assert |x| == |y|;
    assert x == p[..|x|] == y;
    assert a == p[|x| + 1..] == b;
  }

  /** With a slash-free subject key and file name, the path identifies the upload's subject,
      chapter and file name, whatever text the chapter holds (slashes included). */
  lemma StoragePathInjective(s1: string, c1: string, f1: string, s2: string, c2: string, f2: string)
    requires SlashFree(s1) && SlashFree(f1) && SlashFree(s2) && SlashFree(f2)
    requires StoragePath(s1, c1, f1) == StoragePath(s2, c2, f2)
    ensures s1 == s2 && c1 == c2 && f1 == f2
  {
    var p1, p2 := StoragePath(s1, c1, f1), StoragePath(s2, c2, f2);
    assert p1 == "notes/" + (s1 + "/" + (c1 + "/" + f1));
    assert p2 == "notes/" + (s2 + "/" + (c2 + "/" + f2));
    assert s1 + "/" + (c1 + "/" + f1) == p1[6..] == p2[6..] == s2 + "/" + (c2 + "/" + f2);
    SegmentUnique(s1, c1 + "/" + f1, s2, c2 + "/" + f2);
    SegmentUniqueBack(c1, f1, c2, f2);
  }

  /** Every subject key the form offers is slash-free. */
  lemma AdminSubjectsSlashFree()
    ensures forall k :: k in AdminSubjects ==> SlashFree(k)
  {
  }

  /** `s.replace('-', ' ')` with a string pattern: only the first hyphen becomes a space. */
  function ReplaceFirstHyphen(s: string): (r: string)
    ensures |r| == |s|
  {
    if s == [] then []
    else if s[0] == '-' then [' '] + s[1..]
    else [s[0]] + ReplaceFirstHyphen(s[1..])
  }

  /** The replacement changes exactly the first hyphen, if any. */
  lemma {:induction false} ReplaceFirstHyphenSpec(s: string, k: int)
    requires 0 <= k <= |s|
    requires forall i :: 0 <= i < k ==> s[i] != '-'
    requires k == |s| || s[k] == '-'
    ensures forall i :: 0 <= i < |s| && i != k ==> ReplaceFirstHyphen(s)[i] == s[i]
    ensures k < |s| ==> ReplaceFirstHyphen(s)[k] == ' '
  {
    if s != [] && s[0] != '-' {
      ReplaceFirstHyphenSpec(s[1..], k - 1);
    }
  }

  /** `\w`: an ASCII letter, digit or underscore. */
  predicate IsWordChar(c: char) {
    'a' <= c <= 'z' || 'A' <= c <= 'Z' || '0' <= c <= '9' || c == '_'
  }

  /** `replace(/\b\w/g, l => l.toUpperCase())`: a word character that starts a word is upper-cased. */
  function CapitalizeWords(s: string): (r: string)
    ensures |r| == |s|
  {
    seq(|s|, i requires 0 <= i < |s| =>
      if IsWordChar(s[i]) && (i == 0 || !IsWordChar(s[i - 1])) then UpperChar(s[i]) else s[i])
  }

  /** Capitalising changes letter case only, at word starts: lower-casing undoes it, and applying
      it again changes nothing, because a word character stays one and the upper-cased letter is
      already upper case. */
  lemma CapitalizeWordsSpec(s: string)
    ensures Lower(CapitalizeWords(s)) == Lower(s)
    ensures CapitalizeWords(CapitalizeWords(s)) == CapitalizeWords(s)
  {
    var r := CapitalizeWords(s);
    forall i | 0 <= i < |s| ensures IsWordChar(r[i]) == IsWordChar(s[i]) && LowerChar(r[i]) == LowerChar(s[i]) {
    }
    var rr := CapitalizeWords(r);
    forall i | 0 <= i < |s| ensures rr[i] == r[i] {
      if i > 0 {
        assert IsWordChar(r[i - 1]) == IsWordChar(s[i - 1]);
      }
    }
  }

  /** The label shown for a subject key. */
  function SubjectLabel(key: string): (r: string)
    ensures |r| == |key|
  {
    CapitalizeWords(ReplaceFirstHyphen(key))
  }

  predicate LowerWord(w: string) {
    |w| > 0 && forall i :: 0 <= i < |w| ==> 'a' <= w[i] <= 'z'
  }

  /** The replacement turns the one hyphen between two words into a space. */
  lemma HyphenToSpace(w1: string, w2: string)
    requires LowerWord(w1) && LowerWord(w2)
    ensures ReplaceFirstHyphen(w1 + "-" + w2) == w1 + " " + w2
  {
    var key := w1 + "-" + w2;
    ReplaceFirstHyphenSpec(key, |w1|);
    var t, u := ReplaceFirstHyphen(key), w1 + " " + w2;
    forall i | 0 <= i < |u| ensures t[i] == u[i] {
      if i < |w1| {
        assert key[i] == w1[i] == u[i];
      } else if i > |w1| {
        assert key[i] == w2[i - |w1| - 1] == u[i];
      }
    }
  }

  /** Capitalising works word by word across a separator that is not a word character. */
  lemma CapitalizeJoin(a: string, c: char, b: string)
    requires !IsWordChar(c)
    ensures CapitalizeWords(a + [c] + b) == CapitalizeWords(a) + [c] + CapitalizeWords(b)
  {
    var s := a + [c] + b;
    var r, e := CapitalizeWords(s), CapitalizeWords(a) + [c] + CapitalizeWords(b);
    forall i | 0 <= i < |s| ensures r[i] == e[i] {
      if i < |a| {
        assert s[i] == a[i];
        assert i > 0 ==> s[i - 1] == a[i - 1];
      } else if i > |a| {
        var k := i - |a| - 1;
        assert s[i] == b[k];
        assert k > 0 ==> s[i - 1] == b[k - 1];
      }
    }
  }

  /** A lower-case word is capitalised at its first letter only. */
  lemma CapitalizeWord(w: string)
    requires LowerWord(w)
    ensures CapitalizeWords(w) == [UpperChar(w[0])] + w[1..]
  {
    var r, e := CapitalizeWords(w), [UpperChar(w[0])] + w[1..];
    forall i | 0 <= i < |w| ensures r[i] == e[i] {
      if i > 0 {
        assert IsWordChar(w[i - 1]);
        assert e[i] == w[i];
      }
    }
  }

  /** A two-word key such as `indian-history` is labelled with a space for the hyphen and both
      words capitalised: `Indian History`. */
  lemma TwoWordLabel(w1: string, w2: string)
    requires LowerWord(w1) && LowerWord(w2)
    ensures SubjectLabel(w1 + "-" + w2) == [UpperChar(w1[0])] + w1[1..] + " " + [UpperChar(w2[0])] + w2[1..]
  {
    HyphenToSpace(w1, w2);
    CapitalizeJoin(w1, ' ', w2);
    CapitalizeWord(w1);
    CapitalizeWord(w2);
    assert w1 + " " + w2 == w1 + [' '] + w2;
  }

  /** Only the first hyphen is replaced: a key with two hyphens keeps the second, and the letter
      after it still starts a word. */
  lemma SubjectLabelSecondHyphen()
    ensures SubjectLabel("a-b-c") == "A B-C"
  {
    var s := "a-b-c";
    ReplaceFirstHyphenSpec(s, 1);
    var t := ReplaceFirstHyphen(s);
    assert t[0] == 'a' && t[1] == ' ' && t[2] == 'b' && t[3] == '-' && t[4] == 'c';
    var r := CapitalizeWords(t);
    assert r[0] == 'A' && r[1] == ' ' && r[2] == 'B' && r[3] == '-' && r[4] == 'C';
  }

  /** The state of the admin panel's upload form. */
  class UploadForm {
    var formData: FormData
    var uploading: bool
    /** The storage paths uploads were attempted to, oldest first. */
    var storageCalls: seq<string>

    constructor ()
      ensures formData == EmptyForm && !uploading && storageCalls == []
    {
      formData := EmptyForm;
      uploading := false;
      storageCalls := [];
    }

    /** Keeps the chosen file only when its MIME type is exactly `application/pdf`; anything else,
        including no file at all, raises the wrong-file notification and changes nothing. */
    method HandleFileChange(selected: Option<File>) returns (toast: Option<Toast>)
      modifies this
      ensures selected.Some? && selected.value.mimeType == PdfMimeType ==>
        formData == old(formData).(file := selected) && toast == None
      ensures !(selected.Some? && selected.value.mimeType == PdfMimeType) ==>
        formData == old(formData) && toast == Some(WrongFile)
      ensures uploading == old(uploading) && storageCalls == old(storageCalls)
    {
      if selected.Some? && selected.value.mimeType == PdfMimeType {
        formData := formData.(file := selected);
        toast := None;
      } else {
        toast := Some(WrongFile);
      }
    }

    /** Whether the guard lets an upload through: a file and non-empty subject, chapter and
        topic name. */
    function Ready(): bool
      reads this
    {
      formData.file.Some? && formData.subject != "" && formData.chapter != "" && formData.topicName != ""
    }

    /** A refused upload reaches no storage call and leaves the form and the flag alone; an
        accepted one stores to the form's path, resets the form on success and keeps it on failure,
        and ends with the flag cleared. */
    method HandleUpload(outcome: UploadOutcome) returns (toast: Toast)
      modifies this
      ensures !old(Ready()) ==>
        toast == MissingFields && formData == old(formData) && uploading == old(uploading) && storageCalls == old(storageCalls)
      ensures old(Ready()) ==>
        !uploading && storageCalls == old(storageCalls) + [StoragePath(old(formData).subject, old(formData).chapter, old(formData).file.value.name)]
      ensures old(Ready()) && outcome == Succeeded ==> toast == Uploaded && formData == EmptyForm
      ensures old(Ready()) && outcome == Failed ==> toast == UploadError && formData == old(formData)
    {
      if formData.file == None || formData.subject == "" || formData.chapter == "" || formData.topicName == "" {
        return MissingFields;
      }
      uploading := true;
      var path := "notes/" + formData.subject + "/" + formData.chapter + "/" + formData.file.value.name;
      storageCalls := storageCalls + [path];
      if outcome == Succeeded {
        toast := Uploaded;
        formData := FormData("", "", "", None);
      } else {
        toast := UploadError;
      }
      uploading := false;
    }
  }
}
