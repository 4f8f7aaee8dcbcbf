/** The seed catalog the app starts from: twelve subjects, each with a single chapter of topics,
    every topic a not yet completed text topic that was never read. The lemmas establish that the
    chapter and subject back-references agree with the nesting, that the seeded defaults hold,
    and that subject ids and topic ids are unique, so that the lookups by id are unambiguous. */
module SeedCatalog {
  import opened NotesTypes
  import opened Hierarchy
  import NotesStore

  /** A topic as the seed literal writes it: no Hindi name, file path, PDF URL, read time,
      bookmark or tags. */
  function SeedTopic(id: string, name: string, chapterId: string, content: string, kind: TopicType, isCompleted: bool): Topic {
    Topic(id, name, None, chapterId, content, kind, None, Some(isCompleted), None, None, None, None)
  }

  /** The ids of a list of topics, in order. */
  function Ids(ts: seq<Topic>): (r: seq<string>)
    ensures |r| == |ts|
  {
    seq(|ts|, i requires 0 <= i < |ts| => ts[i].id)
  }

  lemma IdsAppend(a: seq<Topic>, b: seq<Topic>)
    ensures Ids(a + b) == Ids(a) + Ids(b)
  {
  }

  predicate Distinct(xs: seq<string>) {
    forall i, j :: 0 <= i < j < |xs| ==> xs[i] != xs[j]
  }

  predicate Disjoint(xs: seq<string>, ys: seq<string>) {
    forall i, j :: 0 <= i < |xs| && 0 <= j < |ys| ==> xs[i] != ys[j]
  }

  /** Two lists without repeats and without common elements join into one without repeats. */
  lemma DistinctAppend(xs: seq<string>, ys: seq<string>)
    requires Distinct(xs) && Distinct(ys) && Disjoint(xs, ys)
    ensures Distinct(xs + ys)
  {
    var zs := xs + ys;
    forall i, j | 0 <= i < j < |zs| ensures zs[i] != zs[j] {
      if j < |xs| {
        assert zs[i] == xs[i] && zs[j] == xs[j];
      } else if i < |xs| {
        assert zs[i] == xs[i] && zs[j] == ys[j - |xs|];
      } else {
        assert zs[i] == ys[i - |xs|] && zs[j] == ys[j - |xs|];
      }
    }
  }

  lemma DisjointAppend(xs: seq<string>, ys: seq<string>, zs: seq<string>)
    requires Disjoint(xs, zs) && Disjoint(ys, zs)
    ensures Disjoint(xs + ys, zs)
  {
    var ws := xs + ys;
    forall i, j | 0 <= i < |ws| && 0 <= j < |zs| ensures ws[i] != zs[j] {
      if i < |xs| {
        assert ws[i] == xs[i];
      } else {
        assert ws[i] == ys[i - |xs|];
      }
    }
  }

  lemma SingleChapterTopics(s: Subject)
    requires |s.chapters| == 1
    ensures ChapterTopics(s.chapters) == s.chapters[0].topics
  {
    assert s.chapters[..0] == [];
  }

  /** Each chapter names its subject, and each topic its chapter. */
  predicate Linked(s: Subject) {
    forall j :: 0 <= j < |s.chapters| ==>
      s.chapters[j].subjectId == s.id
      && forall k :: 0 <= k < |s.chapters[j].topics| ==> s.chapters[j].topics[k].chapterId == s.chapters[j].id
  }

  /** The seeded state of a topic: a text topic, not completed, never read. */
  predicate Fresh(t: Topic) {
    t.kind == Text && t.isCompleted == Some(false) && t.lastRead == None
  }

  predicate AllFresh(s: Subject) {
    forall j, k :: 0 <= j < |s.chapters| && 0 <= k < |s.chapters[j].topics| ==> Fresh(s.chapters[j].topics[k])
  }

  /** Subject i has a single chapter whose topic ids, in order, are ls[i]. */
  predicate Catalogued(ss: seq<Subject>, ls: seq<seq<string>>) {
    |ss| == |ls|
    && forall i :: 0 <= i < |ss| ==> |ss[i].chapters| == 1 && Ids(ss[i].chapters[0].topics) == ls[i]
  }

  predicate PairwiseDisjoint(ls: seq<seq<string>>) {
    forall i, j :: 0 <= i < j < |ls| ==> Disjoint(ls[i], ls[j])
  }

  /** The lists joined end to end. */
  function Flatten(ls: seq<seq<string>>): seq<string> {
    if ls == [] then [] else Flatten(ls[..|ls| - 1]) + ls[|ls| - 1]
  }

  /** The catalog's topic ids, in traversal order, are the subjects' id lists joined. */
  lemma {:induction false} CataloguedIds(ss: seq<Subject>, ls: seq<seq<string>>)
    requires Catalogued(ss, ls)
    ensures Ids(AllTopics(ss)) == Flatten(ls)
  {
    if ss != [] {
      var n := |ss| - 1;
      var front, last := ss[..n], ss[n];
      assert Catalogued(front, ls[..n]);
      CataloguedIds(front, ls[..n]);
      assert ss == front + [last];
      AllTopicsSnoc(front, last);
      SingleChapterTopics(last);
      IdsAppend(AllTopics(front), last.chapters[0].topics);
    }
  }

  lemma {:induction false} FlattenApart(ls: seq<seq<string>>, xs: seq<string>)
    requires forall i :: 0 <= i < |ls| ==> Disjoint(ls[i], xs)
    ensures Disjoint(Flatten(ls), xs)
  {
    if ls != [] {
      var n := |ls| - 1;
      FlattenApart(ls[..n], xs);
      DisjointAppend(Flatten(ls[..n]), ls[n], xs);
    }
  }

  /** Lists without repeats that pairwise share nothing join into a list without repeats. */
  lemma {:induction false} FlattenDistinct(ls: seq<seq<string>>)
    requires forall i :: 0 <= i < |ls| ==> Distinct(ls[i])
    requires PairwiseDisjoint(ls)
    ensures Distinct(Flatten(ls))
  {
    if ls != [] {
      var n := |ls| - 1;
      var front := ls[..n];
      assert PairwiseDisjoint(front);
      FlattenDistinct(front);
      FlattenApart(front, ls[n]);
      DistinctAppend(Flatten(front), ls[n]);
    }
  }

  /** Per-subject distinct ids, plus pairwise disjoint id lists across subjects, make the ids of
      the whole catalog distinct. */
  lemma CatalogIdsDistinct(ss: seq<Subject>, ls: seq<seq<string>>)
    requires Catalogued(ss, ls) && PairwiseDisjoint(ls)
    requires forall i :: 0 <= i < |ls| ==> Distinct(ls[i])
    ensures Distinct(Ids(AllTopics(ss)))
  {
    CataloguedIds(ss, ls);
    FlattenDistinct(ls);
  }

  /** In a list without repeated ids, the lookup by a topic's id finds that very topic. */
  lemma {:induction false} UniqueIdsFind(ts: seq<Topic>, k: int)
    requires Distinct(Ids(ts)) && 0 <= k < |ts|
    ensures NotesStore.FindTopic(ts, ts[k].id) == Some(ts[k])
  {
    NotesStore.FindTopicSpec(ts, ts[k].id);
    var m :| 0 <= m < |ts| && ts[m] == NotesStore.FindTopic(ts, ts[k].id).value && ts[m].id == ts[k].id
             && forall p :: 0 <= p < m ==> ts[p].id != ts[k].id;
    assert Ids(ts)[k] == ts[k].id;
    assert Ids(ts)[m] == ts[m].id;
  }

  ghost const IndianHistoryTopicIds: seq<string> := ["indus-valley", "vedic-civilization", "buddhism", "jainism", "mauryan-empire", "gupta-empire", "harshavardhan", "rajput-era", "sultanate-era", "mughal-empire", "maratha-empire", "british-rule", "social-economic-impact"]
  ghost const NationalMovementTopicIds: seq<string> := ["initial-stage", "swadeshi-civil-disobedience", "revolutionary-movement", "farewell-amendment", "quit-india"]
  ghost const GeographyTopicIds: seq<string> := ["rivers", "water-resources", "mountains-glaciers", "desert-dry-areas", "forest", "mineral-resources", "political-geography", "climate", "time-zone", "demographics-migrations"]
  ghost const IndianEconomyTopicIds: seq<string> := ["planning-commission", "mixed-economy", "green-revolution", "white-revolution", "banking-nationalization", "lpg-reforms", "economic-reforms-2014", "farm-reforms", "structural-reforms", "labour-reforms", "economic-reforms", "gst"]
  ghost const ConstitutionAdministrationTopicIds: seq<string> := ["salient-features", "directive-principles", "fundamental-rights-duties", "parliamentary-system", "federal-system", "judicial-framework", "district-administration", "local-bodies"]
  ghost const GeneralScienceTopicIds: seq<string> := ["basic-physics", "basic-chemistry", "basic-biology"]
  ghost const ElementaryArithmeticTopicIds: seq<string> := ["whole-numbers", "percentage", "arithmetic-equations", "square-roots", "exponent-powers", "average"]
  ghost const GeneralHindiTopicIds: seq<string> := ["sandhi", "vilom-shabd", "paryayvachi", "ling", "samashrut", "muhavare", "ashuddhiyan", "lekhak-rachnaye"]
  ghost const GeneralEnglishTopicIds: seq<string> := ["grammar", "passages"]
  ghost const LogicReasoningTopicIds: seq<string> := ["order-ranking", "blood-relations", "calendar-watch", "cause-effect", "coding-decoding", "conclusive-reasoning"]
  ghost const CurrentAffairsTopicIds: seq<string> := ["national-affairs", "international-affairs"]
  ghost const GeneralAwarenessTopicIds: seq<string> := ["neighbours", "countries-capitals", "states-uts", "parliament", "important-days", "world-organizations", "tourism", "art-culture", "sports", "research-institutes", "books-authors", "awards-honours", "climate-environment"]

  ghost const TopicIdLists: seq<seq<string>> := [
    IndianHistoryTopicIds,
    NationalMovementTopicIds,
    GeographyTopicIds,
    IndianEconomyTopicIds,
    ConstitutionAdministrationTopicIds,
    GeneralScienceTopicIds,
    ElementaryArithmeticTopicIds,
    GeneralHindiTopicIds,
    GeneralEnglishTopicIds,
    LogicReasoningTopicIds,
    CurrentAffairsTopicIds,
    GeneralAwarenessTopicIds
  ]

  lemma IndianHistoryIdsDistinct()
    ensures Distinct(IndianHistoryTopicIds)
  {
  }

  lemma NationalMovementIdsDistinct()
    ensures Distinct(NationalMovementTopicIds)
  {
  }

  lemma GeographyIdsDistinct()
    ensures Distinct(GeographyTopicIds)
  {
  }

  lemma IndianEconomyIdsDistinct()
    ensures Distinct(IndianEconomyTopicIds)
  {
  }

  lemma ConstitutionAdministrationIdsDistinct()
    ensures Distinct(ConstitutionAdministrationTopicIds)
  {
  }

  lemma GeneralScienceIdsDistinct()
    ensures Distinct(GeneralScienceTopicIds)
  {
  }

  lemma ElementaryArithmeticIdsDistinct()
    ensures Distinct(ElementaryArithmeticTopicIds)
  {
  }

  lemma GeneralHindiIdsDistinct()
    ensures Distinct(GeneralHindiTopicIds)
  {
  }

  lemma GeneralEnglishIdsDistinct()
    ensures Distinct(GeneralEnglishTopicIds)
  {
  }

  lemma LogicReasoningIdsDistinct()
    ensures Distinct(LogicReasoningTopicIds)
  {
  }

  lemma CurrentAffairsIdsDistinct()
    ensures Distinct(CurrentAffairsTopicIds)
  {
  }

  lemma GeneralAwarenessIdsDistinct()
    ensures Distinct(GeneralAwarenessTopicIds)
  {
  }

  // Subject i's topic ids against subject j's, for i < j.
  lemma Apart0x1()
    ensures Disjoint(IndianHistoryTopicIds, NationalMovementTopicIds)
  {
  }

  lemma Apart0x2()
    ensures Disjoint(IndianHistoryTopicIds, GeographyTopicIds)
  {
  }

  lemma Apart0x3()
    ensures Disjoint(IndianHistoryTopicIds, IndianEconomyTopicIds)
  {
  }

  lemma Apart0x4()
    ensures Disjoint(IndianHistoryTopicIds, ConstitutionAdministrationTopicIds)
  {
  }

  lemma Apart0x5()
    ensures Disjoint(IndianHistoryTopicIds, GeneralScienceTopicIds)
  {
  }

  lemma Apart0x6()
    ensures Disjoint(IndianHistoryTopicIds, ElementaryArithmeticTopicIds)
  {
  }

  lemma Apart0x7()
    ensures Disjoint(IndianHistoryTopicIds, GeneralHindiTopicIds)
  {
  }

  lemma Apart0x8()
    ensures Disjoint(IndianHistoryTopicIds, GeneralEnglishTopicIds)
  {
  }

  lemma Apart0x9()
    ensures Disjoint(IndianHistoryTopicIds, LogicReasoningTopicIds)
  {
  }

  lemma Apart0x10()
    ensures Disjoint(IndianHistoryTopicIds, CurrentAffairsTopicIds)
  {
  }

  lemma Apart0x11()
    ensures Disjoint(IndianHistoryTopicIds, GeneralAwarenessTopicIds)
  {
  }

  lemma Apart1x2()
    ensures Disjoint(NationalMovementTopicIds, GeographyTopicIds)
  {
  }

  lemma Apart1x3()
    ensures Disjoint(NationalMovementTopicIds, IndianEconomyTopicIds)
  {
  }

  lemma Apart1x4()
    ensures Disjoint(NationalMovementTopicIds, ConstitutionAdministrationTopicIds)
  {
  }

  lemma Apart1x5()
    ensures Disjoint(NationalMovementTopicIds, GeneralScienceTopicIds)
  {
  }

  lemma Apart1x6()
    ensures Disjoint(NationalMovementTopicIds, ElementaryArithmeticTopicIds)
  {
  }

  lemma Apart1x7()
    ensures Disjoint(NationalMovementTopicIds, GeneralHindiTopicIds)
  {
  }

  lemma Apart1x8()
    ensures Disjoint(NationalMovementTopicIds, GeneralEnglishTopicIds)
  {
  }

  lemma Apart1x9()
    ensures Disjoint(NationalMovementTopicIds, LogicReasoningTopicIds)
  {
  }

  lemma Apart1x10()
    ensures Disjoint(NationalMovementTopicIds, CurrentAffairsTopicIds)
  {
  }

  lemma Apart1x11()
    ensures Disjoint(NationalMovementTopicIds, GeneralAwarenessTopicIds)
  {
  }

  lemma Apart2x3()
    ensures Disjoint(GeographyTopicIds, IndianEconomyTopicIds)
  {
  }

  lemma Apart2x4()
    ensures Disjoint(GeographyTopicIds, ConstitutionAdministrationTopicIds)
  {
  }

  lemma Apart2x5()
    ensures Disjoint(GeographyTopicIds, GeneralScienceTopicIds)
  {
  }

  lemma Apart2x6()
    ensures Disjoint(GeographyTopicIds, ElementaryArithmeticTopicIds)
  {
  }

  lemma Apart2x7()
    ensures Disjoint(GeographyTopicIds, GeneralHindiTopicIds)
  {
  }

  lemma Apart2x8()
    ensures Disjoint(GeographyTopicIds, GeneralEnglishTopicIds)
  {
  }

  lemma Apart2x9()
    ensures Disjoint(GeographyTopicIds, LogicReasoningTopicIds)
  {
  }

  lemma Apart2x10()
    ensures Disjoint(GeographyTopicIds, CurrentAffairsTopicIds)
  {
  }

  lemma Apart2x11()
    ensures Disjoint(GeographyTopicIds, GeneralAwarenessTopicIds)
  {
  }

  lemma Apart3x4()
    ensures Disjoint(IndianEconomyTopicIds, ConstitutionAdministrationTopicIds)
  {
  }

  lemma Apart3x5()
    ensures Disjoint(IndianEconomyTopicIds, GeneralScienceTopicIds)
  {
  }

  lemma Apart3x6()
    ensures Disjoint(IndianEconomyTopicIds, ElementaryArithmeticTopicIds)
  {
  }

  lemma Apart3x7()
    ensures Disjoint(IndianEconomyTopicIds, GeneralHindiTopicIds)
  {
  }

  lemma Apart3x8()
    ensures Disjoint(IndianEconomyTopicIds, GeneralEnglishTopicIds)
  {
  }

  lemma Apart3x9()
    ensures Disjoint(IndianEconomyTopicIds, LogicReasoningTopicIds)
  {
  }

  lemma Apart3x10()
    ensures Disjoint(IndianEconomyTopicIds, CurrentAffairsTopicIds)
  {
  }

  lemma Apart3x11()
    ensures Disjoint(IndianEconomyTopicIds, GeneralAwarenessTopicIds)
  {
  }

  lemma Apart4x5()
    ensures Disjoint(ConstitutionAdministrationTopicIds, GeneralScienceTopicIds)
  {
  }

  lemma Apart4x6()
    ensures Disjoint(ConstitutionAdministrationTopicIds, ElementaryArithmeticTopicIds)
  {
  }

  lemma Apart4x7()
    ensures Disjoint(ConstitutionAdministrationTopicIds, GeneralHindiTopicIds)
  {
  }

  lemma Apart4x8()
    ensures Disjoint(ConstitutionAdministrationTopicIds, GeneralEnglishTopicIds)
  {
  }

  lemma Apart4x9()
    ensures Disjoint(ConstitutionAdministrationTopicIds, LogicReasoningTopicIds)
  {
  }

  lemma Apart4x10()
    ensures Disjoint(ConstitutionAdministrationTopicIds, CurrentAffairsTopicIds)
  {
  }

  lemma Apart4x11()
    ensures Disjoint(ConstitutionAdministrationTopicIds, GeneralAwarenessTopicIds)
  {
  }

  lemma Apart5x6()
    ensures Disjoint(GeneralScienceTopicIds, ElementaryArithmeticTopicIds)
  {
  }

  lemma Apart5x7()
    ensures Disjoint(GeneralScienceTopicIds, GeneralHindiTopicIds)
  {
  }

  lemma Apart5x8()
    ensures Disjoint(GeneralScienceTopicIds, GeneralEnglishTopicIds)
  {
  }

  lemma Apart5x9()
    ensures Disjoint(GeneralScienceTopicIds, LogicReasoningTopicIds)
  {
  }

  lemma Apart5x10()
    ensures Disjoint(GeneralScienceTopicIds, CurrentAffairsTopicIds)
  {
  }

  lemma Apart5x11()
    ensures Disjoint(GeneralScienceTopicIds, GeneralAwarenessTopicIds)
  {
  }

  lemma Apart6x7()
    ensures Disjoint(ElementaryArithmeticTopicIds, GeneralHindiTopicIds)
  {
  }

  lemma Apart6x8()
    ensures Disjoint(ElementaryArithmeticTopicIds, GeneralEnglishTopicIds)
  {
  }

  lemma Apart6x9()
    ensures Disjoint(ElementaryArithmeticTopicIds, LogicReasoningTopicIds)
  {
  }

  lemma Apart6x10()
    ensures Disjoint(ElementaryArithmeticTopicIds, CurrentAffairsTopicIds)
  {
  }

  lemma Apart6x11()
    ensures Disjoint(ElementaryArithmeticTopicIds, GeneralAwarenessTopicIds)
  {
  }

  lemma Apart7x8()
    ensures Disjoint(GeneralHindiTopicIds, GeneralEnglishTopicIds)
  {
  }

  lemma Apart7x9()
    ensures Disjoint(GeneralHindiTopicIds, LogicReasoningTopicIds)
  {
  }

  lemma Apart7x10()
    ensures Disjoint(GeneralHindiTopicIds, CurrentAffairsTopicIds)
  {
  }

  lemma Apart7x11()
    ensures Disjoint(GeneralHindiTopicIds, GeneralAwarenessTopicIds)
  {
  }

  lemma Apart8x9()
    ensures Disjoint(GeneralEnglishTopicIds, LogicReasoningTopicIds)
  {
  }

  lemma Apart8x10()
    ensures Disjoint(GeneralEnglishTopicIds, CurrentAffairsTopicIds)
  {
  }

  lemma Apart8x11()
    ensures Disjoint(GeneralEnglishTopicIds, GeneralAwarenessTopicIds)
  {
  }

  lemma Apart9x10()
    ensures Disjoint(LogicReasoningTopicIds, CurrentAffairsTopicIds)
  {
  }

  lemma Apart9x11()
    ensures Disjoint(LogicReasoningTopicIds, GeneralAwarenessTopicIds)
  {
  }

  lemma Apart10x11()
    ensures Disjoint(CurrentAffairsTopicIds, GeneralAwarenessTopicIds)
  {
  }

  lemma IdListsApart()
    ensures PairwiseDisjoint(TopicIdLists)
  {
    Apart0x1();
    Apart0x2();
    Apart0x3();
    Apart0x4();
    Apart0x5();
    Apart0x6();
    Apart0x7();
    Apart0x8();
    Apart0x9();
    Apart0x10();
    Apart0x11();
    Apart1x2();
    Apart1x3();
    Apart1x4();
    Apart1x5();
    Apart1x6();
    Apart1x7();
    Apart1x8();
    Apart1x9();
    Apart1x10();
    Apart1x11();
    Apart2x3();
    Apart2x4();
    Apart2x5();
    Apart2x6();
    Apart2x7();
    Apart2x8();
    Apart2x9();
    Apart2x10();
    Apart2x11();
    Apart3x4();
    Apart3x5();
    Apart3x6();
    Apart3x7();
    Apart3x8();
    Apart3x9();
    Apart3x10();
    Apart3x11();
    Apart4x5();
    Apart4x6();
    Apart4x7();
    Apart4x8();
    Apart4x9();
    Apart4x10();
    Apart4x11();
    Apart5x6();
    Apart5x7();
    Apart5x8();
    Apart5x9();
    Apart5x10();
    Apart5x11();
    Apart6x7();
    Apart6x8();
    Apart6x9();
    Apart6x10();
    Apart6x11();
    Apart7x8();
    Apart7x9();
    Apart7x10();
    Apart7x11();
    Apart8x9();
    Apart8x10();
    Apart8x11();
    Apart9x10();
    Apart9x11();
    Apart10x11();
  }

  /** subjects.ts:4-29 */
  const IndianHistory: Subject := Subject(
    "indian-history", "Indian History", "🏛️", "hsl(35, 70%, 55%)",
    [Chapter("history-topics", "Historical Topics", "indian-history", [
      SeedTopic("indus-valley", "Indus valley civilization", "history-topics", "Content for Indus valley civilization", Text, false),
      SeedTopic("vedic-civilization", "Vedic civilization", "history-topics", "Content for Vedic civilization", Text, false),
      SeedTopic("buddhism", "Buddhism", "history-topics", "Content for Buddhism", Text, false),
      SeedTopic("jainism", "Jainism", "history-topics", "Content for Jainism", Text, false),
      SeedTopic("mauryan-empire", "Mauryan empire", "history-topics", "Content for Mauryan empire", Text, false),
      SeedTopic("gupta-empire", "Gupta empire", "history-topics", "Content for Gupta empire", Text, false),
      SeedTopic("harshavardhan", "Harshavardhan", "history-topics", "Content for Harshavardhan", Text, false),
      SeedTopic("rajput-era", "Rajput era", "history-topics", "Content for Rajput era", Text, false),
      SeedTopic("sultanate-era", "Sultanate era", "history-topics", "Content for Sultanate era", Text, false),
      SeedTopic("mughal-empire", "Mughal empire", "history-topics", "Content for Mughal empire", Text, false),
      SeedTopic("maratha-empire", "Maratha empire", "history-topics", "Content for Maratha empire", Text, false),
      SeedTopic("british-rule", "British Rule and 1st war of independence", "history-topics", "Content for British Rule and 1st war of independence", Text, false),
      SeedTopic("social-economic-impact", "Social and economic impact of British rule", "history-topics", "Content for Social and economic impact of British rule", Text, false)
    ], None)], None, None)

  lemma IndianHistoryLinked()
    ensures IndianHistory.id == "indian-history" && |IndianHistory.chapters| == 1 && Linked(IndianHistory)
  {
  }

  lemma IndianHistoryFresh()
    ensures AllFresh(IndianHistory)
  {
  }

  lemma IndianHistoryIdsListed()
    ensures Ids(IndianHistory.chapters[0].topics) == IndianHistoryTopicIds
  {
    assert |IndianHistory.chapters| == 1;
  }

  method SeedIndianHistory() returns (s: Subject)
    ensures s.id == "indian-history" && |s.chapters| == 1 && Linked(s) && AllFresh(s)
    ensures Ids(s.chapters[0].topics) == IndianHistoryTopicIds
  {
    s := IndianHistory;
    IndianHistoryLinked();
    IndianHistoryFresh();
    IndianHistoryIdsListed();
  }

  /** subjects.ts:30-47 */
  const NationalMovement: Subject := Subject(
    "national-movement", "Indian National Movement", "🇮🇳", "hsl(15, 85%, 60%)",
    [Chapter("movement-topics", "Movement Topics", "national-movement", [
      SeedTopic("initial-stage", "Initial stage of freedom movement", "movement-topics", "Content for Initial stage of freedom movement", Text, false),
      SeedTopic("swadeshi-civil-disobedience", "Swadeshi and civil disobedience movement - Mahatma Gandhi and other leaders' role", "movement-topics", "Content for Swadeshi and civil disobedience movement", Text, false),
      SeedTopic("revolutionary-movement", "Revolutionary movement and rise of militant nationalism", "movement-topics", "Content for Revolutionary movement and rise of militant nationalism", Text, false),
      SeedTopic("farewell-amendment", "Farewell Amendment and British India Act 1935", "movement-topics", "Content for Farewell Amendment and British India Act 1935", Text, false),
      SeedTopic("quit-india", "Quit India movement, Azad Hind Fauj and Netaji Subhash Chandra Bose", "movement-topics", "Content for Quit India movement, Azad Hind Fauj and Netaji Subhash Chandra Bose", Text, false)
    ], None)], None, None)

  lemma NationalMovementLinked()
    ensures NationalMovement.id == "national-movement" && |NationalMovement.chapters| == 1 && Linked(NationalMovement)
  {
  }

  lemma NationalMovementFresh()
    ensures AllFresh(NationalMovement)
  {
  }

  lemma NationalMovementIdsListed()
    ensures Ids(NationalMovement.chapters[0].topics) == NationalMovementTopicIds
  {
    assert |NationalMovement.chapters| == 1;
  }

  method SeedNationalMovement() returns (s: Subject)
    ensures s.id == "national-movement" && |s.chapters| == 1 && Linked(s) && AllFresh(s)
    ensures Ids(s.chapters[0].topics) == NationalMovementTopicIds
  {
    s := NationalMovement;
    NationalMovementLinked();
    NationalMovementFresh();
    NationalMovementIdsListed();
  }

  /** subjects.ts:48-70 */
  const Geography: Subject := Subject(
    "geography", "Geography (Indian & World)", "🌍", "hsl(120, 60%, 50%)",
    [Chapter("geography-topics", "Geography Topics", "geography", [
      SeedTopic("rivers", "Rivers", "geography-topics", "Content for Rivers", Text, false),
      SeedTopic("water-resources", "Water resources", "geography-topics", "Content for Water resources", Text, false),
      SeedTopic("mountains-glaciers", "Mountains & glaciers", "geography-topics", "Content for Mountains & glaciers", Text, false),
      SeedTopic("desert-dry-areas", "Desert & dry areas", "geography-topics", "Content for Desert & dry areas", Text, false),
      SeedTopic("forest", "Forest", "geography-topics", "Content for Forest", Text, false),
      SeedTopic("mineral-resources", "Mineral resources", "geography-topics", "Content for Mineral resources", Text, false),
      SeedTopic("political-geography", "Political Geography of India & World", "geography-topics", "Content for Political Geography of India & World", Text, false),
      SeedTopic("climate", "Climate", "geography-topics", "Content for Climate", Text, false),
      SeedTopic("time-zone", "Time zone", "geography-topics", "Content for Time zone", Text, false),
      SeedTopic("demographics-migrations", "Demographics & migrations", "geography-topics", "Content for Demographics & migrations", Text, false)
    ], None)], None, None)

  lemma GeographyLinked()
    ensures Geography.id == "geography" && |Geography.chapters| == 1 && Linked(Geography)
  {
  }

  lemma GeographyFresh()
    ensures AllFresh(Geography)
  {
  }

  lemma GeographyIdsListed()
    ensures Ids(Geography.chapters[0].topics) == GeographyTopicIds
  {
    assert |Geography.chapters| == 1;
  }

  method SeedGeography() returns (s: Subject)
    ensures s.id == "geography" && |s.chapters| == 1 && Linked(s) && AllFresh(s)
    ensures Ids(s.chapters[0].topics) == GeographyTopicIds
  {
    s := Geography;
    GeographyLinked();
    GeographyFresh();
    GeographyIdsListed();
  }

  /** subjects.ts:71-95 */
  const IndianEconomy: Subject := Subject(
    "indian-economy", "Indian Economy (1947 to 1991)", "💰", "hsl(45, 90%, 55%)",
    [Chapter("economy-topics", "Economy Topics", "indian-economy", [
      SeedTopic("planning-commission", "Planning commission and 5-year plans", "economy-topics", "Content for Planning commission and 5-year plans", Text, false),
      SeedTopic("mixed-economy", "Development of mixed economy: Private & Public", "economy-topics", "Content for Development of mixed economy", Text, false),
      SeedTopic("green-revolution", "Green revolution", "economy-topics", "Content for Green revolution", Text, false),
      SeedTopic("white-revolution", "White revolution & operation flood", "economy-topics", "Content for White revolution & operation flood", Text, false),
      SeedTopic("banking-nationalization", "Banking nationalization", "economy-topics", "Content for Banking nationalization", Text, false),
      SeedTopic("lpg-reforms", "LPG reforms of 1991", "economy-topics", "Content for LPG reforms of 1991", Text, false),
      SeedTopic("economic-reforms-2014", "Economic reforms post-2014", "economy-topics", "Content for Economic reforms post-2014", Text, false),
      SeedTopic("farm-reforms", "Farm reforms", "economy-topics", "Content for Farm reforms", Text, false),
      SeedTopic("structural-reforms", "Structural reforms", "economy-topics", "Content for Structural reforms", Text, false),
      SeedTopic("labour-reforms", "Labour reforms", "economy-topics", "Content for Labour reforms", Text, false),
      SeedTopic("economic-reforms", "Economic reforms", "economy-topics", "Content for Economic reforms", Text, false),
      SeedTopic("gst", "GST", "economy-topics", "Content for GST", Text, false)
    ], None)], None, None)

  lemma IndianEconomyLinked()
    ensures IndianEconomy.id == "indian-economy" && |IndianEconomy.chapters| == 1 && Linked(IndianEconomy)
  {
  }

  lemma IndianEconomyFresh()
    ensures AllFresh(IndianEconomy)
  {
  }

  lemma IndianEconomyIdsListed()
    ensures Ids(IndianEconomy.chapters[0].topics) == IndianEconomyTopicIds
  {
    assert |IndianEconomy.chapters| == 1;
  }

  method SeedIndianEconomy() returns (s: Subject)
    ensures s.id == "indian-economy" && |s.chapters| == 1 && Linked(s) && AllFresh(s)
    ensures Ids(s.chapters[0].topics) == IndianEconomyTopicIds
  {
    s := IndianEconomy;
    IndianEconomyLinked();
    IndianEconomyFresh();
    IndianEconomyIdsListed();
  }

  /** subjects.ts:96-116 */
  const ConstitutionAdministration: Subject := Subject(
    "constitution-administration", "Indian Constitution & Public Administration", "⚖️", "hsl(240, 70%, 60%)",
    [Chapter("constitution-topics", "Constitution Topics", "constitution-administration", [
      SeedTopic("salient-features", "Salient Features", "constitution-topics", "Content for Salient Features", Text, false),
      SeedTopic("directive-principles", "Directive principles", "constitution-topics", "Content for Directive principles", Text, false),
      SeedTopic("fundamental-rights-duties", "Fundamental rights & duties", "constitution-topics", "Content for Fundamental rights & duties", Text, false),
      SeedTopic("parliamentary-system", "Parliamentary system", "constitution-topics", "Content for Parliamentary system", Text, false),
      SeedTopic("federal-system", "Federal system, Union Govt & UR, Union Govt & States", "constitution-topics", "Content for Federal system", Text, false),
      SeedTopic("judicial-framework", "Judicial Framework", "constitution-topics", "Content for Judicial Framework", Text, false),
      SeedTopic("district-administration", "District Administration", "constitution-topics", "Content for District Administration", Text, false),
      SeedTopic("local-bodies", "Local bodies and Panchayat Raj", "constitution-topics", "Content for Local bodies and Panchayat Raj", Text, false)
    ], None)], None, None)

  lemma ConstitutionAdministrationLinked()
    ensures ConstitutionAdministration.id == "constitution-administration" && |ConstitutionAdministration.chapters| == 1 && Linked(ConstitutionAdministration)
  {
  }

  lemma ConstitutionAdministrationFresh()
    ensures AllFresh(ConstitutionAdministration)
  {
  }

  lemma ConstitutionAdministrationIdsListed()
    ensures Ids(ConstitutionAdministration.chapters[0].topics) == ConstitutionAdministrationTopicIds
  {
    assert |ConstitutionAdministration.chapters| == 1;
  }

  method SeedConstitutionAdministration() returns (s: Subject)
    ensures s.id == "constitution-administration" && |s.chapters| == 1 && Linked(s) && AllFresh(s)
    ensures Ids(s.chapters[0].topics) == ConstitutionAdministrationTopicIds
  {
    s := ConstitutionAdministration;
    ConstitutionAdministrationLinked();
    ConstitutionAdministrationFresh();
    ConstitutionAdministrationIdsListed();
  }

  /** subjects.ts:117-132 */
  const GeneralScience: Subject := Subject(
    "general-science", "General Science", "🔬", "hsl(180, 70%, 50%)",
    [Chapter("science-topics", "Science Topics", "general-science", [
      SeedTopic("basic-physics", "Basic Physics", "science-topics", "Content for Basic Physics", Text, false),
      SeedTopic("basic-chemistry", "Basic Chemistry", "science-topics", "Content for Basic Chemistry", Text, false),
      SeedTopic("basic-biology", "Basic Biology", "science-topics", "Content for Basic Biology", Text, false)
    ], None)], None, None)

  lemma GeneralScienceLinked()
    ensures GeneralScience.id == "general-science" && |GeneralScience.chapters| == 1 && Linked(GeneralScience)
  {
  }

  lemma GeneralScienceFresh()
    ensures AllFresh(GeneralScience)
  {
  }

  lemma GeneralScienceIdsListed()
    ensures Ids(GeneralScience.chapters[0].topics) == GeneralScienceTopicIds
  {
    assert |GeneralScience.chapters| == 1;
  }

  method SeedGeneralScience() returns (s: Subject)
    ensures s.id == "general-science" && |s.chapters| == 1 && Linked(s) && AllFresh(s)
    ensures Ids(s.chapters[0].topics) == GeneralScienceTopicIds
  {
    s := GeneralScience;
    GeneralScienceLinked();
    GeneralScienceFresh();
    GeneralScienceIdsListed();
  }

  /** subjects.ts:133-151 */
  const ElementaryArithmetic: Subject := Subject(
    "elementary-arithmetic", "Elementary Arithmetic", "🔢", "hsl(300, 70%, 55%)",
    [Chapter("arithmetic-topics", "Arithmetic Topics", "elementary-arithmetic", [
      SeedTopic("whole-numbers", "Whole numbers, fractions and decimals", "arithmetic-topics", "Content for Whole numbers, fractions and decimals", Text, false),
      SeedTopic("percentage", "Percentage", "arithmetic-topics", "Content for Percentage", Text, false),
      SeedTopic("arithmetic-equations", "Simple arithmetic equations", "arithmetic-topics", "Content for Simple arithmetic equations", Text, false),
      SeedTopic("square-roots", "Square & square roots", "arithmetic-topics", "Content for Square & square roots", Text, false),
      SeedTopic("exponent-powers", "Exponent and powers", "arithmetic-topics", "Content for Exponent and powers", Text, false),
      SeedTopic("average", "Average", "arithmetic-topics", "Content for Average", Text, false)
    ], None)], None, None)

  lemma ElementaryArithmeticLinked()
    ensures ElementaryArithmetic.id == "elementary-arithmetic" && |ElementaryArithmetic.chapters| == 1 && Linked(ElementaryArithmetic)
  {
  }

  lemma ElementaryArithmeticFresh()
    ensures AllFresh(ElementaryArithmetic)
  {
  }

  lemma ElementaryArithmeticIdsListed()
    ensures Ids(ElementaryArithmetic.chapters[0].topics) == ElementaryArithmeticTopicIds
  {
    assert |ElementaryArithmetic.chapters| == 1;
  }

  method SeedElementaryArithmetic() returns (s: Subject)
    ensures s.id == "elementary-arithmetic" && |s.chapters| == 1 && Linked(s) && AllFresh(s)
    ensures Ids(s.chapters[0].topics) == ElementaryArithmeticTopicIds
  {
    s := ElementaryArithmetic;
    ElementaryArithmeticLinked();
    ElementaryArithmeticFresh();
    ElementaryArithmeticIdsListed();
  }

  /** subjects.ts:152-172 */
  const GeneralHindi: Subject := Subject(
    "general-hindi", "General Hindi", "📚", "hsl(0, 70%, 55%)",
    [Chapter("hindi-topics", "Hindi Topics", "general-hindi", [
      SeedTopic("sandhi", "संधि", "hindi-topics", "Content for संधि", Text, false),
      SeedTopic("vilom-shabd", "विलोम शब्द", "hindi-topics", "Content for विलोम शब्द", Text, false),
      SeedTopic("paryayvachi", "पर्यायवाची वाक्यांशों के लिए एक शब्द", "hindi-topics", "Content for पर्यायवाची वाक्यांशों के लिए एक शब्द", Text, false),
      SeedTopic("ling", "लिंग", "hindi-topics", "Content for लिंग", Text, false),
      SeedTopic("samashrut", "समश्रुतभिन्नार्थक शब्द", "hindi-topics", "Content for समश्रुतभिन्नार्थक शब्द", Text, false),
      SeedTopic("muhavare", "मुहावरे-लोकोक्तियां", "hindi-topics", "Content for मुहावरे-लोकोक्तियां", Text, false),
      SeedTopic("ashuddhiyan", "सामान्य अशुद्धियां", "hindi-topics", "Content for सामान्य अशुद्धियां", Text, false),
      SeedTopic("lekhak-rachnaye", "लेखक और रचनाएं", "hindi-topics", "Content for लेखक और रचनाएं", Text, false)
    ], None)], None, None)

  lemma GeneralHindiLinked()
    ensures GeneralHindi.id == "general-hindi" && |GeneralHindi.chapters| == 1 && Linked(GeneralHindi)
  {
  }

  lemma GeneralHindiFresh()
    ensures AllFresh(GeneralHindi)
  {
  }

  lemma GeneralHindiIdsListed()
    ensures Ids(GeneralHindi.chapters[0].topics) == GeneralHindiTopicIds
  {
    assert |GeneralHindi.chapters| == 1;
  }

  method SeedGeneralHindi() returns (s: Subject)
    ensures s.id == "general-hindi" && |s.chapters| == 1 && Linked(s) && AllFresh(s)
    ensures Ids(s.chapters[0].topics) == GeneralHindiTopicIds
  {
    s := GeneralHindi;
    GeneralHindiLinked();
    GeneralHindiFresh();
    GeneralHindiIdsListed();
  }

  /** subjects.ts:173-187 */
  const GeneralEnglish: Subject := Subject(
    "general-english", "General English", "🔤", "hsl(210, 70%, 55%)",
    [Chapter("english-topics", "English Topics", "general-english", [
      SeedTopic("grammar", "English Grammar", "english-topics", "Content for English Grammar", Text, false),
      SeedTopic("passages", "Questions on passages", "english-topics", "Content for Questions on passages", Text, false)
    ], None)], None, None)

  lemma GeneralEnglishLinked()
    ensures GeneralEnglish.id == "general-english" && |GeneralEnglish.chapters| == 1 && Linked(GeneralEnglish)
  {
  }

  lemma GeneralEnglishFresh()
    ensures AllFresh(GeneralEnglish)
  {
  }

  lemma GeneralEnglishIdsListed()
    ensures Ids(GeneralEnglish.chapters[0].topics) == GeneralEnglishTopicIds
  {
    assert |GeneralEnglish.chapters| == 1;
  }

  method SeedGeneralEnglish() returns (s: Subject)
    ensures s.id == "general-english" && |s.chapters| == 1 && Linked(s) && AllFresh(s)
    ensures Ids(s.chapters[0].topics) == GeneralEnglishTopicIds
  {
    s := GeneralEnglish;
    GeneralEnglishLinked();
    GeneralEnglishFresh();
    GeneralEnglishIdsListed();
  }

  /** subjects.ts:188-206 */
  const LogicReasoning: Subject := Subject(
    "logic-reasoning", "Logic & Reasoning", "🧠", "hsl(270, 70%, 55%)",
    [Chapter("reasoning-topics", "Reasoning Topics", "logic-reasoning", [
      SeedTopic("order-ranking", "Order & ranking", "reasoning-topics", "Content for Order & ranking", Text, false),
      SeedTopic("blood-relations", "Blood relations", "reasoning-topics", "Content for Blood relations", Text, false),
      SeedTopic("calendar-watch", "Calendar & watch", "reasoning-topics", "Content for Calendar & watch", Text, false),
      SeedTopic("cause-effect", "Cause & effect", "reasoning-topics", "Content for Cause & effect", Text, false),
      SeedTopic("coding-decoding", "Coding decoding", "reasoning-topics", "Content for Coding decoding", Text, false),
      SeedTopic("conclusive-reasoning", "Conclusive reasoning, etc.", "reasoning-topics", "Content for Conclusive reasoning", Text, false)
    ], None)], None, None)

  lemma LogicReasoningLinked()
    ensures LogicReasoning.id == "logic-reasoning" && |LogicReasoning.chapters| == 1 && Linked(LogicReasoning)
  {
  }

  lemma LogicReasoningFresh()
    ensures AllFresh(LogicReasoning)
  {
  }

  lemma LogicReasoningIdsListed()
    ensures Ids(LogicReasoning.chapters[0].topics) == LogicReasoningTopicIds
  {
    assert |LogicReasoning.chapters| == 1;
  }

  method SeedLogicReasoning() returns (s: Subject)
    ensures s.id == "logic-reasoning" && |s.chapters| == 1 && Linked(s) && AllFresh(s)
    ensures Ids(s.chapters[0].topics) == LogicReasoningTopicIds
  {
    s := LogicReasoning;
    LogicReasoningLinked();
    LogicReasoningFresh();
    LogicReasoningIdsListed();
  }

  /** subjects.ts:207-221 */
  const CurrentAffairs: Subject := Subject(
    "current-affairs", "Current Affairs", "📰", "hsl(25, 80%, 55%)",
    [Chapter("affairs-topics", "Current Affairs Topics", "current-affairs", [
      SeedTopic("national-affairs", "National current affairs", "affairs-topics", "Content for National current affairs", Text, false),
      SeedTopic("international-affairs", "International current affairs", "affairs-topics", "Content for International current affairs", Text, false)
    ], None)], None, None)

  lemma CurrentAffairsLinked()
    ensures CurrentAffairs.id == "current-affairs" && |CurrentAffairs.chapters| == 1 && Linked(CurrentAffairs)
  {
  }

  lemma CurrentAffairsFresh()
    ensures AllFresh(CurrentAffairs)
  {
  }

  lemma CurrentAffairsIdsListed()
    ensures Ids(CurrentAffairs.chapters[0].topics) == CurrentAffairsTopicIds
  {
    assert |CurrentAffairs.chapters| == 1;
  }

  method SeedCurrentAffairs() returns (s: Subject)
    ensures s.id == "current-affairs" && |s.chapters| == 1 && Linked(s) && AllFresh(s)
    ensures Ids(s.chapters[0].topics) == CurrentAffairsTopicIds
  {
    s := CurrentAffairs;
    CurrentAffairsLinked();
    CurrentAffairsFresh();
    CurrentAffairsIdsListed();
  }

  /** subjects.ts:222-247 */
  const GeneralAwareness: Subject := Subject(
    "general-awareness", "General Awareness", "🌟", "hsl(60, 80%, 55%)",
    [Chapter("awareness-topics", "General Awareness Topics", "general-awareness", [
      SeedTopic("neighbours", "India's Neighbours", "awareness-topics", "Content for India's Neighbours", Text, false),
      SeedTopic("countries-capitals", "Countries, Capitals & Currencies", "awareness-topics", "Content for Countries, Capitals & Currencies", Text, false),
      SeedTopic("states-uts", "Indian States & UTs", "awareness-topics", "Content for Indian States & UTs", Text, false),
      SeedTopic("parliament", "Indian Parliament", "awareness-topics", "Content for Indian Parliament", Text, false),
      SeedTopic("important-days", "Days of National & International Importance", "awareness-topics", "Content for Days of National & International Importance", Text, false),
      SeedTopic("world-organizations", "World organizations & HQs", "awareness-topics", "Content for World organizations & HQs", Text, false),
      SeedTopic("tourism", "Indian tourism destinations", "awareness-topics", "Content for Indian tourism destinations", Text, false),
      SeedTopic("art-culture", "Indian art & culture", "awareness-topics", "Content for Indian art & culture", Text, false),
      SeedTopic("sports", "Indian & International Sports", "awareness-topics", "Content for Indian & International Sports", Text, false),
      SeedTopic("research-institutes", "Indian research institutes", "awareness-topics", "Content for Indian research institutes", Text, false),
      SeedTopic("books-authors", "Books & Authors", "awareness-topics", "Content for Books & Authors", Text, false),
      SeedTopic("awards-honours", "Awards & Honours", "awareness-topics", "Content for Awards & Honours", Text, false),
      SeedTopic("climate-environment", "Climate change & environment", "awareness-topics", "Content for Climate change & environment", Text, false)
    ], None)], None, None)

  lemma GeneralAwarenessLinked()
    ensures GeneralAwareness.id == "general-awareness" && |GeneralAwareness.chapters| == 1 && Linked(GeneralAwareness)
  {
  }

  lemma GeneralAwarenessFresh()
    ensures AllFresh(GeneralAwareness)
  {
  }

  lemma GeneralAwarenessIdsListed()
    ensures Ids(GeneralAwareness.chapters[0].topics) == GeneralAwarenessTopicIds
  {
    assert |GeneralAwareness.chapters| == 1;
  }

  method SeedGeneralAwareness() returns (s: Subject)
    ensures s.id == "general-awareness" && |s.chapters| == 1 && Linked(s) && AllFresh(s)
    ensures Ids(s.chapters[0].topics) == GeneralAwarenessTopicIds
  {
    s := GeneralAwareness;
    GeneralAwarenessLinked();
    GeneralAwarenessFresh();
    GeneralAwarenessIdsListed();
  }

  /** The subject ids, in catalog order. */
  ghost const SubjectIds: seq<string> := [
    "indian-history", "national-movement", "geography", "indian-economy",
    "constitution-administration", "general-science", "elementary-arithmetic", "general-hindi",
    "general-english", "logic-reasoning", "current-affairs", "general-awareness"
  ]

  lemma SubjectIdsDistinct()
    ensures Distinct(SubjectIds)
  {
  }

  lemma IdListsDistinct()
    ensures forall i :: 0 <= i < |TopicIdLists| ==> Distinct(TopicIdLists[i])
  {
    IndianHistoryIdsDistinct();
    NationalMovementIdsDistinct();
    GeographyIdsDistinct();
    IndianEconomyIdsDistinct();
    ConstitutionAdministrationIdsDistinct();
    GeneralScienceIdsDistinct();
    ElementaryArithmeticIdsDistinct();
    GeneralHindiIdsDistinct();
    GeneralEnglishIdsDistinct();
    LogicReasoningIdsDistinct();
    CurrentAffairsIdsDistinct();
    GeneralAwarenessIdsDistinct();
  }

  /** A catalog whose subjects carry the seed's id lists has distinct topic ids. */
  lemma SeedIdsDistinct(ss: seq<Subject>)
    requires Catalogued(ss, TopicIdLists)
    ensures Distinct(Ids(AllTopics(ss)))
  {
    IdListsDistinct();
    IdListsApart();
    CatalogIdsDistinct(ss, TopicIdLists);
  }

  /** The `subjects` constant: twelve subjects with distinct ids, each with exactly one chapter
      whose back-reference names it, whose topics name that chapter and are fresh text topics,
      and whose topic ids are distinct across the whole catalog. */
  method SeedSubjects() returns (ss: seq<Subject>)
    ensures |ss| == 12
    ensures forall i, j :: 0 <= i < j < |ss| ==> ss[i].id != ss[j].id
    ensures forall i :: 0 <= i < |ss| ==> |ss[i].chapters| == 1 && Linked(ss[i]) && AllFresh(ss[i])
    ensures Distinct(Ids(AllTopics(ss)))
  {
    var s0 := SeedIndianHistory();
    var s1 := SeedNationalMovement();
    var s2 := SeedGeography();
    var s3 := SeedIndianEconomy();
    var s4 := SeedConstitutionAdministration();
    var s5 := SeedGeneralScience();
    var s6 := SeedElementaryArithmetic();
    var s7 := SeedGeneralHindi();
    var s8 := SeedGeneralEnglish();
    var s9 := SeedLogicReasoning();
    var s10 := SeedCurrentAffairs();
    var s11 := SeedGeneralAwareness();
    ss := [s0, s1, s2, s3, s4, s5, s6, s7, s8, s9, s10, s11];
    assert Catalogued(ss, TopicIdLists);
    SeedIdsDistinct(ss);
    assert forall i :: 0 <= i < |ss| ==> ss[i].id == SubjectIds[i];
    SubjectIdsDistinct();
  }
}
