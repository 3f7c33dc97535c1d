/**
 The evaluation run: load both annotators' files, compute the four
 agreement figures and the three disagreement reports. Printing is not
 modelled; the run yields the size, kappa and confusion matrices of the
 calculations and the final counter of each report.
 */
module Evaluation {
  import opened Dicts
  import opened Annotations
  import opened Selection
  import opened Agreement
  import opened Disagreements

  /**
   The figures the run prints: the size, kappa and (for the subtypes)
   confusion matrix of each calculation, and the final counter of each report.
   */
  datatype Summary<K, M> = Summary(
    nAffixal: nat,
    kappaAffixal: K,
    nDirectness: nat,
    kappaDirectness: K,
    nSubtypesIndirect: nat,
    kappaSubtypesIndirect: K,
    confusionSubtypesIndirect: M,
    nSubtypesAll: nat,
    kappaSubtypesAll: K,
    confusionSubtypesAll: M,
    affixalCount: int,
    directnessCount: int,
    subtypeCount: int)

  /**
   The run over the two loaded annotation sets, which are returned beside
   the summary. Each statistic sees the label lists of its filter and
   column. Seen from the outside, the cascade of filters holds: each
   narrower filter compares no more pairs than the one it refines, the two
   both-affixal calculations compare the same pairs, and no report prints
   more lines than its calculation compares.
   */
  method Evaluate<K, M>(rows1: seq<Row>, rows2: seq<Row>,
                        cohenKappa: (seq<string>, seq<string>) -> K,
                        crosstab: (seq<string>, seq<string>) -> M)
    returns (annotations1: AnnotationSet, annotations2: AnnotationSet, s: Summary<K, M>)
    ensures Valid(annotations1) && annotations1.keys == Distinct(KeysOf(Tail(rows1)))
    ensures StoresLast(annotations1, Tail(rows1), |Tail(rows1)|)
    ensures Valid(annotations2) && annotations2.keys == Distinct(KeysOf(Tail(rows2)))
    ensures StoresLast(annotations2, Tail(rows2), |Tail(rows2)|)
    ensures s.kappaAffixal == cohenKappa(LabelLists(annotations1, annotations2, Shared, Affixal).0,
                                         LabelLists(annotations1, annotations2, Shared, Affixal).1)
    ensures s.kappaDirectness == cohenKappa(LabelLists(annotations1, annotations2, BothAffixal, Directness).0,
                                            LabelLists(annotations1, annotations2, BothAffixal, Directness).1)
    ensures s.kappaSubtypesIndirect ==
              cohenKappa(LabelLists(annotations1, annotations2, BothAffixalIndirect, Subtype).0,
                         LabelLists(annotations1, annotations2, BothAffixalIndirect, Subtype).1)
    ensures s.confusionSubtypesIndirect ==
              crosstab(LabelLists(annotations1, annotations2, BothAffixalIndirect, Subtype).0,
                       LabelLists(annotations1, annotations2, BothAffixalIndirect, Subtype).1)
    ensures s.kappaSubtypesAll == cohenKappa(LabelLists(annotations1, annotations2, BothAffixal, Subtype).0,
                                             LabelLists(annotations1, annotations2, BothAffixal, Subtype).1)
    ensures s.confusionSubtypesAll == crosstab(LabelLists(annotations1, annotations2, BothAffixal, Subtype).0,
                                               LabelLists(annotations1, annotations2, BothAffixal, Subtype).1)
    ensures s.nAffixal == |Selected(annotations1, annotations2, Shared)|
    ensures s.nAffixal == |annotations1.entries.Keys * annotations2.entries.Keys|
    ensures s.nDirectness == |Selected(annotations1, annotations2, BothAffixal)|
    ensures s.nSubtypesIndirect == |Selected(annotations1, annotations2, BothAffixalIndirect)|
    ensures s.nSubtypesAll == |Selected(annotations1, annotations2, BothAffixal)|
    ensures s.affixalCount == 1 + s.nAffixal - AgreeCount(LabelLists(annotations1, annotations2, Shared, Affixal).0,
                                                          LabelLists(annotations1, annotations2, Shared, Affixal).1)
    ensures s.directnessCount == 1 + AgreeCount(LabelLists(annotations1, annotations2, BothAffixal, Directness).0,
                                                LabelLists(annotations1, annotations2, BothAffixal, Directness).1)
    ensures s.subtypeCount ==
              1 + s.nSubtypesIndirect - AgreeCount(LabelLists(annotations1, annotations2, BothAffixalIndirect, Subtype).0,
                                                   LabelLists(annotations1, annotations2, BothAffixalIndirect, Subtype).1)
    ensures s.nDirectness <= s.nAffixal
    ensures s.nSubtypesAll == s.nDirectness
    ensures s.nSubtypesIndirect <= s.nSubtypesAll
    ensures 1 <= s.affixalCount <= s.nAffixal + 1
    ensures 1 <= s.directnessCount <= s.nDirectness + 1
    ensures 1 <= s.subtypeCount <= s.nSubtypesIndirect + 1
  {
    annotations1 := GetAnnotations(rows1);
    annotations2 := GetAnnotations(rows2);

    var nAffixal, kappaAffixal := CalculateAgreementAffixals(annotations1, annotations2, cohenKappa);
    var nDirectness, kappaDirectness := CalculateAgreementDirectness(annotations1, annotations2, cohenKappa);
    var nSubtypesIndirect, kappaSubtypesIndirect, confusionSubtypesIndirect :=
      CalculateAgreementSubtypesIndirect(annotations1, annotations2, cohenKappa, crosstab);
    var nSubtypesAll, kappaSubtypesAll, confusionSubtypesAll :=
      CalculateAgreementSubtypesAll(annotations1, annotations2, cohenKappa, crosstab);

    var affixalLines, affixalCount := ShowDisagreements(annotations1, annotations2, Affixal);
    var directnessLines, directnessCount := ShowDisagreementsDirectness(annotations1, annotations2);
    var subtypeLines, subtypeCount := ShowDisagreementsSubtype(annotations1, annotations2);

    Cascade();
    SelectedNarrower(annotations1, annotations2, BothAffixal, Shared);
    SelectedNarrower(annotations1, annotations2, BothAffixalIndirect, BothAffixal);
    SelectedNarrower(annotations1, annotations2, Disagreeing(Shared, Affixal), Shared);
    SelectedNarrower(annotations1, annotations2, Agreeing(BothAffixal, Directness), BothAffixal);
    SelectedNarrower(annotations1, annotations2, Disagreeing(BothAffixalIndirect, Subtype), BothAffixalIndirect);

    s := Summary(nAffixal, kappaAffixal, nDirectness, kappaDirectness,
                 nSubtypesIndirect, kappaSubtypesIndirect, confusionSubtypesIndirect,
                 nSubtypesAll, kappaSubtypesAll, confusionSubtypesAll,
                 affixalCount, directnessCount, subtypeCount);
  }
}
