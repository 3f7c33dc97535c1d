/**
 The four agreement calculations. Each walks annotator 1's pairs, keeps the
 ones annotator 2 shares and its filter admits, and collects one column of
 both rows into two parallel label lists. Cohen's kappa and the confusion
 matrix are computed by statistics routines outside this model; they are
 passed in as `cohenKappa` and `crosstab` and see only the two lists.
 */
module Agreement {
  import opened Dicts
  import opened Annotations
  import opened Selection

  /** `calculate_agreement_affixals`: every shared pair, column "affixal". */
  method CalculateAgreementAffixals<K>(a: AnnotationSet, b: AnnotationSet,
                                       cohenKappa: (seq<string>, seq<string>) -> K)
    returns (n: nat, kappa: K)
    requires Valid(a)
    ensures n == |Selected(a, b, Shared)| == |a.entries.Keys * b.entries.Keys|
    ensures kappa == cohenKappa(LabelLists(a, b, Shared, Affixal).0, LabelLists(a, b, Shared, Affixal).1)
  {
    var affixals1: seq<string>, affixals2: seq<string> := [], [];
    ghost var pairs: seq<Key> := [];
    for i := 0 to |a.keys|
      invariant Collected(a.keys, i, a.entries, b.entries, Shared, Affixal, pairs, affixals1, affixals2)
    {
      var pair := a.keys[i];
      CollectedStep(a.keys, i, a.entries, b.entries, Shared, Affixal, pairs, affixals1, affixals2);
      if pair in b.entries {
        affixals1 := affixals1 + [a.entries[pair].affixal];
        affixals2 := affixals2 + [b.entries[pair].affixal];
        pairs := pairs + [pair];
      }
    }
    CollectedAll(a, b, Shared, Affixal, pairs, affixals1, affixals2);
    n := |affixals1|;
    kappa := cohenKappa(affixals1, affixals2);
    SharedCount(a, b);
  }

  /** `calculate_agreement_directness`: pairs both call "affixal", column "directness". */
  method CalculateAgreementDirectness<K>(a: AnnotationSet, b: AnnotationSet,
                                         cohenKappa: (seq<string>, seq<string>) -> K)
    returns (n: nat, kappa: K)
    requires Valid(a)
    ensures n == |Selected(a, b, BothAffixal)|
    ensures kappa == cohenKappa(LabelLists(a, b, BothAffixal, Directness).0, LabelLists(a, b, BothAffixal, Directness).1)
  {
    var directness1: seq<string>, directness2: seq<string> := [], [];
    ghost var pairs: seq<Key> := [];
    for i := 0 to |a.keys|
      invariant Collected(a.keys, i, a.entries, b.entries, BothAffixal, Directness, pairs, directness1, directness2)
    {
      var pair := a.keys[i];
      CollectedStep(a.keys, i, a.entries, b.entries, BothAffixal, Directness, pairs, directness1, directness2);
      if pair in b.entries {
        if a.entries[pair].affixal == "affixal" && b.entries[pair].affixal == "affixal" {
          directness1 := directness1 + [a.entries[pair].directness];
          directness2 := directness2 + [b.entries[pair].directness];
          pairs := pairs + [pair];
        }
      }
    }
    CollectedAll(a, b, BothAffixal, Directness, pairs, directness1, directness2);
    n := |directness1|;
    kappa := cohenKappa(directness1, directness2);
  }

  /** `calculate_agreement_subtypes_all`: pairs both call "affixal", column "subtype". */
  method CalculateAgreementSubtypesAll<K, M>(a: AnnotationSet, b: AnnotationSet,
                                             cohenKappa: (seq<string>, seq<string>) -> K,
                                             crosstab: (seq<string>, seq<string>) -> M)
    returns (n: nat, kappa: K, confusionMatrix: M)
    requires Valid(a)
    ensures n == |Selected(a, b, BothAffixal)|
    ensures kappa == cohenKappa(LabelLists(a, b, BothAffixal, Subtype).0, LabelLists(a, b, BothAffixal, Subtype).1)
    ensures confusionMatrix == crosstab(LabelLists(a, b, BothAffixal, Subtype).0, LabelLists(a, b, BothAffixal, Subtype).1)
  {
    var subtypes1: seq<string>, subtypes2: seq<string> := [], [];
    ghost var pairs: seq<Key> := [];
    for i := 0 to |a.keys|
      invariant Collected(a.keys, i, a.entries, b.entries, BothAffixal, Subtype, pairs, subtypes1, subtypes2)
    {
      var pair := a.keys[i];
      CollectedStep(a.keys, i, a.entries, b.entries, BothAffixal, Subtype, pairs, subtypes1, subtypes2);
      if pair in b.entries {
        if a.entries[pair].affixal == "affixal" && b.entries[pair].affixal == "affixal" {
          subtypes1 := subtypes1 + [a.entries[pair].subtype];
          subtypes2 := subtypes2 + [b.entries[pair].subtype];
          pairs := pairs + [pair];
        }
      }
    }
    CollectedAll(a, b, BothAffixal, Subtype, pairs, subtypes1, subtypes2);
    n := |subtypes1|;
    kappa := cohenKappa(subtypes1, subtypes2);
    confusionMatrix := crosstab(subtypes1, subtypes2);
  }

  /**
   `calculate_agreement_subtypes_indirect`: pairs both call "affixal" and
   both call "indirect", column "subtype".
   */
  method CalculateAgreementSubtypesIndirect<K, M>(a: AnnotationSet, b: AnnotationSet,
                                                  cohenKappa: (seq<string>, seq<string>) -> K,
                                                  crosstab: (seq<string>, seq<string>) -> M)
    returns (n: nat, kappa: K, confusionMatrix: M)
    requires Valid(a)
    ensures n == |Selected(a, b, BothAffixalIndirect)|
    ensures kappa == cohenKappa(LabelLists(a, b, BothAffixalIndirect, Subtype).0,
                                LabelLists(a, b, BothAffixalIndirect, Subtype).1)
    ensures confusionMatrix == crosstab(LabelLists(a, b, BothAffixalIndirect, Subtype).0,
                                        LabelLists(a, b, BothAffixalIndirect, Subtype).1)
  {
    var subtypes1: seq<string>, subtypes2: seq<string> := [], [];
    ghost var pairs: seq<Key> := [];
    for i := 0 to |a.keys|
      invariant Collected(a.keys, i, a.entries, b.entries, BothAffixalIndirect, Subtype, pairs, subtypes1, subtypes2)
    {
      var pair := a.keys[i];
      CollectedStep(a.keys, i, a.entries, b.entries, BothAffixalIndirect, Subtype, pairs, subtypes1, subtypes2);
      if pair in b.entries {
        if && a.entries[pair].affixal == "affixal"
           && b.entries[pair].affixal == "affixal"
           && a.entries[pair].directness == "indirect"
           && b.entries[pair].directness == "indirect"
        {
          subtypes1 := subtypes1 + [a.entries[pair].subtype];
          subtypes2 := subtypes2 + [b.entries[pair].subtype];
          pairs := pairs + [pair];
        }
      }
    }
    CollectedAll(a, b, BothAffixalIndirect, Subtype, pairs, subtypes1, subtypes2);
    n := |subtypes1|;
    kappa := cohenKappa(subtypes1, subtypes2);
    confusionMatrix := crosstab(subtypes1, subtypes2);
  }
}
