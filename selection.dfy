/**
 The common walk of every agreement calculation and every disagreement
 report: visit annotator 1's pairs in order, keep those annotator 2 also
 annotated, and of those the ones whose two rows meet a criterion.
 */
module Selection {
  import opened Dicts
  import opened Annotations

  /** A column of an annotation row, `row[element]`. */
  datatype Field = PosElement | NegElement | Affixal | Directness | Subtype

  function FieldOf(row: Row, f: Field): string
  {
    match f
    case PosElement => row.posElement
    case NegElement => row.negElement
    case Affixal => row.affixal
    case Directness => row.directness
    case Subtype => row.subtype
  }

  /** The conditions the scripts put on the two rows of a shared pair. */
  datatype Criterion =
    | Shared                                  // no condition beyond being annotated by both
    | BothAffixal                             // both say "affixal"
    | BothAffixalIndirect                     // both say "affixal" and both say "indirect"
    | Agreeing(base: Criterion, field: Field)     // `base`, and the field is equal
    | Disagreeing(base: Criterion, field: Field)  // `base`, and the field differs

  predicate Holds(c: Criterion, r1: Row, r2: Row)
  {
    match c
    case Shared => true
    case BothAffixal => r1.affixal == "affixal" && r2.affixal == "affixal"
    case BothAffixalIndirect =>
      && r1.affixal == "affixal" && r2.affixal == "affixal"
      && r1.directness == "indirect" && r2.directness == "indirect"
    case Agreeing(base, f) => Holds(base, r1, r2) && FieldOf(r1, f) == FieldOf(r2, f)
    case Disagreeing(base, f) => Holds(base, r1, r2) && FieldOf(r1, f) != FieldOf(r2, f)
  }

  /** The conditions of the three reports, in the terms the reports test them. */
  lemma ReportFilters(r1: Row, r2: Row, f: Field)
    ensures Holds(Disagreeing(Shared, f), r1, r2) <==> FieldOf(r1, f) != FieldOf(r2, f)
    ensures Holds(Agreeing(BothAffixal, Directness), r1, r2) <==>
              r1.affixal == "affixal" && r2.affixal == "affixal" && r1.directness == r2.directness
    ensures Holds(Disagreeing(BothAffixalIndirect, Subtype), r1, r2) <==>
              && r1.affixal == "affixal" && r2.affixal == "affixal"
              && r1.directness == "indirect" && r2.directness == "indirect"
              && r1.subtype != r2.subtype
  {
  }

  /** Every pair of rows that meets `c` also meets `d`. */
  ghost predicate Implies(c: Criterion, d: Criterion)
  {
    forall r1, r2 :: Holds(c, r1, r2) ==> Holds(d, r1, r2)
  }

  /**
   The keys of `ks`, in order, that `b` also holds and whose rows in `a`
   and `b` meet `c`.
   */
  function SelectFrom(ks: seq<Key>, a: map<Key, Row>, b: map<Key, Row>, c: Criterion): (r: seq<Key>)
    requires forall k :: k in ks ==> k in a
    ensures forall k :: k in r ==> k in a && k in b
  {
    if ks == [] then []
    else
      var k := ks[|ks| - 1];
      var prefix := SelectFrom(ks[..|ks| - 1], a, b, c);
      if k in b && Holds(c, a[k], b[k]) then prefix + [k] else prefix
  }

  /** The pairs of annotator 1, in its order, that annotator 2 shares and that meet `c`. */
  function Selected(a: AnnotationSet, b: AnnotationSet, c: Criterion): (r: seq<Key>)
    requires Valid(a)
    ensures forall k :: k in r ==> k in a.entries && k in b.entries
  {
    SelectFrom(a.keys, a.entries, b.entries, c)
  }

  /**
   A key is selected exactly when it is one of `ks`, `b` holds it and its
   two rows meet `c`; no key is selected twice when none occurs twice in `ks`.
   */
  lemma {:induction false} SelectFromMembers(ks: seq<Key>, a: map<Key, Row>, b: map<Key, Row>, c: Criterion)
    requires forall k :: k in ks ==> k in a
    ensures forall k :: k in SelectFrom(ks, a, b, c) ==> k in ks && k in b && Holds(c, a[k], b[k])
    ensures forall k :: k in ks && k in b && Holds(c, a[k], b[k]) ==> k in SelectFrom(ks, a, b, c)
    ensures (forall i, j :: 0 <= i < j < |ks| ==> ks[i] != ks[j]) ==>
              forall i, j :: 0 <= i < j < |SelectFrom(ks, a, b, c)| ==> SelectFrom(ks, a, b, c)[i] != SelectFrom(ks, a, b, c)[j]
  {
    if ks != [] {
      var p := ks[..|ks| - 1];
      SelectFromMembers(p, a, b, c);
      assert forall k :: k in ks <==> k in p || k == ks[|ks| - 1] by {
        assert ks == p + [ks[|ks| - 1]];
      }
    }
  }

  lemma SelectedMembers(a: AnnotationSet, b: AnnotationSet, c: Criterion)
    requires Valid(a)
    ensures forall k :: k in Selected(a, b, c) ==>
              k in a.entries && k in b.entries && Holds(c, a.entries[k], b.entries[k])
    ensures forall k :: k in a.entries && k in b.entries && Holds(c, a.entries[k], b.entries[k]) ==>
              k in Selected(a, b, c)
    ensures forall i, j :: 0 <= i < j < |Selected(a, b, c)| ==> Selected(a, b, c)[i] != Selected(a, b, c)[j]
  {
    SelectFromMembers(a.keys, a.entries, b.entries, c);
  }

  /** The value of field `f` of the row of each pair of `ks`, in order. */
  function Labels(ks: seq<Key>, m: map<Key, Row>, f: Field): (r: seq<string>)
    requires forall k :: k in ks ==> k in m
    ensures |r| == |ks| && forall i :: 0 <= i < |ks| ==> r[i] == FieldOf(m[ks[i]], f)
  {
    seq(|ks|, i requires 0 <= i < |ks| => FieldOf(m[ks[i]], f))
  }

  /**
   The two parallel label lists an agreement calculation hands to the
   statistics: position `i` of both lists comes from the same pair.
   */
  function LabelLists(a: AnnotationSet, b: AnnotationSet, c: Criterion, f: Field): (r: (seq<string>, seq<string>))
    requires Valid(a)
    ensures |r.0| == |r.1| == |Selected(a, b, c)|
    ensures forall i :: 0 <= i < |r.0| ==>
              && Selected(a, b, c)[i] in a.entries && Selected(a, b, c)[i] in b.entries
              && r.0[i] == FieldOf(a.entries[Selected(a, b, c)[i]], f)
              && r.1[i] == FieldOf(b.entries[Selected(a, b, c)[i]], f)
  {
    SelectedMembers(a, b, c);
    var pairs := Selected(a, b, c);
    (Labels(pairs, a.entries, f), Labels(pairs, b.entries, f))
  }

  /** The number of positions at which two equally long label lists agree. */
  function AgreeCount(l1: seq<string>, l2: seq<string>): (r: nat)
    requires |l1| == |l2|
    ensures r <= |l1|
  {
    if l1 == [] then 0
    else AgreeCount(l1[..|l1| - 1], l2[..|l2| - 1]) + if l1[|l1| - 1] == l2[|l2| - 1] then 1 else 0
  }

  /** One more key of `ks` extends the selection by that key exactly when it is selected. */
  lemma SelectFromPrefix(ks: seq<Key>, i: nat, a: map<Key, Row>, b: map<Key, Row>, c: Criterion)
    requires i < |ks| && forall k :: k in ks ==> k in a
    ensures SelectFrom(ks[..i + 1], a, b, c) ==
              if ks[i] in b && Holds(c, a[ks[i]], b[ks[i]]) then SelectFrom(ks[..i], a, b, c) + [ks[i]]
              else SelectFrom(ks[..i], a, b, c)
  {
    assert ks[..i + 1][..i] == ks[..i];
  }

  /**
   After visiting the first `i` keys of `ks`, `pairs` are the selected ones
   and `l1`, `l2` their values of field `f` in `a` and in `b`.
   */
  ghost predicate Collected(ks: seq<Key>, i: nat, a: map<Key, Row>, b: map<Key, Row>, c: Criterion, f: Field,
                            pairs: seq<Key>, l1: seq<string>, l2: seq<string>)
    requires i <= |ks| && forall k :: k in ks ==> k in a
  {
    && pairs == SelectFrom(ks[..i], a, b, c)
    && l1 == Labels(pairs, a, f)
    && l2 == Labels(pairs, b, f)
  }

  /** Visiting one more key appends it and its two values exactly when it is selected. */
  lemma CollectedStep(ks: seq<Key>, i: nat, a: map<Key, Row>, b: map<Key, Row>, c: Criterion, f: Field,
                      pairs: seq<Key>, l1: seq<string>, l2: seq<string>)
    requires i < |ks| && forall k :: k in ks ==> k in a
    requires Collected(ks, i, a, b, c, f, pairs, l1, l2)
    ensures ks[i] in b && Holds(c, a[ks[i]], b[ks[i]]) ==>
              Collected(ks, i + 1, a, b, c, f, pairs + [ks[i]],
                        l1 + [FieldOf(a[ks[i]], f)], l2 + [FieldOf(b[ks[i]], f)])
    ensures !(ks[i] in b && Holds(c, a[ks[i]], b[ks[i]])) ==>
              Collected(ks, i + 1, a, b, c, f, pairs, l1, l2)
  {
    SelectFromPrefix(ks, i, a, b, c);
    if ks[i] in b && Holds(c, a[ks[i]], b[ks[i]]) {
      LabelsSnoc(pairs, ks[i], a, f);
      LabelsSnoc(pairs, ks[i], b, f);
    }
  }

  /** Once every key is visited, the lists are the label lists of the criterion. */
  lemma CollectedAll(a: AnnotationSet, b: AnnotationSet, c: Criterion, f: Field,
                     pairs: seq<Key>, l1: seq<string>, l2: seq<string>)
    requires Valid(a)
    requires Collected(a.keys, |a.keys|, a.entries, b.entries, c, f, pairs, l1, l2)
    ensures pairs == Selected(a, b, c)
    ensures (l1, l2) == LabelLists(a, b, c, f)
  {
    assert a.keys[..|a.keys|] == a.keys;
  }

  lemma LabelsSnoc(ks: seq<Key>, k: Key, m: map<Key, Row>, f: Field)
    requires forall k' :: k' in ks + [k] ==> k' in m
    ensures Labels(ks + [k], m, f) == Labels(ks, m, f) + [FieldOf(m[k], f)]
  {
  }

  lemma AgreeCountSnoc(l1: seq<string>, l2: seq<string>, x: string, y: string)
    requires |l1| == |l2|
    ensures AgreeCount(l1 + [x], l2 + [y]) == AgreeCount(l1, l2) + if x == y then 1 else 0
  {
  }

  /**
   The pairs both annotators annotated are exactly the common keys: the
   number compared for affixal agreement is the size of the intersection
   of the two key sets, whatever the iteration order of annotator 1's set.
   */
  lemma SharedCount(a: AnnotationSet, b: AnnotationSet)
    requires Valid(a)
    ensures |Selected(a, b, Shared)| == |a.entries.Keys * b.entries.Keys|
  {
    var r := Selected(a, b, Shared);
    SelectedMembers(a, b, Shared);
    DistinctCardinality(r);
    assert (set k | k in r) == a.entries.Keys * b.entries.Keys;
  }

  /** A stronger criterion selects no more pairs than a weaker one. */
  lemma {:induction false} SelectFromNarrower(ks: seq<Key>, a: map<Key, Row>, b: map<Key, Row>, c: Criterion, d: Criterion)
    requires forall k :: k in ks ==> k in a
    requires Implies(c, d)
    ensures |SelectFrom(ks, a, b, c)| <= |SelectFrom(ks, a, b, d)|
  {
    if ks != [] {
      SelectFromNarrower(ks[..|ks| - 1], a, b, c, d);
    }
  }

  lemma SelectedNarrower(a: AnnotationSet, b: AnnotationSet, c: Criterion, d: Criterion)
    requires Valid(a)
    requires Implies(c, d)
    ensures |Selected(a, b, c)| <= |Selected(a, b, d)|
  {
    SelectFromNarrower(a.keys, a.entries, b.entries, c, d);
  }

  /** The cascade of filters: indirect implies affixal implies shared. */
  lemma Cascade()
    ensures Implies(BothAffixal, Shared)
    ensures Implies(BothAffixalIndirect, BothAffixal)
    ensures forall c, f :: Implies(Agreeing(c, f), c) && Implies(Disagreeing(c, f), c)
  {
  }

  /** Whether the last key of `ks` is selected by `c` and agrees on `f`. */
  predicate LastAgrees(ks: seq<Key>, a: map<Key, Row>, b: map<Key, Row>, c: Criterion, f: Field)
    requires ks != [] && ks[|ks| - 1] in a
  {
    var x := ks[|ks| - 1];
    x in b && Holds(c, a[x], b[x]) && FieldOf(a[x], f) == FieldOf(b[x], f)
  }

  lemma AgreeingStep(ks: seq<Key>, a: map<Key, Row>, b: map<Key, Row>, c: Criterion, f: Field)
    requires ks != [] && forall k :: k in ks ==> k in a
    ensures |SelectFrom(ks, a, b, Agreeing(c, f))| ==
              |SelectFrom(ks[..|ks| - 1], a, b, Agreeing(c, f))| + if LastAgrees(ks, a, b, c, f) then 1 else 0
  {
  }

  lemma AgreeCountStep(ks: seq<Key>, a: map<Key, Row>, b: map<Key, Row>, c: Criterion, f: Field)
    requires ks != [] && forall k :: k in ks ==> k in a
    ensures AgreeCount(Labels(SelectFrom(ks, a, b, c), a, f), Labels(SelectFrom(ks, a, b, c), b, f)) ==
              AgreeCount(Labels(SelectFrom(ks[..|ks| - 1], a, b, c), a, f), Labels(SelectFrom(ks[..|ks| - 1], a, b, c), b, f))
              + if LastAgrees(ks, a, b, c, f) then 1 else 0
  {
    var x := ks[|ks| - 1];
    var base := SelectFrom(ks[..|ks| - 1], a, b, c);
    if x in b && Holds(c, a[x], b[x]) {
      assert SelectFrom(ks, a, b, c) == base + [x];
      LabelsSnoc(base, x, a, f);
      LabelsSnoc(base, x, b, f);
      AgreeCountSnoc(Labels(base, a, f), Labels(base, b, f), FieldOf(a[x], f), FieldOf(b[x], f));
    }
  }

  /**
   Refining a criterion by agreement on a field keeps exactly as many pairs
   as there are agreeing positions in the label lists of the criterion.
   */
  lemma {:induction false} SelectFromAgreeing(ks: seq<Key>, a: map<Key, Row>, b: map<Key, Row>, c: Criterion, f: Field)
    requires forall k :: k in ks ==> k in a
    ensures |SelectFrom(ks, a, b, Agreeing(c, f))| ==
              AgreeCount(Labels(SelectFrom(ks, a, b, c), a, f), Labels(SelectFrom(ks, a, b, c), b, f))
  {
    if ks != [] {
      SelectFromAgreeing(ks[..|ks| - 1], a, b, c, f);
      AgreeingStep(ks, a, b, c, f);
      AgreeCountStep(ks, a, b, c, f);
    }
  }

  /** The pairs meeting `c` are those that agree on a field plus those that disagree on it. */
  lemma {:induction false} SelectFromPartition(ks: seq<Key>, a: map<Key, Row>, b: map<Key, Row>, c: Criterion, f: Field)
    requires forall k :: k in ks ==> k in a
    ensures |SelectFrom(ks, a, b, Agreeing(c, f))| + |SelectFrom(ks, a, b, Disagreeing(c, f))|
              == |SelectFrom(ks, a, b, c)|
  {
    if ks != [] {
      SelectFromPartition(ks[..|ks| - 1], a, b, c, f);
    }
  }

  lemma SelectedSplit(a: AnnotationSet, b: AnnotationSet, c: Criterion, f: Field)
    requires Valid(a)
    ensures |Selected(a, b, Agreeing(c, f))| == AgreeCount(LabelLists(a, b, c, f).0, LabelLists(a, b, c, f).1)
    ensures |Selected(a, b, Agreeing(c, f))| + |Selected(a, b, Disagreeing(c, f))| == |Selected(a, b, c)|
  {
    SelectFromAgreeing(a.keys, a.entries, b.entries, c, f);
    SelectFromPartition(a.keys, a.entries, b.entries, c, f);
  }
}
