/**
 The three disagreement reports. Each walks annotator 1's pairs, keeps the
 shared ones its condition admits, prints one line per kept pair and finally
 prints a counter that starts at 1 and grows by one per printed line. The
 printed text itself is not modelled: a report is its sequence of lines,
 each a pair and the values printed after it, and the final counter.
 */
module Disagreements {
  import opened Dicts
  import opened Annotations
  import opened Selection

  /** One printed line: the pair, then the values shown for it. */
  datatype Line = Line(pair: Key, values: seq<string>)

  /** For each field in turn, annotator 1's value and then annotator 2's. */
  function Values(r1: Row, r2: Row, fields: seq<Field>): (r: seq<string>)
    ensures |r| == 2 * |fields|
    ensures forall i :: 0 <= i < |fields| ==> r[2 * i] == FieldOf(r1, fields[i]) && r[2 * i + 1] == FieldOf(r2, fields[i])
  {
    if fields == [] then []
    else [FieldOf(r1, fields[0]), FieldOf(r2, fields[0])] + Values(r1, r2, fields[1..])
  }

  lemma ValuesOfOneAndTwo(r1: Row, r2: Row, f: Field, g: Field)
    ensures Values(r1, r2, [f]) == [FieldOf(r1, f), FieldOf(r2, f)]
    ensures Values(r1, r2, [f, g]) == [FieldOf(r1, f), FieldOf(r2, f), FieldOf(r1, g), FieldOf(r2, g)]
  {
  }

  /** The line printed for each of `pairs`, in order. */
  function ReportLines(pairs: seq<Key>, a: map<Key, Row>, b: map<Key, Row>, fields: seq<Field>): (r: seq<Line>)
    requires forall k :: k in pairs ==> k in a && k in b
    ensures |r| == |pairs|
    ensures forall i :: 0 <= i < |pairs| ==>
              r[i].pair == pairs[i] && r[i].values == Values(a[pairs[i]], b[pairs[i]], fields)
  {
    seq(|pairs|, i requires 0 <= i < |pairs| => Line(pairs[i], Values(a[pairs[i]], b[pairs[i]], fields)))
  }

  /**
   After visiting the first `i` keys of `ks`, `lines` hold one line per
   selected key and the counter is one more than their number.
   */
  ghost predicate Reported(ks: seq<Key>, i: nat, a: map<Key, Row>, b: map<Key, Row>, c: Criterion,
                           fields: seq<Field>, lines: seq<Line>, count: int)
    requires i <= |ks| && forall k :: k in ks ==> k in a
  {
    && lines == ReportLines(SelectFrom(ks[..i], a, b, c), a, b, fields)
    && count == |lines| + 1
  }

  lemma ReportedStep(ks: seq<Key>, i: nat, a: map<Key, Row>, b: map<Key, Row>, c: Criterion,
                     fields: seq<Field>, lines: seq<Line>, count: int)
    requires i < |ks| && forall k :: k in ks ==> k in a
    requires Reported(ks, i, a, b, c, fields, lines, count)
    ensures ks[i] in b && Holds(c, a[ks[i]], b[ks[i]]) ==>
              Reported(ks, i + 1, a, b, c, fields,
                       lines + [Line(ks[i], Values(a[ks[i]], b[ks[i]], fields))], count + 1)
    ensures !(ks[i] in b && Holds(c, a[ks[i]], b[ks[i]])) ==>
              Reported(ks, i + 1, a, b, c, fields, lines, count)
  {
    SelectFromPrefix(ks, i, a, b, c);
    var before := SelectFrom(ks[..i], a, b, c);
    if ks[i] in b && Holds(c, a[ks[i]], b[ks[i]]) {
      assert ReportLines(before + [ks[i]], a, b, fields)
          == ReportLines(before, a, b, fields) + [Line(ks[i], Values(a[ks[i]], b[ks[i]], fields))];
    }
  }

  lemma ReportedAll(a: AnnotationSet, b: AnnotationSet, c: Criterion, fields: seq<Field>,
                    lines: seq<Line>, count: int)
    requires Valid(a)
    requires Reported(a.keys, |a.keys|, a.entries, b.entries, c, fields, lines, count)
    ensures lines == ReportLines(Selected(a, b, c), a.entries, b.entries, fields)
    ensures count == |Selected(a, b, c)| + 1
  {
    assert a.keys[..|a.keys|] == a.keys;
  }

  /**
   `show_disagreements`: the shared pairs whose `element` differs. The
   counter ends one above the number of positions at which the two label
   lists of that column disagree.
   */
  method ShowDisagreements(a: AnnotationSet, b: AnnotationSet, element: Field)
    returns (lines: seq<Line>, count: int)
    requires Valid(a)
    ensures lines == ReportLines(Selected(a, b, Disagreeing(Shared, element)), a.entries, b.entries, [element])
    ensures count == |lines| + 1
    ensures count == 1 + |Selected(a, b, Shared)|
                       - AgreeCount(LabelLists(a, b, Shared, element).0, LabelLists(a, b, Shared, element).1)
  {
    var n := 1;
    lines := [];
    for i := 0 to |a.keys|
      invariant Reported(a.keys, i, a.entries, b.entries, Disagreeing(Shared, element), [element], lines, n)
    {
      var pair := a.keys[i];
      ReportedStep(a.keys, i, a.entries, b.entries, Disagreeing(Shared, element), [element], lines, n);
      if pair in b.entries {
        ghost var r1, r2 := a.entries[pair], b.entries[pair];
        ValuesOfOneAndTwo(r1, r2, element, element);
        ReportFilters(r1, r2, element);
        if FieldOf(a.entries[pair], element) != FieldOf(b.entries[pair], element) {
          lines := lines + [Line(pair, [FieldOf(a.entries[pair], element), FieldOf(b.entries[pair], element)])];
          n := n + 1;
        }
      }
    }
    ReportedAll(a, b, Disagreeing(Shared, element), [element], lines, n);
    SelectedSplit(a, b, Shared, element);
    count := n;
  }

  lemma DirectnessReportCount(a: AnnotationSet, b: AnnotationSet, lines: seq<Line>, count: int)
    requires Valid(a)
    requires Reported(a.keys, |a.keys|, a.entries, b.entries, Agreeing(BothAffixal, Directness),
                      [Directness, Subtype], lines, count)
    ensures lines == ReportLines(Selected(a, b, Agreeing(BothAffixal, Directness)), a.entries, b.entries,
                                 [Directness, Subtype])
    ensures count == |lines| + 1
    ensures count == 1 + AgreeCount(LabelLists(a, b, BothAffixal, Directness).0,
                                    LabelLists(a, b, BothAffixal, Directness).1)
  {
    ReportedAll(a, b, Agreeing(BothAffixal, Directness), [Directness, Subtype], lines, count);
    SelectedSplit(a, b, BothAffixal, Directness);
  }

  /** One visit of the directness report, in the terms of its two nested tests. */
  lemma DirectnessStep(a: AnnotationSet, b: AnnotationSet, i: nat, lines: seq<Line>, n: int)
    requires Valid(a) && i < |a.keys|
    requires Reported(a.keys, i, a.entries, b.entries, Agreeing(BothAffixal, Directness),
                      [Directness, Subtype], lines, n)
    ensures var k := a.keys[i];
            k in b.entries && a.entries[k].affixal == "affixal" && b.entries[k].affixal == "affixal"
            && a.entries[k].directness == b.entries[k].directness ==>
              Reported(a.keys, i + 1, a.entries, b.entries, Agreeing(BothAffixal, Directness), [Directness, Subtype],
                       lines + [Line(k, [a.entries[k].directness, b.entries[k].directness,
                                         a.entries[k].subtype, b.entries[k].subtype])], n + 1)
    ensures var k := a.keys[i];
            !(k in b.entries && a.entries[k].affixal == "affixal" && b.entries[k].affixal == "affixal"
              && a.entries[k].directness == b.entries[k].directness) ==>
              Reported(a.keys, i + 1, a.entries, b.entries, Agreeing(BothAffixal, Directness), [Directness, Subtype],
                       lines, n)
  {
    var k := a.keys[i];
    ReportedStep(a.keys, i, a.entries, b.entries, Agreeing(BothAffixal, Directness), [Directness, Subtype], lines, n);
    if k in b.entries {
      ValuesOfOneAndTwo(a.entries[k], b.entries[k], Directness, Subtype);
      ReportFilters(a.entries[k], b.entries[k], Directness);
    }
  }

  /**
   `show_disagreements_directness`, as written: among the pairs both call
   "affixal", those whose directness is EQUAL, each printed with both
   directness and both subtype values. The counter thus ends one above the
   number of positions at which the directness label lists agree.
   */
  method ShowDisagreementsDirectness(a: AnnotationSet, b: AnnotationSet)
    returns (lines: seq<Line>, count: int)
    requires Valid(a)
    ensures lines == ReportLines(Selected(a, b, Agreeing(BothAffixal, Directness)), a.entries, b.entries,
                                 [Directness, Subtype])
    ensures count == |lines| + 1
    ensures count == 1 + AgreeCount(LabelLists(a, b, BothAffixal, Directness).0,
                                    LabelLists(a, b, BothAffixal, Directness).1)
  {
    var n := 1;
    lines := [];
    for i := 0 to |a.keys|
      invariant Reported(a.keys, i, a.entries, b.entries, Agreeing(BothAffixal, Directness),
                         [Directness, Subtype], lines, n)
    {
      var pair := a.keys[i];
      DirectnessStep(a, b, i, lines, n);
      if pair in b.entries {
        if a.entries[pair].affixal == "affixal" && b.entries[pair].affixal == "affixal" {
          if a.entries[pair].directness == b.entries[pair].directness {
            lines := lines + [Line(pair, [a.entries[pair].directness, b.entries[pair].directness,
                                          a.entries[pair].subtype, b.entries[pair].subtype])];
            n := n + 1;
          }
        }
      }
    }
    DirectnessReportCount(a, b, lines, n);
    count := n;
  }

  /** One visit of the subtype report, in the terms of its two nested tests. */
  lemma SubtypeStep(a: AnnotationSet, b: AnnotationSet, i: nat, lines: seq<Line>, n: int)
    requires Valid(a) && i < |a.keys|
    requires Reported(a.keys, i, a.entries, b.entries, Disagreeing(BothAffixalIndirect, Subtype), [Subtype], lines, n)
    ensures var k := a.keys[i];
            k in b.entries && a.entries[k].affixal == "affixal" && b.entries[k].affixal == "affixal"
            && a.entries[k].directness == "indirect" && b.entries[k].directness == "indirect"
            && a.entries[k].subtype != b.entries[k].subtype ==>
              Reported(a.keys, i + 1, a.entries, b.entries, Disagreeing(BothAffixalIndirect, Subtype), [Subtype],
                       lines + [Line(k, [a.entries[k].subtype, b.entries[k].subtype])], n + 1)
    ensures var k := a.keys[i];
            !(k in b.entries && a.entries[k].affixal == "affixal" && b.entries[k].affixal == "affixal"
              && a.entries[k].directness == "indirect" && b.entries[k].directness == "indirect"
              && a.entries[k].subtype != b.entries[k].subtype) ==>
              Reported(a.keys, i + 1, a.entries, b.entries, Disagreeing(BothAffixalIndirect, Subtype), [Subtype],
                       lines, n)
  {
    var k := a.keys[i];
    ReportedStep(a.keys, i, a.entries, b.entries, Disagreeing(BothAffixalIndirect, Subtype), [Subtype], lines, n);
    if k in b.entries {
      ValuesOfOneAndTwo(a.entries[k], b.entries[k], Subtype, Subtype);
      ReportFilters(a.entries[k], b.entries[k], Subtype);
    }
  }

  /**
   `show_disagreements_subtype`: among the pairs both call "affixal" and
   "indirect", those whose subtype differs. The counter ends one above the
   number of positions at which the indirect subtype label lists disagree.
   */
  method ShowDisagreementsSubtype(a: AnnotationSet, b: AnnotationSet)
    returns (lines: seq<Line>, count: int)
    requires Valid(a)
    ensures lines == ReportLines(Selected(a, b, Disagreeing(BothAffixalIndirect, Subtype)), a.entries, b.entries,
                                 [Subtype])
    ensures count == |lines| + 1
    ensures count == 1 + |Selected(a, b, BothAffixalIndirect)|
                       - AgreeCount(LabelLists(a, b, BothAffixalIndirect, Subtype).0,
                                    LabelLists(a, b, BothAffixalIndirect, Subtype).1)
  {
    var n := 1;
    lines := [];
    for i := 0 to |a.keys|
      invariant Reported(a.keys, i, a.entries, b.entries, Disagreeing(BothAffixalIndirect, Subtype),
                         [Subtype], lines, n)
    {
      var pair := a.keys[i];
      SubtypeStep(a, b, i, lines, n);
      if pair in b.entries {
        if && a.entries[pair].affixal == "affixal"
           && b.entries[pair].affixal == "affixal"
           && a.entries[pair].directness == "indirect"
           && b.entries[pair].directness == "indirect"
        {
          if a.entries[pair].subtype != b.entries[pair].subtype {
            lines := lines + [Line(pair, [a.entries[pair].subtype, b.entries[pair].subtype])];
            n := n + 1;
          }
        }
      }
    }
    ReportedAll(a, b, Disagreeing(BothAffixalIndirect, Subtype), [Subtype], lines, n);
    SelectedSplit(a, b, BothAffixalIndirect, Subtype);
    count := n;
  }
}
