/**
 One annotator's file, already parsed into rows: an annotation set maps the
 pair (pos_element, neg_element) to the row that annotates it.
 */
module Annotations {
  import opened Dicts

  /** A parsed body row of an annotation file (the columns the evaluation reads). */
  datatype Row = Row(
    posElement: string,
    negElement: string,
    affixal: string,
    directness: string,
    subtype: string)

  /** `(row["pos_element"], row["neg_element"])` */
  type Key = (string, string)

  function KeyOf(row: Row): Key
  {
    (row.posElement, row.negElement)
  }

  /** The key of every row of `rows`, in order. */
  function KeysOf(rows: seq<Row>): (r: seq<Key>)
    ensures |r| == |rows| && forall i :: 0 <= i < |rows| ==> r[i] == KeyOf(rows[i])
  {
    seq(|rows|, i requires 0 <= i < |rows| => KeyOf(rows[i]))
  }

  type AnnotationSet = Dict<Key, Row>

  lemma KeysOfPrefix(body: seq<Row>, i: nat)
    requires i < |body|
    ensures KeysOf(body[..i + 1]) == KeysOf(body[..i]) + [KeyOf(body[i])]
  {
  }

  /** A key occurs in `rows[1:]` exactly when some row after the first carries it. */
  lemma TailKeys(rows: seq<Row>)
    ensures forall k :: k in KeysOf(Tail(rows)) <==> exists j :: 1 <= j < |rows| && KeyOf(rows[j]) == k
  {
  }

  /** Among the first `n` rows of `body`, row `j` is the last one with its key. */
  ghost predicate LastWithKey(body: seq<Row>, n: int, j: int)
    requires n <= |body|
  {
    && 0 <= j < n
    && forall j' :: j < j' < n ==> KeyOf(body[j']) != KeyOf(body[j])
  }

  /** `d` holds, for each key of the first `n` rows of `body`, the last of them with that key. */
  ghost predicate StoresLast(d: AnnotationSet, body: seq<Row>, n: int)
    requires n <= |body|
  {
    forall j :: LastWithKey(body, n, j) ==>
      KeyOf(body[j]) in d.entries && d.entries[KeyOf(body[j])] == body[j]
  }

  lemma StoresLastStep(d: AnnotationSet, body: seq<Row>, i: nat)
    requires Valid(d) && i < |body| && StoresLast(d, body, i)
    ensures StoresLast(Set(d, KeyOf(body[i]), body[i]), body, i + 1)
  {
  }

  /**
   `get_annotations`: every parsed row but the first is stored under its
   key, a later row replacing an earlier one with the same key; the keys
   keep the order in which they first appeared.
   */
  method GetAnnotations(rows: seq<Row>) returns (annotations: AnnotationSet)
    ensures Valid(annotations)
    ensures annotations.keys == Distinct(KeysOf(Tail(rows)))
    ensures forall k :: k in annotations.entries <==> k in KeysOf(Tail(rows))
    ensures forall i, j :: 0 <= i < j < |annotations.keys| ==>
              FirstIndex(KeysOf(Tail(rows)), annotations.keys[i]) < FirstIndex(KeysOf(Tail(rows)), annotations.keys[j])
    ensures StoresLast(annotations, Tail(rows), |Tail(rows)|)
    ensures |rows| > 0 ==>
              (KeyOf(rows[0]) in annotations.entries <==>
                 exists j :: 1 <= j < |rows| && KeyOf(rows[j]) == KeyOf(rows[0]))
  {
    var body := Tail(rows);
    annotations := Empty();
    var i := 0;
    while i < |body|
      invariant 0 <= i <= |body|
      invariant Valid(annotations)
      invariant annotations.keys == Distinct(KeysOf(body[..i]))
      invariant StoresLast(annotations, body, i)
    {
      var pair := KeyOf(body[i]);
      KeysOfPrefix(body, i);
      DistinctSnoc(KeysOf(body[..i]), pair);
      StoresLastStep(annotations, body, i);
      annotations := Set(annotations, pair, body[i]);
      i := i + 1;
    }
    assert body[..i] == body;
    TailKeys(rows);
    DistinctOrder(KeysOf(body));
  }
}
