/**
 The antonym table: every (lemma, antonym) relation the lexical database
 yields is stored under the pair of their names, unless the reversed pair
 is already stored, so that a relation and its reverse appear once, in the
 orientation seen first.

 The traversal of the database (every synset, every lemma of it, every
 antonym of that lemma) is given as the sequence of visits it makes, each
 carrying the names, keys and definitions the table row is built from.
 */
module Antonyms {
  import opened Dicts

  /** One visit of the innermost loop: a lemma of a synset and one antonym of that lemma. */
  datatype Link = Link(
    lemmaName: string,          // lemma.name()
    antonymName: string,        // antonym.name()
    pos: string,                // synset.pos()
    lemmaKey: string,           // lemma.key()
    antonymKey: string,         // antonym.key()
    definition: string,         // synset.definition()
    antonymDefinition: string)  // antonym.synset().definition()

  type Pair = (string, string)

  function PairOf(x: Link): Pair
  {
    (x.lemmaName, x.antonymName)
  }

  function Reversed(p: Pair): Pair
  {
    (p.1, p.0)
  }

  /** The row written for a visit, in the column order of the output file. */
  function RowOf(x: Link): seq<string>
  {
    [x.lemmaName, x.antonymName, x.pos, x.lemmaKey, x.antonymKey, x.definition, x.antonymDefinition]
  }

  type AntonymTable = Dict<Pair, seq<string>>

  /** A relation between two different words is never stored in both orientations. */
  ghost predicate NoSymmetricPairs(m: map<Pair, seq<string>>)
  {
    forall p :: p in m && p.0 != p.1 ==> Reversed(p) !in m
  }

  /** Every stored row starts with the two names its key is made of. */
  ghost predicate RowsMatchKeys(m: map<Pair, seq<string>>)
  {
    forall p :: p in m ==> |m[p]| == 7 && m[p][0] == p.0 && m[p][1] == p.1
  }

  /**
   One visit: `if not reversed_pair in antonyms: antonyms[pair] = row`.
   Nothing is removed; at most the visited pair is added or overwritten.
   */
  function Step(d: AntonymTable, x: Link): (r: AntonymTable)
    requires Valid(d)
    ensures Valid(r)
    ensures r.entries.Keys == d.entries.Keys || r.entries.Keys == d.entries.Keys + {PairOf(x)}
    ensures r.keys == d.keys || r.keys == d.keys + [PairOf(x)]
    ensures Reversed(PairOf(x)) in d.entries ==> r == d
    ensures Reversed(PairOf(x)) !in d.entries ==>
              && PairOf(x) in r.entries && r.entries[PairOf(x)] == RowOf(x)
              && forall p :: p in d.entries && p != PairOf(x) ==> r.entries[p] == d.entries[p]
    ensures NoSymmetricPairs(d.entries) ==> NoSymmetricPairs(r.entries)
    ensures RowsMatchKeys(d.entries) ==> RowsMatchKeys(r.entries)
  {
    if Reversed(PairOf(x)) in d.entries then d else Set(d, PairOf(x), RowOf(x))
  }

  /**
   Visiting again a stored pair of two different words overwrites its row
   with the new one; no other entry changes and the key order stays.
   */
  lemma RevisitOverwrites(d: AntonymTable, x: Link)
    requires Valid(d) && NoSymmetricPairs(d.entries)
    requires x.lemmaName != x.antonymName && PairOf(x) in d.entries
    ensures Step(d, x).keys == d.keys
    ensures Step(d, x).entries == d.entries[PairOf(x) := RowOf(x)]
  {
  }

  /** Visiting again a stored pair of a word with itself changes nothing. */
  lemma SelfRevisitKeeps(d: AntonymTable, x: Link)
    requires Valid(d)
    requires x.lemmaName == x.antonymName && PairOf(x) in d.entries
    ensures Step(d, x) == d
  {
  }

  /** The table after the visits `links`, in order: the reference for the loop. */
  function Collect(links: seq<Link>): (r: AntonymTable)
    ensures Valid(r)
    ensures NoSymmetricPairs(r.entries)
    ensures RowsMatchKeys(r.entries)
  {
    if links == [] then Empty() else Step(Collect(links[..|links| - 1]), links[|links| - 1])
  }

  /** Some visit of `links` is of pair `q`. */
  ghost predicate Occurs(links: seq<Link>, q: Pair)
  {
    exists j :: 0 <= j < |links| && PairOf(links[j]) == q
  }

  /** Some visit of pair `p` comes before every visit of pair `q`. */
  ghost predicate SeenFirst(links: seq<Link>, p: Pair, q: Pair)
  {
    exists j :: 0 <= j < |links| && PairOf(links[j]) == p && forall j' :: 0 <= j' < j ==> PairOf(links[j']) != q
  }

  lemma OccursSnoc(links: seq<Link>, q: Pair)
    requires links != []
    ensures Occurs(links, q) <==> Occurs(links[..|links| - 1], q) || PairOf(links[|links| - 1]) == q
  {
  }

  lemma SeenFirstSnoc(links: seq<Link>, p: Pair, q: Pair)
    requires links != []
    ensures SeenFirst(links, p, q) <==>
              SeenFirst(links[..|links| - 1], p, q) || (PairOf(links[|links| - 1]) == p && !Occurs(links[..|links| - 1], q))
  {
  }

  /** If neither of two pairs is seen before the other, neither is seen at all. */
  lemma {:induction false} NeitherSeenFirst(links: seq<Link>, p: Pair, q: Pair)
    requires !SeenFirst(links, p, q) && !SeenFirst(links, q, p)
    ensures !Occurs(links, p) && !Occurs(links, q)
  {
    if links != [] {
      var prefix := links[..|links| - 1];
      SeenFirstSnoc(links, p, q);
      SeenFirstSnoc(links, q, p);
      NeitherSeenFirst(prefix, p, q);
      OccursSnoc(links, p);
      OccursSnoc(links, q);
    }
  }

  /**
   A pair is stored exactly when one of its visits comes before every
   visit of the reversed pair: the orientation seen first is the one kept.
   For a pair of a word with itself this says: stored once visited.
   */
  lemma {:induction false} StoredIffSeenFirst(links: seq<Link>, p: Pair)
    ensures p in Collect(links).entries <==> SeenFirst(links, p, Reversed(p))
  {
    if links != [] {
      var prefix, x := links[..|links| - 1], links[|links| - 1];
      var q := Reversed(p);
      var before := Collect(prefix);
      assert Reversed(q) == p;
      assert Collect(links) == Step(before, x);
      StoredIffSeenFirst(prefix, p);
      SeenFirstSnoc(links, p, q);
      if PairOf(x) == p {
        StoredIffSeenFirst(prefix, q);
        if q in before.entries {
          SeenFirstOccurs(prefix, q, p);
        } else if p !in before.entries {
          NeitherSeenFirst(prefix, p, q);
        }
      } else {
        assert p in Collect(links).entries <==> p in before.entries;
      }
    }
  }

  lemma SeenFirstOccurs(links: seq<Link>, p: Pair, q: Pair)
    requires SeenFirst(links, p, q)
    ensures Occurs(links, p)
  {
  }

  /**
   A pair of two different words, once stored, holds the row of its last
   visit: later visits of the same orientation overwrite it.
   */
  lemma {:induction false} LastVisitWins(links: seq<Link>, p: Pair, j: int)
    requires p.0 != p.1
    requires 0 <= j < |links| && PairOf(links[j]) == p
    requires forall j' :: j < j' < |links| ==> PairOf(links[j']) != p
    requires p in Collect(links).entries
    ensures Collect(links).entries[p] == RowOf(links[j])
  {
    var prefix, x := links[..|links| - 1], links[|links| - 1];
    var before := Collect(prefix);
    if j < |links| - 1 {
      assert PairOf(x) != p;
      assert p in before.entries;
      LastVisitWins(prefix, p, j);
    }
  }

  /**
   A pair of a word with itself keeps the row of its first visit: every
   later visit finds the reversed pair, which is the pair itself, stored.
   */
  lemma {:induction false} SelfPairFirstVisitKept(links: seq<Link>, p: Pair, j: int)
    requires p.0 == p.1
    requires 0 <= j < |links| && PairOf(links[j]) == p
    requires forall j' :: 0 <= j' < j ==> PairOf(links[j']) != p
    ensures p in Collect(links).entries && Collect(links).entries[p] == RowOf(links[j])
  {
    var prefix, x := links[..|links| - 1], links[|links| - 1];
    assert Reversed(p) == p;
    if j < |links| - 1 {
      SelfPairFirstVisitKept(prefix, p, j);
      assert PairOf(prefix[j]) == p;
    } else {
      forall i | 0 <= i < |prefix| ensures PairOf(prefix[i]) != p {
        assert prefix[i] == links[i];
      }
      StoredIffSeenFirst(prefix, p);
    }
  }

  /**
   The extraction loop over the visits of the traversal, filling the table
   in place.
   */
  method CollectAntonyms(links: seq<Link>) returns (antonyms: AntonymTable)
    ensures antonyms == Collect(links)
    ensures Valid(antonyms)
    ensures NoSymmetricPairs(antonyms.entries)
    ensures RowsMatchKeys(antonyms.entries)
    ensures forall p :: p in antonyms.entries <==> SeenFirst(links, p, Reversed(p))
  {
    antonyms := Empty();
    for i := 0 to |links|
      invariant antonyms == Collect(links[..i])
    {
      var link := links[i];
      var pair := (link.lemmaName, link.antonymName);
      var reversedPair := (link.antonymName, link.lemmaName);
      assert links[..i + 1][..i] == links[..i];
      if reversedPair !in antonyms.entries {
        antonyms := Set(antonyms, pair, [link.lemmaName, link.antonymName, link.pos, link.lemmaKey,
                                         link.antonymKey, link.definition, link.antonymDefinition]);
      }
    }
    assert links[..|links|] == links;
    forall p ensures p in antonyms.entries <==> SeenFirst(links, p, Reversed(p)) {
      StoredIffSeenFirst(links, p);
    }
  }
}
