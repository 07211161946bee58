/** Counting the entries of a table that keeps one entry per hash and a bucket for the rest. */
module Tables {
  import opened Naturals

  /** Entries in the buckets of hashes below `n`. */
  ghost function Buckets<R>(overflow: map<nat, seq<R>>, n: nat): nat {
    if n == 0 then 0 else Buckets(overflow, n - 1) + if n - 1 in overflow then |overflow[n - 1]| else 0
  }

  ghost function HashBound<R>(overflow: map<nat, seq<R>>): (n: nat)
    ensures forall h :: h in overflow ==> h < n
    decreases |overflow|
  {
    if overflow == map[] then 0
    else
      var h :| h in overflow;
      var rest := HashBound(overflow - {h});
      assert forall k :: k in overflow && k != h ==> k in overflow - {h};
      MaxNat(h + 1, rest)
  }

  ghost function EntryCount<R>(primary: map<nat, R>, overflow: map<nat, seq<R>>): nat {
    |primary| + Buckets(overflow, HashBound(overflow))
  }

  lemma {:induction false} BucketsNone<R>(overflow: map<nat, seq<R>>, n: nat)
    requires overflow == map[]
    ensures Buckets(overflow, n) == 0
  {
    if n > 0 { BucketsNone(overflow, n - 1); }
  }

  lemma {:induction false} BucketsAdd<R>(overflow: map<nat, seq<R>>, n: nat, h: nat, bucket: seq<R>)
    requires h !in overflow
    ensures Buckets(overflow[h := bucket], n) == Buckets(overflow, n) + if h < n then |bucket| else 0
  {
    if n > 0 { BucketsAdd(overflow, n - 1, h, bucket); }
  }

  lemma BucketsTaken<R>(overflow: map<nat, seq<R>>, keys: set<nat>, h: nat, n: nat)
    requires h in keys && h in overflow
    ensures Buckets(overflow - (keys - {h}), n) == Buckets(overflow - keys, n) + if h < n then |overflow[h]| else 0
  {
    assert overflow - (keys - {h}) == (overflow - keys)[h := overflow[h]];
    BucketsAdd(overflow - keys, n, h, overflow[h]);
  }

  /** Adds up the buckets in any order. */
  method CountEntries<R>(primary: map<nat, R>, overflow: map<nat, seq<R>>) returns (n: nat)
    ensures n == EntryCount(primary, overflow)
  {
    hide Buckets;
    n := |primary|;
    var keys := overflow.Keys;
    ghost var bound := HashBound(overflow);
    BucketsNone(overflow - overflow.Keys, bound);
    while keys != {}
      invariant keys <= overflow.Keys && n == |primary| + Buckets(overflow - keys, bound)
      decreases keys
    {
      var h :| h in keys;
      BucketsTaken(overflow, keys, h, bound);
      n := n + |overflow[h]|;
      keys := keys - {h};
    }
    assert overflow - {} == overflow;
  }

  // ------------------------------------------------------- what is counted

  /** Where the entries are: at place 0 of a hash its primary one, at the places after it those of its bucket. */
  ghost function Places<R>(primary: map<nat, R>, overflow: map<nat, seq<R>>): set<(nat, nat)> {
    FirstPlaces(primary.Keys) + BucketPlaces(overflow, HashBound(overflow))
  }

  ghost function FirstPlaces(hashes: set<nat>): set<(nat, nat)> { set h | h in hashes :: (h, 0) }

  ghost function BucketPlaces<R>(overflow: map<nat, seq<R>>, n: nat): set<(nat, nat)> {
    set h, k | h in overflow && h < n && 1 <= k <= |overflow[h]| :: (h, k)
  }

  lemma {:induction false} FirstPlacesSize(hashes: set<nat>)
    ensures |FirstPlaces(hashes)| == |hashes|
    decreases |hashes|
  {
    if hashes != {} {
      var h :| h in hashes;
      FirstPlacesSize(hashes - {h});
      assert FirstPlaces(hashes) == FirstPlaces(hashes - {h}) + {(h, 0)};
    }
  }

  ghost function Row(h: nat, n: nat): set<(nat, nat)> { set k | 1 <= k <= n :: (h, k) }

  lemma {:induction false} RowSize(h: nat, n: nat)
    ensures |Row(h, n)| == n
  {
    if n > 0 {
      RowSize(h, n - 1);
      assert Row(h, n) == Row(h, n - 1) + {(h, n)};
    }
  }

  lemma {:induction false} BucketPlacesSize<R>(overflow: map<nat, seq<R>>, n: nat)
    ensures |BucketPlaces(overflow, n)| == Buckets(overflow, n)
  {
    if n == 0 {
      assert BucketPlaces(overflow, 0) == {};
    } else {
      BucketPlacesSize(overflow, n - 1);
      BucketPlacesMore(overflow, n - 1);
      hide BucketPlaces, Row;
      if n - 1 in overflow { RowSize(n - 1, |overflow[n - 1]|); }
    }
  }

  lemma BucketPlacesMore<R>(overflow: map<nat, seq<R>>, n: nat)
    ensures var row := if n in overflow then Row(n, |overflow[n]|) else {};
            BucketPlaces(overflow, n + 1) == BucketPlaces(overflow, n) + row && BucketPlaces(overflow, n) !! row
  {
    var row := if n in overflow then Row(n, |overflow[n]|) else {};
    var a, b := BucketPlaces(overflow, n + 1), BucketPlaces(overflow, n);
    forall p ensures p in a <==> p in b || p in row {}
  }

  /** The count is the number of places with an entry, each place once. */
  lemma EntryCountExact<R>(primary: map<nat, R>, overflow: map<nat, seq<R>>)
    ensures EntryCount(primary, overflow) == |Places(primary, overflow)|
    ensures forall h, k :: (h, k) in Places(primary, overflow)
                     <==> (k == 0 && h in primary) || (h in overflow && 1 <= k <= |overflow[h]|)
  {
    var first, rest := FirstPlaces(primary.Keys), BucketPlaces(overflow, HashBound(overflow));
    FirstPlacesSize(primary.Keys);
    BucketPlacesSize(overflow, HashBound(overflow));
    assert |primary.Keys| == |primary|;
    assert first !! rest;
  }
}
