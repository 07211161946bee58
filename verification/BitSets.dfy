/** A set of small numbers as a vector of 64-bit words. */
module BitSets {
  import opened Words

  predicate Test(words: seq<nat>, n: nat) { n / 64 < |words| && Bit(words[n / 64], n % 64) }

  predicate Fit(words: seq<nat>) { forall k :: 0 <= k < |words| ==> words[k] < Pow2(64) }

  /** `words[n / 64] |= 1 << (n % 64)`, growing the vector with zero words first. */
  function Insert(words: seq<nat>, n: nat): seq<nat> {
    var w := words + Zeros(if n / 64 < |words| then 0 else n / 64 + 1 - |words|);
    w[n / 64 := Or(w[n / 64], Pow2(n % 64))]
  }

  function Zeros(count: nat): (r: seq<nat>)
    ensures |r| == count && forall k :: 0 <= k < count ==> r[k] == 0
  {
    seq(count, _ => 0)
  }

  lemma InsertTest(words: seq<nat>, n: nat, m: nat)
    ensures Test(Insert(words, n), m) <==> m == n || Test(words, m)
  {
    hide Or, Pow2;
    var w := words + Zeros(if n / 64 < |words| then 0 else n / 64 + 1 - |words|);
    BitOr(w[n / 64], Pow2(n % 64), m % 64);
    BitPow2(n % 64, m % 64);
    BitOfZero(m % 64);
    assert m == 64 * (m / 64) + m % 64 && n == 64 * (n / 64) + n % 64;
  }

  lemma InsertFit(words: seq<nat>, n: nat)
    requires Fit(words)
    ensures Fit(Insert(words, n))
  {
    hide Or;
    var w := words + Zeros(if n / 64 < |words| then 0 else n / 64 + 1 - |words|);
    Pow2Mono(n % 64 + 1, 64);
    assert 2 * Pow2(n % 64) == Pow2(n % 64 + 1);
    OrBound(w[n / 64], Pow2(n % 64), 64);
  }

  lemma ZerosTest(count: nat, n: nat)
    ensures !Test(Zeros(count), n)
  {
    BitOfZero(n % 64);
  }
}
