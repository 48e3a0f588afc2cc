/** The `it-batch` library as peer.js uses it: the input stream is cut into
    consecutive batches of `size` items, the last one possibly shorter.
    it-batch treats a size below 1 as 1. */
module Batching {

  function ChunkSize(size: int): (n: nat)
    ensures n >= 1
    ensures size >= 1 ==> n == size
  {
    if size < 1 then 1 else size
  }

  function Batches<T>(s: seq<T>, n: nat): (bs: seq<seq<T>>)
    requires n >= 1
    decreases |s|
  {
    if |s| == 0 then []
    else if |s| <= n then [s]
    else [s[..n]] + Batches(s[n..], n)
  }

  function Flatten<T>(ss: seq<seq<T>>): (flat: seq<T>)
  {
    if |ss| == 0 then [] else ss[0] + Flatten(ss[1..])
  }

  /** The batches put back together give the input, in order. */
  lemma {:induction false} BatchesFlatten<T>(s: seq<T>, n: nat)
    requires n >= 1
    ensures Flatten(Batches(s, n)) == s
    decreases |s|
  {
    if |s| == 0 {
    } else if |s| <= n {
      assert Flatten(Batches(s, n)) == s + Flatten<T>([]);
    } else {
      var rest := Batches(s[n..], n);
      BatchesFlatten(s[n..], n);
      assert Batches(s, n) == [s[..n]] + rest;
      assert ([s[..n]] + rest)[1..] == rest;
      assert s[..n] + s[n..] == s;
    }
  }

  /** Every batch is non-empty and holds at most `n` items; all but the last
      hold exactly `n`. */
  lemma {:induction false} BatchesSizes<T>(s: seq<T>, n: nat)
    requires n >= 1
    ensures forall i :: 0 <= i < |Batches(s, n)| ==> 1 <= |Batches(s, n)[i]| <= n
    ensures forall i :: 0 <= i < |Batches(s, n)| - 1 ==> |Batches(s, n)[i]| == n
    decreases |s|
  {
    if |s| > n {
      var rest := Batches(s[n..], n);
      BatchesSizes(s[n..], n);
      assert Batches(s, n) == [s[..n]] + rest;
      forall i | 1 <= i < |Batches(s, n)|
        ensures Batches(s, n)[i] == rest[i - 1]
      {
      }
    }
  }
}
