/** Generic sequence helpers shared by the batching code. */
module Seqs {
  /** The concatenation of all the pieces, in order. */
  function Flatten<T>(bs: seq<seq<T>>): (r: seq<T>)
    ensures |bs| == 0 ==> r == []
  {
    if |bs| == 0 then [] else bs[0] + Flatten(bs[1..])
  }

  /** Flattening distributes over concatenation. */
  lemma {:induction false} FlattenAppend<T>(a: seq<seq<T>>, b: seq<seq<T>>)
    ensures Flatten(a + b) == Flatten(a) + Flatten(b)
    decreases |a|
  {
    if |a| > 0 {
      assert (a + b)[1..] == a[1..] + b;
      FlattenAppend(a[1..], b);
    } else {
      assert a + b == b;
    }
  }

  lemma FlattenSingle<T>(x: seq<T>)
    ensures Flatten([x]) == x
  {
    assert Flatten([x]) == x + Flatten([x][1..]);
  }

  /** Cutting a sequence and gluing the pieces back gives it back. */
  lemma SplitAt<T>(s: seq<T>, k: nat)
    requires k <= |s|
    ensures s[..k] + s[k..] == s
  {
  }

  /** An element of one piece is in the concatenation. */
  lemma {:induction false} InFlatten<T>(bs: seq<seq<T>>, k: nat, y: T)
    requires k < |bs| && y in bs[k]
    ensures y in Flatten(bs)
    decreases k
  {
    if k > 0 {
      InFlatten(bs[1..], k - 1, y);
    }
  }

  /** An element of the concatenation comes from one of the pieces. */
  lemma {:induction false} FlattenMember<T>(bs: seq<seq<T>>, y: T)
    requires y in Flatten(bs)
    ensures exists k :: 0 <= k < |bs| && y in bs[k]
    decreases |bs|
  {
    if y !in bs[0] {
      FlattenMember(bs[1..], y);
      var k :| 0 <= k < |bs[1..]| && y in bs[1..][k];
      assert bs[k + 1] == bs[1..][k];
    }
  }

  /** `[f(x) for x in xs]`. */
  function Map<A, B>(f: A -> B, xs: seq<A>): (ys: seq<B>)
    ensures |ys| == |xs|
    ensures forall i :: 0 <= i < |xs| ==> ys[i] == f(xs[i])
  {
    if |xs| == 0 then [] else [f(xs[0])] + Map(f, xs[1..])
  }
}
