/**
 `upsert_batch_with_retry` of src/hkex_scraper/db.py: a list of statements goes
 to the database as one request; when the database reports an error the list
 is halved and each half retried, down to single statements or a depth cap.
 Whether the database accepts a list of statements is the parameter `accepts`;
 a statement is of any type `S`, since only its position in the list matters.
 */
module Db {
  import opened Seqs

  /** One request to the database: the statements sent and the recursion depth it was sent at. */
  datatype Call<S> = Call(depth: int, stmts: seq<S>)

  /**
   The outcome: the statement count reported as written, the statements
   appended to the failure file (the first of each abandoned list), and the
   requests made, in order.
   */
  datatype Upsert<S> = Upsert(count: nat, failed: seq<S>, calls: seq<Call<S>>)

  /** The default depth cap of `upsert_batch_with_retry`. */
  const MaxDepth := 6

  /** `upsert_batch_with_retry(statements, depth, max_depth)`. */
  function UpsertBatchWithRetry<S>(stmts: seq<S>, depth: int, maxDepth: int, accepts: seq<S> -> bool): (r: Upsert<S>)
    ensures r.count <= |stmts|
    ensures |stmts| == 0 ==> r == Upsert(0, [], [])
    ensures |stmts| > 0 ==> |r.calls| >= 1 && r.calls[0] == Call(depth, stmts)
    ensures |stmts| > 0 && accepts(stmts) ==> r == Upsert(|stmts|, [], [Call(depth, stmts)])
    ensures |stmts| > 0 && !accepts(stmts) && (depth >= maxDepth || |stmts| == 1) ==>
              r == Upsert(0, [stmts[0]], [Call(depth, stmts)])
    decreases |stmts|
  {
    if |stmts| == 0 then Upsert(0, [], [])
    else if accepts(stmts) then Upsert(|stmts|, [], [Call(depth, stmts)])
    else if depth >= maxDepth || |stmts| == 1 then Upsert(0, [stmts[0]], [Call(depth, stmts)])
    else
      var mid := |stmts| / 2;
      var left := UpsertBatchWithRetry(stmts[..mid], depth + 1, maxDepth, accepts);
      var right := UpsertBatchWithRetry(stmts[mid..], depth + 1, maxDepth, accepts);
      Upsert(left.count + right.count, left.failed + right.failed, [Call(depth, stmts)] + left.calls + right.calls)
  }

  /** A final list of the split: accepted whole, or abandoned. */
  datatype Leaf<S> = Leaf(stmts: seq<S>, accepted: bool)

  /** The lists the splitting ends with, left to right: the leaves of the split tree. */
  function Leaves<S>(stmts: seq<S>, depth: int, maxDepth: int, accepts: seq<S> -> bool): seq<Leaf<S>>
    decreases |stmts|
  {
    if |stmts| == 0 then []
    else if accepts(stmts) then [Leaf(stmts, true)]
    else if depth >= maxDepth || |stmts| == 1 then [Leaf(stmts, false)]
    else
      var mid := |stmts| / 2;
      Leaves(stmts[..mid], depth + 1, maxDepth, accepts) + Leaves(stmts[mid..], depth + 1, maxDepth, accepts)
  }

  function LeafStmts<S>(ls: seq<Leaf<S>>): (r: seq<seq<S>>)
    ensures |r| == |ls|
    ensures forall i :: 0 <= i < |ls| ==> r[i] == ls[i].stmts
  {
    seq(|ls|, i requires 0 <= i < |ls| => ls[i].stmts)
  }

  /** The number of statements in the accepted leaves. */
  function AcceptedLen<S>(ls: seq<Leaf<S>>): nat {
    if |ls| == 0 then 0 else (if ls[0].accepted then |ls[0].stmts| else 0) + AcceptedLen(ls[1..])
  }

  /** The first statement of each abandoned leaf. */
  function FailedHeads<S>(ls: seq<Leaf<S>>): seq<S> {
    if |ls| == 0 then []
    else (if !ls[0].accepted && |ls[0].stmts| > 0 then [ls[0].stmts[0]] else []) + FailedHeads(ls[1..])
  }

  lemma {:induction false} AcceptedLenAppend<S>(a: seq<Leaf<S>>, b: seq<Leaf<S>>)
    ensures AcceptedLen(a + b) == AcceptedLen(a) + AcceptedLen(b)
    decreases |a|
  {
    if |a| > 0 {
      assert (a + b)[1..] == a[1..] + b;
      AcceptedLenAppend(a[1..], b);
    } else {
      assert a + b == b;
    }
  }

  lemma {:induction false} FailedHeadsAppend<S>(a: seq<Leaf<S>>, b: seq<Leaf<S>>)
    ensures FailedHeads(a + b) == FailedHeads(a) + FailedHeads(b)
    decreases |a|
  {
    if |a| > 0 {
      assert (a + b)[1..] == a[1..] + b;
      FailedHeadsAppend(a[1..], b);
    } else {
      assert a + b == b;
    }
  }

  lemma LeafStmtsAppend<S>(a: seq<Leaf<S>>, b: seq<Leaf<S>>)
    ensures LeafStmts(a + b) == LeafStmts(a) + LeafStmts(b)
  {
  }

  /** A leaf is non-empty, and accepted exactly when the database accepts its statements. */
  predicate LeafOk<S>(l: Leaf<S>, accepts: seq<S> -> bool) {
    |l.stmts| > 0 && (l.accepted <==> accepts(l.stmts))
  }

  /** The leaves together make up the input, in order. */
  lemma {:induction false} LeavesCover<S>(stmts: seq<S>, depth: int, maxDepth: int, accepts: seq<S> -> bool)
    ensures Flatten(LeafStmts(Leaves(stmts, depth, maxDepth, accepts))) == stmts
    decreases |stmts|
  {
    var ls := Leaves(stmts, depth, maxDepth, accepts);
    if |stmts| > 0 && !accepts(stmts) && !(depth >= maxDepth || |stmts| == 1) {
      var mid := |stmts| / 2;
      var a := Leaves(stmts[..mid], depth + 1, maxDepth, accepts);
      var b := Leaves(stmts[mid..], depth + 1, maxDepth, accepts);
      LeavesCover(stmts[..mid], depth + 1, maxDepth, accepts);
      LeavesCover(stmts[mid..], depth + 1, maxDepth, accepts);
      LeafStmtsAppend(a, b);
      FlattenAppend(LeafStmts(a), LeafStmts(b));
      SplitAt(stmts, mid);
    } else if |stmts| > 0 {
      assert LeafStmts(ls) == [stmts];
      FlattenSingle(stmts);
    }
  }

  /** Each leaf is non-empty; accepted leaves are ones the database accepts, abandoned ones it rejects. */
  lemma {:induction false} LeavesJudged<S>(stmts: seq<S>, depth: int, maxDepth: int, accepts: seq<S> -> bool)
    ensures forall l :: l in Leaves(stmts, depth, maxDepth, accepts) ==> LeafOk(l, accepts)
    decreases |stmts|
  {
    if |stmts| > 0 && !accepts(stmts) && !(depth >= maxDepth || |stmts| == 1) {
      var mid := |stmts| / 2;
      LeavesJudged(stmts[..mid], depth + 1, maxDepth, accepts);
      LeavesJudged(stmts[mid..], depth + 1, maxDepth, accepts);
    }
  }

  /**
   The count is the number of statements in the accepted leaves, and the
   failure file gets the first statement of each abandoned leaf and nothing else.
   */
  lemma {:induction false} CountIsAccepted<S>(stmts: seq<S>, depth: int, maxDepth: int, accepts: seq<S> -> bool)
    ensures UpsertBatchWithRetry(stmts, depth, maxDepth, accepts).count == AcceptedLen(Leaves(stmts, depth, maxDepth, accepts))
    ensures UpsertBatchWithRetry(stmts, depth, maxDepth, accepts).failed == FailedHeads(Leaves(stmts, depth, maxDepth, accepts))
    decreases |stmts|
  {
    if |stmts| > 0 && !accepts(stmts) && !(depth >= maxDepth || |stmts| == 1) {
      var mid := |stmts| / 2;
      CountIsAccepted(stmts[..mid], depth + 1, maxDepth, accepts);
      CountIsAccepted(stmts[mid..], depth + 1, maxDepth, accepts);
      AcceptedLenAppend(Leaves(stmts[..mid], depth + 1, maxDepth, accepts), Leaves(stmts[mid..], depth + 1, maxDepth, accepts));
      FailedHeadsAppend(Leaves(stmts[..mid], depth + 1, maxDepth, accepts), Leaves(stmts[mid..], depth + 1, maxDepth, accepts));
    } else if |stmts| > 0 {
      var ls := Leaves(stmts, depth, maxDepth, accepts);
      assert ls[1..] == [];
    }
  }

  /** No request is made deeper than the cap (or than the starting depth, if that is already past it). */
  lemma {:induction false} DepthBounded<S>(stmts: seq<S>, depth: int, maxDepth: int, accepts: seq<S> -> bool)
    ensures forall c :: c in UpsertBatchWithRetry(stmts, depth, maxDepth, accepts).calls ==>
              depth <= c.depth && (c.depth <= maxDepth || c.depth == depth)
    decreases |stmts|
  {
    if |stmts| > 0 && !accepts(stmts) && !(depth >= maxDepth || |stmts| == 1) {
      var mid := |stmts| / 2;
      DepthBounded(stmts[..mid], depth + 1, maxDepth, accepts);
      DepthBounded(stmts[mid..], depth + 1, maxDepth, accepts);
    }
  }
}
