/**
 * CommonStoresSwitch.Range: the registered stores, in registration order,
 * each given the same operation. The operation returns the store's new
 * state and an outcome; the first failure stops the walk and is returned
 * unchanged, the failing store keeps whatever the operation did to it, and
 * the stores after it are left as they were.
 */
module StoreSwitch {
  import opened Results

  /** One store operation: the store's state afterwards and its outcome. */
  type StoreOp<!S, +E> = S -> (S, Outcome<E>)

  function Range<S, E>(stores: seq<S>, fn: StoreOp<S, E>): (r: (seq<S>, Outcome<E>))
    ensures |r.0| == |stores|
    ensures r.1.Fail? ==> exists i :: 0 <= i < |stores| && fn(stores[i]).1 == r.1
  {
    if stores == [] then ([], Pass)
    else
      var (first, outcome) := fn(stores[0]);
      if outcome.Fail? then ([first] + stores[1..], outcome)
      else
        var (rest, restOutcome) := Range(stores[1..], fn);
        ([first] + rest, restOutcome)
  }

  /** Every store before index `i` accepts the operation. */
  ghost predicate PassesBefore<S, E>(stores: seq<S>, fn: StoreOp<S, E>, i: int)
    requires 0 <= i <= |stores|
  {
    forall j :: 0 <= j < i ==> fn(stores[j]).1.Pass?
  }

  /**
   * Range visits the stores in order and halts at the first error: it
   * passes exactly when every store passes; every store up to and
   * including the first failing one holds the operation's result; the
   * error returned is that store's error; the stores after it are untouched.
   */
  lemma {:induction false} RangeVisitsInOrder<S, E>(stores: seq<S>, fn: StoreOp<S, E>)
    ensures Range(stores, fn).1.Pass? <==> PassesBefore(stores, fn, |stores|)
    ensures forall i :: 0 <= i < |stores| && PassesBefore(stores, fn, i) ==>
              Range(stores, fn).0[i] == fn(stores[i]).0
    ensures forall i :: 0 <= i < |stores| && PassesBefore(stores, fn, i) && fn(stores[i]).1.Fail? ==>
              Range(stores, fn).1 == fn(stores[i]).1 && Range(stores, fn).0[i + 1..] == stores[i + 1..]
  {
    if stores != [] {
      var tail := stores[1..];
      RangeVisitsInOrder(tail, fn);
      var r := Range(stores, fn);
      PassesBeforeCons(stores, fn, |stores|);
      forall i | 0 <= i < |stores| && PassesBefore(stores, fn, i)
        ensures r.0[i] == fn(stores[i]).0
      {
        if i > 0 {
          PassesBeforeCons(stores, fn, i);
          assert stores[i] == tail[i - 1];
        }
      }
      forall i | 0 <= i < |stores| && PassesBefore(stores, fn, i) && fn(stores[i]).1.Fail?
        ensures r.1 == fn(stores[i]).1 && r.0[i + 1..] == stores[i + 1..]
      {
        if i > 0 {
          PassesBeforeCons(stores, fn, i);
          assert stores[i] == tail[i - 1];
          assert r.0[i + 1..] == Range(tail, fn).0[i..];
          assert stores[i + 1..] == tail[i..];
        }
      }
    }
  }

  /** The stores before index `i` all pass exactly when the first does and so do the tail's before `i - 1`. */
  lemma PassesBeforeCons<S, E>(stores: seq<S>, fn: StoreOp<S, E>, i: int)
    requires 1 <= i <= |stores|
    ensures PassesBefore(stores, fn, i) <==> fn(stores[0]).1.Pass? && PassesBefore(stores[1..], fn, i - 1)
  {
    var tail := stores[1..];
    if fn(stores[0]).1.Pass? && PassesBefore(tail, fn, i - 1) {
      forall j | 0 <= j < i ensures fn(stores[j]).1.Pass? {
        if j > 0 { assert stores[j] == tail[j - 1]; }
      }
    }
    if PassesBefore(stores, fn, i) {
      forall j | 0 <= j < i - 1 ensures fn(tail[j]).1.Pass? {
        assert tail[j] == stores[j + 1];
      }
    }
  }

  /**
   * AssumePod followed by ForgetPod: when, for every store, `undo` restores
   * what a passing `op` changed, and Range of `op` passes, then Range of
   * `undo` on the result restores every store and passes.
   */
  lemma {:induction false} RangeUndo<S, E>(stores: seq<S>, op: StoreOp<S, E>, undo: StoreOp<S, E>)
    requires forall s :: op(s).1.Pass? ==> undo(op(s).0) == (s, Pass)
    requires Range(stores, op).1.Pass?
    ensures Range(Range(stores, op).0, undo) == (stores, Pass)
  {
    if stores != [] {
      RangeUndo(stores[1..], op, undo);
      var after := Range(stores, op).0;
      assert after[0] == op(stores[0]).0;
      assert after[1..] == Range(stores[1..], op).0;
      assert undo(after[0]) == (stores[0], Pass);
      assert [stores[0]] + stores[1..] == stores;
    }
  }
}
