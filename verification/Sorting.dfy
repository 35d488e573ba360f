/** One outcome of the library sort: the positions of the keys, the largest key first. */
module Sorting {
  /** Whole keys as reals. */
  function Reals(keys: seq<int>): (r: seq<real>)
    ensures |r| == |keys| && forall i | 0 <= i < |r| :: r[i] == keys[i] as real
  {
    seq(|keys|, i requires 0 <= i < |keys| => keys[i] as real)
  }

  ghost predicate Descending(keys: seq<real>, order: seq<nat>) {
    && (forall i | 0 <= i < |order| :: order[i] < |keys|)
    && forall i, j | 0 <= i < j < |order| :: order[i] != order[j] && keys[order[i]] >= keys[order[j]]
  }

  lemma InsertKeeps(keys: seq<real>, order: seq<nat>, at: nat, n: nat)
    requires Descending(keys, order) && at <= |order| && n < |keys| && n !in order
    requires forall i | 0 <= i < at :: keys[order[i]] >= keys[n]
    requires at < |order| ==> keys[order[at]] <= keys[n]
    ensures Descending(keys, order[..at] + [n] + order[at..])
  {
    var longer := order[..at] + [n] + order[at..];
    forall i | 0 <= i < |longer| ensures longer[i] == if i < at then order[i] else if i == at then n else order[i - 1] {
    }
    assert at < |order| ==> forall i | at <= i < |order| :: keys[order[i]] <= keys[n];
  }

  method SortOrder(keys: seq<real>) returns (order: seq<nat>)
    ensures Descending(keys, order) && |order| == |keys|
    ensures forall n :: n in order <==> 0 <= n < |keys|
  {
    order := [];
    for n := 0 to |keys|
      invariant Descending(keys, order) && |order| == n
      invariant forall m :: m in order <==> 0 <= m < n
    {
      var at := 0;
      while at < |order| && keys[order[at]] > keys[n]
        invariant 0 <= at <= |order|
        invariant forall i | 0 <= i < at :: keys[order[i]] >= keys[n]
      {
        at := at + 1;
      }
      InsertKeeps(keys, order, at, n);
      var longer := order[..at] + [n] + order[at..];
      assert forall m :: m in longer <==> m in order[..at] || m == n || m in order[at..];
      assert forall m :: m in order <==> m in order[..at] || m in order[at..];
      order := longer;
    }
  }

  function Permuted<T>(items: seq<T>, order: seq<nat>): (r: seq<T>)
    requires forall i | 0 <= i < |order| :: order[i] < |items|
    ensures |r| == |order| && forall i | 0 <= i < |r| :: r[i] == items[order[i]]
  {
    seq(|order|, i requires 0 <= i < |order| => items[order[i]])
  }
}
