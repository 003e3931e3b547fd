/**
 * The executor-interceptor subset of a channel's interceptor list: the interceptors
 * that also implement the before/after-handling hooks, which take part in every
 * delivery's interceptor chain.
 */
module InterceptorSubset {
  import opened Messaging

  /**
   * The executor-capable interceptors of `list`, in list order. Built one element at a
   * time from the front, as `setInterceptors` appends them while walking the list.
   */
  function ExecutorSubset(list: seq<Interceptor>): (r: seq<ExecutorInterceptor>)
    ensures |r| <= |list|
    decreases |list|
  {
    if list == [] then []
    else
      var rest := ExecutorSubset(list[..|list| - 1]);
      match list[|list| - 1]
      case Executor(hooks) => rest + [hooks]
      case Plain(_) => rest
  }

  /** The positions in `list` that hold an executor-capable interceptor, ascending. */
  function ExecutorPositions(list: seq<Interceptor>): (p: seq<nat>)
    decreases |list|
  {
    if list == [] then []
    else
      var rest := ExecutorPositions(list[..|list| - 1]);
      if list[|list| - 1].Executor? then rest + [|list| - 1] else rest
  }

  /**
   * The subset is exactly the executor-capable elements of `list`, in their original
   * order: its j-th element sits at the j-th executor position, the positions ascend,
   * and every executor-capable position is among them.
   */
  lemma {:induction false} SubsetIsOrderedFilter(list: seq<Interceptor>)
    ensures |ExecutorSubset(list)| == |ExecutorPositions(list)|
    ensures forall j :: 0 <= j < |ExecutorPositions(list)| ==>
      ExecutorPositions(list)[j] < |list| &&
      list[ExecutorPositions(list)[j]] == Executor(ExecutorSubset(list)[j])
    ensures forall j, k :: 0 <= j < k < |ExecutorPositions(list)| ==>
      ExecutorPositions(list)[j] < ExecutorPositions(list)[k]
    ensures forall k :: 0 <= k < |list| && list[k].Executor? ==> k in ExecutorPositions(list)
    decreases |list|
  {
    if list != [] {
      var n := |list| - 1;
      var init := list[..n];
      SubsetIsOrderedFilter(init);
      assert forall k :: 0 <= k < n ==> list[k] == init[k];
      if list[n].Executor? {
        assert ExecutorSubset(list) == ExecutorSubset(init) + [list[n].hooks];
        assert ExecutorPositions(list) == ExecutorPositions(init) + [n];
      } else {
        assert ExecutorSubset(list) == ExecutorSubset(init);
        assert ExecutorPositions(list) == ExecutorPositions(init);
      }
    }
  }

  /** Deriving the subset commutes with concatenation: appending to the list appends to the subset. */
  lemma {:induction false} SubsetAppend(a: seq<Interceptor>, b: seq<Interceptor>)
    ensures ExecutorSubset(a + b) == ExecutorSubset(a) + ExecutorSubset(b)
    decreases |b|
  {
    if b == [] {
      assert a + b == a;
    } else {
      var b' := b[..|b| - 1];
      SubsetAppend(a, b');
      assert (a + b)[..|a + b| - 1] == a + b';
    }
  }

  /** An interceptor without the executor capability contributes nothing to the subset. */
  lemma {:induction false} SubsetOfPlainOnly(list: seq<Interceptor>)
    requires forall k :: 0 <= k < |list| ==> list[k].Plain?
    ensures ExecutorSubset(list) == []
    decreases |list|
  {
    if list != [] {
      SubsetOfPlainOnly(list[..|list| - 1]);
    }
  }
}
