/** Parts of sequences given by the positions of their elements. */
module Positions {
  /** The positions are in increasing order, and they are those of the flags that are set. */
  predicate Marks(at: seq<nat>, flags: seq<bool>) {
    && (forall k :: 0 <= k < |at| ==> at[k] < |flags| && flags[at[k]])
    && (forall k, l :: 0 <= k < l < |at| ==> at[k] < at[l])
    && (forall i :: 0 <= i < |flags| && flags[i] ==> i in at)
  }

  /** The elements at the positions. */
  function Pick<T>(q: seq<T>, at: seq<nat>): (r: seq<T>)
    requires forall k :: 0 <= k < |at| ==> at[k] < |q|
  {
    seq(|at|, k requires 0 <= k < |at| => q[at[k]])
  }

  lemma MarksMore(at: seq<nat>, flags: seq<bool>, flag: bool)
    requires Marks(at, flags)
    ensures Marks(at + if flag then [|flags|] else [], flags + [flag])
  {
    var more := at + if flag then [|flags|] else [];
    forall i | 0 <= i < |flags| + 1 && (flags + [flag])[i]
      ensures i in more
    {
      if i < |flags| {
        assert i in at;
      } else {
        assert more[|at|] == i;
      }
    }
  }

  lemma PickMore<T>(q: seq<T>, at: seq<nat>, x: T, flag: bool)
    requires forall k :: 0 <= k < |at| ==> at[k] < |q|
    ensures Pick(q + [x], at + if flag then [|q|] else []) == Pick(q, at) + if flag then [x] else []
  {
  }
}
