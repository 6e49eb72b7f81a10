/**
 What other tasks do while a method is between two of its atomic sections: they perform, in
 the given order, those actions that can happen; the rest are passed over.  `next` says where
 an action of theirs leads, or that it cannot happen now.
 */
module Interference {
  import opened Wrappers

  /** The state they lead to. */
  function Amid<S, A>(next: (S, A) -> Option<S>, s: S, acts: seq<A>): S {
    if acts == [] then s
    else
      var before := Amid(next, s, acts[..|acts| - 1]);
      var after := next(before, acts[|acts| - 1]);
      if after.Some? then after.value else before
  }

  /** The actions that happen. */
  function Taken<S, A>(next: (S, A) -> Option<S>, s: S, acts: seq<A>): seq<A> {
    if acts == [] then []
    else
      var n := |acts| - 1;
      Taken(next, s, acts[..n]) + if next(Amid(next, s, acts[..n]), acts[n]).Some? then [acts[n]] else []
  }

  lemma AmidNext<S, A>(next: (S, A) -> Option<S>, s: S, acts: seq<A>, k: nat)
    requires k < |acts|
    ensures var before := Amid(next, s, acts[..k]);
      var after := next(before, acts[k]);
      && Amid(next, s, acts[..k + 1]) == (if after.Some? then after.value else before)
      && Taken(next, s, acts[..k + 1]) == Taken(next, s, acts[..k]) + (if after.Some? then [acts[k]] else [])
  {
    assert acts[..k + 1][..k] == acts[..k];
  }
}
