/** Choosing from a sequence without changing the order. */
module Selection {

  /** `ys` is what stands in `xs` at the places `at`, which go up. */
  ghost predicate Places<T>(xs: seq<T>, ys: seq<T>, at: seq<nat>) {
    && |at| == |ys|
    && (forall k :: 0 <= k < |at| ==> at[k] < |xs| && ys[k] == xs[at[k]])
    && (forall j, k :: 0 <= j < k < |at| ==> at[j] < at[k])
  }

  lemma PlacesTaken<T>(xs: seq<T>, ys: seq<T>, at: seq<nat>, x: T)
    requires Places(xs, ys, at)
    ensures Places(xs + [x], ys + [x], at + [|xs|])
  {
  }

  lemma PlacesLeft<T>(xs: seq<T>, ys: seq<T>, at: seq<nat>, x: T)
    requires Places(xs, ys, at)
    ensures Places(xs + [x], ys, at)
  {
  }

  /** Choosing once more from what was chosen. */
  lemma PlacesOfPlaces<T>(xs: seq<T>, ys: seq<T>, zs: seq<T>, at: seq<nat>, next: seq<nat>) returns (both: seq<nat>)
    requires Places(xs, ys, at) && Places(ys, zs, next)
    ensures Places(xs, zs, both) && |both| == |next|
    ensures forall k :: 0 <= k < |next| ==> both[k] == at[next[k]]
  {
    both := seq(|next|, k requires 0 <= k < |next| => at[next[k]]);
  }
}
