/** Occurrences of one sequence in another, and strstr as the log-line scanners use it. */
module Strings {
  import opened Common

  predicate Occurs<T(==)>(hay: seq<T>, needle: seq<T>, p: int) {
    0 <= p <= |hay| - |needle| && hay[p..p + |needle|] == needle
  }

  /** The leftmost occurrence. */
  function Find(hay: string, needle: string): (r: Option<nat>)
    ensures r.Some? ==> Occurs(hay, needle, r.value)
    ensures forall q :: Occurs(hay, needle, q) ==> r.Some? && r.value <= q
  {
    FindFrom(hay, needle, 0)
  }

  function FindFrom(hay: string, needle: string, p: nat): (r: Option<nat>)
    requires p <= |hay|
    ensures r.Some? ==> Occurs(hay, needle, r.value)
    ensures forall q :: p <= q && Occurs(hay, needle, q) ==> r.Some? && r.value <= q
    decreases |hay| - p
  {
    if Occurs(hay, needle, p) then Some(p)
    else if p == |hay| then None
    else FindFrom(hay, needle, p + 1)
  }
}
