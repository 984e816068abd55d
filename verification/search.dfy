/**
 * "Try each candidate in order and stop at the first that works" — the shape
 * shared by the Electron version probe (commands), the mirror download loop
 * (URLs) and the installed-binary probe (paths).
 */
module Search {
  import opened Wrappers

  /** `xs[i]` is the first element of `xs` that satisfies `p`. */
  predicate IsFirst<T>(xs: seq<T>, p: T -> bool, i: int) {
    && 0 <= i < |xs|
    && p(xs[i])
    && forall j :: 0 <= j < i ==> !p(xs[j])
  }

  /** The index of the first element satisfying `p`, if any. */
  function FirstIndex<T>(xs: seq<T>, p: T -> bool): (r: Option<nat>)
    ensures r.Some? <==> exists i :: 0 <= i < |xs| && p(xs[i])
    ensures r.Some? ==> IsFirst(xs, p, r.value)
  {
    if |xs| == 0 then None
    else if p(xs[0]) then Some(0)
    else
      match FirstIndex(xs[1..], p)
      case None =>
        assert forall i :: 1 <= i < |xs| ==> xs[i] == xs[1..][i - 1];
        None
      case Some(k) =>
        assert forall j :: 1 <= j < k + 1 ==> xs[j] == xs[1..][j - 1];
        Some(k + 1)
  }

  /** An element known to be the first match is the one `FirstIndex` finds. */
  lemma FirstIndexFinds<T>(xs: seq<T>, p: T -> bool, i: nat)
    requires IsFirst(xs, p, i)
    ensures FirstIndex(xs, p) == Some(i)
  {
    assert FirstIndex(xs, p).Some?;
  }

  /** Outcome of trying candidates in order: which one worked and what was tried. */
  datatype Attempt<T> = Attempt(found: Option<T>, tried: seq<T>)

  /**
   * Tries the candidates left to right, stopping at the first success; the
   * candidates after it are never tried.
   */
  function TryInOrder<T>(xs: seq<T>, p: T -> bool): (r: Attempt<T>)
    ensures r.found.None? <==> forall i :: 0 <= i < |xs| ==> !p(xs[i])
    ensures r.found.None? ==> r.tried == xs
    ensures r.found.Some? ==> exists i :: IsFirst(xs, p, i) && r.found.value == xs[i] && r.tried == xs[..i + 1]
  {
    match FirstIndex(xs, p)
    case None => Attempt(None, xs)
    case Some(i) => Attempt(Some(xs[i]), xs[..i + 1])
  }
}
