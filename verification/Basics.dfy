// Definitions shared by the other modules: bytes, optional values, and the
// search that the Go standard library calls sort.Search.
module Basics {

  type byte = b: int | 0 <= b < 256

  type bytes = seq<byte>

  datatype Option<+T> = None | Some(value: T)

  const DOT: byte := 46
  const COLON: byte := 58

  /** The elements of `s`, last one first. */
  function Reversed<T>(s: seq<T>): (r: seq<T>)
    ensures |r| == |s|
    ensures forall k :: 0 <= k < |s| ==> r[k] == s[|s| - 1 - k]
  {
    seq(|s|, k requires 0 <= k < |s| => s[|s| - 1 - k])
  }

  lemma ReversedTwice<T>(s: seq<T>)
    ensures Reversed(Reversed(s)) == s
  {
  }

  lemma ReversedConcat<T>(a: seq<T>, b: seq<T>)
    ensures Reversed(a + b) == Reversed(b) + Reversed(a)
  {
  }

  /** The in-place reversal that the matcher applies to patterns and to sources. */
  method ReverseInPlace<T>(a: array<T>)
    modifies a
    ensures a[..] == Reversed(old(a[..]))
  {
    var i, j := 0, a.Length - 1;
    while i < j
      invariant 0 <= i <= a.Length && i + j == a.Length - 1
      invariant i <= j + 1
      invariant forall k :: 0 <= k < i ==> a[k] == old(a[a.Length - 1 - k]) && a[a.Length - 1 - k] == old(a[k])
      invariant forall k :: i <= k <= j ==> a[k] == old(a[k])
    {
      a[i], a[j] := a[j], a[i];
      i, j := i + 1, j - 1;
    }
  }

  /** An option that is not positive falls back to the service's, and then to the built-in one. */
  function Effective(option: int, service: int, builtIn: int): int {
    if option > 0 then option else if service > 0 then service else builtIn
  }

  /** Once `f` is true it stays true. */
  ghost predicate Ascending(n: nat, f: int -> bool) {
    forall i, j :: 0 <= i <= j < n && f(i) ==> f(j)
  }

  /** Binary search for the least index below `n` at which `f` is true, or `n`. */
  method Search(n: nat, f: int -> bool) returns (i: nat)
    requires Ascending(n, f)
    ensures i <= n
    ensures forall k :: 0 <= k < i ==> !f(k)
    ensures forall k :: i <= k < n ==> f(k)
  {
    var j := n;
    i := 0;
    while i < j
      invariant 0 <= i <= j <= n
      invariant forall k :: 0 <= k < i ==> !f(k)
      invariant forall k :: j <= k < n ==> f(k)
    {
      var h := (i + j) / 2;
      if !f(h) { i := h + 1; } else { j := h; }
    }
  }
}
