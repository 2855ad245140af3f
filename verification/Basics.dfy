/** Notions shared by the components of the bot: optional values and sequence suffixes. */
module Basics {

  datatype Option<+T> = None | Some(value: T)

  function Min(a: int, b: int): int {
    if a <= b then a else b
  }

  function Max(a: int, b: int): int {
    if a >= b then a else b
  }

  function MaxReal(a: real, b: real): real {
    if a >= b then a else b
  }

  function MinReal(a: real, b: real): real {
    if a <= b then a else b
  }

  /** The newest `n` elements of `s`, or all of it when it is shorter. */
  function LastN<T>(s: seq<T>, n: nat): (r: seq<T>)
    ensures |r| == Min(n, |s|)
  {
    if |s| <= n then s else s[|s| - n..]
  }

  ghost predicate IsSuffix<T>(t: seq<T>, s: seq<T>) {
    |t| <= |s| && t == s[|s| - |t|..]
  }

  ghost predicate Nondecreasing(s: seq<real>) {
    forall i, j :: 0 <= i < j < |s| ==> s[i] <= s[j]
  }

  ghost predicate Distinct<T>(s: seq<T>) {
    forall i, j :: 0 <= i < j < |s| ==> s[i] != s[j]
  }

  /** The first position of `x`. */
  function Position<T(==)>(s: seq<T>, x: T): (i: nat)
    requires x in s
    ensures i < |s| && s[i] == x && forall j :: 0 <= j < i ==> s[j] != x
  {
    if s[0] == x then 0 else 1 + Position(s[1..], x)
  }

  function Cut<T>(s: seq<T>, i: nat): seq<T>
    requires i < |s|
  {
    s[..i] + s[i + 1..]
  }

  function Dropped<T(==)>(s: seq<T>, x: T): seq<T> {
    if x in s then Cut(s, Position(s, x)) else s
  }

  lemma LastNIsSuffix<T>(s: seq<T>, n: nat)
    ensures IsSuffix(LastN(s, n), s)
  {
  }
}
