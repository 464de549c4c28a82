/** Searching and stripping in strings, as Python does it. */
module Strings {
  /** `p` occurs in `s` at index `i`. */
  predicate At(s: string, p: string, i: int) {
    0 <= i && i + |p| <= |s| && s[i..i + |p|] == p
  }

  ghost predicate Contains(s: string, p: string) {
    exists i :: At(s, p, i)
  }

  lemma AtTail(s: string, p: string)
    requires s != ""
    ensures forall j :: j > 0 ==> (At(s, p, j) <==> At(s[1..], p, j - 1))
  {
    forall j | j > 0 ensures At(s, p, j) <==> At(s[1..], p, j - 1) {
      if j + |p| <= |s| { SliceOfTail(s, j, j + |p|); }
    }
  }

  lemma SliceOfTail(s: string, a: nat, b: nat)
    requires 0 < a <= b <= |s|
    ensures s[1..][a - 1..b - 1] == s[a..b]
  {
  }

  /** `str.find`: the first index of `p`, or -1. */
  function Find(s: string, p: string): (i: int)
    ensures i >= 0 ==> At(s, p, i) && forall j :: 0 <= j < i ==> !At(s, p, j)
    ensures i < 0 ==> i == -1 && !Contains(s, p)
  {
    if |s| < |p| then -1
    else if s[..|p|] == p then 0
    else
      var i := Find(s[1..], p);
      AtTail(s, p);
      if i < 0 then -1 else i + 1
  }

  /** `str.endswith` */
  predicate EndsWith(s: string, p: string) {
    |p| <= |s| && s[|s| - |p|..] == p
  }

  function Concat(ss: seq<string>): string {
    if ss == [] then "" else ss[0] + Concat(ss[1..])
  }

  lemma {:induction false} ConcatLast(ss: seq<string>, s: string)
    ensures Concat(ss + [s]) == Concat(ss) + s
  {
    if ss == [] {
      assert ss + [s] == [s];
      assert Concat([s]) == s + Concat([]);
    } else {
      assert (ss + [s])[1..] == ss[1..] + [s];
      ConcatLast(ss[1..], s);
    }
  }

  lemma Assoc<T>(x: seq<T>, y: seq<T>, z: seq<T>)
    ensures x + (y + z) == x + y + z
  {
  }
}
