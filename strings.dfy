/** String operations the Python code borrows from `str`. */
module Strings {
  import opened Wrappers

  /** Index of the last occurrence of `c` in `s` (what `str.rfind` reports), or None. */
  function LastIndexOf(s: string, c: char): (r: Option<nat>)
    ensures r.Some? ==> r.value < |s|
  {
    if |s| == 0 then None
    else if s[|s| - 1] == c then Some(|s| - 1)
    else LastIndexOf(s[..|s| - 1], c)
  }

  /** The index found holds `c` and nothing after it does; None means `c` does not occur. */
  lemma {:induction false} LastIndexOfSpec(s: string, c: char)
    ensures var r := LastIndexOf(s, c);
      && (r.None? <==> c !in s)
      && (r.Some? ==> r.value < |s| && s[r.value] == c && forall j :: r.value < j < |s| ==> s[j] != c)
  {
    if |s| > 0 && s[|s| - 1] != c {
      LastIndexOfSpec(s[..|s| - 1], c);
      assert s == s[..|s| - 1] + [s[|s| - 1]];
    }
  }

  /** No index is found when `c` does not occur. */
  lemma {:induction false} LastIndexOfMissing(s: string, c: char)
    requires c !in s
    ensures LastIndexOf(s, c) == None
  {
    if s != [] {
      assert forall x :: x in s[..|s| - 1] ==> x in s;
      LastIndexOfMissing(s[..|s| - 1], c);
    }
  }

  /** The last `c` of `a + [c] + b` is the one after `a` when `b` holds none. */
  lemma {:induction false} LastIndexOfAfter(a: string, c: char, b: string)
    requires c !in b
    ensures LastIndexOf(a + [c] + b, c) == Some(|a|)
  {
    var s := a + [c] + b;
    if b != [] {
      assert s[|s| - 1] == b[|b| - 1];
      assert s[..|s| - 1] == a + [c] + b[..|b| - 1];
      LastIndexOfAfter(a, c, b[..|b| - 1]);
    }
  }

  /** `s.replace(from, to)` for single characters: every `from` becomes `to`, nothing else moves. */
  function ReplaceAll(s: string, from: char, to: char): (r: string)
    ensures |r| == |s|
  {
    if s == [] then []
    else [if s[0] == from then to else s[0]] + ReplaceAll(s[1..], from, to)
  }

  /** Every `from` becomes `to`, nothing else moves. */
  lemma {:induction false} ReplaceAllAt(s: string, from: char, to: char)
    ensures forall i :: 0 <= i < |s| ==> ReplaceAll(s, from, to)[i] == if s[i] == from then to else s[i]
  {
    if s != [] {
      ReplaceAllAt(s[1..], from, to);
    }
  }

  lemma {:induction false} ReplaceAllAppend(a: string, b: string, from: char, to: char)
    ensures ReplaceAll(a + b, from, to) == ReplaceAll(a, from, to) + ReplaceAll(b, from, to)
  {
    var l, r := ReplaceAll(a + b, from, to), ReplaceAll(a, from, to) + ReplaceAll(b, from, to);
    ReplaceAllAt(a + b, from, to);
    ReplaceAllAt(a, from, to);
    ReplaceAllAt(b, from, to);
    assert |l| == |r|;
    forall i | 0 <= i < |l| ensures l[i] == r[i] {
      if i < |a| { assert (a + b)[i] == a[i]; } else { assert (a + b)[i] == b[i - |a|]; }
    }
  }

  /** Nothing changes when `from` does not occur. */
  lemma ReplaceAllMissing(s: string, from: char, to: char)
    requires from !in s
    ensures ReplaceAll(s, from, to) == s
  {
    ReplaceAllAt(s, from, to);
  }

  /** Replacing `from` by `to` and then `to` back by `from` is the identity when `to` did not occur. */
  lemma {:induction false} ReplaceAllInverse(s: string, from: char, to: char)
    requires to !in s
    ensures ReplaceAll(ReplaceAll(s, from, to), to, from) == s
  {
    var t := ReplaceAll(ReplaceAll(s, from, to), to, from);
    ReplaceAllAt(s, from, to);
    ReplaceAllAt(ReplaceAll(s, from, to), to, from);
    forall i | 0 <= i < |s| ensures t[i] == s[i] {
      assert s[i] != to;
    }
  }

  /** ASCII lower-casing of one character. */
  function LowerChar(c: char): char
  {
    if 'A' <= c <= 'Z' then (c as int + 32) as char else c
  }

  /** `str.lower()` on ASCII letters. */
  function Lower(s: string): (r: string)
    ensures |r| == |s|
    ensures forall i :: 0 <= i < |s| ==> r[i] == LowerChar(s[i])
  {
    if s == [] then [] else [LowerChar(s[0])] + Lower(s[1..])
  }

  lemma {:induction false} LowerIdempotent(s: string)
    ensures Lower(Lower(s)) == Lower(s)
  {
    var l := Lower(s);
    forall i | 0 <= i < |s| ensures Lower(l)[i] == l[i] {
      assert LowerChar(LowerChar(s[i])) == LowerChar(s[i]);
    }
  }

  /** Python's `s in t` for two strings: `s` occurs as a contiguous slice of `t`. */
  predicate IsSubstring(s: string, t: string)
  {
    s <= t || (t != [] && IsSubstring(s, t[1..]))
  }
}
