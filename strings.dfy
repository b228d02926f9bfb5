/**
 * Text operations that the generator borrows from JavaScript's String
 * and Array prototypes: `slice(0, n)`, `includes`, `join`, ASCII
 * `toLowerCase` and `replace` with a string pattern.
 */
module Strings {

  /** `s.slice(0, n)` for a non-negative `n`: the first `n` elements, or all of `s`. */
  function Take<T>(s: seq<T>, n: nat): (r: seq<T>)
    ensures |r| == if n < |s| then n else |s|
    ensures r == s[..|r|]
  {
    if n < |s| then s[..n] else s
  }

  /** Concatenation is associative (stated once so that callers need not re-prove it on literals). */
  lemma AppendAssoc<T>(x: seq<T>, y: seq<T>, z: seq<T>)
    ensures x + (y + z) == (x + y) + z
  {
  }

  predicate IsPrefix<T(==)>(p: seq<T>, s: seq<T>) {
    |p| <= |s| && s[..|p|] == p
  }

  /** `s.includes(p)`: `p` occurs somewhere in `s` (the empty string occurs everywhere). */
  predicate Includes(s: string, p: string)
    decreases |s|
  {
    IsPrefix(p, s) || (|s| > 0 && Includes(s[1..], p))
  }

  /** An occurrence of `p` at any position `k` makes `s.includes(p)` true. */
  lemma {:induction false} IncludesAt(s: string, p: string, k: nat)
    requires k <= |s| && IsPrefix(p, s[k..])
    ensures Includes(s, p)
    decreases k
  {
    if k > 0 {
      assert s[1..][k - 1..] == s[k..];
      IncludesAt(s[1..], p, k - 1);
    }
  }

  /** A string built around `p` includes `p`. */
  lemma IncludesInfix(a: string, p: string, b: string)
    ensures Includes(a + p + b, p)
  {
    var s := a + p + b;
    assert s[|a|..][..|p|] == p;
    IncludesAt(s, p, |a|);
  }

  /** `parts.join(sep)`. */
  function Join(parts: seq<string>, sep: string): string
    decreases |parts|
  {
    if |parts| == 0 then ""
    else if |parts| == 1 then parts[0]
    else parts[0] + sep + Join(parts[1..], sep)
  }

  function TotalLength(parts: seq<string>): nat
    decreases |parts|
  {
    if |parts| == 0 then 0 else |parts[0]| + TotalLength(parts[1..])
  }

  /** Joining n parts inserts exactly n - 1 separators and nothing else. */
  lemma {:induction false} JoinLength(parts: seq<string>, sep: string)
    requires |parts| >= 1
    ensures |Join(parts, sep)| == TotalLength(parts) + (|parts| - 1) * |sep|
    decreases |parts|
  {
    if |parts| > 1 {
      JoinLength(parts[1..], sep);
      calc {
        |Join(parts, sep)|;
        |parts[0]| + |sep| + |Join(parts[1..], sep)|;
        |parts[0]| + |sep| + TotalLength(parts[1..]) + (|parts| - 2) * |sep|;
        { assert (|parts| - 2) * |sep| + |sep| == (|parts| - 1) * |sep|; }
        TotalLength(parts) + (|parts| - 1) * |sep|;
      }
    }
  }

  predicate IsUpperAscii(c: char) { 'A' <= c <= 'Z' }

  function LowerChar(c: char): char {
    if IsUpperAscii(c) then (c as int + 32) as char else c
  }

  /** `s.toLowerCase()` restricted to the ASCII letters A-Z. */
  function LowerAscii(s: string): (r: string)
    ensures |r| == |s|
    ensures forall i :: 0 <= i < |s| ==> r[i] == LowerChar(s[i])
  {
    seq(|s|, i requires 0 <= i < |s| => LowerChar(s[i]))
  }

  /** A string with no upper-case ASCII letter is its own lower-case form. */
  lemma LowerAsciiIdentity(s: string)
    requires forall i :: 0 <= i < |s| ==> !IsUpperAscii(s[i])
    ensures LowerAscii(s) == s
  {
  }

  /**
   * `s.replace(pat, rep)` with a string pattern: only the first occurrence
   * of `pat` is replaced; a string without one comes back unchanged.
   */
  function ReplaceFirst(s: string, pat: string, rep: string): string
    decreases |s|
  {
    if IsPrefix(pat, s) then rep + s[|pat|..]
    else if |s| == 0 then s
    else [s[0]] + ReplaceFirst(s[1..], pat, rep)
  }

  /** No occurrence of `pat` starts before position `k` of `s`. */
  predicate NoMatchBefore(s: string, pat: string, k: nat)
    requires k <= |s|
  {
    forall i :: 0 <= i < k ==> !IsPrefix(pat, s[i..])
  }

  /**
   * The first occurrence of `pat` is the one replaced: when it starts at `k`,
   * the text before `k` and after the occurrence are kept as they are.
   */
  lemma {:induction false} ReplaceFirstAt(s: string, pat: string, rep: string, k: nat)
    requires k + |pat| <= |s|
    requires IsPrefix(pat, s[k..])
    requires NoMatchBefore(s, pat, k)
    ensures ReplaceFirst(s, pat, rep) == s[..k] + rep + s[k + |pat|..]
    decreases k
  {
    if k == 0 {
      ReplaceFirstHere(s, pat, rep);
    } else {
      NoMatchShift(s, pat, k);
      ReplaceFirstSkip(s, pat, rep);
      ReplaceFirstAt(s[1..], pat, rep, k - 1);
      ShiftJoin(s, rep, k, |pat|);
    }
  }

  lemma ReplaceFirstSkip(s: string, pat: string, rep: string)
    requires |s| > 0 && !IsPrefix(pat, s)
    ensures ReplaceFirst(s, pat, rep) == [s[0]] + ReplaceFirst(s[1..], pat, rep)
  {
  }

  lemma ReplaceFirstHere(s: string, pat: string, rep: string)
    requires |pat| <= |s| && IsPrefix(pat, s[0..])
    ensures ReplaceFirst(s, pat, rep) == s[..0] + rep + s[0 + |pat|..]
  {
    assert s[0..] == s && s[..0] == [];
  }

  /** Moving one character on: the head is no match, and the rest keeps the match and the gap before it. */
  lemma NoMatchShift(s: string, pat: string, k: nat)
    requires 0 < k && k + |pat| <= |s|
    requires IsPrefix(pat, s[k..])
    requires NoMatchBefore(s, pat, k)
    ensures !IsPrefix(pat, s)
    ensures IsPrefix(pat, s[1..][k - 1..])
    ensures NoMatchBefore(s[1..], pat, k - 1)
  {
    assert s[0..] == s;
    var t := s[1..];
    assert t[k - 1..] == s[k..];
    forall i | 0 <= i < k - 1
      ensures !IsPrefix(pat, t[i..])
    {
      assert t[i..] == s[i + 1..];
    }
  }

  lemma ShiftJoin(s: string, rep: string, k: nat, n: nat)
    requires 0 < k && k + n <= |s|
    ensures [s[0]] + (s[1..][..k - 1] + rep + s[1..][k - 1 + n..]) == s[..k] + rep + s[k + n..]
  {
    var t := s[1..];
    assert [s[0]] + t[..k - 1] == s[..k];
    assert t[k - 1 + n..] == s[k + n..];
  }

  /** A string that does not include `pat` is left unchanged. */
  lemma {:induction false} ReplaceFirstAbsent(s: string, pat: string, rep: string)
    requires !Includes(s, pat)
    ensures ReplaceFirst(s, pat, rep) == s
    decreases |s|
  {
    if |s| > 0 {
      ReplaceFirstAbsent(s[1..], pat, rep);
    }
  }

  /** An occurrence position witnessing `s.includes(p)`. */
  lemma {:induction false} IncludesWitness(s: string, p: string) returns (k: nat)
    requires Includes(s, p)
    ensures k + |p| <= |s| && s[k..k + |p|] == p
    decreases |s|
  {
    if IsPrefix(p, s) {
      k := 0;
    } else {
      var j := IncludesWitness(s[1..], p);
      k := j + 1;
      assert s[1..][j..j + |p|] == s[k..k + |p|];
    }
  }

  /** Inclusion is transitive: a string inside a string inside `s` is inside `s`. */
  lemma IncludesTrans(s: string, p: string, q: string)
    requires Includes(s, p) && Includes(p, q)
    ensures Includes(s, q)
  {
    var i := IncludesWitness(s, p);
    var j := IncludesWitness(p, q);
    forall t | 0 <= t < |q| ensures s[i + j..][t] == q[t] {
      assert s[i + j + t] == s[i..i + |p|][j + t];
      assert q[t] == p[j..j + |q|][t];
    }
    assert s[i + j..][..|q|] == q;
    IncludesAt(s, q, i + j);
  }

  /** Each part of a join stands between some prefix and some suffix of the result. */
  lemma {:induction false} JoinSplit(parts: seq<string>, sep: string, i: nat) returns (pre: string, post: string)
    requires i < |parts|
    ensures Join(parts, sep) == pre + parts[i] + post
    decreases |parts|
  {
    if |parts| == 1 {
      pre, post := "", "";
    } else if i == 0 {
      pre, post := "", sep + Join(parts[1..], sep);
    } else {
      var p, q := JoinSplit(parts[1..], sep, i - 1);
      pre, post := parts[0] + sep + p, q;
    }
  }

  /** `parts.join(sep).includes(parts[i])`. */
  lemma JoinIncludes(parts: seq<string>, sep: string, i: nat)
    requires i < |parts|
    ensures Includes(Join(parts, sep), parts[i])
  {
    var pre, post := JoinSplit(parts, sep, i);
    IncludesInfix(pre, parts[i], post);
  }

  /** A part of a join stays included when the join is framed by a head and a tail. */
  lemma FramedJoinIncludes(head: string, parts: seq<string>, sep: string, tail: string, i: nat)
    requires i < |parts|
    ensures Includes(head + Join(parts, sep) + tail, parts[i])
  {
    var pre, post := JoinSplit(parts, sep, i);
    assert head + Join(parts, sep) + tail == (head + pre) + parts[i] + (post + tail);
    IncludesInfix(head + pre, parts[i], post + tail);
  }
}
