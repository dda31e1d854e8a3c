/** The few `java.lang.String` and `java.lang.Character` operations the core relies on,
    stated over `seq<char>`. Lower-casing is ASCII only (the locale-dependent and non-ASCII
    mappings of `toLowerCase` are not modelled); whitespace is `Character.isWhitespace`. */
module JavaString {
  import opened Wrappers

  /** `Character.isWhitespace`: the ASCII controls TAB..CR and FS..US, the space, and the
      Unicode space, line and paragraph separators except the three no-break spaces. */
  predicate IsWhitespace(c: char) {
    var n := c as int;
    (9 <= n <= 13) || (28 <= n <= 32) || n == 0x1680 || (0x2000 <= n <= 0x2006)
    || (0x2008 <= n <= 0x200A) || n == 0x2028 || n == 0x2029 || n == 0x205F || n == 0x3000
  }

  /** `String.isBlank`: the string is empty or holds only whitespace. */
  predicate AllWhitespace(s: string)
    ensures AllWhitespace(s) <==> forall i :: 0 <= i < |s| ==> IsWhitespace(s[i])
  {
    s == [] || (IsWhitespace(s[0]) && AllWhitespace(s[1..]))
  }

  /** Characters `String.trim` strips: code points up to and including the space. */
  predicate IsTrimmable(c: char) {
    c <= ' '
  }

  /** Drops the leading trimmable characters. */
  function TrimStart(s: string): (r: string)
    ensures |r| <= |s| && r == s[|s| - |r|..]
    ensures r == [] || !IsTrimmable(r[0])
    ensures forall k :: 0 <= k < |s| - |r| ==> IsTrimmable(s[k])
  {
    if s != [] && IsTrimmable(s[0]) then TrimStart(s[1..]) else s
  }

  /** Drops the trailing trimmable characters. */
  function TrimEnd(s: string): (r: string)
    ensures |r| <= |s| && r == s[..|r|]
    ensures r == [] || !IsTrimmable(r[|r| - 1])
    ensures forall k :: |r| <= k < |s| ==> IsTrimmable(s[k])
  {
    if s != [] && IsTrimmable(s[|s| - 1]) then TrimEnd(s[..|s| - 1]) else s
  }

  /** `String.trim`: the input with its maximal runs of trimmable characters removed at both
      ends. */
  function Trim(s: string): (r: string)
    ensures |r| <= |s|
    ensures r == [] || (!IsTrimmable(r[0]) && !IsTrimmable(r[|r| - 1]))
    ensures exists a :: StrippedAt(s, a, r)
  {
    var front := TrimStart(s);
    TrimEnds(s, front, TrimEnd(front));
    TrimEnd(front)
  }

  /** Stripping the end of a stripped start strips exactly the characters before and after the
      result. */
  lemma TrimEnds(s: string, front: string, r: string)
    requires |front| <= |s| && front == s[|s| - |front|..] && forall k :: 0 <= k < |s| - |front| ==> IsTrimmable(s[k])
    requires |r| <= |front| && r == front[..|r|] && forall k :: |r| <= k < |front| ==> IsTrimmable(front[k])
    ensures StrippedAt(s, |s| - |front|, r)
  {
    var a := |s| - |front|;
    assert r == s[a..a + |r|];
    assert forall k :: a + |r| <= k < |s| ==> s[k] == front[k - a];
  }

  /** `r` is `s` with `a` trimmable characters removed in front and all the characters after
      `r` trimmable. */
  predicate StrippedAt(s: string, a: nat, r: string) {
    a + |r| <= |s| && r == s[a..a + |r|] &&
    (forall k :: 0 <= k < a ==> IsTrimmable(s[k])) &&
    (forall k :: a + |r| <= k < |s| ==> IsTrimmable(s[k]))
  }

  /** A string without trimmable characters at either end is its own trim. */
  lemma TrimUntrimmed(s: string)
    requires s == [] || (!IsTrimmable(s[0]) && !IsTrimmable(s[|s| - 1]))
    ensures Trim(s) == s
  {
    assert TrimStart(s) == s;
  }

  lemma TrimIdempotent(s: string)
    ensures Trim(Trim(s)) == Trim(s)
  {
    var t := Trim(s);
    assert t == [] || !IsTrimmable(t[0]);
    assert TrimStart(t) == t;
    assert t == [] || !IsTrimmable(t[|t| - 1]);
    assert TrimEnd(t) == t;
  }

  /** ASCII `Character.toLowerCase`. */
  function LowerChar(c: char): char {
    if 'A' <= c <= 'Z' then (c as int + 32) as char else c
  }

  /** `String.toLowerCase`, ASCII letters only. */
  function ToLower(s: string): (r: string)
    ensures |r| == |s|
    ensures forall i :: 0 <= i < |s| ==> r[i] == LowerChar(s[i])
  {
    seq(|s|, i requires 0 <= i < |s| => LowerChar(s[i]))
  }

  lemma ToLowerIdempotent(s: string)
    ensures ToLower(ToLower(s)) == ToLower(s)
  {
  }

  /** `t.startsWith(p, i)`: false when `p` would run past the end of `t`. */
  predicate StartsWithAt(t: string, i: nat, p: string) {
    i + |p| <= |t| && t[i..i + |p|] == p
  }

  /** A string starts with `p` at `i` only if its character there is the first of `p`. */
  lemma NotStartsWithAt(t: string, i: nat, p: string)
    requires |p| > 0 && i < |t| && t[i] != p[0]
    ensures !StartsWithAt(t, i, p)
  {
    if i + |p| <= |t| {
      assert t[i..i + |p|][0] == t[i];
    }
  }

  /** `s.indexOf(d, from)`, with `None` for -1. */
  function IndexOfFrom(s: string, d: string, from: nat): (r: Option<nat>)
    ensures r.Some? ==> from <= r.value && StartsWithAt(s, r.value, d)
    ensures r.Some? ==> forall j :: from <= j < r.value ==> !StartsWithAt(s, j, d)
    ensures r.None? ==> forall j :: from <= j ==> !StartsWithAt(s, j, d)
    decreases |s| - from
  {
    if from + |d| > |s| then None
    else if StartsWithAt(s, from, d) then Some(from)
    else IndexOfFrom(s, d, from + 1)
  }

  /** `s.indexOf(d)`: the first occurrence of `d` in `s`. */
  function IndexOf(s: string, d: string): Option<nat> {
    IndexOfFrom(s, d, 0)
  }

  /** `s.contains(p)`. */
  predicate Contains(s: string, p: string) {
    IndexOf(s, p).Some?
  }

  /** A string none of whose characters begins `d` does not contain `d`. */
  lemma IndexOfAbsent(s: string, d: string)
    requires |d| > 0 && forall x :: 0 <= x < |s| ==> s[x] != d[0]
    ensures IndexOf(s, d).None?
  {
    forall j: nat | j < |s|
      ensures !StartsWithAt(s, j, d)
    {
      NotStartsWithAt(s, j, d);
    }
  }

  /** The first occurrence of `d` is at `i` when `d` starts there and no earlier character
      begins `d`. */
  lemma IndexOfAt(s: string, d: string, i: nat)
    requires |d| > 0 && StartsWithAt(s, i, d) && forall x :: 0 <= x < i ==> s[x] != d[0]
    ensures IndexOf(s, d) == Some(i)
  {
    forall j: nat | j < i
      ensures !StartsWithAt(s, j, d)
    {
      NotStartsWithAt(s, j, d);
    }
  }

  lemma ContainsAt(s: string, p: string, i: nat)
    requires StartsWithAt(s, i, p)
    ensures Contains(s, p)
  {
  }
}
