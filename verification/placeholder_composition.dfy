/** How the scan of `DefaultPlaceholder` composes: a token anywhere in a template, under any
    buffer and any number of open tokens, is resolved where its suffix is read and the scan goes
    on after it; a token whose text holds further tokens resolves them first; an escaped prefix
    stays literal wherever it stands; and the unresolved set of a whole scan is the union of
    what its tokens record, so one missing key anywhere empties the result. */
module PlaceholderComposition {
  import opened Wrappers
  import opened JavaString
  import opened PropertySources
  import opened DefaultPlaceholder
  import opened PlaceholderProperties

  // ---------------------------------------------------------------------------------------
  // Steps over any buffer and stack

  /** `a + b` at `i` is `a` at `i` followed by `b`. */
  lemma {:induction false} SliceHalves(t: string, i: nat, a: string, b: string)
    requires i + |a + b| <= |t| && t[i..i + |a + b|] == a + b
    ensures t[i..i + |a|] == a && t[i + |a|..i + |a| + |b|] == b
  {
    assert t[i..i + |a|] == (a + b)[..|a|];
    assert t[i + |a|..i + |a + b|] == (a + b)[|a|..];
  }

  /** As `SliceHalves`, and character by character for `b`. */
  lemma {:induction false} SliceSplit(t: string, i: nat, a: string, b: string)
    requires i + |a + b| <= |t| && t[i..i + |a + b|] == a + b
    ensures t[i..i + |a|] == a && t[i + |a|..i + |a + b|] == b
    ensures forall x :: i + |a| <= x < i + |a + b| ==> t[x] == b[x - i - |a|]
  {
    SliceHalves(t, i, a, b);
  }

  /** An unescaped prefix followed by plain `lead` opens a token where the buffer ends and
      copies `lead` after the prefix. */
  lemma {:induction false} OpenLead(g: Grammar, sources: seq<Source>, t: string, i: nat, lead: string,
                 buf: string, stack: seq<nat>, inRes: set<string>, unres: set<string>, depth: nat)
    requires WellFormed(g) && Plain(g, lead)
    requires StackFits(stack, |buf|, |g.prefix|) && !IsEscapedPrefix(g, t, i)
    requires i + |g.prefix + lead| <= |t| && t[i..i + |g.prefix + lead|] == g.prefix + lead
    ensures StackFits(stack + [|buf|], |buf + g.prefix + lead|, |g.prefix|)
    ensures ScanFrom(g, sources, t, i, buf, stack, inRes, unres, depth) ==
            ScanFrom(g, sources, t, i + |g.prefix + lead|, buf + g.prefix + lead, stack + [|buf|], inRes, unres, depth)
  {
    var p, l := |g.prefix|, |lead|;
    SliceSplit(t, i, g.prefix, lead);
    OpenStep(g, sources, t, i, buf, stack, inRes, unres, depth);
    forall x | i + p <= x < i + p + l
      ensures t[x] != g.prefix[0] && t[x] != g.suffix[0]
    {
      assert t[x] == lead[x - i - p];
    }
    CopyRun(g, sources, t, i + p, i + p + l, buf + g.prefix, stack + [|buf|], inRes, unres, depth);
  }

  /** The suffix at `k` closes the token opened at the end of `buf`: the text after its prefix
      is resolved and takes the token's place. */
  lemma {:induction false} CloseAt(g: Grammar, sources: seq<Source>, t: string, k: nat, text: string,
                buf: string, stack: seq<nat>, inRes: set<string>, unres: set<string>, depth: nat)
    requires WellFormed(g) && g.prefix[0] != g.suffix[0]
    requires StackFits(stack + [|buf|], |buf + g.prefix + text|, |g.prefix|)
    requires k + |g.suffix| <= |t| && t[k..k + |g.suffix|] == g.suffix
    ensures var r := PlaceholderResolution(g, sources, text, inRes, unres, depth);
      (r.Scanned? ==> StackFits(stack, |buf + r.text|, |g.prefix|)) &&
      ScanFrom(g, sources, t, k, buf + g.prefix + text, stack + [|buf|], inRes, unres, depth) ==
        if r.Aborted? then r
        else ScanFrom(g, sources, t, k + |g.suffix|, buf + r.text, stack, inRes, r.unresolved, depth)
  {
    assert t[k] == t[k..k + |g.suffix|][0];
    NotStartsWithAt(t, k, g.prefix);
    var b := buf + g.prefix + text;
    assert b[|buf| + |g.prefix|..] == text && b[..|buf|] == buf;
    assert (stack + [|buf|])[..|stack|] == stack;
    CloseStep(g, sources, t, k, b, stack + [|buf|], inRes, unres, depth);
  }

  /** A token whose text is `lead` followed by nested tokens. Once the scan inside it has
      rewritten the nested part to `inner` and arrived at the closing suffix at `k`, the token
      resolves the text `lead + inner`: the nested tokens are resolved first, and their results
      become part of the outer key. The buffer and the tokens open around it are untouched. */
  lemma {:induction false} WrappedStep(g: Grammar, sources: seq<Source>, t: string, i: nat, lead: string, k: nat, inner: string,
                    buf: string, stack: seq<nat>, inRes: set<string>, unres: set<string>, unres': set<string>,
                    depth: nat)
    requires WellFormed(g) && g.prefix[0] != g.suffix[0] && Plain(g, lead)
    requires StackFits(stack, |buf|, |g.prefix|) && !IsEscapedPrefix(g, t, i)
    requires i + |g.prefix + lead| <= |t| && t[i..i + |g.prefix + lead|] == g.prefix + lead
    requires k + |g.suffix| <= |t| && t[k..k + |g.suffix|] == g.suffix
    requires StackFits(stack + [|buf|], |buf + g.prefix + lead|, |g.prefix|)
    requires StackFits(stack + [|buf|], |buf + g.prefix + lead + inner|, |g.prefix|)
    requires i + |g.prefix + lead| <= k
    requires ScanFrom(g, sources, t, i + |g.prefix + lead|, buf + g.prefix + lead, stack + [|buf|], inRes, unres, depth) ==
             ScanFrom(g, sources, t, k, buf + g.prefix + lead + inner, stack + [|buf|], inRes, unres', depth)
    ensures var r := PlaceholderResolution(g, sources, lead + inner, inRes, unres', depth);
      (r.Scanned? ==> StackFits(stack, |buf + r.text|, |g.prefix|)) &&
      ScanFrom(g, sources, t, i, buf, stack, inRes, unres, depth) ==
        if r.Aborted? then r
        else ScanFrom(g, sources, t, k + |g.suffix|, buf + r.text, stack, inRes, r.unresolved, depth)
  {
    var r := PlaceholderResolution(g, sources, lead + inner, inRes, unres', depth);
    CloseAt(g, sources, t, k, lead + inner, buf, stack, inRes, unres', depth);
    calc {
      ScanFrom(g, sources, t, i, buf, stack, inRes, unres, depth);
      { OpenLead(g, sources, t, i, lead, buf, stack, inRes, unres, depth); }
      ScanFrom(g, sources, t, i + |g.prefix + lead|, buf + g.prefix + lead, stack + [|buf|], inRes, unres, depth);
      ScanFrom(g, sources, t, k, buf + g.prefix + lead + inner, stack + [|buf|], inRes, unres', depth);
      { assert buf + g.prefix + lead + inner == buf + g.prefix + (lead + inner); }
      ScanFrom(g, sources, t, k, buf + g.prefix + (lead + inner), stack + [|buf|], inRes, unres', depth);
    }
  }

  /** A whole token `prefix raw suffix` at `i`, not escaped and holding no further token: the
      buffer gains the token's resolution and the scan goes on after the suffix, under whatever
      tokens were open. */
  lemma {:induction false} TokenStep(g: Grammar, sources: seq<Source>, t: string, i: nat, raw: string, buf: string, stack: seq<nat>,
                  inRes: set<string>, unres: set<string>, depth: nat)
    requires WellFormed(g) && g.prefix[0] != g.suffix[0] && Plain(g, raw)
    requires StackFits(stack, |buf|, |g.prefix|) && !IsEscapedPrefix(g, t, i)
    requires i + |g.prefix + raw| + |g.suffix| <= |t| && t[i..i + |g.prefix + raw|] == g.prefix + raw
    requires t[i + |g.prefix + raw|..i + |g.prefix + raw| + |g.suffix|] == g.suffix
    ensures var r := PlaceholderResolution(g, sources, raw, inRes, unres, depth);
      (r.Scanned? ==> StackFits(stack, |buf + r.text|, |g.prefix|)) &&
      ScanFrom(g, sources, t, i, buf, stack, inRes, unres, depth) ==
        if r.Aborted? then r
        else ScanFrom(g, sources, t, i + |g.prefix + raw| + |g.suffix|, buf + r.text, stack, inRes, r.unresolved, depth)
  {
    OpenLead(g, sources, t, i, raw, buf, stack, inRes, unres, depth);
    CloseAt(g, sources, t, i + |g.prefix + raw|, raw, buf, stack, inRes, unres, depth);
  }

  /** An escaped prefix anywhere: the escape character is copied and then replaced by the
      prefix, which stays literal text; no token opens. */
  lemma {:induction false} EscapedPrefixStep(g: Grammar, sources: seq<Source>, t: string, i: nat, buf: string, stack: seq<nat>,
                          inRes: set<string>, unres: set<string>, depth: nat)
    requires WellFormed(g) && Plain(g, [g.escapeChar]) && StackFits(stack, |buf|, |g.prefix|)
    requires i + |[g.escapeChar] + g.prefix| <= |t| && t[i..i + |[g.escapeChar] + g.prefix|] == [g.escapeChar] + g.prefix
    ensures StackFits(stack, |buf + g.prefix|, |g.prefix|)
    ensures ScanFrom(g, sources, t, i, buf, stack, inRes, unres, depth) ==
            ScanFrom(g, sources, t, i + 1 + |g.prefix|, buf + g.prefix, stack, inRes, unres, depth)
  {
    SliceSplit(t, i, [g.escapeChar], g.prefix);
    assert t[i] == t[i..i + 1][0];
    CopyRun(g, sources, t, i, i + 1, buf, stack, inRes, unres, depth);
    var b := buf + t[i..i + 1];
    assert b == buf + [g.escapeChar];
    assert IsEscapedPrefix(g, t, i + 1);
    EscapeStep(g, sources, t, i + 1, b, stack, inRes, unres, depth);
    assert b[..|b| - 1] == buf;
  }

  // ---------------------------------------------------------------------------------------
  // The unresolved set is a union

  /** A scan's result with `earlier` added to its unresolved set. */
  function AddUnresolved(r: Scan, earlier: set<string>): Scan {
    match r
    case Scanned(text, unresolved) => Scanned(text, earlier + unresolved)
    case Aborted(_) => r
  }

  /** The unresolved set a scan starts with never changes its course: the text, the aborts and
      the keys it records are those of a scan started with nothing recorded, and the final set
      is the union of the two. */
  lemma {:induction false} ScanFromUnion(g: Grammar, sources: seq<Source>, t: string, i: nat, buf: string,
                                         stack: seq<nat>, inRes: set<string>, unres: set<string>, depth: nat)
    requires WellFormed(g) && i <= |t| && StackFits(stack, |buf|, |g.prefix|)
    ensures ScanFrom(g, sources, t, i, buf, stack, inRes, unres, depth) ==
            AddUnresolved(ScanFrom(g, sources, t, i, buf, stack, inRes, {}, depth), unres)
    decreases depth, 2, |t| - i, 1
  {
    if i == |t| {
      assert unres + {} == unres;
    } else if IsEscapedPrefix(g, t, i) {
      if buf != [] {
        StackFitsGrow(stack, |buf|, |buf| - 1 + |g.prefix|, |g.prefix|);
        ScanFromUnion(g, sources, t, i + |g.prefix|, buf[..|buf| - 1] + g.prefix, stack, inRes, unres, depth);
      }
    } else if IsStartOfPlaceholder(g, t, i) {
      StackFitsPush(stack, |buf|, |g.prefix|);
      ScanFromUnion(g, sources, t, i + |g.prefix|, buf + g.prefix, stack + [|buf|], inRes, unres, depth);
    } else if IsEndOfPlaceholder(g, t, i, stack) {
      CloseUnion(g, sources, t, i, buf, stack, inRes, unres, depth);
    } else {
      StackFitsGrow(stack, |buf|, |buf| + 1, |g.prefix|);
      ScanFromUnion(g, sources, t, i + 1, buf + [t[i]], stack, inRes, unres, depth);
    }
  }

  /** The closing suffix: the token adds its keys to the set it is given, and the rest of the
      scan adds its own to that. */
  lemma {:induction false} CloseUnion(g: Grammar, sources: seq<Source>, t: string, i: nat, buf: string,
                                      stack: seq<nat>, inRes: set<string>, unres: set<string>, depth: nat)
    requires WellFormed(g) && i < |t| && StackFits(stack, |buf|, |g.prefix|)
    requires !IsEscapedPrefix(g, t, i) && !IsStartOfPlaceholder(g, t, i) && IsEndOfPlaceholder(g, t, i, stack)
    ensures ScanFrom(g, sources, t, i, buf, stack, inRes, unres, depth) ==
            AddUnresolved(ScanFrom(g, sources, t, i, buf, stack, inRes, {}, depth), unres)
    decreases depth, 2, |t| - i, 0
  {
    var start := stack[|stack| - 1];
    StackFitsPop(stack, |buf|, start, |g.prefix|);
    var raw := buf[start + |g.prefix|..];
    PlaceholderUnion(g, sources, raw, inRes, unres, depth);
    match PlaceholderResolution(g, sources, raw, inRes, {}, depth)
    case Aborted(_) =>
    case Scanned(text, found) =>
      StackFitsPop(stack, |buf|, start + |text|, |g.prefix|);
      var next, rest := buf[..start] + text, stack[..|stack| - 1];
      ScanFromUnion(g, sources, t, i + |g.suffix|, next, rest, inRes, unres + found, depth);
      ScanFromUnion(g, sources, t, i + |g.suffix|, next, rest, inRes, found, depth);
      var tail := ScanFrom(g, sources, t, i + |g.suffix|, next, rest, inRes, {}, depth);
      if tail.Scanned? {
        assert unres + found + tail.unresolved == unres + (found + tail.unresolved);
      }
  }

  lemma {:induction false} PlaceholderUnion(g: Grammar, sources: seq<Source>, raw: string,
                                            inRes: set<string>, unres: set<string>, depth: nat)
    requires WellFormed(g)
    ensures PlaceholderResolution(g, sources, raw, inRes, unres, depth) ==
            AddUnresolved(PlaceholderResolution(g, sources, raw, inRes, {}, depth), unres)
    decreases depth, 1, 0, 0
  {
    var (key, fallback) := SplitPlaceholder(raw, g.delimiter);
    if key !in inRes {
      KeyUnion(g, sources, key, fallback, inRes + {key}, unres, depth);
    }
  }

  lemma {:induction false} KeyUnion(g: Grammar, sources: seq<Source>, key: string, fallback: Option<string>,
                                    inRes: set<string>, unres: set<string>, depth: nat)
    requires WellFormed(g)
    ensures KeyResolution(g, sources, key, fallback, inRes, unres, depth) ==
            AddUnresolved(KeyResolution(g, sources, key, fallback, inRes, {}, depth), unres)
    decreases depth, 0, 0, 0
  {
    match Lookup(key, sources)
    case Some(value) =>
      if depth > 0 {
        ScanFromUnion(g, sources, value, 0, [], [], inRes, unres, depth - 1);
      }
    case None =>
      match fallback
      case Some(f) =>
        if depth > 0 {
          ScanFromUnion(g, sources, f, 0, [], [], inRes, unres, depth - 1);
        }
      case None =>
        assert unres + ({} + {key}) == unres + {key};
  }

  // ---------------------------------------------------------------------------------------
  // All or nothing

  /** A token whose key no source has and which has no fallback is recorded, and what is
      recorded stays: a scan that meets it ends with the key in its unresolved set, wherever the
      token stands and however many tokens are open around it. */
  lemma {:induction false} MissingTokenRecorded(g: Grammar, sources: seq<Source>, t: string, i: nat, key: string, buf: string,
                             stack: seq<nat>, inRes: set<string>, unres: set<string>, depth: nat)
    requires WellFormed(g) && g.prefix[0] != g.suffix[0] && Plain(g, key) && !Contains(key, g.delimiter)
    requires StackFits(stack, |buf|, |g.prefix|) && !IsEscapedPrefix(g, t, i)
    requires i + |g.prefix + key| + |g.suffix| <= |t| && t[i..i + |g.prefix + key|] == g.prefix + key
    requires t[i + |g.prefix + key|..i + |g.prefix + key| + |g.suffix|] == g.suffix
    requires key !in inRes && Lookup(key, sources).None?
    ensures var r := ScanFrom(g, sources, t, i, buf, stack, inRes, unres, depth);
      r.Scanned? ==> key in r.unresolved
  {
    TokenStep(g, sources, t, i, key, buf, stack, inRes, unres, depth);
    MissingKeyReEmitted(g, sources, key, inRes, unres, depth);
    var text := g.prefix + key + g.suffix;
    ScanFromRecordsOnlyMissingKeys(g, sources, t, i + |g.prefix + key| + |g.suffix|, buf + text, stack, inRes, unres + {key}, depth);
  }

  /** `replaceIfAllResolvable` returns nothing once the scan of the template has reached a
      token whose key no source has and which has no fallback: the result is empty, or the call
      throws; it is never present. */
  lemma {:induction false} MissingTokenEmptiesResult(p: Placeholder, t: string, i: nat, key: string, buf: string,
                                  stack: seq<nat>, unres: set<string>, depth: nat)
    requires WellFormed(p.grammar) && p.grammar.prefix[0] != p.grammar.suffix[0] && p.sources != []
    requires Plain(p.grammar, key) && !Contains(key, p.grammar.delimiter) && Lookup(key, p.sources).None?
    requires StackFits(stack, |buf|, |p.grammar.prefix|) && !IsEscapedPrefix(p.grammar, t, i)
    requires i + |p.grammar.prefix + key| + |p.grammar.suffix| <= |t|
    requires t[i..i + |p.grammar.prefix + key|] == p.grammar.prefix + key
    requires t[i + |p.grammar.prefix + key|..i + |p.grammar.prefix + key| + |p.grammar.suffix|] == p.grammar.suffix
    requires Replaced(p.grammar, p.sources, t, {}, {}, depth) ==
             ScanFrom(p.grammar, p.sources, t, i, buf, stack, {}, unres, depth)
    requires !AllWhitespace(t)
    ensures var r := Interpolation(p, Some(t), None, depth);
      r == Unresolvable || r.CircularReference? || r.Thrown?
  {
    var g := p.grammar;
    var r := Replaced(g, p.sources, t, {}, {}, depth);
    assert r.Scanned? ==> r.unresolved != {} by {
      MissingTokenRecorded(g, p.sources, t, i, key, buf, stack, {}, unres, depth);
    }
    assert Contains(t, g.prefix) by {
      SliceHalves(t, i, g.prefix, key);
      ContainsAt(t, g.prefix, i);
    }
    IncompleteInterpolation(p, t, depth);
  }

  /** A template that is neither blank nor free of the prefix, whose scan over the engine's own
      sources aborts or leaves a key unresolved, yields no string. */
  lemma {:induction false} IncompleteInterpolation(p: Placeholder, t: string, depth: nat)
    requires WellFormed(p.grammar) && p.sources != []
    requires !AllWhitespace(t) && Contains(t, p.grammar.prefix)
    requires var r := Replaced(p.grammar, p.sources, t, {}, {}, depth); r.Scanned? ==> r.unresolved != {}
    ensures var r := Interpolation(p, Some(t), None, depth);
      r == Unresolvable || r.CircularReference? || r.Thrown?
  {
    ScannedVerdict(p, t, depth);
    IncompleteVerdict(Replaced(p.grammar, p.sources, t, {}, {}, depth));
  }

  /** A scan that aborts or leaves a key unresolved never yields a resolved string. */
  lemma {:induction false} IncompleteVerdict(s: Scan)
    requires s.Scanned? ==> s.unresolved != {}
    ensures var v := Verdict(s); v == Unresolvable || v.CircularReference? || v.Thrown?
  {
  }

  /** A template that is neither blank nor free of the prefix gets the verdict of its scan
      over the engine's own sources. */
  lemma {:induction false} ScannedVerdict(p: Placeholder, t: string, depth: nat)
    requires WellFormed(p.grammar) && p.sources != []
    requires !AllWhitespace(t) && Contains(t, p.grammar.prefix)
    ensures Interpolation(p, Some(t), None, depth) == Verdict(Replaced(p.grammar, p.sources, t, {}, {}, depth))
  {
    assert !IsVerbatim(p.grammar, t);
    assert MergeSources(p.sources, None) == Success(p.sources);
  }

  // ---------------------------------------------------------------------------------------
  // Templates written as pieces

  /** A key without the delimiter that a source has, whose value holds no prefix, resolves to
      that value and records nothing. */
  lemma {:induction false} FoundTokenResolves(g: Grammar, sources: seq<Source>, raw: string, value: string,
                           inRes: set<string>, unres: set<string>, depth: nat)
    requires WellFormed(g) && !Contains(raw, g.delimiter) && raw !in inRes && depth > 0
    requires Lookup(raw, sources) == Some(value) && !Contains(value, g.prefix)
    ensures PlaceholderResolution(g, sources, raw, inRes, unres, depth) == Scanned(value, unres)
  {
    assert SplitPlaceholder(raw, g.delimiter) == (raw, None);
    FoundValueWins(g, sources, raw, None, inRes + {raw}, unres, depth);
  }

  /** Where the pieces of `front + a + b + c + rest` stand. */
  lemma {:induction false} PieceSlices(front: string, a: string, b: string, c: string, rest: string)
    ensures var t := front + a + b + c + rest; var i := |front|;
      t[..i] == front && i + |a + b| + |c| <= |t| && t[i..i + |a + b|] == a + b &&
      t[i + |a + b|..i + |a + b| + |c|] == c
  {
    var t := front + a + b + c + rest;
    var i := |front|;
    assert t == front + (a + b) + c + rest;
    assert t[i..i + |a + b|] == a + b;
  }

  /** A whole token at `i` whose key a source has, with a value free of the prefix: the value
      takes the token's place. */
  lemma {:induction false} FoundStep(g: Grammar, sources: seq<Source>, t: string, i: nat, raw: string, value: string, buf: string,
                  stack: seq<nat>, inRes: set<string>, unres: set<string>, depth: nat)
    requires WellFormed(g) && g.prefix[0] != g.suffix[0] && Plain(g, raw)
    requires StackFits(stack, |buf|, |g.prefix|) && !IsEscapedPrefix(g, t, i)
    requires i + |g.prefix + raw| + |g.suffix| <= |t| && t[i..i + |g.prefix + raw|] == g.prefix + raw
    requires t[i + |g.prefix + raw|..i + |g.prefix + raw| + |g.suffix|] == g.suffix
    requires !Contains(raw, g.delimiter) && raw !in inRes && depth > 0
    requires Lookup(raw, sources) == Some(value) && !Contains(value, g.prefix)
    ensures StackFits(stack, |buf + value|, |g.prefix|)
    ensures ScanFrom(g, sources, t, i, buf, stack, inRes, unres, depth) ==
            ScanFrom(g, sources, t, i + |g.prefix + raw| + |g.suffix|, buf + value, stack, inRes, unres, depth)
  {
    FoundTokenResolves(g, sources, raw, value, inRes, unres, depth);
    TokenStep(g, sources, t, i, raw, buf, stack, inRes, unres, depth);
  }

  /** As `WrappedStep`, where a source has the key `lead + inner` and its value is free of the
      prefix: the value takes the place of the whole token. */
  lemma {:induction false} WrappedFoundStep(g: Grammar, sources: seq<Source>, t: string, i: nat, lead: string, k: nat, inner: string,
                         value: string, buf: string, stack: seq<nat>, inRes: set<string>, unres: set<string>,
                         unres': set<string>, depth: nat)
    requires WellFormed(g) && g.prefix[0] != g.suffix[0] && Plain(g, lead)
    requires StackFits(stack, |buf|, |g.prefix|) && !IsEscapedPrefix(g, t, i)
    requires i + |g.prefix + lead| <= |t| && t[i..i + |g.prefix + lead|] == g.prefix + lead
    requires k + |g.suffix| <= |t| && t[k..k + |g.suffix|] == g.suffix
    requires StackFits(stack + [|buf|], |buf + g.prefix + lead|, |g.prefix|)
    requires StackFits(stack + [|buf|], |buf + g.prefix + lead + inner|, |g.prefix|)
    requires i + |g.prefix + lead| <= k
    requires ScanFrom(g, sources, t, i + |g.prefix + lead|, buf + g.prefix + lead, stack + [|buf|], inRes, unres, depth) ==
             ScanFrom(g, sources, t, k, buf + g.prefix + lead + inner, stack + [|buf|], inRes, unres', depth)
    requires !Contains(lead + inner, g.delimiter) && lead + inner !in inRes && depth > 0
    requires Lookup(lead + inner, sources) == Some(value) && !Contains(value, g.prefix)
    ensures StackFits(stack, |buf + value|, |g.prefix|)
    ensures ScanFrom(g, sources, t, i, buf, stack, inRes, unres, depth) ==
            ScanFrom(g, sources, t, k + |g.suffix|, buf + value, stack, inRes, unres', depth)
  {
    FoundTokenResolves(g, sources, lead + inner, value, inRes, unres', depth);
    WrappedStep(g, sources, t, i, lead, k, inner, buf, stack, inRes, unres, unres', depth);
  }

  /** A token, then any text: the scan goes on after the token, and the keys the whole template
      leaves unresolved are those of the token together with those of the rest. */
  lemma {:induction false} TokenThenRest(g: Grammar, sources: seq<Source>, lead: string, raw: string, rest: string,
                                         depth: nat)
    requires WellFormed(g) && g.prefix[0] != g.suffix[0] && Plain(g, lead) && Plain(g, raw)
    requires lead == [] || lead[|lead| - 1] != g.escapeChar
    ensures var t := lead + g.prefix + raw + g.suffix + rest;
      var r := PlaceholderResolution(g, sources, raw, {}, {}, depth);
      Replaced(g, sources, t, {}, {}, depth) ==
        if r.Aborted? then r
        else AddUnresolved(ScanFrom(g, sources, t, |lead| + |g.prefix + raw| + |g.suffix|, lead + r.text, [], {}, {}, depth),
                           r.unresolved)
  {
    var t := lead + g.prefix + raw + g.suffix + rest;
    PieceSlices(lead, g.prefix, raw, g.suffix, rest);
    LeadThenToken(g, sources, t, lead, raw, depth);
  }

  /** `TokenThenRest` where the template is known only by where its pieces stand. */
  lemma {:induction false} LeadThenToken(g: Grammar, sources: seq<Source>, t: string, lead: string, raw: string,
                                         depth: nat)
    requires WellFormed(g) && g.prefix[0] != g.suffix[0] && Plain(g, lead) && Plain(g, raw)
    requires |lead| <= |t| && t[..|lead|] == lead && (lead == [] || lead[|lead| - 1] != g.escapeChar)
    requires var i := |lead|;
      i + |g.prefix + raw| + |g.suffix| <= |t| && t[i..i + |g.prefix + raw|] == g.prefix + raw &&
      t[i + |g.prefix + raw|..i + |g.prefix + raw| + |g.suffix|] == g.suffix
    ensures var r := PlaceholderResolution(g, sources, raw, {}, {}, depth);
      Replaced(g, sources, t, {}, {}, depth) ==
        if r.Aborted? then r
        else AddUnresolved(ScanFrom(g, sources, t, |lead| + |g.prefix + raw| + |g.suffix|, lead + r.text, [], {}, {}, depth),
                           r.unresolved)
  {
    var r := PlaceholderResolution(g, sources, raw, {}, {}, depth);
    LeadCopied(g, sources, t, lead, {}, {}, depth);
    assert !IsEscapedPrefix(g, t, |lead|) by {
      if lead != [] {
        assert t[|lead| - 1] == t[..|lead|][|lead| - 1];
      }
    }
    TokenStep(g, sources, t, |lead|, raw, lead, [], {}, {}, depth);
    if r.Scanned? {
      ScanFromUnion(g, sources, t, |lead| + |g.prefix + raw| + |g.suffix|, lead + r.text, [], {}, r.unresolved, depth);
    }
  }

  /** `FoundStep` on a template written as pieces: at the end of `front`, a whole token whose
      key a source has is replaced by its value. */
  lemma {:induction false} FoundPiece(g: Grammar, sources: seq<Source>, t: string, front: string, raw: string,
                                      value: string, rest: string, buf: string, stack: seq<nat>, inRes: set<string>,
                                      unres: set<string>, depth: nat)
    requires t == front + g.prefix + raw + g.suffix + rest
    requires WellFormed(g) && g.prefix[0] != g.suffix[0] && Plain(g, raw)
    requires front == [] || front[|front| - 1] != g.escapeChar
    requires StackFits(stack, |buf|, |g.prefix|)
    requires !Contains(raw, g.delimiter) && raw !in inRes && depth > 0
    requires Lookup(raw, sources) == Some(value) && !Contains(value, g.prefix)
    ensures StackFits(stack, |buf + value|, |g.prefix|)
    ensures ScanFrom(g, sources, t, |front|, buf, stack, inRes, unres, depth) ==
      ScanFrom(g, sources, t, |front + g.prefix + raw + g.suffix|, buf + value, stack, inRes, unres, depth)
  {
    PieceSlices(front, g.prefix, raw, g.suffix, rest);
    UnescapedAfter(g, t, front);
    FoundStepTo(g, sources, t, |front|, |front + g.prefix + raw + g.suffix|, raw, value, buf, stack, inRes, unres, depth);
  }

  /** `FoundStep` with the position after the token given by name. */
  lemma {:induction false} FoundStepTo(g: Grammar, sources: seq<Source>, t: string, i: nat, j: nat, raw: string,
                                       value: string, buf: string, stack: seq<nat>, inRes: set<string>,
                                       unres: set<string>, depth: nat)
    requires WellFormed(g) && g.prefix[0] != g.suffix[0] && Plain(g, raw)
    requires StackFits(stack, |buf|, |g.prefix|) && !IsEscapedPrefix(g, t, i)
    requires j == i + |g.prefix + raw| + |g.suffix| && j <= |t| && t[i..i + |g.prefix + raw|] == g.prefix + raw
    requires t[i + |g.prefix + raw|..j] == g.suffix
    requires !Contains(raw, g.delimiter) && raw !in inRes && depth > 0
    requires Lookup(raw, sources) == Some(value) && !Contains(value, g.prefix)
    ensures StackFits(stack, |buf + value|, |g.prefix|)
    ensures ScanFrom(g, sources, t, i, buf, stack, inRes, unres, depth) ==
            ScanFrom(g, sources, t, j, buf + value, stack, inRes, unres, depth)
  {
    FoundStep(g, sources, t, i, raw, value, buf, stack, inRes, unres, depth);
  }

  /** `CopyRun` on a template written as pieces: plain `mid` after `front` is copied. */
  lemma {:induction false} PlainPiece(g: Grammar, sources: seq<Source>, t: string, front: string, mid: string,
                                      rest: string, buf: string, stack: seq<nat>, inRes: set<string>, unres: set<string>,
                                      depth: nat)
    requires t == front + mid + rest
    requires WellFormed(g) && Plain(g, mid) && StackFits(stack, |buf|, |g.prefix|)
    ensures StackFits(stack, |buf + mid|, |g.prefix|)
    ensures ScanFrom(g, sources, t, |front|, buf, stack, inRes, unres, depth) ==
            ScanFrom(g, sources, t, |front + mid|, buf + mid, stack, inRes, unres, depth)
  {
    SliceOfMiddle(t, front, mid, rest);
    CopyRun(g, sources, t, |front|, |front + mid|, buf, stack, inRes, unres, depth);
  }

  /** `EscapedPrefixStep` on a template written as pieces: an escape character and a prefix
      after `front` leave the prefix in the text. */
  lemma {:induction false} EscapedPiece(g: Grammar, sources: seq<Source>, t: string, front: string, rest: string,
                                        buf: string, stack: seq<nat>, inRes: set<string>, unres: set<string>, depth: nat)
    requires t == front + ([g.escapeChar] + g.prefix) + rest
    requires WellFormed(g) && Plain(g, [g.escapeChar]) && StackFits(stack, |buf|, |g.prefix|)
    ensures StackFits(stack, |buf + g.prefix|, |g.prefix|)
    ensures ScanFrom(g, sources, t, |front|, buf, stack, inRes, unres, depth) ==
            ScanFrom(g, sources, t, |front + [g.escapeChar] + g.prefix|, buf + g.prefix, stack, inRes, unres, depth)
  {
    SliceOfMiddle(t, front, [g.escapeChar] + g.prefix, rest);
    EscapedStepTo(g, sources, t, |front|, |front + [g.escapeChar] + g.prefix|, buf, stack, inRes, unres, depth);
  }

  /** `EscapedPrefixStep` with the position after the prefix given by name. */
  lemma {:induction false} EscapedStepTo(g: Grammar, sources: seq<Source>, t: string, i: nat, j: nat, buf: string,
                                         stack: seq<nat>, inRes: set<string>, unres: set<string>, depth: nat)
    requires WellFormed(g) && Plain(g, [g.escapeChar]) && StackFits(stack, |buf|, |g.prefix|)
    requires j == i + 1 + |g.prefix|
    requires i + |[g.escapeChar] + g.prefix| <= |t| && t[i..i + |[g.escapeChar] + g.prefix|] == [g.escapeChar] + g.prefix
    ensures StackFits(stack, |buf + g.prefix|, |g.prefix|)
    ensures ScanFrom(g, sources, t, i, buf, stack, inRes, unres, depth) ==
            ScanFrom(g, sources, t, j, buf + g.prefix, stack, inRes, unres, depth)
  {
    EscapedPrefixStep(g, sources, t, i, buf, stack, inRes, unres, depth);
  }

  /** A prefix right after `front` is not escaped when `front` does not end with the escape
      character. */
  lemma UnescapedAfter(g: Grammar, t: string, front: string)
    requires |front| <= |t| && t[..|front|] == front && (front == [] || front[|front| - 1] != g.escapeChar)
    ensures !IsEscapedPrefix(g, t, |front|)
  {
    if front != [] {
      assert t[|front| - 1] == t[..|front|][|front| - 1];
    }
  }

  lemma SliceOfMiddle(t: string, front: string, mid: string, rest: string)
    requires t == front + mid + rest
    ensures |front| + |mid| <= |t| && t[|front|..|front| + |mid|] == mid
  {
  }

  /** `lead${k1}mid${k2}tail` read as two tokens: plain text around them, plain keys without
      the delimiter, and no escape character right before either prefix. */
  predicate TwoTokenShape(g: Grammar, lead: string, k1: string, mid: string, k2: string, tail: string)
    requires WellFormed(g)
  {
    g.prefix[0] != g.suffix[0] &&
    Plain(g, lead) && lead != [] && !IsWhitespace(lead[0]) && lead[|lead| - 1] != g.escapeChar &&
    Plain(g, mid) && mid != [] && mid[|mid| - 1] != g.escapeChar &&
    (forall x :: 0 <= x < |tail| ==> tail[x] != g.prefix[0]) &&
    Plain(g, k1) && !Contains(k1, g.delimiter) && Plain(g, k2) && !Contains(k2, g.delimiter)
  }

  /** `lead${k1}mid${k2}tail` with both keys found: each value, when it holds no prefix,
      replaces its token, and the result is present. */
  lemma {:induction false} TwoTokenTemplate(p: Placeholder, t: string, lead: string, k1: string, mid: string,
                                            k2: string, tail: string, depth: nat)
    requires t == lead + p.grammar.prefix + k1 + p.grammar.suffix + mid + p.grammar.prefix + k2 + p.grammar.suffix + tail
    requires WellFormed(p.grammar) && TwoTokenShape(p.grammar, lead, k1, mid, k2, tail) && p.sources != [] && depth > 0
    requires Lookup(k1, p.sources).Some? && !Contains(Lookup(k1, p.sources).value, p.grammar.prefix)
    requires Lookup(k2, p.sources).Some? && !Contains(Lookup(k2, p.sources).value, p.grammar.prefix)
    ensures Interpolation(p, Some(t), None, depth) ==
            Resolved(lead + Lookup(k1, p.sources).value + mid + Lookup(k2, p.sources).value + tail)
  {
    var g, sources := p.grammar, p.sources;
    var v1, v2 := Lookup(k1, sources).value, Lookup(k2, sources).value;
    var front := lead + g.prefix + k1 + g.suffix + mid + g.prefix + k2 + g.suffix;
    TwoTokenPieces(t, lead, g.prefix, k1, g.suffix, mid, k2, tail);
    TwoFoundTokens(g, sources, t, lead, k1, v1, mid, k2, v2, tail, depth);
    TailCopied(g, sources, front, tail, lead + v1 + mid + v2, {}, {}, depth);
    NotBlankAfter(t, lead);
    ContainsAt(t, g.prefix, |lead|);
    ScannedVerdict(p, t, depth);
  }

  /** The ways `TwoTokenTemplate` reads its template. */
  lemma TwoTokenPieces(t: string, lead: string, p: string, k1: string, s: string, mid: string, k2: string,
                       tail: string)
    requires t == lead + p + k1 + s + mid + p + k2 + s + tail
    ensures t == lead + p + k1 + s + (mid + (p + k2 + s + tail))
    ensures t == lead + p + k1 + s + mid + (p + k2 + s + tail)
    ensures |lead| <= |t| && t[..|lead|] == lead
    ensures |lead| + |p| <= |t| && t[|lead|..|lead| + |p|] == p
  {
    assert t == lead + p + (k1 + s + mid + p + k2 + s + tail);
  }

  /** A template whose first character is not whitespace is not blank. */
  lemma NotBlankAfter(t: string, lead: string)
    requires lead != [] && !IsWhitespace(lead[0]) && |lead| <= |t| && t[..|lead|] == lead
    ensures !AllWhitespace(t)
  {
    assert t[0] == t[..|lead|][0];
  }

  /** Two tokens whose keys the sources have, separated by plain `mid`: the scan copies `lead`,
      replaces the first token, copies `mid` and replaces the second, recording nothing. */
  lemma {:induction false} TwoFoundTokens(g: Grammar, sources: seq<Source>, t: string, lead: string, k1: string,
                                          v1: string, mid: string, k2: string, v2: string, rest: string,
                                          depth: nat)
    requires t == lead + g.prefix + k1 + g.suffix + (mid + (g.prefix + k2 + g.suffix + rest))
    requires t == lead + g.prefix + k1 + g.suffix + mid + (g.prefix + k2 + g.suffix + rest)
    requires t == lead + g.prefix + k1 + g.suffix + mid + g.prefix + k2 + g.suffix + rest
    requires WellFormed(g) && g.prefix[0] != g.suffix[0] && depth > 0
    requires Plain(g, lead) && (lead == [] || lead[|lead| - 1] != g.escapeChar)
    requires Plain(g, mid) && mid != [] && mid[|mid| - 1] != g.escapeChar
    requires Plain(g, k1) && !Contains(k1, g.delimiter) && Lookup(k1, sources) == Some(v1) && !Contains(v1, g.prefix)
    requires Plain(g, k2) && !Contains(k2, g.delimiter) && Lookup(k2, sources) == Some(v2) && !Contains(v2, g.prefix)
    ensures Replaced(g, sources, t, {}, {}, depth) ==
            ScanFrom(g, sources, t, |lead + g.prefix + k1 + g.suffix + mid + g.prefix + k2 + g.suffix|,
                     lead + v1 + mid + v2, [], {}, {}, depth)
  {
    LeadOf(t, lead, g.prefix + k1 + g.suffix + (mid + (g.prefix + k2 + g.suffix + rest)));
    LeadCopied(g, sources, t, lead, {}, {}, depth);
    FirstTokenThenMid(g, sources, t, lead, k1, v1, mid, g.prefix + k2 + g.suffix + rest, depth);
    var front := lead + g.prefix + k1 + g.suffix + mid;
    assert front[|front| - 1] == mid[|mid| - 1];
    FoundPiece(g, sources, t, front, k2, v2, rest, lead + v1 + mid, [], {}, {}, depth);
  }

  /** The first half of `TwoFoundTokens`: the first token is replaced and `mid` copied. */
  lemma {:induction false} FirstTokenThenMid(g: Grammar, sources: seq<Source>, t: string, lead: string, k1: string,
                                             v1: string, mid: string, second: string, depth: nat)
    requires t == lead + g.prefix + k1 + g.suffix + (mid + second)
    requires t == lead + g.prefix + k1 + g.suffix + mid + second
    requires WellFormed(g) && g.prefix[0] != g.suffix[0] && depth > 0
    requires lead == [] || lead[|lead| - 1] != g.escapeChar
    requires Plain(g, mid)
    requires Plain(g, k1) && !Contains(k1, g.delimiter) && Lookup(k1, sources) == Some(v1) && !Contains(v1, g.prefix)
    ensures ScanFrom(g, sources, t, |lead|, lead, [], {}, {}, depth) ==
            ScanFrom(g, sources, t, |lead + g.prefix + k1 + g.suffix + mid|, lead + v1 + mid, [], {}, {}, depth)
  {
    FoundPiece(g, sources, t, lead, k1, v1, mid + second, lead, [], {}, {}, depth);
    PlainPiece(g, sources, t, lead + g.prefix + k1 + g.suffix, mid, second, lead + v1, [], {}, {}, depth);
  }

  lemma LeadOf(t: string, lead: string, rest: string)
    requires t == lead + rest
    ensures |lead| <= |t| && t[..|lead|] == lead
  {
  }

  /** `lead${key}mid\${tail` with the key found: the value replaces the token and the escaped
      prefix is kept without its escape character, and the result is present. */
  lemma {:induction false} EscapedAfterTokenTemplate(p: Placeholder, t: string, lead: string, key: string,
                                                     mid: string, tail: string, depth: nat)
    requires t == lead + p.grammar.prefix + key + p.grammar.suffix + mid + [p.grammar.escapeChar] + p.grammar.prefix + tail
    requires WellFormed(p.grammar) && p.sources != [] && depth > 0
    requires TwoTokenShape(p.grammar, lead, key, mid, key, tail) && Plain(p.grammar, [p.grammar.escapeChar])
    requires Lookup(key, p.sources).Some? && !Contains(Lookup(key, p.sources).value, p.grammar.prefix)
    ensures Interpolation(p, Some(t), None, depth) ==
            Resolved(lead + Lookup(key, p.sources).value + mid + p.grammar.prefix + tail)
  {
    var g, sources := p.grammar, p.sources;
    var v := Lookup(key, sources).value;
    var front := lead + g.prefix + key + g.suffix + mid + [g.escapeChar] + g.prefix;
    EscapedPieces(t, lead, g.prefix, key, g.suffix, mid, [g.escapeChar], tail);
    TokenThenEscaped(g, sources, t, lead, key, v, mid, tail, depth);
    TailCopied(g, sources, front, tail, lead + v + mid + g.prefix, {}, {}, depth);
    NotBlankAfter(t, lead);
    ContainsAt(t, g.prefix, |lead|);
    ScannedVerdict(p, t, depth);
  }

  /** The scan of `EscapedAfterTokenTemplate` up to the tail. */
  lemma {:induction false} TokenThenEscaped(g: Grammar, sources: seq<Source>, t: string, lead: string, key: string,
                                            value: string, mid: string, tail: string, depth: nat)
    requires t == lead + g.prefix + key + g.suffix + (mid + ([g.escapeChar] + g.prefix + tail))
    requires t == lead + g.prefix + key + g.suffix + mid + ([g.escapeChar] + g.prefix + tail)
    requires t == lead + g.prefix + key + g.suffix + mid + ([g.escapeChar] + g.prefix) + tail
    requires |lead| <= |t| && t[..|lead|] == lead
    requires WellFormed(g) && g.prefix[0] != g.suffix[0] && depth > 0 && Plain(g, [g.escapeChar])
    requires Plain(g, lead) && (lead == [] || lead[|lead| - 1] != g.escapeChar) && Plain(g, mid)
    requires Plain(g, key) && !Contains(key, g.delimiter) && Lookup(key, sources) == Some(value)
    requires !Contains(value, g.prefix)
    ensures Replaced(g, sources, t, {}, {}, depth) ==
            ScanFrom(g, sources, t, |lead + g.prefix + key + g.suffix + mid + [g.escapeChar] + g.prefix|,
                     lead + value + mid + g.prefix, [], {}, {}, depth)
  {
    LeadCopied(g, sources, t, lead, {}, {}, depth);
    FirstTokenThenMid(g, sources, t, lead, key, value, mid, [g.escapeChar] + g.prefix + tail, depth);
    EscapedPiece(g, sources, t, lead + g.prefix + key + g.suffix + mid, tail, lead + value + mid, [], {}, {}, depth);
  }

  /** The ways `EscapedAfterTokenTemplate` reads its template. */
  lemma EscapedPieces(t: string, lead: string, p: string, key: string, s: string, mid: string, e: string,
                      tail: string)
    requires t == lead + p + key + s + mid + e + p + tail
    ensures t == lead + p + key + s + (mid + (e + p + tail))
    ensures t == lead + p + key + s + mid + (e + p + tail)
    ensures t == lead + p + key + s + mid + (e + p) + tail
    ensures |lead| <= |t| && t[..|lead|] == lead
    ensures |lead| + |p| <= |t| && t[|lead|..|lead| + |p|] == p
  {
    assert t == lead + p + (key + s + mid + e + p + tail);
  }

  /** `WrappedFoundStep` with the positions given by name. */
  lemma {:induction false} WrappedAt(g: Grammar, sources: seq<Source>, t: string, i: nat, j: nat, k: nat, e: nat,
                                     lead: string, inner: string, value: string, buf: string, stack: seq<nat>,
                                     inRes: set<string>, unres: set<string>, unres': set<string>, depth: nat)
    requires WellFormed(g) && g.prefix[0] != g.suffix[0] && Plain(g, lead)
    requires StackFits(stack, |buf|, |g.prefix|) && !IsEscapedPrefix(g, t, i)
    requires j == i + |g.prefix + lead| && j <= |t| && t[i..j] == g.prefix + lead
    requires e == k + |g.suffix| && e <= |t| && t[k..e] == g.suffix
    requires ScanFrom(g, sources, t, j, buf + g.prefix + lead, stack + [|buf|], inRes, unres, depth) ==
             ScanFrom(g, sources, t, k, buf + g.prefix + lead + inner, stack + [|buf|], inRes, unres', depth)
    requires !Contains(lead + inner, g.delimiter) && lead + inner !in inRes && depth > 0
    requires Lookup(lead + inner, sources) == Some(value) && !Contains(value, g.prefix)
    ensures StackFits(stack, |buf + value|, |g.prefix|)
    ensures ScanFrom(g, sources, t, i, buf, stack, inRes, unres, depth) ==
            ScanFrom(g, sources, t, e, buf + value, stack, inRes, unres', depth)
  {
    OpenLeadTo(g, sources, t, i, j, lead, buf, stack, inRes, unres, depth);
    FoundCloseTo(g, sources, t, k, e, lead, inner, value, buf, stack, inRes, unres', depth);
  }

  /** `OpenLead` with the position after `lead` given by name. */
  lemma {:induction false} OpenLeadTo(g: Grammar, sources: seq<Source>, t: string, i: nat, j: nat, lead: string,
                                      buf: string, stack: seq<nat>, inRes: set<string>, unres: set<string>,
                                      depth: nat)
    requires WellFormed(g) && Plain(g, lead)
    requires StackFits(stack, |buf|, |g.prefix|) && !IsEscapedPrefix(g, t, i)
    requires j == i + |g.prefix + lead| && j <= |t| && t[i..j] == g.prefix + lead
    ensures StackFits(stack + [|buf|], |buf + g.prefix + lead|, |g.prefix|)
    ensures ScanFrom(g, sources, t, i, buf, stack, inRes, unres, depth) ==
            ScanFrom(g, sources, t, j, buf + g.prefix + lead, stack + [|buf|], inRes, unres, depth)
  {
    OpenLead(g, sources, t, i, lead, buf, stack, inRes, unres, depth);
  }

  /** `CloseAt` for a key `lead + inner` a source has, with the position after the suffix given
      by name. */
  lemma {:induction false} FoundCloseTo(g: Grammar, sources: seq<Source>, t: string, k: nat, e: nat, lead: string,
                                        inner: string, value: string, buf: string, stack: seq<nat>,
                                        inRes: set<string>, unres: set<string>, depth: nat)
    requires WellFormed(g) && g.prefix[0] != g.suffix[0]
    requires StackFits(stack + [|buf|], |buf + g.prefix + lead|, |g.prefix|)
    requires e == k + |g.suffix| && e <= |t| && t[k..e] == g.suffix
    requires !Contains(lead + inner, g.delimiter) && lead + inner !in inRes && depth > 0
    requires Lookup(lead + inner, sources) == Some(value) && !Contains(value, g.prefix)
    ensures StackFits(stack, |buf + value|, |g.prefix|)
    ensures ScanFrom(g, sources, t, k, buf + g.prefix + lead + inner, stack + [|buf|], inRes, unres, depth) ==
            ScanFrom(g, sources, t, e, buf + value, stack, inRes, unres, depth)
  {
    assert buf + g.prefix + lead + inner == buf + g.prefix + (lead + inner);
    StackFitsGrow(stack + [|buf|], |buf + g.prefix + lead|, |buf + g.prefix + (lead + inner)|, |g.prefix|);
    FoundTokenResolves(g, sources, lead + inner, value, inRes, unres, depth);
    CloseAt(g, sources, t, k, lead + inner, buf, stack, inRes, unres, depth);
  }

  /** `CopyRun` over plain `mid` between two positions given by name. */
  lemma {:induction false} PlainAt(g: Grammar, sources: seq<Source>, t: string, i: nat, j: nat, mid: string,
                                   buf: string, stack: seq<nat>, inRes: set<string>, unres: set<string>,
                                   depth: nat)
    requires WellFormed(g) && Plain(g, mid) && StackFits(stack, |buf|, |g.prefix|)
    requires j == i + |mid| && j <= |t| && t[i..j] == mid
    ensures StackFits(stack, |buf + mid|, |g.prefix|)
    ensures ScanFrom(g, sources, t, i, buf, stack, inRes, unres, depth) ==
            ScanFrom(g, sources, t, j, buf + mid, stack, inRes, unres, depth)
  {
    forall x | i <= x < j
      ensures t[x] != g.prefix[0] && t[x] != g.suffix[0]
    {
      assert t[x] == t[i..j][x - i];
    }
    CopyRun(g, sources, t, i, j, buf, stack, inRes, unres, depth);
  }

  /** Where the pieces of a prefix `front + a + b` of `t` stand. */
  lemma PrefixPieces(t: string, front: string, a: string, b: string)
    requires |front + a + b| <= |t| && t[..|front + a + b|] == front + a + b
    ensures |front| <= |t| && t[..|front|] == front
    ensures t[|front|..|front| + |a + b|] == a + b && t[|front|..|front| + |a|] == a
    ensures t[|front + a|..|front + a + b|] == b
  {
    assert t[..|front|] == (front + a + b)[..|front|];
    assert t[|front|..|front| + |a + b|] == (front + a + b)[|front|..];
    assert t[|front|..|front| + |a|] == (front + a + b)[|front|..|front| + |a|];
    assert t[|front + a|..|front + a + b|] == (front + a + b)[|front + a|..];
  }

  /** Where the two pieces of a prefix `front + a` of `t` stand. */
  lemma PrefixOf(t: string, front: string, a: string)
    requires |front + a| <= |t| && t[..|front + a|] == front + a
    ensures |front| <= |t| && t[..|front|] == front && t[|front|..|front + a|] == a
  {
    assert t[..|front|] == (front + a)[..|front|];
    assert t[|front|..|front + a|] == (front + a)[|front|..];
  }
}
