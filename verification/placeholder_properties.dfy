/** What the placeholder engine guarantees, proved about the specification functions of
    `DefaultPlaceholder` (and hence, through the methods' postconditions, about the imperative
    engine). */
module PlaceholderProperties {
  import opened Wrappers
  import opened Exceptions
  import opened JavaString
  import StringUtils
  import opened PropertySources
  import opened DefaultPlaceholder

  // ---------------------------------------------------------------------------------------
  // Lookup

  /** A blank key is never found; otherwise the value comes from the first source that has
      the key, and the key is missing only when no source has it. */
  lemma LookupFirstWins(key: string, sources: seq<Source>)
    ensures Lookup(key, sources).None? <==>
      StringUtils.IsBlank(Some(key)) || forall j :: 0 <= j < |sources| ==> key !in sources[j]
    ensures forall j :: 0 <= j < |sources| && key in sources[j] && !StringUtils.IsBlank(Some(key)) &&
                        (forall i :: 0 <= i < j ==> key !in sources[i]) ==>
                          Lookup(key, sources) == Some(sources[j][key])
  {
    if !StringUtils.IsBlank(Some(key)) {
      match FirstSourceWith(key, sources)
      case None =>
      case Some(w) =>
        forall j | 0 <= j < |sources| && key in sources[j] && (forall i :: 0 <= i < j ==> key !in sources[i])
          ensures w == j
        {
        }
    }
  }

  /** Sources later in the list are consulted only when every earlier one lacks the key. */
  lemma {:induction false} LookupAppend(key: string, front: seq<Source>, back: seq<Source>)
    ensures Lookup(key, front + back) == if Lookup(key, front).Some? then Lookup(key, front) else Lookup(key, back)
  {
    if !StringUtils.IsBlank(Some(key)) {
      var all := front + back;
      match FirstSourceWith(key, front)
      case Some(j) =>
        assert all[j] == front[j];
        forall i | 0 <= i < j ensures key !in all[i] {
          assert all[i] == front[i];
        }
        LookupFirstWins(key, all);
      case None =>
        match FirstSourceWith(key, back)
        case Some(j) =>
          assert all[|front| + j] == back[j];
          forall i | 0 <= i < |front| + j ensures key !in all[i] {
            if i < |front| {
              assert all[i] == front[i];
            } else {
              assert all[i] == back[i - |front|];
            }
          }
          LookupFirstWins(key, all);
        case None =>
          forall i | 0 <= i < |all| ensures key !in all[i] {
            if i < |front| {
              assert all[i] == front[i];
            } else {
              assert all[i] == back[i - |front|];
            }
          }
          LookupFirstWins(key, all);
    }
  }

  // ---------------------------------------------------------------------------------------
  // Splitting the placeholder text

  /** The key never contains the delimiter: the split is at its first occurrence. */
  lemma SplitKeyHasNoDelimiter(raw: string, delimiter: string)
    requires |delimiter| > 0
    ensures !Contains(SplitPlaceholder(raw, delimiter).0, delimiter)
  {
    var key := SplitPlaceholder(raw, delimiter).0;
    match IndexOf(key, delimiter)
    case None =>
    case Some(j) =>
      assert StartsWithAt(key, j, delimiter);
      assert raw[..|key|] == key by {
        match IndexOf(raw, delimiter)
        case None =>
        case Some(at) =>
          assert raw == key + delimiter + SplitPlaceholder(raw, delimiter).1.value;
      }
      assert raw[j..j + |delimiter|] == key[j..j + |delimiter|];
      assert StartsWithAt(raw, j, delimiter);
  }

  // ---------------------------------------------------------------------------------------
  // Stepping the scan

  /** Characters that cannot begin the prefix or the suffix are copied to the buffer as they
      are. */
  lemma {:induction false} CopyRun(g: Grammar, sources: seq<Source>, t: string, i: nat, j: nat, buf: string,
                                   stack: seq<nat>, inRes: set<string>, unres: set<string>, depth: nat)
    requires WellFormed(g) && i <= j <= |t| && StackFits(stack, |buf|, |g.prefix|)
    requires forall x :: i <= x < j ==> t[x] != g.prefix[0] && t[x] != g.suffix[0]
    ensures StackFits(stack, |buf + t[i..j]|, |g.prefix|)
    ensures ScanFrom(g, sources, t, i, buf, stack, inRes, unres, depth) ==
            ScanFrom(g, sources, t, j, buf + t[i..j], stack, inRes, unres, depth)
    decreases j - i
  {
    if i < j {
      NotStartsWithAt(t, i, g.prefix);
      NotStartsWithAt(t, i, g.suffix);
      StackFitsGrow(stack, |buf|, |buf| + 1, |g.prefix|);
      assert ScanFrom(g, sources, t, i, buf, stack, inRes, unres, depth) ==
             ScanFrom(g, sources, t, i + 1, buf + [t[i]], stack, inRes, unres, depth);
      CopyRun(g, sources, t, i + 1, j, buf + [t[i]], stack, inRes, unres, depth);
      assert t[i..j] == [t[i]] + t[i + 1..j];
      assert buf + [t[i]] + t[i + 1..j] == buf + t[i..j];
    } else {
      assert buf + t[i..j] == buf;
    }
  }

  /** An unescaped prefix opens a token at the current end of the buffer. */
  lemma OpenStep(g: Grammar, sources: seq<Source>, t: string, i: nat, buf: string,
                 stack: seq<nat>, inRes: set<string>, unres: set<string>, depth: nat)
    requires WellFormed(g) && i <= |t| && StackFits(stack, |buf|, |g.prefix|)
    requires StartsWithAt(t, i, g.prefix) && !IsEscapedPrefix(g, t, i)
    ensures StackFits(stack + [|buf|], |buf + g.prefix|, |g.prefix|)
    ensures ScanFrom(g, sources, t, i, buf, stack, inRes, unres, depth) ==
            ScanFrom(g, sources, t, i + |g.prefix|, buf + g.prefix, stack + [|buf|], inRes, unres, depth)
  {
    StackFitsPush(stack, |buf|, |g.prefix|);
  }

  /** A suffix with a token open closes the innermost token: the text after its prefix is
      resolved and replaces the token in the buffer. */
  lemma CloseStep(g: Grammar, sources: seq<Source>, t: string, i: nat, buf: string,
                  stack: seq<nat>, inRes: set<string>, unres: set<string>, depth: nat)
    requires WellFormed(g) && i <= |t| && StackFits(stack, |buf|, |g.prefix|)
    requires !StartsWithAt(t, i, g.prefix) && StartsWithAt(t, i, g.suffix) && |stack| > 0
    ensures stack[|stack| - 1] + |g.prefix| <= |buf|
    ensures var start := stack[|stack| - 1];
      var r := PlaceholderResolution(g, sources, buf[start + |g.prefix|..], inRes, unres, depth);
      (r.Scanned? ==> StackFits(stack[..|stack| - 1], |buf[..start] + r.text|, |g.prefix|)) &&
      ScanFrom(g, sources, t, i, buf, stack, inRes, unres, depth) ==
        if r.Aborted? then r
        else ScanFrom(g, sources, t, i + |g.suffix|, buf[..start] + r.text, stack[..|stack| - 1], inRes, r.unresolved, depth)
  {
    var start := stack[|stack| - 1];
    StackFitsPop(stack, |buf|, start, |g.prefix|);
    var r := PlaceholderResolution(g, sources, buf[start + |g.prefix|..], inRes, unres, depth);
    if r.Scanned? {
      StackFitsPop(stack, |buf|, start + |r.text|, |g.prefix|);
    }
  }

  /** With no token open, a text in which the prefix never starts is copied verbatim and
      records nothing. */
  lemma {:induction false} ScanWithoutPrefix(g: Grammar, sources: seq<Source>, t: string, i: nat, buf: string,
                                             inRes: set<string>, unres: set<string>, depth: nat)
    requires WellFormed(g) && i <= |t|
    requires forall x :: i <= x ==> !StartsWithAt(t, x, g.prefix)
    ensures ScanFrom(g, sources, t, i, buf, [], inRes, unres, depth) == Scanned(buf + t[i..], unres)
    decreases |t| - i
  {
    if i < |t| {
      ScanWithoutPrefix(g, sources, t, i + 1, buf + [t[i]], inRes, unres, depth);
      assert buf + [t[i]] + t[i + 1..] == buf + t[i..];
    }
  }

  /** `replace` of a text that does not contain the prefix is the identity. */
  lemma ReplacedWithoutPrefix(g: Grammar, sources: seq<Source>, t: string, inRes: set<string>, unres: set<string>, depth: nat)
    requires WellFormed(g) && !Contains(t, g.prefix)
    ensures Replaced(g, sources, t, inRes, unres, depth) == Scanned(t, unres)
  {
    ScanWithoutPrefix(g, sources, t, 0, [], inRes, unres, depth);
    assert [] + t[0..] == t;
  }

  // ---------------------------------------------------------------------------------------
  // Resolving one key

  /** A found value replaces the token; the fallback then plays no part. A value without the
      prefix is inserted as it is. */
  lemma FoundValueWins(g: Grammar, sources: seq<Source>, key: string, fallback: Option<string>,
                       inRes: set<string>, unres: set<string>, depth: nat)
    requires WellFormed(g) && Lookup(key, sources).Some? && depth > 0
    ensures KeyResolution(g, sources, key, fallback, inRes, unres, depth) ==
            Replaced(g, sources, Lookup(key, sources).value, inRes, unres, depth - 1)
    ensures !Contains(Lookup(key, sources).value, g.prefix) ==>
            KeyResolution(g, sources, key, fallback, inRes, unres, depth) == Scanned(Lookup(key, sources).value, unres)
  {
    if !Contains(Lookup(key, sources).value, g.prefix) {
      ReplacedWithoutPrefix(g, sources, Lookup(key, sources).value, inRes, unres, depth - 1);
    }
  }

  /** A missing key with a fallback takes the rewritten fallback; an empty fallback is a valid,
      empty value. */
  lemma FallbackUsedWhenMissing(g: Grammar, sources: seq<Source>, key: string, fallback: string,
                                inRes: set<string>, unres: set<string>, depth: nat)
    requires WellFormed(g) && Lookup(key, sources).None? && depth > 0
    ensures KeyResolution(g, sources, key, Some(fallback), inRes, unres, depth) ==
            Replaced(g, sources, fallback, inRes, unres, depth - 1)
    ensures !Contains(fallback, g.prefix) ==>
            KeyResolution(g, sources, key, Some(fallback), inRes, unres, depth) == Scanned(fallback, unres)
  {
    if !Contains(fallback, g.prefix) {
      ReplacedWithoutPrefix(g, sources, fallback, inRes, unres, depth - 1);
    }
  }

  /** A missing key without a fallback is recorded as unresolved and its token is written back
      as prefix, key, suffix. */
  lemma MissingKeyReEmitted(g: Grammar, sources: seq<Source>, raw: string, inRes: set<string>, unres: set<string>, depth: nat)
    requires WellFormed(g) && !Contains(raw, g.delimiter) && raw !in inRes && Lookup(raw, sources).None?
    ensures PlaceholderResolution(g, sources, raw, inRes, unres, depth) == Scanned(g.prefix + raw + g.suffix, unres + {raw})
  {
  }

  /** A key met again while it is being resolved is a circular reference, whatever the
      sources say. */
  lemma KeyInResolutionIsCircular(g: Grammar, sources: seq<Source>, raw: string, inRes: set<string>, unres: set<string>, depth: nat)
    requires WellFormed(g) && SplitPlaceholder(raw, g.delimiter).0 in inRes
    ensures PlaceholderResolution(g, sources, raw, inRes, unres, depth) == Aborted(Circular(SplitPlaceholder(raw, g.delimiter).0))
  {
  }

  /** Literal text that cannot begin the prefix or the suffix. */
  predicate Plain(g: Grammar, s: string)
    requires WellFormed(g)
  {
    forall x :: 0 <= x < |s| ==> s[x] != g.prefix[0] && s[x] != g.suffix[0]
  }

  /** Scanning a template that starts with plain `lead` copies `lead` to the empty buffer. */
  lemma LeadCopied(g: Grammar, sources: seq<Source>, v: string, lead: string,
                   inRes: set<string>, unres: set<string>, depth: nat)
    requires WellFormed(g) && Plain(g, lead) && |lead| <= |v| && v[..|lead|] == lead
    ensures Replaced(g, sources, v, inRes, unres, depth) ==
            ScanFrom(g, sources, v, |lead|, lead, [], inRes, unres, depth)
  {
    var l := |lead|;
    var empty: string := [];
    var noStack: seq<nat> := [];
    assert v[0..l] == lead;
    forall x | 0 <= x < l
      ensures v[x] != g.prefix[0] && v[x] != g.suffix[0]
    {
      assert v[x] == lead[x];
    }
    CopyRun(g, sources, v, 0, l, empty, noStack, inRes, unres, depth);
    assert empty + v[0..l] == lead;
  }

  /** Scanning a template that starts with `lead` and then the prefix copies `lead` and opens
      a token where it ends. */
  lemma LeadOpened(g: Grammar, sources: seq<Source>, v: string, lead: string,
                   inRes: set<string>, unres: set<string>, depth: nat)
    requires WellFormed(g) && Plain(g, lead) && |lead| + |g.prefix| <= |v|
    requires v[..|lead|] == lead && v[|lead|..|lead| + |g.prefix|] == g.prefix
    requires lead == [] || lead[|lead| - 1] != g.escapeChar
    ensures StackFits([|lead|], |lead + g.prefix|, |g.prefix|)
    ensures Replaced(g, sources, v, inRes, unres, depth) ==
            ScanFrom(g, sources, v, |lead| + |g.prefix|, lead + g.prefix, [|lead|], inRes, unres, depth)
  {
    var l := |lead|;
    LeadCopied(g, sources, v, lead, inRes, unres, depth);
    assert l > 0 ==> v[l - 1] == v[..l][l - 1];
    assert !IsEscapedPrefix(g, v, l);
    var noStack: seq<nat> := [];
    OpenStep(g, sources, v, l, lead, noStack, inRes, unres, depth);
    assert noStack + [|lead|] == [l];
  }

  /** Scanning `lead${raw}` leaves all of it in the buffer, with one token open where `lead`
      ends. */
  lemma OneTokenOpened(g: Grammar, sources: seq<Source>, lead: string, raw: string, rest: string,
                       inRes: set<string>, unres: set<string>, depth: nat)
    requires WellFormed(g) && Plain(g, lead) && Plain(g, raw)
    requires lead == [] || lead[|lead| - 1] != g.escapeChar
    ensures StackFits([|lead|], |lead + g.prefix + raw|, |g.prefix|)
    ensures Replaced(g, sources, lead + g.prefix + raw + rest, inRes, unres, depth) ==
            ScanFrom(g, sources, lead + g.prefix + raw + rest, |lead + g.prefix + raw|, lead + g.prefix + raw, [|lead|],
                     inRes, unres, depth)
  {
    var v := lead + g.prefix + raw + rest;
    var l, p, n := |lead|, |g.prefix|, |raw|;
    assert v[..l] == lead && v[l..l + p] == g.prefix;
    LeadOpened(g, sources, v, lead, inRes, unres, depth);
    assert v[l + p..l + p + n] == raw;
    CopyRun(g, sources, v, l + p, l + p + n, lead + g.prefix, [l], inRes, unres, depth);
    assert lead + g.prefix + v[l + p..l + p + n] == lead + g.prefix + raw;
  }

  /** The suffix after `lead${raw}` closes the token: the buffer becomes `lead` followed by
      the token's resolution. */
  lemma OneTokenClosed(g: Grammar, sources: seq<Source>, lead: string, raw: string, rest: string,
                       inRes: set<string>, unres: set<string>, depth: nat)
    requires WellFormed(g) && g.prefix[0] != g.suffix[0]
    requires StackFits([|lead|], |lead + g.prefix + raw|, |g.prefix|)
    ensures var r := PlaceholderResolution(g, sources, raw, inRes, unres, depth);
      var v := lead + g.prefix + raw + g.suffix + rest;
      ScanFrom(g, sources, v, |lead + g.prefix + raw|, lead + g.prefix + raw, [|lead|], inRes, unres, depth) ==
        if r.Aborted? then r else ScanFrom(g, sources, v, |lead + g.prefix + raw + g.suffix|, lead + r.text, [], inRes, r.unresolved, depth)
  {
    var v := lead + g.prefix + raw + g.suffix + rest;
    var buf := lead + g.prefix + raw;
    var at := |buf|;
    assert v[at..at + |g.suffix|] == g.suffix;
    NotStartsWithAt(v, at, g.prefix);
    CloseStep(g, sources, v, at, buf, [|lead|], inRes, unres, depth);
    assert buf[|lead| + |g.prefix|..] == raw && buf[..|lead|] == lead;
  }

  /** After the last token, text in which the prefix cannot begin is copied as it is; a stray
      suffix there is kept. */
  lemma TailCopied(g: Grammar, sources: seq<Source>, front: string, tail: string, buf: string,
                   inRes: set<string>, unres: set<string>, depth: nat)
    requires WellFormed(g) && forall x :: 0 <= x < |tail| ==> tail[x] != g.prefix[0]
    ensures ScanFrom(g, sources, front + tail, |front|, buf, [], inRes, unres, depth) == Scanned(buf + tail, unres)
  {
    var v := front + tail;
    forall x: nat | |front| <= x
      ensures !StartsWithAt(v, x, g.prefix)
    {
      if x < |v| {
        assert v[x] == tail[x - |front|];
        NotStartsWithAt(v, x, g.prefix);
      }
    }
    ScanWithoutPrefix(g, sources, v, |front|, buf, inRes, unres, depth);
    assert v[|front|..] == tail;
  }

  /** A template with one token, `lead${raw}tail`, rewrites to `lead`, the token's resolution
      and `tail`, and records what the token's resolution records. */
  lemma OneTokenTemplate(g: Grammar, sources: seq<Source>, lead: string, raw: string, tail: string,
                         inRes: set<string>, unres: set<string>, depth: nat)
    requires WellFormed(g) && g.prefix[0] != g.suffix[0] && Plain(g, lead) && Plain(g, raw)
    requires lead == [] || lead[|lead| - 1] != g.escapeChar
    requires forall x :: 0 <= x < |tail| ==> tail[x] != g.prefix[0]
    ensures var r := PlaceholderResolution(g, sources, raw, inRes, unres, depth);
      Replaced(g, sources, lead + g.prefix + raw + g.suffix + tail, inRes, unres, depth) ==
        if r.Aborted? then r else Scanned(lead + r.text + tail, r.unresolved)
  {
    var v := lead + g.prefix + raw + g.suffix + tail;
    assert v == lead + g.prefix + raw + (g.suffix + tail);
    OneTokenOpened(g, sources, lead, raw, g.suffix + tail, inRes, unres, depth);
    OneTokenClosed(g, sources, lead, raw, tail, inRes, unres, depth);
    var r := PlaceholderResolution(g, sources, raw, inRes, unres, depth);
    if r.Scanned? {
      TailCopied(g, sources, lead + g.prefix + raw + g.suffix, tail, lead + r.text, inRes, r.unresolved, depth);
    }
  }

  /** `replaceIfAllResolvable` of a one-token template `lead${raw}tail` whose `lead` is not
      blank: the verdict on `lead`, the token's resolution and `tail`. */
  lemma OneTokenInterpolation(p: Placeholder, lead: string, raw: string, tail: string, depth: nat)
    requires WellFormed(p.grammar) && p.grammar.prefix[0] != p.grammar.suffix[0] && p.sources != []
    requires Plain(p.grammar, lead) && Plain(p.grammar, raw) && lead != [] && !IsWhitespace(lead[0])
    requires lead[|lead| - 1] != p.grammar.escapeChar
    requires forall x :: 0 <= x < |tail| ==> tail[x] != p.grammar.prefix[0]
    ensures var r := PlaceholderResolution(p.grammar, p.sources, raw, {}, {}, depth);
      Interpolation(p, Some(lead + p.grammar.prefix + raw + p.grammar.suffix + tail), None, depth) ==
        if r.Aborted? then Verdict(r) else Verdict(Scanned(lead + r.text + tail, r.unresolved))
  {
    var g := p.grammar;
    var t := lead + g.prefix + raw + g.suffix + tail;
    assert t[|lead|..|lead| + |g.prefix|] == g.prefix;
    ContainsAt(t, g.prefix, |lead|);
    assert t[0] == lead[0];
    OneTokenTemplate(g, p.sources, lead, raw, tail, {}, {}, depth);
  }

  /** The verdict on a one-token template whose token resolves without recording anything,
      or aborts. */
  lemma OneTokenVerdict(p: Placeholder, lead: string, raw: string, tail: string, depth: nat, t: string)
    requires WellFormed(p.grammar) && p.grammar.prefix[0] != p.grammar.suffix[0] && p.sources != []
    requires Plain(p.grammar, lead) && Plain(p.grammar, raw) && lead != [] && !IsWhitespace(lead[0])
    requires lead[|lead| - 1] != p.grammar.escapeChar
    requires forall x :: 0 <= x < |tail| ==> tail[x] != p.grammar.prefix[0]
    requires t == lead + p.grammar.prefix + raw + p.grammar.suffix + tail
    ensures var r := PlaceholderResolution(p.grammar, p.sources, raw, {}, {}, depth);
      r.Aborted? ==> Interpolation(p, Some(t), None, depth) == Verdict(r)
    ensures var r := PlaceholderResolution(p.grammar, p.sources, raw, {}, {}, depth);
      r.Scanned? && r.unresolved == {} ==> Interpolation(p, Some(t), None, depth) == Resolved(lead + r.text + tail)
    ensures var r := PlaceholderResolution(p.grammar, p.sources, raw, {}, {}, depth);
      r.Scanned? && r.unresolved != {} ==> Interpolation(p, Some(t), None, depth) == Unresolvable
  {
    OneTokenInterpolation(p, lead, raw, tail, depth);
  }

  /** The text of a token: the key, then the delimiter and fallback when there is one. */
  function TokenText(g: Grammar, key: string, fallback: Option<string>): string {
    match fallback
    case None => key
    case Some(f) => key + g.delimiter + f
  }

  /** The token text splits back into its key and fallback when the key holds no character
      that begins the delimiter. */
  lemma TokenTextSplits(g: Grammar, key: string, fallback: Option<string>)
    requires WellFormed(g) && forall x :: 0 <= x < |key| ==> key[x] != g.delimiter[0]
    ensures SplitPlaceholder(TokenText(g, key, fallback), g.delimiter) == (key, fallback)
  {
    var raw := TokenText(g, key, fallback);
    match fallback
    case None =>
      IndexOfAbsent(key, g.delimiter);
    case Some(f) =>
      assert raw[|key|..|key| + |g.delimiter|] == g.delimiter;
      IndexOfAt(raw, g.delimiter, |key|);
      assert raw[..|key|] == key && raw[|key| + |g.delimiter|..] == f;
  }

  /** Conditions under which `lead${token}tail` is a one-token template the scan walks
      through character by character. */
  predicate OneTokenShape(g: Grammar, lead: string, key: string, fallback: Option<string>, tail: string)
    requires WellFormed(g)
  {
    g.prefix[0] != g.suffix[0] && Plain(g, lead) && Plain(g, TokenText(g, key, fallback)) &&
    (forall x :: 0 <= x < |key| ==> key[x] != g.delimiter[0]) &&
    lead != [] && !IsWhitespace(lead[0]) && lead[|lead| - 1] != g.escapeChar &&
    forall x :: 0 <= x < |tail| ==> tail[x] != g.prefix[0]
  }

  /** `lead${key}tail` or `lead${key:fallback}tail` with `key` found: the value, when it holds
      no prefix, replaces the token and the result is present. */
  lemma FoundKeyTemplate(p: Placeholder, lead: string, key: string, fallback: Option<string>, tail: string,
                         depth: nat, t: string)
    requires WellFormed(p.grammar) && OneTokenShape(p.grammar, lead, key, fallback, tail) && p.sources != []
    requires t == lead + p.grammar.prefix + TokenText(p.grammar, key, fallback) + p.grammar.suffix + tail
    requires depth > 0 && Lookup(key, p.sources).Some? && !Contains(Lookup(key, p.sources).value, p.grammar.prefix)
    ensures Interpolation(p, Some(t), None, depth) == Resolved(lead + Lookup(key, p.sources).value + tail)
  {
    var g := p.grammar;
    TokenTextSplits(g, key, fallback);
    var inner: set<string> := {} + {key};
    assert inner == {key};
    FoundValueWins(g, p.sources, key, fallback, inner, {}, depth);
    assert PlaceholderResolution(g, p.sources, TokenText(g, key, fallback), {}, {}, depth) ==
           Scanned(Lookup(key, p.sources).value, {});
    OneTokenVerdict(p, lead, TokenText(g, key, fallback), tail, depth, t);
  }

  /** `lead${key:fallback}tail` with `key` missing: the fallback, when it holds no prefix,
      replaces the token and the result is present. */
  lemma FallbackTemplate(p: Placeholder, lead: string, key: string, fallback: string, tail: string,
                         depth: nat, t: string)
    requires WellFormed(p.grammar) && OneTokenShape(p.grammar, lead, key, Some(fallback), tail) && p.sources != []
    requires t == lead + p.grammar.prefix + TokenText(p.grammar, key, Some(fallback)) + p.grammar.suffix + tail
    requires depth > 0 && Lookup(key, p.sources).None? && !Contains(fallback, p.grammar.prefix)
    ensures Interpolation(p, Some(t), None, depth) == Resolved(lead + fallback + tail)
  {
    var g := p.grammar;
    TokenTextSplits(g, key, Some(fallback));
    var inner: set<string> := {} + {key};
    assert inner == {key};
    FallbackUsedWhenMissing(g, p.sources, key, fallback, inner, {}, depth);
    assert PlaceholderResolution(g, p.sources, TokenText(g, key, Some(fallback)), {}, {}, depth) ==
           Scanned(fallback, {});
    OneTokenVerdict(p, lead, TokenText(g, key, Some(fallback)), tail, depth, t);
  }

  /** `lead${key}tail` with `key` missing and no fallback: the result is empty. */
  lemma MissingKeyTemplate(p: Placeholder, lead: string, key: string, tail: string, depth: nat, t: string)
    requires WellFormed(p.grammar) && OneTokenShape(p.grammar, lead, key, None, tail) && p.sources != []
    requires t == lead + p.grammar.prefix + key + p.grammar.suffix + tail
    requires Lookup(key, p.sources).None?
    ensures Interpolation(p, Some(t), None, depth) == Unresolvable
  {
    TokenTextSplits(p.grammar, key, None);
    MissingKeyReEmitted(p.grammar, p.sources, key, {}, {}, depth);
    OneTokenVerdict(p, lead, key, tail, depth, t);
  }

  /** Two keys whose values are each other's token: resolving the first meets it again. */
  lemma MutualReferenceIsCircular(g: Grammar, sources: seq<Source>, a: string, b: string, depth: nat)
    requires WellFormed(g) && g.prefix[0] != g.suffix[0] && a != b && depth > 1
    requires Plain(g, a) && Plain(g, b) && !Contains(a, g.delimiter) && !Contains(b, g.delimiter)
    requires Lookup(a, sources) == Some(g.prefix + b + g.suffix) && Lookup(b, sources) == Some(g.prefix + a + g.suffix)
    ensures PlaceholderResolution(g, sources, a, {}, {}, depth) == Aborted(Circular(a))
  {
    var none: string := [];
    var outer := {} + {a};
    var inner := outer + {b};
    assert outer == {a};
    assert none + g.prefix + b + g.suffix + none == g.prefix + b + g.suffix;
    assert none + g.prefix + a + g.suffix + none == g.prefix + a + g.suffix;
    assert SplitPlaceholder(a, g.delimiter) == (a, None) && SplitPlaceholder(b, g.delimiter) == (b, None);
    FoundValueWins(g, sources, a, None, outer, {}, depth);
    OneTokenTemplate(g, sources, none, b, none, outer, {}, depth - 1);
    FoundValueWins(g, sources, b, None, inner, {}, depth - 1);
    OneTokenTemplate(g, sources, none, a, none, inner, {}, depth - 2);
    KeyInResolutionIsCircular(g, sources, a, inner, {}, depth - 2);
  }

  /** `lead${a}tail` where `a` and `b` refer to each other: a circular reference naming `a`. */
  lemma MutualReferenceTemplate(p: Placeholder, lead: string, a: string, b: string, tail: string, depth: nat, t: string)
    requires WellFormed(p.grammar) && OneTokenShape(p.grammar, lead, a, None, tail) && p.sources != []
    requires a != b && depth > 1 && Plain(p.grammar, b) && !Contains(b, p.grammar.delimiter)
    requires Lookup(a, p.sources) == Some(p.grammar.prefix + b + p.grammar.suffix)
    requires Lookup(b, p.sources) == Some(p.grammar.prefix + a + p.grammar.suffix)
    requires t == lead + p.grammar.prefix + a + p.grammar.suffix + tail
    ensures Interpolation(p, Some(t), None, depth) == CircularReference(a)
  {
    TokenTextSplits(p.grammar, a, None);
    MutualReferenceIsCircular(p.grammar, p.sources, a, b, depth);
    OneTokenVerdict(p, lead, a, tail, depth, t);
  }

  /** `lead\${tail}`: the escape character is dropped and the prefix kept as text. */
  lemma EscapedTemplate(p: Placeholder, lead: string, tail: string, depth: nat, t: string)
    requires WellFormed(p.grammar) && Plain(p.grammar, lead + [p.grammar.escapeChar]) && p.sources != []
    requires lead != [] && !IsWhitespace(lead[0])
    requires forall x :: 0 <= x < |tail| ==> tail[x] != p.grammar.prefix[0]
    requires t == lead + [p.grammar.escapeChar] + p.grammar.prefix + tail
    ensures Interpolation(p, Some(t), None, depth) == Resolved(lead + p.grammar.prefix + tail)
  {
    var g := p.grammar;
    var at := |lead| + 1;
    assert t[at..at + |g.prefix|] == g.prefix;
    ContainsAt(t, g.prefix, at);
    assert t[0] == lead[0];
    EscapedPrefixKept(g, p.sources, lead, tail, {}, {}, depth);
  }

  /** The escape character right before the prefix is dropped and the prefix is kept as
      literal text: `lead\${tail}` becomes `lead${tail}`. */
  lemma EscapedPrefixKept(g: Grammar, sources: seq<Source>, lead: string, tail: string,
                          inRes: set<string>, unres: set<string>, depth: nat)
    requires WellFormed(g) && Plain(g, lead + [g.escapeChar])
    requires forall x :: 0 <= x < |tail| ==> tail[x] != g.prefix[0]
    ensures Replaced(g, sources, lead + [g.escapeChar] + g.prefix + tail, inRes, unres, depth) ==
            Scanned(lead + g.prefix + tail, unres)
  {
    var e := lead + [g.escapeChar];
    var v := e + g.prefix + tail;
    var at := |e|;
    assert v[..at] == e;
    LeadCopied(g, sources, v, e, inRes, unres, depth);
    assert v[at..at + |g.prefix|] == g.prefix && v[at - 1] == g.escapeChar;
    assert IsEscapedPrefix(g, v, at);
    EscapeStep(g, sources, v, at, e, [], inRes, unres, depth);
    assert e[..|e| - 1] == lead;
    TailCopied(g, sources, e + g.prefix, tail, lead + g.prefix, inRes, unres, depth);
  }

  /** An escaped prefix replaces the escape character at the end of the buffer by the prefix. */
  lemma EscapeStep(g: Grammar, sources: seq<Source>, t: string, i: nat, buf: string,
                   stack: seq<nat>, inRes: set<string>, unres: set<string>, depth: nat)
    requires WellFormed(g) && i <= |t| && StackFits(stack, |buf|, |g.prefix|)
    requires IsEscapedPrefix(g, t, i) && buf != []
    ensures StackFits(stack, |buf[..|buf| - 1] + g.prefix|, |g.prefix|)
    ensures ScanFrom(g, sources, t, i, buf, stack, inRes, unres, depth) ==
            ScanFrom(g, sources, t, i + |g.prefix|, buf[..|buf| - 1] + g.prefix, stack, inRes, unres, depth)
  {
    StackFitsGrow(stack, |buf|, |buf| - 1 + |g.prefix|, |g.prefix|);
  }

  /** A key whose value is its own token, `${key}`, is reported as a circular reference. */
  lemma SelfReferenceIsCircular(g: Grammar, sources: seq<Source>, key: string, inRes: set<string>, unres: set<string>, depth: nat)
    requires WellFormed(g) && g.prefix[0] != g.suffix[0]
    requires forall x :: 0 <= x < |key| ==> key[x] != g.prefix[0] && key[x] != g.suffix[0]
    requires !Contains(key, g.delimiter) && key !in inRes && depth > 0
    requires Lookup(key, sources) == Some(g.prefix + key + g.suffix)
    ensures PlaceholderResolution(g, sources, key, inRes, unres, depth) == Aborted(Circular(key))
  {
    var inner := inRes + {key};
    assert SplitPlaceholder(key, g.delimiter) == (key, None);
    assert PlaceholderResolution(g, sources, key, inRes, unres, depth) ==
           Replaced(g, sources, g.prefix + key + g.suffix, inner, unres, depth - 1);
    OneTokenTemplate(g, sources, [], key, [], inner, unres, depth - 1);
    assert [] + g.prefix + key + g.suffix + [] == g.prefix + key + g.suffix;
  }

  // ---------------------------------------------------------------------------------------
  // The unresolved set

  /** What a scan adds to the unresolved set are keys no source has (or that are blank), and it
      removes nothing. */
  ghost predicate RecordsOnlyMissing(r: Scan, unres: set<string>, sources: seq<Source>) {
    r.Scanned? ==> unres <= r.unresolved && forall k :: k in r.unresolved - unres ==> Lookup(k, sources).None?
  }

  lemma RecordsOnlyMissingChain(r: Scan, mid: set<string>, unres: set<string>, sources: seq<Source>)
    requires unres <= mid && forall k :: k in mid - unres ==> Lookup(k, sources).None?
    requires RecordsOnlyMissing(r, mid, sources)
    ensures RecordsOnlyMissing(r, unres, sources)
  {
  }

  /** The unresolved set only grows, and only by keys that no source has (or that are blank). */
  lemma {:induction false} ScanFromRecordsOnlyMissingKeys(g: Grammar, sources: seq<Source>, t: string, i: nat, buf: string,
                                                          stack: seq<nat>, inRes: set<string>, unres: set<string>, depth: nat)
    requires WellFormed(g) && i <= |t| && StackFits(stack, |buf|, |g.prefix|)
    ensures RecordsOnlyMissing(ScanFrom(g, sources, t, i, buf, stack, inRes, unres, depth), unres, sources)
    decreases depth, 2, |t| - i, 1
  {
    if i == |t| {
    } else if IsEscapedPrefix(g, t, i) {
      if buf != [] {
        StackFitsGrow(stack, |buf|, |buf| - 1 + |g.prefix|, |g.prefix|);
        ScanFromRecordsOnlyMissingKeys(g, sources, t, i + |g.prefix|, buf[..|buf| - 1] + g.prefix, stack, inRes, unres, depth);
      }
    } else if IsStartOfPlaceholder(g, t, i) {
      StackFitsPush(stack, |buf|, |g.prefix|);
      ScanFromRecordsOnlyMissingKeys(g, sources, t, i + |g.prefix|, buf + g.prefix, stack + [|buf|], inRes, unres, depth);
    } else if IsEndOfPlaceholder(g, t, i, stack) {
      CloseRecordsOnlyMissingKeys(g, sources, t, i, buf, stack, inRes, unres, depth);
    } else {
      StackFitsGrow(stack, |buf|, |buf| + 1, |g.prefix|);
      ScanFromRecordsOnlyMissingKeys(g, sources, t, i + 1, buf + [t[i]], stack, inRes, unres, depth);
    }
  }

  /** The closing suffix: the placeholder's own additions, then the rest of the scan's. */
  lemma {:induction false} CloseRecordsOnlyMissingKeys(g: Grammar, sources: seq<Source>, t: string, i: nat, buf: string,
                                                       stack: seq<nat>, inRes: set<string>, unres: set<string>, depth: nat)
    requires WellFormed(g) && i < |t| && StackFits(stack, |buf|, |g.prefix|)
    requires !IsEscapedPrefix(g, t, i) && !IsStartOfPlaceholder(g, t, i) && IsEndOfPlaceholder(g, t, i, stack)
    ensures RecordsOnlyMissing(ScanFrom(g, sources, t, i, buf, stack, inRes, unres, depth), unres, sources)
    decreases depth, 2, |t| - i, 0
  {
    var start := stack[|stack| - 1];
    StackFitsPop(stack, |buf|, start, |g.prefix|);
    PlaceholderRecordsOnlyMissingKeys(g, sources, buf[start + |g.prefix|..], inRes, unres, depth);
    match PlaceholderResolution(g, sources, buf[start + |g.prefix|..], inRes, unres, depth)
    case Aborted(_) =>
    case Scanned(text, unres') =>
      StackFitsPop(stack, |buf|, start + |text|, |g.prefix|);
      ScanFromRecordsOnlyMissingKeys(g, sources, t, i + |g.suffix|, buf[..start] + text, stack[..|stack| - 1], inRes, unres', depth);
      RecordsOnlyMissingChain(ScanFrom(g, sources, t, i + |g.suffix|, buf[..start] + text, stack[..|stack| - 1], inRes, unres', depth),
                              unres', unres, sources);
  }

  lemma {:induction false} PlaceholderRecordsOnlyMissingKeys(g: Grammar, sources: seq<Source>, raw: string,
                                                             inRes: set<string>, unres: set<string>, depth: nat)
    requires WellFormed(g)
    ensures RecordsOnlyMissing(PlaceholderResolution(g, sources, raw, inRes, unres, depth), unres, sources)
    decreases depth, 1, 0, 0
  {
    var (key, fallback) := SplitPlaceholder(raw, g.delimiter);
    if key !in inRes {
      KeyRecordsOnlyMissingKeys(g, sources, key, fallback, inRes + {key}, unres, depth);
    }
  }

  lemma {:induction false} KeyRecordsOnlyMissingKeys(g: Grammar, sources: seq<Source>, key: string, fallback: Option<string>,
                                                     inRes: set<string>, unres: set<string>, depth: nat)
    requires WellFormed(g)
    ensures RecordsOnlyMissing(KeyResolution(g, sources, key, fallback, inRes, unres, depth), unres, sources)
    decreases depth, 0, 0, 0
  {
    if depth > 0 {
      match Lookup(key, sources)
      case Some(value) =>
        ScanFromRecordsOnlyMissingKeys(g, sources, value, 0, [], [], inRes, unres, depth - 1);
      case None =>
        if fallback.Some? {
          ScanFromRecordsOnlyMissingKeys(g, sources, fallback.value, 0, [], [], inRes, unres, depth - 1);
        }
    }
  }

  // ---------------------------------------------------------------------------------------
  // replaceIfAllResolvable

  /** A blank template or one without the prefix comes back unchanged; the core copy returns it
      before looking at the extra sources at all. */
  lemma VerbatimTemplateUnchanged(p: Placeholder, t: string, extras: Option<seq<Option<Source>>>, depth: nat)
    requires WellFormed(p.grammar) && IsVerbatim(p.grammar, t)
    requires p.copy == Core || MergeSources(p.sources, extras).Success?
    ensures Interpolation(p, Some(t), extras, depth) == Resolved(t)
  {
  }

  /** The two copies agree whenever the extra sources are acceptable; they differ only on a
      template that needs no interpolation given together with a null extra source, where the
      older copy throws because it merges first. */
  lemma CopiesAgree(grammar: Grammar, sources: seq<Source>, template: Option<string>, extras: Option<seq<Option<Source>>>, depth: nat)
    requires WellFormed(grammar)
    ensures MergeSources(sources, extras).Success? || template.None? ==>
      Interpolation(Placeholder(Core, grammar, sources), template, extras, depth) ==
      Interpolation(Placeholder(Legacy, grammar, sources), template, extras, depth)
    ensures MergeSources(sources, extras).Failure? && template.Some? && IsVerbatim(grammar, template.value) ==>
      Interpolation(Placeholder(Core, grammar, sources), template, extras, depth) == Resolved(template.value) &&
      Interpolation(Placeholder(Legacy, grammar, sources), template, extras, depth).Thrown?
  {
  }

  /** With no sources at all, any template that contains the prefix is unresolvable, even when
      every token has a fallback. */
  lemma NoSourcesUnresolvable(p: Placeholder, t: string, depth: nat)
    requires WellFormed(p.grammar) && p.sources == [] && !IsVerbatim(p.grammar, t)
    ensures Interpolation(p, Some(t), None, depth) == Unresolvable
  {
  }

  /** An empty result always has a cause: no source was supplied, or the scan recorded at least
      one key, and every key it recorded is missing from every source (or blank). */
  lemma UnresolvableHasMissingKey(p: Placeholder, t: string, extras: Option<seq<Option<Source>>>, depth: nat)
    requires WellFormed(p.grammar) && Interpolation(p, Some(t), extras, depth) == Unresolvable
    ensures MergeSources(p.sources, extras).Success?
    ensures var merged := MergeSources(p.sources, extras).value;
      merged != [] ==>
        var r := Replaced(p.grammar, merged, t, {}, {}, depth);
        r.Scanned? && r.unresolved != {} && forall k :: k in r.unresolved ==> Lookup(k, merged).None?
  {
    var merged := MergeSources(p.sources, extras).value;
    if merged != [] {
      ScanFromRecordsOnlyMissingKeys(p.grammar, merged, t, 0, [], [], {}, {}, depth);
    }
  }
}
