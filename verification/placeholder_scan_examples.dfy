/** Templates of `DefaultPlaceholderTest` with several tokens, proved of the model step by step.
    The facts about the literals (where each token stands, what each source answers) are stated
    once per test; the scan is then followed token by token, each step stating what the rest of
    the scan yields from its position on. */
module PlaceholderScanExamples {
  import opened Wrappers
  import opened JavaString
  import opened PropertySources
  import opened DefaultPlaceholder
  import opened PlaceholderProperties
  import opened PlaceholderComposition
  import opened PlaceholderExamples

  /** A key that holds no token character and no delimiter, with a value that holds no prefix. */
  predicate SimpleEntry(g: Grammar, key: string, value: string)
    requires WellFormed(g)
  {
    Plain(g, key) && !Contains(key, g.delimiter) && !Contains(value, g.prefix)
  }

  lemma EntryFacts(g: Grammar, key: string, value: string)
    requires g == Defaults()
    requires forall x :: 0 <= x < |key| ==> key[x] != '$' && key[x] != '}' && key[x] != ':'
    requires forall x :: 0 <= x < |value| ==> value[x] != '$'
    ensures SimpleEntry(g, key, value)
  {
    IndexOfAbsent(key, g.delimiter);
    IndexOfAbsent(value, g.prefix);
  }

  /** A key that only the second of two sources has is found there. */
  lemma FoundInSecond(sources: seq<Source>, key: string, value: string)
    requires |sources| == 2 && key !in sources[0] && key in sources[1] && sources[1][key] == value
    requires key != [] && !IsWhitespace(key[0])
    ensures Lookup(key, sources) == Some(value)
  {
    LookupFirstWins(key, sources);
  }

  // ---------------------------------------------------------------------------------------
  // `application-${profile}-${region}`

  /** The test's sources: an environment without the keys, then a map with both. */
  lemma TwoKeysFound(sources: seq<Source>)
    requires sources == [map[], map["profile" := "dev", "region" := "us-east-1"]]
    ensures Lookup("profile", sources) == Some("dev") && Lookup("region", sources) == Some("us-east-1")
  {
    FoundInSecond(sources, "profile", "dev");
    FoundInSecond(sources, "region", "us-east-1");
  }

  /** The values `dev` and `us-east-1` hold no prefix. */
  lemma TwoValuesPlain(g: Grammar, v1: string, v2: string)
    requires g == Defaults() && v1 == "dev" && v2 == "us-east-1"
    ensures !Contains(v1, g.prefix) && !Contains(v2, g.prefix)
  {
    IndexOfAbsent(v1, g.prefix);
    IndexOfAbsent(v2, g.prefix);
  }

  /** The template read as pieces. */
  lemma TwoTokensText(g: Grammar, t: string)
    requires g == Defaults() && t == "application-${profile}-${region}"
    ensures t == "application-" + g.prefix + "profile" + g.suffix + "-" + g.prefix + "region" + g.suffix + ""
  {
  }

  /** `application-${profile}-${region}` is a two-token template. */
  lemma TwoTokensShape(g: Grammar, lead: string, k1: string, mid: string, k2: string, tail: string)
    requires g == Defaults() && lead == "application-" && k1 == "profile" && mid == "-" && k2 == "region" && tail == ""
    ensures TwoTokenShape(g, lead, k1, mid, k2, tail)
  {
    DefaultLead(g, lead);
    EntryFacts(g, k1, "");
    EntryFacts(g, k2, "");
  }

  /** Several tokens are all resolved: `application-${profile}-${region}` becomes
      `application-dev-us-east-1`. */
  lemma MultipleTokensResolved(copy: Copy, t: string, sources: seq<Source>)
    requires t == "application-${profile}-${region}"
    requires sources == [map[], map["profile" := "dev", "region" := "us-east-1"]]
    ensures Interpolation(Placeholder(copy, Defaults(), sources), Some(t), None, 1) == Resolved("application-dev-us-east-1")
  {
    var g := Defaults();
    TwoKeysFound(sources);
    TwoValuesPlain(g, "dev", "us-east-1");
    TwoTokensText(g, t);
    TwoTokensShape(g, "application-", "profile", "-", "region", "");
    TwoTokensResult("application-", "dev", "-", "us-east-1", "", "application-dev-us-east-1");
    TwoTokenTemplate(Placeholder(copy, g, sources), t, "application-", "profile", "-", "region", "", 1);
  }

  lemma TwoTokensResult(lead: string, v1: string, mid: string, v2: string, tail: string, r: string)
    requires lead == "application-" && v1 == "dev" && mid == "-" && v2 == "us-east-1" && tail == ""
    requires r == "application-dev-us-east-1"
    ensures lead + v1 + mid + v2 + tail == r
  {
  }

  // ---------------------------------------------------------------------------------------
  // `application-${profile}-\${region}`

  /** The template read as pieces. */
  lemma EscapedText(g: Grammar, t: string)
    requires g == Defaults() && t == "application-${profile}-\\${region}"
    ensures t == "application-" + g.prefix + "profile" + g.suffix + "-" + [g.escapeChar] + g.prefix + "region}"
  {
  }

  /** `application-${profile}-\${region}` is a token followed by an escaped prefix. */
  lemma EscapedShape(g: Grammar, lead: string, key: string, mid: string, tail: string)
    requires g == Defaults() && lead == "application-" && key == "profile" && mid == "-" && tail == "region}"
    ensures TwoTokenShape(g, lead, key, mid, key, tail) && Plain(g, [g.escapeChar])
  {
    DefaultLead(g, lead);
    EntryFacts(g, key, "");
  }

  lemma EscapedResult(lead: string, v: string, mid: string, prefix: string, tail: string, r: string)
    requires lead == "application-" && v == "dev" && mid == "-" && prefix == "${" && tail == "region}"
    requires r == "application-dev-${region}"
    ensures lead + v + mid + prefix + tail == r
  {
  }

  /** A token is resolved while a later escaped one is kept: `application-${profile}-\${region}`
      becomes `application-dev-${region}`. */
  lemma EscapedTokenAfterResolved(copy: Copy, t: string, sources: seq<Source>)
    requires t == "application-${profile}-\\${region}" && sources == [map[], map["profile" := "dev"]]
    ensures Interpolation(Placeholder(copy, Defaults(), sources), Some(t), None, 1) == Resolved("application-dev-${region}")
  {
    var g := Defaults();
    ProfileIsDev(sources);
    DevHasNoPrefix("dev", g.prefix);
    EscapedText(g, t);
    EscapedShape(g, "application-", "profile", "-", "region}");
    EscapedResult("application-", "dev", "-", g.prefix, "region}", "application-dev-${region}");
    EscapedAfterTokenTemplate(Placeholder(copy, g, sources), t, "application-", "profile", "-", "region}", 1);
  }

  // ---------------------------------------------------------------------------------------
  // `application-${profile}-${region-${profile}}-${zone-${region-${profile}}}`

  /** A token `${k}` from `i` to `j`, with no escape character before it. */
  predicate TokenAt(g: Grammar, t: string, i: nat, j: nat, k: string) {
    !IsEscapedPrefix(g, t, i) && j == i + |g.prefix + k| + |g.suffix| && j <= |t| &&
    t[i..i + |g.prefix + k|] == g.prefix + k && t[i + |g.prefix + k|..j] == g.suffix
  }

  /** A prefix and the plain text `lead` from `i` to `j`, with no escape character before them. */
  predicate OpenAt(g: Grammar, t: string, i: nat, j: nat, lead: string) {
    !IsEscapedPrefix(g, t, i) && j == i + |g.prefix + lead| && j <= |t| && t[i..j] == g.prefix + lead
  }

  /** A suffix from `i` to `j`. */
  predicate SuffixAt(g: Grammar, t: string, i: nat, j: nat) {
    j == i + |g.suffix| && j <= |t| && t[i..j] == g.suffix
  }

  /** The text `mid` from `i` to `j`. */
  predicate TextAt(t: string, i: nat, j: nat, mid: string) {
    j == i + |mid| && j <= |t| && t[i..j] == mid
  }

  /** `${r${k}}` from `i` to `e`, both keys found: the scan adds the value of `r` followed by
      the value of `k`. */
  lemma {:induction false} RegionAt(g: Grammar, sources: seq<Source>, t: string, i: nat, j: nat, m: nat, e: nat,
                                    r: string, k: string, v1: string, v2: string, buf: string, stack: seq<nat>,
                                    depth: nat)
    requires WellFormed(g) && g.prefix[0] != g.suffix[0] && Plain(g, r) && Plain(g, k) && depth > 0
    requires StackFits(stack, |buf|, |g.prefix|)
    requires OpenAt(g, t, i, j, r) && TokenAt(g, t, j, m, k) && SuffixAt(g, t, m, e)
    requires !Contains(k, g.delimiter) && Lookup(k, sources) == Some(v1) && !Contains(v1, g.prefix)
    requires !Contains(r + v1, g.delimiter) && Lookup(r + v1, sources) == Some(v2) && !Contains(v2, g.prefix)
    ensures StackFits(stack, |buf + v2|, |g.prefix|)
    ensures ScanFrom(g, sources, t, i, buf, stack, {}, {}, depth) ==
            ScanFrom(g, sources, t, e, buf + v2, stack, {}, {}, depth)
  {
    StackFitsPush(stack, |buf|, |g.prefix|);
    StackFitsGrow(stack + [|buf|], |buf| + |g.prefix|, |buf + g.prefix + r|, |g.prefix|);
    FoundStepTo(g, sources, t, j, m, k, v1, buf + g.prefix + r, stack + [|buf|], {}, {}, depth);
    WrappedAt(g, sources, t, i, j, m, e, r, v1, v2, buf, stack, {}, {}, {}, depth);
  }

  /** `${z${r${k}}}` from `i` to `e`, all three keys found. */
  lemma {:induction false} ZoneAt(g: Grammar, sources: seq<Source>, t: string, i: nat, j: nat, j2: nat, m: nat,
                                  e2: nat, e: nat, z: string, r: string, k: string, v1: string, v2: string,
                                  v3: string, buf: string, stack: seq<nat>, depth: nat)
    requires WellFormed(g) && g.prefix[0] != g.suffix[0] && Plain(g, z) && Plain(g, r) && Plain(g, k) && depth > 0
    requires StackFits(stack, |buf|, |g.prefix|)
    requires OpenAt(g, t, i, j, z) && OpenAt(g, t, j, j2, r) && TokenAt(g, t, j2, m, k)
    requires SuffixAt(g, t, m, e2) && SuffixAt(g, t, e2, e)
    requires !Contains(k, g.delimiter) && Lookup(k, sources) == Some(v1) && !Contains(v1, g.prefix)
    requires !Contains(r + v1, g.delimiter) && Lookup(r + v1, sources) == Some(v2) && !Contains(v2, g.prefix)
    requires !Contains(z + v2, g.delimiter) && Lookup(z + v2, sources) == Some(v3) && !Contains(v3, g.prefix)
    ensures ScanFrom(g, sources, t, i, buf, stack, {}, {}, depth) ==
            ScanFrom(g, sources, t, e, buf + v3, stack, {}, {}, depth)
  {
    StackFitsPush(stack, |buf|, |g.prefix|);
    StackFitsGrow(stack + [|buf|], |buf| + |g.prefix|, |buf + g.prefix + z|, |g.prefix|);
    RegionAt(g, sources, t, j, j2, m, e2, r, k, v1, v2, buf + g.prefix + z, stack + [|buf|], depth);
    WrappedAt(g, sources, t, i, j, e2, e, z, v2, v3, buf, stack, {}, {}, {}, depth);
  }

  /** The scan of `lead${k}mid${r${k}}mid${z${r${k}}}` after `lead`. */
  lemma {:induction false} NestedScan(g: Grammar, sources: seq<Source>, t: string, lead: string, mid: string,
                                      k: string, r: string, z: string, v1: string, v2: string, v3: string,
                                      p0: nat, p1: nat, p2: nat, p3: nat, p4: nat, p5: nat, p6: nat, p7: nat,
                                      p8: nat, p9: nat, p10: nat, p11: nat, depth: nat)
    requires WellFormed(g) && g.prefix[0] != g.suffix[0] && depth > 0
    requires Plain(g, mid) && Plain(g, z) && Plain(g, r) && Plain(g, k)
    requires TokenAt(g, t, p0, p1, k) && TextAt(t, p1, p2, mid)
    requires OpenAt(g, t, p2, p3, r) && TokenAt(g, t, p3, p4, k) && SuffixAt(g, t, p4, p5) && TextAt(t, p5, p6, mid)
    requires OpenAt(g, t, p6, p7, z) && OpenAt(g, t, p7, p8, r) && TokenAt(g, t, p8, p9, k)
    requires SuffixAt(g, t, p9, p10) && SuffixAt(g, t, p10, p11)
    requires !Contains(k, g.delimiter) && Lookup(k, sources) == Some(v1) && !Contains(v1, g.prefix)
    requires !Contains(r + v1, g.delimiter) && Lookup(r + v1, sources) == Some(v2) && !Contains(v2, g.prefix)
    requires !Contains(z + v2, g.delimiter) && Lookup(z + v2, sources) == Some(v3) && !Contains(v3, g.prefix)
    ensures ScanFrom(g, sources, t, p0, lead, [], {}, {}, depth) ==
            ScanFrom(g, sources, t, p11, lead + v1 + mid + v2 + mid + v3, [], {}, {}, depth)
  {
    FoundStepTo(g, sources, t, p0, p1, k, v1, lead, [], {}, {}, depth);
    PlainAt(g, sources, t, p1, p2, mid, lead + v1, [], {}, {}, depth);
    RegionAt(g, sources, t, p2, p3, p4, p5, r, k, v1, v2, lead + v1 + mid, [], depth);
    PlainAt(g, sources, t, p5, p6, mid, lead + v1 + mid + v2, [], {}, {}, depth);
    ZoneAt(g, sources, t, p6, p7, p8, p9, p10, p11, z, r, k, v1, v2, v3, lead + v1 + mid + v2 + mid, [], depth);
  }

  /** The test's sources: an environment without the keys, then a map whose keys name the
      values of the inner tokens. */
  lemma NestedKeysFound(sources: seq<Source>, r: string, z: string)
    requires sources == [map[], map["profile" := "prod", "region-prod" := "us-east-1", "zone-us-east-1" := "zone-a"]]
    requires r == "region-" && z == "zone-"
    ensures Lookup("profile", sources) == Some("prod") && Lookup(r + "prod", sources) == Some("us-east-1")
    ensures Lookup(z + "us-east-1", sources) == Some("zone-a")
  {
    FoundInSecond(sources, "profile", "prod");
    assert r + "prod" == "region-prod";
    FoundInSecond(sources, r + "prod", "us-east-1");
    assert z + "us-east-1" == "zone-us-east-1";
    FoundInSecond(sources, z + "us-east-1", "zone-a");
  }

  /** The keys and values of the test are plain, and no key holds the delimiter. */
  lemma NestedEntries(g: Grammar)
    requires g == Defaults()
    ensures SimpleEntry(g, "profile", "prod") && SimpleEntry(g, "region-prod", "us-east-1")
  {
    EntryFacts(g, "profile", "prod");
    EntryFacts(g, "region-prod", "us-east-1");
  }

  lemma ZoneEntry(g: Grammar)
    requires g == Defaults()
    ensures SimpleEntry(g, "zone-us-east-1", "zone-a")
  {
    EntryFacts(g, "zone-us-east-1", "zone-a");
  }

  /** The keys of the outer tokens once their inner tokens are replaced. */
  lemma NestedKeys(r: string, z: string)
    requires r == "region-" && z == "zone-"
    ensures r + "prod" == "region-prod" && z + "us-east-1" == "zone-us-east-1"
  {
  }

  /** The template read as its first two tokens and its last. */
  lemma NestedText(t: string, front: string, back: string)
    requires t == "application-${profile}-${region-${profile}}-${zone-${region-${profile}}}"
    requires front == "application-${profile}-${region-${profile}}-" && back == "${zone-${region-${profile}}}"
    ensures t == front + back
  {
  }

  /** The first two tokens read as two pieces. */
  lemma NestedFront(front: string, a: string, b: string)
    requires front == "application-${profile}-${region-${profile}}-"
    requires a == "application-${profile}-" && b == "${region-${profile}}-"
    ensures front == a + b
  {
  }

  /** The first two pieces are a token followed by plain text. */
  lemma NestedPieces(a: string, b: string)
    requires a == "application-${profile}-" && b == "${region-${profile}}-"
    ensures a == "application-" + "${profile}" + "-" && b == "${region-${profile}}" + "-"
  {
  }

  /** Each token of the template is the prefix, a plain part, the token inside and the suffix. */
  lemma ProfileToken(g: Grammar, t1: string)
    requires g == Defaults() && t1 == "${profile}"
    ensures t1 == g.prefix + "profile" + g.suffix
  {
  }

  lemma RegionToken(g: Grammar, t1: string, t2: string)
    requires g == Defaults() && t1 == "${profile}" && t2 == "${region-${profile}}"
    ensures t2 == g.prefix + "region-" + t1 + g.suffix
  {
    InnerToken(g, t1, t2, "region-");
  }

  lemma ZoneToken(g: Grammar, t2: string, t3: string)
    requires g == Defaults() && t2 == "${region-${profile}}" && t3 == "${zone-${region-${profile}}}"
    ensures t3 == g.prefix + "zone-" + t2 + g.suffix
  {
    InnerToken(g, t2, t3, "zone-");
  }

  /** `${part` followed by a token and `}`. */
  lemma InnerToken(g: Grammar, inner: string, t: string, part: string)
    requires g == Defaults() && t == "${" + part + inner + "}"
    ensures t == g.prefix + part + inner + g.suffix
  {
  }

  /** The pieces joined are the template `lead${k}mid${r${k}}mid${z${r${k}}}`. */
  lemma NestedJoin(t: string, front: string, a: string, b: string, t1: string, t2: string, t3: string,
                   lead: string, p: string, s: string, k: string, mid: string, r: string, z: string)
    requires t == front + t3 && front == a + b && a == lead + t1 + mid && b == t2 + mid
    requires t1 == p + k + s && t2 == p + r + t1 + s && t3 == p + z + t2 + s
    ensures t == lead + p + k + s + mid + p + r + p + k + s + s + mid + p + z + p + r + p + k + s + s + s
  {
    var f6 := lead + p + k + s + mid + p + r + p + k + s + s + mid;
    assert front == f6;
    assert t3 == p + z + p + r + p + k + s + s + s;
  }

  /** The plain pieces and keys of the test's template. */
  lemma NestedTestShape(g: Grammar, lead: string, mid: string, k: string, r: string, z: string)
    requires g == Defaults() && lead == "application-" && mid == "-" && k == "profile" && r == "region-" && z == "zone-"
    ensures NestedShape(g, lead, mid, k, r, z)
  {
    DefaultLead(g, lead);
    EntryFacts(g, k, "");
    EntryFacts(g, r, "");
    EntryFacts(g, z, "");
  }

  lemma NestedResult(lead: string, v1: string, mid: string, v2: string, v3: string, r: string)
    requires lead == "application-" && v1 == "prod" && mid == "-" && v2 == "us-east-1" && v3 == "zone-a"
    requires r == "application-prod-us-east-1-zone-a"
    ensures lead + v1 + mid + v2 + mid + v3 == r
  {
  }

  /** A deeply nested template is resolved from the inside out:
      `application-${profile}-${region-${profile}}-${zone-${region-${profile}}}` becomes
      `application-prod-us-east-1-zone-a`. */
  lemma NestedTokensResolved(copy: Copy, t: string, sources: seq<Source>)
    requires t == "application-${profile}-${region-${profile}}-${zone-${region-${profile}}}"
    requires sources == [map[], map["profile" := "prod", "region-prod" := "us-east-1", "zone-us-east-1" := "zone-a"]]
    ensures Interpolation(Placeholder(copy, Defaults(), sources), Some(t), None, 1) ==
            Resolved("application-prod-us-east-1-zone-a")
  {
    var g := Defaults();
    NestedKeysFound(sources, "region-", "zone-");
    NestedKeys("region-", "zone-");
    NestedEntries(g);
    ZoneEntry(g);
    NestedText(t, "application-${profile}-${region-${profile}}-", "${zone-${region-${profile}}}");
    NestedFront("application-${profile}-${region-${profile}}-", "application-${profile}-", "${region-${profile}}-");
    NestedPieces("application-${profile}-", "${region-${profile}}-");
    ProfileToken(g, "${profile}");
    RegionToken(g, "${profile}", "${region-${profile}}");
    ZoneToken(g, "${region-${profile}}", "${zone-${region-${profile}}}");
    NestedJoin(t, "application-${profile}-${region-${profile}}-", "application-${profile}-", "${region-${profile}}-", "${profile}", "${region-${profile}}", "${zone-${region-${profile}}}",
               "application-", g.prefix, g.suffix, "profile", "-", "region-", "zone-");
    NestedTestShape(g, "application-", "-", "profile", "region-", "zone-");
    NestedResult("application-", "prod", "-", "us-east-1", "zone-a", "application-prod-us-east-1-zone-a");
    NestedTemplate(Placeholder(copy, g, sources), t, "application-", "-", "profile", "region-", "zone-",
                   "prod", "us-east-1", "zone-a", 1);
  }

  /** The plain pieces and keys of `lead${k}mid${r${k}}mid${z${r${k}}}`. */
  predicate NestedShape(g: Grammar, lead: string, mid: string, k: string, r: string, z: string)
    requires WellFormed(g)
  {
    g.prefix[0] != g.suffix[0] && Plain(g, lead) && Plain(g, mid) && Plain(g, k) && Plain(g, r) && Plain(g, z) &&
    lead != [] && !IsWhitespace(lead[0]) && lead[|lead| - 1] != g.escapeChar &&
    mid != [] && mid[|mid| - 1] != g.escapeChar && r != [] && r[|r| - 1] != g.escapeChar &&
    z != [] && z[|z| - 1] != g.escapeChar
  }

  /** `lead${k}mid${r${k}}mid${z${r${k}}}`: each inner token is resolved first and its value
      completes the key of the token around it; with every key found, the template resolves to
      the three values between the plain pieces. */
  lemma {:induction false} NestedTemplate(p: Placeholder, t: string, lead: string, mid: string, k: string,
                                          r: string, z: string, v1: string, v2: string, v3: string, depth: nat)
    requires t == lead + p.grammar.prefix + k + p.grammar.suffix + mid + p.grammar.prefix + r + p.grammar.prefix + k +
                  p.grammar.suffix + p.grammar.suffix + mid + p.grammar.prefix + z + p.grammar.prefix + r +
                  p.grammar.prefix + k + p.grammar.suffix + p.grammar.suffix + p.grammar.suffix
    requires WellFormed(p.grammar) && NestedShape(p.grammar, lead, mid, k, r, z) && p.sources != [] && depth > 0
    requires !Contains(k, p.grammar.delimiter) && Lookup(k, p.sources) == Some(v1) && !Contains(v1, p.grammar.prefix)
    requires !Contains(r + v1, p.grammar.delimiter) && Lookup(r + v1, p.sources) == Some(v2)
    requires !Contains(v2, p.grammar.prefix)
    requires !Contains(z + v2, p.grammar.delimiter) && Lookup(z + v2, p.sources) == Some(v3)
    requires !Contains(v3, p.grammar.prefix)
    ensures Interpolation(p, Some(t), None, depth) == Resolved(lead + v1 + mid + v2 + mid + v3)
  {
    var g, sources := p.grammar, p.sources;
    var f1 := lead + g.prefix + k + g.suffix; var f2 := f1 + mid; var f3 := f2 + g.prefix + r;
    var f4 := f3 + g.prefix + k + g.suffix; var f5 := f4 + g.suffix; var f6 := f5 + mid;
    var f7 := f6 + g.prefix + z; var f8 := f7 + g.prefix + r; var f9 := f8 + g.prefix + k + g.suffix;
    var f10 := f9 + g.suffix;
    NestedLayout(g, t, lead, mid, k, r, z);
    LeadCopied(g, sources, t, lead, {}, {}, depth);
    NestedScan(g, sources, t, lead, mid, k, r, z, v1, v2, v3,
               |lead|, |f1|, |f2|, |f3|, |f4|, |f5|, |f6|, |f7|, |f8|, |f9|, |f10|, |t|, depth);
    NotBlankAfter(t, lead);
    ContainsAt(t, g.prefix, |lead|);
    ScannedVerdict(p, t, depth);
  }

  /** A prefix `front${k}` of `t` holds a token right after `front`. */
  lemma TokenLayout(g: Grammar, t: string, front: string, k: string)
    requires |front + g.prefix + k + g.suffix| <= |t| && t[..|front + g.prefix + k + g.suffix|] == front + g.prefix + k + g.suffix
    requires front == [] || front[|front| - 1] != g.escapeChar
    ensures t[..|front|] == front && StartsWithAt(t, |front|, g.prefix)
    ensures TokenAt(g, t, |front|, |front + g.prefix + k + g.suffix|, k)
  {
    PrefixOf(t, front + g.prefix + k, g.suffix);
    PrefixPieces(t, front, g.prefix, k);
    UnescapedAfter(g, t, front);
  }

  /** A prefix `front${lead` of `t` opens a token right after `front`. */
  lemma OpenLayout(g: Grammar, t: string, front: string, lead: string)
    requires |front + g.prefix + lead| <= |t| && t[..|front + g.prefix + lead|] == front + g.prefix + lead
    requires front == [] || front[|front| - 1] != g.escapeChar
    ensures t[..|front|] == front && OpenAt(g, t, |front|, |front + g.prefix + lead|, lead)
  {
    PrefixPieces(t, front, g.prefix, lead);
    UnescapedAfter(g, t, front);
  }

  /** A prefix `front}` of `t` holds a suffix right after `front`. */
  lemma SuffixLayout(g: Grammar, t: string, front: string)
    requires |front + g.suffix| <= |t| && t[..|front + g.suffix|] == front + g.suffix
    ensures t[..|front|] == front && SuffixAt(g, t, |front|, |front + g.suffix|)
  {
    PrefixOf(t, front, g.suffix);
  }

  /** A prefix `front + mid` of `t` holds `mid` right after `front`. */
  lemma TextLayout(t: string, front: string, mid: string)
    requires |front + mid| <= |t| && t[..|front + mid|] == front + mid
    ensures t[..|front|] == front && TextAt(t, |front|, |front + mid|, mid)
  {
    PrefixOf(t, front, mid);
  }

  /** Where the pieces of `lead${k}mid${r${k}}mid${z${r${k}}}` stand. */
  lemma NestedLayout(g: Grammar, t: string, lead: string, mid: string, k: string, r: string, z: string)
    requires t == lead + g.prefix + k + g.suffix + mid + g.prefix + r + g.prefix + k + g.suffix + g.suffix + mid +
                  g.prefix + z + g.prefix + r + g.prefix + k + g.suffix + g.suffix + g.suffix
    requires lead == [] || lead[|lead| - 1] != g.escapeChar
    requires mid != [] && mid[|mid| - 1] != g.escapeChar && r != [] && r[|r| - 1] != g.escapeChar
    requires z != [] && z[|z| - 1] != g.escapeChar
    ensures var f1 := lead + g.prefix + k + g.suffix; var f2 := f1 + mid; var f3 := f2 + g.prefix + r;
      var f4 := f3 + g.prefix + k + g.suffix; var f5 := f4 + g.suffix; var f6 := f5 + mid;
      var f7 := f6 + g.prefix + z; var f8 := f7 + g.prefix + r; var f9 := f8 + g.prefix + k + g.suffix;
      var f10 := f9 + g.suffix;
      t[..|lead|] == lead && StartsWithAt(t, |lead|, g.prefix) &&
      TokenAt(g, t, |lead|, |f1|, k) && TextAt(t, |f1|, |f2|, mid) &&
      OpenAt(g, t, |f2|, |f3|, r) && TokenAt(g, t, |f3|, |f4|, k) && SuffixAt(g, t, |f4|, |f5|) &&
      TextAt(t, |f5|, |f6|, mid) && OpenAt(g, t, |f6|, |f7|, z) && OpenAt(g, t, |f7|, |f8|, r) &&
      TokenAt(g, t, |f8|, |f9|, k) && SuffixAt(g, t, |f9|, |f10|) && SuffixAt(g, t, |f10|, |t|)
  {
    var f6 := lead + g.prefix + k + g.suffix + mid + g.prefix + r + g.prefix + k + g.suffix + g.suffix + mid;
    NestedLayoutTail(g, t, f6, z, r, k);
    NestedLayoutHead(g, t, lead, mid, k, r);
  }

  /** Where the pieces of `front${z${r${k}}}` stand after `front`. */
  lemma NestedLayoutTail(g: Grammar, t: string, front: string, z: string, r: string, k: string)
    requires t == front + g.prefix + z + g.prefix + r + g.prefix + k + g.suffix + g.suffix + g.suffix
    requires front != [] && front[|front| - 1] != g.escapeChar
    requires r != [] && r[|r| - 1] != g.escapeChar && z != [] && z[|z| - 1] != g.escapeChar
    ensures var f7 := front + g.prefix + z; var f8 := f7 + g.prefix + r; var f9 := f8 + g.prefix + k + g.suffix;
      var f10 := f9 + g.suffix;
      |front| <= |t| && t[..|front|] == front &&
      OpenAt(g, t, |front|, |f7|, z) && OpenAt(g, t, |f7|, |f8|, r) &&
      TokenAt(g, t, |f8|, |f9|, k) && SuffixAt(g, t, |f9|, |f10|) && SuffixAt(g, t, |f10|, |t|)
  {
    var f7 := front + g.prefix + z; var f8 := f7 + g.prefix + r; var f9 := f8 + g.prefix + k + g.suffix;
    var f10 := f9 + g.suffix;
    assert t[..|f10 + g.suffix|] == f10 + g.suffix;
    SuffixLayout(g, t, f10);
    SuffixLayout(g, t, f9);
    assert f8[|f8| - 1] == r[|r| - 1];
    TokenLayout(g, t, f8, k);
    assert f7[|f7| - 1] == z[|z| - 1];
    OpenLayout(g, t, f7, r);
    OpenLayout(g, t, front, z);
  }

  /** Where the pieces of the prefix `lead${k}mid${r${k}}mid` of `t` stand. */
  lemma NestedLayoutHead(g: Grammar, t: string, lead: string, mid: string, k: string, r: string)
    requires var f6 := lead + g.prefix + k + g.suffix + mid + g.prefix + r + g.prefix + k + g.suffix + g.suffix + mid;
      |f6| <= |t| && t[..|f6|] == f6
    requires lead == [] || lead[|lead| - 1] != g.escapeChar
    requires mid != [] && mid[|mid| - 1] != g.escapeChar && r != [] && r[|r| - 1] != g.escapeChar
    ensures var f1 := lead + g.prefix + k + g.suffix; var f2 := f1 + mid; var f3 := f2 + g.prefix + r;
      var f4 := f3 + g.prefix + k + g.suffix; var f5 := f4 + g.suffix; var f6 := f5 + mid;
      t[..|lead|] == lead && StartsWithAt(t, |lead|, g.prefix) &&
      TokenAt(g, t, |lead|, |f1|, k) && TextAt(t, |f1|, |f2|, mid) &&
      OpenAt(g, t, |f2|, |f3|, r) && TokenAt(g, t, |f3|, |f4|, k) && SuffixAt(g, t, |f4|, |f5|) &&
      TextAt(t, |f5|, |f6|, mid)
  {
    var f1 := lead + g.prefix + k + g.suffix; var f2 := f1 + mid; var f3 := f2 + g.prefix + r;
    var f4 := f3 + g.prefix + k + g.suffix; var f5 := f4 + g.suffix;
    TextLayout(t, f5, mid);
    SuffixLayout(g, t, f4);
    assert f3[|f3| - 1] == r[|r| - 1];
    TokenLayout(g, t, f3, k);
    assert f2[|f2| - 1] == mid[|mid| - 1];
    OpenLayout(g, t, f2, r);
    TextLayout(t, f1, mid);
    TokenLayout(g, t, lead, k);
  }
}
