/** The behaviour `DefaultPlaceholderTest` checks, proved of the model on the same inputs: the
    syntax `${key:fallback}` with `\` as escape, an environment source that lacks the key and a
    map source that has it. Each lemma takes the template as a parameter pinned to the test's
    literal. */
module PlaceholderExamples {
  import opened Wrappers
  import opened JavaString
  import StringUtils
  import opened PropertySources
  import opened DefaultPlaceholder
  import opened PlaceholderProperties

  /** `${key:fallback}` with `\` as the escape character. */
  function Defaults(): (g: Grammar)
    ensures WellFormed(g) && g.prefix[0] != g.suffix[0]
  {
    Grammar("${", "}", ":", '\\')
  }

  /** The sources of the tests: an environment without the key, then a map with it. */
  lemma ProfileIsDev(sources: seq<Source>)
    requires sources == [map[], map["profile" := "dev"]]
    ensures Lookup("profile", sources) == Some("dev")
  {
    assert !IsWhitespace("profile"[0]);
    assert "profile" !in sources[0] && "profile" in sources[1];
    LookupFirstWins("profile", sources);
  }

  /** The lead `application-` is plain text that ends without the escape character. */
  lemma DefaultLead(g: Grammar, lead: string)
    requires g == Defaults() && lead == "application-"
    ensures Plain(g, lead) && lead != [] && !IsWhitespace(lead[0]) && lead[|lead| - 1] != g.escapeChar
  {
  }

  /** `profile` holds no character that begins the delimiter. */
  lemma ProfileKey(g: Grammar, key: string)
    requires g == Defaults() && key == "profile"
    ensures Plain(g, key) && forall x :: 0 <= x < |key| ==> key[x] != g.delimiter[0]
  {
  }

  /** `application-${profile}`, with or without a stray suffix, is a one-token template. */
  lemma ProfileShape(g: Grammar, tail: string)
    requires g == Defaults() && (tail == "" || tail == "}")
    ensures OneTokenShape(g, "application-", "profile", None, tail)
  {
    DefaultLead(g, "application-");
    ProfileKey(g, "profile");
  }

  /** `application-${profile:default}` is a one-token template. */
  lemma FallbackShape(g: Grammar, fallback: string)
    requires g == Defaults() && fallback == "default"
    ensures OneTokenShape(g, "application-", "profile", Some(fallback), "")
  {
    DefaultLead(g, "application-");
    ProfileKey(g, "profile");
    assert TokenText(g, "profile", Some(fallback)) == "profile:default";
  }

  /** `application-${profile:}` is a one-token template. */
  lemma EmptyFallbackShape(g: Grammar, fallback: string)
    requires g == Defaults() && fallback == ""
    ensures OneTokenShape(g, "application-", "profile", Some(fallback), "")
  {
    DefaultLead(g, "application-");
    ProfileKey(g, "profile");
    assert TokenText(g, "profile", Some(fallback)) == "profile:";
  }

  /** The value `dev` holds no prefix. */
  lemma DevHasNoPrefix(value: string, prefix: string)
    requires value == "dev" && prefix == "${"
    ensures !Contains(value, prefix)
  {
    IndexOfAbsent(value, prefix);
  }

  /** `application-${profile}` followed by `tail`, and its resolution. */
  lemma ProfileText(g: Grammar, t: string, tail: string, resolved: string)
    requires g == Defaults()
    requires || (tail == "" && t == "application-${profile}" && resolved == "application-dev")
             || (tail == "}" && t == "application-${profile}}" && resolved == "application-dev}")
    ensures t == "application-" + g.prefix + TokenText(g, "profile", None) + g.suffix + tail
    ensures resolved == "application-" + "dev" + tail
  {
  }

  /** `application-${profile}` becomes `application-dev`, taken from the second source. */
  lemma ResolvesFromLaterSource(copy: Copy, t: string, sources: seq<Source>)
    requires t == "application-${profile}" && sources == [map[], map["profile" := "dev"]]
    ensures Interpolation(Placeholder(copy, Defaults(), sources), Some(t), None, 1) == Resolved("application-dev")
  {
    var g := Defaults();
    var lead, key, value, tail := "application-", "profile", "dev", "";
    ProfileIsDev(sources);
    DevHasNoPrefix(value, g.prefix);
    ProfileShape(g, tail);
    ProfileText(g, t, tail, "application-dev");
    FoundKeyTemplate(Placeholder(copy, g, sources), lead, key, None, tail, 1, t);
  }

  /** A stray suffix after the token is kept: `application-${profile}}` becomes
      `application-dev}`. */
  lemma StraySuffixKept(copy: Copy, t: string, sources: seq<Source>)
    requires t == "application-${profile}}" && sources == [map[], map["profile" := "dev"]]
    ensures Interpolation(Placeholder(copy, Defaults(), sources), Some(t), None, 1) == Resolved("application-dev}")
  {
    var g := Defaults();
    var lead, key, value, tail := "application-", "profile", "dev", "}";
    ProfileIsDev(sources);
    DevHasNoPrefix(value, g.prefix);
    ProfileShape(g, tail);
    ProfileText(g, t, tail, "application-dev}");
    FoundKeyTemplate(Placeholder(copy, g, sources), lead, key, None, tail, 1, t);
  }

  /** With no source holding `profile`, the key is missing and `default` holds no prefix. */
  lemma FallbackMissing(sources: seq<Source>, key: string, fallback: string, prefix: string)
    requires sources == [map[]] && key == "profile" && (fallback == "default" || fallback == "") && prefix == "${"
    ensures Lookup(key, sources).None? && !Contains(fallback, prefix)
  {
    LookupFirstWins(key, sources);
    IndexOfAbsent(fallback, prefix);
  }

  /** `application-${profile:fallback}` and its resolution. */
  lemma FallbackText(g: Grammar, t: string, fallback: string, resolved: string)
    requires g == Defaults()
    requires || (fallback == "default" && t == "application-${profile:default}" && resolved == "application-default")
             || (fallback == "" && t == "application-${profile:}" && resolved == "application-")
    ensures t == "application-" + g.prefix + TokenText(g, "profile", Some(fallback)) + g.suffix + ""
    ensures resolved == "application-" + fallback + ""
  {
    assert TokenText(g, "profile", Some(fallback)) == "profile:" + fallback;
  }

  /** A missing key falls back: `application-${profile:default}` becomes
      `application-default`. */
  lemma FallbackApplies(copy: Copy, t: string, sources: seq<Source>)
    requires t == "application-${profile:default}" && sources == [map[]]
    ensures Interpolation(Placeholder(copy, Defaults(), sources), Some(t), None, 1) == Resolved("application-default")
  {
    var g := Defaults();
    var lead, key, fallback, tail := "application-", "profile", "default", "";
    FallbackMissing(sources, key, fallback, g.prefix);
    FallbackShape(g, fallback);
    FallbackText(g, t, fallback, "application-default");
    FallbackTemplate(Placeholder(copy, g, sources), lead, key, fallback, tail, 1, t);
  }

  /** An empty fallback is a valid value: `application-${profile:}` becomes `application-`. */
  lemma EmptyFallbackApplies(copy: Copy, t: string, sources: seq<Source>)
    requires t == "application-${profile:}" && sources == [map[]]
    ensures Interpolation(Placeholder(copy, Defaults(), sources), Some(t), None, 1) == Resolved("application-")
  {
    var g := Defaults();
    var lead, key, fallback, tail := "application-", "profile", "", "";
    FallbackMissing(sources, key, fallback, g.prefix);
    EmptyFallbackShape(g, fallback);
    FallbackText(g, t, fallback, "application-");
    FallbackTemplate(Placeholder(copy, g, sources), lead, key, fallback, tail, 1, t);
  }

  /** A missing key without fallback makes the whole result empty. */
  lemma MissingKeyUnresolvable(copy: Copy, t: string, sources: seq<Source>)
    requires t == "application-${profile}" && sources == [map[]]
    ensures Interpolation(Placeholder(copy, Defaults(), sources), Some(t), None, 1) == Unresolvable
  {
    LookupFirstWins("profile", sources);
    ProfileShape(Defaults(), "");
    MissingKeyTemplate(Placeholder(copy, Defaults(), sources), "application-", "profile", "", 1, t);
  }

  /** An empty token `${}` has a blank key, which is never found: the result is empty. */
  lemma EmptyTokenUnresolvable(copy: Copy, t: string, sources: seq<Source>)
    requires t == "application-${}" && sources == [map[], map["profile" := "dev"]]
    ensures Interpolation(Placeholder(copy, Defaults(), sources), Some(t), None, 1) == Unresolvable
  {
    MissingKeyTemplate(Placeholder(copy, Defaults(), sources), "application-", "", "", 1, t);
  }

  /** `profile` and `environment` name each other's token. */
  lemma MutualLookups(sources: seq<Source>)
    requires sources == [map["profile" := "${environment}", "environment" := "${profile}"]]
    ensures Lookup("profile", sources) == Some("${environment}")
    ensures Lookup("environment", sources) == Some("${profile}")
    ensures !Contains("environment", ":") && Plain(Defaults(), "environment")
  {
    assert !IsWhitespace("profile"[0]) && !IsWhitespace("environment"[0]);
    assert |"profile"| != |"environment"|;
    assert "profile" in sources[0] && "environment" in sources[0];
    LookupFirstWins("profile", sources);
    LookupFirstWins("environment", sources);
    IndexOfAbsent("environment", ":");
  }

  /** `application-${profile}` where `profile` and `environment` refer to each other: a
      circular reference naming `profile`. */
  lemma MutualReferenceReported(copy: Copy, t: string, sources: seq<Source>)
    requires t == "application-${profile}"
    requires sources == [map["profile" := "${environment}", "environment" := "${profile}"]]
    ensures Interpolation(Placeholder(copy, Defaults(), sources), Some(t), None, 2) == CircularReference("profile")
  {
    var g := Defaults();
    var lead, a, b, tail := "application-", "profile", "environment", "";
    MutualLookups(sources);
    ProfileShape(g, tail);
    MutualText(g, t, a, b);
    MutualReferenceTemplate(Placeholder(copy, g, sources), lead, a, b, tail, 2, t);
  }

  /** The two values are each other's token, and the template is one token after a lead. */
  lemma MutualText(g: Grammar, t: string, a: string, b: string)
    requires g == Defaults() && t == "application-${profile}" && a == "profile" && b == "environment"
    ensures "${environment}" == g.prefix + b + g.suffix && "${profile}" == g.prefix + a + g.suffix
    ensures t == "application-" + g.prefix + a + g.suffix + "" && a != b
  {
  }

  /** The lead ends without the escape character, and the rest holds no prefix. */
  lemma EscapedShape(g: Grammar, lead: string, tail: string)
    requires g == Defaults() && lead == "application-" && tail == "region}"
    ensures Plain(g, lead + [g.escapeChar]) && lead != [] && !IsWhitespace(lead[0])
    ensures forall x :: 0 <= x < |tail| ==> tail[x] != g.prefix[0]
  {
  }

  /** `application-\${region}` is the lead, the escape character, the prefix and the rest. */
  lemma EscapedText(g: Grammar, t: string, lead: string, tail: string, resolved: string)
    requires g == Defaults() && lead == "application-" && tail == "region}"
    requires t == "application-\\${region}" && resolved == "application-${region}"
    ensures t == lead + [g.escapeChar] + g.prefix + tail && resolved == lead + g.prefix + tail
  {
  }

  /** The escaped token is kept as text and the escape character dropped:
      `application-\${region}` becomes `application-${region}`. */
  lemma EscapedTokenKept(copy: Copy, t: string, sources: seq<Source>)
    requires t == "application-\\${region}" && sources == [map[], map["profile" := "dev"]]
    ensures Interpolation(Placeholder(copy, Defaults(), sources), Some(t), None, 1) == Resolved("application-${region}")
  {
    var g := Defaults();
    var lead, tail := "application-", "region}";
    EscapedShape(g, lead, tail);
    EscapedText(g, t, lead, tail, "application-${region}");
    EscapedTemplate(Placeholder(copy, g, sources), lead, tail, 1, t);
  }

  /** `application-{{profile|default}}` is a one-token template of the syntax
      `{{key|fallback}}`. */
  lemma CustomShape(g: Grammar)
    requires g == Grammar("{{", "}}", "|", '\\')
    ensures WellFormed(g) && OneTokenShape(g, "application-", "profile", Some("default"), "")
  {
    CustomLead(g, "application-");
    CustomToken(g, "profile", "default");
  }

  lemma CustomLead(g: Grammar, lead: string)
    requires g == Grammar("{{", "}}", "|", '\\') && lead == "application-"
    ensures WellFormed(g) && Plain(g, lead) && lead != [] && !IsWhitespace(lead[0]) && lead[|lead| - 1] != g.escapeChar
  {
  }

  lemma CustomToken(g: Grammar, key: string, fallback: string)
    requires g == Grammar("{{", "}}", "|", '\\') && key == "profile" && fallback == "default"
    ensures WellFormed(g) && Plain(g, TokenText(g, key, Some(fallback)))
    ensures forall x :: 0 <= x < |key| ==> key[x] != g.delimiter[0]
  {
    assert TokenText(g, key, Some(fallback)) == "profile|default";
  }

  /** The template splits into the lead, the token and an empty tail. */
  lemma CustomTemplate(g: Grammar, t: string)
    requires g == Grammar("{{", "}}", "|", '\\') && t == "application-{{profile|default}}"
    ensures t == "application-" + g.prefix + TokenText(g, "profile", Some("default")) + g.suffix + ""
  {
    assert TokenText(g, "profile", Some("default")) == "profile|default";
  }

  /** With the syntax `{{key|fallback}}`, `application-{{profile|default}}` becomes
      `application-dev`: the found value wins over the fallback. */
  lemma CustomSyntax(g: Grammar, t: string, sources: seq<Source>)
    requires g == Grammar("{{", "}}", "|", '\\') && sources == [map["profile" := "dev"]]
    requires t == "application-{{profile|default}}"
    ensures Interpolation(Placeholder(Legacy, g, sources), Some(t), None, 1) == Resolved("application-dev")
  {
    assert !IsWhitespace("profile"[0]);
    LookupFirstWins("profile", sources);
    IndexOfAbsent("dev", g.prefix);
    CustomShape(g);
    CustomTemplate(g, t);
    var expected := "application-" + "dev" + "";
    assert expected == "application-dev";
    FoundKeyTemplate(Placeholder(Legacy, g, sources), "application-", "profile", Some("default"), "", 1, t);
  }

  /** With no sources, the template is unresolvable even though it has a token. */
  lemma EmptySourcesUnresolvable(copy: Copy, t: string)
    requires t == "application-${profile}}"
    ensures Interpolation(Placeholder(copy, Defaults(), []), Some(t), None, 1) == Unresolvable
  {
    assert t[12..14] == Defaults().prefix;
    ContainsAt(t, Defaults().prefix, 12);
    NoSourcesUnresolvable(Placeholder(copy, Defaults(), []), t, 1);
  }

  /** A blank template comes back unchanged. */
  lemma BlankTemplateUnchanged(copy: Copy, t: string, sources: seq<Source>)
    requires t == "   " && sources == [map[], map["profile" := "dev"]]
    ensures Interpolation(Placeholder(copy, Defaults(), sources), Some(t), None, 1) == Resolved(t)
  {
    assert StringUtils.IsBlank(Some(t));
    VerbatimTemplateUnchanged(Placeholder(copy, Defaults(), sources), t, None, 1);
  }
}
