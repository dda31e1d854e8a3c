# liana-config core, modelled in Dafny

liana-config loads layered application configuration. This project models its core:

- **The placeholder engine** (`DefaultPlaceholder`, in both the `config/core` copy and the older
  `config` copy, and `DefaultPlaceholderBuilder`). It rewrites `${key}` and `${key:fallback}`
  tokens in a template from an ordered list of property sources. Values are rewritten
  recursively and circular references are detected. The result is present only when every
  key was found.
- **The map merger** (`JacksonMerger`). It folds an ordered list of configuration maps into one
  tree. Top-level arrays are replaced wholesale, nested objects merge recursively, and later
  scalars win.
- **The path mapper** (`JacksonPathMapper`). It turns a dotted path such as `users[0].name`
  into a JSON Pointer (`/users/0/name`) and evaluates it over the tree, as section 4 of RFC
  6901 describes.
- **The service registry** (`ServiceRegistry`). It finds and caches a service per
  case-insensitive alias.
- **The supporting pieces**:
  - the config-map cache;
  - the file-format table and the file-extension validator;
  - the `ConfigSource` builder;
  - `PropertySources`;
  - the helpers of `internal/` (`StringUtils`, `ListUtils`, `MapUtils`);
  - the few `java.lang.String` operations these rely on (`JavaString`).

**Modelling choices.**

- Java `null` is `Option.None`; a thrown exception is a `Result.Failure` carrying an
  `Exceptions.Exception` value.
- Pure code is written as functions.
- Code that mutates state is written as classes with `modifies` clauses. This covers the
  placeholder engine's scanning loop with its session sets, the merger's `ObjectNode`, the
  registry's cache, the cache cell and both builders.
- Loops are methods with loop invariants. Each is proved equal to a specification function
  whose own properties are proved as lemmas.
- The two `DefaultPlaceholder` copies share one model, told apart by `Copy`. The only
  behavioural difference between them is when the merged source list is built:
  - the core copy builds it after the fast path for templates without a placeholder;
  - the older copy builds it before, so a null extra source throws even for a plain
    template.

  `PlaceholderProperties.CopiesAgree` states this.
- When the merged source list is empty, both copies return an empty result for every template
  that is not blank and contains the prefix, before any token is looked at
  (`DefaultPlaceholder.java:89-92` of the core copy). This holds even when every token has a
  fallback, so `app-${profile:default}` with no sources gives an empty result, not
  `app-default`. `PlaceholderProperties.NoSourcesUnresolvable` and
  `PlaceholderExamples.EmptySourcesUnresolvable` state this.

## Model

| member | source | states |
|---|---|---|
| JavaString.Trim | src/main/java/io/github/liana/core/configs/FileExtensionValidator.java:25 | `String.trim`: the result is the input with its maximal runs of characters at or below the space removed at both ends: it is a slice of the input, everything before and after that slice is trimmable, and neither end of the result is |
| JavaString.TrimStart | src/main/java/io/github/liana/core/configs/FileExtensionValidator.java:25 | the result is a suffix of the input, every dropped character is trimmable, and the result does not start with one |
| JavaString.TrimEnd | src/main/java/io/github/liana/core/configs/FileExtensionValidator.java:25 | the result is a prefix of the input, every dropped character is trimmable, and the result does not end with one |
| JavaString.TrimUntrimmed | src/main/java/io/github/liana/core/configs/FileExtensionValidator.java:25 | a string with no trimmable character at either end is its own trim |
| JavaString.TrimIdempotent | src/main/java/io/github/liana/core/configs/FileExtensionValidator.java:25 | trimming twice is trimming once |
| JavaString.ToLower | src/main/java/io/github/liana/core/configs/FileExtensionValidator.java:26 | `toLowerCase` keeps the length and lowers each character on its own |
| JavaString.ToLowerIdempotent | src/main/java/io/github/liana/config/core/ServiceRegistry.java:91-94 | lowering twice is lowering once, so a lower-cased alias is its own cache key |
| JavaString.NotStartsWithAt | src/main/java/io/github/liana/config/core/DefaultPlaceholder.java:173-175 | a template cannot start a prefix at a position whose character differs from the prefix's first |
| JavaString.IndexOfFrom | src/main/java/io/github/liana/config/core/DefaultPlaceholder.java:218 | `indexOf(d, from)` is the first position at or after `from` where `d` occurs, and `None` (-1) exactly when there is none |
| JavaString.IndexOfAbsent | src/main/java/io/github/liana/config/core/DefaultPlaceholder.java:218 | text none of whose characters begins the delimiter has no delimiter |
| JavaString.IndexOfAt | src/main/java/io/github/liana/config/core/DefaultPlaceholder.java:218 | the delimiter's first occurrence is at `i` when it starts there and no earlier character begins it |
| JavaString.ContainsAt | src/main/java/io/github/liana/config/core/DefaultPlaceholder.java:85 | a template in which the prefix starts somewhere contains the prefix |
| StringUtils.IsBlank | src/main/java/io/github/liana/internal/StringUtils.java:55-57 | null, and strings made only of Java whitespace (the empty one included), are blank and nothing else is |
| StringUtils.DefaultIfBlank | src/main/java/io/github/liana/internal/StringUtils.java:25-27 | a non-blank value is returned unchanged, a blank one is replaced by the default, and a non-blank default gives a non-blank result |
| StringUtils.RequireNonBlank | src/main/java/io/github/liana/internal/StringUtils.java:40-46 | succeeds exactly on non-blank values and returns them unchanged (never empty); otherwise IllegalArgumentException with the caller's message |
| StringUtils.EqualsIgnoreCaseMeaning | src/main/java/io/github/liana/internal/StringUtils.java:66-68 | two nulls are equal, one null is unequal, and two strings are equal exactly when they have the same length and agree character by character after lowering |
| StringUtils.EqualsIgnoreCaseReflexive | src/main/java/io/github/liana/internal/StringUtils.java:66-68 | every value, null included, equals itself ignoring case |
| StringUtils.EqualsIgnoreCaseSymmetric | src/main/java/io/github/liana/internal/StringUtils.java:66-68 | the comparison does not depend on argument order |
| StringUtils.EqualsIgnoreCaseTransitive | src/main/java/io/github/liana/internal/StringUtils.java:66-68 | the comparison is transitive, so it is an equivalence |
| ListUtils.Unwrapped | src/main/java/io/github/liana/internal/ListUtils.java:22-26 | the elements without their null wrapper, present exactly when no element is null, in the same order |
| ListUtils.CopyOf | src/main/java/io/github/liana/internal/ListUtils.java:15-29 | a null input throws with the caller's message; a null element throws "list must not contain null elements"; otherwise the copy has the same elements in the same order |
| ListUtils.ImmutableCopyOf | src/main/java/io/github/liana/internal/ListUtils.java:15-29 | the copying loop returns or throws exactly what `CopyOf` says |
| MapUtils.PairsToMapKeys | src/main/java/io/github/liana/internal/MapUtils.java:52-57 | a key is in the built map exactly when it stands at some even index of the entries |
| MapUtils.PairsToMapLastWins | src/main/java/io/github/liana/internal/MapUtils.java:52-57 | each key maps to the value after its last occurrence as a key, so a later pair overrides an earlier one |
| MapUtils.PairsToMapSize | src/main/java/io/github/liana/internal/MapUtils.java:51-57 | the map has at most one entry per pair |
| MapUtils.OfSpec | src/main/java/io/github/liana/internal/MapUtils.java:44-60 | a null array throws NullPointerException; an odd count throws "Missing value for key" naming the last element; an even count always succeeds |
| MapUtils.Of | src/main/java/io/github/liana/internal/MapUtils.java:44-60 | the loop over the pairs returns or throws exactly what `OfSpec` says |
| MapUtils.OfEmpty | src/main/java/io/github/liana/internal/MapUtils.java:44-60 | no entries give the empty map |
| PropertySources.FromMap | src/main/java/io/github/liana/config/PropertySources.java:50-55 | a null map acts as an empty one; a key is answered exactly when the map has it with a non-null value, and the answer is that value's string form |
| PropertySources.From | src/main/java/io/github/liana/config/PropertySources.java:67-69 | a null source throws "source must not be null"; any other source comes back unchanged |
| DefaultPlaceholder.New | src/main/java/io/github/liana/config/core/DefaultPlaceholder.java:60-67 | construction succeeds exactly when prefix, suffix and delimiter are non-blank and the source list and its elements are non-null. The checks run in that order with their messages. A success holds the given syntax (all three strings non-empty) and the sources in order. The older copy (`config/DefaultPlaceholder.java`, lines 59-66) checks in the same order, copying the list through `ListUtils.immutableCopyOf` |
| DefaultPlaceholder.MergeSources | src/main/java/io/github/liana/config/core/DefaultPlaceholder.java:110-116 | the engine's own sources come first and then the extra ones, in order. A null extra array counts as none, and a null extra source makes the merge throw NullPointerException |
| DefaultPlaceholder.StackFitsPush | src/main/java/io/github/liana/config/core/DefaultPlaceholder.java:139-142 | opening a token records the current buffer length and keeps every recorded offset within the buffer |
| DefaultPlaceholder.StackFitsPop | src/main/java/io/github/liana/config/core/DefaultPlaceholder.java:143-145 | the innermost open token leaves room for the prefix, so `substring(start + prefix.length())` is in range, and the remaining offsets still fit |
| DefaultPlaceholder.StackFitsGrow | src/main/java/io/github/liana/config/core/DefaultPlaceholder.java:146-148 | appending to the buffer keeps every open-token offset within it |
| DefaultPlaceholder.SplitPlaceholder | src/main/java/io/github/liana/config/core/DefaultPlaceholder.java:218-220 | without the delimiter the whole text is the key and there is no fallback. Otherwise key, delimiter and fallback concatenate back to the text, and the key ends where the delimiter first occurs |
| DefaultPlaceholder.FirstSourceWith | src/main/java/io/github/liana/config/core/DefaultPlaceholder.java:276-281 | the first source, in list order, that has the key; none exactly when no source has it |
| DefaultPlaceholder.Lookup | src/main/java/io/github/liana/config/core/DefaultPlaceholder.java:271-284 | a blank key is never found; a found value is the value of some source that has the key |
| DefaultPlaceholder.Replace | src/main/java/io/github/liana/config/core/DefaultPlaceholder.java:127-152 | the scanning loop, with its buffer and stack, returns or aborts as the specification scan `Replaced` does. It leaves the in-resolution set as it found it and the unresolved set as the scan says |
| DefaultPlaceholder.ScanOne | src/main/java/io/github/liana/config/core/DefaultPlaceholder.java:135-149 | one turn of the loop (escaped prefix, opening prefix, closing suffix or plain character) advances the position, keeps the stack within the buffer, and moves the scan to its next state or to its abort |
| DefaultPlaceholder.ProcessPlaceholder | src/main/java/io/github/liana/config/core/DefaultPlaceholder.java:198-205 | the token's text after the prefix is cut out of the buffer and replaced by its resolution, as the specification resolution says |
| DefaultPlaceholder.ResolvePlaceholder | src/main/java/io/github/liana/config/core/DefaultPlaceholder.java:216-229 | a key already being resolved aborts with a circular reference naming it. Otherwise the key is resolved with itself added to the in-resolution set, and removed again afterwards |
| DefaultPlaceholder.ResolveKey | src/main/java/io/github/liana/config/core/DefaultPlaceholder.java:247-263 | a found value is rewritten; failing that, a fallback (even an empty one) is rewritten; failing that, the key is recorded as unresolved and the token written back as prefix, key and suffix |
| DefaultPlaceholder.Resolve | src/main/java/io/github/liana/config/core/DefaultPlaceholder.java:271-284 | the loop over the sources returns exactly `Lookup` |
| DefaultPlaceholder.ReplaceIfAllResolvable | src/main/java/io/github/liana/config/core/DefaultPlaceholder.java:82-97 | the whole call returns or throws exactly `Interpolation`: a null template throws; a blank or placeholder-free template comes back unchanged; no sources gives empty; otherwise the result is present only if nothing went unresolved. The older copy (`config/DefaultPlaceholder.java`, lines 81-101) merges the sources before the fast path |
| PlaceholderProperties.LookupFirstWins | src/main/java/io/github/liana/config/core/DefaultPlaceholder.java:271-284 | a key is missing exactly when it is blank or no source has it; when found, the value comes from the first source that has it |
| PlaceholderProperties.LookupAppend | src/main/java/io/github/liana/config/core/DefaultPlaceholder.java:276-281 | later sources are consulted only when every earlier one lacks the key |
| PlaceholderProperties.SplitKeyHasNoDelimiter | src/main/java/io/github/liana/config/core/DefaultPlaceholder.java:218-219 | the key never contains the delimiter |
| PlaceholderProperties.CopyRun | src/main/java/io/github/liana/config/core/DefaultPlaceholder.java:146-149 | characters that can begin neither prefix nor suffix are copied to the buffer unchanged |
| PlaceholderProperties.OpenStep | src/main/java/io/github/liana/config/core/DefaultPlaceholder.java:139-142 | one-step unfolding of the scan: an unescaped prefix opens a token at the end of the buffer and is written out |
| PlaceholderProperties.CloseStep | src/main/java/io/github/liana/config/core/DefaultPlaceholder.java:143-145 | one-step unfolding of the scan: a suffix with a token open replaces the innermost token by its resolution and continues after the suffix |
| PlaceholderProperties.EscapeStep | src/main/java/io/github/liana/config/core/DefaultPlaceholder.java:135-138 | one-step unfolding of the scan: an escaped prefix replaces the escape character at the end of the buffer by the prefix |
| PlaceholderProperties.ScanWithoutPrefix | src/main/java/io/github/liana/config/core/DefaultPlaceholder.java:127-152 | with no token open, text in which the prefix never starts is copied verbatim and records nothing |
| PlaceholderProperties.ReplacedWithoutPrefix | src/main/java/io/github/liana/config/core/DefaultPlaceholder.java:127-152 | rewriting a text that does not contain the prefix is the identity |
| PlaceholderProperties.FoundValueWins | src/main/java/io/github/liana/config/core/DefaultPlaceholder.java:251-254 | a found value replaces the token whatever the fallback; a value without the prefix is inserted as it is |
| PlaceholderProperties.FallbackUsedWhenMissing | src/main/java/io/github/liana/config/core/DefaultPlaceholder.java:256-259 | a missing key takes its rewritten fallback; a fallback without the prefix, the empty one included, is inserted as it is |
| PlaceholderProperties.MissingKeyReEmitted | src/main/java/io/github/liana/config/core/DefaultPlaceholder.java:261-262 | a missing key without fallback is recorded as unresolved and its token written back unchanged |
| PlaceholderProperties.KeyInResolutionIsCircular | src/main/java/io/github/liana/config/core/DefaultPlaceholder.java:222-224 | a key met again while being resolved aborts with a circular reference naming it, whatever the sources hold |
| PlaceholderProperties.SelfReferenceIsCircular | src/main/java/io/github/liana/config/core/DefaultPlaceholder.java:222-224 | a key whose value is its own token is reported as circular |
| PlaceholderProperties.MutualReferenceIsCircular | src/main/java/io/github/liana/config/core/DefaultPlaceholder.java:222-224 | two keys whose values are each other's token: resolving the first meets it again |
| PlaceholderProperties.LeadCopied | src/main/java/io/github/liana/config/core/DefaultPlaceholder.java:146-149 | a template starting with plain text copies that text to the empty buffer |
| PlaceholderProperties.LeadOpened | src/main/java/io/github/liana/config/core/DefaultPlaceholder.java:139-142 | plain text followed by the prefix is copied and opens one token where the text ends |
| PlaceholderProperties.OneTokenOpened | src/main/java/io/github/liana/config/core/DefaultPlaceholder.java:139-149 | after `lead${raw` the buffer holds all of it, with one token open where `lead` ends |
| PlaceholderProperties.OneTokenClosed | src/main/java/io/github/liana/config/core/DefaultPlaceholder.java:143-145 | the suffix after `lead${raw` leaves `lead` followed by the token's resolution, or the resolution's abort |
| PlaceholderProperties.TailCopied | src/main/java/io/github/liana/config/core/DefaultPlaceholder.java:146-149 | after the last token, text in which the prefix cannot begin is copied as it is, stray suffixes included |
| PlaceholderProperties.OneTokenTemplate | src/main/java/io/github/liana/config/core/DefaultPlaceholder.java:127-152 | `lead${raw}tail` rewrites to `lead`, the token's resolution and `tail`, and records what the resolution records |
| PlaceholderProperties.OneTokenInterpolation | src/main/java/io/github/liana/config/core/DefaultPlaceholder.java:82-97 | for a one-token template with a non-blank lead, the call's outcome is the verdict on `lead`, the token's resolution and `tail` |
| PlaceholderProperties.OneTokenVerdict | src/main/java/io/github/liana/config/core/DefaultPlaceholder.java:94-96 | such a template is present when its token resolves without recording anything, empty when it records a key, and an abort otherwise |
| PlaceholderProperties.TokenTextSplits | src/main/java/io/github/liana/config/core/DefaultPlaceholder.java:218-220 | a token written as key, delimiter and fallback splits back into that key and fallback when the key cannot begin the delimiter |
| PlaceholderProperties.FoundKeyTemplate | src/main/java/io/github/liana/config/core/DefaultPlaceholder.java:251-254 | `lead${key}tail` or `lead${key:fallback}tail` with the key found and a prefix-free value resolves to `lead` + value + `tail` |
| PlaceholderProperties.FallbackTemplate | src/main/java/io/github/liana/config/core/DefaultPlaceholder.java:256-259 | `lead${key:fallback}tail` with the key missing and a prefix-free fallback resolves to `lead` + fallback + `tail` |
| PlaceholderProperties.MissingKeyTemplate | src/main/java/io/github/liana/config/core/DefaultPlaceholder.java:261-262 | `lead${key}tail` with the key missing and no fallback gives an empty result |
| PlaceholderProperties.MutualReferenceTemplate | src/main/java/io/github/liana/config/core/DefaultPlaceholder.java:222-224 | `lead${a}tail` where `a` and `b` refer to each other throws the circular-reference exception naming `a` |
| PlaceholderProperties.EscapedTemplate | src/main/java/io/github/liana/config/core/DefaultPlaceholder.java:161-164 | `lead\${tail}` resolves to `lead${tail}`: the escape character is dropped and the prefix is kept as text |
| PlaceholderProperties.EscapedPrefixKept | src/main/java/io/github/liana/config/core/DefaultPlaceholder.java:135-138 | the scan of `lead\${tail}` drops the escape character, keeps the prefix as text and records nothing |
| PlaceholderProperties.ScanFromRecordsOnlyMissingKeys | src/main/java/io/github/liana/config/core/DefaultPlaceholder.java:127-152 | the unresolved set only grows during a scan, and only by keys that no source has (or that are blank) |
| PlaceholderProperties.CloseRecordsOnlyMissingKeys | src/main/java/io/github/liana/config/core/DefaultPlaceholder.java:143-145 | the same for the step that closes a token |
| PlaceholderProperties.PlaceholderRecordsOnlyMissingKeys | src/main/java/io/github/liana/config/core/DefaultPlaceholder.java:216-229 | the same for the resolution of one token |
| PlaceholderProperties.KeyRecordsOnlyMissingKeys | src/main/java/io/github/liana/config/core/DefaultPlaceholder.java:247-263 | the same for the resolution of one key |
| PlaceholderProperties.VerbatimTemplateUnchanged | src/main/java/io/github/liana/config/core/DefaultPlaceholder.java:85-87 | a blank template, or one without the prefix, comes back unchanged. The core copy does so without looking at the extra sources |
| PlaceholderProperties.CopiesAgree | src/main/java/io/github/liana/config/DefaultPlaceholder.java:85-92 | the two copies give the same outcome whenever the extra sources are acceptable. Otherwise they differ only on verbatim templates, which the core copy returns and the older copy rejects |
| PlaceholderProperties.NoSourcesUnresolvable | src/main/java/io/github/liana/config/core/DefaultPlaceholder.java:89-92 | with no sources, a template containing the prefix is unresolvable, fallbacks notwithstanding |
| PlaceholderProperties.UnresolvableHasMissingKey | src/main/java/io/github/liana/config/core/DefaultPlaceholder.java:94-96 | an empty result always has a cause: the merge succeeded, and either the merged list is empty or the scan completed, recorded at least one key, and every key it recorded is missing from every source |
| PlaceholderExamples.Defaults | src/test/java/io/github/liana/config/DefaultPlaceholderTest.java:33-36 | the tests' syntax `${key:fallback}` with `\` is well formed and its prefix and suffix begin differently |
| PlaceholderExamples.ProfileIsDev | src/test/java/io/github/liana/config/DefaultPlaceholderTest.java:51-64 | with an empty environment source and then a map holding `profile`, the lookup reaches the map |
| PlaceholderExamples.ResolvesFromLaterSource | src/test/java/io/github/liana/config/DefaultPlaceholderTest.java:51-64 | `application-${profile}` becomes `application-dev` from the second source |
| PlaceholderExamples.FallbackApplies | src/test/java/io/github/liana/config/DefaultPlaceholderTest.java:66-73 | `application-${profile:default}` with the key missing becomes `application-default` |
| PlaceholderExamples.MissingKeyUnresolvable | src/test/java/io/github/liana/config/DefaultPlaceholderTest.java:75-82 | `application-${profile}` with the key missing gives an empty result |
| PlaceholderExamples.MutualReferenceReported | src/test/java/io/github/liana/config/DefaultPlaceholderTest.java:96-108 | `profile` and `environment` naming each other's token is reported as a circular reference naming `profile` |
| PlaceholderExamples.EmptyFallbackApplies | src/test/java/io/github/liana/config/DefaultPlaceholderTest.java:110-117 | `application-${profile:}` becomes `application-`: an empty fallback is a value |
| PlaceholderExamples.EmptyTokenUnresolvable | src/test/java/io/github/liana/config/DefaultPlaceholderTest.java:119-126 | `application-${}` has a blank key, which is never found, so the result is empty |
| PlaceholderExamples.EscapedTokenKept | src/main/java/io/github/liana/config/core/DefaultPlaceholder.java:135-138 | the escape rule on its own: `application-\${region}` becomes `application-${region}`, the escape character dropped and the prefix kept as text |
| PlaceholderExamples.BlankTemplateUnchanged | src/test/java/io/github/liana/config/DefaultPlaceholderTest.java:160-165 | a blank template comes back as it is |
| PlaceholderExamples.CustomSyntax | src/test/java/io/github/liana/config/DefaultPlaceholderTest.java:189-203 | with the syntax `{{key\|fallback}}`, `application-{{profile\|default}}` becomes `application-dev` |
| PlaceholderExamples.StraySuffixKept | src/test/java/io/github/liana/config/DefaultPlaceholderTest.java:214-221 | `application-${profile}}` becomes `application-dev}`: a suffix with no token open is text |
| PlaceholderExamples.EmptySourcesUnresolvable | src/main/java/io/github/liana/config/DefaultPlaceholder.java:94-96 | with no sources, `application-${profile}}` gives an empty result |
| PlaceholderComposition.OpenLead | src/main/java/io/github/liana/config/core/DefaultPlaceholder.java:139-149 | an unescaped prefix followed by plain text pushes the buffer length and copies both; the stack bound is kept |
| PlaceholderComposition.CloseAt | src/main/java/io/github/liana/config/core/DefaultPlaceholder.java:143-145 | the suffix closes the innermost open token: the text after its prefix is resolved and replaces it in the buffer, or the scan aborts with the resolution |
| PlaceholderComposition.WrappedStep | src/main/java/io/github/liana/config/core/DefaultPlaceholder.java:139-145 | nested tokens are resolved innermost first: once the scan inside a token has rewritten its nested part, the outer token resolves its lead followed by those results, and the buffer around it is untouched |
| PlaceholderComposition.TokenStep | src/main/java/io/github/liana/config/core/DefaultPlaceholder.java:139-149 | a whole unescaped token holding no further token adds its resolution to the buffer and the scan goes on after the suffix, under whatever tokens were open |
| PlaceholderComposition.EscapedPrefixStep | src/main/java/io/github/liana/config/core/DefaultPlaceholder.java:135-149 | an escaped prefix anywhere in the template leaves the prefix as text and opens no token |
| PlaceholderComposition.ScanFromUnion | src/main/java/io/github/liana/config/core/DefaultPlaceholder.java:127-152 | the keys recorded before a scan starts never change its course: the result is that of a scan started with nothing recorded, with the earlier keys added |
| PlaceholderComposition.CloseUnion | src/main/java/io/github/liana/config/core/DefaultPlaceholder.java:143-145 | the same for the step that closes a token |
| PlaceholderComposition.PlaceholderUnion | src/main/java/io/github/liana/config/core/DefaultPlaceholder.java:216-229 | the same for the resolution of one token |
| PlaceholderComposition.KeyUnion | src/main/java/io/github/liana/config/core/DefaultPlaceholder.java:247-263 | the same for the resolution of one key |
| PlaceholderComposition.MissingTokenRecorded | src/main/java/io/github/liana/config/core/DefaultPlaceholder.java:261-262 | a token whose key no source has and which has no fallback is recorded, and stays recorded to the end of any scan that meets it, wherever it stands and however deeply it is nested |
| PlaceholderComposition.MissingTokenEmptiesResult | src/main/java/io/github/liana/config/core/DefaultPlaceholder.java:94-96 | once the scan meets such a token, the call returns an empty result or throws; it never returns a string |
| PlaceholderComposition.IncompleteInterpolation | src/main/java/io/github/liana/config/core/DefaultPlaceholder.java:94-96 | a template whose scan aborts or records a key never yields a string |
| PlaceholderComposition.IncompleteVerdict | src/main/java/io/github/liana/config/core/DefaultPlaceholder.java:94-96 | a scan that aborts or records a key gets an empty or exceptional verdict |
| PlaceholderComposition.ScannedVerdict | src/main/java/io/github/liana/config/core/DefaultPlaceholder.java:85-96 | a template that is not blank and contains the prefix gets the verdict of its scan over the engine's own sources |
| PlaceholderComposition.FoundTokenResolves | src/main/java/io/github/liana/config/core/DefaultPlaceholder.java:216-254 | a key without the delimiter that a source has, with a value free of the prefix, resolves to that value and records nothing |
| PlaceholderComposition.FoundStep | src/main/java/io/github/liana/config/core/DefaultPlaceholder.java:139-145 | a whole token whose key is found, with a value free of the prefix, is replaced by the value |
| PlaceholderComposition.WrappedFoundStep | src/main/java/io/github/liana/config/core/DefaultPlaceholder.java:139-145 | a token holding nested tokens whose completed key is found is replaced by that key's value |
| PlaceholderComposition.TokenThenRest | src/main/java/io/github/liana/config/core/DefaultPlaceholder.java:127-152 | a template of any shape after its first token: the scan continues after the token with its resolution in the buffer, and the keys left unresolved are the token's together with those of the rest |
| PlaceholderComposition.LeadThenToken | src/main/java/io/github/liana/config/core/DefaultPlaceholder.java:127-152 | the same, for a template known only by where its lead and first token stand |
| PlaceholderComposition.FoundPiece | src/main/java/io/github/liana/config/core/DefaultPlaceholder.java:139-145 | a found token after any text not ending with the escape character is replaced by its value |
| PlaceholderComposition.PlainPiece | src/main/java/io/github/liana/config/core/DefaultPlaceholder.java:146-149 | plain text between tokens is copied unchanged |
| PlaceholderComposition.EscapedPiece | src/main/java/io/github/liana/config/core/DefaultPlaceholder.java:135-138 | an escape character and a prefix after other text leave the prefix as text |
| PlaceholderComposition.TwoTokenTemplate | src/main/java/io/github/liana/config/core/DefaultPlaceholder.java:82-152 | a template with two tokens whose keys are found resolves to the text around them with each token replaced by its value |
| PlaceholderComposition.TwoFoundTokens | src/main/java/io/github/liana/config/core/DefaultPlaceholder.java:127-152 | the scan of two found tokens separated by plain text copies the text and replaces each token, recording nothing |
| PlaceholderComposition.EscapedAfterTokenTemplate | src/main/java/io/github/liana/config/core/DefaultPlaceholder.java:82-152 | a found token followed by an escaped one: the first is replaced by its value and the second stays literal |
| PlaceholderComposition.TokenThenEscaped | src/main/java/io/github/liana/config/core/DefaultPlaceholder.java:135-149 | the scan of that template up to its tail |
| PlaceholderComposition.WrappedAt | src/main/java/io/github/liana/config/core/DefaultPlaceholder.java:139-145 | a token holding nested tokens, with its positions given, is replaced by the value of its completed key |
| PlaceholderComposition.FoundCloseTo | src/main/java/io/github/liana/config/core/DefaultPlaceholder.java:143-145 | the closing suffix of a token whose completed key is found replaces the token by the value |
| PlaceholderScanExamples.RegionAt | src/main/java/io/github/liana/config/core/DefaultPlaceholder.java:139-145 | a token `${r${k}}`: the inner token is resolved first, and the outer key is `r` followed by its value |
| PlaceholderScanExamples.ZoneAt | src/main/java/io/github/liana/config/core/DefaultPlaceholder.java:139-145 | a token `${z${r${k}}}` nested three deep is resolved from the inside out |
| PlaceholderScanExamples.NestedScan | src/main/java/io/github/liana/config/core/DefaultPlaceholder.java:127-152 | the scan of `lead${k}mid${r${k}}mid${z${r${k}}}` adds the three values in order |
| PlaceholderScanExamples.NestedTemplate | src/main/java/io/github/liana/config/core/DefaultPlaceholder.java:82-152 | that template, every key found, resolves to the plain pieces with the three values between them |
| PlaceholderScanExamples.MultipleTokensResolved | src/test/java/io/github/liana/config/DefaultPlaceholderTest.java:128-138 | `application-${profile}-${region}` becomes `application-dev-us-east-1` |
| PlaceholderScanExamples.EscapedTokenAfterResolved | src/test/java/io/github/liana/config/DefaultPlaceholderTest.java:140-149 | `application-${profile}-\${region}` becomes `application-dev-${region}`: the escaped token stays while the other resolves |
| PlaceholderScanExamples.NestedTokensResolved | src/test/java/io/github/liana/config/DefaultPlaceholderTest.java:176-187 | `application-${profile}-${region-${profile}}-${zone-${region-${profile}}}` becomes `application-prod-us-east-1-zone-a` |
| PlaceholderBuilder.Builder.constructor | src/main/java/io/github/liana/config/core/DefaultPlaceholderBuilder.java:26-29 | a fresh builder holds `${`, `}`, `:` and `\` |
| PlaceholderBuilder.Builder.Prefix | src/main/java/io/github/liana/config/core/DefaultPlaceholderBuilder.java:38-41 | overwrites the prefix only and returns the same builder |
| PlaceholderBuilder.Builder.Suffix | src/main/java/io/github/liana/config/core/DefaultPlaceholderBuilder.java:50-53 | overwrites the suffix only and returns the same builder |
| PlaceholderBuilder.Builder.Delimiter | src/main/java/io/github/liana/config/core/DefaultPlaceholderBuilder.java:62-65 | overwrites the delimiter only and returns the same builder |
| PlaceholderBuilder.Builder.EscapeChar | src/main/java/io/github/liana/config/core/DefaultPlaceholderBuilder.java:74-77 | overwrites the escape character only and returns the same builder |
| PlaceholderBuilder.Builder.Build | src/main/java/io/github/liana/config/core/DefaultPlaceholderBuilder.java:85-87 | builds a core engine over the current fields whose only source is the environment, with the constructor's validation and messages |
| PlaceholderBuilder.BuildDefaults | src/main/java/io/github/liana/config/core/DefaultPlaceholderBuilder.java:26-29 | a fresh builder builds the engine with the default syntax over the environment |
| PlaceholderBuilder.SetTwice | src/main/java/io/github/liana/config/core/DefaultPlaceholderBuilder.java:38-41 | a later setter call overwrites an earlier one, and the other fields keep their values |
| JsonPointer.DigitsAreIndex | src/main/java/io/github/liana/config/JacksonPathMapper.java:233 | a decimal rendering of `n` is an array-index token worth `n` |
| JsonPointer.IndexIsDigits | src/main/java/io/github/liana/config/JacksonPathMapper.java:233 | every array-index token is the decimal rendering of its value, so the two are inverse |
| JsonPointer.JoinSplit | src/main/java/io/github/liana/config/JacksonPathMapper.java:233 | joining the `/`-separated pieces of a pointer gives it back |
| JsonPointer.SplitJoin | src/main/java/io/github/liana/config/JacksonPathMapper.java:233 | splitting undoes joining pieces that hold no `/` |
| JsonPointer.UnescapeEscape | src/main/java/io/github/liana/config/JacksonPathMapper.java:233 | reading the `~0`/`~1` escapes of section 3 of RFC 6901 undoes writing them |
| JsonPointer.UnescapePlain | src/main/java/io/github/liana/config/JacksonPathMapper.java:233 | a token without `~` means itself |
| JsonPointer.Tokens | src/main/java/io/github/liana/config/JacksonPathMapper.java:233 | the empty pointer has no tokens; any other pointer is valid exactly when it starts with `/` |
| JsonPointer.TokensOfJoin | src/main/java/io/github/liana/config/JacksonPathMapper.java:233 | tokens without `/` or `~`, each written after a `/`, read back as themselves |
| JsonPointer.Step | src/main/java/io/github/liana/config/JacksonPathMapper.java:233 | a token reaches an object member exactly when the object has it; it reaches an array element exactly when it is an index within bounds; nothing else has children |
| JsonPointer.EvalAppend | src/main/java/io/github/liana/config/JacksonPathMapper.java:233 | evaluating tokens `a + b` goes where `b` leads from where `a` leads |
| JsonPointer.IndexSelects | src/main/java/io/github/liana/config/JacksonPathMapper.java:233 | the rendered index `n` selects element `n` of an array, and nothing past its end |
| JacksonPathMapper.ReplaceDots | src/main/java/io/github/liana/config/JacksonPathMapper.java:272 | every `.` becomes `/` and every other character stays |
| JacksonPathMapper.DigitRun | src/main/java/io/github/liana/config/JacksonPathMapper.java:273 | the longest run of digits at the start of the text |
| JacksonPathMapper.ToJsonPointer | src/main/java/io/github/liana/config/JacksonPathMapper.java:271-274 | the pointer always starts with `/` |
| JacksonPathMapper.ReplaceDotsAppend | src/main/java/io/github/liana/config/JacksonPathMapper.java:272 | replacing dots distributes over concatenation |
| JacksonPathMapper.ReplaceIndicesAppend | src/main/java/io/github/liana/config/JacksonPathMapper.java:273 | text before the first `[` passes the index replacement unchanged |
| JacksonPathMapper.ReplaceIndicesIndex | src/main/java/io/github/liana/config/JacksonPathMapper.java:273 | `[digits]` becomes `/digits` |
| JacksonPathMapper.PointerOfRender | src/main/java/io/github/liana/config/JacksonPathMapper.java:271-274 | a path written from steps turns into `/` followed by the steps' tokens joined with `/` |
| JacksonPathMapper.PathRoundTrip | src/main/java/io/github/liana/config/JacksonPathMapper.java:271-274 | the pointer of a rendered path reads back as exactly the steps' tokens |
| JacksonPathMapper.NodeAtSteps | src/main/java/io/github/liana/config/JacksonPathMapper.java:230-235 | the node a rendered path reaches is the one its steps reach |
| JacksonPathMapper.GetAll | src/main/java/io/github/liana/config/JacksonPathMapper.java:103-113 | null source, then null type, throw with their messages; otherwise the whole tree is present |
| JacksonPathMapper.Get | src/main/java/io/github/liana/config/JacksonPathMapper.java:128-139 | null source, path or type throw in that order; otherwise the node at the path, empty when missing |
| JacksonPathMapper.GetList | src/main/java/io/github/liana/config/JacksonPathMapper.java:154-171 | null arguments throw in order; otherwise the array's elements in order, and empty when the node is missing or not an array |
| JacksonPathMapper.GetMap | src/main/java/io/github/liana/config/JacksonPathMapper.java:186-202 | null source or path throw; a missing or non-object node gives the empty map before the type is looked at; an object gives its fields, or throws when the type is null |
| JacksonPathMapper.HasPath | src/main/java/io/github/liana/config/JacksonPathMapper.java:214-220 | null source, then null path, throw with their messages |
| JacksonPathMapper.HasPathIffGet | src/main/java/io/github/liana/config/JacksonPathMapper.java:214-220 | a path exists exactly when `get` finds a value there, and does not exactly when `get` is empty |
| JacksonPathMapper.ListOfScalarIsEmpty | src/main/java/io/github/liana/config/JacksonPathMapper.java:160-162 | a path that reaches a non-array value exists, yet its list is empty |
| JacksonPathMapper.ListOfArray | src/main/java/io/github/liana/config/JacksonPathMapper.java:154-171 | a path that reaches an array lists its elements in order |
| JacksonPathMapper.IndexStepSelects | src/main/java/io/github/liana/config/JacksonPathMapper.java:271-274 | a step `[n]` after a path selects element `n` of the array the path reaches, and an index past the end is missing |
| PathMapperExamples.AppName | src/main/java/io/github/liana/config/JacksonPathMapper.java:271-274 | `app.name` becomes `/app/name` |
| PathMapperExamples.UsersName | src/main/java/io/github/liana/config/JacksonPathMapper.java:271-274 | `users[0].name` becomes `/users/0/name` |
| PathMapperExamples.NonDigitBracketKept | src/main/java/io/github/liana/config/JacksonPathMapper.java:273 | brackets around something other than digits stay: `a[x]` becomes `/a[x]` |
| PathMapperExamples.ScalarIsNoList | src/main/java/io/github/liana/config/JacksonPathMapper.java:154-162 | the non-array branch of `getList`: `features[0]`, where the first feature is a string, exists but gives an empty list |
| PathMapperExamples.MissingPath | src/main/java/io/github/liana/config/JacksonPathMapper.java:128-136 | the missing-node branch of `get`, and of `hasPath` at lines 214-220: for `server.host` over an object without `host`, `get` is empty and `hasPath` false |
| JacksonMerger.Updated | src/main/java/io/github/liana/config/core/JacksonMerger.java:112-113 | updating an object by an object keeps the keys of both |
| JacksonMerger.DeepUpdate | src/main/java/io/github/liana/config/core/JacksonMerger.java:112-113 | the updated fields are exactly the keys of both sides |
| JacksonMerger.DeepUpdateFields | src/main/java/io/github/liana/config/core/JacksonMerger.java:112-113 | a field only the target has survives, a field only the update has is taken, a scalar of the update wins, and two objects merge recursively |
| JacksonMerger.ArrayFields | src/main/java/io/github/liana/config/core/JacksonMerger.java:128-138 | exactly the array fields of the map, with their values |
| JacksonMerger.NonArrayFields | src/main/java/io/github/liana/config/core/JacksonMerger.java:128-138 | exactly the other fields, with their values |
| JacksonMerger.Fold | src/main/java/io/github/liana/config/core/JacksonMerger.java:82-86 | the fold fails only with the preparation or the update error |
| JacksonMerger.MergeSpec | src/main/java/io/github/liana/config/core/JacksonMerger.java:69-91 | a null list throws; an empty list gives the empty map; a single element is returned as it is (null as empty); a failure is one of the three documented errors |
| JacksonMerger.ArrayReplaced | src/main/java/io/github/liana/config/core/JacksonMerger.java:128-138 | a top-level array of a source replaces the accumulated value wholesale |
| JacksonMerger.LaterValueWins | src/main/java/io/github/liana/config/core/JacksonMerger.java:105-114 | a scalar of a source wins, and so does an object that meets no accumulated object |
| JacksonMerger.EarlierValueKept | src/main/java/io/github/liana/config/core/JacksonMerger.java:105-114 | a field the source lacks keeps its accumulated value |
| JacksonMerger.ObjectsMerged | src/main/java/io/github/liana/config/core/JacksonMerger.java:105-114 | two objects under one key merge recursively |
| JacksonMerger.MergeSourceKeys | src/main/java/io/github/liana/config/core/JacksonMerger.java:105-114 | a merge step holds the keys of both sides and no others |
| JacksonMerger.Kept | src/main/java/io/github/liana/config/core/JacksonMerger.java:84-86 | the sources the fold does not skip: none of them is null or empty |
| JacksonMerger.FoldKept | src/main/java/io/github/liana/config/core/JacksonMerger.java:84-86 | null and empty sources change nothing: folding the list is folding its kept maps |
| JacksonMerger.FoldKeys | src/main/java/io/github/liana/config/core/JacksonMerger.java:82-86 | the merged map holds exactly the keys of the accumulator and of the sources |
| JacksonMerger.FoldKeepsUntouched | src/main/java/io/github/liana/config/core/JacksonMerger.java:82-86 | a key no later source mentions keeps its value through the fold |
| JacksonMerger.LastScalarWins | src/main/java/io/github/liana/config/core/JacksonMerger.java:82-86 | the last source that has a key decides its value when that value is a scalar |
| JacksonMerger.ObjectNode.constructor | src/main/java/io/github/liana/config/core/JacksonMerger.java:106-108 | a node holds the fields it was made from |
| JacksonMerger.OverrideArrays | src/main/java/io/github/liana/config/core/JacksonMerger.java:128-138 | the array fields move from the current node onto the merged node, and the current node keeps exactly the others |
| JacksonMerger.MergeSourceIntoNode | src/main/java/io/github/liana/config/core/JacksonMerger.java:105-114 | the node becomes, or the call fails with, exactly what `MergeSource` says |
| JacksonMerger.Merge | src/main/java/io/github/liana/config/core/JacksonMerger.java:69-91 | the method returns or throws exactly `MergeSpec` |
| MergerExamples.TwoSources | src/main/java/io/github/liana/config/core/JacksonMerger.java:82-86 | two non-empty sources merge as two steps from the empty object |
| MergerExamples.FirstIntoEmpty | src/main/java/io/github/liana/config/core/JacksonMerger.java:105-114 | the first source merged into the empty object comes out as it went in |
| MergerExamples.ArraysReplacedWholesale | src/test/java/io/github/liana/config/core/JacksonMergerTest.java:73-82 | `{key1, key2: [1, 2]}` then `{key2: [3, 4], key3}` gives all three keys, with `key2` replaced by `[3, 4]` |
| MergerExamples.NullAndEmptyIgnored | src/test/java/io/github/liana/config/core/JacksonMergerTest.java:87-97 | a null and an empty map before `{key1: value1}` are skipped |
| MergerExamples.InnerObjectMerged | src/test/java/io/github/liana/config/core/JacksonMergerTest.java:110-119 | inside the nested object the later `timeout` wins and `retries` survives |
| MergerExamples.NestedObjectsMerged | src/test/java/io/github/liana/config/core/JacksonMergerTest.java:110-119 | `{config: {timeout, retries}}` then `{config: {timeout}}` merge into one `config` holding the later timeout and the retries |
| MergerExamples.PrepareFailureReported | src/test/java/io/github/liana/config/core/JacksonMergerTest.java:124-137 | a source the conversion rejects ends the merge with the preparation error |
| MergerExamples.UpdateFailureReported | src/test/java/io/github/liana/config/core/JacksonMergerTest.java:143-159 | a failing update ends the merge with the merge error |
| MergerExamples.FinalizeFailureReported | src/test/java/io/github/liana/config/core/JacksonMergerTest.java:164-181 | a failing final conversion is reported as such |
| ServiceRegistry.FirstMatch | src/main/java/io/github/liana/config/core/ServiceRegistry.java:109-116 | the first service in loader order the filter accepts; none exactly when the filter accepts none |
| ServiceRegistry.Created | src/main/java/io/github/liana/config/core/ServiceRegistry.java:109-116 | nothing is created when the filter accepts no service |
| ServiceRegistry.CreatedFirst | src/main/java/io/github/liana/config/core/ServiceRegistry.java:109-116 | the service the filter accepts first decides what is created |
| ServiceRegistry.CreatedAppend | src/main/java/io/github/liana/config/core/ServiceRegistry.java:109-116 | services after the first accepted one are never consulted, and when the earlier services match nothing the answer comes from the later ones |
| ServiceRegistry.Registry.constructor | src/main/java/io/github/liana/config/core/ServiceRegistry.java:66-72 | a registry starts with an empty cache that satisfies the cache invariant |
| ServiceRegistry.Registry.Create | src/main/java/io/github/liana/config/core/ServiceRegistry.java:109-116 | the scan over the services returns exactly `Created` |
| ServiceRegistry.Registry.Get | src/main/java/io/github/liana/config/core/ServiceRegistry.java:91-94 | a null alias throws. Otherwise the result is what a fresh `create` gives for the lower-cased alias. A cached entry is returned without a scan, and only present results are stored. The invariant holds: every entry is under a lower-case key and equals a fresh `create` |
| ServiceRegistry.New | src/main/java/io/github/liana/config/core/ServiceRegistry.java:66-72 | a null loader, filter or function is rejected, in that order and with its message; otherwise a fresh registry over them |
| ServiceRegistry.GetIgnoringCase | src/main/java/io/github/liana/config/core/ServiceRegistry.java:91-94 | two aliases differing only in case share one entry: once the first has produced a value, the second returns it without scanning |
| ServiceRegistry.GetMissTwice | src/main/java/io/github/liana/config/core/ServiceRegistry.java:91-94 | a miss stores nothing, so asking again scans again |
| ConfigMapCache.Cache.constructor | src/main/java/io/github/liana/config/ConfigMapCache.java:13 | the cell starts empty |
| ConfigMapCache.Cache.Get | src/main/java/io/github/liana/config/ConfigMapCache.java:15-18 | a filled cell answers without calling the loader. An empty one calls it once and stores and returns a copy of its map. A null loader, or a loader returning null, throws and leaves the cell empty |
| ConfigMapCache.GetTwice | src/main/java/io/github/liana/config/ConfigMapCache.java:15-18 | once filled, the cell answers every later call with the same map, whatever loader is passed |
| ConfigFileFormat.Insert | src/main/java/io/github/liana/config/ConfigFileFormat.java:56-58 | adding to an ordered set keeps it free of repetitions and its earlier elements in place, and holds exactly the elements of both |
| ConfigFileFormat.Of | src/main/java/io/github/liana/config/ConfigFileFormat.java:56-58 | the ordered set of the values holds each of them once |
| ConfigFileFormat.InsertDistinct | src/main/java/io/github/liana/config/ConfigFileFormat.java:56-58 | new values without repetitions are appended in order |
| ConfigFileFormat.OfDistinct | src/main/java/io/github/liana/config/ConfigFileFormat.java:56-58 | values without repetitions come out as they went in |
| ConfigFileFormat.Extensions | src/main/java/io/github/liana/config/ConfigFileFormat.java:43-45 | every format has at least one extension and none twice |
| ConfigFileFormat.ExtensionsTable | src/main/java/io/github/liana/config/ConfigFileFormat.java:12-16 | PROPERTIES has `properties`, YAML has `yaml` and `yml`, JSON has `json`, XML has `xml` |
| ConfigFileFormat.LowerAll | src/main/java/io/github/liana/config/ConfigFileFormat.java:25 | each value is lowered in place |
| ConfigFileFormat.AddMeaning | src/main/java/io/github/liana/config/ConfigFileFormat.java:21-32 | the initialiser succeeds exactly when the lower-cased extensions are all different, and then yields them in order |
| ConfigFileFormat.AddFailure | src/main/java/io/github/liana/config/ConfigFileFormat.java:25-27 | a failure is always the duplicate-extension error naming an extension as written whose lower case is among those added before it |
| ConfigFileFormat.CollectExtensions | src/main/java/io/github/liana/config/ConfigFileFormat.java:21-32 | the nested loop of the static initialiser returns or throws exactly `Add` over all formats' extensions |
| ConfigFileFormat.AddLowerDistinct | src/main/java/io/github/liana/config/ConfigFileFormat.java:21-32 | lower-case extensions that repeat nothing go through unchanged |
| ConfigFileFormat.InitSucceeds | src/main/java/io/github/liana/config/ConfigFileFormat.java:21-32 | the real table initialises without error, to `properties, yaml, yml, json, xml` |
| ConfigFileFormat.AllSupportedExtensions | src/main/java/io/github/liana/config/ConfigFileFormat.java:52-54 | all supported extensions, in declaration order, without repetition, as the initialiser computes them |
| ConfigFileFormat.EveryFormatCovered | src/main/java/io/github/liana/config/ConfigFileFormat.java:52-54 | every extension of every format is supported |
| FileExtensionValidator.Normalized | src/main/java/io/github/liana/core/configs/FileExtensionValidator.java:23-27 | exactly the trimmed, lower-cased forms of the non-null, non-blank entries |
| FileExtensionValidator.IsValid | src/main/java/io/github/liana/core/configs/FileExtensionValidator.java:17-30 | false for a null or empty set and for a null or blank extension; otherwise whether some non-blank entry has the extension's trimmed, lower-cased form |
| FileExtensionValidator.NothingValid | src/main/java/io/github/liana/core/configs/FileExtensionValidator.java:18-20 | nothing is valid against a null or empty set, and a null or blank extension is never valid |
| FileExtensionValidator.BlankEntriesIgnored | src/main/java/io/github/liana/core/configs/FileExtensionValidator.java:24 | null and blank entries make no difference to the answer |
| FileExtensionValidator.SameForm | src/main/java/io/github/liana/core/configs/FileExtensionValidator.java:29 | extensions with the same trimmed, lower-cased form are valid together |
| FileExtensionValidator.AcceptsItself | src/main/java/io/github/liana/core/configs/FileExtensionValidator.java:17-30 | a non-blank extension is valid against any set holding it |
| FileExtensionValidator.PaddedUpperCase | src/main/java/io/github/liana/core/configs/FileExtensionValidator.java:25-29 | ` JSON ` is valid against a set holding `json` |
| FileExtensionValidator.DefaultsDistinct | src/main/java/io/github/liana/core/configs/FileExtensionValidator.java:10-12 | no default extension is listed twice |
| FileExtensionValidator.DefaultsValid | src/main/java/io/github/liana/core/configs/FileExtensionValidator.java:32-34 | every default extension is valid against the default set |
| ConfigSource.Locators | src/main/java/io/github/liana/core/configs/ConfigSource.java:67-73 | the first locator names the base file; a second, named by the substituted pattern, exists exactly when the pattern is non-blank and there is a variable; every locator carries the provider and the credentials |
| ConfigSource.Builder.constructor | src/main/java/io/github/liana/core/configs/ConfigSource.java:20-22 | every field starts unset |
| ConfigSource.Builder.BaseFilename | src/main/java/io/github/liana/core/configs/ConfigSource.java:38-41 | sets the base file name only and returns the same builder |
| ConfigSource.Builder.FilenamePattern | src/main/java/io/github/liana/core/configs/ConfigSource.java:43-46 | sets the pattern only and returns the same builder |
| ConfigSource.Builder.SetVariables | src/main/java/io/github/liana/core/configs/ConfigSource.java:48-51 | sets the variables only and returns the same builder |
| ConfigSource.Builder.Provider | src/main/java/io/github/liana/core/configs/ConfigSource.java:53-56 | sets the provider only and returns the same builder |
| ConfigSource.Builder.Credentials | src/main/java/io/github/liana/core/configs/ConfigSource.java:58-61 | sets the credentials only and returns the same builder |
| ConfigSource.Builder.Build | src/main/java/io/github/liana/core/configs/ConfigSource.java:63-76 | a null or blank provider becomes `classpath`, in the builder too; the source holds exactly `Locators` of the fields |
| ConfigSource.ProviderNeverBlank | src/main/java/io/github/liana/core/configs/ConfigSource.java:64-66 | every locator names a non-blank provider |
| ConfigSource.BuildWithProfile | src/main/java/io/github/liana/core/configs/ConfigSource.java:63-76 | a base name, a pattern with one variable and a blank provider give two `classpath` locators, the second named by the substituted pattern |

## Left out

- The JVM stack: the placeholder recursion through found values is bounded by a `depth` budget. Running out is the `StackOverflow` outcome, which stands for `StackOverflowError`. A template that would need more recursion than the budget allows is not distinguished from one the JVM's stack cannot hold.
- Exception message texts of the placeholder engine's circular reference: the copies differ in casing ("circular" in `config/core`, "Circular" in `config`); the model keeps only the key (`CircularReference(key)`).
- DefaultPlaceholder.New: the NullPointerException that `List.copyOf` and `List.of` throw for a null element carries the JVM's own message, which is modelled as the empty string.
- JacksonPathMapper.GetMap: the NullPointerException the JVM raises when a null target type's name is taken for the error message carries the JVM's own message, which is modelled as the empty string.
- ConfigMapCache.Cache.Get: the NullPointerException the JVM raises for a null loader, or for a loader that returns null, carries the JVM's own message, which is modelled as the empty string.
- `PropertySources.fromEnv`: the process environment is outside the model; the builder's `build` takes the environment source as a parameter.
- Jackson's conversions (`convertValue`, `valueToTree`, `readerForUpdating`) are outside the model. The merger takes their failure behaviour as the oracles of a `Backend` value. How the updating reader combines two arrays below the top level is one more oracle.
- JacksonPathMapper.Get: the node is returned unconverted. Typed conversion to the requested Java type, its `ConversionException`, and the empty result a JSON null node converts to are not modelled. A Java `Type` or `Class` is represented by its name.
- JacksonPathMapper.ToJsonPointer: the path mapper does not escape `~` and `/` in property names. The round-trip lemmas are stated for names without them, and for names without `.` and `[`.
- Array indices beyond Jackson's integer range are not modelled; indices are unbounded.
- JavaString.ToLower: lowers ASCII letters only; `String.toLowerCase` with a default or root locale also lowers other scripts.
- Iteration order of Java `HashMap`, `HashSet` and `ConcurrentHashMap` is not modelled. Object fields are maps, and sets of extensions are sets, except where the source keeps insertion order (`LinkedHashSet` in the file-format table and the default extensions), which is kept as a sequence.
- Concurrency: the `ConcurrentHashMap` of the registry, the `AtomicReference.updateAndGet` retries of the cache cell, and the thread-safety tests of the merger are not modelled; each call runs alone.
- ConfigSource.Builder.Build: `StringSubstitutor.replace` is a parameter (`substitute`).
- ServiceRegistry.New: the `ServiceLoader` is the sequence of services it yields. Lazy instantiation and `ServiceConfigurationError` are not modelled. The filter and the function are total and deterministic.
- Unmodifiable views (`Collections.unmodifiableMap`, `unmodifiableList`, `unmodifiableSet`) are implied by Dafny's immutable values; the `UnsupportedOperationException` on mutation is not modelled.
- `ConfigSource`'s constructor, its getter and `toString` are plain data and are not modelled separately.
- MapUtils.OfSpec: the NullPointerException message "entries must not be null" is not carried; the error is `NullEntries`.
