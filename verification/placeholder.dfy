/** `DefaultPlaceholder`, the placeholder interpolation engine. The repository holds two copies
    of the class, `config/core/DefaultPlaceholder.java` and the older
    `config/DefaultPlaceholder.java`; they share one model here, told apart by `Copy`.

    The engine rewrites `${key}` and `${key:fallback}` tokens in one left-to-right pass over the
    template, building an output buffer and a stack of buffer offsets of open tokens. A value
    found for a key, or the fallback, is rewritten by the same pass, recursively, with the set of
    keys being resolved as a cycle guard and the set of keys left unresolved as the verdict.

    The recursion through found values has no syntactic bound; Java bounds it by its call stack.
    Here a `depth` budget plays that part: each rewrite of a value or fallback uses one unit, and
    running out is the model of `StackOverflowError`.

    The functions below are the specification; the methods at the end are the imperative code
    (buffer, stack, mutable session sets) and are proved to compute exactly what the functions
    say. */
module DefaultPlaceholder {
  import opened Wrappers
  import opened Exceptions
  import opened JavaString
  import StringUtils
  import ListUtils
  import opened PropertySources

  /** Which copy of the class: the two differ only in when the merged source list is built. */
  datatype Copy = Core | Legacy

  /** Prefix, suffix, delimiter and escape character of the placeholder syntax. */
  datatype Grammar = Grammar(prefix: string, suffix: string, delimiter: string, escapeChar: char)

  /** What the constructor guarantees of the grammar: the three strings are not blank, hence
      not empty. Every scan needs only non-emptiness. */
  predicate WellFormed(g: Grammar) {
    |g.prefix| > 0 && |g.suffix| > 0 && |g.delimiter| > 0
  }

  /** A constructed engine: its copy, its grammar and its own sources. */
  datatype Placeholder = Placeholder(copy: Copy, grammar: Grammar, sources: seq<Source>)

  /** Why a scan stopped early: a key met again while still being resolved
      (IllegalStateException), `deleteCharAt` on an empty buffer
      (StringIndexOutOfBoundsException), or the depth budget exhausted (StackOverflowError). */
  datatype Abort = Circular(key: string) | BufferUnderflow | DepthExceeded

  /** The result of `replace`: the rewritten text and the unresolved set afterwards, or an
      abort. */
  datatype Scan = Scanned(text: string, unresolved: set<string>) | Aborted(reason: Abort)

  /** The result of `replaceIfAllResolvable`: the resolved string (`Optional.of`), empty
      (`Optional.empty()`), the circular-reference exception naming the key, or another
      exception. */
  datatype Outcome =
    | Resolved(value: string)
    | Unresolvable
    | CircularReference(key: string)
    | Thrown(exception: Exception)

  const PrefixMessage := "prefix must not be null or blank"
  const SuffixMessage := "suffix must not be null or blank"
  const DelimiterMessage := "delimiter must not be null or blank"
  const SourcesMessage := "sources must not be null"
  const TemplateMessage := "template must not be null"

  /** The five-argument constructor. The prefix, suffix and delimiter are checked in that order
      (IllegalArgumentException), then the source list and its elements (NullPointerException).
      The core copy rejects a null element through `List.copyOf`, whose exception carries no
      message; the older copy through `ListUtils.immutableCopyOf`. */
  function New(copy: Copy, prefix: Option<string>, suffix: Option<string>, delimiter: Option<string>,
               escapeChar: char, sources: Option<seq<Option<Source>>>): (r: Result<Placeholder, Exception>)
    ensures r.Success? <==>
      !StringUtils.IsBlank(prefix) && !StringUtils.IsBlank(suffix) && !StringUtils.IsBlank(delimiter) &&
      sources.Some? && forall i :: 0 <= i < |sources.value| ==> sources.value[i].Some?
    ensures StringUtils.IsBlank(prefix) ==> r == Failure(IllegalArgument(PrefixMessage))
    ensures !StringUtils.IsBlank(prefix) && StringUtils.IsBlank(suffix) ==> r == Failure(IllegalArgument(SuffixMessage))
    ensures !StringUtils.IsBlank(prefix) && !StringUtils.IsBlank(suffix) && StringUtils.IsBlank(delimiter) ==>
      r == Failure(IllegalArgument(DelimiterMessage))
    ensures r.Failure? && !StringUtils.IsBlank(prefix) && !StringUtils.IsBlank(suffix) && !StringUtils.IsBlank(delimiter) ==>
      r.error.NullPointer?
    ensures r.Success? ==>
      r.value.copy == copy && WellFormed(r.value.grammar) &&
      r.value.grammar == Grammar(prefix.value, suffix.value, delimiter.value, escapeChar) &&
      |r.value.sources| == |sources.value| &&
      forall i :: 0 <= i < |sources.value| ==> sources.value[i] == Some(r.value.sources[i])
  {
    var p :- StringUtils.RequireNonBlank(prefix, PrefixMessage);
    var s :- StringUtils.RequireNonBlank(suffix, SuffixMessage);
    var d :- StringUtils.RequireNonBlank(delimiter, DelimiterMessage);
    var own :- match copy
      case Legacy => ListUtils.CopyOf(sources, SourcesMessage)
      case Core =>
        if sources.None? then Failure(NullPointer(SourcesMessage))
        else match ListUtils.Unwrapped(sources.value)
          case None => Failure(NullPointer(""))
          case Some(items) => Success(items);
    Success(Placeholder(copy, Grammar(p, s, d, escapeChar), own))
  }

  /** `mergeSources`: the engine's own sources followed by the extra ones. A null extra array
      counts as none; a null element makes `List.of` throw. */
  function MergeSources(own: seq<Source>, extras: Option<seq<Option<Source>>>): (r: Result<seq<Source>, Exception>)
    ensures r.Success? <==> extras.None? || forall i :: 0 <= i < |extras.value| ==> extras.value[i].Some?
    ensures r.Success? ==> |r.value| == |own| + |extras.GetOr([])| && r.value[..|own|] == own
    ensures r.Success? ==> forall i :: 0 <= i < |extras.GetOr([])| ==> extras.value[i] == Some(r.value[|own| + i])
    ensures r.Failure? ==> r.error.NullPointer?
  {
    if extras.None? || |extras.value| == 0 then Success(own)
    else
      match ListUtils.Unwrapped(extras.value)
      case None => Failure(NullPointer(""))
      case Some(more) => Success(own + more)
  }

  // ---------------------------------------------------------------------------------------
  // Token recognition

  /** `isEscapedPrefix`: the prefix starts here and the template character before it is the
      escape character. */
  predicate IsEscapedPrefix(g: Grammar, t: string, i: nat) {
    i > 0 && StartsWithAt(t, i, g.prefix) && i - 1 < |t| && t[i - 1] == g.escapeChar
  }

  /** `isStartOfPlaceholder`. */
  predicate IsStartOfPlaceholder(g: Grammar, t: string, i: nat) {
    StartsWithAt(t, i, g.prefix)
  }

  /** `isEndOfPlaceholder`: the suffix starts here and some token is open. */
  predicate IsEndOfPlaceholder(g: Grammar, t: string, i: nat, stack: seq<nat>) {
    StartsWithAt(t, i, g.suffix) && |stack| > 0
  }

  /** The open-token offsets fit the buffer: each one leaves room for the prefix written after
      it, before any later offset and before the end of the buffer. */
  predicate StackFits(stack: seq<nat>, bufLength: nat, prefixLength: nat) {
    (forall j, k :: 0 <= j < k < |stack| ==> stack[j] + prefixLength <= stack[k]) &&
    (forall j :: 0 <= j < |stack| ==> stack[j] + prefixLength <= bufLength)
  }

  /** The buffer grows: the stack still fits. */
  lemma StackFitsGrow(stack: seq<nat>, n: nat, m: nat, p: nat)
    requires StackFits(stack, n, p) && n <= m
    ensures StackFits(stack, m, p)
  {
  }

  /** A token opens at the current end of the buffer and the prefix is written. */
  lemma StackFitsPush(stack: seq<nat>, n: nat, p: nat)
    requires StackFits(stack, n, p)
    ensures StackFits(stack + [n], n + p, p)
  {
  }

  /** The innermost token closes: the buffer is cut at its offset and then extended. */
  lemma StackFitsPop(stack: seq<nat>, n: nat, m: nat, p: nat)
    requires StackFits(stack, n, p) && |stack| > 0 && stack[|stack| - 1] <= m
    ensures stack[|stack| - 1] + p <= n
    ensures StackFits(stack[..|stack| - 1], m, p)
  {
    var s := stack[..|stack| - 1];
    forall j | 0 <= j < |s|
      ensures s[j] + p <= m
    {
      assert s[j] == stack[j];
      assert stack[j] + p <= stack[|stack| - 1];
    }
  }

  // ---------------------------------------------------------------------------------------
  // Key, fallback and lookup

  /** The key and the optional fallback of raw placeholder text: split at the first occurrence
      of the delimiter; without a delimiter the whole text is the key and there is no fallback. */
  function SplitPlaceholder(raw: string, delimiter: string): (r: (string, Option<string>))
    ensures IndexOf(raw, delimiter).None? ==> r == (raw, None)
    ensures IndexOf(raw, delimiter).Some? ==> r.1.Some? && r.0 + delimiter + r.1.value == raw
    ensures IndexOf(raw, delimiter).Some? ==> |r.0| == IndexOf(raw, delimiter).value
  {
    match IndexOf(raw, delimiter)
    case None => (raw, None)
    case Some(at) =>
      assert raw == raw[..at] + delimiter + raw[at + |delimiter|..];
      (raw[..at], Some(raw[at + |delimiter|..]))
  }

  /** The index of the first source that has `key`. */
  function FirstSourceWith(key: string, sources: seq<Source>): (r: Option<nat>)
    ensures r.Some? ==> r.value < |sources| && key in sources[r.value]
    ensures r.Some? ==> forall j :: 0 <= j < r.value ==> key !in sources[j]
    ensures r.None? ==> forall j :: 0 <= j < |sources| ==> key !in sources[j]
  {
    if sources == [] then None
    else if key in sources[0] then Some(0)
    else
      match FirstSourceWith(key, sources[1..])
      case None => None
      case Some(j) => Some(j + 1)
  }

  /** `resolve`: a blank key is never found; otherwise the first source answering non-null
      wins. */
  function Lookup(key: string, sources: seq<Source>): (r: Option<string>)
    ensures StringUtils.IsBlank(Some(key)) ==> r.None?
    ensures r.Some? ==> exists j :: 0 <= j < |sources| && key in sources[j] && r.value == sources[j][key]
  {
    if StringUtils.IsBlank(Some(key)) then None
    else
      match FirstSourceWith(key, sources)
      case None => None
      case Some(j) => Some(sources[j][key])
  }

  // ---------------------------------------------------------------------------------------
  // The scan, as a function

  /** `replace` from position `i` of `t`, with output buffer `buf`, open-token stack `stack`
      (top last), keys in resolution `inRes` and unresolved keys `unres`. */
  function ScanFrom(g: Grammar, sources: seq<Source>, t: string, i: nat, buf: string, stack: seq<nat>,
                    inRes: set<string>, unres: set<string>, depth: nat): Scan
    requires WellFormed(g) && i <= |t| && StackFits(stack, |buf|, |g.prefix|)
    decreases depth, 2, |t| - i
  {
    if i == |t| then Scanned(buf, unres)
    else if IsEscapedPrefix(g, t, i) then
      if buf == [] then Aborted(BufferUnderflow)
      else
        StackFitsGrow(stack, |buf|, |buf| - 1 + |g.prefix|, |g.prefix|);
        ScanFrom(g, sources, t, i + |g.prefix|, buf[..|buf| - 1] + g.prefix, stack, inRes, unres, depth)
    else if IsStartOfPlaceholder(g, t, i) then
      StackFitsPush(stack, |buf|, |g.prefix|);
      ScanFrom(g, sources, t, i + |g.prefix|, buf + g.prefix, stack + [|buf|], inRes, unres, depth)
    else if IsEndOfPlaceholder(g, t, i, stack) then
      var start := stack[|stack| - 1];
      StackFitsPop(stack, |buf|, start, |g.prefix|);
      match PlaceholderResolution(g, sources, buf[start + |g.prefix|..], inRes, unres, depth)
      case Aborted(why) => Aborted(why)
      case Scanned(text, unres') =>
        StackFitsPop(stack, |buf|, start + |text|, |g.prefix|);
        ScanFrom(g, sources, t, i + |g.suffix|, buf[..start] + text, stack[..|stack| - 1], inRes, unres', depth)
    else
      StackFitsGrow(stack, |buf|, |buf| + 1, |g.prefix|);
      ScanFrom(g, sources, t, i + 1, buf + [t[i]], stack, inRes, unres, depth)
  }

  /** `replace` of a whole template. */
  function Replaced(g: Grammar, sources: seq<Source>, t: string, inRes: set<string>, unres: set<string>, depth: nat): Scan
    requires WellFormed(g)
    decreases depth, 3, 0
  {
    ScanFrom(g, sources, t, 0, [], [], inRes, unres, depth)
  }

  /** `resolvePlaceholder`: split the raw text, fail on a key already being resolved, else
      resolve the key with the key added to the in-resolution set. */
  function PlaceholderResolution(g: Grammar, sources: seq<Source>, raw: string, inRes: set<string>,
                                 unres: set<string>, depth: nat): Scan
    requires WellFormed(g)
    decreases depth, 1, 0
  {
    var (key, fallback) := SplitPlaceholder(raw, g.delimiter);
    if key in inRes then Aborted(Circular(key))
    else KeyResolution(g, sources, key, fallback, inRes + {key}, unres, depth)
  }

  /** `resolveKey`: a found value is rewritten, else a fallback (even empty) is rewritten, else
      the key is recorded as unresolved and the token is re-emitted as prefix, key, suffix. */
  function KeyResolution(g: Grammar, sources: seq<Source>, key: string, fallback: Option<string>,
                         inRes: set<string>, unres: set<string>, depth: nat): Scan
    requires WellFormed(g)
    decreases depth, 0, 0
  {
    match Lookup(key, sources)
    case Some(value) =>
      if depth == 0 then Aborted(DepthExceeded)
      else Replaced(g, sources, value, inRes, unres, depth - 1)
    case None =>
      match fallback
      case Some(f) =>
        if depth == 0 then Aborted(DepthExceeded)
        else Replaced(g, sources, f, inRes, unres, depth - 1)
      case None => Scanned(g.prefix + key + g.suffix, unres + {key})
  }

  /** The outcome of a whole scan: present only when no key went unresolved. */
  function Verdict(s: Scan): Outcome {
    match s
    case Scanned(text, unresolved) => if unresolved == {} then Resolved(text) else Unresolvable
    case Aborted(Circular(key)) => CircularReference(key)
    case Aborted(BufferUnderflow) => Thrown(StringIndexOutOfBounds)
    case Aborted(DepthExceeded) => Thrown(StackOverflow)
  }

  /** The fast path of `replaceIfAllResolvable`: a blank template or one without the prefix. */
  predicate IsVerbatim(g: Grammar, t: string) {
    StringUtils.IsBlank(Some(t)) || !Contains(t, g.prefix)
  }

  /** `replaceIfAllResolvable(template, extraSources...)`. The core copy takes the fast path
      before merging the sources; the older copy merges them first. */
  function Interpolation(p: Placeholder, template: Option<string>, extras: Option<seq<Option<Source>>>, depth: nat): Outcome
    requires WellFormed(p.grammar)
  {
    if template.None? then Thrown(NullPointer(TemplateMessage))
    else
      var t := template.value;
      if p.copy == Core && IsVerbatim(p.grammar, t) then Resolved(t)
      else
        match MergeSources(p.sources, extras)
        case Failure(e) => Thrown(e)
        case Success(merged) =>
          if IsVerbatim(p.grammar, t) then Resolved(t)
          else if merged == [] then Unresolvable
          else Verdict(Replaced(p.grammar, merged, t, {}, {}, depth))
  }

  // ---------------------------------------------------------------------------------------
  // The imperative engine

  /** The per-call state `replace` threads through its recursion: the keys currently being
      resolved and the keys left unresolved. */
  class Session {
    var keysInResolution: set<string>
    var unresolved: set<string>

    constructor()
      ensures keysInResolution == {} && unresolved == {}
    {
      keysInResolution := {};
      unresolved := {};
    }
  }

  /** How a method's result and the session's final state match a specification scan. */
  ghost predicate Matches(r: Result<string, Abort>, spec: Scan, session: Session, inRes: set<string>)
    reads session
  {
    match spec
    case Scanned(text, unres) =>
      r == Success(text) && session.unresolved == unres && session.keysInResolution == inRes
    case Aborted(why) => r == Failure(why)
  }

  /** `replace`: the scanning loop over the template, with a `seq` as the StringBuilder and a
      `seq` as the stack of open-token offsets (top last). */
  method Replace(g: Grammar, sources: seq<Source>, t: string, session: Session, depth: nat)
    returns (r: Result<string, Abort>)
    requires WellFormed(g)
    modifies session
    ensures Matches(r, Replaced(g, sources, t, old(session.keysInResolution), old(session.unresolved), depth),
                    session, old(session.keysInResolution))
    decreases depth, 3
  {
    ghost var inRes := session.keysInResolution;
    ghost var spec := Replaced(g, sources, t, inRes, session.unresolved, depth);
    var result: string := [];
    var stack: seq<nat> := [];
    var i := 0;
    while i < |t|
      invariant i <= |t| && StackFits(stack, |result|, |g.prefix|)
      invariant session.keysInResolution == inRes
      invariant ScanFrom(g, sources, t, i, result, stack, inRes, session.unresolved, depth) == spec
      decreases |t| - i
    {
      var stop;
      i, result, stack, stop := ScanOne(g, sources, t, i, result, stack, session, depth);
      if stop.Some? {
        return Failure(stop.value);
      }
    }
    r := Success(result);
  }

  /** One turn of the loop of `replace` at position `i`: an escaped prefix, an opening prefix,
      a closing suffix or a plain character; `stop` is the abort that ends the scan. */
  method ScanOne(g: Grammar, sources: seq<Source>, t: string, i: nat, result: string, stack: seq<nat>,
                 session: Session, depth: nat)
    returns (i': nat, result': string, stack': seq<nat>, stop: Option<Abort>)
    requires WellFormed(g) && i < |t| && StackFits(stack, |result|, |g.prefix|)
    modifies session
    ensures stop.Some? ==>
      ScanFrom(g, sources, t, i, result, stack, old(session.keysInResolution), old(session.unresolved), depth)
      == Aborted(stop.value)
    ensures stop.None? ==>
      i < i' <= |t| && StackFits(stack', |result'|, |g.prefix|) &&
      session.keysInResolution == old(session.keysInResolution) &&
      ScanFrom(g, sources, t, i, result, stack, old(session.keysInResolution), old(session.unresolved), depth)
      == ScanFrom(g, sources, t, i', result', stack', session.keysInResolution, session.unresolved, depth)
    decreases depth, 2, 1
  {
    stop := None;
    if IsEscapedPrefix(g, t, i) {
      if |result| == 0 {
        return i, result, stack, Some(BufferUnderflow);
      }
      StackFitsGrow(stack, |result|, |result| - 1 + |g.prefix|, |g.prefix|);
      result' := result[..|result| - 1] + g.prefix;
      i', stack' := i + |g.prefix|, stack;
    } else if IsStartOfPlaceholder(g, t, i) {
      StackFitsPush(stack, |result|, |g.prefix|);
      stack' := stack + [|result|];
      result' := result + g.prefix;
      i' := i + |g.prefix|;
    } else if IsEndOfPlaceholder(g, t, i, stack) {
      var start := stack[|stack| - 1];
      StackFitsPop(stack, |result|, start, |g.prefix|);
      var r := ProcessPlaceholder(g, sources, result, start, session, depth);
      if r.Failure? {
        return i, result, stack, Some(r.error);
      }
      StackFitsPop(stack, |result|, |r.value|, |g.prefix|);
      stack' := stack[..|stack| - 1];
      result' := r.value;
      i' := i + |g.suffix|;
    } else {
      StackFitsGrow(stack, |result|, |result| + 1, |g.prefix|);
      result' := result + [t[i]];
      i', stack' := i + 1, stack;
    }
  }

  /** `processPlaceholder`: cut the raw text after the prefix at `start` out of the buffer,
      resolve it and append the resolution; the new buffer is returned. */
  method ProcessPlaceholder(g: Grammar, sources: seq<Source>, result: string, start: nat, session: Session, depth: nat)
    returns (r: Result<string, Abort>)
    requires WellFormed(g) && start + |g.prefix| <= |result|
    modifies session
    ensures var spec := PlaceholderResolution(g, sources, result[start + |g.prefix|..],
                                              old(session.keysInResolution), old(session.unresolved), depth);
      match spec
      case Scanned(text, unres) =>
        r == Success(result[..start] + text) && session.unresolved == unres &&
        session.keysInResolution == old(session.keysInResolution)
      case Aborted(why) => r == Failure(why)
    decreases depth, 2, 0
  {
    var placeholder := result[start + |g.prefix|..];
    var kept := result[..start];
    var resolved := ResolvePlaceholder(g, sources, placeholder, session, depth);
    if resolved.Failure? {
      return Failure(resolved.error);
    }
    r := Success(kept + resolved.value);
  }

  /** `resolvePlaceholder`: the in-resolution set gains the key for the duration of
      `resolveKey` and loses it afterwards. */
  method ResolvePlaceholder(g: Grammar, sources: seq<Source>, placeholder: string, session: Session, depth: nat)
    returns (r: Result<string, Abort>)
    requires WellFormed(g)
    modifies session
    ensures Matches(r, PlaceholderResolution(g, sources, placeholder, old(session.keysInResolution),
                                             old(session.unresolved), depth),
                    session, old(session.keysInResolution))
    decreases depth, 1
  {
    var split := SplitPlaceholder(placeholder, g.delimiter);
    var key, fallback := split.0, split.1;
    if key in session.keysInResolution {
      return Failure(Circular(key));
    }
    ghost var before := session.keysInResolution;
    session.keysInResolution := session.keysInResolution + {key};
    r := ResolveKey(g, sources, key, fallback, session, depth);
    if r.Failure? {
      return;
    }
    session.keysInResolution := session.keysInResolution - {key};
    assert session.keysInResolution == before;
  }

  /** `resolveKey`. */
  method ResolveKey(g: Grammar, sources: seq<Source>, key: string, fallback: Option<string>, session: Session, depth: nat)
    returns (r: Result<string, Abort>)
    requires WellFormed(g)
    modifies session
    ensures Matches(r, KeyResolution(g, sources, key, fallback, old(session.keysInResolution),
                                     old(session.unresolved), depth),
                    session, old(session.keysInResolution))
    decreases depth, 0
  {
    var value := Resolve(key, sources);
    if value.Some? {
      if depth == 0 {
        return Failure(DepthExceeded);
      }
      r := Replace(g, sources, value.value, session, depth - 1);
      return;
    }
    if fallback.Some? {
      if depth == 0 {
        return Failure(DepthExceeded);
      }
      r := Replace(g, sources, fallback.value, session, depth - 1);
      return;
    }
    session.unresolved := session.unresolved + {key};
    r := Success(g.prefix + key + g.suffix);
  }

  /** `resolve`: the loop over the sources, stopping at the first that has the key. */
  method Resolve(key: string, sources: seq<Source>) returns (value: Option<string>)
    ensures value == Lookup(key, sources)
  {
    if StringUtils.IsBlank(Some(key)) {
      return None;
    }
    for i := 0 to |sources|
      invariant forall j :: 0 <= j < i ==> key !in sources[j]
    {
      var source := sources[i];
      if key in source {
        assert FirstSourceWith(key, sources) == Some(i);
        return Some(source[key]);
      }
    }
    return None;
  }

  /** `replaceIfAllResolvable`: a fresh session per call, and a present result only when the
      session's unresolved set is empty after the scan. */
  method ReplaceIfAllResolvable(p: Placeholder, template: Option<string>, extras: Option<seq<Option<Source>>>, depth: nat)
    returns (r: Outcome)
    requires WellFormed(p.grammar)
    ensures r == Interpolation(p, template, extras, depth)
  {
    if template.None? {
      return Thrown(NullPointer(TemplateMessage));
    }
    var t := template.value;
    var verbatim := StringUtils.IsBlank(Some(t)) || !Contains(t, p.grammar.prefix);
    if p.copy == Core && verbatim {
      return Resolved(t);
    }
    var merged := MergeSources(p.sources, extras);
    if merged.Failure? {
      return Thrown(merged.error);
    }
    if verbatim {
      return Resolved(t);
    }
    if |merged.value| == 0 {
      return Unresolvable;
    }
    var session := new Session();
    var resolved := Replace(p.grammar, merged.value, t, session, depth);
    match resolved {
      case Failure(Circular(key)) => r := CircularReference(key);
      case Failure(BufferUnderflow) => r := Thrown(StringIndexOutOfBounds);
      case Failure(DepthExceeded) => r := Thrown(StackOverflow);
      case Success(text) => r := if session.unresolved == {} then Resolved(text) else Unresolvable;
    }
  }
}
