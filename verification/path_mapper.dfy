/** `io.github.liana.config.JacksonPathMapper`: reads a value out of a configuration tree by a
    dotted path such as `users[0].name`. The path becomes a JSON Pointer (`/users/0/name`) by
    two textual replacements, and the pointer is evaluated over the tree. Converting the
    source into a tree and the node into a Java type are Jackson's: the source is given as a
    tree and the node is returned as it is. A Java `Type` or `Class` argument is represented
    by its name, `None` standing for `null`. */
module JacksonPathMapper {
  import opened Wrappers
  import opened Exceptions
  import opened JsonTree
  import opened JsonPointer

  const SourceMessage := "source object cannot be null"
  const PathMessage := "path cannot be null"
  const TargetTypeMessage := "target type cannot be null"

  // From a path to a pointer

  /** `path.replace(".", "/")`. */
  function ReplaceDots(s: string): (r: string)
    ensures |r| == |s| && '.' !in r
    ensures forall i :: 0 <= i < |s| ==> r[i] == (if s[i] == '.' then '/' else s[i])
  {
    seq(|s|, i requires 0 <= i < |s| => if s[i] == '.' then '/' else s[i])
  }

  /** The length of the run of ASCII digits at the start of `s` (`\d` in a Java regex). */
  function DigitRun(s: string): (n: nat)
    ensures n <= |s| && AllDigits(s[..n]) && (n < |s| ==> !IsDigit(s[n]))
  {
    if s == [] || !IsDigit(s[0]) then 0 else 1 + DigitRun(s[1..])
  }

  /** Whether `s` starts with a match of `\[(\d+)]`, and the length of its digits. */
  predicate IndexAt(s: string) {
    |s| >= 3 && s[0] == '[' && 0 < DigitRun(s[1..]) < |s| - 1 && s[1 + DigitRun(s[1..])] == ']'
  }

  /** `replaceAll("\\[(\\d+)]", "/$1")`: matches are taken left to right without overlap;
      each becomes `/` followed by its digits. */
  function ReplaceIndices(s: string): string
    decreases |s|
  {
    if s == [] then []
    else if IndexAt(s) then
      var n := DigitRun(s[1..]);
      "/" + s[1..1 + n] + ReplaceIndices(s[n + 2..])
    else [s[0]] + ReplaceIndices(s[1..])
  }

  /** `toJsonPointer`: dots first, then bracketed indices, behind a leading `/`. */
  function ToJsonPointer(path: string): (r: string)
    ensures r != [] && r[0] == '/'
  {
    "/" + ReplaceIndices(ReplaceDots(path))
  }

  lemma ReplaceDotsAppend(a: string, b: string)
    ensures ReplaceDots(a + b) == ReplaceDots(a) + ReplaceDots(b)
  {
  }

  lemma ReplaceDotsPlain(a: string)
    requires '.' !in a
    ensures ReplaceDots(a) == a
  {
  }

  /** Text before the first `[` passes through unchanged. */
  lemma {:induction false} ReplaceIndicesAppend(a: string, b: string)
    requires '[' !in a
    ensures ReplaceIndices(a + b) == a + ReplaceIndices(b)
  {
    if a != [] {
      assert (a + b)[0] == a[0] && (a + b)[1..] == a[1..] + b;
      ReplaceIndicesAppend(a[1..], b);
      assert [a[0]] + a[1..] == a;
    } else {
      assert a + b == b;
    }
  }

  /** Text without `[` is left alone. */
  lemma ReplaceIndicesPlain(a: string)
    requires '[' !in a
    ensures ReplaceIndices(a) == a
  {
    ReplaceIndicesAppend(a, []);
    assert a + [] == a;
  }

  /** A bracketed decimal index becomes `/` and its digits. */
  lemma ReplaceIndicesIndex(digits: string, b: string)
    requires digits != [] && AllDigits(digits)
    ensures ReplaceIndices("[" + digits + "]" + b) == "/" + digits + ReplaceIndices(b)
  {
    var s := "[" + digits + "]" + b;
    var n := |digits|;
    assert s[1..] == digits + ("]" + b);
    DigitRunOf(digits, "]" + b);
    assert s[0] == '[' && s[1 + n] == ']';
    assert IndexAt(s);
    assert s[1..1 + n] == digits;
    assert s[n + 2..] == b;
  }

  lemma {:induction false} DigitRunOf(digits: string, rest: string)
    requires AllDigits(digits) && (rest != [] ==> !IsDigit(rest[0]))
    ensures DigitRun(digits + rest) == |digits|
  {
    if digits == [] {
      assert digits + rest == rest;
    } else {
      assert (digits + rest)[1..] == digits[1..] + rest;
      DigitRunOf(digits[1..], rest);
    }
  }

  // Paths built from steps

  /** One step of a dotted path: a property name, or a bracketed array index. */
  datatype PathStep = Key(name: string) | Index(n: nat)

  /** A property name the path syntax can carry unchanged: no dot, bracket, slash or tilde. */
  predicate PlainKey(k: string) {
    '.' !in k && '[' !in k && '/' !in k && '~' !in k
  }

  /** A path that starts with a property name and whose names are plain. */
  predicate WellFormedPath(steps: seq<PathStep>) {
    steps != [] && steps[0].Key? && forall i :: 0 <= i < |steps| && steps[i].Key? ==> PlainKey(steps[i].name)
  }

  /** The steps after the first, written as `.name` and `[n]`. */
  function RenderRest(steps: seq<PathStep>): string {
    if steps == [] then []
    else
      match steps[0]
      case Key(k) => "." + k + RenderRest(steps[1..])
      case Index(n) => "[" + Digits(n) + "]" + RenderRest(steps[1..])
  }

  /** The dotted path of the steps, as the library's callers write it. */
  function Render(steps: seq<PathStep>): string
    requires steps != [] && steps[0].Key?
  {
    steps[0].name + RenderRest(steps[1..])
  }

  function TokenOf(step: PathStep): string {
    match step
    case Key(k) => k
    case Index(n) => Digits(n)
  }

  /** The reference tokens the steps stand for. */
  function StepTokens(steps: seq<PathStep>): (r: seq<string>)
    ensures |r| == |steps| && forall i :: 0 <= i < |r| ==> r[i] == TokenOf(steps[i])
  {
    if steps == [] then [] else [TokenOf(steps[0])] + StepTokens(steps[1..])
  }

  /** The rest of a pointer: `/` and a token per step. */
  function PointerRest(steps: seq<PathStep>): string {
    if steps == [] then [] else "/" + TokenOf(steps[0]) + PointerRest(steps[1..])
  }

  lemma {:induction false} JoinTokens(first: string, steps: seq<PathStep>)
    ensures Join([first] + StepTokens(steps)) == first + PointerRest(steps)
    decreases |steps|
  {
    if steps == [] {
      assert [first] + StepTokens(steps) == [first];
    } else {
      var tokens := [first] + StepTokens(steps);
      assert tokens[1..] == [TokenOf(steps[0])] + StepTokens(steps[1..]);
      JoinTokens(TokenOf(steps[0]), steps[1..]);
    }
  }

  lemma {:induction false} RenderRestPointer(steps: seq<PathStep>)
    requires forall i :: 0 <= i < |steps| && steps[i].Key? ==> PlainKey(steps[i].name)
    ensures ReplaceIndices(ReplaceDots(RenderRest(steps))) == PointerRest(steps)
  {
    if steps != [] {
      var tail := RenderRest(steps[1..]);
      RenderRestPointer(steps[1..]);
      match steps[0]
      case Key(k) =>
        ReplaceDotsAppend("." + k, tail);
        ReplaceDotsAppend(".", k);
        ReplaceDotsPlain(k);
        assert ReplaceDots(".") == "/";
        ReplaceIndicesAppend("/" + k, ReplaceDots(tail));
      case Index(n) =>
        var head := "[" + Digits(n) + "]";
        assert '.' !in head;
        ReplaceDotsAppend(head, tail);
        ReplaceDotsPlain(head);
        ReplaceIndicesIndex(Digits(n), ReplaceDots(tail));
    }
  }

  /** A path written from steps turns into the pointer whose tokens are the steps. */
  lemma PointerOfRender(steps: seq<PathStep>)
    requires WellFormedPath(steps)
    ensures ToJsonPointer(Render(steps)) == "/" + Join(StepTokens(steps))
  {
    var first := steps[0].name;
    var rest := steps[1..];
    assert forall i :: 0 <= i < |rest| && rest[i].Key? ==> PlainKey(rest[i].name) by {
      forall i | 0 <= i < |rest| && rest[i].Key?
        ensures PlainKey(rest[i].name)
      {
        assert rest[i] == steps[i + 1];
      }
    }
    ReplaceDotsAppend(first, RenderRest(rest));
    ReplaceDotsPlain(first);
    RenderRestPointer(rest);
    ReplaceIndicesAppend(first, ReplaceDots(RenderRest(rest)));
    assert StepTokens(steps) == [first] + StepTokens(rest);
    JoinTokens(first, rest);
  }

  /** Round trip: the pointer of a rendered path reads back as exactly the steps' tokens. */
  lemma PathRoundTrip(steps: seq<PathStep>)
    requires WellFormedPath(steps)
    ensures Tokens(ToJsonPointer(Render(steps))) == Some(StepTokens(steps))
  {
    PointerOfRender(steps);
    var tokens := StepTokens(steps);
    forall i | 0 <= i < |tokens|
      ensures '/' !in tokens[i] && '~' !in tokens[i]
    {
      if steps[i].Index? {
        var d := Digits(steps[i].n);
        assert forall j :: 0 <= j < |d| ==> IsDigit(d[j]);
      }
    }
    TokensOfJoin(tokens);
  }

  // The lookups

  /** `getNode(source, path)`: the node the path's pointer reaches, `None` when missing. */
  function NodeAt(tree: Tree, path: string): Option<Tree> {
    Eval(tree, Tokens(ToJsonPointer(path)).value)
  }

  /** The node a path written from steps reaches is the one its tokens reach. */
  lemma NodeAtSteps(tree: Tree, steps: seq<PathStep>)
    requires WellFormedPath(steps)
    ensures NodeAt(tree, Render(steps)) == Eval(tree, StepTokens(steps))
  {
    PathRoundTrip(steps);
  }

  /** `get(source, targetType)`: the whole tree, never missing. */
  function GetAll(source: Option<Tree>, targetType: Option<string>): (r: Result<Option<Tree>, Exception>)
    ensures source.None? ==> r == Failure(NullPointer(SourceMessage))
    ensures source.Some? && targetType.None? ==> r == Failure(NullPointer(TargetTypeMessage))
    ensures source.Some? && targetType.Some? ==> r == Success(Some(source.value))
  {
    if source.None? then Failure(NullPointer(SourceMessage))
    else if targetType.None? then Failure(NullPointer(TargetTypeMessage))
    else Success(Some(source.value))
  }

  /** `get(source, path, targetType)`: the node at the path, empty when it is missing. */
  function Get(source: Option<Tree>, path: Option<string>, targetType: Option<string>): (r: Result<Option<Tree>, Exception>)
    ensures source.None? ==> r == Failure(NullPointer(SourceMessage))
    ensures source.Some? && path.None? ==> r == Failure(NullPointer(PathMessage))
    ensures source.Some? && path.Some? && targetType.None? ==> r == Failure(NullPointer(TargetTypeMessage))
    ensures r.Success? ==> r.value == NodeAt(source.value, path.value)
  {
    if source.None? then Failure(NullPointer(SourceMessage))
    else if path.None? then Failure(NullPointer(PathMessage))
    else if targetType.None? then Failure(NullPointer(TargetTypeMessage))
    else Success(NodeAt(source.value, path.value))
  }

  /** `getList`: the elements of the array at the path; empty when the node is missing or is
      not an array. */
  function GetList(source: Option<Tree>, path: Option<string>, targetType: Option<string>): (r: Result<seq<Tree>, Exception>)
    ensures source.None? ==> r == Failure(NullPointer(SourceMessage))
    ensures source.Some? && path.None? ==> r == Failure(NullPointer(PathMessage))
    ensures source.Some? && path.Some? && targetType.None? ==> r == Failure(NullPointer(TargetTypeMessage))
    ensures r.Success? ==>
      var node := NodeAt(source.value, path.value);
      r.value == if node.Some? && node.value.Arr? then node.value.items else []
  {
    if source.None? then Failure(NullPointer(SourceMessage))
    else if path.None? then Failure(NullPointer(PathMessage))
    else if targetType.None? then Failure(NullPointer(TargetTypeMessage))
    else
      var node := NodeAt(source.value, path.value);
      if node.None? || !node.value.Arr? then Success([]) else Success(node.value.items)
  }

  /** `getMap`: the fields of the object at the path; empty when the node is missing or is
      not an object. The target type is not checked up front: a null one fails only when an
      object is found, when its name is taken for the error message (the JVM's own message
      is not modelled, hence the empty one). */
  function GetMap(source: Option<Tree>, path: Option<string>, targetType: Option<string>): (r: Result<map<string, Tree>, Exception>)
    ensures source.None? ==> r == Failure(NullPointer(SourceMessage))
    ensures source.Some? && path.None? ==> r == Failure(NullPointer(PathMessage))
    ensures source.Some? && path.Some? ==>
      var node := NodeAt(source.value, path.value);
      if node.None? || !node.value.Obj? then r == Success(map[])
      else if targetType.None? then r == Failure(NullPointer(""))
      else r == Success(node.value.fields)
  {
    if source.None? then Failure(NullPointer(SourceMessage))
    else if path.None? then Failure(NullPointer(PathMessage))
    else
      var node := NodeAt(source.value, path.value);
      if node.None? || !node.value.Obj? then Success(map[])
      else if targetType.None? then Failure(NullPointer(""))
      else Success(node.value.fields)
  }

  /** `hasPath`: whether the path reaches a node. */
  function HasPath(source: Option<Tree>, path: Option<string>): (r: Result<bool, Exception>)
    ensures source.None? ==> r == Failure(NullPointer(SourceMessage))
    ensures source.Some? && path.None? ==> r == Failure(NullPointer(PathMessage))
  {
    if source.None? then Failure(NullPointer(SourceMessage))
    else if path.None? then Failure(NullPointer(PathMessage))
    else Success(NodeAt(source.value, path.value).Some?)
  }

  // Properties

  /** A path exists exactly when `get` finds a value there. */
  lemma HasPathIffGet(source: Tree, path: string, targetType: string)
    ensures HasPath(Some(source), Some(path)) == Success(true) <==>
      Get(Some(source), Some(path), Some(targetType)).Success? && Get(Some(source), Some(path), Some(targetType)).value.Some?
    ensures HasPath(Some(source), Some(path)) == Success(false) <==>
      Get(Some(source), Some(path), Some(targetType)) == Success(None)
  {
  }

  /** A path that reaches a value which is not an array gives an empty list, even though the
      value exists. */
  lemma ListOfScalarIsEmpty(source: Tree, path: string, targetType: string)
    requires NodeAt(source, path).Some? && !NodeAt(source, path).value.Arr?
    ensures HasPath(Some(source), Some(path)) == Success(true)
    ensures GetList(Some(source), Some(path), Some(targetType)) == Success([])
  {
  }

  /** A path that reaches an array lists its elements in order. */
  lemma ListOfArray(source: Tree, steps: seq<PathStep>, items: seq<Tree>, targetType: string)
    requires WellFormedPath(steps) && Eval(source, StepTokens(steps)) == Some(Arr(items))
    ensures GetList(Some(source), Some(Render(steps)), Some(targetType)) == Success(items)
  {
    NodeAtSteps(source, steps);
  }

  /** A step `[n]` after a path selects the `n`-th element of the array the path reaches, and
      an index past the end is missing. */
  lemma IndexStepSelects(source: Tree, steps: seq<PathStep>, items: seq<Tree>, n: nat)
    requires WellFormedPath(steps) && Eval(source, StepTokens(steps)) == Some(Arr(items))
    ensures WellFormedPath(steps + [Index(n)])
    ensures NodeAt(source, Render(steps + [Index(n)])) == if n < |items| then Some(items[n]) else None
  {
    var longer := steps + [Index(n)];
    assert longer[0] == steps[0];
    assert forall i :: 0 <= i < |longer| && longer[i].Key? ==> i < |steps| && longer[i] == steps[i];
    NodeAtSteps(source, longer);
    assert StepTokens(longer) == StepTokens(steps) + [Digits(n)];
    EvalAppend(source, StepTokens(steps), [Digits(n)]);
    IndexSelects(items, n);
  }
}
