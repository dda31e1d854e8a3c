/** The paths of the path mapper's documentation and tests, proved of the model. Each lemma
    takes the path as a parameter pinned to its literal. */
module PathMapperExamples {
  import opened Wrappers
  import opened JsonTree
  import opened JsonPointer
  import opened JacksonPathMapper

  // Rendering of short paths, for any names

  lemma RenderKeys(a: string, b: string)
    requires PlainKey(a) && PlainKey(b)
    ensures WellFormedPath([Key(a), Key(b)])
    ensures Render([Key(a), Key(b)]) == a + "." + b
    ensures StepTokens([Key(a), Key(b)]) == [a, b]
  {
    var steps := [Key(a), Key(b)];
    assert steps[1..] == [Key(b)];
    assert RenderRest(steps[1..]) == "." + b + RenderRest([]);
  }

  lemma RenderKeyIndex(a: string, n: nat)
    requires PlainKey(a)
    ensures WellFormedPath([Key(a), Index(n)])
    ensures Render([Key(a), Index(n)]) == a + "[" + Digits(n) + "]"
    ensures StepTokens([Key(a), Index(n)]) == [a, Digits(n)]
  {
    var steps := [Key(a), Index(n)];
    assert steps[1..] == [Index(n)];
    assert RenderRest(steps[1..]) == "[" + Digits(n) + "]" + RenderRest([]);
  }

  lemma RenderKeyIndexKey(a: string, n: nat, b: string)
    requires PlainKey(a) && PlainKey(b)
    ensures WellFormedPath([Key(a), Index(n), Key(b)])
    ensures Render([Key(a), Index(n), Key(b)]) == a + "[" + Digits(n) + "]" + "." + b
    ensures StepTokens([Key(a), Index(n), Key(b)]) == [a, Digits(n), b]
  {
    var steps := [Key(a), Index(n), Key(b)];
    assert steps[2..] == [Key(b)];
    assert steps[1..][1..] == steps[2..];
    assert RenderRest(steps[2..]) == "." + b + RenderRest([]);
    assert RenderRest(steps[1..]) == "[" + Digits(n) + "]" + RenderRest(steps[2..]);
    assert StepTokens(steps) == [TokenOf(steps[0]), TokenOf(steps[1]), TokenOf(steps[2])];
  }

  lemma JoinTwo(a: string, b: string)
    ensures Join([a, b]) == a + "/" + b
  {
    assert [a, b][1..] == [b];
  }

  lemma JoinThree(a: string, b: string, c: string)
    ensures Join([a, b, c]) == a + "/" + b + "/" + c
  {
    assert [a, b, c][1..] == [b, c];
    JoinTwo(b, c);
  }

  lemma DigitsZero(n: nat)
    requires n == 0
    ensures Digits(n) == "0"
  {
  }

  // The examples

  /** Two property names: `app.name` is `/app/name`. */
  lemma AppName(path: string)
    requires path == "app.name"
    ensures ToJsonPointer(path) == "/app/name"
  {
    var a, b := "app", "name";
    RenderKeys(a, b);
    assert path == a + "." + b;
    PointerOfRender([Key(a), Key(b)]);
    JoinTwo(a, b);
  }

  /** The steps of `users[0].name`. */
  lemma UsersSteps(steps: seq<PathStep>, path: string)
    requires steps == [Key("users"), Index(0), Key("name")] && path == "users[0].name"
    ensures WellFormedPath(steps) && Render(steps) == path
    ensures StepTokens(steps) == ["users", "0", "name"]
  {
    var a, b := "users", "name";
    RenderKeyIndexKey(a, 0, b);
    DigitsZero(0);
  }

  /** An index between names: `users[0].name` is `/users/0/name`. */
  lemma UsersName(path: string)
    requires path == "users[0].name"
    ensures ToJsonPointer(path) == "/users/0/name"
  {
    var steps := [Key("users"), Index(0), Key("name")];
    UsersSteps(steps, path);
    PointerOfRender(steps);
    JoinThree("users", "0", "name");
  }

  /** Brackets around something other than digits stay as they are: `a[x]` is `/a[x]`. */
  lemma NonDigitBracketKept(path: string)
    requires path == "a[x]"
    ensures ToJsonPointer(path) == "/a[x]"
  {
    ReplaceDotsPlain(path);
    var tail := "[x]";
    assert DigitRun(tail[1..]) == 0;
    assert !IndexAt(tail);
    ReplaceIndicesPlain("x]");
    assert ReplaceIndices(tail) == "[" + ReplaceIndices("x]");
    ReplaceIndicesAppend("a", tail);
    assert path == "a" + tail;
  }

  /** `features[0]` is the step `features` followed by the index 0. */
  lemma FeaturesPath(path: string, key: string)
    requires path == "features[0]" && key == "features"
    ensures WellFormedPath([Key(key)]) && Render([Key(key)] + [Index(0)]) == path
  {
    RenderKeyIndex(key, 0);
    DigitsZero(0);
    assert [Key(key)] + [Index(0)] == [Key(key), Index(0)];
  }

  /** A one-member object: the member's name leads to its value. */
  lemma MemberReached(source: Tree, key: string, value: Tree)
    requires source == Obj(map[key := value])
    ensures Eval(source, StepTokens([Key(key)])) == Some(value)
  {
    assert StepTokens([Key(key)]) == [key];
    assert Step(source, key) == Some(value);
    assert Eval(value, []) == Some(value);
  }

  /** `features[0]` where the first feature is a string: the value exists, but it is not an
      array, so the list is empty. */
  lemma ScalarIsNoList(source: Tree, text: string, more: seq<Tree>, path: string)
    requires source == Obj(map["features" := Arr([Str(text)] + more)]) && path == "features[0]"
    ensures HasPath(Some(source), Some(path)) == Success(true)
    ensures GetList(Some(source), Some(path), Some("java.lang.String")) == Success([])
  {
    var key := "features";
    var items := [Str(text)] + more;
    MemberReached(source, key, Arr(items));
    FeaturesPath(path, key);
    IndexStepSelects(source, [Key(key)], items, 0);
    ListOfScalarIsEmpty(source, path, "java.lang.String");
  }

  /** `server.host` is the steps `server` and `host`. */
  lemma HostPath(path: string, a: string, b: string)
    requires path == "server.host" && a == "server" && b == "host"
    ensures WellFormedPath([Key(a), Key(b)]) && Render([Key(a), Key(b)]) == path
    ensures StepTokens([Key(a), Key(b)]) == [a, b]
  {
    RenderKeys(a, b);
  }

  /** A property that is not there: `get` is empty and `hasPath` false. */
  lemma MissingPath(source: Tree, port: Tree, path: string)
    requires source == Obj(map["server" := Obj(map["port" := port])]) && path == "server.host"
    ensures Get(Some(source), Some(path), Some("java.lang.String")) == Success(None)
    ensures HasPath(Some(source), Some(path)) == Success(false)
  {
    var a, b := "server", "host";
    var server := Obj(map["port" := port]);
    HostPath(path, a, b);
    NodeAtSteps(source, [Key(a), Key(b)]);
    assert Step(source, a) == Some(server);
    assert Step(server, b) == None;
    assert [a, b][1..] == [b];
    assert Eval(server, [b]) == None;
  }
}
