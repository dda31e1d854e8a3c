/** JSON Pointer (RFC 6901) as the path mapper uses it through `JsonNode.at`: a pointer is
    split into reference tokens at each `/` (section 3), `~1` and `~0` in a token stand for
    `/` and `~`, and the tokens are evaluated one by one from the root (section 4): a token
    names a member of an object, or, written as a decimal index without leading zeros, an
    element of an array. A token that matches nothing gives the missing node, `None`. */
module JsonPointer {
  import opened Wrappers
  import opened JsonTree

  // Decimal indices

  predicate IsDigit(c: char) {
    '0' <= c <= '9'
  }

  predicate AllDigits(s: string) {
    forall i :: 0 <= i < |s| ==> IsDigit(s[i])
  }

  function DigitValue(c: char): nat
    requires IsDigit(c)
  {
    c as int - '0' as int
  }

  function DigitChar(d: nat): (c: char)
    requires d < 10
    ensures IsDigit(c) && DigitValue(c) == d
  {
    ('0' as int + d) as char
  }

  /** The value of a string of decimal digits, most significant first. */
  function Value(s: string): nat
    requires AllDigits(s)
  {
    if s == [] then 0 else Value(s[..|s| - 1]) * 10 + DigitValue(s[|s| - 1])
  }

  /** The decimal rendering of `n`, without leading zeros. */
  function Digits(n: nat): (r: string)
    ensures r != [] && AllDigits(r)
    decreases n
  {
    if n < 10 then [DigitChar(n)] else Digits(n / 10) + [DigitChar(n % 10)]
  }

  /** `array-index` of section 4 of RFC 6901: `0`, or a non-zero digit followed by digits. */
  predicate IsArrayIndex(t: string) {
    t != [] && AllDigits(t) && (t[0] == '0' ==> |t| == 1)
  }

  function ArrayIndex(t: string): (r: Option<nat>)
    ensures r.Some? <==> IsArrayIndex(t)
  {
    if IsArrayIndex(t) then Some(Value(t)) else None
  }

  lemma {:induction false} DigitsLeading(n: nat)
    ensures Digits(n)[0] == '0' ==> n == 0
    decreases n
  {
    if n >= 10 {
      DigitsLeading(n / 10);
    }
  }

  lemma {:induction false} ValueOfDigits(n: nat)
    ensures Value(Digits(n)) == n
    decreases n
  {
    if n >= 10 {
      var s := Digits(n);
      assert s[..|s| - 1] == Digits(n / 10);
      ValueOfDigits(n / 10);
    }
  }

  lemma {:induction false} ValuePositive(s: string)
    requires s != [] && AllDigits(s) && s[0] != '0'
    ensures Value(s) >= 1
    decreases |s|
  {
    if |s| > 1 {
      ValuePositive(s[..|s| - 1]);
    }
  }

  /** A rendered index reads back as itself, ... */
  lemma DigitsAreIndex(n: nat)
    ensures ArrayIndex(Digits(n)) == Some(n)
  {
    DigitsLeading(n);
    ValueOfDigits(n);
  }

  /** ... and every index token is the rendering of its value: the two are inverse. */
  lemma {:induction false} IndexIsDigits(t: string)
    requires IsArrayIndex(t)
    ensures Digits(Value(t)) == t
    decreases |t|
  {
    if |t| > 1 {
      var init := t[..|t| - 1];
      assert init[0] == t[0];
      ValuePositive(init);
      IndexIsDigits(init);
      var v := Value(t);
      assert v / 10 == Value(init) && v % 10 == DigitValue(t[|t| - 1]);
      assert t == init + [t[|t| - 1]];
    }
  }

  // Reference tokens

  /** The pieces of `s` between the `/` characters; there is always at least one. */
  function Split(s: string): (r: seq<string>)
    ensures |r| >= 1 && forall i :: 0 <= i < |r| ==> '/' !in r[i]
  {
    if s == [] then [[]]
    else if s[0] == '/' then [[]] + Split(s[1..])
    else
      var rest := Split(s[1..]);
      [[s[0]] + rest[0]] + rest[1..]
  }

  /** The pieces glued back together with `/` between them. */
  function Join(pieces: seq<string>): string
    requires |pieces| >= 1
  {
    if |pieces| == 1 then pieces[0] else pieces[0] + "/" + Join(pieces[1..])
  }

  lemma {:induction false} JoinSplit(s: string)
    ensures Join(Split(s)) == s
  {
    if s != [] {
      JoinSplit(s[1..]);
      var rest := Split(s[1..]);
      if s[0] != '/' && |rest| > 1 {
        assert (Split(s))[1..] == rest[1..];
      }
    }
  }

  lemma {:induction false} SplitPlain(a: string)
    requires '/' !in a
    ensures Split(a) == [a]
  {
    if a != [] {
      SplitPlain(a[1..]);
      assert [a[0]] + a[1..] == a;
    }
  }

  lemma {:induction false} SplitFirst(a: string, b: string)
    requires '/' !in a
    ensures Split(a + "/" + b) == [a] + Split(b)
  {
    if a == [] {
      assert a + "/" + b == "/" + b;
      assert ("/" + b)[1..] == b;
    } else {
      assert (a + "/" + b)[1..] == a[1..] + "/" + b;
      SplitFirst(a[1..], b);
      assert [a[0]] + a[1..] == a;
    }
  }

  /** Splitting undoes joining pieces that hold no `/`. */
  lemma {:induction false} SplitJoin(pieces: seq<string>)
    requires |pieces| >= 1 && forall i :: 0 <= i < |pieces| ==> '/' !in pieces[i]
    ensures Split(Join(pieces)) == pieces
    decreases |pieces|
  {
    if |pieces| == 1 {
      SplitPlain(pieces[0]);
    } else {
      SplitFirst(pieces[0], Join(pieces[1..]));
      SplitJoin(pieces[1..]);
    }
  }

  /** A token with its escapes read: `~1` is `/`, `~0` is `~`; any other `~` stays. */
  function Unescape(t: string): string {
    if t == [] then []
    else if |t| >= 2 && t[0] == '~' && t[1] == '1' then "/" + Unescape(t[2..])
    else if |t| >= 2 && t[0] == '~' && t[1] == '0' then "~" + Unescape(t[2..])
    else [t[0]] + Unescape(t[1..])
  }

  /** The escaping of section 3 of RFC 6901. */
  function Escape(s: string): string {
    if s == [] then []
    else if s[0] == '/' then "~1" + Escape(s[1..])
    else if s[0] == '~' then "~0" + Escape(s[1..])
    else [s[0]] + Escape(s[1..])
  }

  lemma {:induction false} UnescapeEscape(s: string)
    ensures Unescape(Escape(s)) == s
  {
    if s != [] {
      UnescapeEscape(s[1..]);
      var e := Escape(s);
      if s[0] == '/' || s[0] == '~' {
        assert e[2..] == Escape(s[1..]);
      } else {
        assert e[1..] == Escape(s[1..]);
      }
    }
  }

  /** A token without `~` means itself. */
  lemma {:induction false} UnescapePlain(t: string)
    requires '~' !in t
    ensures Unescape(t) == t
  {
    if t != [] {
      UnescapePlain(t[1..]);
      assert [t[0]] + t[1..] == t;
    }
  }

  function UnescapeAll(pieces: seq<string>): (r: seq<string>)
    ensures |r| == |pieces| && forall i :: 0 <= i < |r| ==> r[i] == Unescape(pieces[i])
  {
    if pieces == [] then [] else [Unescape(pieces[0])] + UnescapeAll(pieces[1..])
  }

  /** The reference tokens of a pointer: the empty pointer has none, a pointer that does not
      start with `/` is not a pointer. */
  function Tokens(p: string): (r: Option<seq<string>>)
    ensures p == [] ==> r == Some([])
    ensures p != [] ==> (r.Some? <==> p[0] == '/')
  {
    if p == [] then Some([])
    else if p[0] != '/' then None
    else Some(UnescapeAll(Split(p[1..])))
  }

  /** Tokens without `/` or `~`, written after a `/` each, read back as themselves. */
  lemma TokensOfJoin(pieces: seq<string>)
    requires |pieces| >= 1
    requires forall i :: 0 <= i < |pieces| ==> '/' !in pieces[i] && '~' !in pieces[i]
    ensures Tokens("/" + Join(pieces)) == Some(pieces)
  {
    var p := "/" + Join(pieces);
    assert p[1..] == Join(pieces);
    SplitJoin(pieces);
    UnescapeAllPlain(pieces);
  }

  lemma UnescapeAllPlain(pieces: seq<string>)
    requires forall i :: 0 <= i < |pieces| ==> '~' !in pieces[i]
    ensures UnescapeAll(pieces) == pieces
  {
    forall i | 0 <= i < |pieces|
      ensures Unescape(pieces[i]) == pieces[i]
    {
      UnescapePlain(pieces[i]);
    }
  }

  // Evaluation

  /** One reference token applied to a node: a member of an object, an element of an array,
      or nothing. */
  function Step(node: Tree, token: string): (r: Option<Tree>)
    ensures node.Obj? ==> (r.Some? <==> token in node.fields)
    ensures node.Arr? ==> (r.Some? <==> IsArrayIndex(token) && Value(token) < |node.items|)
    ensures !node.Obj? && !node.Arr? ==> r.None?
  {
    match node
    case Obj(fields) => if token in fields then Some(fields[token]) else None
    case Arr(items) =>
      var index := ArrayIndex(token);
      if index.Some? && index.value < |items| then Some(items[index.value]) else None
    case _ => None
  }

  /** The node the tokens lead to from `node`, or `None` for the missing node. */
  function Eval(node: Tree, tokens: seq<string>): Option<Tree>
  {
    if tokens == [] then Some(node)
    else
      match Step(node, tokens[0])
      case None => None
      case Some(child) => Eval(child, tokens[1..])
  }

  /** Evaluation goes token by token: the tokens `a + b` lead where `b` leads from where `a`
      leads. */
  lemma {:induction false} EvalAppend(node: Tree, a: seq<string>, b: seq<string>)
    ensures Eval(node, a + b) == if Eval(node, a).Some? then Eval(Eval(node, a).value, b) else None
  {
    if a == [] {
      assert a + b == b;
    } else {
      assert (a + b)[0] == a[0] && (a + b)[1..] == a[1..] + b;
      var child := Step(node, a[0]);
      if child.Some? {
        EvalAppend(child.value, a[1..], b);
      }
    }
  }

  /** An index token written by `Digits` selects that element of an array. */
  lemma IndexSelects(items: seq<Tree>, n: nat)
    ensures Step(Arr(items), Digits(n)) == if n < |items| then Some(items[n]) else None
  {
    DigitsAreIndex(n);
  }
}
