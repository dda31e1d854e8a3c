/** `io.github.liana.config.ConfigFileFormat`: the supported file formats, each with its own
    ordered set of extensions, and the ordered set of all extensions, built once when the enum
    is initialised and checked there for duplicates. An insertion-ordered set is a sequence
    without repetitions. */
module ConfigFileFormat {
  import opened Wrappers
  import opened Exceptions
  import opened JavaString

  const DuplicateMessage := "duplicate extension: "

  predicate Distinct(s: seq<string>) {
    forall i, j :: 0 <= i < j < |s| ==> s[i] != s[j]
  }

  // Ordered sets

  /** Adds `values` in order to the ordered set `seen`, skipping those already there. */
  function Insert(seen: seq<string>, values: seq<string>): (r: seq<string>)
    requires Distinct(seen)
    ensures Distinct(r) && |seen| <= |r| && r[..|seen|] == seen
    ensures forall x :: x in r <==> x in seen || x in values
    decreases |values|
  {
    if values == [] then seen
    else if values[0] in seen then Insert(seen, values[1..])
    else
      assert Distinct(seen + [values[0]]) by {
        assert forall i :: 0 <= i < |seen| ==> (seen + [values[0]])[i] == seen[i];
      }
      Insert(seen + [values[0]], values[1..])
  }

  /** `of`: the values as a read-only ordered set; a repeated value keeps its first place. */
  function Of(values: seq<string>): (r: seq<string>)
    ensures Distinct(r) && forall x :: x in r <==> x in values
  {
    Insert([], values)
  }

  lemma {:induction false} InsertDistinct(seen: seq<string>, values: seq<string>)
    requires Distinct(seen) && Distinct(seen + values)
    ensures Insert(seen, values) == seen + values
    decreases |values|
  {
    if values != [] {
      assert seen + values == (seen + [values[0]]) + values[1..];
      assert values[0] == (seen + values)[|seen|];
      assert values[0] !in seen by {
        forall i | 0 <= i < |seen|
          ensures seen[i] != values[0]
        {
          assert seen[i] == (seen + values)[i];
        }
      }
      assert Distinct(seen + [values[0]]) by {
        assert forall i :: 0 <= i <= |seen| ==> (seen + [values[0]])[i] == (seen + values)[i];
      }
      InsertDistinct(seen + [values[0]], values[1..]);
    }
  }

  /** Values without repetitions come out as they went in, in the same order. */
  lemma OfDistinct(values: seq<string>)
    requires Distinct(values)
    ensures Of(values) == values
  {
    assert [] + values == values;
    InsertDistinct([], values);
  }

  // The formats

  datatype Format = Properties | Yaml | Json | Xml

  /** `values()`, in declaration order. */
  const Formats: seq<Format> := [Properties, Yaml, Json, Xml]

  /** `getExtensions`. */
  function Extensions(f: Format): (r: seq<string>)
    ensures Distinct(r) && |r| >= 1
  {
    match f
    case Properties => Of(["properties"])
    case Yaml => Of(["yaml", "yml"])
    case Json => Of(["json"])
    case Xml => Of(["xml"])
  }

  /** PROPERTIES{properties}, YAML{yaml, yml}, JSON{json}, XML{xml}. */
  lemma ExtensionsTable()
    ensures Extensions(Properties) == ["properties"] && Extensions(Yaml) == ["yaml", "yml"]
    ensures Extensions(Json) == ["json"] && Extensions(Xml) == ["xml"]
  {
    OfDistinct(["properties"]);
    OfDistinct(["yaml", "yml"]);
    OfDistinct(["json"]);
    OfDistinct(["xml"]);
  }

  // All extensions

  function Flatten(groups: seq<seq<string>>): seq<string> {
    if groups == [] then [] else groups[0] + Flatten(groups[1..])
  }

  function LowerAll(values: seq<string>): (r: seq<string>)
    ensures |r| == |values| && forall i :: 0 <= i < |r| ==> r[i] == ToLower(values[i])
  {
    seq(|values|, i requires 0 <= i < |values| => ToLower(values[i]))
  }

  /** The static initialiser from the point where `seen` holds the extensions added so far:
      each next extension is lower-cased and added, and one already there is an
      IllegalStateException naming it as written. */
  function Add(seen: seq<string>, extensions: seq<string>): (r: Result<seq<string>, Exception>)
    decreases |extensions|
  {
    if extensions == [] then Success(seen)
    else
      var lower := ToLower(extensions[0]);
      if lower in seen then Failure(IllegalState(DuplicateMessage + extensions[0]))
      else Add(seen + [lower], extensions[1..])
  }

  /** The initialiser succeeds exactly when the lower-cased extensions are all different, and
      then yields them in order. */
  lemma {:induction false} AddMeaning(seen: seq<string>, extensions: seq<string>)
    requires Distinct(seen)
    ensures Add(seen, extensions).Success? <==> Distinct(seen + LowerAll(extensions))
    ensures Add(seen, extensions).Success? ==> Add(seen, extensions).value == seen + LowerAll(extensions)
    decreases |extensions|
  {
    if extensions != [] {
      var lower := ToLower(extensions[0]);
      var all := seen + LowerAll(extensions);
      assert all == (seen + [lower]) + LowerAll(extensions[1..]);
      if lower in seen {
        var k :| 0 <= k < |seen| && seen[k] == lower;
        assert all[k] == all[|seen|];
      } else {
        assert Distinct(seen + [lower]) by {
          assert forall i :: 0 <= i < |seen| ==> (seen + [lower])[i] == seen[i];
        }
        AddMeaning(seen + [lower], extensions[1..]);
      }
    } else {
      assert seen + LowerAll(extensions) == seen;
    }
  }

  /** A failure of the initialiser is always the duplicate-extension error for one of the
      extensions as written, one whose lower case was already added before it. */
  lemma {:induction false} AddFailure(seen: seq<string>, extensions: seq<string>)
    requires Add(seen, extensions).Failure?
    ensures exists i :: (0 <= i < |extensions| &&
      ToLower(extensions[i]) in seen + LowerAll(extensions[..i]) &&
      Add(seen, extensions).error == IllegalState(DuplicateMessage + extensions[i]))
    decreases |extensions|
  {
    var lower := ToLower(extensions[0]);
    if lower in seen {
      assert extensions[..0] == [] && LowerAll(extensions[..0]) == [];
      assert seen + LowerAll(extensions[..0]) == seen;
    } else {
      var rest := extensions[1..];
      AddFailure(seen + [lower], rest);
      var i :| 0 <= i < |rest| &&
        ToLower(rest[i]) in (seen + [lower]) + LowerAll(rest[..i]) &&
        Add(seen + [lower], rest).error == IllegalState(DuplicateMessage + rest[i]);
      assert rest[i] == extensions[i + 1];
      assert extensions[..i + 1] == [extensions[0]] + rest[..i];
      assert LowerAll(extensions[..i + 1]) == [lower] + LowerAll(rest[..i]);
      assert (seen + [lower]) + LowerAll(rest[..i]) == seen + LowerAll(extensions[..i + 1]);
    }
  }

  /** The extension groups of all formats, in declaration order. */
  function Groups(): seq<seq<string>> {
    seq(|Formats|, i requires 0 <= i < |Formats| => Extensions(Formats[i]))
  }

  /** The static initialiser: every format's extensions, one by one, into one ordered set. */
  method CollectExtensions(groups: seq<seq<string>>) returns (r: Result<seq<string>, Exception>)
    ensures r == Add([], Flatten(groups))
  {
    var all: seq<string> := [];
    var i := 0;
    while i < |groups|
      invariant 0 <= i <= |groups|
      invariant Add([], Flatten(groups)) == Add(all, Flatten(groups[i..]))
    {
      assert Flatten(groups[i..]) == groups[i] + Flatten(groups[i + 1..]) by {
        assert groups[i..][1..] == groups[i + 1..];
      }
      var extensions := groups[i];
      var j := 0;
      while j < |extensions|
        invariant 0 <= j <= |extensions|
        invariant Add([], Flatten(groups)) == Add(all, extensions[j..] + Flatten(groups[i + 1..]))
      {
        var rest := extensions[j..] + Flatten(groups[i + 1..]);
        assert rest[0] == extensions[j] && rest[1..] == extensions[j + 1..] + Flatten(groups[i + 1..]);
        var lower := ToLower(extensions[j]);
        if lower in all {
          return Failure(IllegalState(DuplicateMessage + extensions[j]));
        }
        all := all + [lower];
        j := j + 1;
      }
      assert extensions[j..] + Flatten(groups[i + 1..]) == Flatten(groups[i + 1..]);
      i := i + 1;
    }
    assert groups[i..] == [];
    r := Success(all);
  }

  /** Helper for `InitSucceeds`: flattening four groups is concatenating them. */
  lemma FlattenFour(a: seq<string>, b: seq<string>, c: seq<string>, d: seq<string>)
    ensures Flatten([a, b, c, d]) == a + b + c + d
  {
    assert [a, b, c, d][1..] == [b, c, d];
    assert [b, c, d][1..] == [c, d];
    assert [c, d][1..] == [d];
    assert [d][1..] == [];
    assert Flatten([d]) == d + [] == d;
    assert Flatten([c, d]) == c + d;
    assert Flatten([b, c, d]) == b + (c + d);
    assert b + (c + d) == b + c + d;
  }

  /** Helper for `InitSucceeds`: the extension groups of the real table, written out. */
  lemma GroupsTable(groups: seq<seq<string>>)
    requires groups == Groups()
    ensures groups == [["properties"], ["yaml", "yml"], ["json"], ["xml"]]
  {
    ExtensionsTable();
  }

  /** A word of lower-case ASCII letters is its own lower case. */
  lemma LowerWord(s: string)
    requires forall i :: 0 <= i < |s| ==> 'a' <= s[i] <= 'z'
    ensures ToLower(s) == s
  {
  }

  /** Lower-case extensions that repeat nothing go through the initialiser unchanged. */
  lemma {:induction false} AddLowerDistinct(seen: seq<string>, rest: seq<string>)
    requires Distinct(seen + rest) && forall i :: 0 <= i < |rest| ==> ToLower(rest[i]) == rest[i]
    ensures Add(seen, rest) == Success(seen + rest)
    decreases |rest|
  {
    if rest == [] {
      assert seen + rest == seen;
    } else {
      var all := seen + rest;
      assert ToLower(rest[0]) == rest[0] == all[|seen|];
      assert rest[0] !in seen by {
        forall i | 0 <= i < |seen|
          ensures seen[i] != rest[0]
        {
          assert seen[i] == all[i];
        }
      }
      assert all == (seen + [rest[0]]) + rest[1..];
      AddLowerDistinct(seen + [rest[0]], rest[1..]);
    }
  }

  /** Helper for `InitSucceeds`: the flattened table is lower case and repeats nothing. */
  lemma TableLower(all: seq<string>)
    requires all == ["properties", "yaml", "yml", "json", "xml"]
    ensures Distinct(all) && forall i :: 0 <= i < |all| ==> ToLower(all[i]) == all[i]
  {
    LowerWord(all[0]);
    LowerWord(all[1]);
    LowerWord(all[2]);
    LowerWord(all[3]);
    LowerWord(all[4]);
    assert all[1][1] != all[2][1];
  }

  /** The initialisation of the enum does not fail: the table has no duplicate extension. */
  lemma InitSucceeds(groups: seq<seq<string>>, all: seq<string>)
    requires groups == Groups() && all == ["properties", "yaml", "yml", "json", "xml"]
    ensures Add([], Flatten(groups)) == Success(all)
  {
    GroupsTable(groups);
    FlattenFour(["properties"], ["yaml", "yml"], ["json"], ["xml"]);
    assert Flatten(groups) == all;
    TableLower(all);
    assert [] + all == all;
    AddLowerDistinct([], all);
  }

  /** `getAllSupportedExtensions`: every format's extensions, lower-cased, in declaration order,
      with no extension twice. */
  function AllSupportedExtensions(): (r: seq<string>)
    ensures r == ["properties", "yaml", "yml", "json", "xml"] && Distinct(r)
    ensures Add([], Flatten(Groups())) == Success(r)
  {
    var all := ["properties", "yaml", "yml", "json", "xml"];
    InitSucceeds(Groups(), all);
    TableLower(all);
    Add([], Flatten(Groups())).value
  }

  /** Every extension of every format is among all supported extensions. */
  lemma EveryFormatCovered(f: Format, extension: string)
    requires extension in Extensions(f)
    ensures extension in AllSupportedExtensions()
  {
    ExtensionsTable();
  }
}
