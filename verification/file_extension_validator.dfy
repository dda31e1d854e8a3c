/** `io.github.liana.core.configs.FileExtensionValidator`: whether a file extension is among the
    allowed ones, ignoring surrounding spaces and letter case. A set that may hold nulls is a
    set of `Option<string>`; a null set or extension is `None`. */
module FileExtensionValidator {
  import opened Wrappers
  import opened JavaString
  import StringUtils

  /** The comparison form of an extension: trimmed, then lower-cased. */
  function Normalize(s: string): string {
    ToLower(Trim(s))
  }

  /** The allowed entries in comparison form; null and blank entries are dropped. */
  function Normalized(allowed: set<Option<string>>): (r: set<string>)
    ensures forall e :: e in allowed && !StringUtils.IsBlank(e) ==> Normalize(e.value) in r
    ensures forall n :: n in r ==> exists e :: e in allowed && !StringUtils.IsBlank(e) && Normalize(e.value) == n
  {
    set e | e in allowed && !StringUtils.IsBlank(e) :: Normalize(e.value)
  }

  /** `isValid`: false for a null or empty set and a null or blank extension; otherwise whether
      the normalised extension is among the normalised entries. */
  function IsValid(allowed: Option<set<Option<string>>>, extension: Option<string>): (r: bool)
    ensures r <==>
      allowed.Some? && !StringUtils.IsBlank(extension) &&
      exists e :: e in allowed.value && !StringUtils.IsBlank(e) && Normalize(e.value) == Normalize(extension.value)
  {
    if allowed.None? || allowed.value == {} || StringUtils.IsBlank(extension) then false
    else Normalize(extension.value) in Normalized(allowed.value)
  }

  /** A null or blank extension is never valid, and nothing is valid against a null or empty
      set. */
  lemma NothingValid(allowed: Option<set<Option<string>>>, extension: Option<string>)
    requires allowed.None? || allowed.value == {} || StringUtils.IsBlank(extension)
    ensures !IsValid(allowed, extension)
  {
  }

  /** Null and blank entries make no difference. */
  lemma {:induction false} BlankEntriesIgnored(allowed: set<Option<string>>, blanks: set<Option<string>>,
                                               extension: Option<string>)
    requires forall e :: e in blanks ==> StringUtils.IsBlank(e)
    ensures IsValid(Some(allowed + blanks), extension) == IsValid(Some(allowed), extension)
  {
    if IsValid(Some(allowed + blanks), extension) {
      var e :| e in allowed + blanks && !StringUtils.IsBlank(e) && Normalize(e.value) == Normalize(extension.value);
      assert e in allowed;
    }
  }

  /** Extensions with the same comparison form are valid together. */
  lemma SameForm(allowed: Option<set<Option<string>>>, x: string, y: string)
    requires !StringUtils.IsBlank(Some(x)) && !StringUtils.IsBlank(Some(y))
    requires Normalize(x) == Normalize(y)
    ensures IsValid(allowed, Some(x)) == IsValid(allowed, Some(y))
  {
  }

  /** `defaultExtensions`, in insertion order. */
  const DefaultExtensions: seq<string> := ["properties", "yaml", "yml", "json"]

  /** No default extension is listed twice. */
  lemma DefaultsDistinct()
    ensures forall i, j :: 0 <= i < j < |DefaultExtensions| ==> DefaultExtensions[i] != DefaultExtensions[j]
  {
  }

  /** An entry accepts itself: a non-blank extension is valid against a set that holds it. */
  lemma AcceptsItself(allowed: set<Option<string>>, extension: string)
    requires Some(extension) in allowed && !StringUtils.IsBlank(Some(extension))
    ensures IsValid(Some(allowed), Some(extension))
  {
  }

  lemma TrimPadded(s: string, inner: string)
    requires s == " JSON " && inner == "JSON"
    ensures Trim(s) == inner
  {
    assert TrimStart(s) == s[1..];
    assert s[1..][..4] == inner;
    TrimUntrimmed(inner);
  }

  lemma LowerJson(s: string)
    requires s == "JSON"
    ensures ToLower(s) == "json"
  {
  }

  /** `" JSON "` is valid against a set holding `"json"`. */
  lemma PaddedUpperCase(allowed: set<Option<string>>, extension: string)
    requires Some("json") in allowed && extension == " JSON "
    ensures IsValid(Some(allowed), Some(extension))
  {
    PaddedForm(extension);
    JsonForm("json");
    var e := Some("json");
    assert e in allowed && !StringUtils.IsBlank(e) && Normalize(e.value) == Normalize(extension);
  }

  /** `" JSON "` is not blank and compares as `json`. */
  lemma PaddedForm(extension: string)
    requires extension == " JSON "
    ensures !StringUtils.IsBlank(Some(extension)) && Normalize(extension) == "json"
  {
    assert !IsWhitespace(extension[1]);
    TrimPadded(extension, "JSON");
    LowerJson("JSON");
  }

  /** `json` is not blank and compares as itself. */
  lemma JsonForm(entry: string)
    requires entry == "json"
    ensures !StringUtils.IsBlank(Some(entry)) && Normalize(entry) == "json"
  {
    assert !IsWhitespace(entry[0]) && !AllWhitespace(entry);
    TrimUntrimmed(entry);
    LowerJson("JSON");
    ToLowerIdempotent("JSON");
  }

  /** Every default extension is valid against the default set. */
  lemma DefaultsValid(extension: string)
    requires extension in DefaultExtensions
    ensures IsValid(Some(set e | e in DefaultExtensions :: Some(e)), Some(extension))
  {
    assert extension[0] != ' ';
    AcceptsItself(set e | e in DefaultExtensions :: Some(e), extension);
  }
}
