/** `io.github.liana.config.core.DefaultPlaceholderBuilder`: four mutable fields, one setter
    each, and `build`, which hands the current fields to the placeholder constructor. A field
    the caller sets to null is `None`. The four-argument constructor `build` calls adds the
    environment variables as the only source; the environment is a parameter here. */
module PlaceholderBuilder {
  import opened Wrappers
  import opened Exceptions
  import StringUtils
  import opened PropertySources
  import opened DefaultPlaceholder

  const DefaultPrefix := "${"
  const DefaultSuffix := "}"
  const DefaultDelimiter := ":"
  const DefaultEscapeChar := '\\'

  class Builder {
    var prefix: Option<string>
    var suffix: Option<string>
    var delimiter: Option<string>
    var escapeChar: char

    /** A fresh builder holds the default syntax `${key:fallback}` with `\` as escape. */
    constructor()
      ensures prefix == Some(DefaultPrefix) && suffix == Some(DefaultSuffix)
      ensures delimiter == Some(DefaultDelimiter) && escapeChar == DefaultEscapeChar
    {
      prefix := Some(DefaultPrefix);
      suffix := Some(DefaultSuffix);
      delimiter := Some(DefaultDelimiter);
      escapeChar := DefaultEscapeChar;
    }

    /** Overwrites the prefix only and returns the same builder. */
    method Prefix(value: Option<string>) returns (self: Builder)
      modifies this
      ensures self == this && prefix == value
      ensures suffix == old(suffix) && delimiter == old(delimiter) && escapeChar == old(escapeChar)
    {
      prefix := value;
      self := this;
    }

    /** Overwrites the suffix only and returns the same builder. */
    method Suffix(value: Option<string>) returns (self: Builder)
      modifies this
      ensures self == this && suffix == value
      ensures prefix == old(prefix) && delimiter == old(delimiter) && escapeChar == old(escapeChar)
    {
      suffix := value;
      self := this;
    }

    /** Overwrites the delimiter only and returns the same builder. */
    method Delimiter(value: Option<string>) returns (self: Builder)
      modifies this
      ensures self == this && delimiter == value
      ensures prefix == old(prefix) && suffix == old(suffix) && escapeChar == old(escapeChar)
    {
      delimiter := value;
      self := this;
    }

    /** Overwrites the escape character only and returns the same builder. */
    method EscapeChar(value: char) returns (self: Builder)
      modifies this
      ensures self == this && escapeChar == value
      ensures prefix == old(prefix) && suffix == old(suffix) && delimiter == old(delimiter)
    {
      escapeChar := value;
      self := this;
    }

    /** A new engine over the current fields, whose only source is the environment; blank
        fields are rejected here, at build time, in the order prefix, suffix, delimiter. */
    method Build(env: Source) returns (r: Result<Placeholder, Exception>)
      ensures r.Success? <==>
        !StringUtils.IsBlank(prefix) && !StringUtils.IsBlank(suffix) && !StringUtils.IsBlank(delimiter)
      ensures StringUtils.IsBlank(prefix) ==> r == Failure(IllegalArgument(PrefixMessage))
      ensures !StringUtils.IsBlank(prefix) && StringUtils.IsBlank(suffix) ==>
        r == Failure(IllegalArgument(SuffixMessage))
      ensures !StringUtils.IsBlank(prefix) && !StringUtils.IsBlank(suffix) && StringUtils.IsBlank(delimiter) ==>
        r == Failure(IllegalArgument(DelimiterMessage))
      ensures r.Success? ==>
        r.value == Placeholder(Core, Grammar(prefix.value, suffix.value, delimiter.value, escapeChar), [env])
    {
      r := New(Core, prefix, suffix, delimiter, escapeChar, Some([Some(env)]));
    }
  }

  /** A fresh builder builds an engine with the default syntax. */
  method BuildDefaults(env: Source) returns (r: Result<Placeholder, Exception>)
    ensures r == Success(Placeholder(Core, Grammar("${", "}", ":", '\\'), [env]))
  {
    var b := new Builder();
    assert !JavaString.IsWhitespace('$') && !JavaString.IsWhitespace('}') && !JavaString.IsWhitespace(':');
    r := b.Build(env);
  }

  /** A later call of a setter overwrites the earlier one, and the other fields keep the
      values set before. */
  method SetTwice(b: Builder, first: Option<string>, second: Option<string>, escape: char)
    returns (self: Builder)
    modifies b
    ensures self == b && b.prefix == second && b.escapeChar == escape
    ensures b.suffix == old(b.suffix) && b.delimiter == old(b.delimiter)
  {
    self := b.Prefix(first);
    self := self.EscapeChar(escape);
    self := self.Prefix(second);
  }
}
