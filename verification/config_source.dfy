/** `io.github.liana.core.configs.ConfigSource` and its `Builder`: the builder collects a base
    file name, an optional file-name pattern with its variables, a provider and credentials,
    and `build` turns them into one or two locators. A field left null is `None`. Apache
    `StringSubstitutor.replace` is not part of this model; it is the `substitute` parameter. */
module ConfigSource {
  import opened Wrappers
  import StringUtils
  import JavaString

  const DefaultProvider := "classpath"

  type Variables = map<string, string>

  /** `ConfigSourceLocator`: a file name, the provider to read it with, and its credentials. */
  datatype Locator = Locator(filename: Option<string>, provider: Option<string>, credentials: Option<Variables>)

  /** `ConfigSource`: the locators, in the order they are tried. */
  datatype Source = Source(locators: seq<Locator>)

  /** Whether `build` adds the second locator: a non-blank pattern and at least one variable. */
  predicate HasPattern(pattern: Option<string>, variables: Option<Variables>) {
    !StringUtils.IsBlank(pattern) && variables.Some? && variables.value != map[]
  }

  /** The locators `build` creates from its fields, with the provider already defaulted. */
  function Locators(baseFilename: Option<string>, pattern: Option<string>, variables: Option<Variables>,
                    provider: string, credentials: Option<Variables>,
                    substitute: (string, Variables) -> string): (r: seq<Locator>)
    ensures |r| == (if HasPattern(pattern, variables) then 2 else 1)
    ensures r[0] == Locator(baseFilename, Some(provider), credentials)
    ensures HasPattern(pattern, variables) ==>
      r[1].filename == Some(substitute(pattern.value, variables.value))
    ensures forall i :: 0 <= i < |r| ==> r[i].provider == Some(provider) && r[i].credentials == credentials
  {
    var first := Locator(baseFilename, Some(provider), credentials);
    if HasPattern(pattern, variables) then
      [first, Locator(Some(substitute(pattern.value, variables.value)), Some(provider), credentials)]
    else [first]
  }

  class Builder {
    var baseFilename: Option<string>
    var filenamePattern: Option<string>
    var variables: Option<Variables>
    var provider: Option<string>
    var credentials: Option<Variables>

    /** `ConfigSource.builder()`: every field unset. */
    constructor()
      ensures baseFilename.None? && filenamePattern.None? && variables.None?
      ensures provider.None? && credentials.None?
    {
      baseFilename := None;
      filenamePattern := None;
      variables := None;
      provider := None;
      credentials := None;
    }

    method BaseFilename(value: Option<string>) returns (self: Builder)
      modifies this
      ensures self == this && baseFilename == value
      ensures filenamePattern == old(filenamePattern) && variables == old(variables)
      ensures provider == old(provider) && credentials == old(credentials)
    {
      baseFilename := value;
      self := this;
    }

    method FilenamePattern(value: Option<string>) returns (self: Builder)
      modifies this
      ensures self == this && filenamePattern == value
      ensures baseFilename == old(baseFilename) && variables == old(variables)
      ensures provider == old(provider) && credentials == old(credentials)
    {
      filenamePattern := value;
      self := this;
    }

    method SetVariables(value: Option<Variables>) returns (self: Builder)
      modifies this
      ensures self == this && variables == value
      ensures baseFilename == old(baseFilename) && filenamePattern == old(filenamePattern)
      ensures provider == old(provider) && credentials == old(credentials)
    {
      variables := value;
      self := this;
    }

    method Provider(value: Option<string>) returns (self: Builder)
      modifies this
      ensures self == this && provider == value
      ensures baseFilename == old(baseFilename) && filenamePattern == old(filenamePattern)
      ensures variables == old(variables) && credentials == old(credentials)
    {
      provider := value;
      self := this;
    }

    method Credentials(value: Option<Variables>) returns (self: Builder)
      modifies this
      ensures self == this && credentials == value
      ensures baseFilename == old(baseFilename) && filenamePattern == old(filenamePattern)
      ensures variables == old(variables) && provider == old(provider)
    {
      credentials := value;
      self := this;
    }

    /** `build`: a null or blank provider is replaced, in the builder too, by `classpath`; the
        first locator is the base file name, and a second one, the pattern with the variables
        substituted, follows when there is a pattern to fill. */
    method Build(substitute: (string, Variables) -> string) returns (r: Source)
      modifies this
      ensures provider == (if StringUtils.IsBlank(old(provider)) then Some(DefaultProvider) else old(provider))
      ensures baseFilename == old(baseFilename) && filenamePattern == old(filenamePattern)
      ensures variables == old(variables) && credentials == old(credentials)
      ensures r == Source(Locators(baseFilename, filenamePattern, variables, provider.value, credentials, substitute))
    {
      if StringUtils.IsBlank(provider) {
        provider := Some(DefaultProvider);
      }
      var locators := [Locator(baseFilename, provider, credentials)];
      if !StringUtils.IsBlank(filenamePattern) && variables.Some? && variables.value != map[] {
        locators := locators + [Locator(Some(substitute(filenamePattern.value, variables.value)), provider, credentials)];
      }
      r := Source(locators);
    }
  }

  /** The provider every locator names is never blank. */
  lemma ProviderNeverBlank(baseFilename: Option<string>, pattern: Option<string>, variables: Option<Variables>,
                           provider: Option<string>, credentials: Option<Variables>,
                           substitute: (string, Variables) -> string)
    ensures var chosen := StringUtils.DefaultIfBlank(provider, Some(DefaultProvider));
      forall l :: l in Locators(baseFilename, pattern, variables, chosen.value, credentials, substitute) ==>
        !StringUtils.IsBlank(l.provider)
  {
    assert !JavaString.IsWhitespace(DefaultProvider[0]);
  }

  /** A builder given a base name, a pattern with one variable and a blank provider builds two
      classpath locators, the second named by the substituted pattern. */
  method BuildWithProfile(base: string, pattern: string, profile: string,
                          substitute: (string, Variables) -> string)
    returns (r: Source)
    requires !StringUtils.IsBlank(Some(pattern))
    ensures var variables := map["profile" := profile];
      r == Source([Locator(Some(base), Some(DefaultProvider), None),
                   Locator(Some(substitute(pattern, variables)), Some(DefaultProvider), None)])
  {
    var b := new Builder();
    var self := b.BaseFilename(Some(base));
    self := self.FilenamePattern(Some(pattern));
    self := self.SetVariables(Some(map["profile" := profile]));
    self := self.Provider(Some(" "));
    assert JavaString.IsWhitespace(' ');
    assert "profile" in self.variables.value;
    r := self.Build(substitute);
  }
}
