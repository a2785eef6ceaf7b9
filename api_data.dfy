/**
  The ApiData request builder: an object holding the configuration it was
  constructed with and the per-request fields its setters update.
 */
module TwcApi {
  import opened Wrappers
  import opened PhpStrings
  import opened Sanitizer
  import opened Request

  /** An argument of the two permissive setters, which look at its PHP type
      (is_string, is_bool) before using it. */
  datatype PhpValue = PhpString(s: string) | PhpBool(b: bool) | PhpInt(i: int) | PhpNull

  /** A resource part made only of one-character deny-list entries is stored
      as the empty string, so building the resource then fails with
      MissingResourcePart (once a command is set). */
  lemma CleanedAwayPartFails(part: string, command: string,
                             format: string, locale: string, units: string, apiKey: string,
                             enabledCountry: bool, country: string, params: Params)
    requires forall x :: x in part ==> x in BadChars
    requires command != []
    ensures PreparePart(part, false, false) == ""
    ensures Resource(Some(command), Some(PreparePart(part, false, false)),
                     format, locale, units, apiKey, enabledCountry, country, params)
         == Failure(MissingResourcePart)
  {
    CleanPartOnlyBad(part);
  }

  class ApiData {
    // Configuration, set by the constructor and never changed.
    const apiKey: string
    const format: string
    const units: string
    const host: string
    const locale: string

    // Per-request state, updated by the setters.
    var httpMethod: string  // `$method` in the source; `method` is a Dafny keyword
    var command: Option<string>
    var country: string
    var enabledCountry: bool
    var params: Params
    var resourcePart: Option<string>

    /** The object invariant the setters keep: the method and any command
        set are whitelisted (so a set command is never empty), and the parameters are a PHP array (distinct
        keys) holding only accepted names. */
    ghost predicate Valid()
      reads this
    {
      && httpMethod in AvailMethods
      && (command.Some? ==> command.value in AvailCommands)
      && Whitelisted(params)
      && DistinctKeys(params)
    }

    /** The configuration is stored as given; the country is enabled, there
        are no parameters, the method is GET and no command or resource part
        is set yet. */
    constructor(apiKey: string, format: string := "json", units: string := "m",
                host: string := "http://api.theweatherchannel.com", locale: string := "en_GB",
                country: string := "UK")
      ensures Valid()
      ensures this.apiKey == apiKey && this.format == format && this.units == units
      ensures this.host == host && this.locale == locale && this.country == country
      ensures enabledCountry && params == [] && httpMethod == "GET"
      ensures command == None && resourcePart == None
    {
      this.apiKey := apiKey;
      this.units := units;
      this.format := format;
      this.host := host;
      this.locale := locale;
      this.country := country;
      enabledCountry := true;
      params := [];
      httpMethod := "GET";
      command := None;
      resourcePart := None;
    }

    /** Stores a whitelisted command; any other command is rejected with
        InvalidCommand and the stored command is left as it was. */
    method SetCommand(command: string) returns (r: Outcome<Error>)
      requires Valid()
      modifies this`command
      ensures Valid()
      ensures r.Pass? <==> command in AvailCommands
      ensures r.Fail? ==> r.error == InvalidCommand && this.command == old(this.command)
      ensures r.Pass? ==> this.command == Some(command)
    {
      if command !in AvailCommands {
        return Fail(InvalidCommand);
      }
      this.command := Some(command);
      return Pass;
    }

    /** Stores the resource part, cleaned first unless `cleaned`, then
        space-escaped unless `spacesEscaped`. */
    method SetResourcePart(part: string, spacesEscaped: bool := false, cleaned: bool := false)
      requires Valid()
      modifies this`resourcePart
      ensures Valid()
      ensures resourcePart == Some(PreparePart(part, spacesEscaped, cleaned))
    {
      var p := part;
      if !cleaned {
        p := CleanPart(p);
      }
      if !spacesEscaped {
        p := EscapeSpaces(p);
      }
      resourcePart := Some(p);
    }

    /** Stores a two-character string upper-cased; anything else is ignored
        without an error. */
    method SetCountry(countryCode: PhpValue)
      requires Valid()
      modifies this`country
      ensures Valid()
      ensures country == if countryCode.PhpString? && |countryCode.s| == 2
                         then StrToUpper(countryCode.s) else old(country)
    {
      if countryCode.PhpString? && |countryCode.s| == 2 {
        country := StrToUpper(countryCode.s);
      }
    }

    /** Switches the country pair on or off for a boolean argument; anything
        else is ignored without an error. */
    method EnabledCountry(enabled: PhpValue)
      requires Valid()
      modifies this`enabledCountry
      ensures Valid()
      ensures enabledCountry == if enabled.PhpBool? then enabled.b else old(enabledCountry)
    {
      if enabled.PhpBool? {
        enabledCountry := enabled.b;
      }
    }

    /** Replaces the parameters with the given array minus every entry whose
        name is not accepted; the entries are unset from a working copy one
        by one while the original is iterated. */
    method SetParams(ps: Params)
      requires Valid()
      requires DistinctKeys(ps)
      modifies this`params
      ensures Valid()
      ensures params == FilterParams(ps)
    {
      var kept := ps;
      var i, j := 0, 0;  // ps[i] sits at kept[j] until it is unset
      while i < |ps|
        invariant 0 <= i <= |ps|
        invariant kept == FilterParams(ps[..i]) + ps[i..]
        invariant j == |FilterParams(ps[..i])|
      {
        UnsetStep(ps, i, kept);
        if ps[i].0 !in AvailParams {
          kept := kept[..j] + kept[j + 1..];
        } else {
          j := j + 1;
        }
        i := i + 1;
      }
      assert ps[..|ps|] == ps && ps[|ps|..] == [];
      assert kept == FilterParams(ps);
      FilterParamsValid(ps);
      params := kept;
    }

    /** Stores a whitelisted HTTP method; any other method is rejected with
        UnsupportedMethod and the stored method is left as it was. */
    method SetMethod(name: string) returns (r: Outcome<Error>)
      requires Valid()
      modifies this`httpMethod
      ensures Valid()
      ensures r.Pass? <==> name in AvailMethods
      ensures r.Fail? ==> r.error == UnsupportedMethod && httpMethod == old(httpMethod)
      ensures r.Pass? ==> httpMethod == name
    {
      if name !in AvailMethods {
        return Fail(UnsupportedMethod);
      }
      httpMethod := name;
      return Pass;
    }

    /** The configured response format. */
    method GetFormat() returns (f: string)
      ensures f == format
    {
      return format;
    }

    /** The resource requested upstream: fails with MissingCommand, then
        MissingResourcePart, when those are unset or empty; otherwise the
        path and query string of Resource, the parameter tail accumulated
        pair by pair in stored order. */
    method GetDataResource() returns (r: Result<string, Error>)
      requires Valid()
      ensures r == Resource(command, resourcePart, format, locale, units, apiKey, enabledCountry, country, params)
      ensures command.Some? ==> r != Failure(MissingCommand)
    {
      if command.Some? {
        AcceptedCommandNonEmpty(command.value);
      }
      if command.None? || |command.value| == 0 {
        return Failure(MissingCommand);
      }
      if resourcePart.None? || |resourcePart.value| == 0 {
        return Failure(MissingResourcePart);
      }

      var paramsStr := "";
      if |params| > 0 {
        for i := 0 to |params|
          invariant paramsStr == ParamsQuery(params[..i])
        {
          ParamsQuerySnoc(params[..i], params[i].0, params[i].1);
          assert params[..i + 1] == params[..i] + [(params[i].0, params[i].1)];
          paramsStr := paramsStr + "&" + params[i].0 + "=" + params[i].1;
        }
        assert params[..|params|] == params;
      }

      var countryStr := "";
      if enabledCountry {
        countryStr := countryStr + "&country=" + country;
      }
      assert countryStr == CountryQuery(enabledCountry, country);
      assert paramsStr == ParamsQuery(params);

      var path := "/data/" + command.value + "/" + resourcePart.value + "?doctype=";
      var fixed := format + "&locale=" + locale + "&units=" + units + "&apikey=" + apiKey;
      assert path == ResourcePath(command.value, resourcePart.value);
      assert fixed == FixedQuery(format, locale, units, apiKey);
      return Success(path + fixed + countryStr + paramsStr);
    }
  }
}
