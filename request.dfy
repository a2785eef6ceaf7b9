/**
  What ApiData accepts and what it sends upstream: the whitelists, the error
  kinds it throws, the filter setParams applies and the resource string
  getDataResourse builds.
 */
module Request {
  import opened Wrappers

  /** Commands of the upstream API that setCommand accepts. */
  const AvailCommands: seq<string> := ["locsearch", "loc", "trupoint_cc", "svr", "ss", "df", "dn", "avg"]

  /** Query-parameter names that setParams keeps. */
  const AvailParams: seq<string> := ["day", "days", "start", "end", "cb"]

  /** HTTP methods that setMethod accepts. */
  const AvailMethods: seq<string> := ["GET", "POST", "DELETE", "PUT"]

  /** The TWCException throws of the request builder, one kind per throw site. */
  datatype Error = InvalidCommand | UnsupportedMethod | MissingCommand | MissingResourcePart
  {
    /** The message the exception carries. */
    function Message(): string
    {
      match this
      case InvalidCommand => "This command not available in TWC API"
      case UnsupportedMethod => "This method don't support"
      case MissingCommand => "You must set the command! Use setCommand() method."
      case MissingResourcePart => "You must set location ID or zip code! Use setResourcePart() method."
    }
  }

  /** Every throw site raises the same exception class, so the message alone
      tells a caller which check failed: no two error kinds share one. */
  lemma MessagesIdentifyErrors(e1: Error, e2: Error)
    ensures e1.Message() == e2.Message() <==> e1 == e2
  {
    MessageLength(e1);
    MessageLength(e2);
  }

  /** The messages have four different lengths. */
  lemma MessageLength(e: Error)
    ensures |e.Message()| == match e
      case InvalidCommand => 37
      case UnsupportedMethod => 25
      case MissingCommand => 50
      case MissingResourcePart => 67
  {
    match e
    case InvalidCommand =>
    case UnsupportedMethod =>
    case MissingCommand =>
    case MissingResourcePart =>
  }

  /** A PHP array of query parameters: name/value pairs in insertion order. */
  type Params = seq<(string, string)>

  /** The name of the `i`-th parameter. */
  function KeyAt(ps: Params, i: nat): string
    requires i < |ps|
  {
    ps[i].0
  }

  /** PHP array keys are unique. */
  predicate DistinctKeys(ps: Params)
  {
    forall i, j :: 0 <= i < j < |ps| ==> KeyAt(ps, i) != KeyAt(ps, j)
  }

  /** Every key is one of the accepted query-parameter names. */
  predicate Whitelisted(ps: Params)
  {
    forall i :: 0 <= i < |ps| ==> ps[i].0 in AvailParams
  }

  /** `a` is `b` with some entries left out, in the same order: either the
      head of `b` is kept as the head of `a`, or it is left out. */
  predicate IsSubsequence<T(==)>(a: seq<T>, b: seq<T>)
    decreases |b|
  {
    if b == [] then a == []
    else (a != [] && a[0] == b[0] && IsSubsequence(a[1..], b[1..])) || IsSubsequence(a, b[1..])
  }

  /** The entries setParams keeps: those with an accepted name, in order. */
  function FilterParams(ps: Params): Params
  {
    if ps == [] then []
    else (if ps[0].0 in AvailParams then [ps[0]] else []) + FilterParams(ps[1..])
  }

  /** One `&name=value` pair of the query string; the value is not escaped. */
  function QueryPair(name: string, value: string): string
  {
    "&" + name + "=" + value
  }

  /** The query-string tail built from the parameters, in stored order. */
  function ParamsQuery(ps: Params): string
  {
    if ps == [] then "" else QueryPair(ps[0].0, ps[0].1) + ParamsQuery(ps[1..])
  }

  /** The `&country=` pair, present only when the country is enabled. */
  function CountryQuery(enabledCountry: bool, country: string): string
  {
    if enabledCountry then "&country=" + country else ""
  }

  /** True when the value is missing or is the empty string (PHP's `!isset($v{0})`). */
  predicate Unset(v: Option<string>)
  {
    v.None? || v.value == []
  }

  /**
    getDataResourse as a function of the object's fields: the command is
    checked first, then the resource part; otherwise the path, the fixed
    query fields, the optional country and the parameters, concatenated.
   */
  function Resource(command: Option<string>, resourcePart: Option<string>,
                    format: string, locale: string, units: string, apiKey: string,
                    enabledCountry: bool, country: string, params: Params): Result<string, Error>
  {
    if Unset(command) then Failure(MissingCommand)
    else if Unset(resourcePart) then Failure(MissingResourcePart)
    else Success(ResourcePath(command.value, resourcePart.value) +
                 FixedQuery(format, locale, units, apiKey) +
                 CountryQuery(enabledCountry, country) +
                 ParamsQuery(params))
  }

  /** The path of a resource, up to the `doctype` field name. */
  function ResourcePath(command: string, resourcePart: string): string
  {
    "/data/" + command + "/" + resourcePart + "?doctype="
  }

  /** The fixed query fields: format, locale, units and the API key, last. */
  function FixedQuery(format: string, locale: string, units: string, apiKey: string): string
  {
    format + "&locale=" + locale + "&units=" + units + "&apikey=" + apiKey
  }

  // ---------------------------------------------------------------------------
  // Reading the parameter tail back

  /** The longest prefix of `s` without `c`. */
  function TakeUntil(s: string, c: char): (r: string)
    ensures |r| <= |s| && r == s[..|r|]
    ensures c !in r
    ensures |r| < |s| ==> s[|r|] == c
  {
    if s == [] || s[0] == c then [] else [s[0]] + TakeUntil(s[1..], c)
  }

  /** Splits a `&name=value&name=value...` tail back into its pairs: a name
      runs to the first `=`, a value to the next `&`. */
  function ParseParams(q: string): Option<Params>
    decreases |q|
  {
    if q == [] then Some([])
    else if q[0] != '&' then None
    else
      var name := TakeUntil(q[1..], '=');
      if 1 + |name| == |q| then None
      else
        var rest := q[2 + |name|..];
        var value := TakeUntil(rest, '&');
        match ParseParams(rest[|value|..])
        case None => None
        case Some(tail) => Some([(name, value)] + tail)
  }

  /** Names without `=` and values without `&`: the tail can be read back. */
  predicate Unambiguous(ps: Params)
  {
    forall i :: 0 <= i < |ps| ==> '=' !in ps[i].0 && '&' !in ps[i].1
  }

  // ---------------------------------------------------------------------------
  // Lemmas

  /** Filtering distributes over concatenation; the loop in setParams
      relies on it one entry at a time. */
  lemma {:induction false} FilterParamsAppend(a: Params, b: Params)
    ensures FilterParams(a + b) == FilterParams(a) + FilterParams(b)
  {
    if a == [] {
      assert a + b == b;
    } else {
      var head := if a[0].0 in AvailParams then [a[0]] else [];
      assert (a + b)[0] == a[0] && (a + b)[1..] == a[1..] + b;
      FilterParamsAppend(a[1..], b);
      assert FilterParams(a + b) == head + (FilterParams(a[1..]) + FilterParams(b));
      assert FilterParams(a) == head + FilterParams(a[1..]);
    }
  }

  /** Filtering one more entry of `ps` appends it when its name is accepted
      and nothing otherwise. */
  lemma FilterParamsStep(ps: Params, i: nat)
    requires i < |ps|
    ensures FilterParams(ps[..i + 1])
         == FilterParams(ps[..i]) + (if ps[i].0 in AvailParams then [ps[i]] else [])
  {
    assert ps[..i + 1] == ps[..i] + [ps[i]];
    FilterParamsAppend(ps[..i], [ps[i]]);
  }

  /** One iteration of the unset loop of setParams: with the entries before
      `i` filtered and the rest untouched, entry `i` sits right after the
      kept ones; unsetting it when its name is rejected, or stepping past it
      when it is accepted, gives the same shape for `i + 1`. */
  lemma UnsetStep(ps: Params, i: nat, kept: Params)
    requires i < |ps|
    requires kept == FilterParams(ps[..i]) + ps[i..]
    ensures var j := |FilterParams(ps[..i])|;
      && j < |kept|
      && (ps[i].0 !in AvailParams ==>
            && kept[..j] + kept[j + 1..] == FilterParams(ps[..i + 1]) + ps[i + 1..]
            && |FilterParams(ps[..i + 1])| == j)
      && (ps[i].0 in AvailParams ==>
            && kept == FilterParams(ps[..i + 1]) + ps[i + 1..]
            && |FilterParams(ps[..i + 1])| == j + 1)
  {
    var done := FilterParams(ps[..i]);
    var j := |done|;
    FilterParamsStep(ps, i);
    assert ps[i..] == [ps[i]] + ps[i + 1..];
    if ps[i].0 !in AvailParams {
      assert kept[..j] == done && kept[j + 1..] == ps[i + 1..];
    } else {
      assert kept == (done + [ps[i]]) + ps[i + 1..];
    }
  }

  /** setParams keeps exactly the entries whose name is accepted, so every
      dropped entry had a name outside the whitelist, and every kept entry
      keeps its value. */
  lemma {:induction false} FilterParamsMembers(ps: Params)
    ensures forall e :: e in FilterParams(ps) <==> e in ps && e.0 in AvailParams
  {
    if ps != [] {
      FilterParamsMembers(ps[1..]);
      assert forall e :: e in ps <==> e == ps[0] || e in ps[1..];
    }
  }

  /** The kept entries are in their original relative order. */
  lemma {:induction false} FilterParamsOrder(ps: Params)
    ensures IsSubsequence(FilterParams(ps), ps)
  {
    if ps != [] {
      FilterParamsOrder(ps[1..]);
      var rest := FilterParams(ps[1..]);
      if ps[0].0 in AvailParams {
        assert FilterParams(ps) == [ps[0]] + rest;
        assert ([ps[0]] + rest)[0] == ps[0] && ([ps[0]] + rest)[1..] == rest;
      } else {
        assert FilterParams(ps) == rest;
      }
    }
  }

  /** Only accepted names remain. */
  lemma {:induction false} FilterParamsWhitelisted(ps: Params)
    ensures Whitelisted(FilterParams(ps))
  {
    if ps != [] {
      FilterParamsWhitelisted(ps[1..]);
    }
  }

  /** The filtered parameters meet the object invariant: accepted names only
      and, for an input with distinct keys, distinct keys. */
  lemma FilterParamsValid(ps: Params)
    requires DistinctKeys(ps)
    ensures Whitelisted(FilterParams(ps)) && DistinctKeys(FilterParams(ps))
  {
    FilterParamsWhitelisted(ps);
    FilterParamsDistinct(ps);
  }

  /** Distinct keys stay distinct: the kept entries are entries of the input. */
  lemma {:induction false} FilterParamsDistinct(ps: Params)
    requires DistinctKeys(ps)
    ensures DistinctKeys(FilterParams(ps))
  {
    if ps != [] {
      var rest := FilterParams(ps[1..]);
      assert DistinctKeys(ps[1..]) by {
        forall i, j | 0 <= i < j < |ps[1..]| ensures KeyAt(ps[1..], i) != KeyAt(ps[1..], j) {
          assert KeyAt(ps[1..], i) == KeyAt(ps, i + 1) && KeyAt(ps[1..], j) == KeyAt(ps, j + 1);
        }
      }
      FilterParamsDistinct(ps[1..]);
      if ps[0].0 in AvailParams {
        var r := [ps[0]] + rest;
        assert FilterParams(ps) == r;
        FilterParamsMembers(ps[1..]);
        forall i, j | 0 <= i < j < |r| ensures KeyAt(r, i) != KeyAt(r, j) {
          assert r[j] == rest[j - 1] && rest[j - 1] in rest;
          var k :| 0 <= k < |ps[1..]| && ps[1..][k] == rest[j - 1];
          if i == 0 {
            assert KeyAt(ps, 0) != KeyAt(ps, k + 1);
          } else {
            assert KeyAt(rest, i - 1) != KeyAt(rest, j - 1);
          }
        }
      } else {
        assert FilterParams(ps) == rest;
      }
    }
  }

  /** Appending one parameter appends its pair to the tail; the accumulating
      loop of getDataResourse relies on it. */
  lemma {:induction false} ParamsQuerySnoc(ps: Params, name: string, value: string)
    ensures ParamsQuery(ps + [(name, value)]) == ParamsQuery(ps) + QueryPair(name, value)
  {
    if ps == [] {
      assert ps + [(name, value)] == [(name, value)];
    } else {
      assert (ps + [(name, value)])[0] == ps[0] && (ps + [(name, value)])[1..] == ps[1..] + [(name, value)];
      ParamsQuerySnoc(ps[1..], name, value);
    }
  }

  /** The layout of a pair followed by a tail: `&`, the name, `=`, then the
      value and the tail. */
  lemma QueryPairLayout(name: string, value: string, tail: string)
    ensures var q := QueryPair(name, value) + tail;
      && |q| == 2 + |name| + |value| + |tail|
      && q[0] == '&'
      && q[1..] == name + ("=" + (value + tail))
      && q[2 + |name|..] == value + tail
  {
    var q := QueryPair(name, value) + tail;
    assert q == "&" + (name + ("=" + (value + tail)));
  }

  /** One unfolding of ParseParams on a string that starts with `&`. */
  lemma ParseStep(q: string, name: string, value: string, tail: string)
    requires q != [] && q[0] == '&'
    requires TakeUntil(q[1..], '=') == name && 1 + |name| < |q|
    requires TakeUntil(q[2 + |name|..], '&') == value
    requires q[2 + |name|..][|value|..] == tail
    ensures ParseParams(q) == if ParseParams(tail).None? then None
                              else Some([(name, value)] + ParseParams(tail).value)
  {
  }

  /** Reading the first pair back: a name without `=` and a value without
      `&`, followed by a tail that reads back and is empty or starts a new pair. */
  lemma ParsePair(name: string, value: string, tail: string, ps: Params)
    requires '=' !in name && '&' !in value
    requires tail == [] || tail[0] == '&'
    requires ParseParams(tail) == Some(ps)
    ensures ParseParams(QueryPair(name, value) + tail) == Some([(name, value)] + ps)
  {
    var q := QueryPair(name, value) + tail;
    QueryPairLayout(name, value, tail);
    TakeUntilPrefix(name, "=" + (value + tail), '=');
    TakeUntilPrefix(value, tail, '&');
    assert (value + tail)[|value|..] == tail;
    ParseStep(q, name, value, tail);
  }

  /** TakeUntil stops right where `c` first occurs. */
  lemma {:induction false} TakeUntilPrefix(a: string, b: string, c: char)
    requires c !in a
    requires b == [] || b[0] == c
    ensures TakeUntil(a + b, c) == a
  {
    if a == [] {
      assert a + b == b;
    } else {
      assert (a + b)[0] == a[0] && (a + b)[1..] == a[1..] + b;
      assert c !in a[1..];
      TakeUntilPrefix(a[1..], b, c);
    }
  }

  /** The parameter tail can be read back into exactly the stored pairs when
      no name holds `=` and no value holds `&`. */
  lemma {:induction false} ParamsQueryRoundTrip(ps: Params)
    requires Unambiguous(ps)
    ensures ParseParams(ParamsQuery(ps)) == Some(ps)
  {
    if ps != [] {
      assert Unambiguous(ps[1..]) by {
        forall i | 0 <= i < |ps[1..]| ensures '=' !in ps[1..][i].0 && '&' !in ps[1..][i].1 {
          assert ps[1..][i] == ps[i + 1];
        }
      }
      ParamsQueryRoundTrip(ps[1..]);
      ParamsQueryStart(ps[1..]);
      ParsePair(ps[0].0, ps[0].1, ParamsQuery(ps[1..]), ps[1..]);
      assert [(ps[0].0, ps[0].1)] + ps[1..] == ps;
    }
  }

  /** A non-empty parameter tail starts a new pair with `&`. */
  lemma ParamsQueryStart(ps: Params)
    ensures ParamsQuery(ps) == [] || ParamsQuery(ps)[0] == '&'
  {
    if ps != [] {
      QueryPairLayout(ps[0].0, ps[0].1, ParamsQuery(ps[1..]));
    }
  }

  /** No accepted command is empty. */
  lemma AcceptedCommandNonEmpty(command: string)
    requires command in AvailCommands
    ensures command != []
  {
  }

  /** No accepted parameter name holds `=`. */
  lemma AcceptedNameHasNoEquals(name: string)
    requires name in AvailParams
    ensures '=' !in name
  {
  }

  /** Accepted parameter names hold no `=`, so the tail of stored parameters
      reads back when no value holds `&`. */
  lemma StoredParamsRoundTrip(ps: Params)
    requires Whitelisted(ps)
    requires forall i :: 0 <= i < |ps| ==> '&' !in ps[i].1
    ensures ParseParams(ParamsQuery(ps)) == Some(ps)
  {
    forall i | 0 <= i < |ps| ensures '=' !in ps[i].0 {
      AcceptedNameHasNoEquals(ps[i].0);
    }
    assert Unambiguous(ps);
    ParamsQueryRoundTrip(ps);
  }

  /** Values are not escaped: a value holding `&name=` produces the same tail
      as two separate parameters. */
  lemma ParamsQueryAmbiguous()
    ensures ParamsQuery([("day", "1&start=2")]) == ParamsQuery([("day", "1"), ("start", "2")])
  {
  }

  /** The resource builder fails exactly when the command or the resource
      part is unset or empty, and reports the command first. */
  lemma ResourceErrors(command: Option<string>, resourcePart: Option<string>,
                       format: string, locale: string, units: string, apiKey: string,
                       enabledCountry: bool, country: string, params: Params)
    ensures var r := Resource(command, resourcePart, format, locale, units, apiKey, enabledCountry, country, params);
      && (r.Failure? <==> Unset(command) || Unset(resourcePart))
      && (Unset(command) ==> r == Failure(MissingCommand))
      && (!Unset(command) && Unset(resourcePart) ==> r == Failure(MissingResourcePart))
  {
  }

  /** `t` is a suffix of `s`. */
  predicate EndsWith(s: string, t: string)
  {
    |t| <= |s| && s[|s| - |t|..] == t
  }

  /** A successful resource starts with the command path and ends with the
      parameter tail; right before the tail comes the country pair when the
      country is enabled, and the API key pair when it is not. */
  lemma ResourceLayout(command: string, resourcePart: string,
                       format: string, locale: string, units: string, apiKey: string,
                       enabledCountry: bool, country: string, params: Params)
    requires command != [] && resourcePart != []
    ensures var r := Resource(Some(command), Some(resourcePart), format, locale, units, apiKey, enabledCountry, country, params);
      var path := "/data/" + command + "/" + resourcePart + "?doctype=";
      var tail := ParamsQuery(params);
      && r.Success?
      && |r.value| >= |path| + |tail|
      && r.value[..|path|] == path
      && EndsWith(r.value, tail)
      && (enabledCountry ==> EndsWith(r.value[..|r.value| - |tail|], "&country=" + country))
      && (!enabledCountry ==> EndsWith(r.value[..|r.value| - |tail|], "&apikey=" + apiKey))
  {
    var path := ResourcePath(command, resourcePart);
    var fixed := FixedQuery(format, locale, units, apiKey);
    var country' := CountryQuery(enabledCountry, country);
    var tail := ParamsQuery(params);
    FourPartLayout(path, fixed, country', tail);
    if enabledCountry {
      ConcatSplit(path + fixed, "&country=" + country);
    } else {
      FixedQueryEndsWithKey(format, locale, units, apiKey);
      assert path + fixed + country' == path + fixed;
      EndsWithAppend(fixed, "&apikey=" + apiKey, path);
    }
  }

  /** Where the first and the last of four concatenated parts sit. */
  lemma FourPartLayout(a: string, b: string, c: string, d: string)
    ensures var r := a + b + c + d;
      && |r| == |a| + |b| + |c| + |d|
      && r[..|a|] == a
      && r[|r| - |d|..] == d
      && r[..|r| - |d|] == a + b + c
  {
    var r := a + b + c + d;
    ConcatSplit(a + b + c, d);
    assert r == a + (b + c + d);
    ConcatSplit(a, b + c + d);
  }

  /** The fixed fields end with the API key pair. */
  lemma FixedQueryEndsWithKey(format: string, locale: string, units: string, apiKey: string)
    ensures EndsWith(FixedQuery(format, locale, units, apiKey), "&apikey=" + apiKey)
  {
    var front := format + "&locale=" + locale + "&units=" + units;
    assert FixedQuery(format, locale, units, apiKey) == front + ("&apikey=" + apiKey);
    ConcatSplit(front, "&apikey=" + apiKey);
  }

  /** A suffix stays a suffix when something is put in front. */
  lemma EndsWithAppend(s: string, t: string, front: string)
    requires EndsWith(s, t)
    ensures EndsWith(front + s, t)
  {
    assert (front + s)[|front + s| - |t|..] == s[|s| - |t|..];
  }

  /** The two halves of a concatenation. */
  lemma ConcatSplit(a: string, b: string)
    ensures (a + b)[..|a|] == a && (a + b)[|a|..] == b
  {
  }
}
