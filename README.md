# ApiData request builder (TWCDataBundle), modelled in Dafny

`ApiData` is the client object of the TWC weather-data bundle. It is built with an API key and an
optional format, units, host, locale and country. The caller then sets a command, a resource part
(a location ID or a zip code), query parameters and an HTTP method. From these the object builds
the resource path and query string that is sent upstream.

This project models that object and the pure string functions it relies on:

- `wrappers.dfy`: `Option`, `Result` and `Outcome`. A thrown `TWCException` becomes a `Fail`/`Failure` value.
- `php_strings.dfy` (module `PhpStrings`): the PHP builtins the source uses, as functions with
  lemmas. These are `str_replace` with one search string (`Replace`) and with an array of them
  (`ReplaceEach`), `stripslashes` (`StripSlashes`) and an ASCII `strtoupper` (`StrToUpper`).
- `sanitizer.dfy` (module `Sanitizer`): `cleanPart` (`CleanPart`), `escapeSpaces`
  (`EscapeSpaces`), and the value `setResourcePart` stores (`PreparePart`).
- `request.dfy` (module `Request`): the three whitelists and the error kinds with their messages.
  It also holds the parameter filter of `setParams` (`FilterParams`) and the query-string tail
  (`ParamsQuery`), with a reader (`ParseParams`) that reads the tail back. `Resource` is
  `getDataResourse` as a function of the object's fields.
- `api_data.dfy` (module `TwcApi`): class `ApiData`. It has the fields of the source, the
  constructor with its defaults, and every setter as a method that updates the fields in place.
  `SetParams` unsets rejected entries from a working copy in a loop. `GetDataResource`
  accumulates the parameter tail in a loop and is proved equal to `Resource`.

Where the specification of the system and its code disagree, the model follows the
source:

- `setParams` keeps the relative order of the entries it keeps. The query string repeats that order.
- The constructor stores any country as given. `setCountry` stores a two-byte string with its ASCII
  letters upper-cased and ignores anything else.
- The deny-list of `cleanPart` has no single quote in this revision of the class.
- `getData` does not retry. `$response` is a `BuzzResponse` from the start, so the loop ends after
  one attempt. `getData` is not modelled (see below).

## Model

| member | source | states |
|---|---|---|
| `TwcApi.ApiData.constructor` | ApiData/ApiData.php:44-55 | stores the configuration as given (defaults json, m, the TWC host, en_GB, UK); the country starts enabled, the parameters empty, the method GET, no command and no resource part |
| `TwcApi.ApiData.SetCommand` | ApiData/ApiData.php:61-68 | succeeds exactly for the eight whitelisted commands and stores the command; otherwise fails with InvalidCommand and the stored command is unchanged |
| `TwcApi.ApiData.SetResourcePart` | ApiData/ApiData.php:76-87 | stores `PreparePart(part, spacesEscaped, cleaned)`: cleaned unless `cleaned`, then space-escaped unless `spacesEscaped` |
| `TwcApi.ApiData.SetCountry` | ApiData/ApiData.php:93-98 | a string of length exactly 2 is stored upper-cased; any other argument leaves the country unchanged and raises nothing |
| `TwcApi.ApiData.EnabledCountry` | ApiData/ApiData.php:104-109 | a boolean argument sets the flag; any other argument leaves it unchanged and raises nothing |
| `TwcApi.ApiData.SetParams` | ApiData/ApiData.php:115-122 | replaces the parameters wholesale with `FilterParams` of the argument, keeping the object invariant (accepted names, distinct keys) |
| `TwcApi.ApiData.SetMethod` | ApiData/ApiData.php:128-135 | succeeds exactly for GET, POST, DELETE and PUT and stores the method; otherwise fails with UnsupportedMethod and the stored method is unchanged |
| `TwcApi.ApiData.GetFormat` | ApiData/ApiData.php:141-144 | returns the format the object was constructed with |
| `TwcApi.ApiData.GetDataResource` | ApiData/ApiData.php:197-226 | the result equals `Resource` of the current fields: MissingCommand first, then MissingResourcePart, otherwise the byte-exact path and query string, with the parameter tail built pair by pair in stored order; on a valid object a set command (always whitelisted, so non-empty) never yields MissingCommand |
| `TwcApi.CleanedAwayPartFails` | ApiData/ApiData.php:199-205 | a resource part made only of one-character deny-list entries is stored as "" and the builder then fails with MissingResourcePart |
| `Request.ResourceErrors` | ApiData/ApiData.php:199-205 | the builder fails exactly when the command or the resource part is unset or empty, and reports the missing command before the missing part |
| `Request.ResourceLayout` | ApiData/ApiData.php:207-225 | a built resource starts with `/data/<command>/<part>?doctype=` and ends with the parameter tail; just before the tail comes `&country=<country>` when the country is enabled and `&apikey=<key>` when it is not |
| `Request.MessagesIdentifyErrors` | ApiData/ApiData.php:199-205 | the four exception messages (these two and those of lines 64 and 131) are pairwise different, so the message identifies which check failed |
| `Request.ParamsQuerySnoc` | ApiData/ApiData.php:209-211 | appending one parameter appends exactly `&name=value` to the tail |
| `Request.ParamsQueryRoundTrip` | ApiData/ApiData.php:207-212 | the tail reads back into exactly the stored pairs, in order, when no name holds `=` and no value holds `&` |
| `Request.StoredParamsRoundTrip` | ApiData/ApiData.php:30 | for accepted names, the tail reads back into the stored pairs whenever no value holds `&` |
| `Request.ParamsQueryStart` | ApiData/ApiData.php:209-211 | a non-empty parameter tail starts with `&` |
| `Request.ParsePair` | ApiData/ApiData.php:210 | one `&name=value` pair in front of a readable tail reads back as that pair followed by the tail's pairs, when the name has no `=` and the value no `&` |
| `Request.ParamsQueryAmbiguous` | ApiData/ApiData.php:210 | values are not escaped: a value holding `&start=` gives the same tail as two separate parameters |
| `Request.AcceptedCommandNonEmpty` | ApiData/ApiData.php:63-66 | every command setCommand accepts is non-empty, so a stored command passes the check of line 199 |
| `Request.AcceptedNameHasNoEquals` | ApiData/ApiData.php:30 | no accepted parameter name holds `=` |
| `Request.FilterParamsAppend` | ApiData/ApiData.php:117-119 | filtering a concatenation filters each part, so the entries can be handled one at a time |
| `Request.FilterParamsMembers` | ApiData/ApiData.php:115-122 | an entry is kept exactly when it is in the input and its name is accepted; every dropped entry had a name outside the whitelist; values are kept |
| `Request.FilterParamsStep` | ApiData/ApiData.php:116-119 | handling one more entry appends it to the kept entries when its name is accepted and adds nothing otherwise |
| `Request.UnsetStep` | ApiData/ApiData.php:116-119 | one pass of the unset loop: the entry being visited sits right after the kept ones in the working copy; unsetting it when rejected, or passing it when accepted, keeps the working copy equal to the filtered prefix followed by the unvisited entries |
| `Request.FilterParamsValid` | ApiData/ApiData.php:115-121 | the stored parameters hold only accepted names and, for an input with distinct keys, have distinct keys |
| `Request.FilterParamsOrder` | ApiData/ApiData.php:115-122 | the kept entries are a subsequence of the input: their relative order is preserved |
| `Request.FilterParamsWhitelisted` | ApiData/ApiData.php:30 | only accepted names remain after filtering |
| `Request.FilterParamsDistinct` | ApiData/ApiData.php:115-122 | an input with distinct keys gives a result with distinct keys |
| `Sanitizer.CleanPart` | ApiData/ApiData.php:233-263 | the result holds none of `< > " & $ = ; ? /`, is no longer than the input, and has only characters of the input or a NUL made from a `\0` escape |
| `Sanitizer.BadCharsRemoved` | ApiData/ApiData.php:235-262 | after the deny-list removal none of the one-character entries is left |
| `Sanitizer.CleanPartUnchanged` | ApiData/ApiData.php:262 | a part in which no deny-list entry can occur and which has no backslash is returned unchanged |
| `Sanitizer.CleanPartPlain` | ApiData/ApiData.php:235-262 | a part without `< > " & $ = ; ? / %` and without a backslash (a plain zip code or location ID) is returned unchanged |
| `Sanitizer.CleanPartOnlyBad` | ApiData/ApiData.php:235-262 | a part made only of one-character deny-list entries cleans down to "" |
| `Sanitizer.MarkupCharsRemoved` | ApiData/ApiData.php:235-262 | no `<`, `>`, `"`, `&` or `$` is left after the deny-list removal |
| `Sanitizer.QueryCharsRemoved` | ApiData/ApiData.php:235-262 | no `=`, `;`, `?` or `/` is left after the deny-list removal |
| `Sanitizer.CleanPartAfterRemoval` | ApiData/ApiData.php:262 | when the removal step leaves no backslash, `stripslashes` changes nothing and cleanPart returns what the removal left |
| `Sanitizer.RemovalOfDoubled` | ApiData/ApiData.php:235-262 | the removal step turns `%%3c3c` into `%3c`: removing the inner `%3c` joins its neighbours into a new one |
| `Sanitizer.RemovalOfPercent3c` | ApiData/ApiData.php:235-262 | the removal step turns `%3c` into the empty string |
| `Sanitizer.CleanPartPercent3c` | ApiData/ApiData.php:233-263 | cleanPart turns `%3c` into the empty string |
| `Sanitizer.CleanPartNotIdempotent` | ApiData/ApiData.php:262 | removals can create new matches: `%%3c3c` cleans to `%3c`, which cleans to "" |
| `Sanitizer.CleanPartCaseSensitive` | ApiData/ApiData.php:248 | matching is case-sensitive: `%3C` survives cleaning |
| `Sanitizer.EscapeSpaces` | ApiData/ApiData.php:270-273 | the result has no space, is two characters longer per space, has only characters of the input or of `%20`, and is the input itself when it has no space |
| `Sanitizer.EscapeSpacesIdempotent` | ApiData/ApiData.php:270-273 | escaping twice is escaping once |
| `Sanitizer.PreparePartSafe` | ApiData/ApiData.php:76-87 | the stored part has no one-character deny-list entry unless cleaning was skipped, no space unless escaping was skipped, and is the input verbatim when both were skipped |
| `PhpStrings.ReplaceChars` | ApiData/ApiData.php:262 | every character of a `str_replace` result comes from the subject or from the replacement |
| `PhpStrings.RemoveShrinks` | ApiData/ApiData.php:262 | removing a search string never lengthens the subject |
| `PhpStrings.ReplaceAbsent` | ApiData/ApiData.php:262 | a search string with a character missing from the subject leaves the subject unchanged |
| `PhpStrings.ReplaceOneChar` | ApiData/ApiData.php:272 | `str_replace` with a one-character search string agrees with the character-by-character reference `ReplaceCharwise` |
| `PhpStrings.ReplaceCharwiseRemoves` | ApiData/ApiData.php:272 | replacing a character by a string without it leaves no occurrence of it |
| `PhpStrings.ReplaceCharwiseLength` | ApiData/ApiData.php:272 | each occurrence becomes `|replace|` characters and every other character one |
| `PhpStrings.ReplaceCharwiseAbsent` | ApiData/ApiData.php:272 | without an occurrence the replacement is the identity |
| `PhpStrings.RemoveEachShrinks` | ApiData/ApiData.php:262 | removing an array of search strings only deletes characters and never lengthens the subject |
| `PhpStrings.RemoveEachRemovesChar` | ApiData/ApiData.php:262 | a one-character search string in the array is absent from the result: later removals never bring it back |
| `PhpStrings.RemoveEachAbsent` | ApiData/ApiData.php:262 | when no search string can occur, the subject is returned unchanged |
| `PhpStrings.ReplaceEachAppend` | ApiData/ApiData.php:262 | the search strings are applied in array order, each to the previous result |
| `PhpStrings.ReplaceEachAround` | ApiData/ApiData.php:262 | applying an array of search strings is applying those before one entry, then that entry, then those after it |
| `PhpStrings.StripSlashesShrinks` | ApiData/ApiData.php:262 | `stripslashes` never lengthens its input and outputs only input characters or NUL |
| `PhpStrings.StripSlashesPlain` | ApiData/ApiData.php:262 | `stripslashes` is the identity on a string without backslashes |
| `PhpStrings.StrToUpperFacts` | ApiData/ApiData.php:96 | `strtoupper` keeps the length, upper-cases each ASCII letter in place and leaves no lower-case ASCII letter |

## Left out

- `getData` (ApiData/ApiData.php:150-191) is not modelled. It sends the HTTP request through the Buzz `FileGetContents` client, calls `sleep`, and decodes the body with `json_decode` or `simplexml_load_string`. These are network I/O, a clock and foreign calls with no visible source. Its format switch returns `false` for a format other than json and xml. The host is read only there.
- The retry loop of `getData` is not modelled. As written it always ends after one attempt.
- DependencyInjection/Configuration.php is not part of this model. It is a Symfony configuration schema checked by the framework. The constructor itself checks nothing, so its enumerations do not appear as preconditions.
- PHP's loose comparisons in `in_array` (an integer key matching a string) are not modelled. Commands, methods and parameter names are strings. Non-string arguments are modelled only for `setCountry` and `enabledCountry`, through `PhpValue`, because those two check the type.
- `TwcApi.ApiData.SetParams`: requires distinct keys of its argument, because a PHP array cannot hold the same key twice.
- `TwcApi.ApiData.SetCountry`: `strlen` counts bytes, while the model counts characters, and `strtoupper` is modelled for ASCII letters only.
- Strings are sequences of characters. PHP strings are byte strings, and the model has no encoding.
- The field `$method` is `httpMethod` in the model, because `method` is a Dafny keyword.
