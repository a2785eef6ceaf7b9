/**
  The PHP string builtins that the request builder relies on, as pure functions
  over strings: str_replace (one search string, and an array of them with one
  replacement), stripslashes and an ASCII strtoupper.
 */
module PhpStrings {

  /** Number of occurrences of the character `c` in `s`. */
  function Count(s: string, c: char): nat
  {
    if s == [] then 0 else (if s[0] == c then 1 else 0) + Count(s[1..], c)
  }

  /**
    str_replace($search, $replace, $subject) for one search string: the subject
    is scanned left to right and every non-overlapping occurrence of `search`
    is replaced by `replace`; the replacement is never rescanned. An empty
    search string leaves the subject as it is.
   */
  function Replace(subject: string, search: string, replace: string): string
    decreases |subject|
  {
    if search == [] || |subject| < |search| then subject
    else if subject[..|search|] == search then replace + Replace(subject[|search|..], search, replace)
    else [subject[0]] + Replace(subject[1..], search, replace)
  }

  /**
    str_replace($searches, $replace, $subject) with an array of search strings:
    the search strings are applied in array order, each one to the result of
    the previous one.
   */
  function ReplaceEach(searches: seq<string>, replace: string, subject: string): string
  {
    if searches == [] then subject
    else ReplaceEach(searches[1..], replace, Replace(subject, searches[0], replace))
  }

  /**
    stripslashes: a backslash is dropped and the character after it is kept
    verbatim, except that `\0` becomes the NUL character; a lone trailing
    backslash is dropped.
   */
  function StripSlashes(s: string): string
  {
    if s == [] then []
    else if s[0] != '\\' then [s[0]] + StripSlashes(s[1..])
    else if |s| == 1 then []
    else (if s[1] == '0' then "\0" else [s[1]]) + StripSlashes(s[2..])
  }

  /** strtoupper on one character, ASCII letters only. */
  function UpperChar(c: char): char
  {
    if 'a' <= c <= 'z' then (c as int - 32) as char else c
  }

  /** strtoupper, ASCII letters only. */
  function StrToUpper(s: string): string
  {
    if s == [] then [] else [UpperChar(s[0])] + StrToUpper(s[1..])
  }

  /** Reference definition of a one-character str_replace: every character is
      mapped on its own, `c` to `replace` and any other character to itself. */
  function ReplaceCharwise(s: string, c: char, replace: string): string
  {
    if s == [] then [] else (if s[0] == c then replace else [s[0]]) + ReplaceCharwise(s[1..], c, replace)
  }

  /** A string in which no character occurs is empty. */
  lemma NoMemberMeansEmpty(s: string)
    ensures (forall x :: x !in s) ==> s == []
  {
    if s != [] {
      assert s[0] in s;
    }
  }

  // ---------------------------------------------------------------------------
  // str_replace

  /** Every character of the result comes from the subject or from the replacement. */
  lemma {:induction false} ReplaceChars(subject: string, search: string, replace: string)
    ensures forall x :: x in Replace(subject, search, replace) ==> x in subject || x in replace
    decreases |subject|
  {
    if search == [] || |subject| < |search| {
    } else if subject[..|search|] == search {
      ReplaceChars(subject[|search|..], search, replace);
      forall x | x in subject[|search|..] ensures x in subject {
        var k :| 0 <= k < |subject[|search|..]| && subject[|search|..][k] == x;
        assert subject[|search| + k] == x;
      }
    } else {
      ReplaceChars(subject[1..], search, replace);
    }
  }

  /** Removing a search string never lengthens the subject. */
  lemma {:induction false} RemoveShrinks(subject: string, search: string)
    ensures |Replace(subject, search, "")| <= |subject|
    decreases |subject|
  {
    if search == [] || |subject| < |search| {
    } else if subject[..|search|] == search {
      RemoveShrinks(subject[|search|..], search);
    } else {
      RemoveShrinks(subject[1..], search);
    }
  }

  /** True when some character of `search` does not occur in `subject`. */
  predicate Avoids(search: string, subject: string)
  {
    exists k :: 0 <= k < |search| && search[k] !in subject
  }

  /** A search string one of whose characters is missing from the subject
      cannot occur, so the subject is returned unchanged. */
  lemma {:induction false} ReplaceAbsent(subject: string, search: string, replace: string)
    requires Avoids(search, subject)
    ensures Replace(subject, search, replace) == subject
    decreases |subject|
  {
    var k :| 0 <= k < |search| && search[k] !in subject;
    if |subject| >= |search| {
      assert subject[..|search|][k] == subject[k];
      assert forall x :: x in subject[1..] ==> x in subject;
      ReplaceAbsent(subject[1..], search, replace);
    }
  }

  /** For a one-character search string, str_replace agrees with the
      character-by-character reference definition. */
  lemma {:induction false} ReplaceOneChar(subject: string, c: char, replace: string)
    ensures Replace(subject, [c], replace) == ReplaceCharwise(subject, c, replace)
    decreases |subject|
  {
    if subject != [] {
      ReplaceOneChar(subject[1..], c, replace);
    }
  }

  /** Replacing `c` by a string without `c` leaves no `c` behind. */
  lemma {:induction false} ReplaceCharwiseRemoves(s: string, c: char, replace: string)
    requires c !in replace
    ensures c !in ReplaceCharwise(s, c, replace)
  {
    if s != [] {
      ReplaceCharwiseRemoves(s[1..], c, replace);
    }
  }

  /** Each occurrence of `c` turns into |replace| characters, every other
      character into one. */
  lemma {:induction false} ReplaceCharwiseLength(s: string, c: char, replace: string)
    ensures |ReplaceCharwise(s, c, replace)| == |s| - Count(s, c) + Count(s, c) * |replace|
  {
    if s != [] {
      ReplaceCharwiseLength(s[1..], c, replace);
      var n := Count(s[1..], c);
      if s[0] == c {
        assert (n + 1) * |replace| == n * |replace| + |replace|;
      }
    }
  }

  /** Without an occurrence of `c` the replacement is the identity. */
  lemma {:induction false} ReplaceCharwiseAbsent(s: string, c: char, replace: string)
    ensures c !in s ==> ReplaceCharwise(s, c, replace) == s
  {
    if s != [] && c !in s {
      assert forall x :: x in s[1..] ==> x in s;
      ReplaceCharwiseAbsent(s[1..], c, replace);
    }
  }

  // ---------------------------------------------------------------------------
  // str_replace with an array of search strings and "" as replacement

  /** Removing search strings only deletes characters: every character of the
      result was in the subject, and the result is no longer than the subject. */
  lemma {:induction false} RemoveEachShrinks(searches: seq<string>, subject: string)
    ensures forall x :: x in ReplaceEach(searches, "", subject) ==> x in subject
    ensures |ReplaceEach(searches, "", subject)| <= |subject|
  {
    if searches != [] {
      var next := Replace(subject, searches[0], "");
      ReplaceChars(subject, searches[0], "");
      RemoveShrinks(subject, searches[0]);
      RemoveEachShrinks(searches[1..], next);
    }
  }

  /** A one-character search string in the array is absent from the result:
      once its character is removed, later removals never bring it back. */
  lemma {:induction false} RemoveEachRemovesChar(searches: seq<string>, subject: string, i: nat)
    requires i < |searches| && |searches[i]| == 1
    ensures searches[i][0] !in ReplaceEach(searches, "", subject)
  {
    var next := Replace(subject, searches[0], "");
    if i == 0 {
      ReplaceOneChar(subject, searches[0][0], "");
      ReplaceCharwiseRemoves(subject, searches[0][0], "");
      assert [searches[0][0]] == searches[0];
      RemoveEachShrinks(searches[1..], next);
    } else {
      RemoveEachRemovesChar(searches[1..], next, i - 1);
    }
  }

  /** When every search string has a character missing from the subject, the
      subject is returned unchanged. */
  lemma {:induction false} RemoveEachAbsent(searches: seq<string>, subject: string)
    requires forall i :: 0 <= i < |searches| ==> Avoids(searches[i], subject)
    ensures ReplaceEach(searches, "", subject) == subject
  {
    if searches != [] {
      ReplaceAbsent(subject, searches[0], "");
      assert forall i :: 0 <= i < |searches[1..]| ==> searches[1..][i] == searches[i + 1];
      RemoveEachAbsent(searches[1..], subject);
    }
  }

  /** Applying the search strings of `a ++ b` is applying those of `a`, then those of `b`. */
  lemma {:induction false} ReplaceEachAppend(a: seq<string>, b: seq<string>, replace: string, subject: string)
    ensures ReplaceEach(a + b, replace, subject) == ReplaceEach(b, replace, ReplaceEach(a, replace, subject))
  {
    if a != [] {
      var next := Replace(subject, a[0], replace);
      assert (a + b)[0] == a[0] && (a + b)[1..] == a[1..] + b;
      ReplaceEachAppend(a[1..], b, replace, next);
      calc {
        ReplaceEach(a + b, replace, subject);
        ReplaceEach(a[1..] + b, replace, next);
        ReplaceEach(b, replace, ReplaceEach(a[1..], replace, next));
        ReplaceEach(b, replace, ReplaceEach(a, replace, subject));
      }
    } else {
      assert a + b == b;
    }
  }

  /** Applying the search strings is applying those before `k`, then the
      one at `k`, then those after it. */
  lemma ReplaceEachAround(searches: seq<string>, k: nat, replace: string, subject: string)
    requires k < |searches|
    ensures ReplaceEach(searches, replace, subject)
         == ReplaceEach(searches[k + 1..], replace,
                        Replace(ReplaceEach(searches[..k], replace, subject), searches[k], replace))
  {
    var before, after := searches[..k], searches[k + 1..];
    assert searches == before + [searches[k]] + after;
    ReplaceEachAppend(before, [searches[k]], replace, subject);
    ReplaceEachAppend(before + [searches[k]], after, replace, subject);
    assert [searches[k]][1..] == [];
  }

  // ---------------------------------------------------------------------------
  // stripslashes

  /** stripslashes never lengthens its input, and every character it outputs
      was in the input or is the NUL produced from `\0`. */
  lemma {:induction false} StripSlashesShrinks(s: string)
    ensures |StripSlashes(s)| <= |s|
    ensures forall x :: x in StripSlashes(s) ==> x in s || x == '\0'
  {
    if s == [] {
    } else if s[0] != '\\' {
      StripSlashesShrinks(s[1..]);
      assert forall x :: x in s[1..] ==> x in s;
    } else if |s| > 1 {
      StripSlashesShrinks(s[2..]);
      assert forall x :: x in s[2..] ==> x in s;
      assert s[1] in s;
    }
  }

  /** On a string without backslashes stripslashes is the identity. */
  lemma {:induction false} StripSlashesPlain(s: string)
    requires '\\' !in s
    ensures StripSlashes(s) == s
  {
    if s != [] {
      assert s[0] in s;
      assert forall x :: x in s[1..] ==> x in s;
      StripSlashesPlain(s[1..]);
    }
  }

  // ---------------------------------------------------------------------------
  // strtoupper

  /** strtoupper keeps the length, upper-cases each ASCII letter in place and
      leaves no lower-case ASCII letter behind. */
  lemma {:induction false} StrToUpperFacts(s: string)
    ensures |StrToUpper(s)| == |s|
    ensures forall i :: 0 <= i < |s| ==> StrToUpper(s)[i] == UpperChar(s[i])
    ensures forall i :: 0 <= i < |s| ==> !('a' <= StrToUpper(s)[i] <= 'z')
  {
    if s != [] {
      StrToUpperFacts(s[1..]);
    }
  }
}
