/**
  The two sanitisers ApiData applies to the resource part (a location ID or a
  zip code) and the pipeline setResourcePart builds from them.
 */
module Sanitizer {
  import opened PhpStrings

  /** The deny-list of cleanPart, in the order str_replace applies it.
      Matching is case-sensitive: `%3C` is not on the list. */
  const BadSymbols: seq<string> := [
    "<!--", "-->", "<", ">", "\"", "&", "$", "=", ";", "?", "/",
    "%22", "%3c", "%253c", "%3e", "%0e", "%28", "%29", "%2528",
    "%26", "%24", "%3f", "%3b", "%3d"
  ]

  /** The one-character entries of the deny-list. */
  const BadChars: string := "<>\"&$=;?/"

  /** Every deny-list entry contains one of these characters, so a string
      without them (and without a backslash) is left alone by cleanPart. */
  const TriggerChars: string := "<>\"&$=;?/%\\"

  /**
    cleanPart: strips every deny-listed fragment (str_replace with "" as the
    replacement), then applies stripslashes. The result holds none of the
    one-character deny-list entries, is no longer than the input, and holds
    only characters of the input plus, possibly, the NUL made from `\0`.
   */
  function CleanPart(part: string): (r: string)
    ensures |r| <= |part|
    ensures forall c :: c in BadChars ==> c !in r
    ensures forall x :: x in r ==> x in part || x == '\0'
  {
    var removed := ReplaceEach(BadSymbols, "", part);
    RemoveEachShrinks(BadSymbols, part);
    StripSlashesShrinks(removed);
    BadCharsRemoved(part);
    StripSlashes(removed)
  }

  /** escapeSpaces: every space becomes `%20`, nothing else changes. The
      result has no space and is two characters longer per space. */
  function EscapeSpaces(part: string): (r: string)
    ensures ' ' !in r
    ensures |r| == |part| + 2 * Count(part, ' ')
    ensures ' ' !in part ==> r == part
    ensures forall x :: x in r ==> x in part || x in "%20"
  {
    ReplaceOneChar(part, ' ', "%20");
    ReplaceCharwiseRemoves(part, ' ', "%20");
    ReplaceCharwiseLength(part, ' ', "%20");
    ReplaceCharwiseAbsent(part, ' ', "%20");
    ReplaceChars(part, " ", "%20");
    Replace(part, " ", "%20")
  }

  /**
    The value setResourcePart stores: cleaned unless the caller says it is
    already clean, then space-escaped unless the caller says it already is.
    Cleaning always comes before escaping.
   */
  function PreparePart(part: string, spacesEscaped: bool, cleaned: bool): string
  {
    var c := if cleaned then part else CleanPart(part);
    if spacesEscaped then c else EscapeSpaces(c)
  }

  /** The one-character deny-list entries are gone after the removal step. */
  lemma BadCharsRemoved(part: string)
    ensures forall c :: c in BadChars ==> c !in ReplaceEach(BadSymbols, "", part)
  {
    MarkupCharsRemoved(part);
    QueryCharsRemoved(part);
  }

  /** `<`, `>`, `"`, `&` and `$` (entries 2 to 6) are gone after the removal step. */
  lemma MarkupCharsRemoved(part: string)
    ensures var removed := ReplaceEach(BadSymbols, "", part);
      '<' !in removed && '>' !in removed && '"' !in removed && '&' !in removed && '$' !in removed
  {
    assert BadSymbols[2] == "<" && BadSymbols[3] == ">" && BadSymbols[4] == "\"";
    assert BadSymbols[5] == "&" && BadSymbols[6] == "$";
    RemoveEachRemovesChar(BadSymbols, part, 2);
    RemoveEachRemovesChar(BadSymbols, part, 3);
    RemoveEachRemovesChar(BadSymbols, part, 4);
    RemoveEachRemovesChar(BadSymbols, part, 5);
    RemoveEachRemovesChar(BadSymbols, part, 6);
  }

  /** `=`, `;`, `?` and `/` (entries 7 to 10) are gone after the removal step. */
  lemma QueryCharsRemoved(part: string)
    ensures var removed := ReplaceEach(BadSymbols, "", part);
      '=' !in removed && ';' !in removed && '?' !in removed && '/' !in removed
  {
    assert BadSymbols[7] == "=" && BadSymbols[8] == ";";
    assert BadSymbols[9] == "?" && BadSymbols[10] == "/";
    RemoveEachRemovesChar(BadSymbols, part, 7);
    RemoveEachRemovesChar(BadSymbols, part, 8);
    RemoveEachRemovesChar(BadSymbols, part, 9);
    RemoveEachRemovesChar(BadSymbols, part, 10);
  }

  /** A part in which no deny-list entry can occur and which has no backslash
      passes cleanPart unchanged. */
  lemma CleanPartUnchanged(part: string)
    requires forall i :: 0 <= i < |BadSymbols| ==> Avoids(BadSymbols[i], part)
    requires '\\' !in part
    ensures CleanPart(part) == part
  {
    RemoveEachAbsent(BadSymbols, part);
    StripSlashesPlain(part);
  }

  /** A resource part without any deny-list trigger character (a plain zip
      code or location ID, spaces included) passes cleanPart unchanged. */
  lemma CleanPartPlain(part: string)
    requires forall c :: c in TriggerChars ==> c !in part
    ensures CleanPart(part) == part
  {
    forall i | 0 <= i < |BadSymbols|
      ensures Avoids(BadSymbols[i], part)
    {
      assert |BadSymbols[i]| > 2 ==> BadSymbols[i][2] in TriggerChars || BadSymbols[i][0] in TriggerChars;
      assert BadSymbols[i][0] in TriggerChars || BadSymbols[i][2] in TriggerChars;
    }
    assert '\\' in TriggerChars;
    CleanPartUnchanged(part);
  }

  /** A part made only of one-character deny-list entries cleans down to the
      empty string (which the resource builder then rejects). */
  lemma CleanPartOnlyBad(part: string)
    requires forall x :: x in part ==> x in BadChars
    ensures CleanPart(part) == ""
  {
    var removed := ReplaceEach(BadSymbols, "", part);
    RemoveEachShrinks(BadSymbols, part);
    BadCharsRemoved(part);
    assert '\\' !in removed;
    StripSlashesPlain(removed);
    assert forall x :: x !in removed;
    NoMemberMeansEmpty(removed);
  }

  /** No entry before `%3c` on the deny-list can occur in `%%3c3c` or in `%3c`. */
  lemma EntriesBeforePercent3cAvoid()
    ensures forall i :: 0 <= i < 12 ==> Avoids(BadSymbols[i], "%%3c3c") && Avoids(BadSymbols[i], "%3c")
  {
    forall i | 0 <= i < 12 ensures Avoids(BadSymbols[i], "%%3c3c") && Avoids(BadSymbols[i], "%3c") {
      assert BadSymbols[i][0] !in "%%3c3c" || BadSymbols[i][1] !in "%%3c3c";
    }
  }

  /** No entry after `%3c` on the deny-list can occur in `%3c` or in the empty string. */
  lemma EntriesAfterPercent3cAvoid()
    ensures forall i :: 13 <= i < |BadSymbols| ==> Avoids(BadSymbols[i], "%3c") && Avoids(BadSymbols[i], "")
  {
    forall i | 13 <= i < |BadSymbols| ensures Avoids(BadSymbols[i], "%3c") && Avoids(BadSymbols[i], "") {
      assert BadSymbols[i][1] !in "%3c" || BadSymbols[i][2] !in "%3c";
    }
  }

  /** The removal step is the entries before `%3c`, then `%3c`, then the rest. */
  lemma RemovalAroundPercent3c(subject: string)
    ensures ReplaceEach(BadSymbols, "", subject)
         == ReplaceEach(BadSymbols[13..], "", Replace(ReplaceEach(BadSymbols[..12], "", subject), "%3c", ""))
  {
    assert BadSymbols[12] == "%3c";
    ReplaceEachAround(BadSymbols, 12, "", subject);
  }

  /** Removing `%3c` once from `%%3c3c` leaves `%3c`; removing it from `%3c` leaves nothing. */
  lemma ReplacePercent3c()
    ensures Replace("%%3c3c", "%3c", "") == "%3c"
    ensures Replace("%3c", "%3c", "") == ""
  {
    assert "%3c"[..3] == "%3c" && "%3c"[3..] == "";
    assert "%%3c3c"[..3][1] == '%' != "%3c"[1];
    assert "%%3c3c"[1..] == "%3c3c";
    assert "%3c3c"[..3] == "%3c" && "%3c3c"[3..] == "3c";
  }

  /** The removal step turns `%%3c3c` into `%3c`. */
  lemma RemovalOfDoubled()
    ensures ReplaceEach(BadSymbols, "", "%%3c3c") == "%3c"
  {
    EntriesBeforePercent3cAvoid();
    EntriesAfterPercent3cAvoid();
    ReplacePercent3c();
    RemoveEachAbsent(BadSymbols[..12], "%%3c3c");
    RemoveEachAbsent(BadSymbols[13..], "%3c");
    RemovalAroundPercent3c("%%3c3c");
  }

  /** The removal step turns `%3c` into the empty string. */
  lemma RemovalOfPercent3c()
    ensures ReplaceEach(BadSymbols, "", "%3c") == ""
  {
    EntriesBeforePercent3cAvoid();
    EntriesAfterPercent3cAvoid();
    ReplacePercent3c();
    RemoveEachAbsent(BadSymbols[..12], "%3c");
    RemoveEachAbsent(BadSymbols[13..], "");
    RemovalAroundPercent3c("%3c");
  }

  /** When the removal step leaves no backslash, cleanPart returns what the
      removal step left. */
  lemma CleanPartAfterRemoval(part: string, removed: string)
    requires ReplaceEach(BadSymbols, "", part) == removed
    requires '\\' !in removed
    ensures CleanPart(part) == removed
  {
    StripSlashesPlain(removed);
  }

  /** `%3c` cleans to the empty string. */
  lemma CleanPartPercent3c()
    ensures CleanPart("%3c") == ""
  {
    RemovalOfPercent3c();
    CleanPartAfterRemoval("%3c", "");
  }

  /** Removals can create new matches, so cleanPart is not idempotent:
      `%%3c3c` cleans to `%3c`, which cleans to the empty string. */
  lemma CleanPartNotIdempotent(part: string)
    requires part == "%%3c3c"
    ensures CleanPart(part) == "%3c"
    ensures CleanPart(CleanPart(part)) == ""
  {
    RemovalOfDoubled();
    CleanPartAfterRemoval(part, "%3c");
    CleanPartPercent3c();
  }

  /** Matching is case-sensitive: an upper-case encoded `<` survives. */
  lemma CleanPartCaseSensitive()
    ensures CleanPart("%3C") == "%3C"
  {
    forall i | 0 <= i < |BadSymbols| ensures Avoids(BadSymbols[i], "%3C") {
      assert BadSymbols[i][|BadSymbols[i]| - 1] !in "%3C";
    }
    CleanPartUnchanged("%3C");
  }

  /** The stored part is free of one-character deny-list entries unless the
      caller skipped cleaning, free of spaces unless the caller skipped
      escaping, and verbatim when both steps are skipped. */
  lemma PreparePartSafe(part: string, spacesEscaped: bool, cleaned: bool)
    ensures !cleaned ==> forall c :: c in BadChars ==> c !in PreparePart(part, spacesEscaped, cleaned)
    ensures !spacesEscaped ==> ' ' !in PreparePart(part, spacesEscaped, cleaned)
    ensures spacesEscaped && cleaned ==> PreparePart(part, spacesEscaped, cleaned) == part
  {
    if !cleaned && !spacesEscaped {
      var c := CleanPart(part);
      forall x | x in BadChars ensures x !in EscapeSpaces(c) {
        assert x !in "%20";
      }
    }
  }

  /** escapeSpaces is idempotent: its output has no space left to escape. */
  lemma EscapeSpacesIdempotent(part: string)
    ensures EscapeSpaces(EscapeSpaces(part)) == EscapeSpaces(part)
  {
  }
}
