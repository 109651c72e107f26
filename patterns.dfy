/** The regular expressions of the Texas scraper, each written out as an
    explicit predicate or extractor over strings.  Searches return the
    LEFTMOST match, as Python's `re.search` does. */
module Patterns {
  import opened Wrappers
  import opened Strings

  /** The class-name pattern of the second and third strategies (the two
      list the same three words in different orders): "result", "member" or
      "attorney" anywhere in the class name, case ignored. */
  predicate ResultClassLike(c: string) {
    ContainsCI(c, "result") || ContainsCI(c, "member") || ContainsCI(c, "attorney")
  }

  /** The firm-label pattern: "firm", "company" or "employer" anywhere,
      case ignored. */
  predicate FirmLabel(t: string) {
    ContainsCI(t, "firm") || ContainsCI(t, "company") || ContainsCI(t, "employer")
  }

  /** The pager pattern: "next" (case ignored) or a right guillemet
      anywhere. */
  predicate NextLabel(t: string) {
    ContainsCI(t, "next") || ContainsCI(t, "»")
  }

  /** The anchored eight-digit pattern: exactly eight digits, where the
      end anchor of Python's `re` also accepts one final line feed. */
  predicate WholeEightDigits(t: string) {
    (|t| == 8 && AllDigits(t)) || (|t| == 9 && AllDigits(t[..8]) && t[8] == '\n')
  }

  /** End of the longest run of digits that starts at `i`. */
  function DigitRunEnd(s: string, i: nat): (j: nat)
    requires i <= |s|
    ensures i <= j <= |s| && AllDigits(s[i..j]) && (j == |s| || !IsDigit(s[j]))
    decreases |s| - i
  {
    if i < |s| && IsDigit(s[i]) then
      var j := DigitRunEnd(s, i + 1);
      assert s[i..j] == [s[i]] + s[i + 1..j];
      j
    else i
  }

  /** `BarNumber=` followed by at least one digit starts at `i`. */
  predicate QueryAt(s: string, i: int) {
    LiteralAt(s, i, "BarNumber=") && i + 10 < |s| && IsDigit(s[i + 10])
  }

  /** `i` is the leftmost position at or after `from` where a query match starts. */
  predicate FirstQueryAt(s: string, from: int, i: int) {
    from <= i && QueryAt(s, i) && forall i' :: from <= i' < i ==> !QueryAt(s, i')
  }

  function BarNumberQueryFrom(s: string, from: nat): (r: Option<string>)
    requires from <= |s|
    ensures r.None? <==> forall i :: from <= i ==> !QueryAt(s, i)
    ensures r.Some? ==> exists i :: FirstQueryAt(s, from, i) && r.value == s[i + 10..DigitRunEnd(s, i + 10)]
    decreases |s| - from
  {
    if from == |s| then None
    else if QueryAt(s, from) then
      assert FirstQueryAt(s, from, from);
      Some(s[from + 10..DigitRunEnd(s, from + 10)])
    else
      var r := BarNumberQueryFrom(s, from + 1);
      assert r.Some? ==> exists i :: FirstQueryAt(s, from, i) && r.value == s[i + 10..DigitRunEnd(s, i + 10)] by {
        if r.Some? {
          var i :| FirstQueryAt(s, from + 1, i) && r.value == s[i + 10..DigitRunEnd(s, i + 10)];
          assert FirstQueryAt(s, from, i);
        }
      }
      r
  }

  /** The query-string pattern for a bar number: the whole digit run after
      the leftmost `BarNumber=` that has a digit after it. */
  function BarNumberQuery(href: string): (r: Option<string>)
    ensures r.Some? ==> |r.value| >= 1 && AllDigits(r.value)
    ensures r.None? <==> forall i :: !QueryAt(href, i)
    ensures r.Some? ==> exists i :: FirstQueryAt(href, 0, i) && r.value == href[i + 10..DigitRunEnd(href, i + 10)]
  {
    var r := BarNumberQueryFrom(href, 0);
    assert r.Some? ==> |r.value| >= 1 && AllDigits(r.value) by {
      if r.Some? {
        var i :| FirstQueryAt(href, 0, i) && r.value == href[i + 10..DigitRunEnd(href, i + 10)];
        assert IsDigit(href[i + 10]);
      }
    }
    r
  }

  /** `p` is matched exactly by `\s*(?:No\.?|Number|#)?\s*:?\s*`, read
      from `phase` on: 0 before the optional label, 1 after it, 2 after the
      optional colon.  The label cannot begin with white space or a colon and
      its alternatives cannot overlap, so one left-to-right pass decides. */
  function GapFrom(p: string, phase: nat): bool
    decreases |p|
  {
    if p == [] then true
    else if IsSpace(p[0]) then GapFrom(p[1..], phase)
    else if phase == 0 && MatchAt(p, 0, "number") then GapFrom(p[6..], 1)
    else if phase == 0 && MatchAt(p, 0, "no.") then GapFrom(p[3..], 1)
    else if phase == 0 && MatchAt(p, 0, "no") then GapFrom(p[2..], 1)
    else if phase == 0 && p[0] == '#' then GapFrom(p[1..], 1)
    else if phase <= 1 && p[0] == ':' then GapFrom(p[1..], 2)
    else false
  }

  predicate BarGap(p: string) {
    GapFrom(p, 0)
  }

  /** The pattern `Bar\s*(?:No\.?|Number|#)?\s*:?\s*(\d{8})` (case-insensitive)
      matches with `Bar` at `i` and the eight captured digits at `j`. */
  predicate BarLabelledAt(s: string, i: int, j: int) {
    0 <= i && i + 3 <= j && j + 8 <= |s| && MatchAt(s, i, "bar") && BarGap(s[i + 3..j]) && AllDigits(s[j..j + 8])
  }

  /** No match starts at any position in `[from, i)`. */
  ghost predicate NoBarBetween(s: string, from: int, i: int) {
    forall i', j :: from <= i' < i ==> !BarLabelledAt(s, i', j)
  }

  function GapEndFrom(s: string, i: nat, from: nat): (r: Option<nat>)
    requires i + 3 <= from
    ensures r.Some? ==> from <= r.value && BarLabelledAt(s, i, r.value)
    ensures r.None? ==> forall j :: from <= j ==> !BarLabelledAt(s, i, j)
    decreases |s| - from
  {
    if from + 8 > |s| then
      assert forall j :: from <= j ==> !BarLabelledAt(s, i, j) by {
        forall j | from <= j ensures !BarLabelledAt(s, i, j) {
          assert j + 8 > |s|;
        }
      }
      None
    else if BarLabelledAt(s, i, from) then Some(from)
    else GapEndFrom(s, i, from + 1)
  }

  function BarFrom(s: string, from: nat): (r: Option<string>)
    ensures r.None? ==> forall i, j :: from <= i ==> !BarLabelledAt(s, i, j)
    ensures r.Some? ==> exists i, j :: from <= i && NoBarBetween(s, from, i)
                                       && BarLabelledAt(s, i, j) && r.value == s[j..j + 8]
    decreases |s| - from
  {
    if from + 3 > |s| then None
    else match GapEndFrom(s, from, from + 3)
      case Some(j) =>
        assert NoBarBetween(s, from, from);
        Some(s[j..j + 8])
      case None =>
        var r := BarFrom(s, from + 1);
        assert r.Some? ==> exists i, j :: from <= i && NoBarBetween(s, from, i)
                                          && BarLabelledAt(s, i, j) && r.value == s[j..j + 8] by {
          if r.Some? {
            var i, j :| from + 1 <= i && NoBarBetween(s, from + 1, i)
                        && BarLabelledAt(s, i, j) && r.value == s[j..j + 8];
            assert NoBarBetween(s, from, i);
          }
        }
        r
  }

  /** The labelled bar-number pattern, searched case-insensitively: "Bar",
      optional whitespace, an optional "No", "No." , "Number" or "#", optional
      whitespace, an optional colon, optional whitespace, then eight digits,
      which are the result. */
  function BarLabelNumber(text: string): (r: Option<string>)
    ensures r.Some? ==> |r.value| == 8 && AllDigits(r.value)
    ensures r.None? <==> forall i, j :: !BarLabelledAt(text, i, j)
    ensures r.Some? ==> exists i, j :: NoBarBetween(text, 0, i) && BarLabelledAt(text, i, j) && r.value == text[j..j + 8]
  {
    BarFrom(text, 0)
  }

  predicate NoDigit(s: string) {
    forall k :: 0 <= k < |s| ==> !IsDigit(s[k])
  }

  lemma NoDigitJoin(s: string, m: nat)
    requires m <= |s| && NoDigit(s[..m]) && NoDigit(s[m..])
    ensures NoDigit(s)
  {
    forall k | 0 <= k < |s| ensures !IsDigit(s[k]) {
      if k < m { assert s[k] == s[..m][k]; } else { assert s[k] == s[m..][k - m]; }
    }
  }

  lemma MatchHasNoDigit(a: string, w: string)
    requires MatchAt(a, 0, w) && NoDigit(w)
    ensures NoDigit(a[..|w|])
  {
    forall k | 0 <= k < |w| ensures !IsDigit(a[..|w|][k]) {
      assert ReCharEq(a[k], w[k]);
    }
  }

  /** Nothing that the part between `Bar` and the number can match is a digit. */
  lemma {:induction false} GapHasNoDigit(p: string, phase: nat)
    requires GapFrom(p, phase)
    ensures NoDigit(p)
    decreases |p|
  {
    if p == [] {
    } else {
      var m := if IsSpace(p[0]) then 1
               else if phase == 0 && MatchAt(p, 0, "number") then 6
               else if phase == 0 && MatchAt(p, 0, "no.") then 3
               else if phase == 0 && MatchAt(p, 0, "no") then 2
               else 1;
      var next := if IsSpace(p[0]) then phase
                  else if phase == 0 && (MatchAt(p, 0, "number") || MatchAt(p, 0, "no.")
                                         || MatchAt(p, 0, "no") || p[0] == '#') then 1
                  else 2;
      assert GapFrom(p[m..], next);
      GapHasNoDigit(p[m..], next);
      if m == 6 {
        MatchHasNoDigit(p, "number");
      } else if m == 3 {
        MatchHasNoDigit(p, "no.");
      } else if m == 2 {
        MatchHasNoDigit(p, "no");
      } else {
        assert NoDigit(p[..1]);
      }
      NoDigitJoin(p, m);
    }
  }

  /** A digit string of length eight cannot start inside the gap of a match. */
  lemma NoNumberInGap(s: string, i: int, j: int, k: int)
    requires BarLabelledAt(s, i, j) && i + 3 <= k < j && k + 8 <= |s|
    ensures !AllDigits(s[k..k + 8])
  {
    GapHasNoDigit(s[i + 3..j], 0);
    assert s[k] == s[i + 3..j][k - (i + 3)];
    assert s[k] == s[k..k + 8][0];
  }

  /** Once the position of `Bar` is fixed the captured digits are determined,
      so the leftmost match has a single possible group. */
  lemma BarCaptureUnique(s: string, i: int, j1: int, j2: int)
    requires BarLabelledAt(s, i, j1) && BarLabelledAt(s, i, j2)
    ensures j1 == j2
  {
    if j1 < j2 {
      NoNumberInGap(s, i, j2, j1);
    } else if j2 < j1 {
      NoNumberInGap(s, i, j1, j2);
    }
  }

  /** The six names of `(Houston|Dallas|Austin|San Antonio|Fort Worth|El Paso)`, in order. */
  const DivCities: seq<string> := ["Houston", "Dallas", "Austin", "San Antonio", "Fort Worth", "El Paso"]

  /** Alternative `n` of the city pattern matches at `i`. */
  predicate CityAt(s: string, i: int, n: int) {
    0 <= n < |DivCities| && MatchAt(s, i, DivCities[n])
  }

  /** The first alternative at or after `n` that matches at `i`. */
  function CityAlternative(s: string, i: int, n: nat): (r: Option<nat>)
    ensures r.Some? ==> n <= r.value && CityAt(s, i, r.value) && forall n' :: n <= n' < r.value ==> !CityAt(s, i, n')
    ensures r.None? ==> forall n' :: n <= n' ==> !CityAt(s, i, n')
    decreases |DivCities| - n
  {
    if n >= |DivCities| then None
    else if CityAt(s, i, n) then Some(n)
    else CityAlternative(s, i, n + 1)
  }

  /** No alternative matches at any position in `[from, i)`. */
  ghost predicate NoCityBetween(s: string, from: int, i: int) {
    forall i', n :: from <= i' < i ==> !CityAt(s, i', n)
  }

  /** Alternative `n` is the one `re` reports at `i`: the earlier alternatives fail there. */
  predicate CityReportedAt(s: string, i: int, n: int) {
    CityAt(s, i, n) && forall n' :: 0 <= n' < n ==> !CityAt(s, i, n')
  }

  /** Every alternative is non-empty, so none matches past the end. */
  lemma NoCityPastEnd(s: string, from: int)
    requires from >= |s|
    ensures forall i, n :: from <= i ==> !CityAt(s, i, n)
  {
    forall i, n | from <= i && 0 <= n < |DivCities| ensures !MatchAt(s, i, DivCities[n]) {
      assert |DivCities[n]| > 0;
    }
  }

  /** A leftmost match after `from` whose position `from` does not match is
      also the leftmost match from `from`. */
  lemma CityLater(s: string, from: int, r: string)
    requires forall n :: !CityAt(s, from, n)
    requires exists i, n :: from + 1 <= i && NoCityBetween(s, from + 1, i) && CityReportedAt(s, i, n)
                            && r == s[i..i + |DivCities[n]|]
    ensures exists i, n :: from <= i && NoCityBetween(s, from, i) && CityReportedAt(s, i, n)
                           && r == s[i..i + |DivCities[n]|]
  {
    var i, n :| from + 1 <= i && NoCityBetween(s, from + 1, i) && CityReportedAt(s, i, n)
                && r == s[i..i + |DivCities[n]|];
    assert NoCityBetween(s, from, i);
  }

  /** The alternative reported at `from` is the leftmost match from `from`. */
  lemma CityHere(s: string, from: int, n: int)
    requires CityReportedAt(s, from, n)
    ensures exists i, n' :: from <= i && NoCityBetween(s, from, i) && CityReportedAt(s, i, n')
                            && s[from..from + |DivCities[n]|] == s[i..i + |DivCities[n']|]
  {
    assert NoCityBetween(s, from, from);
  }

  function CityFrom(s: string, from: nat): (r: Option<string>)
    ensures r.None? ==> forall i, n :: from <= i ==> !CityAt(s, i, n)
    ensures r.Some? ==> exists i, n :: from <= i && NoCityBetween(s, from, i) && CityReportedAt(s, i, n)
                                       && r.value == s[i..i + |DivCities[n]|]
    decreases |s| - from
  {
    if from >= |s| then
      NoCityPastEnd(s, from);
      None
    else match CityAlternative(s, from, 0)
      case Some(n) =>
        CityHere(s, from, n);
        Some(s[from..from + |DivCities[n]|])
      case None =>
        var r := CityFrom(s, from + 1);
        if r.Some? then CityLater(s, from, r.value); r else r
  }

  /** The city pattern (six Texas city names, tried in their listed order
      at each position, case ignored): the text of the leftmost match, as it
      is written in `text`. */
  function CityMention(text: string): (r: Option<string>)
    ensures r.None? <==> forall i, n :: !CityAt(text, i, n)
    ensures r.Some? ==> exists i, n :: NoCityBetween(text, 0, i) && CityReportedAt(text, i, n)
                                       && r.value == text[i..i + |DivCities[n]|]
  {
    CityFrom(text, 0)
  }

  predicate IsAscii(s: string) {
    forall k :: 0 <= k < |s| ==> s[k] < '\U{80}'
  }

  /** The text a match covers matches from its own start, and is ASCII when
      the whole text is. */
  lemma CityAtSlice(s: string, i: int, n: int)
    requires CityAt(s, i, n)
    ensures MatchAt(s[i..i + |DivCities[n]|], 0, DivCities[n])
    ensures IsAscii(s) ==> IsAscii(s[i..i + |DivCities[n]|])
  {
    var w := DivCities[n];
    var m := s[i..i + |w|];
    forall k | 0 <= k < |w| ensures ReCharEq(m[0 + k], w[k]) {
      assert m[k] == s[i + k];
    }
    if IsAscii(s) {
      forall k | 0 <= k < |m| ensures m[k] < '\U{80}' {
        assert m[k] == s[i + k];
      }
    }
  }

  /** Position `k` of `w` is what `str.title()` would put there. */
  predicate TitledAt(w: string, k: nat)
    requires k < |w|
  {
    w[k] == (if k > 0 && IsAsciiLetter(w[k - 1]) then ToLower(w[k]) else ToUpper(w[k]))
  }

  /** `w` is its own `str.title()`. */
  predicate TitleCased(w: string) {
    forall k: nat :: k < |w| ==> TitledAt(w, k)
  }

  /** Each of the six names is spelled as `str.title()` spells it. */
  lemma CityTitled(w: string)
    requires w in DivCities
    ensures TitleCased(w)
  {
    forall k | 0 <= k < |w| ensures TitledAt(w, k) {
      CityTitledAt(w, k);
    }
  }

  lemma CityTitledAt(w: string, k: nat)
    requires w in DivCities && k < |w|
    ensures TitledAt(w, k)
  {
    if w == "Houston" { TitledAt0(k); }
    else if w == "Dallas" { TitledAt1(k); }
    else if w == "Austin" { TitledAt2(k); }
    else if w == "San Antonio" { TitledAt3(k); }
    else if w == "Fort Worth" { TitledAt4(k); }
    else { TitledAt5(k); }
  }

  lemma TitledAt0(k: nat)
    requires k < 7
    ensures TitledAt("Houston", k)
  {
  }

  lemma TitledAt1(k: nat)
    requires k < 6
    ensures TitledAt("Dallas", k)
  {
  }

  lemma TitledAt2(k: nat)
    requires k < 6
    ensures TitledAt("Austin", k)
  {
  }

  lemma TitledAt3(k: nat)
    requires k < 11
    ensures TitledAt("San Antonio", k)
  {
  }

  lemma TitledAt4(k: nat)
    requires k < 10
    ensures TitledAt("Fort Worth", k)
  {
  }

  lemma TitledAt5(k: nat)
    requires k < 7
    ensures TitledAt("El Paso", k)
  {
  }

  lemma DivCitiesTitleCased(n: nat)
    requires n < |DivCities|
    ensures TitleCased(DivCities[n])
  {
    CityTitled(DivCities[n]);
  }

  /** One character of an ASCII match against a pattern character. */
  lemma AsciiCharMatch(c: char, p: char)
    requires ReCharEq(c, p) && c < '\U{80}'
    ensures IsAsciiLetter(c) <==> IsAsciiLetter(p)
    ensures IsAsciiLetter(p) ==> ToLower(c) == ToLower(p) && ToUpper(c) == ToUpper(p)
    ensures !IsAsciiLetter(p) ==> c == p
  {
  }

  /** An ASCII text that the city pattern matches title-cases to the
      pattern's own spelling, so the div extractor's city is then one of
      the six names. */
  lemma CityMatchTitle(m: string, n: nat)
    requires n < |DivCities| && |m| == |DivCities[n]| && MatchAt(m, 0, DivCities[n]) && IsAscii(m)
    ensures Title(m) == DivCities[n]
  {
    var w := DivCities[n];
    DivCitiesTitleCased(n);
    var t := Title(m);
    forall k | 0 <= k < |m| ensures t[k] == w[k] {
      assert TitledAt(w, k);
      assert ReCharEq(m[0 + k], w[k]);
      AsciiCharMatch(m[k], w[k]);
      if k > 0 {
        assert ReCharEq(m[0 + (k - 1)], w[k - 1]);
        AsciiCharMatch(m[k - 1], w[k - 1]);
      }
    }
  }
}
