/** Checking and cleaning the coordinates a user types.

    `ParseCoordinate` reads text such as "18.93 N" or "72.8°E", turning a
    south or west marker into a minus sign; the numeric part itself is read
    by a float parser that is a parameter here.  `ValidateCoordinates`
    accepts the operational region 60..100 E, 0..40 N and diagnoses
    longitude and latitude typed into each other's boxes.
    `SanitizeCoordinateInput` is the older cleaner that keeps only digits,
    one decimal point and one minus sign. */
module CoordinateValidator {
  import CoordConv
  import opened Wrappers

  // ---------------------------------------------------------------------------
  // Character classes and string helpers
  // ---------------------------------------------------------------------------

  /** The characters Python's `str.strip()` removes: those `str.isspace()`
      accepts. */
  predicate IsSpace(c: char) {
    || c == ' ' || '\t' <= c <= '\r'          // tab, line feed, vertical tab, form feed, return
    || '\U{1C}' <= c <= '\U{1F}'              // file, group, record and unit separators
    || c == '\U{85}' || c == '\U{A0}' || c == '\U{1680}'
    || '\U{2000}' <= c <= '\U{200A}'
    || c == '\U{2028}' || c == '\U{2029}' || c == '\U{202F}' || c == '\U{205F}' || c == '\U{3000}'
  }

  predicate AllSpace(s: string) {
    forall i :: 0 <= i < |s| ==> IsSpace(s[i])
  }

  predicate IsDigit(c: char) {
    '0' <= c <= '9'
  }

  function UpperChar(c: char): char {
    if 'a' <= c <= 'z' then (c as int - 32) as char else c
  }

  /** `str.upper()` on ASCII letters. */
  function Upper(s: string): (r: string)
    ensures |r| == |s|
    ensures forall i :: 0 <= i < |s| ==> r[i] == UpperChar(s[i])
  {
    seq(|s|, i requires 0 <= i < |s| => UpperChar(s[i]))
  }

  /** Leading whitespace removed: a suffix of `s`, what was cut is all space,
      and the rest does not start with space. */
  function StripLeft(s: string): (r: string)
    ensures |r| <= |s| && r == s[|s| - |r|..]
    ensures AllSpace(s[..|s| - |r|])
    ensures |r| > 0 ==> !IsSpace(r[0])
  {
    if |s| > 0 && IsSpace(s[0]) then StripLeft(s[1..]) else s
  }

  /** Trailing whitespace removed: a prefix of `s`, what was cut is all
      space, and the rest does not end with space. */
  function StripRight(s: string): (r: string)
    ensures |r| <= |s| && r == s[..|r|]
    ensures AllSpace(s[|r|..])
    ensures |r| > 0 ==> !IsSpace(r[|r| - 1])
  {
    if |s| > 0 && IsSpace(s[|s| - 1]) then StripRight(s[..|s| - 1]) else s
  }

  /** `r` is `s` with nothing but whitespace cut from its two ends. */
  ghost predicate TrimmedFrom(r: string, s: string) {
    exists i, j :: 0 <= i <= j <= |s| && r == s[i..j] && AllSpace(s[..i]) && AllSpace(s[j..])
  }

  /** `str.strip()`: the text with whitespace cut from both ends and none
      left at either end; empty exactly when the text is all whitespace. */
  function Strip(s: string): (r: string)
    ensures r == [] <==> AllSpace(s)
    ensures |r| > 0 ==> !IsSpace(r[0]) && !IsSpace(r[|r| - 1])
  {
    var l := StripLeft(s);
    if l == [] then [] else StripRight(l)
  }

  /** Where `Strip` cuts: whitespace only, before `i` and from `j` on. */
  lemma StripCut(s: string) returns (i: nat, j: nat)
    ensures i <= j <= |s| && Strip(s) == s[i..j]
    ensures AllSpace(s[..i]) && AllSpace(s[j..])
  {
    var l := StripLeft(s);
    i := |s| - |l|;
    assert s[i..] == l;
    if l == [] {
      j := i;
    } else {
      var r := StripRight(l);
      j := i + |r|;
      assert r == l[..|r|] && s[j..] == l[|r|..];
    }
  }

  /** What `Strip` cuts away is whitespace only. */
  lemma StripTrims(s: string)
    ensures TrimmedFrom(Strip(s), s)
  {
    var i, j := StripCut(s);
  }

  /** The characters of `s` that `keep` accepts, in their original order. */
  function Filter(s: string, keep: char -> bool): (r: string)
    ensures |r| <= |s|
    ensures forall i :: 0 <= i < |r| ==> keep(r[i])
  {
    if s == [] then []
    else (if keep(s[0]) then [s[0]] else []) + Filter(s[1..], keep)
  }

  lemma {:induction false} FilterConcat(a: string, b: string, keep: char -> bool)
    ensures Filter(a + b, keep) == Filter(a, keep) + Filter(b, keep)
  {
    if a != [] {
      assert (a + b)[0] == a[0];
      assert (a + b)[1..] == a[1..] + b;
      FilterConcat(a[1..], b, keep);
    } else {
      assert a + b == b;
    }
  }

  /** Filtering with a weaker test first does not change a stricter filter. */
  lemma {:induction false} FilterAbsorbs(s: string, weak: char -> bool, strict: char -> bool)
    requires forall c :: strict(c) ==> weak(c)
    ensures Filter(Filter(s, weak), strict) == Filter(s, strict)
  {
    if s != [] {
      FilterAbsorbs(s[1..], weak, strict);
      FilterConcat(if weak(s[0]) then [s[0]] else [], Filter(s[1..], weak), strict);
    }
  }

  /** `s` with every character of `drop` removed (chained `str.replace(c, '')`). */
  function Remove(s: string, drop: set<char>): (r: string)
    ensures |r| <= |s|
    ensures forall i :: 0 <= i < |r| ==> r[i] !in drop
  {
    if s == [] then []
    else (if s[0] in drop then [] else [s[0]]) + Remove(s[1..], drop)
  }

  /** Removal deletes every occurrence of the dropped characters and keeps
      every occurrence of the others. */
  lemma {:induction false} RemoveCounts(s: string, drop: set<char>, c: char)
    ensures multiset(Remove(s, drop))[c] == if c in drop then 0 else multiset(s)[c]
  {
    if s != [] {
      assert s == [s[0]] + s[1..];
      RemoveCounts(s[1..], drop, c);
    }
  }

  lemma {:induction false} RemoveConcat(a: string, b: string, drop: set<char>)
    ensures Remove(a + b, drop) == Remove(a, drop) + Remove(b, drop)
  {
    if a != [] {
      assert (a + b)[0] == a[0];
      assert (a + b)[1..] == a[1..] + b;
      RemoveConcat(a[1..], b, drop);
    } else {
      assert a + b == b;
    }
  }

  /** Removing characters that do not occur changes nothing. */
  lemma {:induction false} RemoveNothing(s: string, drop: set<char>)
    requires forall i :: 0 <= i < |s| ==> s[i] !in drop
    ensures Remove(s, drop) == s
  {
    if s != [] {
      RemoveNothing(s[1..], drop);
    }
  }

  /** The digits of `s`, in order. */
  function Digits(s: string): string {
    Filter(s, IsDigit)
  }

  /** Removing non-digits keeps the digit sequence. */
  lemma {:induction false} RemoveKeepsDigits(s: string, drop: set<char>)
    requires forall c :: c in drop ==> !IsDigit(c)
    ensures Digits(Remove(s, drop)) == Digits(s)
  {
    if s != [] {
      assert s == [s[0]] + s[1..];
      RemoveKeepsDigits(s[1..], drop);
      FilterConcat(if s[0] in drop then [] else [s[0]], Remove(s[1..], drop), IsDigit);
      FilterConcat([s[0]], s[1..], IsDigit);
    }
  }

  // ---------------------------------------------------------------------------
  // parse_coordinate
  // ---------------------------------------------------------------------------

  /** Hemisphere letters and degree/minute/second marks. */
  const Markers: set<char> := {'N', 'S', 'E', 'W', '°', '\'', '"'}

  datatype ParseError = EmptyCoordinate | InvalidFormat(text: string)

  /** A south or west marker anywhere makes the coordinate negative. */
  predicate IsSouthOrWest(text: string) {
    var t := Upper(Strip(text));
    'S' in t || 'W' in t
  }

  predicate IsSouthOrWestLetter(c: char) {
    c == 'S' || c == 's' || c == 'W' || c == 'w'
  }

  /** Upper-casing yields `S` or `W` exactly from those letters in either case. */
  lemma UpperSouthOrWest(c: char)
    ensures (UpperChar(c) == 'S' || UpperChar(c) == 'W') <==> IsSouthOrWestLetter(c)
  {
  }

  /** Upper-cased text holds an `S` or `W` exactly when the original holds
      one of those letters in either case. */
  lemma UpperHasSouthOrWest(t: string)
    ensures ('S' in Upper(t) || 'W' in Upper(t)) <==> exists k :: 0 <= k < |t| && IsSouthOrWestLetter(t[k])
  {
    var u := Upper(t);
    if 'S' in u || 'W' in u {
      var k :| 0 <= k < |u| && (u[k] == 'S' || u[k] == 'W');
      UpperSouthOrWest(t[k]);
    }
    if k :| 0 <= k < |t| && IsSouthOrWestLetter(t[k]) {
      UpperSouthOrWest(t[k]);
      assert u[k] == UpperChar(t[k]);
    }
  }

  /** Trimming whitespace loses no letter. */
  lemma TrimmedKeepsLetters(r: string, s: string)
    requires TrimmedFrom(r, s)
    ensures (exists k :: 0 <= k < |r| && IsSouthOrWestLetter(r[k]))
            <==> exists k :: 0 <= k < |s| && IsSouthOrWestLetter(s[k])
  {
    var i, j :| 0 <= i <= j <= |s| && r == s[i..j] && AllSpace(s[..i]) && AllSpace(s[j..]);
    if k :| 0 <= k < |r| && IsSouthOrWestLetter(r[k]) {
      assert s[i + k] == r[k];
    }
    if k :| 0 <= k < |s| && IsSouthOrWestLetter(s[k]) {
      if k < i {
        assert IsSpace(s[..i][k]);
      } else if k >= j {
        assert IsSpace(s[j..][k - j]);
      } else {
        assert r[k - i] == s[k];
      }
    }
  }

  /** The sign test reads the text as a whole: it is negative exactly when an
      `S` or `W` in either case occurs anywhere in it. */
  lemma SouthOrWestLetters(text: string)
    ensures IsSouthOrWest(text) <==> exists i :: 0 <= i < |text| && IsSouthOrWestLetter(text[i])
  {
    StripTrims(text);
    UpperHasSouthOrWest(Strip(text));
    TrimmedKeepsLetters(Strip(text), text);
  }

  /** Upper-casing works character by character. */
  lemma UpperConcat(a: string, b: string)
    ensures Upper(a + b) == Upper(a) + Upper(b)
  {
  }

  /** Whitespace survives upper-casing and marker removal unchanged. */
  lemma SpaceUntouched(a: string)
    requires AllSpace(a)
    ensures Remove(Upper(a), Markers) == a
  {
    assert Upper(a) == a;
    RemoveNothing(a, Markers);
  }

  /** Surrounding whitespace added on both sides is still only trimmed away. */
  lemma TrimmedWithin(r: string, a: string, x: string, b: string)
    requires AllSpace(a) && AllSpace(b) && TrimmedFrom(r, x)
    ensures TrimmedFrom(r, a + x + b)
  {
    var i, j :| 0 <= i <= j <= |x| && r == x[i..j] && AllSpace(x[..i]) && AllSpace(x[j..]);
    var s := a + x + b;
    assert r == s[|a| + i..|a| + j];
    assert s[..|a| + i] == a + x[..i];
    assert s[|a| + j..] == x[j..] + b;
  }

  /** Upper-casing and marker removal pass surrounding whitespace through. */
  lemma CleanPassesSpace(a: string, m: string, b: string)
    requires AllSpace(a) && AllSpace(b)
    ensures Remove(Upper(a + m + b), Markers) == a + Remove(Upper(m), Markers) + b
  {
    UpperConcat(a + m, b);
    UpperConcat(a, m);
    RemoveConcat(Upper(a) + Upper(m), Upper(b), Markers);
    RemoveConcat(Upper(a), Upper(m), Markers);
    SpaceUntouched(a);
    SpaceUntouched(b);
  }

  lemma SplitThree(s: string, i: nat, j: nat)
    requires i <= j <= |s|
    ensures s == s[..i] + s[i..j] + s[j..]
  {
  }

  /** Stripping before upper-casing and marker removal changes nothing that
      the final strip does not also remove. */
  lemma CleanIsTrimmed(text: string)
    ensures TrimmedFrom(Strip(Remove(Upper(Strip(text)), Markers)), Remove(Upper(text), Markers))
  {
    var i, j := StripCut(text);
    SplitThree(text, i, j);
    CleanPassesSpace(text[..i], text[i..j], text[j..]);
    var x := Remove(Upper(text[i..j]), Markers);
    StripTrims(x);
    TrimmedWithin(Strip(x), text[..i], x, text[j..]);
  }

  /** Trimming cuts characters away and brings none in. */
  lemma TrimmedKeepsOut(r: string, s: string, drop: set<char>)
    requires TrimmedFrom(r, s)
    requires forall k :: 0 <= k < |s| ==> s[k] !in drop
    ensures forall k :: 0 <= k < |r| ==> r[k] !in drop
  {
    var i, j :| 0 <= i <= j <= |s| && r == s[i..j] && AllSpace(s[..i]) && AllSpace(s[j..]);
    assert forall k :: 0 <= k < |r| ==> r[k] == s[i + k];
  }

  /** The text handed to the float parser: the input upper-cased with every
      marker removed, trimmed of whitespace at both ends. */
  function CleanCoordinateText(text: string): (cleaned: string)
    ensures |cleaned| > 0 ==> !IsSpace(cleaned[0]) && !IsSpace(cleaned[|cleaned| - 1])
    ensures forall i :: 0 <= i < |cleaned| ==> cleaned[i] !in Markers
    ensures TrimmedFrom(cleaned, Remove(Upper(text), Markers))
  {
    var removed := Remove(Upper(Strip(text)), Markers);
    StripTrims(removed);
    TrimmedKeepsOut(Strip(removed), removed, Markers);
    CleanIsTrimmed(text);
    Strip(removed)
  }

  /** `parse_coordinate`.  Blank text is an `EmptyCoordinate` error; text the
      float parser rejects after cleaning is an `InvalidFormat` error that
      carries the upper-cased, stripped input; otherwise the parsed
      magnitude, negated when a south or west marker is present. */
  function ParseCoordinate(text: string, parseFloat: string -> Option<real>): (r: Result<real, ParseError>)
    ensures r == Err(EmptyCoordinate) <==> AllSpace(text)
    ensures r.Ok? <==> !AllSpace(text) && parseFloat(CleanCoordinateText(text)).Some?
    ensures r.Ok? ==> r.value == if IsSouthOrWest(text) then -parseFloat(CleanCoordinateText(text)).value
                                 else parseFloat(CleanCoordinateText(text)).value
    ensures r.Err? && r.error.InvalidFormat? ==> r.error.text == Upper(Strip(text))
  {
    var stripped := Strip(text);
    if stripped == [] then Err(EmptyCoordinate)
    else
      var t := Upper(stripped);
      var negative := 'S' in t || 'W' in t;   // the multiplier -1.0
      var parsed := parseFloat(CleanCoordinateText(text));
      if parsed.None? then Err(InvalidFormat(t))
      else Ok(if negative then -parsed.value else parsed.value)
  }

  /** Characters of a plain signed decimal number. */
  predicate IsNumberChar(c: char) {
    IsDigit(c) || c == '.' || c == '-' || c == '+'
  }

  /** A plain number followed by a hemisphere letter: `N` and `E` keep the
      value, `S` and `W` negate it, in either case. */
  lemma HemisphereSuffix(number: string, letter: char, parseFloat: string -> Option<real>)
    requires |number| > 0
    requires forall i :: 0 <= i < |number| ==> IsNumberChar(number[i])
    requires letter in {'N', 'E', 'S', 'W', 'n', 'e', 's', 'w'}
    ensures ParseCoordinate(number + [letter], parseFloat).Ok? <==> ParseCoordinate(number, parseFloat).Ok?
    ensures ParseCoordinate(number, parseFloat).Ok? ==>
              ParseCoordinate(number + [letter], parseFloat).value
              == if letter in {'S', 'W', 's', 'w'} then -ParseCoordinate(number, parseFloat).value
                 else ParseCoordinate(number, parseFloat).value
  {
    var text := number + [letter];
    NotAllSpace(number);
    assert text[0] == number[0];
    NotAllSpace(text);
    SuffixCleansAway(number, letter);
    SuffixSetsHemisphere(number, letter);
    SameCleanTextSameParse(text, number, parseFloat);
  }

  /** Two texts that clean to the same number parse alike, up to the sign
      their hemisphere markers give. */
  lemma SameCleanTextSameParse(text: string, number: string, parseFloat: string -> Option<real>)
    requires !AllSpace(text) && !AllSpace(number)
    requires CleanCoordinateText(text) == CleanCoordinateText(number)
    requires !IsSouthOrWest(number)
    ensures ParseCoordinate(text, parseFloat).Ok? <==> ParseCoordinate(number, parseFloat).Ok?
    ensures ParseCoordinate(number, parseFloat).Ok? ==>
              ParseCoordinate(text, parseFloat).value
              == if IsSouthOrWest(text) then -ParseCoordinate(number, parseFloat).value
                 else ParseCoordinate(number, parseFloat).value
  {
  }

  lemma NotAllSpace(s: string)
    requires |s| > 0 && !IsSpace(s[0])
    ensures !AllSpace(s)
  {
  }

  /** A plain number is its own trimmed, upper-cased form. */
  lemma PlainNumberUnchanged(number: string)
    requires |number| > 0
    requires forall i :: 0 <= i < |number| ==> IsNumberChar(number[i])
    ensures Strip(number) == number && Upper(number) == number
    ensures Remove(number, Markers) == number
  {
    NoSpaceEdgesStrip(number);
    PlainNumberUpper(number);
    RemoveNothing(number, Markers);
  }

  lemma NoSpaceEdgesStrip(s: string)
    requires |s| > 0 && !IsSpace(s[0]) && !IsSpace(s[|s| - 1])
    ensures Strip(s) == s
  {
    assert StripLeft(s) == s;
    assert StripRight(s) == s;
  }

  lemma PlainNumberUpper(number: string)
    requires forall i :: 0 <= i < |number| ==> IsNumberChar(number[i])
    ensures Upper(number) == number
  {
  }

  lemma PlainSuffixedStrip(number: string, letter: char)
    requires |number| > 0
    requires forall i :: 0 <= i < |number| ==> IsNumberChar(number[i])
    requires letter in {'N', 'E', 'S', 'W', 'n', 'e', 's', 'w'}
    ensures Upper(Strip(number + [letter])) == number + [UpperChar(letter)]
  {
    var text := number + [letter];
    assert text[0] == number[0] && IsNumberChar(number[0]);
    assert text[|text| - 1] == letter;
    NoSpaceEdgesStrip(text);
    var upper := number + [UpperChar(letter)];
    forall i | 0 <= i < |text|
      ensures Upper(text)[i] == upper[i]
    {
      if i < |number| {
        assert text[i] == number[i] && IsNumberChar(number[i]);
      }
    }
  }

  /** The hemisphere letter does not reach the float parser. */
  lemma SuffixCleansAway(number: string, letter: char)
    requires |number| > 0
    requires forall i :: 0 <= i < |number| ==> IsNumberChar(number[i])
    requires letter in {'N', 'E', 'S', 'W', 'n', 'e', 's', 'w'}
    ensures CleanCoordinateText(number + [letter]) == CleanCoordinateText(number)
  {
    PlainNumberUnchanged(number);
    PlainSuffixedStrip(number, letter);
    UpperHemisphere(letter);
    RemoveConcat(number, [UpperChar(letter)], Markers);
    assert Remove([UpperChar(letter)], Markers) == [];
  }

  /** The hemisphere letter alone decides the sign. */
  lemma SuffixSetsHemisphere(number: string, letter: char)
    requires |number| > 0
    requires forall i :: 0 <= i < |number| ==> IsNumberChar(number[i])
    requires letter in {'N', 'E', 'S', 'W', 'n', 'e', 's', 'w'}
    ensures IsSouthOrWest(number + [letter]) <==> letter in {'S', 'W', 's', 'w'}
    ensures !IsSouthOrWest(number)
  {
    PlainNumberUnchanged(number);
    PlainSuffixedStrip(number, letter);
    UpperHemisphere(letter);
    SouthOrWestOfSuffix(number, UpperChar(letter));
    assert 'S' !in number && 'W' !in number by {
      forall i | 0 <= i < |number| ensures number[i] != 'S' && number[i] != 'W' {
        assert IsNumberChar(number[i]);
      }
    }
  }

  lemma UpperHemisphere(letter: char)
    requires letter in {'N', 'E', 'S', 'W', 'n', 'e', 's', 'w'}
    ensures UpperChar(letter) in Markers
    ensures UpperChar(letter) == 'S' || UpperChar(letter) == 'W' <==> letter in {'S', 'W', 's', 'w'}
  {
  }

  lemma SouthOrWestOfSuffix(number: string, u: char)
    requires forall i :: 0 <= i < |number| ==> IsNumberChar(number[i])
    ensures ('S' in number + [u] || 'W' in number + [u]) <==> u == 'S' || u == 'W'
  {
    var t := number + [u];
    assert t[|number|] == u;
    forall i | 0 <= i < |number|
      ensures t[i] != 'S' && t[i] != 'W'
    {
      assert t[i] == number[i] && IsNumberChar(number[i]);
    }
  }

  // ---------------------------------------------------------------------------
  // validate_coordinates
  // ---------------------------------------------------------------------------

  datatype Verdict =
    | Accepted
    | LongitudeOutOfRange   // outside [-180, 180]
    | LatitudeOutOfRange    // outside [-90, 90]
    | PossibleSwap          // the two values look typed into each other's boxes
    | OutsideRegion         // outside 60..100 E, 0..40 N

  /** `validate_coordinates` as written.  Accepts exactly the operational
      input region.  A pair outside it is diagnosed as a swap when the
      longitude lies in [0, 40] and the latitude in [60, 90]: a latitude in
      (90, 100] is refused by the global latitude check before the swap test
      is reached. */
  function ValidateCoordinates(lon: real, lat: real): (v: Verdict)
    ensures v.Accepted? <==> CoordConv.IsWithinInputBounds(lon, lat)
    ensures v.LongitudeOutOfRange? <==> !(-180.0 <= lon <= 180.0)
    ensures v.LatitudeOutOfRange? <==> -180.0 <= lon <= 180.0 && !(-90.0 <= lat <= 90.0)
    ensures v.PossibleSwap? <==> 0.0 <= lon <= 40.0 && 60.0 <= lat <= 90.0
  {
    if !(-180.0 <= lon <= 180.0) then LongitudeOutOfRange
    else if !(-90.0 <= lat <= 90.0) then LatitudeOutOfRange
    else
      var validLon := 60.0 <= lon <= 100.0;
      var validLat := 0.0 <= lat <= 40.0;
      if validLon && validLat then Accepted
      else
        var swappedLon := 60.0 <= lat <= 100.0;
        var swappedLat := 0.0 <= lon <= 40.0;
        if swappedLon && swappedLat then PossibleSwap
        else OutsideRegion
  }

  /** The swap hint is missed for a longitude of 90..100 typed as latitude:
      (20, 95) is refused as an out-of-range latitude although (95, 20) is
      accepted. */
  lemma SwapHintMissedAboveNinety()
    ensures ValidateCoordinates(20.0, 95.0) == LatitudeOutOfRange
    ensures ValidateCoordinates(95.0, 20.0) == Accepted
  {
  }

  /** The validator with the swap test ahead of the global latitude check,
      as the swap ranges 60..100 / 0..40 of `validate_coordinates` intend.  It diagnoses
      a swap exactly when exchanging the two values gives an accepted pair. */
  function ValidateCoordinatesSwapFirst(lon: real, lat: real): (v: Verdict)
    ensures v.Accepted? <==> CoordConv.IsWithinInputBounds(lon, lat)
    ensures v.PossibleSwap? <==> !CoordConv.IsWithinInputBounds(lon, lat)
                                 && CoordConv.IsWithinInputBounds(lat, lon)
    ensures v.LongitudeOutOfRange? <==> !(-180.0 <= lon <= 180.0)
  {
    if !(-180.0 <= lon <= 180.0) then LongitudeOutOfRange
    else if 60.0 <= lon <= 100.0 && 0.0 <= lat <= 40.0 then Accepted
    else if 60.0 <= lat <= 100.0 && 0.0 <= lon <= 40.0 then PossibleSwap
    else if !(-90.0 <= lat <= 90.0) then LatitudeOutOfRange
    else OutsideRegion
  }

  /** A swap diagnosis is always right: the exchanged pair is accepted. */
  lemma SwapDiagnosisIsRight(lon: real, lat: real)
    requires ValidateCoordinatesSwapFirst(lon, lat) == PossibleSwap
    ensures ValidateCoordinatesSwapFirst(lat, lon) == Accepted
  {
  }

  /** Both validators agree everywhere except on the swap diagnosis for a
      latitude above 90. */
  lemma ValidatorsAgreeBelowNinety(lon: real, lat: real)
    requires lat <= 90.0
    ensures ValidateCoordinates(lon, lat) == ValidateCoordinatesSwapFirst(lon, lat)
  {
  }

  // ---------------------------------------------------------------------------
  // sanitize_coordinate_input
  // ---------------------------------------------------------------------------

  function Count(s: string, c: char): nat {
    multiset(s)[c]
  }

  /** What the legacy cleaner keeps in its first pass. */
  predicate IsSanitizedChar(c: char) {
    IsDigit(c) || c == '.' || c == '-'
  }

  /** Position of the first `c` in `s`. */
  function FirstIndex(s: string, c: char): (i: nat)
    requires c in s
    ensures i < |s| && s[i] == c && c !in s[..i]
  {
    if s[0] == c then 0 else FirstIndex(s[1..], c) + 1
  }

  /** Filtering keeps every occurrence of a character the test accepts. */
  lemma {:induction false} FilterCount(s: string, keep: char -> bool, c: char)
    requires keep(c)
    ensures Count(Filter(s, keep), c) == Count(s, c)
  {
    if s != [] {
      assert s == [s[0]] + s[1..];
      FilterCount(s[1..], keep, c);
      assert multiset(Filter(s, keep)) == multiset(if keep(s[0]) then [s[0]] else []) + multiset(Filter(s[1..], keep));
    }
  }

  /** Removing the same characters twice is removing them once. */
  lemma RemoveTwice(s: string, drop: set<char>)
    ensures Remove(Remove(s, drop), drop) == Remove(s, drop)
  {
    RemoveNothing(Remove(s, drop), drop);
  }

  /** `parts[0] + '.' + ''.join(parts[1:])` for `parts = s.split('.')`: the
      text up to and including the first decimal point is unchanged, and
      apart from decimal points so is the rest; exactly one point remains. */
  function KeepFirstDot(s: string): (r: string)
    requires '.' in s
    ensures FirstIndex(s, '.') < |r| && r[..FirstIndex(s, '.') + 1] == s[..FirstIndex(s, '.') + 1]
    ensures Remove(r, {'.'}) == Remove(s, {'.'})
    ensures Count(r, '.') == 1
    ensures forall c :: c != '.' ==> Count(r, c) == Count(s, c)
    ensures Digits(r) == Digits(s)
  {
    var i := FirstIndex(s, '.');
    KeepFirstDotCounts(s, i);
    KeepFirstDotDigits(s, i);
    KeepFirstDotRemoves(s, i);
    s[..i + 1] + Remove(s[i + 1..], {'.'})
  }

  lemma KeepFirstDotRemoves(s: string, i: nat)
    requires i < |s| && s[i] == '.'
    ensures Remove(s[..i + 1] + Remove(s[i + 1..], {'.'}), {'.'}) == Remove(s, {'.'})
  {
    var head, tail := s[..i + 1], s[i + 1..];
    assert s == head + tail;
    RemoveAfterRemove(head, tail, {'.'});
  }

  /** Removing from the tail first changes nothing once the whole is removed from. */
  lemma RemoveAfterRemove(head: string, tail: string, drop: set<char>)
    ensures Remove(head + Remove(tail, drop), drop) == Remove(head + tail, drop)
  {
    RemoveConcat(head, tail, drop);
    RemoveConcat(head, Remove(tail, drop), drop);
    RemoveTwice(tail, drop);
  }

  lemma KeepFirstDotCounts(s: string, i: nat)
    requires i < |s| && s[i] == '.' && '.' !in s[..i]
    ensures Count(s[..i + 1] + Remove(s[i + 1..], {'.'}), '.') == 1
    ensures forall c :: c != '.' ==> Count(s[..i + 1] + Remove(s[i + 1..], {'.'}), c) == Count(s, c)
  {
    var rest := Remove(s[i + 1..], {'.'});
    assert s[..i + 1] == s[..i] + [s[i]];
    assert s == s[..i + 1] + s[i + 1..];
    forall c ensures multiset(rest)[c] == if c == '.' then 0 else multiset(s[i + 1..])[c] {
      RemoveCounts(s[i + 1..], {'.'}, c);
    }
  }

  lemma KeepFirstDotDigits(s: string, i: nat)
    requires i < |s| && s[i] == '.'
    ensures Digits(s[..i + 1] + Remove(s[i + 1..], {'.'})) == Digits(s)
  {
    var rest := Remove(s[i + 1..], {'.'});
    assert s == s[..i + 1] + s[i + 1..];
    FilterConcat(s[..i + 1], s[i + 1..], IsDigit);
    FilterConcat(s[..i + 1], rest, IsDigit);
    RemoveKeepsDigits(s[i + 1..], {'.'});
  }

  /** `sanitize_coordinate_input`, defined in the program but called from
      nowhere: only digits, `.` and `-` survive.  Of each of `.` and `-`
      exactly one remains when the input had any; a repeated minus sign moves
      to the front; when neither sign was repeated the result is just the
      characters kept; every digit of the input survives, in order. */
  function SanitizeCoordinateInput(text: string): (r: string)
    ensures forall i :: 0 <= i < |r| ==> IsSanitizedChar(r[i])
    ensures Count(r, '.') == if Count(text, '.') == 0 then 0 else 1
    ensures Count(r, '-') == if Count(text, '-') == 0 then 0 else 1
    ensures Count(text, '-') > 1 ==> r[0] == '-'
    ensures Count(text, '.') <= 1 && Count(text, '-') <= 1 ==> r == Filter(text, IsSanitizedChar)
    ensures Count(text, '-') <= 1 && '.' in text ==>
              var kept := Filter(text, IsSanitizedChar);
              '.' in kept && FirstIndex(kept, '.') < |r|
              && r[..FirstIndex(kept, '.') + 1] == kept[..FirstIndex(kept, '.') + 1]
              && Remove(r, {'.'}) == Remove(kept, {'.'})
    ensures Count(text, '-') > 1 && '.' in text ==>
              '.' in r && Digits(r[..FirstIndex(r, '.')]) == Digits(text[..FirstIndex(text, '.')])
    ensures Digits(r) == Digits(text)
  {
    var kept := Filter(text, IsSanitizedChar);
    FilterAbsorbs(text, IsSanitizedChar, IsDigit);
    FilterCount(text, IsSanitizedChar, '.');
    FilterCount(text, IsSanitizedChar, '-');
    var dotted := if Count(kept, '.') > 1 then KeepFirstDot(kept) else kept;
    assert Count(dotted, '.') == if Count(text, '.') == 0 then 0 else 1;
    assert Count(dotted, '-') == Count(text, '-');
    SameCountsSameAlphabet(kept, dotted, '.');
    var r := if Count(dotted, '-') > 1 then SingleMinus(dotted) else dotted;
    SameCountsSameAlphabet(dotted, r, '-');
    SanitizeDotPlace(text, kept, dotted, r);
    r
  }

  /** Where the kept `.` ends up: with at most one minus sign the text up to
      the first `.` of the kept characters is unchanged and only later dots
      go; with a repeated minus sign the digits in front of the `.` are still
      exactly the digits in front of the input's first `.`. */
  lemma SanitizeDotPlace(text: string, kept: string, dotted: string, r: string)
    requires kept == Filter(text, IsSanitizedChar)
    requires dotted == if Count(kept, '.') > 1 then KeepFirstDot(kept) else kept
    requires r == if Count(dotted, '-') > 1 then SingleMinus(dotted) else dotted
    ensures Count(text, '-') <= 1 && '.' in text ==>
              '.' in kept && FirstIndex(kept, '.') < |r|
              && r[..FirstIndex(kept, '.') + 1] == kept[..FirstIndex(kept, '.') + 1]
              && Remove(r, {'.'}) == Remove(kept, {'.'})
    ensures Count(text, '-') > 1 && '.' in text ==>
              '.' in r && Digits(r[..FirstIndex(r, '.')]) == Digits(text[..FirstIndex(text, '.')])
  {
    if '.' in text {
      FilterCount(text, IsSanitizedChar, '.');
      FilterCount(text, IsSanitizedChar, '-');
      assert Count(dotted, '-') == Count(text, '-');
      if Count(text, '-') <= 1 {
        assert r == dotted;
        DotKept(kept, dotted);
      } else {
        FilterSplitsAtDot(text);
        DotKept(kept, dotted);
        SingleMinusSplits(dotted);
      }
    }
  }

  /** Keeping only the first of several dots, or leaving a text with one dot
      alone, keeps everything up to that dot. */
  lemma DotKept(kept: string, dotted: string)
    requires '.' in kept
    requires dotted == if Count(kept, '.') > 1 then KeepFirstDot(kept) else kept
    ensures FirstIndex(kept, '.') < |dotted|
    ensures dotted[..FirstIndex(kept, '.') + 1] == kept[..FirstIndex(kept, '.') + 1]
    ensures Remove(dotted, {'.'}) == Remove(kept, {'.'})
    ensures '.' in dotted && FirstIndex(dotted, '.') == FirstIndex(kept, '.')
    ensures dotted[..FirstIndex(dotted, '.')] == kept[..FirstIndex(kept, '.')]
  {
    if Count(kept, '.') > 1 {
      KeepFirstDotSplits(kept);
    }
  }

  /** The first index of `c` in `a + [c] + b`, when `a` has no `c`, is `|a|`. */
  lemma {:induction false} FirstIndexSplit(a: string, c: char, b: string)
    requires c !in a
    ensures c in a + [c] + b && FirstIndex(a + [c] + b, c) == |a|
  {
    var s := a + [c] + b;
    assert s[|a|] == c;
    if a != [] {
      assert s[1..] == a[1..] + [c] + b;
      FirstIndexSplit(a[1..], c, b);
    }
  }

  /** Keeping the sanitized characters keeps the first `.` and the digits in
      front of it. */
  lemma FilterSplitsAtDot(text: string)
    requires '.' in text
    ensures '.' in Filter(text, IsSanitizedChar)
    ensures var kept := Filter(text, IsSanitizedChar);
            Digits(kept[..FirstIndex(kept, '.')]) == Digits(text[..FirstIndex(text, '.')])
  {
    var t := FirstIndex(text, '.');
    var a, b := text[..t], text[t + 1..];
    assert text == a + ['.'] + b;
    FilterConcat(a + ['.'], b, IsSanitizedChar);
    FilterConcat(a, ['.'], IsSanitizedChar);
    assert Filter(['.'], IsSanitizedChar) == ['.'];
    var fa, fb := Filter(a, IsSanitizedChar), Filter(b, IsSanitizedChar);
    FilterCount(a, IsSanitizedChar, '.');
    assert '.' !in fa by { assert multiset(fa)['.'] == 0; }
    FirstIndexSplit(fa, '.', fb);
    assert (fa + ['.'] + fb)[..|fa|] == fa;
    FilterAbsorbs(a, IsSanitizedChar, IsDigit);
  }

  /** Dropping the later dots leaves the first `.` where it was. */
  lemma KeepFirstDotSplits(s: string)
    requires '.' in s
    ensures '.' in KeepFirstDot(s)
    ensures FirstIndex(KeepFirstDot(s), '.') == FirstIndex(s, '.')
    ensures KeepFirstDot(s)[..FirstIndex(s, '.')] == s[..FirstIndex(s, '.')]
  {
    var i := FirstIndex(s, '.');
    var r := KeepFirstDot(s);
    assert r[..i] == s[..i] by { assert r[..i] == r[..i + 1][..i]; }
    assert r[i] == '.' by { assert r[i] == r[..i + 1][i]; }
    assert r == r[..i] + ['.'] + r[i + 1..];
    FirstIndexSplit(r[..i], '.', r[i + 1..]);
  }

  /** Putting a character in front of `a + [c] + b` regroups as `([x] + a) + [c] + b`. */
  lemma PrependRegroups(x: char, a: string, c: char, b: string)
    ensures [x] + (a + [c] + b) == ([x] + a) + [c] + b
  {
  }

  /** A string in which every character other than `free` occurs as often as
      in a sanitized string is sanitized too, when `free` is. */
  lemma SameCountsSameAlphabet(kept: string, dotted: string, free: char)
    requires IsSanitizedChar(free)
    requires forall i :: 0 <= i < |kept| ==> IsSanitizedChar(kept[i])
    requires forall c :: c != free ==> Count(dotted, c) == Count(kept, c)
    ensures forall i :: 0 <= i < |dotted| ==> IsSanitizedChar(dotted[i])
  {
    forall i | 0 <= i < |dotted| ensures IsSanitizedChar(dotted[i]) {
      if dotted[i] != free {
        assert dotted[i] in multiset(dotted);
        assert Count(kept, dotted[i]) > 0;
        assert dotted[i] in kept;
      }
    }
  }

  lemma SingleMinusFacts(s: string)
    ensures forall c :: c != '-' ==> Count(['-'] + Remove(s, {'-'}), c) == Count(s, c)
    ensures Count(['-'] + Remove(s, {'-'}), '-') == 1
    ensures Remove(['-'] + Remove(s, {'-'}), {'-'}) == Remove(s, {'-'})
    ensures Digits(['-'] + Remove(s, {'-'})) == Digits(s)
  {
    var r := Remove(s, {'-'});
    forall c ensures Count(['-'] + r, c) == if c == '-' then 1 else Count(s, c) {
      RemoveCounts(s, {'-'}, c);
      assert multiset(['-'] + r) == multiset(['-']) + multiset(r);
    }
    RemoveKeepsDigits(s, {'-'});
    FilterConcat(['-'], r, IsDigit);
    RemoveConcat(['-'], r, {'-'});
    RemoveTwice(s, {'-'});
  }

  /** `'-' + s.replace('-', '')`: a single minus sign in front, and apart
      from minus signs the text is unchanged. */
  function SingleMinus(s: string): (r: string)
    ensures |r| > 0 && r[0] == '-'
    ensures Remove(r, {'-'}) == Remove(s, {'-'})
    ensures Count(r, '-') == 1
    ensures forall c :: c != '-' ==> Count(r, c) == Count(s, c)
    ensures Digits(r) == Digits(s)
  {
    SingleMinusFacts(s);
    ['-'] + Remove(s, {'-'})
  }

  /** Moving the minus sign to the front keeps the digits in front of the
      first `.`. */
  lemma SingleMinusSplits(s: string)
    requires '.' in s
    ensures '.' in SingleMinus(s)
    ensures Digits(SingleMinus(s)[..FirstIndex(SingleMinus(s), '.')]) == Digits(s[..FirstIndex(s, '.')])
  {
    var rp, rq := RemoveAroundDot(s, {'-'});
    MinusInFront(rp, rq);
  }

  /** Removing characters other than `.` and the digits splits the result at
      the first `.` into the removal from either side of it. */
  lemma RemoveAroundDot(s: string, drop: set<char>) returns (rp: string, rq: string)
    requires '.' in s && '.' !in drop && forall c :: c in drop ==> !IsDigit(c)
    ensures Remove(s, drop) == rp + ['.'] + rq
    ensures '.' !in rp && Digits(rp) == Digits(s[..FirstIndex(s, '.')])
  {
    var i := FirstIndex(s, '.');
    var p, q := s[..i], s[i + 1..];
    assert s == p + ['.'] + q;
    RemoveConcat(p + ['.'], q, drop);
    RemoveConcat(p, ['.'], drop);
    assert Remove(['.'], drop) == ['.'];
    rp, rq := Remove(p, drop), Remove(q, drop);
    RemoveCounts(p, drop, '.');
    assert '.' !in rp by { assert multiset(rp)['.'] == 0; }
    RemoveKeepsDigits(p, drop);
  }

  /** A minus sign in front of `rp + ['.'] + rq` leaves the digits of `rp` in
      front of the first `.`. */
  lemma MinusInFront(rp: string, rq: string)
    requires '.' !in rp
    ensures '.' in ['-'] + (rp + ['.'] + rq)
    ensures var m := ['-'] + (rp + ['.'] + rq);
            Digits(m[..FirstIndex(m, '.')]) == Digits(rp)
  {
    PrependRegroups('-', rp, '.', rq);
    FirstIndexSplit(['-'] + rp, '.', rq);
    assert ((['-'] + rp) + ['.'] + rq)[..|['-'] + rp|] == ['-'] + rp;
    FilterConcat(['-'], rp, IsDigit);
    assert Filter(['-'], IsDigit) == [];
  }
}
