/** Semantic versions: the regular expression of `parse_version` as a scanner, printing and bumping.

    `\d` and `int` accept every Unicode decimal digit. The ones beyond ASCII come as a table `nd`
    from characters to digit values; every theorem holds for every such table. */
module Version {
  import opened Messages

  datatype SemVer = SemVer(major: int, minor: int, patch: int, prerelease: Option<string>)

  datatype BumpPart = Major | Minor | Patch

  type Digits = map<char, nat>

  predicate DigitTable(nd: Digits) {
    forall c | c in nd :: 127 < c as int && nd[c] < 10
  }

  predicate IsDigit(nd: Digits, c: char) {
    '0' <= c <= '9' || c in nd
  }

  function DigitValue(nd: Digits, c: char): nat
    requires IsDigit(nd, c)
  {
    if '0' <= c <= '9' then c as int - '0' as int else nd[c]
  }

  predicate AllDigits(nd: Digits, s: string) {
    forall k | 0 <= k < |s| :: IsDigit(nd, s[k])
  }

  // `int(s)`
  function Value(nd: Digits, s: string): nat
    requires AllDigits(nd, s)
  {
    if s == "" then 0 else 10 * Value(nd, s[..|s| - 1]) + DigitValue(nd, s[|s| - 1])
  }

  // `0|[1-9]\d*`
  predicate Numeral(nd: Digits, s: string) {
    s == "0" || (s != "" && '1' <= s[0] <= '9' && AllDigits(nd, s))
  }

  // `[0-9A-Za-z\-.]`
  predicate PreChar(c: char) {
    '0' <= c <= '9' || 'A' <= c <= 'Z' || 'a' <= c <= 'z' || c == '-' || c == '.'
  }

  predicate Label(s: string) {
    s != "" && forall k | 0 <= k < |s| :: PreChar(s[k])
  }

  // ---- Printing ----

  function Digit(d: nat): char
    requires d < 10
  {
    ('0' as int + d) as char
  }

  function Decimal(n: nat): string {
    if n < 10 then [Digit(n)] else Decimal(n / 10) + [Digit(n % 10)]
  }

  function Print(n: int): string {
    if n < 0 then "-" + Decimal(-n) else Decimal(n)
  }

  function Str(v: SemVer): string {
    var base := Print(v.major) + "." + Print(v.minor) + "." + Print(v.patch);
    if v.prerelease.Some? && v.prerelease.value != "" then base + "-" + v.prerelease.value else base
  }

  // ---- Parsing ----

  function DigitRun(nd: Digits, s: string): (n: nat)
    ensures n <= |s| && AllDigits(nd, s[..n])
    ensures n < |s| ==> !IsDigit(nd, s[n])
  {
    if s == "" || !IsDigit(nd, s[0]) then 0 else 1 + DigitRun(nd, s[1..])
  }

  function PreRun(s: string): (n: nat)
    ensures n <= |s| && forall k | 0 <= k < n :: PreChar(s[k])
    ensures n < |s| ==> !PreChar(s[n])
  {
    if s == "" || !PreChar(s[0]) then 0 else 1 + PreRun(s[1..])
  }

  // The length of the numeral at the start of s.
  function ScanNumeral(nd: Digits, s: string): (r: Option<nat>)
    ensures r.Some? ==> r.value <= |s| && Numeral(nd, s[..r.value])
  {
    if s == "" then None
    else if s[0] == '0' then assert s[..1] == "0"; Some(1)
    else if '1' <= s[0] <= '9' then Some(DigitRun(nd, s))
    else None
  }

  // A numeral and the dot after it: its value and what follows.
  function ScanPart(nd: Digits, s: string): Option<(nat, string)> {
    match ScanNumeral(nd, s)
    case None => None
    case Some(n) => if n < |s| && s[n] == '.' then Some((Value(nd, s[..n]), s[n + 1..])) else None
  }

  // `$` also matches before a newline that ends the text.
  predicate AtEnd(s: string) {
    s == "" || s == "\n"
  }

  // `(?:-(...))?$`
  function ScanSuffix(s: string): (r: Option<Option<string>>)
    ensures r.Some? && r.value.Some? ==> Label(r.value.value)
  {
    if AtEnd(s) then Some(None)
    else if s[0] != '-' then None
    else
      var n := PreRun(s[1..]);
      if n > 0 && AtEnd(s[1 + n..]) then Some(Some(s[1..1 + n])) else None
  }

  datatype VersionError = InvalidVersion(text: string) | InvalidPart(name: string) | NoVersionField

  // The last number of the core, the label if any, and the end of the text.
  function ScanPatch(nd: Digits, s: string): (r: Option<(nat, Option<string>)>)
    ensures r.Some? && r.value.1.Some? ==> Label(r.value.1.value)
  {
    var n := ScanNumeral(nd, s);
    if n.None? then None
    else
      var suffix := ScanSuffix(s[n.value..]);
      if suffix.None? then None else Some((Value(nd, s[..n.value]), suffix.value))
  }

  function Parse(nd: Digits, s: string): (r: Result<SemVer, VersionError>)
    ensures r.Ok? ==> Printable(r.value)
  {
    var major := ScanPart(nd, s);
    if major.None? then Err(InvalidVersion(s))
    else
      var minor := ScanPart(nd, major.value.1);
      if minor.None? then Err(InvalidVersion(s))
      else
        var patch := ScanPatch(nd, minor.value.1);
        if patch.None? then Err(InvalidVersion(s))
        else Ok(SemVer(major.value.0, minor.value.0, patch.value.0, patch.value.1))
  }

  // ---- What the regular expression says ----

  function Suffix(prerelease: Option<string>): string {
    if prerelease.Some? then "-" + prerelease.value else ""
  }

  // The three numerals and the label of a match, and what `$` leaves behind it.
  datatype Capture = Capture(major: string, minor: string, patch: string, prerelease: Option<string>, end: string)

  predicate Proper(nd: Digits, c: Capture) {
    && Numeral(nd, c.major) && Numeral(nd, c.minor) && Numeral(nd, c.patch) && AtEnd(c.end)
    && (c.prerelease.Some? ==> Label(c.prerelease.value))
  }

  function Rest(c: Capture): string {
    Suffix(c.prerelease) + c.end
  }

  function Text(c: Capture): string {
    c.major + "." + (c.minor + "." + (c.patch + Rest(c)))
  }

  function Captured(nd: Digits, c: Capture): SemVer
    requires Proper(nd, c)
  {
    SemVer(Value(nd, c.major), Value(nd, c.minor), Value(nd, c.patch), c.prerelease)
  }

  lemma {:induction false} DigitRunStops(nd: Digits, m: string, rest: string)
    requires AllDigits(nd, m) && (rest == "" || !IsDigit(nd, rest[0]))
    ensures DigitRun(nd, m + rest) == |m|
  {
    if m == "" {
      assert m + rest == rest;
    } else {
      assert (m + rest)[0] == m[0] && (m + rest)[1..] == m[1..] + rest;
      DigitRunStops(nd, m[1..], rest);
    }
  }

  lemma {:induction false} PreRunStops(m: string, rest: string)
    requires (forall k | 0 <= k < |m| :: PreChar(m[k])) && AtEnd(rest)
    ensures PreRun(m + rest) == |m|
  {
    if m == "" {
      assert m + rest == rest;
    } else {
      assert (m + rest)[0] == m[0] && (m + rest)[1..] == m[1..] + rest;
      PreRunStops(m[1..], rest);
    }
  }

  lemma NumeralStops(nd: Digits, m: string, rest: string)
    requires Numeral(nd, m) && (rest == "" || !IsDigit(nd, rest[0]))
    ensures ScanNumeral(nd, m + rest) == Some(|m|) && (m + rest)[..|m|] == m && (m + rest)[|m|..] == rest
  {
    if m != "0" {
      DigitRunStops(nd, m, rest);
    }
  }

  lemma PartStops(nd: Digits, m: string, rest: string)
    requires DigitTable(nd) && Numeral(nd, m)
    ensures ScanPart(nd, m + "." + rest) == Some((Value(nd, m), rest))
  {
    assert m + "." + rest == m + ("." + rest);
    NumeralStops(nd, m, "." + rest);
    assert (m + "." + rest)[|m| + 1..] == rest;
  }

  lemma SuffixStops(prerelease: Option<string>, end: string)
    requires AtEnd(end) && (prerelease.Some? ==> Label(prerelease.value))
    ensures ScanSuffix(Suffix(prerelease) + end) == Some(prerelease)
  {
    if prerelease.Some? {
      var p := prerelease.value;
      var s := Suffix(prerelease) + end;
      assert s[1..] == p + end;
      PreRunStops(p, end);
      assert s[1 + |p|..] == end && s[1..1 + |p|] == p;
    } else {
      assert Suffix(prerelease) + end == end;
    }
  }

  lemma PatchStops(nd: Digits, c: Capture)
    requires DigitTable(nd) && Proper(nd, c)
    ensures ScanPatch(nd, c.patch + Rest(c)) == Some((Value(nd, c.patch), c.prerelease))
  {
    NumeralStops(nd, c.patch, Rest(c));
    SuffixStops(c.prerelease, c.end);
  }

  // Every matching text parses to what it captures: no other way of matching it is missed.
  lemma MatchingTextParses(nd: Digits, c: Capture)
    requires DigitTable(nd) && Proper(nd, c)
    ensures Parse(nd, Text(c)) == Ok(Captured(nd, c))
  {
    PartStops(nd, c.major, c.minor + "." + (c.patch + Rest(c)));
    PartStops(nd, c.minor, c.patch + Rest(c));
    PatchStops(nd, c);
  }

  lemma PartSplits(nd: Digits, s: string)
    requires ScanPart(nd, s).Some?
    ensures var m := s[..ScanNumeral(nd, s).value];
            Numeral(nd, m) && s == m + "." + ScanPart(nd, s).value.1 && ScanPart(nd, s).value.0 == Value(nd, m)
  {
    var n := ScanNumeral(nd, s).value;
    assert s == s[..n] + [s[n]] + s[n + 1..];
  }

  function EndOf(s: string): string
    requires ScanSuffix(s).Some?
  {
    var prerelease := ScanSuffix(s).value;
    if prerelease.None? then s else s[1 + |prerelease.value|..]
  }

  lemma SuffixSplits(s: string)
    requires ScanSuffix(s).Some?
    ensures var prerelease := ScanSuffix(s).value;
            (prerelease.Some? ==> Label(prerelease.value)) && AtEnd(EndOf(s)) && s == Suffix(prerelease) + EndOf(s)
  {
    if ScanSuffix(s).value.Some? {
      var n := PreRun(s[1..]);
      assert s[1..1 + n] == s[1..][..n];
      assert s == ("-" + s[1..1 + n]) + s[1 + n..];
    }
  }

  lemma PatchSplits(nd: Digits, s: string)
    requires ScanPatch(nd, s).Some?
    ensures var z := s[..ScanNumeral(nd, s).value];
            var (patch, prerelease) := ScanPatch(nd, s).value;
            && Numeral(nd, z) && patch == Value(nd, z) && (prerelease.Some? ==> Label(prerelease.value))
            && AtEnd(EndOf(s[|z|..])) && s == z + (Suffix(prerelease) + EndOf(s[|z|..]))
  {
    var z := s[..ScanNumeral(nd, s).value];
    assert s == z + s[|z|..];
    SuffixSplits(s[|z|..]);
  }

  function CaptureOf(nd: Digits, s: string): Capture
    requires Parse(nd, s).Ok?
  {
    var s1 := ScanPart(nd, s).value.1;
    var s2 := ScanPart(nd, s1).value.1;
    var n := ScanNumeral(nd, s2).value;
    Capture(s[..ScanNumeral(nd, s).value], s1[..ScanNumeral(nd, s1).value], s2[..n], ScanPatch(nd, s2).value.1,
      EndOf(s2[n..]))
  }

  // The three scans of a text that parses.
  lemma ParsedScans(nd: Digits, s: string)
    requires Parse(nd, s).Ok?
    ensures ScanPart(nd, s).Some? && ScanPart(nd, ScanPart(nd, s).value.1).Some?
    ensures ScanPatch(nd, ScanPart(nd, ScanPart(nd, s).value.1).value.1).Some?
    ensures var major := ScanPart(nd, s).value;
            var minor := ScanPart(nd, major.1).value;
            var patch := ScanPatch(nd, minor.1).value;
            Parse(nd, s).value == SemVer(major.0, minor.0, patch.0, patch.1)
  {
  }

  // Every text that parses matches.
  lemma ParsedTextMatches(nd: Digits, s: string)
    requires Parse(nd, s).Ok?
    ensures var c := CaptureOf(nd, s); Proper(nd, c) && s == Text(c) && Parse(nd, s).value == Captured(nd, c)
  {
    ParsedScans(nd, s);
    PartSplits(nd, s);
    PartSplits(nd, ScanPart(nd, s).value.1);
    PatchSplits(nd, ScanPart(nd, ScanPart(nd, s).value.1).value.1);
  }

  // ---- Round trips ----

  predicate Ascii(s: string) {
    forall k | 0 <= k < |s| :: s[k] as int < 128
  }

  lemma {:induction false} DecimalIsDigits(n: nat)
    ensures Decimal(n) != "" && forall k | 0 <= k < |Decimal(n)| :: '0' <= Decimal(n)[k] <= '9'
    ensures n > 0 ==> '1' <= Decimal(n)[0] <= '9'
  {
    if n >= 10 {
      DecimalIsDigits(n / 10);
    }
  }

  lemma ValueOfAppend(nd: Digits, init: string, d: nat)
    requires AllDigits(nd, init) && d < 10
    ensures AllDigits(nd, init + [Digit(d)]) && Value(nd, init + [Digit(d)]) == 10 * Value(nd, init) + d
  {
    var s := init + [Digit(d)];
    assert s[..|s| - 1] == init;
  }

  lemma {:induction false} ValueOfDecimal(nd: Digits, n: nat)
    ensures AllDigits(nd, Decimal(n)) && Value(nd, Decimal(n)) == n
  {
    if n < 10 {
      ValueOfAppend(nd, "", n);
      assert Decimal(n) == "" + [Digit(n)];
    } else {
      ValueOfDecimal(nd, n / 10);
      ValueOfAppend(nd, Decimal(n / 10), n % 10);
    }
  }

  lemma DecimalIsNumeral(nd: Digits, n: nat)
    ensures Numeral(nd, Decimal(n)) && Value(nd, Decimal(n)) == n && Ascii(Decimal(n))
    ensures forall k | 0 <= k < |Decimal(n)| :: '0' <= Decimal(n)[k] <= '9'
  {
    DecimalIsDigits(n);
    ValueOfDecimal(nd, n);
  }

  lemma LastDigit(q: nat, d: nat)
    requires d < 10
    ensures (10 * q + d) / 10 == q && (10 * q + d) % 10 == d
  {
  }

  // An ASCII numeral is the decimal form of its value: no leading zeros.
  lemma {:induction false} NumeralIsDecimal(nd: Digits, m: string)
    requires DigitTable(nd) && Numeral(nd, m) && Ascii(m)
    ensures Decimal(Value(nd, m)) == m
    ensures m != "0" ==> Value(nd, m) > 0
  {
    var last := |m| - 1;
    assert '0' <= m[last] <= '9';
    if last == 0 {
      assert m[..0] == [];
      assert m == [m[0]];
    } else {
      var init := m[..last];
      assert Numeral(nd, init) && Ascii(init) && init != "0";
      NumeralIsDecimal(nd, init);
      LastDigit(Value(nd, init), DigitValue(nd, m[last]));
      assert m == init + [m[last]];
    }
  }

  lemma StrIsConcat(v: SemVer)
    requires v.prerelease.Some? ==> v.prerelease.value != ""
    ensures Str(v) == Text(CaptureOfVersion(v))
  {
  }

  function CaptureOfVersion(v: SemVer): Capture {
    Capture(Print(v.major), Print(v.minor), Print(v.patch), v.prerelease, "")
  }

  predicate Printable(v: SemVer) {
    v.major >= 0 && v.minor >= 0 && v.patch >= 0 && (v.prerelease.Some? ==> Label(v.prerelease.value))
  }

  // Printing and parsing gives the version back exactly when its parts are non-negative and its
  // label, if any, is a non-empty text over the allowed characters.
  lemma ParseOfStr(nd: Digits, v: SemVer)
    requires DigitTable(nd)
    ensures Parse(nd, Str(v)) == Ok(v) <==> Printable(v)
  {
    if Printable(v) {
      DecimalIsNumeral(nd, v.major);
      DecimalIsNumeral(nd, v.minor);
      DecimalIsNumeral(nd, v.patch);
      StrIsConcat(v);
      MatchingTextParses(nd, CaptureOfVersion(v));
    }
    if Parse(nd, Str(v)) == Ok(v) {
      ParsedTextMatches(nd, Str(v));
    }
  }

  // ASCII, without a newline.
  predicate Plain(s: string) {
    forall k | 0 <= k < |s| :: (s[k] as int) < 128 && s[k] != '\n'
  }

  lemma PlainParts(x: string, y: string)
    ensures Plain(x + y) <==> Plain(x) && Plain(y)
  {
    if Plain(x + y) {
      assert forall k | 0 <= k < |x| :: x[k] == (x + y)[k];
      assert forall k | 0 <= k < |y| :: y[k] == (x + y)[|x| + k];
    }
  }

  // A matching text is plain when its numerals are and nothing follows its label.
  lemma PlainMatch(nd: Digits, c: Capture)
    requires Proper(nd, c)
    ensures Plain(Text(c)) <==> Plain(c.major) && Plain(c.minor) && Plain(c.patch) && c.end == ""
  {
    PlainParts(c.major + ".", c.minor + "." + (c.patch + Rest(c)));
    PlainParts(c.major, ".");
    PlainParts(c.minor + ".", c.patch + Rest(c));
    PlainParts(c.minor, ".");
    PlainParts(c.patch, Rest(c));
    PlainParts(Suffix(c.prerelease), c.end);
    assert !Plain("\n") by { assert "\n"[0] == '\n'; }
  }

  lemma PrintIsPlain(nd: Digits, n: nat)
    ensures Numeral(nd, Print(n)) && Plain(Print(n))
  {
    DecimalIsNumeral(nd, n);
  }

  lemma StrIsPlain(nd: Digits, v: SemVer)
    requires Printable(v)
    ensures Plain(Str(v))
  {
    StrIsConcat(v);
    PrintIsPlain(nd, v.major);
    PrintIsPlain(nd, v.minor);
    PrintIsPlain(nd, v.patch);
    PlainMatch(nd, CaptureOfVersion(v));
  }

  // Parsing and printing gives the text back exactly when it is ASCII and has no newline; an
  // accepted text can only have one at its end.
  lemma StrOfParse(nd: Digits, s: string)
    requires DigitTable(nd) && Parse(nd, s).Ok?
    ensures Str(Parse(nd, s).value) == s <==> Plain(s)
  {
    ParsedTextMatches(nd, s);
    var c := CaptureOf(nd, s);
    var v := Parse(nd, s).value;
    StrIsPlain(nd, v);
    StrIsConcat(v);
    if Plain(s) {
      PlainMatch(nd, c);
      NumeralIsDecimal(nd, c.major);
      NumeralIsDecimal(nd, c.minor);
      NumeralIsDecimal(nd, c.patch);
    }
  }
}
