/** `parse_version` and `bump` against Semantic Versioning 2.0.0, sections 2, 9 and 11. */
module SemVerStandard {
  import opened Messages
  import opened Version

  // ---- Section 9: dot-separated identifiers ----

  function Split(p: string): (ids: seq<string>)
    ensures ids != []
  {
    if p == "" then [""]
    else if p[0] == '.' then [""] + Split(p[1..])
    else var rest := Split(p[1..]); [[p[0]] + rest[0]] + rest[1..]
  }

  function Join(ids: seq<string>): string {
    if ids == [] then "" else if |ids| == 1 then ids[0] else ids[0] + "." + Join(ids[1..])
  }

  predicate AllNumeric(s: string) {
    forall k | 0 <= k < |s| :: '0' <= s[k] <= '9'
  }

  // Section 2: a number without leading zeros.
  predicate NumericIdentifier(s: string) {
    s != "" && AllNumeric(s) && (s[0] == '0' ==> |s| == 1)
  }

  // ASCII letters, digits and the hyphen.
  predicate IdentifierChar(c: char) {
    || 'a' <= c <= 'z'
    || 'A' <= c <= 'Z'
    || '0' <= c <= '9'
    || c == '-'
  }

  // Section 9: non-empty, over those characters, and without leading zeros when numeric.
  predicate Identifier(id: string) {
    && id != "" && (forall k | 0 <= k < |id| :: IdentifierChar(id[k]))
    && (AllNumeric(id) ==> NumericIdentifier(id))
  }

  predicate Identifiers(ids: seq<string>) {
    forall k | 0 <= k < |ids| :: Identifier(ids[k])
  }

  lemma IdentifiersTail(ids: seq<string>)
    requires ids != [] && Identifiers(ids)
    ensures Identifiers(ids[1..])
  {
    var rest := ids[1..];
    forall k | 0 <= k < |rest| ensures Identifier(rest[k]) {
      assert rest[k] == ids[k + 1];
    }
  }

  lemma {:induction false} SplitDotFree(id: string, rest: string)
    requires '.' !in id
    ensures Split(id + "." + rest) == [id] + Split(rest)
    ensures Split(id) == [id]
  {
    if id == "" {
      assert (id + "." + rest)[1..] == rest;
    } else {
      assert (id + "." + rest)[1..] == id[1..] + "." + rest;
      assert id == [id[0]] + id[1..];
      SplitDotFree(id[1..], rest);
    }
  }

  lemma {:induction false} SplitOfJoin(ids: seq<string>)
    requires ids != [] && Identifiers(ids)
    ensures Split(Join(ids)) == ids
  {
    assert Identifier(ids[0]);
    assert '.' !in ids[0];
    if |ids| == 1 {
      SplitDotFree(ids[0], "");
      assert ids == [ids[0]];
    } else {
      var rest := ids[1..];
      IdentifiersTail(ids);
      SplitOfJoin(rest);
      SplitDotFree(ids[0], Join(rest));
      assert ids == [ids[0]] + rest;
    }
  }

  lemma {:induction false} JoinOfSplit(p: string)
    ensures Join(Split(p)) == p
  {
    if p != "" {
      JoinOfSplit(p[1..]);
      var rest := Split(p[1..]);
      if p[0] != '.' {
        assert ([[p[0]] + rest[0]] + rest[1..])[1..] == rest[1..];
      } else {
        assert ([""] + rest)[1..] == rest;
      }
      assert p == [p[0]] + p[1..];
    }
  }

  lemma {:induction false} JoinIsLabel(ids: seq<string>)
    requires ids != [] && Identifiers(ids)
    ensures Label(Join(ids))
  {
    assert Identifier(ids[0]);
    if |ids| > 1 {
      IdentifiersTail(ids);
      JoinIsLabel(ids[1..]);
    }
  }

  // ---- Sections 2 and 9: the texts that are versions, build metadata aside ----

  const ASCII_DIGITS: Digits := map[]

  datatype Standard = Standard(major: string, minor: string, patch: string, ids: seq<string>)

  predicate Valid(v: Standard) {
    && NumericIdentifier(v.major) && NumericIdentifier(v.minor) && NumericIdentifier(v.patch)
    && Identifiers(v.ids)
  }

  // X.Y.Z, and the identifiers behind a hyphen if there are any.
  function StandardText(v: Standard): string {
    v.major + "." + v.minor + "." + v.patch + (if v.ids == [] then "" else "-" + Join(v.ids))
  }

  function CaptureOfStandard(v: Standard): Capture {
    Capture(v.major, v.minor, v.patch, if v.ids == [] then None else Some(Join(v.ids)), "")
  }

  ghost predicate IsStandard(s: string) {
    exists v :: Valid(v) && s == StandardText(v)
  }

  lemma StandardTextIsText(v: Standard)
    ensures StandardText(v) == Text(CaptureOfStandard(v))
  {
    var c := CaptureOfStandard(v);
    assert Rest(c) == if v.ids == [] then "" else "-" + Join(v.ids);
    TextIsCore(c);
  }

  lemma NumericIsNumeral(m: string)
    ensures NumericIdentifier(m) <==> Numeral(ASCII_DIGITS, m)
  {
    if NumericIdentifier(m) && m[0] == '0' { assert m == "0"; }
  }

  lemma NumeralInAnyTable(nd: Digits, m: string)
    requires DigitTable(nd)
    ensures NumericIdentifier(m) <==> Numeral(nd, m) && Plain(m)
  {
    NumericIsNumeral(m);
    if Numeral(nd, m) && Plain(m) {
      assert forall k | 0 <= k < |m| :: IsDigit(nd, m[k]) && (m[k] as int) < 128;
    }
  }

  lemma StandardIsProper(nd: Digits, v: Standard)
    requires DigitTable(nd) && Valid(v)
    ensures Proper(nd, CaptureOfStandard(v)) && Plain(Text(CaptureOfStandard(v)))
  {
    NumeralInAnyTable(nd, v.major);
    NumeralInAnyTable(nd, v.minor);
    NumeralInAnyTable(nd, v.patch);
    if v.ids != [] { JoinIsLabel(v.ids); }
    PlainMatch(nd, CaptureOfStandard(v));
  }

  // Every version of the standard without build metadata is accepted.
  lemma StandardIsAccepted(nd: Digits, s: string)
    requires DigitTable(nd) && IsStandard(s)
    ensures Parse(nd, s).Ok?
  {
    var v :| Valid(v) && s == StandardText(v);
    StandardTextIsText(v);
    StandardIsProper(nd, v);
    MatchingTextParses(nd, CaptureOfStandard(v));
  }

  // ---- The converse ----

  function FirstDash(s: string): (n: nat)
    ensures n <= |s| && '-' !in s[..n] && (n < |s| ==> s[n] == '-')
  {
    if s == "" || s[0] == '-' then 0 else 1 + FirstDash(s[1..])
  }

  // The label of a text, if it has a dash: what follows the first one, split at its dots.
  function LabelParts(s: string): seq<string> {
    if FirstDash(s) < |s| then Split(s[FirstDash(s) + 1..]) else []
  }

  lemma {:induction false} FirstDashOf(x: string, y: string)
    requires '-' !in x && (y == "" || y[0] == '-')
    ensures FirstDash(x + y) == |x|
  {
    if x == "" {
      assert x + y == y;
    } else {
      assert (x + y)[0] == x[0] && (x + y)[1..] == x[1..] + y;
      FirstDashOf(x[1..], y);
    }
  }

  lemma NumeralHasNoDash(nd: Digits, m: string)
    requires DigitTable(nd) && Numeral(nd, m)
    ensures '-' !in m
  {
    assert forall k | 0 <= k < |m| :: IsDigit(nd, m[k]);
  }

  function Core(c: Capture): string {
    c.major + "." + (c.minor + "." + c.patch)
  }

  lemma TextIsCore(c: Capture)
    requires c.end == ""
    ensures Text(c) == Core(c) + Suffix(c.prerelease)
  {
    assert Rest(c) == Suffix(c.prerelease);
    assert c.minor + "." + (c.patch + Rest(c)) == (c.minor + "." + c.patch) + Rest(c);
  }

  lemma CoreHasNoDash(nd: Digits, c: Capture)
    requires DigitTable(nd) && Proper(nd, c)
    ensures '-' !in Core(c)
  {
    NumeralHasNoDash(nd, c.major);
    NumeralHasNoDash(nd, c.minor);
    NumeralHasNoDash(nd, c.patch);
  }

  lemma LabelPartsOf(core: string, prerelease: Option<string>)
    requires '-' !in core
    ensures LabelParts(core + Suffix(prerelease)) == if prerelease.Some? then Split(prerelease.value) else []
  {
    FirstDashOf(core, Suffix(prerelease));
    if prerelease.Some? {
      assert (core + Suffix(prerelease))[|core| + 1..] == prerelease.value;
    }
  }

  // The numerals hold no dash, so the first one starts the label.
  lemma DashStartsLabel(nd: Digits, c: Capture)
    requires DigitTable(nd) && Proper(nd, c) && c.end == ""
    ensures LabelParts(Text(c)) == if c.prerelease.Some? then Split(c.prerelease.value) else []
  {
    CoreHasNoDash(nd, c);
    TextIsCore(c);
    LabelPartsOf(Core(c), c.prerelease);
  }

  lemma StandardLabel(v: Standard)
    requires Valid(v)
    ensures LabelParts(Text(CaptureOfStandard(v))) == v.ids
  {
    assert DigitTable(ASCII_DIGITS);
    StandardIsProper(ASCII_DIGITS, v);
    DashStartsLabel(ASCII_DIGITS, CaptureOfStandard(v));
    if v.ids != [] { SplitOfJoin(v.ids); }
  }

  lemma PlainMatchIsStandard(nd: Digits, c: Capture)
    requires DigitTable(nd) && Proper(nd, c) && Plain(Text(c))
    requires c.prerelease.Some? ==> Identifiers(Split(c.prerelease.value))
    ensures IsStandard(Text(c))
  {
    PlainMatch(nd, c);
    NumeralInAnyTable(nd, c.major);
    NumeralInAnyTable(nd, c.minor);
    NumeralInAnyTable(nd, c.patch);
    var v := Standard(c.major, c.minor, c.patch, if c.prerelease.Some? then Split(c.prerelease.value) else []);
    if c.prerelease.Some? { JoinOfSplit(c.prerelease.value); }
    assert CaptureOfStandard(v) == c;
    StandardTextIsText(v);
    assert Valid(v);
  }

  // The converse fails: an accepted text is a version of the standard exactly when it is plain and
  // the dot-separated parts of what follows its first dash, if it has one, are identifiers.
  lemma AcceptedIsStandardWhen(nd: Digits, s: string)
    requires DigitTable(nd) && Parse(nd, s).Ok?
    ensures IsStandard(s) <==> Plain(s) && Identifiers(LabelParts(s))
  {
    var c := CaptureOf(nd, s);
    ParsedTextMatches(nd, s);
    PlainMatch(nd, c);
    if Plain(s) {
      DashStartsLabel(nd, c);
      if Identifiers(LabelParts(s)) { PlainMatchIsStandard(nd, c); }
    }
    if IsStandard(s) {
      var v :| Valid(v) && s == StandardText(v);
      StandardTextIsText(v);
      StandardIsProper(nd, v);
      StandardLabel(v);
    }
  }

  const ZERO := "0"
  const ONE := "1"
  const LEADING_ZERO := "01"
  const EMPTY_IDENTIFIER := "a."
  const NEWLINE := "\n"

  lemma SmallNumerals(nd: Digits)
    ensures Numeral(nd, ONE) && Value(nd, ONE) == 1 && Plain(ONE)
    ensures Numeral(nd, ZERO) && Value(nd, ZERO) == 0 && Plain(ZERO)
  {
    assert ONE[..0] == "" && ZERO[..0] == "";
  }

  // "1.0.0" with a label and an end.
  function OneZeroZero(prerelease: Option<string>, end: string): string {
    Text(Capture(ONE, ZERO, ZERO, prerelease, end))
  }

  lemma OneZeroZeroIsAccepted(nd: Digits, prerelease: Option<string>, end: string)
    requires DigitTable(nd) && (prerelease.Some? ==> Label(prerelease.value)) && AtEnd(end)
    ensures Parse(nd, OneZeroZero(prerelease, end)).Ok?
    ensures IsStandard(OneZeroZero(prerelease, end)) ==>
              end == "" && (prerelease.Some? ==> Identifiers(Split(prerelease.value)))
  {
    var c := Capture(ONE, ZERO, ZERO, prerelease, end);
    SmallNumerals(nd);
    MatchingTextParses(nd, c);
    AcceptedIsStandardWhen(nd, Text(c));
    PlainMatch(nd, c);
    if end == "" { DashStartsLabel(nd, c); }
  }

  lemma LeadingZeroIsLoose()
    ensures Label(LEADING_ZERO) && !Identifiers(Split(LEADING_ZERO))
  {
    SplitDotFree(LEADING_ZERO, "");
    assert !Identifier(Split(LEADING_ZERO)[0]);
  }

  lemma EmptyIdentifierIsLoose()
    ensures Label(EMPTY_IDENTIFIER) && !Identifiers(Split(EMPTY_IDENTIFIER))
  {
    SplitDotFree("a", "");
    assert EMPTY_IDENTIFIER == "a" + "." + "";
    assert !Identifier(Split(EMPTY_IDENTIFIER)[1]);
  }

  // Accepted texts that are not versions: a label with a leading zero or an empty identifier ...
  lemma LooseLabelsAreAccepted(nd: Digits)
    requires DigitTable(nd)
    ensures Parse(nd, OneZeroZero(Some(LEADING_ZERO), "")).Ok? && !IsStandard(OneZeroZero(Some(LEADING_ZERO), ""))
    ensures Parse(nd, OneZeroZero(Some(EMPTY_IDENTIFIER), "")).Ok?
         && !IsStandard(OneZeroZero(Some(EMPTY_IDENTIFIER), ""))
  {
    LeadingZeroIsLoose();
    EmptyIdentifierIsLoose();
    OneZeroZeroIsAccepted(nd, Some(LEADING_ZERO), "");
    OneZeroZeroIsAccepted(nd, Some(EMPTY_IDENTIFIER), "");
  }

  // ... a newline at the end ...
  lemma NewlineIsAccepted(nd: Digits)
    requires DigitTable(nd)
    ensures Parse(nd, OneZeroZero(None, NEWLINE)).Ok? && !IsStandard(OneZeroZero(None, NEWLINE))
  {
    OneZeroZeroIsAccepted(nd, None, NEWLINE);
  }

  // ... and a digit beyond ASCII.
  lemma ForeignDigitIsAccepted(nd: Digits, c: char)
    requires DigitTable(nd) && c in nd
    ensures var s := Text(Capture(ONE + [c], ZERO, ZERO, None, "")); Parse(nd, s).Ok? && !IsStandard(s)
  {
    var m := Capture(ONE + [c], ZERO, ZERO, None, "");
    SmallNumerals(nd);
    MatchingTextParses(nd, m);
    PlainMatch(nd, m);
    assert !Plain(m.major) by { assert m.major[1] == c; }
    AcceptedIsStandardWhen(nd, Text(m));
  }

  // ---- What is accepted, among plain texts ----

  // X.Y.Z, and a label of one or more identifier characters and dots behind a hyphen if there is one.
  datatype Loose = Loose(major: string, minor: string, patch: string, pre: Option<string>)

  predicate LooseLabel(p: string) {
    p != "" && forall k | 0 <= k < |p| :: IdentifierChar(p[k]) || p[k] == '.'
  }

  predicate Tolerable(v: Loose) {
    && NumericIdentifier(v.major) && NumericIdentifier(v.minor) && NumericIdentifier(v.patch)
    && (v.pre.Some? ==> LooseLabel(v.pre.value))
  }

  function LooseText(v: Loose): string {
    v.major + "." + v.minor + "." + v.patch + (if v.pre.None? then "" else "-" + v.pre.value)
  }

  function CaptureOfLoose(v: Loose): Capture {
    Capture(v.major, v.minor, v.patch, v.pre, "")
  }

  lemma LooseTextIsText(v: Loose)
    ensures LooseText(v) == Text(CaptureOfLoose(v))
  {
    var c := CaptureOfLoose(v);
    assert Rest(c) == if v.pre.None? then "" else "-" + v.pre.value;
    TextIsCore(c);
  }

  lemma LooseIsProper(nd: Digits, v: Loose)
    requires DigitTable(nd)
    ensures Tolerable(v) <==> Proper(nd, CaptureOfLoose(v)) && Plain(v.major) && Plain(v.minor) && Plain(v.patch)
  {
    NumeralInAnyTable(nd, v.major);
    NumeralInAnyTable(nd, v.minor);
    NumeralInAnyTable(nd, v.patch);
  }

  // A plain text is accepted exactly if it has that form.
  lemma PlainTextIsAcceptedWhen(nd: Digits, s: string)
    requires DigitTable(nd) && Plain(s)
    ensures Parse(nd, s).Ok? <==> exists v :: Tolerable(v) && s == LooseText(v)
  {
    if v :| Tolerable(v) && s == LooseText(v) {
      LooseTextIsText(v);
      LooseIsProper(nd, v);
      MatchingTextParses(nd, CaptureOfLoose(v));
    }
    if Parse(nd, s).Ok? {
      var c := CaptureOf(nd, s);
      ParsedTextMatches(nd, s);
      PlainMatch(nd, c);
      var v := Loose(c.major, c.minor, c.patch, c.prerelease);
      LooseTextIsText(v);
      LooseIsProper(nd, v);
      assert Tolerable(v) && s == LooseText(v);
    }
  }

  // ---- Bumping ----

  function Bump(v: SemVer, part: BumpPart): SemVer {
    match part
    case Major => SemVer(v.major + 1, 0, 0, None)
    case Minor => SemVer(v.major, v.minor + 1, 0, None)
    case Patch => SemVer(v.major, v.minor, v.patch + 1, None)
  }

  // Section 11: by major, minor and patch.
  predicate CoreLess(a: SemVer, b: SemVer) {
    || a.major < b.major
    || (a.major == b.major && a.minor < b.minor)
    || (a.major == b.major && a.minor == b.minor && a.patch < b.patch)
  }

  predicate SameCore(a: SemVer, b: SemVer) {
    a.major == b.major && a.minor == b.minor && a.patch == b.patch
  }

  // Section 11, where b carries no label: a label makes a version lower than its release.
  predicate PrecedesRelease(a: SemVer, b: SemVer)
    requires b.prerelease.None?
  {
    CoreLess(a, b) || (SameCore(a, b) && a.prerelease.Some?)
  }

  predicate NonNegative(v: SemVer) {
    v.major >= 0 && v.minor >= 0 && v.patch >= 0
  }

  // The versions that agree with v down to the bumped part.
  predicate Agrees(x: SemVer, v: SemVer, part: BumpPart) {
    && NonNegative(x) && x.major == v.major
    && (part == Major || x.minor == v.minor)
    && (part == Patch ==> x.patch == v.patch)
  }

  ghost predicate AboveAll(b: SemVer, v: SemVer, part: BumpPart)
    requires b.prerelease.None?
  {
    forall x | Agrees(x, v, part) :: PrecedesRelease(x, b)
  }

  // The bumped version is the least release above every version that agrees with the old one down
  // to the bumped part; in particular it is above the old one.
  lemma BumpIsTheNextRelease(v: SemVer, part: BumpPart)
    requires NonNegative(v)
    ensures AboveAll(Bump(v, part), v, part) && PrecedesRelease(v, Bump(v, part))
    ensures forall b | NonNegative(b) && b.prerelease.None? && AboveAll(b, v, part) ::
              SameCore(Bump(v, part), b) || CoreLess(Bump(v, part), b)
  {
    forall b | NonNegative(b) && b.prerelease.None? && AboveAll(b, v, part)
      ensures SameCore(Bump(v, part), b) || CoreLess(Bump(v, part), b)
    {
      var x := match part
        case Major => SemVer(v.major, b.minor, b.patch, None)
        case Minor => SemVer(v.major, v.minor, b.patch, None)
        case Patch => SemVer(v.major, v.minor, v.patch, None);
      assert Agrees(x, v, part);
      assert PrecedesRelease(x, b);
    }
  }
}
