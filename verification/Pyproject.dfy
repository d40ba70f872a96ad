/** Reading and replacing the `version` field of a pyproject text.

    The expression `^(version\s*=\s*")[^"]+(")` in multi-line mode, applied from left to right: a
    match starts at the beginning of a line, and the search goes on behind its closing quote. The
    first group ends at an opening quote and the last is the closing one, so a text is cut into the
    values between them and everything else. */
module Pyproject {
  import opened Messages
  import opened Version
  import opened SemVerStandard

  // `\s`
  predicate IsSpace(c: char) {
    '\t' <= c <= '\r' || '\U{1C}' <= c <= ' ' || c == '\U{85}' || c == '\U{A0}' || c == '\U{1680}'
    || '\U{2000}' <= c <= '\U{200A}' || c == '\U{2028}' || c == '\U{2029}' || c == '\U{202F}' || c == '\U{205F}'
    || c == '\U{3000}'
  }

  function SpaceRun(s: string): (n: nat)
    ensures n <= |s|
  {
    if s == "" || !IsSpace(s[0]) then 0 else 1 + SpaceRun(s[1..])
  }

  const KEY := "version"

  // `\s*c`: the number of characters it takes at the start of s.
  function Skip(s: string, c: char): (r: Option<nat>)
    ensures r.Some? ==> 0 < r.value <= |s| && s[r.value - 1] == c
  {
    var n := SpaceRun(s);
    if n < |s| && s[n] == c then Some(n + 1) else None
  }

  // The length of `version\s*=\s*"` at the start of s.
  function HeaderLength(s: string): (r: Option<nat>)
    ensures r.Some? ==> |KEY| < r.value <= |s|
  {
    if !(KEY <= s) then None
    else
      var a := Skip(s[|KEY|..], '=');
      if a.None? then None
      else
        var b := Skip(s[|KEY| + a.value..], '"');
        if b.None? then None else Some(|KEY| + a.value + b.value)
  }

  // The number of characters before the first quote.
  function QuoteAt(s: string): (r: Option<nat>)
    ensures r.Some? ==> r.value < |s| && s[r.value] == '"'
  {
    if s == "" then None
    else if s[0] == '"' then Some(0)
    else
      match QuoteAt(s[1..])
      case None => None
      case Some(n) => Some(n + 1)
  }

  // A match: the lengths of its first group and of its value.
  datatype Match = Match(header: nat, value: nat)

  // The match at the start of s.
  function MatchAt(s: string): (r: Option<Match>)
    ensures r.Some? ==> r.value.header > 0 && r.value.value > 0 && r.value.header + r.value.value < |s|
  {
    var h := HeaderLength(s);
    if h.None? then None
    else
      var n := QuoteAt(s[h.value..]);
      if n.None? || n.value == 0 then None else Some(Match(h.value, n.value))
  }

  // The text cut at its matches: `gap` runs up to and includes an opening quote, and what follows
  // a value starts with its closing quote.
  datatype Pieces = End(tail: string) | Field(gap: string, value: string, rest: Pieces)

  function Prepend(c: char, p: Pieces): Pieces {
    match p
    case End(tail) => End([c] + tail)
    case Field(gap, value, rest) => Field([c] + gap, value, rest)
  }

  // `bol`: s stands at the beginning of a line.
  function Cut(s: string, bol: bool): Pieces
    decreases |s|
  {
    if s == "" then End("")
    else if bol && MatchAt(s).Some? then
      var Match(h, n) := MatchAt(s).value;
      Field(s[..h], s[h..h + n], Cut(s[h + n..], false))
    else Prepend(s[0], Cut(s[1..], s[0] == '\n'))
  }

  function Glue(p: Pieces): string {
    match p
    case End(tail) => tail
    case Field(gap, value, rest) => gap + value + Glue(rest)
  }

  function Replace(p: Pieces, v: string): Pieces {
    match p
    case End(tail) => p
    case Field(gap, value, rest) => Field(gap, v, Replace(rest, v))
  }

  function Gaps(p: Pieces): seq<string> {
    match p
    case End(tail) => [tail]
    case Field(gap, value, rest) => [gap] + Gaps(rest)
  }

  function Values(p: Pieces): seq<string> {
    match p
    case End(tail) => []
    case Field(gap, value, rest) => [value] + Values(rest)
  }

  function Read(content: string): Result<string, VersionError> {
    match Cut(content, true)
    case End(_) => Err(NoVersionField)
    case Field(_, value, _) => Ok(value)
  }

  // The template of `subn` puts a backslash-free v between the two groups as it is.
  function Write(content: string, v: string): Result<string, VersionError>
    requires '\\' !in v
  {
    var p := Cut(content, true);
    if p.End? then Err(NoVersionField) else Ok(Glue(Replace(p, v)))
  }

  // A replacement that leaves a value behind.
  predicate Acceptable(v: string) {
    v != "" && '"' !in v
  }

  function PartOf(name: string): Option<BumpPart> {
    if name == "major" then Some(Major)
    else if name == "minor" then Some(Minor)
    else if name == "patch" then Some(Patch)
    else None
  }

  // A bumped version prints as digits and dots.
  lemma BumpPrintsPlainly(nd: Digits, v: SemVer, part: BumpPart)
    requires Printable(v)
    ensures Printable(Bump(v, part)) && Acceptable(Str(Bump(v, part))) && '\\' !in Str(Bump(v, part))
  {
    var b := Bump(v, part);
    DecimalIsNumeral(nd, b.major);
    DecimalIsNumeral(nd, b.minor);
    DecimalIsNumeral(nd, b.patch);
    NoneOf(Decimal(b.major));
    NoneOf(Decimal(b.minor));
    NoneOf(Decimal(b.patch));
  }

  lemma NoneOf(s: string)
    requires forall k | 0 <= k < |s| :: '0' <= s[k] <= '9'
    ensures '"' !in s && '\\' !in s
  {
  }

  function BumpedText(nd: Digits, v: SemVer, part: BumpPart): (text: string)
    requires Printable(v)
    ensures Acceptable(text) && '\\' !in text
  {
    BumpPrintsPlainly(nd, v, part);
    Str(Bump(v, part))
  }

  // The new text and the returned version. Nothing is written when a step before it fails.
  function BumpInPyproject(nd: Digits, content: string, partName: string): Result<(string, string), VersionError> {
    var current := Read(content);
    if current.Err? then Err(current.error)
    else
      var parsed := Parse(nd, current.value);
      if parsed.Err? then Err(parsed.error)
      else
        var part := PartOf(partName);
        if part.None? then Err(InvalidPart(partName))
        else
          var v := BumpedText(nd, parsed.value, part.value);
          var written := Write(content, v);
          if written.Err? then Err(written.error) else Ok((written.value, v))
  }

  // ---- Headers and quotes are local ----

  lemma {:induction false} SpaceRunFacts(s: string)
    ensures forall k | 0 <= k < SpaceRun(s) :: IsSpace(s[k])
    ensures SpaceRun(s) < |s| ==> !IsSpace(s[SpaceRun(s)])
  {
    if s == "" || !IsSpace(s[0]) {
    } else {
      SpaceRunFacts(s[1..]);
      assert forall k | 1 <= k < |s| :: s[k] == s[1..][k - 1];
    }
  }

  lemma SkipFacts(s: string, c: char)
    requires Skip(s, c).Some?
    ensures forall k | 0 <= k < Skip(s, c).value - 1 :: IsSpace(s[k])
  {
    SpaceRunFacts(s);
  }

  lemma {:induction false} QuoteFacts(s: string)
    ensures QuoteAt(s).Some? ==> forall k | 0 <= k < QuoteAt(s).value :: s[k] != '"'
    ensures QuoteAt(s).None? ==> '"' !in s
  {
    if s == "" || s[0] == '"' {
    } else {
      QuoteFacts(s[1..]);
      assert s == [s[0]] + s[1..];
      assert forall k | 1 <= k < |s| :: s[k] == s[1..][k - 1];
    }
  }

  lemma {:induction false} SpaceRunStops(s: string, n: nat)
    requires n < |s| && !IsSpace(s[n]) && forall k | 0 <= k < n :: IsSpace(s[k])
    ensures SpaceRun(s) == n
  {
    if n > 0 {
      SpaceRunStops(s[1..], n - 1);
    }
  }

  lemma SkipIsLocal(s: string, t: string, c: char)
    requires Skip(s, c).Some? && !IsSpace(c)
    requires Skip(s, c).value <= |t| && forall k | 0 <= k < Skip(s, c).value :: t[k] == s[k]
    ensures Skip(t, c) == Skip(s, c)
  {
    SkipFacts(s, c);
    SpaceRunStops(t, Skip(s, c).value - 1);
  }

  lemma NoQuoteIn(s: string, from: nat, len: nat)
    requires from + len <= |s| && forall k | 0 <= k < len :: s[from..][k] != '"'
    ensures forall k | from <= k < from + len :: s[k] != '"'
  {
    var x := s[from..];
    assert forall k | from <= k < from + len :: s[k] == x[k - from];
  }

  // `\s*c` without a quote in it, except for c itself.
  lemma SkipHasNoQuote(s: string, from: nat, c: char)
    requires from <= |s| && Skip(s[from..], c).Some?
    ensures var to := from + Skip(s[from..], c).value - 1;
            to < |s| && s[to] == c && forall k | from <= k < to :: s[k] != '"'
  {
    var x := s[from..];
    var n := Skip(x, c).value;
    SkipFacts(x, c);
    assert s[from + (n - 1)] == x[n - 1];
    NoQuoteIn(s, from, n - 1);
  }

  lemma KeyHasNoQuote(s: string)
    requires KEY <= s
    ensures forall k | 0 <= k < |KEY| :: s[k] != '"'
  {
    assert forall k | 0 <= k < |KEY| :: s[k] == KEY[k] && KEY[k] != '"';
  }

  // A header ends at the first quote.
  lemma HeaderEndsAtQuote(s: string)
    requires HeaderLength(s).Some?
    ensures QuoteAt(s) == Some(HeaderLength(s).value - 1)
  {
    var a := Skip(s[|KEY|..], '=').value;
    KeyHasNoQuote(s);
    SkipHasNoQuote(s, |KEY|, '=');
    SkipHasNoQuote(s, |KEY| + a, '"');
    FirstQuote(s, HeaderLength(s).value - 1);
  }

  lemma FirstQuote(s: string, n: nat)
    requires n < |s| && s[n] == '"' && forall k | 0 <= k < n :: s[k] != '"'
    ensures QuoteAt(s) == Some(n)
  {
    QuoteFacts(s);
    assert s[n] in s;
  }

  lemma SkipAtIsLocal(s: string, t: string, from: nat, c: char)
    requires from <= |s| && Skip(s[from..], c).Some? && !IsSpace(c)
    requires from + Skip(s[from..], c).value <= |t|
    requires forall k | 0 <= k < from + Skip(s[from..], c).value :: t[k] == s[k]
    ensures Skip(t[from..], c) == Skip(s[from..], c)
  {
    var x, y := s[from..], t[from..];
    forall k | 0 <= k < Skip(x, c).value ensures y[k] == x[k] {
      assert t[from + k] == s[from + k];
    }
    SkipIsLocal(x, y, c);
  }

  // Whether a header stands at the start depends on nothing behind it.
  lemma HeaderIsLocal(s: string, t: string)
    requires HeaderLength(s).Some? && HeaderLength(s).value <= |t|
    requires forall k | 0 <= k < HeaderLength(s).value :: t[k] == s[k]
    ensures HeaderLength(t) == HeaderLength(s)
  {
    var a := Skip(s[|KEY|..], '=').value;
    assert KEY <= t by { assert forall k | 0 <= k < |KEY| :: t[k] == KEY[k]; }
    SkipAtIsLocal(s, t, |KEY|, '=');
    SkipAtIsLocal(s, t, |KEY| + a, '"');
  }

  // ---- Cutting ----

  lemma MatchBounds(s: string)
    requires MatchAt(s).Some?
    ensures var Match(h, n) := MatchAt(s).value;
            && HeaderLength(s) == Some(h) && s[h - 1] == '"' && s[h + n] == '"'
            && forall k | h <= k < h + n :: s[k] != '"'
  {
    HeaderEndsAtQuote(s);
    var Match(h, n) := MatchAt(s).value;
    var rest := s[h..];
    assert QuoteAt(rest) == Some(n);
    QuoteFacts(rest);
    assert s[h + n] == rest[n];
    forall k | h <= k < h + n ensures s[k] != '"' {
      assert s[k] == rest[k - h];
    }
  }

  // A header, a non-empty quote-free value and a quote are a match.
  lemma MatchFrom(s: string, h: nat, n: nat)
    requires HeaderLength(s) == Some(h) && 0 < n && h + n < |s| && s[h + n] == '"'
    requires forall k | h <= k < h + n :: s[k] != '"'
    ensures MatchAt(s) == Some(Match(h, n))
  {
    FirstQuote(s[h..], n);
  }

  // Values are quote-free, non-empty, and stand between quotes.
  ghost predicate WellCut(p: Pieces) {
    match p
    case End(tail) => true
    case Field(gap, value, rest) =>
      && gap != "" && gap[|gap| - 1] == '"' && Acceptable(value)
      && Glue(rest) != "" && Glue(rest)[0] == '"' && WellCut(rest)
  }

  lemma PrependFacts(c: char, p: Pieces, v: string)
    ensures Glue(Prepend(c, p)) == [c] + Glue(p)
    ensures Replace(Prepend(c, p), v) == Prepend(c, Replace(p, v))
    ensures WellCut(p) ==> WellCut(Prepend(c, p))
  {
    if p.Field? {
      assert [c] + (p.gap + p.value + Glue(p.rest)) == ([c] + p.gap) + p.value + Glue(p.rest);
    }
  }

  lemma Three(s: string, h: nat, n: nat)
    requires h + n <= |s|
    ensures s[..h] + s[h..h + n] + s[h + n..] == s
  {
  }

  lemma FieldIsWellCut(s: string, h: nat, n: nat, rest: Pieces, p: Pieces)
    requires MatchAt(s) == Some(Match(h, n)) && Glue(rest) == s[h + n..] && WellCut(rest)
    requires p == Field(s[..h], s[h..h + n], rest)
    ensures Glue(p) == s && WellCut(p)
  {
    MatchBounds(s);
    Three(s, h, n);
    var value := s[h..h + n];
    assert forall k | 0 <= k < n :: value[k] == s[h + k];
  }

  lemma CutAtMatch(s: string, h: nat, n: nat)
    requires MatchAt(s) == Some(Match(h, n))
    ensures Cut(s, true) == Field(s[..h], s[h..h + n], Cut(s[h + n..], false))
  {
  }

  lemma CutElsewhere(s: string, bol: bool)
    requires s != "" && (!bol || MatchAt(s).None?)
    ensures Cut(s, bol) == Prepend(s[0], Cut(s[1..], s[0] == '\n'))
  {
  }

  lemma GlueAtMatch(s: string, h: nat, n: nat)
    requires MatchAt(s) == Some(Match(h, n))
    requires Glue(Cut(s[h + n..], false)) == s[h + n..] && WellCut(Cut(s[h + n..], false))
    ensures Glue(Cut(s, true)) == s && WellCut(Cut(s, true))
  {
    CutAtMatch(s, h, n);
    FieldIsWellCut(s, h, n, Cut(s[h + n..], false), Cut(s, true));
  }

  lemma GlueElsewhere(s: string, bol: bool)
    requires s != "" && (!bol || MatchAt(s).None?)
    requires Glue(Cut(s[1..], s[0] == '\n')) == s[1..] && WellCut(Cut(s[1..], s[0] == '\n'))
    ensures Glue(Cut(s, bol)) == s && WellCut(Cut(s, bol))
  {
    CutElsewhere(s, bol);
    PrependFacts(s[0], Cut(s[1..], s[0] == '\n'), "");
    assert s == [s[0]] + s[1..];
  }

  lemma {:induction false} GlueOfCut(s: string, bol: bool)
    ensures Glue(Cut(s, bol)) == s && WellCut(Cut(s, bol))
    decreases |s|
  {
    if s == "" {
    } else if bol && MatchAt(s).Some? {
      var Match(h, n) := MatchAt(s).value;
      GlueOfCut(s[h + n..], false);
      GlueAtMatch(s, h, n);
    } else {
      GlueOfCut(s[1..], s[0] == '\n');
      GlueElsewhere(s, bol);
    }
  }

  // Replacing values changes nothing up to the first value.
  lemma ReplacedStart(p: Pieces, v: string)
    requires WellCut(p)
    ensures Glue(Replace(p, v)) == "" <==> Glue(p) == ""
    ensures Glue(p) != "" ==> Glue(Replace(p, v))[0] == Glue(p)[0]
    ensures p.Field? ==>
              && |p.gap| <= |Glue(Replace(p, v))| && |p.gap| + |p.value| < |Glue(p)|
              && (forall k | 0 <= k < |p.gap| :: Glue(Replace(p, v))[k] == p.gap[k] && Glue(p)[k] == p.gap[k])
              && (forall k | |p.gap| <= k < |p.gap| + |p.value| :: Glue(p)[k] == p.value[k - |p.gap|])
              && Glue(p)[|p.gap| + |p.value|] == '"'
  {
  }

  // t has a match that ends its header at h; a quote at g - 1 cannot come before that.
  lemma HeaderFits(t: string, h: nat, m: nat, g: nat)
    requires MatchAt(t) == Some(Match(h, m)) && 0 < g <= |t| && t[g - 1] == '"'
    ensures HeaderLength(t) == Some(h) && h <= g && t[h - 1] == '"' && h + m < |t|
    ensures h < g ==> h + m <= g - 1
    ensures t[h + m] == '"' && forall k | h <= k < h + m :: t[k] != '"'
  {
    MatchBounds(t);
    HeaderEndsAtQuote(t);
    QuoteFacts(t);
  }

  // s and t agree up to an opening quote at g - 1, behind which s has a value: a match of t at its
  // start is one of s, or ends at that very quote.
  lemma MatchTransfers(s: string, t: string, g: nat, n: nat)
    requires 0 < g <= |t| && g + n < |s| && n > 0 && s[g - 1] == '"' && s[g + n] == '"'
    requires forall k | 0 <= k < g :: t[k] == s[k]
    requires forall k | g <= k < g + n :: s[k] != '"'
    requires MatchAt(t).Some?
    ensures MatchAt(s).Some?
  {
    var Match(h, m) := MatchAt(t).value;
    HeaderFits(t, h, m, g);
    HeaderTransfers(s, t, h, g);
    if h < g {
      EarlierMatch(s, t, h, m);
    } else {
      MatchFrom(s, g, n);
    }
  }

  lemma HeaderTransfers(s: string, t: string, h: nat, g: nat)
    requires HeaderLength(t) == Some(h) && h <= g <= |t| && g <= |s|
    requires forall k | 0 <= k < g :: t[k] == s[k]
    ensures HeaderLength(s) == Some(h)
  {
    HeaderIsLocal(t, s);
  }

  lemma EarlierMatch(s: string, t: string, h: nat, m: nat)
    requires HeaderLength(s) == Some(h) && 0 < m && h + m < |t| && h + m < |s|
    requires forall k | h <= k <= h + m :: t[k] == s[k]
    requires t[h + m] == '"' && forall k | h <= k < h + m :: t[k] != '"'
    ensures MatchAt(s) == Some(Match(h, m))
  {
    MatchFrom(s, h, m);
  }

  // The texts before and after rewriting agree up to the first value, which stands between quotes.
  lemma FirstValueStands(p: Pieces, v: string)
    requires WellCut(p) && p.Field?
    ensures var s, t, g, n := Glue(p), Glue(Replace(p, v)), |p.gap|, |p.value|;
            && 0 < g <= |t| && g + n < |s| && n > 0 && s[g - 1] == '"' && s[g + n] == '"'
            && (forall k | 0 <= k < g :: t[k] == s[k])
            && (forall k | g <= k < g + n :: s[k] != '"')
  {
    ReplacedStart(p, v);
  }

  // Rewriting values creates no match before the first one: such a match was there already.
  lemma MatchWasThere(p: Pieces, v: string)
    requires WellCut(p) && p.Field? && MatchAt(Glue(Replace(p, v))).Some?
    ensures MatchAt(Glue(p)).Some?
  {
    FirstValueStands(p, v);
    MatchTransfers(Glue(p), Glue(Replace(p, v)), |p.gap|, |p.value|);
  }

  lemma HeaderStays(s: string, h: nat, behind: string)
    requires HeaderLength(s) == Some(h)
    ensures HeaderLength(s[..h] + behind) == Some(h)
  {
    HeaderIsLocal(s, s[..h] + behind);
  }

  lemma ValueMatches(header: string, v: string, tail: string)
    requires HeaderLength(header + v + tail) == Some(|header|)
    requires Acceptable(v) && tail != "" && tail[0] == '"'
    ensures MatchAt(header + v + tail) == Some(Match(|header|, |v|))
  {
    var t := header + v + tail;
    assert forall k | |header| <= k < |header| + |v| :: t[k] == v[k - |header|];
    assert t[|header| + |v|] == tail[0];
    MatchFrom(t, |header|, |v|);
  }

  // A header with another value, and anything that starts with a quote behind it.
  lemma RematchWith(s: string, h: nat, v: string, tail: string)
    requires HeaderLength(s) == Some(h) && Acceptable(v) && tail != "" && tail[0] == '"'
    ensures MatchAt(s[..h] + v + tail) == Some(Match(h, |v|))
  {
    HeaderStays(s, h, v + tail);
    assert s[..h] + v + tail == s[..h] + (v + tail);
    ValueMatches(s[..h], v, tail);
  }

  lemma CutOfField(s: string, v: string, h: nat, n: nat, rest: Pieces)
    requires MatchAt(s) == Some(Match(h, n)) && Acceptable(v)
    requires Glue(rest) != "" && Glue(rest)[0] == '"' && Cut(Glue(rest), false) == rest
    ensures Cut(s[..h] + v + Glue(rest), true) == Field(s[..h], v, rest)
  {
    var t := s[..h] + v + Glue(rest);
    RematchWith(s, h, v, Glue(rest));
    assert t[..h] == s[..h] && t[h..h + |v|] == v && t[h + |v|..] == Glue(rest);
  }

  lemma ReplacedFieldIsCut(s: string, v: string, h: nat, n: nat, rest: Pieces, p: Pieces)
    requires MatchAt(s) == Some(Match(h, n)) && Acceptable(v)
    requires Glue(rest) == s[h + n..] && WellCut(rest)
    requires Cut(Glue(Replace(rest, v)), false) == Replace(rest, v)
    requires p == Field(s[..h], s[h..h + n], rest)
    ensures Cut(Glue(Replace(p, v)), true) == Replace(p, v)
  {
    assert Glue(rest) != "" && Glue(rest)[0] == '"' by { MatchBounds(s); }
    ReplacedStart(rest, v);
    CutOfField(s, v, h, n, Replace(rest, v));
  }

  // Rewriting neither creates nor destroys matches.
  lemma {:induction false} CutOfReplaced(s: string, bol: bool, v: string)
    requires Acceptable(v)
    ensures Cut(Glue(Replace(Cut(s, bol), v)), bol) == Replace(Cut(s, bol), v)
    decreases |s|, 1
  {
    if s == "" {
    } else if bol && MatchAt(s).Some? {
      var Match(h, n) := MatchAt(s).value;
      var tail := s[h + n..];
      CutOfReplaced(tail, false, v);
      GlueOfCut(tail, false);
      CutAtMatch(s, h, n);
      ReplacedFieldIsCut(s, v, h, n, Cut(tail, false), Cut(s, true));
    } else {
      CutOfReplacedTail(s, bol, v);
    }
  }

  lemma {:induction false} CutOfReplacedTail(s: string, bol: bool, v: string)
    requires Acceptable(v) && s != "" && (!bol || MatchAt(s).None?)
    ensures Cut(Glue(Replace(Cut(s, bol), v)), bol) == Replace(Cut(s, bol), v)
    decreases |s|, 0
  {
    var newline := s[0] == '\n';
    var p := Cut(s[1..], newline);
    CutOfReplaced(s[1..], newline, v);
    GlueOfCut(s, bol);
    CutElsewhere(s, bol);
    PrependFacts(s[0], p, v);
    PrependFacts(s[0], Replace(p, v), v);
    var t := Glue(Replace(Cut(s, bol), v));
    assert t[0] == s[0] && t[1..] == Glue(Replace(p, v));
    if bol && p.Field? && MatchAt(t).Some? {
      MatchWasThere(Cut(s, bol), v);
    }
  }
}
