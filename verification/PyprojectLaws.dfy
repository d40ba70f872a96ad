/** The laws of reading and writing the version field, and the bump that uses both. */
module PyprojectLaws {
  import opened Messages
  import opened Version
  import opened SemVerStandard
  import opened Pyproject

  // ---- The expression ----

  // The white space characters of Unicode, and the four separators from U+001C on.
  predicate WhiteSpace(c: char) {
    var n := c as int;
    || n == 0x9 || n == 0xA || n == 0xB || n == 0xC || n == 0xD
    || n == 0x1C || n == 0x1D || n == 0x1E || n == 0x1F || n == 0x20 || n == 0x85 || n == 0xA0 || n == 0x1680
    || n == 0x2000 || n == 0x2001 || n == 0x2002 || n == 0x2003 || n == 0x2004 || n == 0x2005 || n == 0x2006
    || n == 0x2007 || n == 0x2008 || n == 0x2009 || n == 0x200A
    || n == 0x2028 || n == 0x2029 || n == 0x202F || n == 0x205F || n == 0x3000
  }

  lemma SpaceIsWhiteSpace(c: char)
    ensures IsSpace(c) <==> WhiteSpace(c)
  {
  }

  predicate AllWhite(s: string) {
    s == "" || (WhiteSpace(s[0]) && AllWhite(s[1..]))
  }

  lemma {:induction false} AllWhiteExactly(s: string)
    ensures AllWhite(s) <==> forall k | 0 <= k < |s| :: IsSpace(s[k])
  {
    if s != "" {
      SpaceIsWhiteSpace(s[0]);
      AllWhiteExactly(s[1..]);
      assert forall k | 1 <= k < |s| :: s[k] == s[1..][k - 1];
    }
  }

  // A match from q on: the word, white space, '=' at i, white space, a quote at j, a non-empty text
  // without quotes and a quote at e.
  ghost predicate ExpressionAt(s: string, q: nat, i: nat, j: nat, e: nat) {
    && q + 7 <= i < j && j + 1 < e < |s|
    && s[q..q + 7] == ['v', 'e', 'r', 's', 'i', 'o', 'n']
    && AllWhite(s[q + 7..i]) && s[i] == '=' && AllWhite(s[i + 1..j])
    && s[j] == '"' && '"' !in s[j + 1..e] && s[e] == '"'
  }

  ghost predicate Expression(s: string, i: nat, j: nat, e: nat) {
    ExpressionAt(s, 0, i, j, e)
  }

  // The same in the scanner's words.
  ghost predicate Scans(s: string, i: nat, j: nat, e: nat) {
    && |KEY| <= i < j && j + 1 < e < |s|
    && KEY <= s && s[i] == '=' && s[j] == '"' && s[e] == '"'
    && (forall k | |KEY| <= k < i :: IsSpace(s[k]))
    && (forall k | i < k < j :: IsSpace(s[k]))
    && (forall k | j < k < e :: s[k] != '"')
  }

  lemma WhiteBetween(s: string, from: nat, to: nat)
    requires from <= to <= |s|
    ensures AllWhite(s[from..to]) <==> forall k | from <= k < to :: IsSpace(s[k])
  {
    var x := s[from..to];
    AllWhiteExactly(x);
    assert forall k | from <= k < to :: s[k] == x[k - from];
  }

  lemma QuoteFreeBetween(s: string, from: nat, to: nat)
    requires from <= to <= |s|
    ensures '"' !in s[from..to] <==> forall k | from <= k < to :: s[k] != '"'
  {
    var x := s[from..to];
    assert forall k | from <= k < to :: s[k] == x[k - from];
  }

  lemma KeyStands(s: string)
    requires |s| >= 7
    ensures KEY <= s <==> s[0..7] == ['v', 'e', 'r', 's', 'i', 'o', 'n']
  {
    assert KEY == ['v', 'e', 'r', 's', 'i', 'o', 'n'];
    assert KEY <= s <==> s[0..7] == KEY;
  }

  lemma ScansIsExpression(s: string, i: nat, j: nat, e: nat)
    ensures Scans(s, i, j, e) <==> Expression(s, i, j, e)
  {
    if 7 <= i < j && j + 1 < e < |s| {
      KeyStands(s);
      WhiteBetween(s, 7, i);
      WhiteBetween(s, i + 1, j);
      QuoteFreeBetween(s, j + 1, e);
    }
  }

  lemma SkipTo(s: string, from: nat, to: nat, c: char)
    requires from <= to < |s| && s[to] == c && !IsSpace(c)
    requires forall k | from <= k < to :: IsSpace(s[k])
    ensures Skip(s[from..], c) == Some(to - from + 1)
  {
    SpaceRunStops(s[from..], to - from);
  }

  lemma HeaderOfSkips(s: string, i: nat, j: nat)
    requires |KEY| <= i < j < |s| && KEY <= s
    requires Skip(s[|KEY|..], '=') == Some(i - |KEY| + 1) && Skip(s[i + 1..], '"') == Some(j - i)
    ensures HeaderLength(s) == Some(j + 1)
  {
    assert |KEY| + (i - |KEY| + 1) == i + 1;
  }

  lemma HeaderOfExpression(s: string, i: nat, j: nat, e: nat)
    requires Scans(s, i, j, e)
    ensures HeaderLength(s) == Some(j + 1)
  {
    SkipTo(s, |KEY|, i, '=');
    SkipTo(s, i + 1, j, '"');
    HeaderOfSkips(s, i, j);
  }

  lemma ScanMatches(s: string, i: nat, j: nat, e: nat)
    requires Scans(s, i, j, e)
    ensures MatchAt(s) == Some(Match(j + 1, e - j - 1))
  {
    HeaderOfExpression(s, i, j, e);
    MatchFrom(s, j + 1, e - j - 1);
  }

  // Every text of the expression's form matches, in this way and no other.
  lemma ExpressionMatches(s: string, i: nat, j: nat, e: nat)
    requires Expression(s, i, j, e)
    ensures MatchAt(s) == Some(Match(j + 1, e - j - 1))
  {
    ScansIsExpression(s, i, j, e);
    ScanMatches(s, i, j, e);
  }

  lemma SkippedSpace(s: string, from: nat, c: char)
    requires from <= |s| && Skip(s[from..], c).Some?
    ensures var to := from + Skip(s[from..], c).value - 1;
            to < |s| && s[to] == c && forall k | from <= k < to :: IsSpace(s[k])
  {
    var x := s[from..];
    var n := Skip(x, c).value;
    SkipFacts(x, c);
    forall k | from <= k < from + n ensures s[k] == x[k - from] {
    }
  }

  lemma HeaderScans(s: string, h: nat) returns (i: nat)
    requires HeaderLength(s) == Some(h)
    ensures |KEY| <= i < h - 1 && h <= |s| && KEY <= s && s[i] == '=' && s[h - 1] == '"'
    ensures forall k | |KEY| <= k < i :: IsSpace(s[k])
    ensures forall k | i < k < h - 1 :: IsSpace(s[k])
  {
    var a := Skip(s[|KEY|..], '=').value;
    SkippedSpace(s, |KEY|, '=');
    SkippedSpace(s, |KEY| + a, '"');
    i := |KEY| + a - 1;
  }

  lemma MatchScans(s: string, h: nat, n: nat) returns (i: nat)
    requires MatchAt(s) == Some(Match(h, n))
    ensures h > 0 && Expression(s, i, h - 1, h + n)
  {
    MatchBounds(s);
    i := HeaderScans(s, h);
    ScansIsExpression(s, i, h - 1, h + n);
  }

  // And every match has that form.
  lemma MatchIsAnExpression(s: string)
    requires MatchAt(s).Some?
    ensures exists i: nat, j: nat, e: nat :: Expression(s, i, j, e) && MatchAt(s).value == Match(j + 1, e - j - 1)
  {
    var Match(h, n) := MatchAt(s).value;
    var i := MatchScans(s, h, n);
  }

  // ---- Replacing ----

  lemma {:induction false} ReplaceValues(p: Pieces, v: string)
    ensures Gaps(Replace(p, v)) == Gaps(p)
    ensures |Values(Replace(p, v))| == |Values(p)|
    ensures forall k | 0 <= k < |Values(p)| :: Values(Replace(p, v))[k] == v
  {
    if p.Field? {
      ReplaceValues(p.rest, v);
    }
  }

  lemma {:induction false} ReplaceTwice(p: Pieces, v: string, w: string)
    ensures Replace(Replace(p, v), w) == Replace(p, w)
  {
    if p.Field? {
      ReplaceTwice(p.rest, v, w);
    }
  }

  lemma {:induction false} ReplaceSame(p: Pieces, v: string)
    ensures Replace(p, v) == p <==> forall k | 0 <= k < |Values(p)| :: Values(p)[k] == v
  {
    if p.Field? {
      ReplaceSame(p.rest, v);
      assert Values(p) == [p.value] + Values(p.rest);
      if forall k | 0 <= k < |Values(p)| :: Values(p)[k] == v {
        assert forall k | 0 <= k < |Values(p.rest)| :: Values(p.rest)[k] == Values(p)[k + 1];
        assert Values(p)[0] == p.value;
      }
    }
  }

  // ---- The laws ----

  // Writing fails exactly when reading does.
  lemma WriteNeedsAField(content: string, v: string)
    requires '\\' !in v
    ensures Write(content, v).Ok? <==> Read(content).Ok?
    ensures Write(content, v).Err? ==> Write(content, v).error == Read(content).error
  {
  }

  // What was written is read back exactly when it is non-empty and free of quotes.
  lemma ReadOfWrite(content: string, v: string)
    requires Read(content).Ok? && '\\' !in v
    ensures Read(Write(content, v).value) == Ok(v) <==> Acceptable(v)
  {
    if Acceptable(v) {
      CutOfReplaced(content, true, v);
    } else {
      GlueOfCut(Write(content, v).value, true);
    }
  }

  // The last write wins.
  lemma WriteOfWrite(content: string, v: string, w: string)
    requires Read(content).Ok? && '\\' !in v && '\\' !in w && Acceptable(v)
    ensures Write(Write(content, v).value, w) == Write(content, w)
  {
    CutOfReplaced(content, true, v);
    ReplaceTwice(Cut(content, true), v, w);
  }

  // Writing keeps everything outside the values, and every value becomes the new one.
  lemma WriteChangesOnlyValues(content: string, v: string)
    requires Read(content).Ok? && '\\' !in v && Acceptable(v)
    ensures var after := Cut(Write(content, v).value, true);
            var before := Cut(content, true);
            && Glue(before) == content && Glue(after) == Write(content, v).value
            && Gaps(after) == Gaps(before) && |Values(after)| == |Values(before)|
            && forall k | 0 <= k < |Values(after)| :: Values(after)[k] == v
  {
    CutOfReplaced(content, true, v);
    GlueOfCut(content, true);
    ReplaceValues(Cut(content, true), v);
  }

  // Writing back what was read changes nothing exactly when all version fields agree.
  lemma WriteOfRead(content: string)
    requires Read(content).Ok? && '\\' !in Read(content).value
    ensures var values := Values(Cut(content, true));
            Write(content, Read(content).value) == Ok(content) <==>
              forall k | 0 <= k < |values| :: values[k] == values[0]
  {
    var p := Cut(content, true);
    GlueOfCut(content, true);
    assert Values(p)[0] == p.value;
    CutOfReplaced(content, true, p.value);
    ReplaceSame(p, p.value);
  }

  // ---- Bumping in the text ----

  // The text after a bump of version `was`.
  ghost predicate Bumped(nd: Digits, content: string, was: SemVer, part: BumpPart, text: string, v: string) {
    && Read(text) == Ok(v) && Gaps(Cut(text, true)) == Gaps(Cut(content, true))
    && Parse(nd, v) == Ok(Bump(was, part)) && Bump(was, part).prerelease.None?
    && PrecedesRelease(was, Bump(was, part))
  }

  // The new version and the text it is written to.
  lemma BumpedTextReadsBack(nd: Digits, content: string, was: SemVer, part: BumpPart, v: string, text: string)
    requires DigitTable(nd) && Read(content).Ok? && Printable(was)
    requires v == Str(Bump(was, part)) && '\\' !in v && Write(content, v) == Ok(text)
    ensures Bumped(nd, content, was, part, text, v)
  {
    BumpPrintsPlainly(nd, was, part);
    ReadOfWrite(content, v);
    WriteChangesOnlyValues(content, v);
    ParseOfStr(nd, Bump(was, part));
  }

  // A bump succeeds exactly when there is a field, its version parses and the part has a name.
  lemma BumpSucceedsWhen(nd: Digits, content: string, partName: string)
    ensures BumpInPyproject(nd, content, partName).Ok? <==>
              Read(content).Ok? && Parse(nd, Read(content).value).Ok? && PartOf(partName).Some?
  {
    if Read(content).Ok? && Parse(nd, Read(content).value).Ok? && PartOf(partName).Some? {
      var v := BumpedText(nd, Parse(nd, Read(content).value).value, PartOf(partName).value);
      WriteNeedsAField(content, v);
    }
  }

  // What a successful bump read, parsed and wrote.
  lemma BumpResult(nd: Digits, content: string, partName: string, text: string, v: string)
    returns (was: SemVer, part: BumpPart)
    requires BumpInPyproject(nd, content, partName) == Ok((text, v))
    ensures Read(content).Ok? && Parse(nd, Read(content).value) == Ok(was) && PartOf(partName) == Some(part)
    ensures Printable(was) && v == Str(Bump(was, part)) && '\\' !in v && Write(content, v) == Ok(text)
  {
    BumpSucceedsWhen(nd, content, partName);
    was, part := Parse(nd, Read(content).value).value, PartOf(partName).value;
    assert v == BumpedText(nd, was, part);
  }

  // After a bump, reading the new text gives the returned version, which parses to the bumped one: a
  // release, strictly above the old version; and nothing outside the values has changed.
  lemma BumpEndToEnd(nd: Digits, content: string, partName: string, text: string, v: string)
    requires DigitTable(nd) && BumpInPyproject(nd, content, partName) == Ok((text, v))
    ensures exists was, part :: Read(content).Ok? && Parse(nd, Read(content).value) == Ok(was)
              && PartOf(partName) == Some(part) && Bumped(nd, content, was, part, text, v)
  {
    var was, part := BumpResult(nd, content, partName, text, v);
    BumpedTextReadsBack(nd, content, was, part, v, text);
  }

  // v is returned, and read back from the text written, and parses to this version.
  ghost predicate BumpsTo(nd: Digits, content: string, partName: string, version: SemVer) {
    exists text, v ::
      BumpInPyproject(nd, content, partName) == Ok((text, v)) && Read(text) == Ok(v) && Parse(nd, v) == Ok(version)
  }

  lemma BumpLeadsTo(nd: Digits, content: string, partName: string, part: BumpPart)
    requires DigitTable(nd) && PartOf(partName) == Some(part)
    requires Read(content).Ok? && Parse(nd, Read(content).value).Ok?
    ensures BumpsTo(nd, content, partName, Bump(Parse(nd, Read(content).value).value, part))
  {
    BumpSucceedsWhen(nd, content, partName);
    var text, v := BumpInPyproject(nd, content, partName).value.0, BumpInPyproject(nd, content, partName).value.1;
    BumpEndToEnd(nd, content, partName, text, v);
  }

  lemma BumpWithoutPart(nd: Digits, content: string, name: string)
    requires Read(content).Ok? && Parse(nd, Read(content).value).Ok? && PartOf(name).None?
    ensures BumpInPyproject(nd, content, name) == Err(InvalidPart(name))
  {
  }

  // What each name asks for; there are three.
  lemma PartNamed(name: string)
    ensures name == "major" ==> PartOf(name) == Some(Major)
    ensures name == "minor" ==> PartOf(name) == Some(Minor)
    ensures name == "patch" ==> PartOf(name) == Some(Patch)
    ensures name != "major" && name != "minor" && name != "patch" ==> PartOf(name).None?
  {
  }

  lemma BumpIs(x: nat, y: nat, z: nat, prerelease: Option<string>)
    ensures Bump(SemVer(x, y, z, prerelease), Major) == SemVer(x + 1, 0, 0, None)
    ensures Bump(SemVer(x, y, z, prerelease), Minor) == SemVer(x, y + 1, 0, None)
    ensures Bump(SemVer(x, y, z, prerelease), Patch) == SemVer(x, y, z + 1, None)
  {
  }

  // With version x.y.z read, "major" leads to (x + 1).0.0, "minor" to x.(y + 1).0, "patch" to
  // x.y.(z + 1), all without a label; any other name is an error.
  lemma BumpByName(nd: Digits, content: string, name: string, x: nat, y: nat, z: nat, prerelease: Option<string>)
    requires DigitTable(nd) && Read(content).Ok?
    requires Parse(nd, Read(content).value) == Ok(SemVer(x, y, z, prerelease))
    ensures name == "major" ==> BumpsTo(nd, content, name, SemVer(x + 1, 0, 0, None))
    ensures name == "minor" ==> BumpsTo(nd, content, name, SemVer(x, y + 1, 0, None))
    ensures name == "patch" ==> BumpsTo(nd, content, name, SemVer(x, y, z + 1, None))
    ensures name != "major" && name != "minor" && name != "patch" ==>
              BumpInPyproject(nd, content, name) == Err(InvalidPart(name))
  {
    PartNamed(name);
    BumpIs(x, y, z, prerelease);
    if name == "major" {
      BumpLeadsTo(nd, content, name, Major);
    } else if name == "minor" {
      BumpLeadsTo(nd, content, name, Minor);
    } else if name == "patch" {
      BumpLeadsTo(nd, content, name, Patch);
    } else {
      BumpWithoutPart(nd, content, name);
    }
  }
}
