/** Which version fields of a text are found: from left to right, each at the beginning of a line,
    the search going on behind the value of the one before. */
module PyprojectSearch {
  import opened Messages
  import opened Version
  import opened Pyproject
  import opened PyprojectLaws

  predicate LineStart(s: string, q: nat) {
    q == 0 || (q <= |s| && s[q - 1] == '\n')
  }

  // A line of s starts at q with the expression, whose value is s[o..e].
  ghost predicate FieldAt(s: string, q: nat, o: nat, e: nat) {
    LineStart(s, q) && exists i: nat, j: nat :: j + 1 == o && ExpressionAt(s, q, i, j, e)
  }

  // x is s from b on.
  ghost predicate From(s: string, b: nat, x: string) {
    |s| == b + |x| && forall k | 0 <= k < |x| :: x[k] == s[b + k]
  }

  lemma SameSlice(s: string, b: nat, x: string, i: nat, j: nat)
    requires From(s, b, x) && i <= j <= |x|
    ensures x[i..j] == s[b + i..b + j]
  {
  }

  lemma FromLater(s: string, b: nat, x: string, n: nat)
    requires From(s, b, x) && n <= |x|
    ensures From(s, b + n, x[n..])
  {
  }

  lemma ExpressionFrom(s: string, b: nat, x: string, i: nat, j: nat, e: nat)
    requires From(s, b, x)
    ensures Expression(x, i, j, e) <==> ExpressionAt(s, b, b + i, b + j, b + e)
  {
    if 7 <= i < j && j + 1 < e < |x| {
      SameSlice(s, b, x, 0, 7);
      SameSlice(s, b, x, 7, i);
      SameSlice(s, b, x, i + 1, j);
      SameSlice(s, b, x, j + 1, e);
    }
  }

  lemma ExpressionIsField(s: string, b: nat, x: string, i: nat, j: nat, e: nat)
    requires From(s, b, x) && LineStart(s, b) && Expression(x, i, j, e)
    ensures FieldAt(s, b, b + j + 1, b + e)
  {
    ExpressionFrom(s, b, x, i, j, e);
  }

  lemma FieldIsExpression(s: string, b: nat, x: string, o: nat, e: nat) returns (i: nat)
    requires From(s, b, x) && FieldAt(s, b, o, e)
    ensures b < o <= e && Expression(x, i, o - b - 1, e - b)
  {
    var a: nat, j: nat :| j + 1 == o && ExpressionAt(s, b, a, j, e);
    i := a - b;
    ExpressionFrom(s, b, x, i, j - b, e - b);
  }

  // A match at the start of x is a field of s, and the only one there.
  lemma MatchIsField(s: string, b: nat, x: string, h: nat, n: nat)
    requires From(s, b, x) && LineStart(s, b) && MatchAt(x) == Some(Match(h, n))
    ensures FieldAt(s, b, b + h, b + h + n)
  {
    var i := MatchScans(x, h, n);
    ExpressionIsField(s, b, x, i, h - 1, h + n);
  }

  // ---- A header holds no second start ----

  lemma WhiteIsNoV(s: string, from: nat, to: nat, r: nat)
    requires from <= r < to <= |s| && AllWhite(s[from..to])
    ensures s[r] != 'v'
  {
    WhiteBetween(s, from, to);
  }

  // Where fields start: at a 'v', before their value, and never in the header of another.
  lemma StartsAtV(s: string, q: nat, o: nat, e: nat)
    requires FieldAt(s, q, o, e)
    ensures q < o < e < |s| && s[q] == 'v' && forall r | q < r < o :: s[r] != 'v'
  {
    var i: nat, j: nat :| j + 1 == o && ExpressionAt(s, q, i, j, e);
    assert s[q..q + 7] == ['v', 'e', 'r', 's', 'i', 'o', 'n'];
    assert q + 7 <= i < j && j + 1 < e < |s| && AllWhite(s[q + 7..i]) && AllWhite(s[i + 1..j]);
    forall r | q <= r < o ensures s[r] == 'v' <==> r == q {
      if r < q + 7 {
        assert s[r] == s[q..q + 7][r - q];
      } else if r < i {
        WhiteIsNoV(s, q + 7, i, r);
      } else if i < r < j {
        WhiteIsNoV(s, i + 1, j, r);
      }
    }
  }

  // The value stands between the first two quotes behind the start.
  lemma FieldQuotes(s: string, q: nat, o: nat, e: nat)
    requires FieldAt(s, q, o, e)
    ensures q < o < e < |s| && s[o - 1] == '"' && s[e] == '"'
    ensures forall r | q <= r < o - 1 || o <= r < e :: s[r] != '"'
  {
    var i: nat, j: nat :| j + 1 == o && ExpressionAt(s, q, i, j, e);
    var word := s[q..q + 7];
    QuoteFreeBetween(s, o, e);
    WhiteBetween(s, q + 7, i);
    WhiteBetween(s, i + 1, j);
    forall r | q <= r < q + 7 ensures s[r] != '"' {
      assert s[r] == word[r - q];
    }
  }

  lemma OneFieldAt(s: string, b: nat, o: nat, e: nat, o': nat, e': nat)
    requires FieldAt(s, b, o, e) && FieldAt(s, b, o', e')
    ensures o == o' && e == e'
  {
    FieldQuotes(s, b, o, e);
    FieldQuotes(s, b, o', e');
  }

  // ---- Spans ----

  // Where the values of the pieces stand, from position base on.
  function Spans(p: Pieces, base: nat): seq<(nat, nat)> {
    match p
    case End(_) => []
    case Field(gap, value, rest) =>
      var o := base + |gap|;
      [(o, o + |value|)] + Spans(rest, o + |value|)
  }

  lemma SpansOfPrepend(c: char, p: Pieces, base: nat)
    ensures Spans(Prepend(c, p), base) == Spans(p, base + 1)
  {
  }

  // Start, and begin and end of the value, of each field.
  ghost function Fields(s: string): iset<(nat, nat, nat)> {
    iset q: nat, o: nat, e: nat | FieldAt(s, q, o, e) :: (q, o, e)
  }

  ghost predicate Opens(fields: iset<(nat, nat, nat)>, q: nat, span: (nat, nat)) {
    (q, span.0, span.1) in fields
  }

  // Span k is a field that starts behind the span before it, or behind base.
  ghost predicate IsField(fields: iset<(nat, nat, nat)>, ss: seq<(nat, nat)>, base: nat, k: nat)
    requires k < |ss|
  {
    exists q :: (if k == 0 then base else ss[k - 1].1) <= q < ss[k].0 && Opens(fields, q, ss[k])
  }

  // A field is one of the spans, or starts inside one.
  ghost predicate Accounted(ss: seq<(nat, nat)>, field: (nat, nat, nat)) {
    exists k :: 0 <= k < |ss| && (ss[k] == (field.1, field.2) || ss[k].0 <= field.0 < ss[k].1)
  }

  // The spans are the leftmost fields that do not overlap, behind base: each is a field behind the
  // one before, and no field behind base is passed over.
  ghost predicate Leftmost(fields: iset<(nat, nat, nat)>, ss: seq<(nat, nat)>, base: nat) {
    && (forall k: nat | k < |ss| :: IsField(fields, ss, base, k))
    && forall f | f in fields && base <= f.0 :: Accounted(ss, f)
  }

  lemma FirstSpan(fields: iset<(nat, nat, nat)>, b: nat, o: nat, e: nat, rest: seq<(nat, nat)>)
    requires (b, o, e) in fields && b < o && Leftmost(fields, rest, e)
    requires forall f | f in fields && b <= f.0 < o :: f == (b, o, e)
    ensures Leftmost(fields, [(o, e)] + rest, b)
  {
    var ss := [(o, e)] + rest;
    forall k: nat | k < |ss| ensures IsField(fields, ss, b, k) {
      if k == 0 {
        assert Opens(fields, b, ss[0]);
      } else {
        assert IsField(fields, rest, e, k - 1);
        var q :| (if k == 1 then e else rest[k - 2].1) <= q < rest[k - 1].0 && Opens(fields, q, rest[k - 1]);
        assert Opens(fields, q, ss[k]);
      }
    }
    forall f | f in fields && b <= f.0 ensures Accounted(ss, f) {
      if f.0 < e {
        assert ss[0] == (f.1, f.2) || ss[0].0 <= f.0 < ss[0].1;
      } else {
        assert Accounted(rest, f);
        var k :| 0 <= k < |rest| && (rest[k] == (f.1, f.2) || rest[k].0 <= f.0 < rest[k].1);
        assert ss[k + 1] == rest[k];
      }
    }
  }

  lemma NoSpanHere(fields: iset<(nat, nat, nat)>, b: nat, ss: seq<(nat, nat)>)
    requires Leftmost(fields, ss, b + 1) && forall f | f in fields :: f.0 != b
    ensures Leftmost(fields, ss, b)
  {
    forall k: nat | k < |ss| ensures IsField(fields, ss, b, k) {
      assert IsField(fields, ss, b + 1, k);
      var q :| (if k == 0 then b + 1 else ss[k - 1].1) <= q < ss[k].0 && Opens(fields, q, ss[k]);
      assert Opens(fields, q, ss[k]);
    }
  }

  // ---- The cut is leftmost ----

  lemma FieldsAfterMatch(s: string, b: nat, o: nat, e: nat)
    requires FieldAt(s, b, o, e)
    ensures (b, o, e) in Fields(s) && b < o
    ensures forall f | f in Fields(s) && b <= f.0 < o :: f == (b, o, e)
  {
    StartsAtV(s, b, o, e);
    forall f | f in Fields(s) && b <= f.0 < o ensures f == (b, o, e) {
      StartsAtV(s, f.0, f.1, f.2);
      assert f.0 == b;
      OneFieldAt(s, b, o, e, f.1, f.2);
    }
  }

  lemma NoFieldWithoutMatch(s: string, b: nat, x: string, o: nat, e: nat)
    requires From(s, b, x) && MatchAt(x).None?
    ensures !FieldAt(s, b, o, e)
  {
    if FieldAt(s, b, o, e) {
      var i := FieldIsExpression(s, b, x, o, e);
      ExpressionMatches(x, i, o - b - 1, e - b);
    }
  }

  lemma NoFieldHere(s: string, b: nat, x: string, bol: bool)
    requires From(s, b, x) && b < |s| && (bol == LineStart(s, b) || (!bol && s[b] == '"'))
    requires !bol || MatchAt(x).None?
    ensures forall f | f in Fields(s) :: f.0 != b
  {
    forall f | f in Fields(s) ensures f.0 != b {
      StartsAtV(s, f.0, f.1, f.2);
      if bol { NoFieldWithoutMatch(s, b, x, f.1, f.2); }
    }
  }

  lemma NoFieldAtEnd(s: string)
    ensures Leftmost(Fields(s), [], |s|)
  {
    forall f | f in Fields(s) ensures f.0 < |s| {
      StartsAtV(s, f.0, f.1, f.2);
    }
  }

  lemma FieldIsLeftmost(fields: iset<(nat, nat, nat)>, b: nat, gap: string, value: string, rest: Pieces)
    requires var o := b + |gap|;
             var e := o + |value|;
             && gap != "" && (b, o, e) in fields && Leftmost(fields, Spans(rest, e), e)
             && forall f | f in fields && b <= f.0 < o :: f == (b, o, e)
    ensures Leftmost(fields, Spans(Field(gap, value, rest), b), b)
  {
    var o := b + |gap|;
    FirstSpan(fields, b, o, o + |value|, Spans(rest, o + |value|));
  }

  lemma MatchOpens(s: string, b: nat, x: string, h: nat, n: nat)
    requires From(s, b, x) && LineStart(s, b) && MatchAt(x) == Some(Match(h, n))
    ensures h > 0 && (b, b + h, b + h + n) in Fields(s)
    ensures forall f | f in Fields(s) && b <= f.0 < b + h :: f == (b, b + h, b + h + n)
  {
    MatchIsField(s, b, x, h, n);
    FieldsAfterMatch(s, b, b + h, b + h + n);
  }

  lemma MatchIsLeftmost(s: string, b: nat, x: string, h: nat, n: nat, rest: Pieces, p: Pieces)
    requires From(s, b, x) && LineStart(s, b) && MatchAt(x) == Some(Match(h, n))
    requires p == Field(x[..h], x[h..h + n], rest)
    requires Leftmost(Fields(s), Spans(rest, b + h + n), b + h + n)
    ensures Leftmost(Fields(s), Spans(p, b), b)
  {
    MatchOpens(s, b, x, h, n);
    FieldIsLeftmost(Fields(s), b, x[..h], x[h..h + n], rest);
  }

  lemma StepIsLeftmost(s: string, b: nat, x: string, bol: bool)
    requires From(s, b, x) && x != "" && (bol == LineStart(s, b) || (!bol && s[b] == '"'))
    requires !bol || MatchAt(x).None?
    requires Leftmost(Fields(s), Spans(Cut(x[1..], x[0] == '\n'), b + 1), b + 1)
    ensures Leftmost(Fields(s), Spans(Cut(x, bol), b), b)
  {
    CutElsewhere(x, bol);
    SpansOfPrepend(x[0], Cut(x[1..], x[0] == '\n'), b);
    NoFieldHere(s, b, x, bol);
    NoSpanHere(Fields(s), b, Spans(Cut(x[1..], x[0] == '\n'), b + 1));
  }

  lemma BehindMatch(s: string, b: nat, x: string, h: nat, n: nat)
    requires From(s, b, x) && MatchAt(x) == Some(Match(h, n))
    ensures h + n < |x| && From(s, b + h + n, x[h + n..]) && s[b + h + n] == '"'
  {
    MatchBounds(x);
    FromLater(s, b, x, h + n);
  }

  // x is the rest of s from b on. The values of its pieces are those of the fields found in it.
  lemma {:induction false} CutIsLeftmost(s: string, b: nat, x: string, bol: bool)
    requires From(s, b, x) && (bol == LineStart(s, b) || (!bol && b < |s| && s[b] == '"'))
    ensures Leftmost(Fields(s), Spans(Cut(x, bol), b), b)
    decreases |x|
  {
    if x == "" {
      NoFieldAtEnd(s);
    } else if bol && MatchAt(x).Some? {
      var Match(h, n) := MatchAt(x).value;
      BehindMatch(s, b, x, h, n);
      CutIsLeftmost(s, b + h + n, x[h + n..], false);
      CutAtMatch(x, h, n);
      MatchIsLeftmost(s, b, x, h, n, Cut(x[h + n..], false), Cut(x, true));
    } else {
      FromLater(s, b, x, 1);
      CutIsLeftmost(s, b + 1, x[1..], x[0] == '\n');
      StepIsLeftmost(s, b, x, bol);
    }
  }

  lemma {:induction false} ValuesStand(s: string, base: nat, p: Pieces)
    requires From(s, base, Glue(p))
    ensures |Spans(p, base)| == |Values(p)|
    ensures forall k | 0 <= k < |Values(p)| ::
              var (o, e) := Spans(p, base)[k];
              base <= o <= e <= |s| && Values(p)[k] == s[o..e] && Spans(p, base)[0].0 <= o
    decreases p
  {
    match p
    case End(_) =>
    case Field(gap, value, rest) =>
      var o := base + |gap|;
      var e := o + |value|;
      assert Glue(p)[|gap| + |value|..] == Glue(rest);
      FromLater(s, base, Glue(p), |gap| + |value|);
      ValuesStand(s, e, rest);
      SameSlice(s, base, Glue(p), |gap|, |gap| + |value|);
      assert Glue(p)[|gap|..|gap| + |value|] == value;
  }

  // ---- What is read and written ----

  // The values a write replaces are those of the fields found from left to right, each as it stands
  // in the text.
  lemma ValuesAreTheFields(content: string)
    ensures var p := Cut(content, true);
            var spans := Spans(p, 0);
            && Leftmost(Fields(content), spans, 0) && |spans| == |Values(p)|
            && forall k | 0 <= k < |spans| ::
                 spans[k].0 <= spans[k].1 <= |content| && Values(p)[k] == content[spans[k].0..spans[k].1]
  {
    GlueOfCut(content, true);
    CutIsLeftmost(content, 0, content, true);
    ValuesStand(content, 0, Cut(content, true));
  }

  // Fields start before their values, these are not empty, and no two fields share one.
  ghost predicate Apart(fields: iset<(nat, nat, nat)>) {
    && (forall f | f in fields :: f.0 < f.1 < f.2)
    && forall f, g | f in fields && g in fields && f.1 == g.1 && f.2 == g.2 :: f.0 == g.0
  }

  lemma FieldsAreApart(s: string)
    ensures Apart(Fields(s))
  {
    forall f | f in Fields(s) ensures f.0 < f.1 < f.2 {
      StartsAtV(s, f.0, f.1, f.2);
    }
    forall f, g | f in Fields(s) && g in Fields(s) && f.1 == g.1 && f.2 == g.2 ensures f.0 == g.0 {
      StartsAtV(s, f.0, f.1, f.2);
      StartsAtV(s, g.0, g.1, g.2);
    }
  }

  // No field starts before the first one found.
  lemma FirstIsFirst(fields: iset<(nat, nat, nat)>, ss: seq<(nat, nat)>, q: nat, f: (nat, nat, nat))
    requires Apart(fields) && Leftmost(fields, ss, 0) && ss != [] && forall k | 0 <= k < |ss| :: ss[0].0 <= ss[k].0
    requires q < ss[0].0 && Opens(fields, q, ss[0]) && f in fields
    ensures q <= f.0
  {
    assert Accounted(ss, f);
    var k: nat :| k < |ss| && (ss[k] == (f.1, f.2) || ss[k].0 <= f.0 < ss[k].1);
    if k > 0 {
      assert IsField(fields, ss, 0, k) && IsField(fields, ss, 0, k - 1);
      var r :| ss[k - 1].1 <= r < ss[k].0 && Opens(fields, r, ss[k]);
      var t: nat :| t < ss[k - 1].0 && Opens(fields, t, ss[k - 1]);
    }
  }

  ghost predicate Fieldless(s: string) {
    forall q: nat, o: nat, e: nat :: !FieldAt(s, q, o, e)
  }

  // v is the value of the field of s that starts first.
  ghost predicate FirstField(s: string, v: string) {
    exists q: nat, o: nat, e: nat ::
      && FieldAt(s, q, o, e) && o <= e <= |s| && v == s[o..e]
      && forall f | f in Fields(s) :: q <= f.0
  }

  // Reading gives the value of the first field, and fails exactly if there is none.
  lemma ReadIsFirst(content: string)
    ensures Read(content).Err? <==> Fieldless(content)
    ensures Read(content).Ok? ==> FirstField(content, Read(content).value)
  {
    var p := Cut(content, true);
    var ss := Spans(p, 0);
    GlueOfCut(content, true);
    ValuesAreTheFields(content);
    ValuesStand(content, 0, p);
    FieldsAreApart(content);
    if p.End? {
      NoneFound(content);
    } else {
      assert IsField(Fields(content), ss, 0, 0);
      var q :| 0 <= q < ss[0].0 && Opens(Fields(content), q, ss[0]);
      forall f | f in Fields(content) ensures q <= f.0 {
        FirstIsFirst(Fields(content), ss, q, f);
      }
      assert Values(p)[0] == p.value;
      assert FieldAt(content, q, ss[0].0, ss[0].1);
    }
  }

  lemma NoneFound(s: string)
    requires Leftmost(Fields(s), [], 0)
    ensures Fieldless(s)
  {
    forall q: nat, o: nat, e: nat ensures FieldAt(s, q, o, e) ==> (q, o, e) in Fields(s) {
    }
    assert forall f | f in Fields(s) :: Accounted([], f);
  }
}
