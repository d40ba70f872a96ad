/** SELECT DISTINCT to_agent ... ORDER BY to_agent */
module Names {
  import opened Messages

  // Text order: by the first difference, a prefix first.
  predicate Less(a: string, b: string) {
    if b == "" then false
    else if a == "" then true
    else a[0] < b[0] || (a[0] == b[0] && Less(a[1..], b[1..]))
  }

  // a and b agree up to k, where a ends or has the lower character.
  predicate FirstDifference(a: string, b: string, k: nat) {
    && k <= |a| && k < |b| && a[..k] == b[..k]
    && (k == |a| || a[k] < b[k])
  }

  lemma {:induction false} LessAtFirstDifference(a: string, b: string)
    ensures Less(a, b) <==> exists k :: FirstDifference(a, b, k)
  {
    if a == "" || b == "" || a[0] != b[0] {
      assert FirstDifference(a, b, 0) <==> Less(a, b);
      assert forall k: nat :: FirstDifference(a, b, k) && k > 0 ==> a[..k][0] == b[..k][0];
    } else {
      LessAtFirstDifference(a[1..], b[1..]);
      forall k: nat ensures FirstDifference(a, b, k + 1) <==> FirstDifference(a[1..], b[1..], k) {
        if k < |a| && k + 1 < |b| {
          assert a[..k + 1] == [a[0]] + a[1..][..k] && b[..k + 1] == [b[0]] + b[1..][..k];
        }
      }
      if k: nat :| FirstDifference(a[1..], b[1..], k) { assert FirstDifference(a, b, k + 1); }
      if k: nat :| FirstDifference(a, b, k) { assert k > 0 && FirstDifference(a[1..], b[1..], k - 1); }
    }
  }

  ghost predicate Ascending(names: seq<Name>) {
    forall i, j | 0 <= i < j < |names| :: Less(names[i], names[j])
  }

  lemma {:induction false} LessIsTransitive(a: string, b: string, c: string)
    requires Less(a, b) && Less(b, c)
    ensures Less(a, c)
  {
    if a != "" && a[0] == b[0] && b[0] == c[0] {
      LessIsTransitive(a[1..], b[1..], c[1..]);
    }
  }

  lemma {:induction false} LessIsTotal(a: string, b: string)
    ensures a == b || Less(a, b) || Less(b, a)
  {
    if a != "" && b != "" && a[0] == b[0] {
      LessIsTotal(a[1..], b[1..]);
      assert a == [a[0]] + a[1..] && b == [b[0]] + b[1..];
    }
  }

  function AddName(names: seq<Name>, n: Name): seq<Name> {
    if names == [] then [n]
    else if names[0] == n then names
    else if Less(n, names[0]) then [n] + names
    else [names[0]] + AddName(names[1..], n)
  }

  lemma {:induction false} AddNameKeepsOrder(names: seq<Name>, n: Name)
    requires Ascending(names)
    ensures Ascending(AddName(names, n))
    ensures forall x :: x in AddName(names, n) <==> x in names || x == n
  {
    if names == [] || names[0] == n {
    } else if Less(n, names[0]) {
      forall j | 0 <= j < |names| ensures Less(n, names[j]) {
        if j > 0 { LessIsTransitive(n, names[0], names[j]); }
      }
    } else {
      var rest := AddName(names[1..], n);
      AddNameKeepsOrder(names[1..], n);
      LessIsTotal(n, names[0]);
      assert names == [names[0]] + names[1..];
      forall j | 0 <= j < |rest| ensures Less(names[0], rest[j]) {
        assert rest[j] in rest;
      }
    }
  }

  function KnownAgents(rows: seq<Row>): seq<Name> {
    if rows == [] then [] else AddName(KnownAgents(rows[..|rows| - 1]), rows[|rows| - 1].recipient)
  }

  predicate Seen(rows: seq<Row>, n: Name) {
    exists i :: 0 <= i < |rows| && rows[i].recipient == n
  }

  lemma SeenAppend(rows: seq<Row>, r: Row, n: Name)
    ensures Seen(rows + [r], n) <==> Seen(rows, n) || n == r.recipient
  {
    if i :| 0 <= i < |rows| && rows[i].recipient == n { assert (rows + [r])[i].recipient == n; }
    if n == r.recipient { assert (rows + [r])[|rows|].recipient == n; }
  }

  // Every recipient ever seen, once each, in text order.
  lemma {:induction false} KnownAgentsAreTheRecipients(rows: seq<Row>)
    ensures Ascending(KnownAgents(rows))
    ensures forall n :: n in KnownAgents(rows) <==> Seen(rows, n)
  {
    if rows == [] {
    } else {
      var last := |rows| - 1;
      KnownAgentsAreTheRecipients(rows[..last]);
      AddNameKeepsOrder(KnownAgents(rows[..last]), rows[last].recipient);
      forall n ensures Seen(rows, n) <==> Seen(rows[..last], n) || n == rows[last].recipient {
        SeenAppend(rows[..last], rows[last], n);
        assert rows[..last] + [rows[last]] == rows;
      }
    }
  }
}
