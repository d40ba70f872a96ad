/** Runs of self-sends in a thread read in `created_at` order. */
module Streaks {
  import opened Messages
  import opened Query

  predicate Self(x: Stamp, a: Name) {
    x.sender == a && x.recipient == a
  }

  predicate AllSelf(s: seq<Stamp>, a: Name, i: int, j: int)
    requires 0 <= i <= j <= |s|
  {
    forall k | i <= k < j :: Self(s[k], a)
  }

  // No more than T neighbouring rows go from a to a.
  ghost predicate StreakBound(s: seq<Stamp>, a: Name, T: nat) {
    forall i, j | 0 <= i <= j <= |s| && AllSelf(s, a, i, j) :: j - i <= T
  }

  // One more self-send at the end of s keeps its last streak within T.
  ghost predicate Room(s: seq<Stamp>, a: Name, T: nat) {
    |s| < T || exists k :: |s| - T <= k < |s| && !Self(s[k], a)
  }

  // The part of the thread created no later than c.
  function Prefix(s: seq<Stamp>, c: int): seq<Stamp> {
    s[..Upto(s, c)]
  }

  lemma RoomAfterOther(s: seq<Stamp>, x: Stamp, p: nat, a: Name, T: nat)
    requires p <= |s| && Room(s, a, T) && !Self(x, a)
    ensures Room(s[..p] + [x] + s[p..], a, T)
  {
    var s' := s[..p] + [x] + s[p..];
    if |s'| >= T {
      if p >= |s'| - T {
        assert s'[p] == x;
      } else {
        var k :| |s| - T <= k < |s| && !Self(s[k], a);
        assert s'[k + 1] == s[k];
      }
    }
  }

  lemma UptoIsMonotone(s: seq<Stamp>, c: int, d: int)
    requires Sorted(s) && c <= d
    ensures Upto(s, c) <= Upto(s, d)
  {
    if Upto(s, c) > 0 {
      UptoBounds(s, d, Upto(s, c) - 1);
    }
  }

  lemma PlacedBefore(s: seq<Stamp>, x: Stamp, cut: nat, c: int, q: nat)
    requires cut <= q <= |s| && x.created <= c
    requires forall k | 0 <= k < |s| :: k < q <==> s[k].created <= c
    ensures Upto(s[..cut] + [x] + s[cut..], c) == q + 1
  {
    UptoIsUnique(s[..cut] + [x] + s[cut..], c, q + 1);
  }

  lemma PlacedBehind(s: seq<Stamp>, x: Stamp, cut: nat, c: int, q: nat)
    requires q <= cut <= |s| && c < x.created
    requires forall k | 0 <= k < |s| :: k < q <==> s[k].created <= c
    ensures Upto(s[..cut] + [x] + s[cut..], c) == q
  {
    UptoIsUnique(s[..cut] + [x] + s[cut..], c, q);
  }

  lemma UptoOfPlace(s: seq<Stamp>, x: Stamp, c: int)
    requires Sorted(s)
    ensures Upto(Place(s, x), c) == Upto(s, c) + (if x.created <= c then 1 else 0)
  {
    forall k | 0 <= k < |s| ensures k < Upto(s, c) <==> s[k].created <= c {
      UptoBounds(s, c, k);
    }
    if x.created <= c {
      UptoIsMonotone(s, x.created, c);
      PlacedBefore(s, x, Upto(s, x.created), c, Upto(s, c));
    } else {
      UptoIsMonotone(s, c, x.created);
      PlacedBehind(s, x, Upto(s, x.created), c, Upto(s, c));
    }
  }

  lemma CutAfter(s: seq<Stamp>, x: Stamp, p: nat, q: nat)
    requires p <= q <= |s|
    ensures (s[..p] + [x] + s[p..])[..q + 1] == s[..q][..p] + [x] + s[..q][p..]
  {
  }

  lemma CutBefore(s: seq<Stamp>, x: Stamp, p: nat, q: nat)
    requires q <= p <= |s|
    ensures (s[..p] + [x] + s[p..])[..q] == s[..q]
  {
  }

  lemma PrefixOfPlace(s: seq<Stamp>, x: Stamp, c: int)
    requires Sorted(s)
    ensures x.created > c ==> Prefix(Place(s, x), c) == Prefix(s, c)
    ensures x.created <= c ==>
              && Upto(s, x.created) <= |Prefix(s, c)|
              && Prefix(Place(s, x), c) == Prefix(s, c)[..Upto(s, x.created)] + [x] + Prefix(s, c)[Upto(s, x.created)..]
  {
    UptoOfPlace(s, x, c);
    if x.created <= c {
      UptoIsMonotone(s, x.created, c);
      CutAfter(s, x, Upto(s, x.created), Upto(s, c));
    } else {
      UptoIsMonotone(s, c, x.created);
      CutBefore(s, x, Upto(s, x.created), Upto(s, c));
    }
  }

  lemma RoomInPrefixAfterOther(s: seq<Stamp>, x: Stamp, c: int, a: Name, T: nat)
    requires Sorted(s) && Room(Prefix(s, c), a, T) && !Self(x, a)
    ensures Room(Prefix(Place(s, x), c), a, T)
  {
    PrefixOfPlace(s, x, c);
    if x.created <= c {
      RoomAfterOther(Prefix(s, c), x, Upto(s, x.created), a, T);
    }
  }

  lemma StreakAfterOther(s: seq<Stamp>, x: Stamp, a: Name, T: nat)
    requires StreakBound(s, a, T) && !Self(x, a)
    ensures StreakBound(Place(s, x), a, T)
  {
    var p := Upto(s, x.created);
    var s' := Place(s, x);
    assert s'[p] == x;
    forall i, j | 0 <= i <= j <= |s'| && AllSelf(s', a, i, j) ensures j - i <= T {
      if j <= p {
        assert AllSelf(s, a, i, j) by { assert forall k | i <= k < j :: s[k] == s'[k]; }
      } else if i > p {
        assert AllSelf(s, a, i - 1, j - 1) by { assert forall k | i - 1 <= k < j - 1 :: s[k] == s'[k + 1]; }
      }
    }
  }

  // Nothing of a's comes behind its newest message.
  lemma BehindIsForeign(s: seq<Stamp>, x: Stamp, a: Name)
    requires forall y | y in s && y.sender == a :: y.created <= x.created
    ensures forall k | Upto(s, x.created) < k < |Place(s, x)| :: Place(s, x)[k].sender != a
  {
    var p, s' := Upto(s, x.created), Place(s, x);
    forall k | p < k < |s'| ensures s'[k].sender != a {
      assert s'[k] == s[k - 1] && s[k - 1] in s;
    }
  }

  // A self-send that lands behind all earlier ones of its sender, with room before it.
  lemma StreakAfterSelf(s: seq<Stamp>, x: Stamp, a: Name, T: nat)
    requires Sorted(s) && StreakBound(s, a, T) && Self(x, a) && T > 0
    requires Room(Prefix(s, x.created), a, T)
    requires forall y | y in s && y.sender == a :: y.created <= x.created
    ensures StreakBound(Place(s, x), a, T)
  {
    var p := Upto(s, x.created);
    var s' := Place(s, x);
    BehindIsForeign(s, x, a);
    assert forall k | 0 <= k < p :: s'[k] == s[k];
    forall i, j | 0 <= i <= j <= |s'| && AllSelf(s', a, i, j) ensures j - i <= T {
      assert j > i ==> Self(s'[j - 1], a);
      if j <= p {
        assert AllSelf(s, a, i, j);
      } else if i < j {
        assert j == p + 1;
        assert forall k | i <= k < p :: Self(s[k], a);
      }
    }
  }

  // What the tail query tells the runner.
  lemma NotDetectedMeansRoom(rows: seq<Row>, thread: string, a: Name, T: nat)
    requires T > 0
    requires |Tail(rows, thread, T)| < T ||
             exists k :: 0 <= k < |Tail(rows, thread, T)| && Tail(rows, thread, T)[k] != (a, a)
    ensures Room(Thread(rows, thread), a, T)
  {
    var s := Thread(rows, thread);
    var tail := Tail(rows, thread, T);
    if |s| >= T {
      var k :| 0 <= k < |tail| && tail[k] != (a, a);
      assert !Self(s[|s| - 1 - k], a);
    }
  }
}
