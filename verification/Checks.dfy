/** What a runner decides about a reply: where it goes, and whether one of the two checks stops it. */
module Checks {
  import opened Messages
  import opened Query
  import opened Streaks

  // `run_result.next_agent or self._next_agent`, followed by the test `if effective_next`.
  function EffectiveNext(routed: Option<Name>, next: Option<Name>): Option<Name> {
    var chosen := if routed.Some? && routed.value != "" then routed else next;
    if chosen.Some? && chosen.value != "" then chosen else None
  }

  // `_check_loop_detected`
  predicate LoopDetected(rows: seq<Row>, thread: string, agent: Name, dest: Name, threshold: nat) {
    && dest == agent
    && threshold != 0
    && var tail := Tail(rows, thread, threshold);
       && |tail| >= threshold
       && forall k | 0 <= k < |tail| :: tail[k] == (agent, agent)
  }

  // `_check_max_messages`
  predicate CeilingReached(rows: seq<Row>, thread: string, ceiling: nat) {
    ceiling != 0 && Count(rows, thread) >= ceiling
  }

  // ---- What they say ----

  // The last T rows of the thread all go from the agent to itself.
  ghost predicate EndsInSelfSends(s: seq<Stamp>, agent: Name, T: nat) {
    T <= |s| && AllSelf(s, agent, |s| - T, |s|)
  }

  // A loop is detected exactly for a self-send on a thread that ends in T self-sends.
  lemma LoopDetectedExactly(rows: seq<Row>, thread: string, agent: Name, dest: Name, threshold: nat)
    ensures LoopDetected(rows, thread, agent, dest, threshold) <==>
              dest == agent && threshold > 0 && EndsInSelfSends(Thread(rows, thread), agent, threshold)
  {
    var s := Thread(rows, thread);
    var tail := Tail(rows, thread, threshold);
    if threshold <= |s| && AllSelf(s, agent, |s| - threshold, |s|) {
      forall k | 0 <= k < |tail| ensures tail[k] == (agent, agent) {
        assert Self(s[|s| - 1 - k], agent);
      }
    }
    if threshold <= |s| && forall k | 0 <= k < |tail| :: tail[k] == (agent, agent) {
      forall k | |s| - threshold <= k < |s| ensures Self(s[k], agent) {
        assert tail[|s| - 1 - k] == (agent, agent);
      }
    }
  }

  // The ceiling is reached exactly if the thread's listing is that long.
  lemma CeilingReachedExactly(rows: seq<Row>, thread: string, ceiling: nat)
    ensures CeilingReached(rows, thread, ceiling) <==> 0 < ceiling <= |Thread(rows, thread)|
  {
    SelectCounts(rows, OnThread(thread));
  }

  // A reply goes to the router's choice, or to the static successor if the router makes none.
  ghost predicate GoesTo(routed: Option<Name>, next: Option<Name>, dest: Name) {
    && dest != ""
    && (routed == Some(dest) || (routed in {None, Some("")} && next == Some(dest)))
  }

  lemma EffectiveNextExactly(routed: Option<Name>, next: Option<Name>)
    ensures forall dest :: EffectiveNext(routed, next) == Some(dest) <==> GoesTo(routed, next, dest)
  {
  }
}
