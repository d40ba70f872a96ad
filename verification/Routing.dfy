/** Keyword routing: the first route with a trigger in the output wins. */
module Routing {
  import opened Messages

  datatype Route = Route(destination: Name, triggers: seq<string>)

  // Routes in the order of the configuration; destinations are the keys of a table.
  datatype RouterConfig = RouterConfig(routes: seq<Route>, default: Name)

  // `trigger in output`
  predicate Occurs(trigger: string, output: string) {
    exists i | 0 <= i <= |output| :: StandsAt(trigger, output, i)
  }

  predicate StandsAt(trigger: string, output: string, i: nat)
    requires i <= |output|
  {
    trigger <= output[i..]
  }

  // A trigger occurs exactly if the output is some text, the trigger and some text.
  lemma OccursExactly(trigger: string, output: string)
    ensures Occurs(trigger, output) <==> exists before, after :: output == before + trigger + after
  {
    if i :| 0 <= i <= |output| && StandsAt(trigger, output, i) {
      assert output == output[..i] + trigger + output[i..][|trigger|..];
    }
    if before, after :| output == before + trigger + after {
      assert output[|before|..] == trigger + after;
      assert StandsAt(trigger, output, |before|);
    }
  }

  predicate Triggered(r: Route, output: string) {
    exists k | 0 <= k < |r.triggers| :: Occurs(r.triggers[k], output)
  }

  // Where the output goes: the position of the first triggered route, or the number of routes.
  function Position(routes: seq<Route>, output: string): (p: nat)
    ensures p <= |routes|
    ensures forall i | 0 <= i < p :: !Triggered(routes[i], output)
    ensures p < |routes| ==> Triggered(routes[p], output)
  {
    if routes == [] || Triggered(routes[0], output) then 0 else 1 + Position(routes[1..], output)
  }

  function Destination(config: RouterConfig, output: string): Name {
    var p := Position(config.routes, output);
    if p < |config.routes| then config.routes[p].destination else config.default
  }

  lemma PositionIsFirst(routes: seq<Route>, output: string, p: nat)
    requires p <= |routes| && (p < |routes| ==> Triggered(routes[p], output))
    requires forall i | 0 <= i < p :: !Triggered(routes[i], output)
    ensures Position(routes, output) == p
  {
    var q := Position(routes, output);
    var x, y := p < |routes| && Triggered(routes[p], output), q < |routes| && Triggered(routes[q], output);
  }

  class KeywordRouter {
    const config: RouterConfig

    constructor (config: RouterConfig)
      ensures this.config == config
    {
      this.config := config;
    }

    // Two nested loops over routes and triggers that stop at the first hit.
    method Route(output: string) returns (destination: Name)
      ensures destination == Destination(config, output)
      ensures (exists i | 0 <= i < |config.routes| ::
                 && destination == config.routes[i].destination && Triggered(config.routes[i], output)
                 && forall j | 0 <= j < i :: !Triggered(config.routes[j], output))
              || (destination == config.default
                && forall i | 0 <= i < |config.routes| :: !Triggered(config.routes[i], output))
    {
      var i := 0;
      while i < |config.routes|
        invariant 0 <= i <= |config.routes|
        invariant forall j | 0 <= j < i :: !Triggered(config.routes[j], output)
      {
        var r := config.routes[i];
        var k := 0;
        while k < |r.triggers|
          invariant 0 <= k <= |r.triggers|
          invariant forall l | 0 <= l < k :: !Occurs(r.triggers[l], output)
        {
          if Occurs(r.triggers[k], output) {
            PositionIsFirst(config.routes, output, i);
            return r.destination;
          }
          k := k + 1;
        }
        i := i + 1;
      }
      PositionIsFirst(config.routes, output, i);
      return config.default;
    }
  }

  // ---- Extending the output ----

  lemma OccursInLonger(trigger: string, output: string, before: string, after: string)
    requires Occurs(trigger, output)
    ensures Occurs(trigger, before + output + after)
  {
    var i :| 0 <= i <= |output| && StandsAt(trigger, output, i);
    var longer := before + output + after;
    assert longer[|before| + i..] == output[i..] + after;
    assert StandsAt(trigger, longer, |before| + i);
  }

  // Text around an output can only move its match to an earlier route: a matched output never falls
  // back to a later route or to the default.
  lemma LongerOutputMatchesEarlier(routes: seq<Route>, output: string, before: string, after: string)
    ensures Position(routes, before + output + after) <= Position(routes, output)
  {
    var p := Position(routes, output);
    if p < |routes| {
      var k :| 0 <= k < |routes[p].triggers| && Occurs(routes[p].triggers[k], output);
      OccursInLonger(routes[p].triggers[k], output, before, after);
      assert Triggered(routes[p], before + output + after);
    }
  }

  // `LLMRouter.route`: the classifier's key if it is a configured one, else the default.
  function Classified(config: RouterConfig, key: string): Name {
    if exists i | 0 <= i < |config.routes| :: config.routes[i].destination == key then key else config.default
  }

  ghost predicate Configured(config: RouterConfig, destination: Name) {
    destination == config.default || exists i | 0 <= i < |config.routes| :: config.routes[i].destination == destination
  }

  // Either router's destination is one the configuration names; the classifier's key is taken exactly
  // if it is one of these, and else the default.
  lemma DestinationIsConfigured(config: RouterConfig, output: string, key: string)
    ensures Configured(config, Destination(config, output))
    ensures Classified(config, key) == key <==> Configured(config, key)
    ensures Classified(config, key) != key ==> Classified(config, key) == config.default
  {
    var p := Position(config.routes, output);
    if p < |config.routes| {
      assert config.routes[p].destination == Destination(config, output);
    }
  }

  // A route without triggers is never chosen by keyword unless it is the default; one with an empty
  // trigger is chosen by every output no earlier route takes.
  lemma EmptyTriggers(config: RouterConfig, i: nat, output: string)
    requires i < |config.routes|
    ensures config.routes[i].triggers == [] ==> Position(config.routes, output) != i
    ensures "" in config.routes[i].triggers ==> Position(config.routes, output) <= i
  {
    if "" in config.routes[i].triggers {
      var k :| 0 <= k < |config.routes[i].triggers| && config.routes[i].triggers[k] == "";
      assert StandsAt("", output, 0);
      assert Occurs(config.routes[i].triggers[k], output);
      assert Triggered(config.routes[i], output);
    }
  }
}
