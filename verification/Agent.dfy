/** One agent run: the llm / tools / route graph over a checkpointed history. */
module Agent {
  import opened Messages
  import Routing

  datatype Msg =
    | Human(text: string)
    | Ai(text: string, calls: seq<string>)        // a response and the tool calls it asks for
    | ToolResult(text: string)

  datatype AgentState = AgentState(messages: seq<Msg>, nextAgent: Option<Name>)

  // ---- The graph of `_build_graph` ----

  datatype Node = Llm | Tools | Route | End

  datatype Edge = Go(to: Node) | IfToolCalls(otherwise: Node)

  datatype Graph = Graph(entry: Node, edges: map<Node, Edge>)

  function BuildGraph(hasTools: bool, hasRouter: bool): Graph {
    var base: map<Node, Edge> :=
      if hasTools then
        var afterDone := if hasRouter then Route else End;
        map[Llm := IfToolCalls(afterDone), Tools := Go(Llm)]
      else if hasRouter then map[Llm := Go(Route)]
      else map[Llm := Go(End)];
    Graph(Llm, if hasRouter then base[Route := Go(End)] else base)
  }

  // `should_continue`, and the unconditional edges.
  function Next(g: Graph, node: Node, st: AgentState): Node
    requires st.messages != []
  {
    if node !in g.edges then End
    else
      match g.edges[node]
      case Go(to) => to
      case IfToolCalls(otherwise) =>
        var last := st.messages[|st.messages| - 1];
        if last.Ai? && last.calls != [] then Tools else otherwise
  }

  // ---- Running it ----

  datatype ModelTurn = Fails | Says(text: string, calls: seq<string>)

  // What a run meets outside: the model's answer to the n-th call, the tools, the router if the
  // agent has one, and the number of node executions the graph library allows. A router that asks a
  // classifier may fail.
  datatype Env = Env(
    llm: nat -> ModelTurn,
    tool: string -> string,
    router: Option<string -> Option<Name>>,
    limit: nat)

  // The final state, if the run does not fail, and the thread of each cost record attempted.
  datatype Trace = Trace(final: Option<AgentState>, costs: seq<string>)

  // `next_agent` after a run with this response, unless the router fails.
  function Choice(env: Env, before: Option<Name>, response: string): Option<Option<Name>> {
    if env.router.None? then Some(before)
    else
      match env.router.value(response)
      case None => None
      case Some(destination) => Some(Some(destination))
  }

  function Results(env: Env, calls: seq<string>): seq<Msg> {
    seq(|calls|, k requires 0 <= k < |calls| => ToolResult(env.tool(calls[k])))
  }

  function Execute(g: Graph, node: Node, st: AgentState, env: Env, call: nat, limit: nat, key: string): (t: Trace)
    requires st.messages != []
    ensures t.final.Some? ==> t.final.value.messages != []
    decreases limit
  {
    if node.End? then Trace(Some(st), [])
    else if limit == 0 then Trace(None, [])
    else
      match node
      case Llm =>
        (match env.llm(call)
         case Fails => Trace(None, [])
         case Says(text, calls) =>
           var st' := st.(messages := st.messages + [Ai(text, calls)]);
           var rest := Execute(g, Next(g, Llm, st'), st', env, call + 1, limit - 1, key);
           Trace(rest.final, [CostThread(key)] + rest.costs))
      case Tools =>
        var last := st.messages[|st.messages| - 1];
        var st' := st.(messages := st.messages + (if last.Ai? then Results(env, last.calls) else []));
        Execute(g, Next(g, Tools, st'), st', env, call, limit - 1, key)
      case Route =>
        var choice := Choice(env, st.nextAgent, st.messages[|st.messages| - 1].text);
        (match choice
         case None => Trace(None, [])
         case Some(next) =>
           var st' := st.(nextAgent := next);
           Execute(g, Next(g, Route, st'), st', env, call, limit - 1, key))
  }

  // ---- Checkpoint keys ----

  function Key(name: Name, thread: string): string {
    name + ":" + thread
  }

  function FirstColon(s: string): (n: nat)
    ensures n <= |s| && ':' !in s[..n] && (n < |s| ==> s[n] == ':')
  {
    if s == "" || s[0] == ':' then 0 else 1 + FirstColon(s[1..])
  }

  // `raw.split(":", 1)[1] if ":" in raw else raw`
  function CostThread(raw: string): string {
    if FirstColon(raw) < |raw| then raw[FirstColon(raw) + 1..] else raw
  }

  // ---- The agent ----

  datatype RunResult = RunResult(response: string, nextAgent: Option<Name>)

  function Saved(store: map<string, AgentState>, key: string): AgentState {
    if key in store then store[key] else AgentState([], None)
  }

  function RunOn(name: Name, hasTools: bool, saved: AgentState, input: string, thread: string, env: Env): (t: Trace)
    ensures t.final.Some? ==> t.final.value.messages != []
  {
    var st := saved.(messages := saved.messages + [Human(input)]);
    var g := BuildGraph(hasTools, env.router.Some?);
    Execute(g, g.entry, st, env, 0, env.limit, Key(name, thread))
  }

  class Checkpointer {
    var store: map<string, AgentState>

    constructor ()
      ensures store == map[]
    {
      store := map[];
    }
  }

  class LLMAgent {
    const name: Name
    const hasTools: bool
    const checkpointer: Checkpointer

    constructor (name: Name, hasTools: bool, checkpointer: Checkpointer)
      ensures this.name == name && this.hasTools == hasTools && this.checkpointer == checkpointer
    {
      this.name := name;
      this.hasTools := hasTools;
      this.checkpointer := checkpointer;
    }

    // A run that fails raises, and leaves behind for its own key whatever the graph library saved.
    method Run(input: string, thread: string, env: Env, remains: AgentState)
      returns (r: Option<RunResult>, costs: seq<string>)
      modifies checkpointer
      ensures var saved := Saved(old(checkpointer.store), Key(name, thread));
              var t := RunOn(name, hasTools, saved, input, thread, env);
              && costs == t.costs
              && checkpointer.store == old(checkpointer.store)
                   [Key(name, thread) := if t.final.Some? then t.final.value else remains]
              && (r.Some? <==> t.final.Some?)
              && (t.final.Some? ==>
                    var ms := t.final.value.messages;
                    r.value == RunResult(ms[|ms| - 1].text, t.final.value.nextAgent))
      ensures checkpointer.store
           == RunAll(old(checkpointer.store), [Event(name, hasTools, input, thread, env, remains)])
    {
      var key := Key(name, thread);
      var t := RunOn(name, hasTools, Saved(checkpointer.store, key), input, thread, env);
      costs := t.costs;
      match t.final
      case None =>
        checkpointer.store := checkpointer.store[key := remains];
        r := None;
      case Some(final) =>
        checkpointer.store := checkpointer.store[key := final];
        var ms := final.messages;
        r := Some(RunResult(ms[|ms| - 1].text, final.nextAgent));
    }
  }

  // ---- What one run appends ----

  // (AI-with-tool-calls Tool+)* AI; without tools a single response.
  ghost predicate Rounds(env: Env, hasTools: bool, ms: seq<Msg>)
    decreases |ms|
  {
    && ms != [] && ms[0].Ai?
    && if hasTools && ms[0].calls != []
       then 1 + |ms[0].calls| < |ms| && ms[1..1 + |ms[0].calls|] == Results(env, ms[0].calls)
            && Rounds(env, hasTools, ms[1 + |ms[0].calls|..])
       else |ms| == 1
  }

  function Responses(ms: seq<Msg>): nat {
    if ms == [] then 0 else (if ms[0].Ai? then 1 else 0) + Responses(ms[1..])
  }

  lemma {:induction false} ToolsAreNoResponses(env: Env, calls: seq<string>, rest: seq<Msg>)
    ensures Responses(Results(env, calls) + rest) == Responses(rest)
  {
    if calls == [] {
      assert Results(env, calls) + rest == rest;
    } else {
      ToolsAreNoResponses(env, calls[1..], rest);
      var ms := Results(env, calls) + rest;
      assert ms[0].ToolResult? && ms[1..] == Results(env, calls[1..]) + rest;
    }
  }

  // t appends ms to the messages of st.
  ghost predicate Appends(env: Env, hasTools: bool, st: AgentState, t: Trace, ms: seq<Msg>, key: string) {
    && t.final.Some? && Rounds(env, hasTools, ms)
    && t.final.value.messages == st.messages + ms
    && Choice(env, st.nextAgent, ms[|ms| - 1].text) == Some(t.final.value.nextAgent)
    && |t.costs| == Responses(ms) && (forall k | 0 <= k < |t.costs| :: t.costs[k] == CostThread(key))
  }

  lemma LastRound(env: Env, hasTools: bool, st: AgentState, call: nat, limit: nat, key: string)
    requires st.messages != [] && limit > 0 && env.llm(call).Says? && (hasTools ==> env.llm(call).calls == [])
    requires Execute(BuildGraph(hasTools, env.router.Some?), Llm, st, env, call, limit, key).final.Some?
    ensures Appends(env, hasTools, st, Execute(BuildGraph(hasTools, env.router.Some?), Llm, st, env, call, limit, key),
                    [Ai(env.llm(call).text, env.llm(call).calls)], key)
  {
    var g := BuildGraph(hasTools, env.router.Some?);
    var Says(text, calls) := env.llm(call);
    var st' := st.(messages := st.messages + [Ai(text, calls)]);
    if env.router.Some? {
      assert Next(g, Llm, st') == Route;
      assert limit > 1 && env.router.value(text).Some?;
      var st'' := st'.(nextAgent := env.router.value(text));
      assert Execute(g, Route, st', env, call + 1, limit - 1, key)
          == Execute(g, End, st'', env, call + 1, limit - 2, key);
    } else {
      assert Next(g, Llm, st') == End;
    }
    assert Responses([Ai(text, calls)]) == 1 by { assert [Ai(text, calls)][1..] == []; }
  }

  lemma FirstRound(env: Env, st: AgentState, call: nat, limit: nat, key: string)
    requires st.messages != [] && limit > 1 && env.llm(call).Says? && env.llm(call).calls != []
    ensures var g := BuildGraph(true, env.router.Some?);
            var Says(text, calls) := env.llm(call);
            var st2 := st.(messages := st.messages + [Ai(text, calls)] + Results(env, calls));
            var rest := Execute(g, Llm, st2, env, call + 1, limit - 2, key);
            Execute(g, Llm, st, env, call, limit, key) == Trace(rest.final, [CostThread(key)] + rest.costs)
  {
    var g := BuildGraph(true, env.router.Some?);
    var Says(text, calls) := env.llm(call);
    var st1 := st.(messages := st.messages + [Ai(text, calls)]);
    assert Next(g, Llm, st1) == Tools;
    var st2 := st1.(messages := st1.messages + Results(env, calls));
    assert Next(g, Tools, st2) == Llm;
  }

  lemma OneMoreRound(env: Env, text: string, calls: seq<string>, ms: seq<Msg>)
    requires calls != [] && Rounds(env, true, ms)
    ensures var all := [Ai(text, calls)] + (Results(env, calls) + ms);
            Rounds(env, true, all) && Responses(all) == 1 + Responses(ms) && all[|all| - 1] == ms[|ms| - 1]
  {
    var all := [Ai(text, calls)] + (Results(env, calls) + ms);
    var tail := Results(env, calls) + ms;
    assert all[1..] == tail;
    assert tail[..|calls|] == Results(env, calls) && tail[|calls|..] == ms;
    assert all[1..1 + |calls|] == tail[..|calls|] && all[1 + |calls|..] == tail[|calls|..];
    ToolsAreNoResponses(env, calls, ms);
  }

  lemma Regroup(a: seq<Msg>, b: seq<Msg>, c: seq<Msg>, d: seq<Msg>)
    ensures a + b + c + d == a + (b + (c + d))
  {
  }

  lemma JoinRounds(env: Env, st: AgentState, st2: AgentState, t: Trace, text: string, calls: seq<string>,
      ms: seq<Msg>, key: string)
    requires calls != [] && st2 == st.(messages := st.messages + [Ai(text, calls)] + Results(env, calls))
    requires Appends(env, true, st2, t, ms, key)
    ensures Appends(env, true, st, Trace(t.final, [CostThread(key)] + t.costs),
        [Ai(text, calls)] + (Results(env, calls) + ms), key)
  {
    OneMoreRound(env, text, calls, ms);
    Regroup(st.messages, [Ai(text, calls)], Results(env, calls), ms);
  }

  lemma {:induction false} ExecuteAppends(env: Env, hasTools: bool, st: AgentState, call: nat, limit: nat,
      key: string) returns (ms: seq<Msg>)
    requires st.messages != []
    requires Execute(BuildGraph(hasTools, env.router.Some?), Llm, st, env, call, limit, key).final.Some?
    ensures Appends(env, hasTools, st,
        Execute(BuildGraph(hasTools, env.router.Some?), Llm, st, env, call, limit, key), ms, key)
    decreases limit
  {
    var Says(text, calls) := env.llm(call);
    if hasTools && calls != [] {
      var g := BuildGraph(true, env.router.Some?);
      assert limit > 1;
      FirstRound(env, st, call, limit, key);
      var st2 := st.(messages := st.messages + [Ai(text, calls)] + Results(env, calls));
      var rest := ExecuteAppends(env, true, st2, call + 1, limit - 2, key);
      JoinRounds(env, st, st2, Execute(g, Llm, st2, env, call + 1, limit - 2, key), text, calls, rest, key);
      ms := [Ai(text, calls)] + (Results(env, calls) + rest);
    } else {
      LastRound(env, hasTools, st, call, limit, key);
      ms := [Ai(text, calls)];
    }
  }

  // A run that succeeds appends the input and its rounds to the saved history, attempts one cost
  // record per response, and with a router its destination is that of the returned response;
  // without one it is what the history held before, which is none if the history is fresh.
  lemma OneRun(name: Name, hasTools: bool, saved: AgentState, input: string, thread: string, env: Env)
    requires RunOn(name, hasTools, saved, input, thread, env).final.Some?
    ensures var t := RunOn(name, hasTools, saved, input, thread, env);
            exists ms: seq<Msg> ::
              && Rounds(env, hasTools, ms)
              && t.final.value.messages == saved.messages + [Human(input)] + ms
              && |t.costs| == Responses(ms)
              && (forall k | 0 <= k < |t.costs| :: t.costs[k] == CostThread(Key(name, thread)))
              && Choice(env, saved.nextAgent, ms[|ms| - 1].text) == Some(t.final.value.nextAgent)
  {
    var st := saved.(messages := saved.messages + [Human(input)]);
    var ms := ExecuteAppends(env, hasTools, st, 0, env.limit, Key(name, thread));
  }

  // With a keyword router the destination is the router's choice for the response that is returned.
  lemma KeywordDestination(name: Name, hasTools: bool, saved: AgentState, input: string, thread: string, env: Env,
      config: Routing.RouterConfig)
    requires env.router.Some? && forall output :: env.router.value(output) == Some(Routing.Destination(config, output))
    requires RunOn(name, hasTools, saved, input, thread, env).final.Some?
    ensures var final := RunOn(name, hasTools, saved, input, thread, env).final.value;
            && final.messages != []
            && final.nextAgent == Some(Routing.Destination(config, final.messages[|final.messages| - 1].text))
  {
    OneRun(name, hasTools, saved, input, thread, env);
  }

  // ---- When a run succeeds, and with what ----

  // The model's k-th answer asks for tools, so another call follows.
  predicate AsksTools(env: Env, hasTools: bool, k: nat) {
    hasTools && env.llm(k).Says? && env.llm(k).calls != []
  }

  // From call `from` on, calls up to n ask for tools, and call n answers without.
  predicate AnswersAt(env: Env, hasTools: bool, from: nat, n: nat) {
    && from <= n && (forall k | from <= k < n :: AsksTools(env, hasTools, k))
    && env.llm(n).Says? && !AsksTools(env, hasTools, n)
  }

  // That answer ends the run: the router, if there is one, routes it, and the nodes on the way (two
  // for each round of tools, one for the answer, one for the router) are within the limit.
  predicate EndsAt(env: Env, hasTools: bool, from: nat, n: nat, limit: nat) {
    && AnswersAt(env, hasTools, from, n)
    && (env.router.Some? ==> env.router.value(env.llm(n).text).Some?)
    && 2 * (n - from) + 1 + (if env.router.Some? then 1 else 0) <= limit
  }

  // The messages of calls from..n: each answer as the model gave it, with the results it asked for.
  function Conversation(env: Env, hasTools: bool, from: nat, n: nat): seq<Msg>
    requires AnswersAt(env, hasTools, from, n)
    decreases n - from
  {
    assert from < n ==> AsksTools(env, hasTools, from);
    var answer := AnswerOf(env, from);
    if from == n then [answer]
    else [answer] + (Results(env, env.llm(from).calls) + Conversation(env, hasTools, from + 1, n))
  }

  function AnswerOf(env: Env, k: nat): Msg
    requires env.llm(k).Says?
  {
    Ai(env.llm(k).text, env.llm(k).calls)
  }

  // `next_agent` after an answer that a router, if there is one, has routed.
  function NextAgent(env: Env, before: Option<Name>, text: string): Option<Name> {
    if env.router.None? then before else env.router.value(text)
  }

  // A call that does not ask for tools is the last one.
  lemma LastCallFails(env: Env, hasTools: bool, st: AgentState, call: nat, limit: nat, key: string)
    requires st.messages != [] && !AsksTools(env, hasTools, call) && !EndsAt(env, hasTools, call, call, limit)
    ensures var t := Execute(BuildGraph(hasTools, env.router.Some?), Llm, st, env, call, limit, key);
            t.final.None? && t.costs == if limit > 0 && env.llm(call).Says? then [CostThread(key)] else []
  {
    var g := BuildGraph(hasTools, env.router.Some?);
    if limit > 0 && env.llm(call).Says? {
      var st' := st.(messages := st.messages + [AnswerOf(env, call)]);
      assert Next(g, Llm, st') == Route;
      assert Execute(g, Route, st', env, call + 1, limit - 1, key) == Trace(None, []);
    }
  }

  lemma LastCallEnds(env: Env, hasTools: bool, st: AgentState, call: nat, limit: nat, key: string)
    requires st.messages != [] && EndsAt(env, hasTools, call, call, limit)
    ensures var next := NextAgent(env, st.nextAgent, env.llm(call).text);
            Execute(BuildGraph(hasTools, env.router.Some?), Llm, st, env, call, limit, key)
            == Trace(Some(AgentState(st.messages + [AnswerOf(env, call)], next)), [CostThread(key)])
  {
    var g := BuildGraph(hasTools, env.router.Some?);
    var st' := st.(messages := st.messages + [AnswerOf(env, call)]);
    if env.router.Some? {
      var st'' := st'.(nextAgent := env.router.value(env.llm(call).text));
      assert Next(g, Llm, st') == Route && Next(g, Route, st'') == End;
      assert Execute(g, Route, st', env, call + 1, limit - 1, key)
          == Execute(g, End, st'', env, call + 1, limit - 2, key);
    } else {
      assert Next(g, Llm, st') == End;
    }
  }

  lemma OutOfNodes(env: Env, st: AgentState, call: nat, limit: nat, key: string)
    requires st.messages != [] && AsksTools(env, true, call) && limit <= 1
    ensures var t := Execute(BuildGraph(true, env.router.Some?), Llm, st, env, call, limit, key);
            t.final.None? && t.costs == if limit > 0 then [CostThread(key)] else []
  {
    var g := BuildGraph(true, env.router.Some?);
    var st' := st.(messages := st.messages + [Ai(env.llm(call).text, env.llm(call).calls)]);
    assert Next(g, Llm, st') == Tools;
  }

  lemma EndsOneRoundLater(env: Env, call: nat, n: nat, limit: nat)
    requires AsksTools(env, true, call) && limit > 1
    ensures EndsAt(env, true, call, n, limit) <==> EndsAt(env, true, call + 1, n, limit - 2)
  {
    if EndsAt(env, true, call + 1, n, limit - 2) {
      forall k | call <= k < n ensures AsksTools(env, true, k) {
      }
    }
  }

  // t is how the model's node, entered for the given call, ends a run: with answer n exactly if the
  // calls before it ask for tools, it does not, the router takes it and the nodes suffice.
  ghost predicate EndsRight(env: Env, hasTools: bool, st: AgentState, call: nat, limit: nat, t: Trace) {
    && (t.final.Some? <==> exists n :: EndsAt(env, hasTools, call, n, limit))
    && forall n | EndsAt(env, hasTools, call, n, limit) ::
         && t.final.Some?
         && t.final.value.messages == st.messages + Conversation(env, hasTools, call, n)
         && t.final.value.nextAgent == NextAgent(env, st.nextAgent, env.llm(n).text)
  }

  lemma {:induction false} ExecuteEnds(env: Env, hasTools: bool, st: AgentState, call: nat, limit: nat, key: string)
    requires st.messages != []
    ensures EndsRight(env, hasTools, st, call, limit,
                      Execute(BuildGraph(hasTools, env.router.Some?), Llm, st, env, call, limit, key))
    decreases limit
  {
    if !AsksTools(env, hasTools, call) {
      assert forall n :: EndsAt(env, hasTools, call, n, limit) ==> n == call;
      if EndsAt(env, hasTools, call, call, limit) {
        LastCallEnds(env, hasTools, st, call, limit, key);
      } else {
        LastCallFails(env, hasTools, st, call, limit, key);
      }
    } else if limit <= 1 {
      OutOfNodes(env, st, call, limit, key);
    } else {
      var st2 := st.(messages := st.messages + [AnswerOf(env, call)] + Results(env, env.llm(call).calls));
      ExecuteEnds(env, true, st2, call + 1, limit - 2, key);
      FirstRound(env, st, call, limit, key);
      RoundEnds(env, st, st2, call, limit, key,
                Execute(BuildGraph(true, env.router.Some?), Llm, st2, env, call + 1, limit - 2, key));
    }
  }

  lemma RoundEnds(env: Env, st: AgentState, st2: AgentState, call: nat, limit: nat, key: string, rest: Trace)
    requires AsksTools(env, true, call) && limit > 1
    requires st2 == st.(messages := st.messages + [AnswerOf(env, call)] + Results(env, env.llm(call).calls))
    requires EndsRight(env, true, st2, call + 1, limit - 2, rest)
    ensures EndsRight(env, true, st, call, limit, Trace(rest.final, [CostThread(key)] + rest.costs))
  {
    forall n: nat ensures EndsAt(env, true, call, n, limit) <==> EndsAt(env, true, call + 1, n, limit - 2) {
      EndsOneRoundLater(env, call, n, limit);
    }
    forall n: nat | EndsAt(env, true, call, n, limit)
      ensures st2.messages + Conversation(env, true, call + 1, n) == st.messages + Conversation(env, true, call, n)
    {
      assert n > call;
      Regroup(st.messages, [AnswerOf(env, call)], Results(env, env.llm(call).calls),
              Conversation(env, true, call + 1, n));
    }
    var t := Trace(rest.final, [CostThread(key)] + rest.costs);
    if t.final.Some? {
      var n :| EndsAt(env, true, call + 1, n, limit - 2);
      assert EndsAt(env, true, call, n, limit);
    }
    forall n: nat | EndsAt(env, true, call, n, limit)
      ensures t.final.Some?
      ensures t.final.value.messages == st.messages + Conversation(env, true, call, n)
      ensures t.final.value.nextAgent == NextAgent(env, st.nextAgent, env.llm(n).text)
    {
      assert EndsAt(env, true, call + 1, n, limit - 2);
    }
  }

  // A run succeeds exactly if some call of the model ends it within the limit; it then appends the
  // input and the model's answers up to that one, and its destination is the router's for that
  // answer, or without a router what the history held.
  lemma RunSucceedsWhen(name: Name, hasTools: bool, saved: AgentState, input: string, thread: string, env: Env)
    ensures var t := RunOn(name, hasTools, saved, input, thread, env);
            && (t.final.Some? <==> exists n :: EndsAt(env, hasTools, 0, n, env.limit))
            && forall n | EndsAt(env, hasTools, 0, n, env.limit) ::
                 && t.final.Some?
                 && t.final.value.messages == saved.messages + [Human(input)] + Conversation(env, hasTools, 0, n)
                 && t.final.value.nextAgent == (if env.router.None? then saved.nextAgent
                                                else env.router.value(env.llm(n).text))
  {
    var st := saved.(messages := saved.messages + [Human(input)]);
    ExecuteEnds(env, hasTools, st, 0, env.limit, Key(name, thread));
  }

  // ---- Cost records ----

  // Call k of the model is made: every call before it asks for tools, and the nodes suffice.
  predicate Called(env: Env, hasTools: bool, from: nat, k: nat, limit: nat) {
    from <= k && 2 * (k - from) < limit && forall j | from <= j < k :: AsksTools(env, hasTools, j)
  }

  // One record for each call of the model that is made and answered.
  ghost predicate CostsRight(env: Env, hasTools: bool, call: nat, limit: nat, key: string, costs: seq<string>) {
    && (forall k: nat :: call <= k < call + |costs| <==> Called(env, hasTools, call, k, limit) && env.llm(k).Says?)
    && forall c | c in costs :: c == CostThread(key)
  }

  lemma CostsOfLastCall(env: Env, hasTools: bool, st: AgentState, call: nat, limit: nat, key: string)
    requires st.messages != [] && !AsksTools(env, hasTools, call)
    ensures CostsRight(env, hasTools, call, limit, key,
                       Execute(BuildGraph(hasTools, env.router.Some?), Llm, st, env, call, limit, key).costs)
  {
    if EndsAt(env, hasTools, call, call, limit) {
      LastCallEnds(env, hasTools, st, call, limit, key);
    } else {
      LastCallFails(env, hasTools, st, call, limit, key);
    }
  }

  lemma {:induction false} CostsOfExecution(env: Env, hasTools: bool, st: AgentState, call: nat, limit: nat,
      key: string)
    requires st.messages != []
    ensures CostsRight(env, hasTools, call, limit, key,
                       Execute(BuildGraph(hasTools, env.router.Some?), Llm, st, env, call, limit, key).costs)
    decreases limit
  {
    if !AsksTools(env, hasTools, call) {
      CostsOfLastCall(env, hasTools, st, call, limit, key);
    } else if limit <= 1 {
      OutOfNodes(env, st, call, limit, key);
    } else {
      var st2 := st.(messages := st.messages + [AnswerOf(env, call)] + Results(env, env.llm(call).calls));
      CostsOfExecution(env, true, st2, call + 1, limit - 2, key);
      FirstRound(env, st, call, limit, key);
      CostsOneRoundLater(env, call, limit, key,
        Execute(BuildGraph(true, env.router.Some?), Llm, st2, env, call + 1, limit - 2, key).costs);
    }
  }

  lemma CostsOneRoundLater(env: Env, call: nat, limit: nat, key: string, costs: seq<string>)
    requires AsksTools(env, true, call) && limit > 1
    requires CostsRight(env, true, call + 1, limit - 2, key, costs)
    ensures CostsRight(env, true, call, limit, key, [CostThread(key)] + costs)
  {
    forall k: nat
      ensures Called(env, true, call, k, limit) <==> k == call || Called(env, true, call + 1, k, limit - 2)
    {
      if Called(env, true, call + 1, k, limit - 2) {
        forall j | call <= j < k ensures AsksTools(env, true, j) {
        }
      }
    }
  }

  // Every run, whether it succeeds or fails, attempts one cost record for each call the model
  // answers, under the run's own thread if the agent's name has no colon.
  lemma OneCostPerAnswer(name: Name, hasTools: bool, saved: AgentState, input: string, thread: string, env: Env)
    ensures var costs := RunOn(name, hasTools, saved, input, thread, env).costs;
            && (forall k: nat :: k < |costs| <==> Called(env, hasTools, 0, k, env.limit) && env.llm(k).Says?)
            && (':' !in name ==> forall c | c in costs :: c == thread)
  {
    var st := saved.(messages := saved.messages + [Human(input)]);
    CostsOfExecution(env, hasTools, st, 0, env.limit, Key(name, thread));
    StripOfKey(name, thread);
  }

  // ---- Keys keep histories apart ----

  lemma {:induction false} FirstColonOf(x: string, y: string)
    requires ':' !in x
    ensures FirstColon(x + ":" + y) == |x|
  {
    if x == "" {
      assert x + ":" + y == ":" + y;
    } else {
      assert (x + ":" + y)[0] == x[0] && (x + ":" + y)[1..] == x[1..] + ":" + y;
      FirstColonOf(x[1..], y);
    }
  }

  // A cost record carries the right thread exactly when the agent's name has no colon.
  lemma StripOfKey(name: Name, thread: string)
    ensures CostThread(Key(name, thread)) == thread <==> ':' !in name
  {
    var n := FirstColon(name);
    if n == |name| {
      assert name[..n] == name;
      FirstColonOf(name, thread);
      assert Key(name, thread)[|name| + 1..] == thread;
    } else {
      assert name == name[..n] + ":" + name[n + 1..];
      assert Key(name, thread) == name[..n] + ":" + (name[n + 1..] + ":" + thread);
      FirstColonOf(name[..n], name[n + 1..] + ":" + thread);
      assert |CostThread(Key(name, thread))| > |thread|;
    }
  }

  // Neither name continues the other behind a colon.
  predicate Apart(a: Name, b: Name) {
    !(a + ":" <= b) && !(b + ":" <= a)
  }

  // Two agents can share a key for some threads exactly when one name continues the other behind a
  // colon; so names without colons never do.
  lemma KeysCollideWhen(a: Name, b: Name)
    requires a != b
    ensures (exists t, u :: Key(a, t) == Key(b, u)) <==> !Apart(a, b)
  {
    if a + ":" <= b {
      assert Key(a, b[|a| + 1..] + ":") == Key(b, "");
    }
    if b + ":" <= a {
      assert Key(b, a[|b| + 1..] + ":") == Key(a, "");
    }
    if t, u :| Key(a, t) == Key(b, u) {
      CollisionIsPrefix(a, b, t, u);
    }
  }

  lemma CollisionIsPrefix(a: Name, b: Name, t: string, u: string)
    requires Key(a, t) == Key(b, u)
    ensures a == b || a + ":" <= b || b + ":" <= a
  {
    var k := Key(a, t);
    assert forall i | 0 <= i < |a| :: k[i] == a[i];
    assert forall i | 0 <= i < |b| :: k[i] == b[i];
    assert k[|a|] == ':' && k[|b|] == ':';
    assert |a| == |b| ==> a == b;
  }

  lemma KeysAreInjective(a: Name, t: string, b: Name, u: string)
    requires a == b || Apart(a, b)
    ensures Key(a, t) == Key(b, u) <==> a == b && t == u
  {
    if Key(a, t) == Key(b, u) {
      CollisionIsPrefix(a, b, t, u);
      assert Key(a, t)[|a| + 1..] == t && Key(b, u)[|b| + 1..] == u;
    }
  }

  // A run of some agent on some thread.
  datatype Event = Event(name: Name, hasTools: bool, input: string, thread: string, env: Env, remains: AgentState)

  function After(saved: AgentState, e: Event): AgentState {
    var t := RunOn(e.name, e.hasTools, saved, e.input, e.thread, e.env);
    if t.final.Some? then t.final.value else e.remains
  }

  function RunAll(store: map<string, AgentState>, events: seq<Event>): map<string, AgentState>
    decreases |events|
  {
    if events == [] then store
    else
      var e := events[0];
      var key := Key(e.name, e.thread);
      RunAll(store[key := After(Saved(store, key), e)], events[1..])
  }

  function Own(events: seq<Event>, name: Name, thread: string): seq<Event>
    decreases |events|
  {
    if events == [] then []
    else if events[0].name == name && events[0].thread == thread then [events[0]] + Own(events[1..], name, thread)
    else Own(events[1..], name, thread)
  }

  function History(saved: AgentState, own: seq<Event>): AgentState
    decreases |own|
  {
    if own == [] then saved else History(After(saved, own[0]), own[1..])
  }

  // One more run changes the checkpoint under its own key, to what it makes of it, and no other.
  lemma {:induction false} OneMoreRun(store: map<string, AgentState>, events: seq<Event>, e: Event)
    ensures var key := Key(e.name, e.thread);
            var before := RunAll(store, events);
            RunAll(store, events + [e]) == before[key := After(Saved(before, key), e)]
    decreases |events|
  {
    if events == [] {
      assert events + [e] == [e] && [e][1..] == [];
    } else {
      var first := events[0];
      var key := Key(first.name, first.thread);
      OneMoreRun(store[key := After(Saved(store, key), first)], events[1..], e);
      assert (events + [e])[1..] == events[1..] + [e];
    }
  }

  // Over any sequence of runs, successful or not, of agents whose names do not continue this one's
  // or the other way round, the history of an agent on a thread is made by its own runs there alone.
  lemma {:induction false} HistoriesAreIsolated(store: map<string, AgentState>, events: seq<Event>, name: Name,
      thread: string)
    requires forall i | 0 <= i < |events| :: events[i].name == name || Apart(events[i].name, name)
    ensures Isolated(store, events, name, thread)
    decreases |events|
  {
    if events == [] {
    } else {
      var e := events[0];
      var key := Key(e.name, e.thread);
      KeysAreInjective(e.name, e.thread, name, thread);
      HistoriesAreIsolated(store[key := After(Saved(store, key), e)], events[1..], name, thread);
    }
  }

  ghost predicate Isolated(store: map<string, AgentState>, events: seq<Event>, name: Name, thread: string) {
    Saved(RunAll(store, events), Key(name, thread))
      == History(Saved(store, Key(name, thread)), Own(events, name, thread))
  }

  predicate AllBy(events: seq<Event>, name: Name) {
    forall i | 0 <= i < |events| :: events[i].name == name
  }

  // A model that never answers.
  const SILENT := Env(n => Fails, call => "", None, 1)

  lemma AnEventTouches(a: Name, t: string, e: Event)
    requires e.name != a && Key(e.name, e.thread) == Key(a, t) && e.env == SILENT && e.remains.messages != []
    ensures !Isolated(map[], [e], a, t)
  {
    var saved := Saved(map[], Key(a, t));
    var g := BuildGraph(e.hasTools, false);
    var st := saved.(messages := saved.messages + [Human(e.input)]);
    assert Execute(g, Llm, st, SILENT, 0, 1, Key(a, t)).final.None?;
    assert After(saved, e) == e.remains;
    assert [e][1..] == [];
    assert RunAll(map[], [e]) == map[Key(a, t) := e.remains];
    assert Own([e], a, t) == [];
  }

  // The runs of b never touch a history of a, exactly if neither name continues the other.
  lemma IsolationNeedsApartNames(a: Name, b: Name)
    requires a != b
    ensures (forall store, events, thread :: AllBy(events, b) ==> Isolated(store, events, a, thread)) <==> Apart(a, b)
  {
    if Apart(a, b) {
      forall store, events, thread | AllBy(events, b) ensures Isolated(store, events, a, thread) {
        HistoriesAreIsolated(store, events, a, thread);
      }
    } else {
      KeysCollideWhen(a, b);
      var t, u :| Key(a, t) == Key(b, u);
      var e := Event(b, false, "", u, SILENT, AgentState([Human("")], None));
      AnEventTouches(a, t, e);
      assert AllBy([e], b);
    }
  }
}
