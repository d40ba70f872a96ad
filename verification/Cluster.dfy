/** The running cluster as a transition system.

    All runners of `multiagent start` poll one table inside one task group. `AgentRunner.run_once`
    gives up control at every `await`, so each part of it between two awaits is an action of its own
    and the actions of different runners, of people and of the clock interleave freely. A runner
    can crash in any state; it loses its work in progress and starts again from `Idle`. */
module Cluster {
  import opened Messages
  import opened Query
  import opened Checks

  // `next` is the static successor of agents.toml, `routes` the destinations its router can name.
  datatype AgentConfig = AgentConfig(next: Option<Name>, routes: set<Name>)

  // One entry per agent: names are keys, so each name has one runner. A threshold or a ceiling
  // of 0 switches that check off.
  datatype Config = Config(agents: map<Name, AgentConfig>, threshold: nat, ceiling: nat)

  // What a runner remembers of the message it received.
  datatype Job = Job(id: nat, thread: string, subject: string)

  // Where a runner stands in `run_once`.
  datatype Pc =
    | Idle
    | Got(job: Job)                                              // received, waiting for the LLM
    | Answered(job: Job, reply: string, next: Option<Name>)      // non-empty reply, not yet acked
    | Acked(job: Job, reply: string, dest: Name)                 // acked, reply not yet dispatched
    | LoopPassed(job: Job, reply: string, dest: Name)            // self-loop check passed
    | CeilingPassed(job: Job, reply: string, dest: Name)         // ceiling check passed
    | Built(job: Job, row: Row)                                  // message constructed, not inserted

  // `outbox` holds what people have composed but not yet inserted. `answered` is a history
  // variable: the latest non-empty reply an agent gave to each row.
  datatype State = State(
    table: seq<Row>,
    pc: map<Name, Pc>,
    outbox: seq<Row>,
    clock: int,
    answered: map<nat, string>)

  datatype Action =
    | Receive(agent: Name)
    | Answer(agent: Name, reply: string, routed: Option<Name>)
    | GiveUp(agent: Name)                                        // empty reply, or retries exhausted
    | Ack(agent: Name)
    | CheckLoop(agent: Name)
    | CheckCeiling(agent: Name)
    | Build(agent: Name)
    | Insert(agent: Name)
    | Crash(agent: Name)
    | HumanCompose(recipients: seq<Name>, subject: string, body: string, thread: string)
    | HumanInsert(k: nat)
    | HumanRead(id: nat)                                         // `listen` and `chat`
    | Tick(now: int)

  predicate At(s: State, a: Name) {
    a in s.pc
  }

  predicate Enabled(cfg: Config, s: State, act: Action) {
    match act
    case Receive(a) => At(s, a) && s.pc[a].Idle? && Oldest(s.table, a).Some?
    case Answer(a, reply, routed) =>
      && At(s, a) && a in cfg.agents && s.pc[a].Got? && reply != ""
      && (routed.Some? ==> routed.value in cfg.agents[a].routes)
    case GiveUp(a) => At(s, a) && s.pc[a].Got?
    case Ack(a) => At(s, a) && s.pc[a].Answered? && s.pc[a].job.id < |s.table|
    case CheckLoop(a) => At(s, a) && s.pc[a].Acked?
    case CheckCeiling(a) => At(s, a) && s.pc[a].LoopPassed?
    case Build(a) => At(s, a) && s.pc[a].CeilingPassed?
    case Insert(a) => At(s, a) && s.pc[a].Built?
    case Crash(a) => At(s, a)
    case HumanCompose(_, _, _, _) => true
    case HumanInsert(k) => k < |s.outbox|
    case HumanRead(id) => id < |s.table| && s.table[id].recipient == HUMAN
    case Tick(now) => s.clock <= now
  }

  function Compose(s: State, recipient: Name, subject: string, body: string, thread: string): Row {
    Row(HUMAN, recipient, subject, body, thread, None, s.clock, None, None, None)
  }

  function Apply(cfg: Config, s: State, act: Action): State
    requires Enabled(cfg, s, act)
  {
    match act
    case Receive(a) =>
      var id := Oldest(s.table, a).value;
      var row := s.table[id];
      s.(table := s.table[id := row.(received := Some(s.clock))],
         pc := s.pc[a := Got(Job(id, row.thread, row.subject))])
    case Answer(a, reply, routed) =>
      s.(pc := s.pc[a := Answered(s.pc[a].job, reply, EffectiveNext(routed, cfg.agents[a].next))],
         answered := s.answered[s.pc[a].job.id := reply])
    case GiveUp(a) => s.(pc := s.pc[a := Idle])
    case Ack(a) =>
      var Answered(job, reply, next) := s.pc[a];
      s.(table := s.table[job.id := s.table[job.id].(processed := Some(s.clock))],
         pc := s.pc[a := if next.Some? then Acked(job, reply, next.value) else Idle])
    case CheckLoop(a) =>
      var Acked(job, reply, dest) := s.pc[a];
      s.(pc := s.pc[a := if LoopDetected(s.table, job.thread, a, dest, cfg.threshold) then Idle
                         else LoopPassed(job, reply, dest)])
    case CheckCeiling(a) =>
      var LoopPassed(job, reply, dest) := s.pc[a];
      s.(pc := s.pc[a := if CeilingReached(s.table, job.thread, cfg.ceiling) then Idle
                         else CeilingPassed(job, reply, dest)])
    case Build(a) =>
      var CeilingPassed(job, reply, dest) := s.pc[a];
      var row := Row(a, dest, job.subject, reply, job.thread, Some(job.id), s.clock, None, None, None);
      s.(pc := s.pc[a := Built(job, row)])
    case Insert(a) =>
      s.(table := s.table + [s.pc[a].row.(sent := Some(s.clock))], pc := s.pc[a := Idle])
    case Crash(a) => s.(pc := s.pc[a := Idle])
    case HumanCompose(recipients, subject, body, thread) =>
      s.(outbox := s.outbox + seq(|recipients|, i requires 0 <= i < |recipients| =>
                                    Compose(s, recipients[i], subject, body, thread)))
    case HumanInsert(k) =>
      s.(table := s.table + [s.outbox[k].(sent := Some(s.clock))], outbox := s.outbox[..k] + s.outbox[k + 1..])
    case HumanRead(id) =>
      s.(table := s.table[id := s.table[id].(processed := Some(s.clock))])
    case Tick(now) => s.(clock := now)
  }

  // ---- Runs ----

  // "human" is nobody's agent name, and runners address single recipients.
  predicate ValidConfig(cfg: Config) {
    && HUMAN !in cfg.agents
    && forall a | a in cfg.agents :: cfg.agents[a].next != Some(EVERYONE) && EVERYONE !in cfg.agents[a].routes
  }

  function Start(cfg: Config, clock: int): State {
    State([], map a | a in cfg.agents :: Idle, [], clock, map[])
  }

  ghost predicate ValidRun(cfg: Config, s: State, acts: seq<Action>)
    decreases |acts|
  {
    acts == [] || (Enabled(cfg, s, acts[0]) && ValidRun(cfg, Apply(cfg, s, acts[0]), acts[1..]))
  }

  function Exec(cfg: Config, s: State, acts: seq<Action>): State
    requires ValidRun(cfg, s, acts)
    decreases |acts|
  {
    if acts == [] then s else Exec(cfg, Apply(cfg, s, acts[0]), acts[1..])
  }

  // ---- Vocabulary of the theorems ----

  predicate Dispatching(p: Pc) {
    p.Acked? || p.LoopPassed? || p.CeilingPassed? || p.Built?
  }

  predicate Cleared(p: Pc) {
    p.CeilingPassed? || p.Built?
  }

  // Runners that have acked a message of the thread and may still forward it.
  function InFlight(s: State, thread: string): set<Name> {
    set a | a in s.pc && Dispatching(s.pc[a]) && s.pc[a].job.thread == thread
  }

  function PastCeiling(s: State, thread: string): set<Name> {
    set a | a in s.pc && Cleared(s.pc[a]) && s.pc[a].job.thread == thread
  }

  function FromHuman(thread: string): Row -> bool {
    (r: Row) => r.thread == thread && r.sender == HUMAN
  }

  function FromAgents(thread: string): Row -> bool {
    (r: Row) => r.thread == thread && r.sender != HUMAN
  }

  function Unprocessed(thread: string): Row -> bool {
    (r: Row) => r.thread == thread && r.processed.None?
  }
}
