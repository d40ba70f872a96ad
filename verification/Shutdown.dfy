/** Sentinel files that ask runners to stop. A file is its name in the data directory. */
module Shutdown {
  import opened Messages

  const GLOBAL_SENTINEL := ".stop"
  const AGENT_PREFIX := ".stop."

  function AgentSentinel(agent: Name): string {
    AGENT_PREFIX + agent
  }

  predicate ShouldStop(files: set<string>, agent: Name) {
    GLOBAL_SENTINEL in files || AgentSentinel(agent) in files
  }

  class ShutdownMonitor {
    var files: set<string>

    constructor (files: set<string>)
      ensures this.files == files
    {
      this.files := files;
    }

    // Stops the named agent and nobody else; with no name (or an empty one), everybody.
    method RequestStop(agent: Option<Name>) returns (path: string)
      modifies this
      ensures files == old(files) + {path}
      ensures agent.Some? && agent.value != "" ==>
                forall b :: ShouldStop(files, b) <==> ShouldStop(old(files), b) || b == agent.value
      ensures agent.None? || agent.value == "" ==> forall b :: ShouldStop(files, b)
    {
      path := if agent.Some? && agent.value != "" then AgentSentinel(agent.value) else GLOBAL_SENTINEL;
      files := files + {path};
      forall b ensures AgentSentinel(b) == path && path != GLOBAL_SENTINEL ==> agent.Some? && b == agent.value {
        assert AgentSentinel(b)[|AGENT_PREFIX|..] == b;
        assert agent.Some? ==> AgentSentinel(agent.value)[|AGENT_PREFIX|..] == agent.value;
      }
    }

    // With a name, only that agent's request is withdrawn; without one, every request is.
    method Clear(agent: Option<Name>)
      modifies this
      ensures files <= old(files)
      ensures agent.Some? && agent.value != "" ==>
                forall b | b != agent.value :: ShouldStop(files, b) == ShouldStop(old(files), b)
      ensures agent.Some? && agent.value != "" ==> (ShouldStop(files, agent.value) <==> GLOBAL_SENTINEL in old(files))
      ensures agent.None? || agent.value == "" ==> forall b :: !ShouldStop(files, b)
      ensures forall f | f in old(files) && f != GLOBAL_SENTINEL && !(AGENT_PREFIX <= f) :: f in files
    {
      if agent.Some? && agent.value != "" {
        files := files - {AgentSentinel(agent.value)};
        forall b | b != agent.value ensures AgentSentinel(b) != AgentSentinel(agent.value) {
          assert AgentSentinel(b)[|AGENT_PREFIX|..] == b;
          assert AgentSentinel(agent.value)[|AGENT_PREFIX|..] == agent.value;
        }
      } else {
        files := files - {GLOBAL_SENTINEL};
        var matching := set f | f in files && AGENT_PREFIX <= f;
        while matching != {}
          invariant matching <= files
          invariant files <= old(files) - {GLOBAL_SENTINEL}
          invariant forall f | f in matching :: AGENT_PREFIX <= f
          invariant forall f | f in files && AGENT_PREFIX <= f :: f in matching
          invariant forall f | f in old(files) && f != GLOBAL_SENTINEL && !(AGENT_PREFIX <= f) :: f in files
          decreases |matching|
        {
          var p :| p in matching;
          files := files - {p};
          matching := matching - {p};
        }
        forall b ensures !ShouldStop(files, b) {
          assert AGENT_PREFIX <= AgentSentinel(b);
        }
      }
    }
  }
}
