# Verified model of the multiagent cluster

The system runs several LLM agents as one cluster. Every agent has a runner; all runners poll one
append-only SQLite table of messages, ask their model, acknowledge the message and forward the
reply. This project models that cluster, the graph a single agent run goes through, the version
tooling and two smaller text loops, and proves what they promise. `dafny verify dfyconfig.toml`
checks all of it.

## How the model is laid out

| file | what it holds |
|---|---|
| `Messages.dfy`, `Query.dfy`, `Names.dfy` | rows of the table, and the SQL queries as functions of it |
| `Transport.dfy` | the SQLite transport as a class over the table, and its inboxes as queues |
| `Checks.dfy` | where a reply goes, and the two checks that can stop it |
| `Runner.dfy`, `Shutdown.dfy` | the runner as a class (retries, checks, `run_once`, `run_loop`), the stop sentinels |
| `Outcomes.dfy` | what a run and the polling loop do, told on the table alone |
| `Quiescence.dfy` | why uninterrupted runs fall silent |
| `Cluster.dfy` | the cluster as a transition system: what a runner does between two awaits is one action, and actions of runners, people and the clock interleave freely, with crashes anywhere |
| `Lineage.dfy`, `Tokens.dfy`, `Streaks.dfy`, `LoopBound.dfy`, `Chain.dfy` | invariants of one action each |
| `Runs.dfy`, `Work.dfy` | the theorems about every reachable state and every run |
| `Monologue.dfy`, `Overshoot.dfy`, `CeilingExact.dfy` | runs that reach the bounds, runs that pass the ceiling, and exactly when an agent can do so |
| `Refinement.dfy` | an uninterrupted `run_once` of the runner class is a run of the transition system |
| `Agent.dfy`, `Routing.dfy` | the llm / tools / route graph, checkpoint keys, keyword routing |
| `Version.dfy`, `SemVerStandard.dfy` | versions, and the standard they are held against |
| `Pyproject.dfy`, `PyprojectLaws.dfy`, `PyprojectSearch.dfy` | the version fields of a pyproject text: reading, replacing, and which ones are found |
| `Chunking.dfy` | overlapping windows over a document |

Assumptions, all from how the system is put together:

- Each agent name has one runner (names are keys of the configuration), and no agent is called
  "human".
- Runners address single recipients. A destination "*" would fan out and pass the self-loop check
  (`Runner.BroadcastPassesTheLoopCheck`), so the theorems exclude it; `Transport.SQLiteTransport.Send`
  covers lists and "*".
- The clock never goes back. Rows may carry equal timestamps; they then come in id order, which is
  the order of the table's two indexes.
- The table starts empty. Row ids are positions: position n stands for database id n + 1.
- One SQL statement is one atomic step, and so is `receive`, whose second statement only stamps the
  received row.

What the proofs show beyond the happy path:

- The per-thread ceiling is checked against a count and acted on later. Every message in flight is
  backed by a human message on its thread, so agents still never send more than M - 1 rows there,
  however the runners interleave. But an agent can send onto a thread that already holds M messages,
  exactly if both M and the number H of human messages on it are more than 1; counting people's own
  messages too, the thread grows to at most M - 1 + H, and for every M and H some run gets there.
- On any routing graph the cluster falls silent. Uninterrupted runs handle no more messages than there
  is room below the ceiling (the sum over threads of max(0, M - count)) and messages waiting; under
  interleaving, no more than M - 1 for each thread people wrote to and one for each of their messages.
- `parse_version` documents SemVer 2.0.0 but accepts more: labels with leading zeros or empty
  identifiers, a trailing newline, and non-ASCII digits. `SemVerStandard.AcceptedIsStandardWhen`
  says by looking at the text alone which accepted texts are versions of the standard.
- docs/implementation-guide.md says the transport sets `created_at` on persistence. The code sets it
  when a message is constructed (src/multiagent/models.py); the model follows the code, so rows can
  be inserted out of `created_at` order.
- `chunk_text` stops exactly when the overlap is smaller than the window or the text fits in one.
- A failing router fails the whole agent run; what the runner then sees is a failed call, not a default.

## Model

| member | source | states |
|---|---|---|
| Query.SelectIsTheOrderedQuery | src/multiagent/transport/sqlite.py:119-127 | the computed answer to an ordered query is sorted by (created_at, id) and holds exactly the rows the WHERE clause admits |
| Query.OrderedQueryIsUnique | src/multiagent/transport/sqlite.py:262-270 | there is only one such answer |
| Query.OldestIsTheOldest | src/multiagent/transport/sqlite.py:118-130 | a row is found exactly if the inbox is not empty, and no other row of the inbox comes before it |
| Query.ProcessingPopsTheQueue | src/multiagent/transport/sqlite.py:200-210 | processing the oldest row removes the head of that agent's queue and leaves every other agent's queue as it was |
| Query.SelectCounts | src/multiagent/transport/sqlite.py:286-293 | COUNT(*) is the length of the thread's ordered listing |
| Names.KnownAgentsAreTheRecipients | src/multiagent/transport/sqlite.py:212-223 | the known agents are the recipients ever seen, once each, in text order |
| Names.LessAtFirstDifference | src/multiagent/transport/sqlite.py:212-223 | that order goes by the first character in which two texts differ, a text before its continuations |
| Transport.SQLiteTransport.Receive | src/multiagent/transport/sqlite.py:106-141 | returns the oldest unprocessed row of the agent and stamps only it; returns nothing, changing nothing, exactly if there is none |
| Transport.SQLiteTransport.Send | src/multiagent/transport/sqlite.py:143-189 | appends one row with the message's fields for each resolved recipient, in order: the single name, the names of a list, or for "*" every recipient seen before |
| Transport.SQLiteTransport.Ack | src/multiagent/transport/sqlite.py:191-210 | marks exactly the named row processed; fails, changing nothing, exactly if the id does not exist |
| Transport.SQLiteTransport.KnownRecipients | src/multiagent/transport/sqlite.py:212-223 | returns the recipients seen so far, sorted, without duplicates |
| Transport.SQLiteTransport.ThreadMessagesTail | src/multiagent/transport/sqlite.py:245-272 | returns the last min(limit, count) pairs of the thread's ordered listing, newest first |
| Transport.SQLiteTransport.ThreadMessageCount | src/multiagent/transport/sqlite.py:274-293 | returns the number of rows on the thread |
| Transport.ReceivingKeepsQueues | src/multiagent/transport/sqlite.py:132-137 | receiving changes nobody's queue, so the same row is received again until it is acknowledged |
| Transport.HandlingPopsTheQueue | src/multiagent/transport/sqlite.py:106-141 | receive followed by ack pops the agent's queue and no other |
| Transport.DrainIsTheQueue | src/multiagent/transport/sqlite.py:118-141 | receiving and acknowledging on a fixed table terminates and handles every pending row exactly once, oldest first |
| Runner.AgentRunner.CallWithRetries | src/multiagent/core/runner.py:81-101 | at most r + 1 calls; all calls before the last failed; success after j failures, and exhaustion after r + 1, has slept b * (2^calls-before - 1) in doubling waits |
| Runner.WaitsDouble | src/multiagent/core/runner.py:89-96 | the first wait is the backoff and each later one twice the one before |
| Runner.AgentRunner.CheckLoopDetected | src/multiagent/core/runner.py:164-193 | true exactly for a self-send whose threshold T is on and whose thread, in created_at order, ends in T self-sends of the agent |
| Runner.AgentRunner.CheckMaxMessages | src/multiagent/core/runner.py:195-207 | true exactly if a ceiling is set and the thread's listing is that long |
| Runner.AgentRunner.RunOnce | src/multiagent/core/runner.py:59-146 | changes the table, and returns or raises, as `Runner.Once` says; what that is, the next rows state |
| Outcomes.AnsweredRun | src/multiagent/core/runner.py:75-146 | with an oldest pending row that is answered non-empty after at most r failures, the run reports it processed, stamps it and touches no other row; the table grows exactly if the reply has somewhere to go and neither check, both written out on the thread's listing, stops it; the new row carries the reply as body, the row's thread and subject, the row as parent and the agent as sender, and goes to the router's choice if non-empty, else to the static successor |
| Outcomes.UnansweredRun | src/multiagent/core/runner.py:81-110 | if all r + 1 calls fail the run raises; after an empty answer it returns False; the row is only stamped as received |
| Outcomes.IdleRun | src/multiagent/core/runner.py:75-77 | with an empty inbox nothing changes and the run returns False |
| Checks.EffectiveNextExactly | src/multiagent/core/runner.py:116-117 | a reply goes to the router's choice if that is non-empty, else to the static successor, else nowhere |
| Runner.AgentRunner.RunLoop | src/multiagent/core/runner.py:209-237 | runs poll after poll as `Runner.Loop` says; what that is, the next row states |
| Outcomes.LoopRunsThePolls | src/multiagent/core/runner.py:220-237 | each poll runs the agent on the table the one before left, up to and including the first run that raises or up to the first poll that sees a stop request; the end is Failure, StopRequested or StillPolling accordingly |
| Runner.WaitsAddUp | src/multiagent/core/runner.py:89-96 | the waits b, 2b, 4b, ... of n retries sum to b * (2^n - 1) |
| Runner.FailureKeepsTheMessage | src/multiagent/core/runner.py:97-110 | after exhausted retries or an empty response every queue is unchanged, nothing is sent and the run does not report a processed message |
| Runner.UninterruptedCeilingIsExact | src/multiagent/core/runner.py:129-143 | an uninterrupted run adds at most one row to a thread, and none to a thread that has reached the ceiling |
| Quiescence.HandlingShrinks | src/multiagent/core/runner.py:59-146 | a run that handles a message strictly lowers the sum over threads of max(0, M - count) plus the unprocessed rows of served agents; any other run leaves it as it is |
| Quiescence.RunsFallSilent | src/multiagent/core/runner.py:112-146 | over any sequence of runs of any agents, each on the table the one before left, the runs that handle a message and what then remains of that sum never exceed it as it was at the start |
| Runner.StopIsFinal | src/multiagent/core/runner.py:222-228 | a runner that sees a stop request handles nothing more, whatever is polled later |
| Shutdown.ShutdownMonitor.RequestStop | src/multiagent/core/shutdown.py:32-44 | a named request stops that agent and nobody else; an unnamed one stops everybody |
| Shutdown.ShutdownMonitor.Clear | src/multiagent/core/shutdown.py:46-58 | a named clear withdraws only that agent's request; an unnamed one withdraws all and removes no other file |
| Refinement.RunOnceIsARun | src/multiagent/core/runner.py:75-146 | the table after an uninterrupted run_once is reached by a crash-free run of the transition system that leaves every runner where it was |
| Lineage.StepIsTraced | src/multiagent/core/runner.py:112-143 | every action keeps the invariant that ties each row, each runner in progress and each draft to the rows they come from |
| Tokens.StepConserves | src/multiagent/core/runner.py:112-143 | no action lets the live messages of a thread outgrow the human messages on it |
| Tokens.CheckLeavesRoom | src/multiagent/core/runner.py:195-207 | passing the ceiling check leaves room for every runner that has passed it and not yet inserted |
| Streaks.StreakAfterSelf | src/multiagent/core/runner.py:186-193 | a self-send with room before it keeps every run of self-sends within T, wherever its timestamp puts it |
| Streaks.RoomInPrefixAfterOther | src/multiagent/core/runner.py:116-143 | a foreign row inserted out of order takes no room from a message already built |
| LoopBound.StepIsLoopSafe | src/multiagent/core/runner.py:116-143 | every action keeps the bound on self-sends and what runners past the check rely on |
| Runs.SelfLoopsAreBounded | src/multiagent/core/runner.py:164-193 | in every reachable state no thread in created_at order holds more than T neighbouring self-sends of an agent |
| Monologue.SelfLoopBoundIsReached | src/multiagent/core/runner.py:164-193 | for every T > 0 some reachable thread holds T neighbouring self-sends |
| Runs.MessagesAreConserved | src/multiagent/core/runner.py:112-143 | unprocessed rows plus acked, undispatched messages of a thread never exceed its human rows |
| Runs.CeilingHolds | src/multiagent/core/runner.py:129-143 | agent rows plus runners about to insert never exceed M - 1; the thread never exceeds M - 1 + H, hence M with one human message |
| CeilingExact.BoundIsReached | src/multiagent/core/runner.py:129-143 | for every M and H some cluster reaches M - 1 + H messages on a thread with H human ones |
| CeilingExact.DispatchPassesCeilingWhen | src/multiagent/core/runner.py:129-143 | in some cluster and some run an agent is about to insert on a thread that already holds M messages, H of them from people, exactly if M > 1 and H > 1 |
| CeilingExact.CeilingIsExactForOneSeed | src/multiagent/core/runner.py:195-207 | people's own messages included, no cluster and no run takes a thread with H human messages past M, exactly if H is 1 |
| Overshoot.CeilingCanBePassed | src/multiagent/core/runner.py:129-143 | two runners that both count before either inserts take a thread of ceiling 3 to 4 messages |
| Runs.EveryReplyHasOneParent | src/multiagent/core/runner.py:112-143 | an agent's row answers exactly one older, processed row of its inbox, on its thread and under its subject, with the text given for that row; no other row answers the same one |
| Runs.ProcessedMeansAnswered | src/multiagent/core/runner.py:103-113 | a processed row of an agent had a non-empty reply to that very row |
| Runs.ConversationIsBounded | src/multiagent/core/runner.py:116-143 | if every destination but the agent itself ranks lower, one message to rank R leaves at most 1 + R * (T + 1) rows |
| Chain.SendWithinBudget | src/multiagent/core/runner.py:174-193 | each send of a ranked chain costs at least what it adds, by rank and remaining self-sends |
| Work.OnlyAckProcesses | src/multiagent/transport/sqlite.py:191-210 | an action takes a row out of an agent's inbox exactly if it is the ack of its own runner after a non-empty reply |
| Work.PendingUntilAcknowledged | src/multiagent/core/runner.py:75-113 | over any run, with any crashes and failures, a pending row is processed exactly if it was acknowledged and otherwise still stands in its queue; rows are never removed or rewritten |
| Work.CrashLosesNoMessage | src/multiagent/core/runner.py:75-113 | a crash can come in any state and leaves the table as it is; before the acknowledgement it leaves the message in its queue and a message to be received |
| Work.TableIsBounded | src/multiagent/core/runner.py:195-207 | with ceiling M, a cluster that got H human messages on some threads holds at most M - 1 rows for each of these threads and H more, hence at most H * M, on any routing graph and under every interleaving |
| Work.ClusterFallsSilent | src/multiagent/core/runner.py:112-146 | under every interleaving and from any reachable state, a run acknowledges at most M - 1 messages for each thread with human messages and one for each human message, present or added, less those already processed; without human input there are no new such threads |
| Routing.KeywordRouter.Route | src/multiagent/core/routing.py:50-70 | returns the destination of the first route with a trigger in the output, and the default exactly if there is none |
| Routing.OccursExactly | src/multiagent/core/routing.py:61 | a trigger occurs in an output exactly if the output is some text, the trigger and some text |
| Routing.LongerOutputMatchesEarlier | src/multiagent/core/routing.py:59-70 | text added on either side can only move the match to an earlier route, never to a later one or the default |
| Routing.EmptyTriggers | src/multiagent/core/routing.py:59-67 | a route without triggers is never matched; one with an empty trigger takes every output no earlier route takes |
| Agent.OneRun | src/multiagent/core/agent.py:234-305 | a successful run appends Human (AI-with-calls Tool+)* AI, attempts one cost record per response, and its destination is the router's for the returned response, or without a router what the history held |
| Agent.RunSucceedsWhen | src/multiagent/core/agent.py:234-281 | a run succeeds exactly if for some n the model's calls before n ask for tools, call n answers without, the router if any takes that answer, and the node executions fit the limit; it then appends the input and the model's own answers up to n with the results they asked for, and its destination is the router's for answer n |
| Agent.OneCostPerAnswer | src/multiagent/core/agent.py:211-232 | every run, failing or not, attempts one cost record for exactly the calls that are made and answered, under the run's thread |
| Agent.KeywordDestination | src/multiagent/core/agent.py:266-274 | with a keyword router the returned destination is the route of the returned response |
| Agent.LLMAgent.Run | src/multiagent/core/agent.py:283-305 | only the run's own checkpoint changes, as one event of the runs below; the result is the last message of the new history and its destination |
| Agent.OneMoreRun | src/multiagent/core/agent.py:283-295 | after any sequence of runs, one more changes the checkpoint under its own key and no other |
| Agent.StripOfKey | src/multiagent/core/agent.py:211-213 | stripping a checkpoint key gives the thread back exactly if the agent's name has no colon |
| Agent.KeysCollideWhen | src/multiagent/core/agent.py:290-291 | two agents can share a key exactly if one name continues the other behind a colon |
| Agent.HistoriesAreIsolated | src/multiagent/core/agent.py:290-295 | over any sequence of runs of agents whose names do not continue the agent's name, or it theirs, behind a colon, its history on a thread is made by its own runs there alone |
| Agent.IsolationNeedsApartNames | src/multiagent/core/agent.py:290-295 | no runs of one agent ever touch a history of another, exactly if neither name continues the other behind a colon |
| Version.MatchingTextParses | src/multiagent/version.py:10-13 | every text of the expression's form parses to the parts it is made of |
| Version.ParsedTextMatches | src/multiagent/version.py:66-84 | every text that parses has the expression's form, with the values returned |
| Version.NumeralIsDecimal | src/multiagent/version.py:11 | an ASCII numeral of the expression is the decimal print of its value |
| Version.ParseOfStr | src/multiagent/version.py:42-47 | parse(str(v)) = v exactly for non-negative parts and a non-empty label over the allowed characters, or none |
| Version.StrOfParse | src/multiagent/version.py:66-84 | str(parse(s)) = s for an accepted s exactly if s is ASCII without a newline |
| SemVerStandard.StandardIsAccepted | src/multiagent/version.py:10-13 | every version of sections 2 and 9 of SemVer 2.0.0 without build metadata is accepted |
| SemVerStandard.AcceptedIsStandardWhen | src/multiagent/version.py:66-78 | an accepted text is such a version exactly if it is ASCII without a newline and what follows its first dash, if it has one, splits at the dots into identifiers |
| SemVerStandard.PlainTextIsAcceptedWhen | src/multiagent/version.py:10-13 | a text that is ASCII without a newline is accepted exactly if it is three numbers without leading zeros, with dots between, and optionally a hyphen and one or more letters, digits, hyphens and dots |
| SemVerStandard.LooseLabelsAreAccepted | src/multiagent/version.py:12 | "1.0.0-01" and "1.0.0-a." are accepted and are not versions of the standard |
| SemVerStandard.NewlineIsAccepted | src/multiagent/version.py:12 | "1.0.0" with a newline is accepted and is not a version of the standard |
| SemVerStandard.ForeignDigitIsAccepted | src/multiagent/version.py:11-12 | "1", any decimal digit beyond ASCII, ".0.0" is accepted and is not a version of the standard |
| SemVerStandard.BumpIsTheNextRelease | src/multiagent/version.py:49-63 | the bumped version is the least release above every version that agrees with the old one down to the bumped part |
| PyprojectLaws.ExpressionMatches | src/multiagent/version.py:15 | every text of the expression's form is matched, with exactly its own header and value |
| PyprojectLaws.MatchIsAnExpression | src/multiagent/version.py:15 | every match has the expression's form |
| PyprojectSearch.ValuesAreTheFields | src/multiagent/version.py:124-125 | the values replaced are those of the leftmost fields that do not overlap: each starts a line behind the one before, and every field is one of them or starts inside one's value |
| PyprojectSearch.ReadIsFirst | src/multiagent/version.py:102-110 | reading gives the value of the field that starts first, and fails exactly if no line starts with one |
| Pyproject.GlueOfCut | src/multiagent/version.py:104 | the pieces of a cut text make up the text, and its values are non-empty, quote-free and stand between quotes |
| Pyproject.CutOfReplaced | src/multiagent/version.py:125 | rewriting values neither creates nor destroys matches |
| PyprojectLaws.ReadOfWrite | src/multiagent/version.py:102-129 | what was written is read back exactly if it is non-empty and free of quotes |
| PyprojectLaws.WriteOfWrite | src/multiagent/version.py:124-129 | the last of two writes decides |
| PyprojectLaws.WriteChangesOnlyValues | src/multiagent/version.py:124-125 | everything outside the values is kept, their number too, and every value becomes the new one |
| PyprojectLaws.WriteOfRead | src/multiagent/version.py:102-129 | writing back what was read changes nothing exactly if all version fields agree |
| PyprojectLaws.BumpEndToEnd | src/multiagent/version.py:132-152 | after a bump, reading gives the returned string; it parses to the bumped release of the version read before, strictly above it; nothing outside the values has changed |
| PyprojectLaws.BumpByName | src/multiagent/version.py:18-23 | from x.y.z, "major" leads to a text whose version reads as returned and parses to (x + 1).0.0, "minor" to x.(y + 1).0, "patch" to x.y.(z + 1), without a label; any other name is an error |
| Chunking.ChunkText | scripts/ingest_docs.py:40-50 | where the loop stops, every chunk is its window, all but the last stop short of the end, and the last reaches it |
| Chunking.NeighboursOverlap | scripts/ingest_docs.py:44-49 | chunks have at most `size` characters, neighbours share exactly `overlap`, and a later chunk is longer than that |
| Chunking.ChunksCoverTheText | scripts/ingest_docs.py:40-50 | the first chunk and the later ones without their shared beginning rebuild the text |
| Chunking.NumberOfChunks | scripts/ingest_docs.py:44-49 | a text longer than one window has ceil((len - overlap) / (size - overlap)) chunks |
| Chunking.StopsWhen | scripts/ingest_docs.py:44-49 | some round of the loop takes one of its two exits, exactly if the overlap is smaller than the window or the text is empty or fits in one, for any integers |

## Left out

- Pyproject.Write: takes replacements without backslashes, because `subn` reads a backslash as the start of an escape or a group reference; what these expand to is the regular expression library's affair, and bumped versions never contain one.
- PyprojectLaws.ReadOfWrite: is about replacements without backslashes, as `Pyproject.Write` is.
- PyprojectLaws.WriteOfWrite: is about replacements without backslashes, the first of them non-empty and free of quotes.
- PyprojectLaws.WriteChangesOnlyValues: is about replacements without backslashes, non-empty and free of quotes.
- PyprojectLaws.WriteOfRead: is about texts whose first version has no backslash.
- Version.Parse: does not model the interpreter's limit on the number of digits `int` and `str` convert.
- Chunking.ChunkText: takes a non-negative size and overlap; a negative overlap would leave gaps, and where the loop never stops (`Chunking.StopsWhen`) there is no result to describe.
- Runner.AgentRunner.RunLoop: covers a finite stretch of polls; the loop itself returns only on a stop request or an error, and the pauses between polls and the cancellation of the task are not part of the model.
- Runner.AgentRunner.RunOnce: the readings of the clock and the model's answers are parameters.
- Transports without the two thread queries, for which both checks are skipped and a warning is logged once.
- SQLite itself: connections, commits, write-ahead logging, timestamp text; two rows with one timestamp are taken in id order.
- The model call, tools and the graph library: a run meets them as an oracle with a limit on node executions, and what a failed run leaves in its own checkpoint is arbitrary.
- The classifier call of the LLM router: it fails, or its result is a configured key or the default, which is all `Routing.Classified` says.
- Token counts, prices and the cost tables: only the number of record attempts and their thread.
- Prompt loading, settings, agent and tool configuration files, logging, the terminal transport and the command line; `listen` and `chat` appear as the action that marks a person's rows processed.
- Reading and writing the pyproject file, and its newline translation: the laws are about text.
- Build metadata and the ordering of labels among themselves in SemVer 2.0.0: the first is never accepted, the second is not needed to compare with a release.
