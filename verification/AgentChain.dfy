/**
 A context, its agents and their superiors: where a message goes while a run is alive, how an answer
 travels up the superiors, and how many runs a context may have unfinished.
 */
module AgentChain {
  import opened CodePoints

  datatype Option<T> = None | Some(value: T)
  datatype UserMessage = UserMessage(message: Text, attachments: seq<Text>)
  datatype Entry = User(msg: UserMessage, intervention: bool) | ToolResult(toolName: Text, text: Text) | AiResponse(answer: Text)
  datatype Tool = Tool(name: Text, progress: Text)
  datatype Outcome = Answer(text: Text) | Raised(error: Text)

  /** One monologue: what it appends to the history, the intervention it leaves, how it ends. */
  datatype Turn = Turn(entries: seq<Entry>, left: Option<UserMessage>, outcome: Outcome)
  type Monologue = (Agent, seq<Entry>, Option<UserMessage>) -> Turn

  // "call_subordinate"
  const CALL_SUBORDINATE: Text := [0x63, 0x61, 0x6C, 0x6C, 0x5F, 0x73, 0x75, 0x62, 0x6F, 0x72, 0x64, 0x69, 0x6E, 0x61, 0x74, 0x65]

  /** The work an interruption saves: what the tool reported, then the answer so far, blank ones left out. */
  function Unsaved(tool: Option<Tool>, progress: Text): (r: seq<Entry>) {
    (if tool.Some? && Strip(tool.value.progress) != [] then [ToolResult(tool.value.name, Strip(tool.value.progress))] else [])
    + if Strip(progress) != [] then [AiResponse(progress)] else []
  }

  class Agent {
    // set when the agent is created
    const superior: Agent?
    var intervention: Option<UserMessage>
    var history: seq<Entry>
    var currentTool: Option<Tool>

    constructor (superior: Agent?)
      ensures this.superior == superior && intervention == None && history == [] && currentTool == None
    {
      this.superior, intervention, history, currentTool := superior, None, [], None;
    }

    /** Waiting while the context is paused is left out. `heard` is the message of the exception raised. The tool
        keeps its progress: the source calls the coroutine `set_progress` and does not await it. */
    method HandleIntervention(progress: Text) returns (heard: Option<UserMessage>)
      modifies `intervention, `history
      ensures heard == old(intervention) && intervention == None && currentTool == old(currentTool)
      ensures heard.None? ==> history == old(history)
      // what the tool reported so far, then the answer so far, both unless blank, then the message
      ensures heard.Some? ==>
        var reported := if old(currentTool).Some? then Strip(old(currentTool).value.progress) else [];
        history == old(history)
          + (if reported != [] then [ToolResult(old(currentTool).value.name, reported)] else [])
          + (if Strip(progress) != [] then [AiResponse(progress)] else [])
          + [User(heard.value, true)]
      ensures heard.Some? ==> history == old(history) + old(Unsaved(currentTool, progress)) + [User(heard.value, true)]
    {
      heard := intervention;
      if intervention.Some? {
        var msg := intervention.value;
        intervention := None;
        if currentTool.Some? {
          var toolProgress := Strip(currentTool.value.progress);
          if toolProgress != [] {
            history := history + [ToolResult(currentTool.value.name, toolProgress)];
          }
        }
        if Strip(progress) != [] {
          history := history + [AiResponse(progress)];
        }
        history := history + [User(msg, true)];
      }
    }

    method Speak(incoming: Entry, monologue: Monologue) returns (outcome: Outcome)
      modifies `history, `intervention
      ensures Spoke(monologue, this, old(history), old(intervention), incoming, history, intervention, outcome)
    {
      history := history + [incoming];
      var turn := monologue(this, history, intervention);
      history, intervention, outcome := history + turn.entries, turn.left, turn.outcome;
    }
  }

  /** One monologue of `agent`, on its history with `heard` appended. */
  ghost predicate Spoke(monologue: Monologue, agent: Agent, history: seq<Entry>, intervention: Option<UserMessage>, heard: Entry,
                        history': seq<Entry>, intervention': Option<UserMessage>, outcome: Outcome) {
    var turn := monologue(agent, history + [heard], intervention);
    history' == history + [heard] + turn.entries && intervention' == turn.left && turn.outcome == outcome
  }

  /** `chain` lists `agent` and its superiors, nearest first. */
  ghost predicate Chain(agent: Agent, chain: seq<Agent>) {
    && chain != [] && chain[0] == agent && chain[|chain| - 1].superior == null
    && forall i {:trigger chain[i].superior} :: 0 <= i < |chain| - 1 ==> chain[i].superior == chain[i + 1]
  }

  lemma {:induction false} SameFrom(chain: seq<Agent>, i: nat, j: nat, k: nat)
    requires chain != [] && Chain(chain[0], chain) && i < j && j + k < |chain| && chain[i] == chain[j]
    ensures chain[i + k] == chain[j + k]
  {
    if k > 0 {
      SameFrom(chain, i, j, k - 1);
      assert chain[i + k - 1].superior == chain[i + k] && chain[j + k - 1].superior == chain[j + k];
    }
  }

  /** A chain that ends passes through no agent twice. */
  lemma ChainDistinct(chain: seq<Agent>)
    requires chain != [] && Chain(chain[0], chain)
    ensures forall i, j :: 0 <= i < j < |chain| ==> chain[i] != chain[j]
  {
    forall i, j | 0 <= i < j < |chain| ensures chain[i] != chain[j] {
      if chain[i] == chain[j] {
        var k := |chain| - 1 - j;
        SameFrom(chain, i, j, k);
        assert false;
      }
    }
  }

  class Run {
    const agent: Agent
    const msg: UserMessage
    var done: bool

    constructor (agent: Agent, msg: UserMessage)
      ensures this.agent == agent && this.msg == msg && !done
    {
      this.agent, this.msg, done := agent, msg, false;
    }
  }

  class AgentContext {
    var agent0: Agent
    var streamingAgent: Agent?
    var paused: bool
    var task: Run?
    /** Every run the context ever started. */
    ghost var runs: seq<Run>

    /** Every run but the one the task holds is over. */
    ghost predicate Valid()
      reads this, runs
    {
      (task != null ==> task in runs) && forall r :: r in runs && !r.done ==> r == task
    }

    constructor (agent0: Agent)
      ensures Valid() && runs == [] && this.agent0 == agent0 && streamingAgent == null
    {
      this.agent0, streamingAgent, paused, task, runs := agent0, null, false, null, [];
    }

    function GetAgent(): (r: Agent)
      reads this
    {
      if streamingAgent != null then streamingAgent else agent0
    }

    predicate IsRunning()
      reads this, task
    {
      task != null && !task.done
    }

    method KillProcess()
      requires Valid()
      modifies task
      ensures Valid() && !IsRunning() && forall r :: r in runs ==> r.done
    {
      if task != null {
        task.done := true;
      }
    }

    /** Nothing here asks whether a run is alive: `Communicate` does. */
    method RunTask(agent: Agent, msg: UserMessage) returns (run: Run)
      modifies `task, `runs
      ensures fresh(run) && task == run && runs == old(runs) + [run]
      ensures !run.done && run.agent == agent && run.msg == msg
    {
      run := new Run(agent, msg);
      task, runs := run, runs + [run];
    }

    /** A message to a context at work interrupts the first `broadcastLevel` agents from the current one
        upward, all of them when the level is negative, and starts nothing; otherwise it starts a run. */
    method Communicate(msg: UserMessage, broadcastLevel: int, ghost chain: seq<Agent>) returns (run: Run)
      requires Valid() && Chain(GetAgent(), chain)
      modifies `paused, `task, `runs, (set a | a in chain)`intervention
      ensures Valid() && !paused && run == task && !run.done
      ensures old(IsRunning()) ==> run == old(task) && runs == old(runs)
      ensures old(IsRunning()) ==> forall i :: 0 <= i < |chain| ==>
        chain[i].intervention == if broadcastLevel < 0 || i < broadcastLevel then Some(msg) else old(chain[i].intervention)
      ensures !old(IsRunning()) ==> fresh(run) && runs == old(runs) + [run] && run.agent == GetAgent() && run.msg == msg
      ensures !old(IsRunning()) ==> forall i :: 0 <= i < |chain| ==> chain[i].intervention == old(chain[i].intervention)
    {
      paused := false;
      var current := GetAgent();
      if IsRunning() {
        ChainDistinct(chain);
        run := task;
        var agent: Agent?, level := current, broadcastLevel;
        ghost var k := 0;
        while agent != null && level != 0
          invariant task == run && runs == old(runs) && !paused
          invariant 0 <= k <= |chain| && agent == if k < |chain| then chain[k] else null
          invariant level == broadcastLevel - k && (broadcastLevel >= 0 ==> level >= 0)
          invariant forall i :: 0 <= i < k ==> chain[i].intervention == Some(msg)
          invariant forall i :: k <= i < |chain| ==> chain[i].intervention == old(chain[i].intervention)
          decreases |chain| - k
        {
          agent.intervention := Some(msg);
          level := level - 1;
          agent := agent.superior;
          k := k + 1;
        }
      } else {
        run := RunTask(current, msg);
      }
    }

    method Reset(fresh0: Agent)
      requires Valid()
      modifies `agent0, `streamingAgent, `paused, task
      ensures Valid() && !IsRunning() && !paused && agent0 == fresh0 && streamingAgent == null && task == old(task)
      ensures forall r :: r in runs ==> r.done
    {
      KillProcess();
      agent0, streamingAgent, paused := fresh0, null, false;
    }

    /** Whatever was running is over and one new run has started with the current agent. */
    method Nudge(msg: UserMessage, ghost chain: seq<Agent>) returns (run: Run)
      requires Valid() && Chain(GetAgent(), chain)
      modifies `paused, `task, `runs, task, (set a | a in chain)`intervention
      ensures Valid() && !paused && fresh(run) && run == task && !run.done
      ensures runs == old(runs) + [run] && run.agent == old(GetAgent()) && run.msg == msg
      ensures forall r :: r in old(runs) ==> r.done
      ensures forall i :: 0 <= i < |chain| ==> chain[i].intervention == old(chain[i].intervention)
    {
      KillProcess();
      paused := false;
      run := Communicate(msg, 1, chain);
    }

    /** A run of the context ends by itself, in an answer or an exception. */
    method Finish(run: Run)
      requires Valid() && run in runs
      modifies run`done
      ensures Valid() && run.done
    {
      run.done := true;
    }

    /** While an agent has its monologue, it is the one that messages to the context reach first. */
    method BeginMonologue(agent: Agent)
      modifies `streamingAgent
      ensures GetAgent() == agent
    {
      streamingAgent := agent;
    }

    /** However it ends. */
    method EndMonologue()
      modifies `streamingAgent
      ensures GetAgent() == agent0
    {
      streamingAgent := null;
    }

    /** The answer goes up: from `agent`, each agent of the chain has one monologue, on its own history and
        its subordinate's answer, until one of them raises or the chain ends. `answers` are those given.
        Afterwards messages go to the first agent again. */
    method ProcessChain(agent: Agent, incoming: Entry, monologue: Monologue, ghost chain: seq<Agent>)
      returns (outcome: Outcome, ghost answers: seq<Text>)
      requires Chain(agent, chain)
      modifies `streamingAgent, (set a | a in chain)`history, (set a | a in chain)`intervention
      ensures |answers| <= |chain| && (outcome.Answer? <==> |answers| == |chain|)
      ensures outcome.Answer? ==> outcome.text == answers[|answers| - 1]
      ensures GetAgent() == agent0
      ensures forall i {:trigger chain[i]} :: 0 <= i < |chain| && i <= |answers| ==>
        Spoke(monologue, chain[i], old(chain[i].history), old(chain[i].intervention), Heard(incoming, answers, i),
              chain[i].history, chain[i].intervention, Given(outcome, answers, i))
      ensures forall i {:trigger chain[i]} :: |answers| < i < |chain| ==>
        chain[i].history == old(chain[i].history) && chain[i].intervention == old(chain[i].intervention)
      decreases |chain|
    {
      ChainDistinct(chain);
      BeginMonologue(agent);
      outcome := agent.Speak(incoming, monologue);
      EndMonologue();
      answers := [];
      hide Spoke, Heard, Given;
      HeardNext(incoming, outcome, []);
      if outcome.Answer? {
        ghost var first := outcome;
        answers := [outcome.text];
        if agent.superior != null {
          ghost var rest, above := chain[1..], [];
          outcome, above := ProcessChain(agent.superior, ToolResult(CALL_SUBORDINATE, outcome.text), monologue, rest);
          HeardNext(incoming, outcome, [first.text]);
          HeardNext(incoming, outcome, answers + above);
          answers := answers + above;
          forall i {:trigger chain[i].history} | 1 <= i < |chain| && i <= |answers|
            ensures Spoke(monologue, chain[i], old(chain[i].history), old(chain[i].intervention), Heard(incoming, answers, i),
                          chain[i].history, chain[i].intervention, Given(outcome, answers, i))
          {
            assert chain[i] == rest[i - 1] && above == answers[1..];
          }
        }
      }
    }
  }

  /** The chain above the first agent is told what its answer makes it. */
  lemma HeardNext(incoming: Entry, outcome: Outcome, answers: seq<Text>)
    ensures Heard(incoming, answers, 0) == incoming
    ensures Given(outcome, answers, 0) == if answers == [] then outcome else Answer(answers[0])
    ensures answers != [] ==> forall i :: 1 <= i <= |answers| ==>
      Heard(incoming, answers, i) == Heard(ToolResult(CALL_SUBORDINATE, answers[0]), answers[1..], i - 1)
      && Given(outcome, answers, i) == Given(outcome, answers[1..], i - 1)
  {
  }

  /** How the monologue at place `i` of the chain ended. */
  function Given(outcome: Outcome, answers: seq<Text>, i: nat): (r: Outcome) {
    if i < |answers| then Answer(answers[i]) else outcome
  }

  /** What the agent at place `i` of the chain is told: the first the incoming entry, the others their
      subordinate's answer as a tool result. */
  function Heard(incoming: Entry, answers: seq<Text>, i: nat): (r: Entry)
    requires i <= |answers|
  {
    if i == 0 then incoming else ToolResult(CALL_SUBORDINATE, answers[i - 1])
  }

  datatype Op =
    | Say(msg: UserMessage, broadcastLevel: int)
    | Nudging(msg: UserMessage)
    | Resetting(fresh0: Agent)
    | Finishing
    | Processing(incoming: Entry, monologue: Monologue)

  /** Every agent the context may come to has a chain of superiors that ends. */
  ghost predicate Chained(chains: map<Agent, seq<Agent>>) {
    forall agent :: agent in chains ==> Chain(agent, chains[agent])
  }

  ghost function Agents(chains: map<Agent, seq<Agent>>): set<Agent> {
    set agent, a | agent in chains && a in chains[agent] :: a
  }

  ghost predicate OneUnfinished(context: AgentContext)
    reads context, context.runs
  {
    forall r, s :: r in context.runs && s in context.runs && !r.done && !s.done ==> r == s
  }

  /** One operation: at most one run more, the others as they were. */
  method Step(context: AgentContext, op: Op, ghost chains: map<Agent, seq<Agent>>)
    requires context.Valid() && context.agent0 in chains && context.GetAgent() in chains && Chained(chains)
    requires op.Resetting? ==> op.fresh0 in chains
    modifies context, Agents(chains), set r | r in context.runs
    ensures context.Valid() && context.agent0 in chains && context.GetAgent() in chains
    ensures old(context.runs) <= context.runs && forall r :: r in context.runs ==> r in old(context.runs) || fresh(r)
  {
    ghost var chain := chains[context.GetAgent()];
    assert forall a :: a in chain ==> a in Agents(chains);
    match op
    case Say(msg, level) =>
      var run := context.Communicate(msg, level, chain);
    case Nudging(msg) =>
      var run := context.Nudge(msg, chain);
    case Resetting(fresh0) =>
      context.Reset(fresh0);
    case Finishing =>
      if context.task != null {
        context.Finish(context.task);
      }
    case Processing(incoming, monologue) =>
      ghost var answers;
      var outcome;
      outcome, answers := context.ProcessChain(context.GetAgent(), incoming, monologue, chain);
  }

  /** Over every sequence of messages, nudges, resets, chains of answers and runs that end, a context never
      has two unfinished runs. */
  method AnyRun(context: AgentContext, ops: seq<Op>, ghost chains: map<Agent, seq<Agent>>)
    requires context.Valid() && context.agent0 in chains && context.GetAgent() in chains && Chained(chains)
    requires forall op :: op in ops && op.Resetting? ==> op.fresh0 in chains
    modifies context, Agents(chains), set r | r in context.runs
    ensures context.Valid() && OneUnfinished(context) && old(context.runs) <= context.runs
  {
    for i := 0 to |ops|
      invariant context.Valid() && context.agent0 in chains && context.GetAgent() in chains
      invariant old(context.runs) <= context.runs
      invariant forall r :: r in context.runs ==> r in old(context.runs) || fresh(r)
    {
      Step(context, ops[i], chains);
    }
  }

  /** A message sent to a context at work reaches each interrupted agent's history once: the next check
      appends it last and stops the agent, the check after that finds nothing. */
  method HeardOnce(context: AgentContext, msg: UserMessage, level: int, chain: seq<Agent>, i: nat, progress: Text)
    requires context.Valid() && context.IsRunning() && Chain(context.GetAgent(), chain)
    requires i < |chain| && (level < 0 || i < level)
    modifies context, set a | a in chain
    ensures context.runs == old(context.runs) && chain[i].intervention == None
    ensures chain[i].history == old(chain[i].history + Unsaved(chain[i].currentTool, progress)) + [User(msg, true)]
  {
    var run := context.Communicate(msg, level, chain);
    var heard := chain[i].HandleIntervention(progress);
    heard := chain[i].HandleIntervention(progress);
  }
}
