/** The workflow engine over registered definitions, `bizx/workflow/workflow.go`. Each call loads an
    instance, works on its own copy and stores the copy; handlers and conditions answer as they like. */
module Workflows {
  import opened FiniteSets

  type Id = string

  datatype Kind = Task | Approval | Condition | Parallel | End | Unknown

  datatype Node = Node(kind: Kind, next: seq<Id>, hasHandler: bool, hasCondition: bool)

  datatype Definition = Definition(nodes: map<Id, Node>, start: Id)

  datatype Status = Pending | Running | Completed | Failed | Cancelled | WaitingApproval

  /** An instance, with its history: the nodes it has been at, and how often it has been approved. */
  datatype Instance = Instance(definition: Id, status: Status, current: Id, trail: seq<Id>, approvals: nat)

  datatype Result = Done | InstanceNotFound | DefinitionNotFound | WorkflowCompleted | ApprovalRequired
                  | InvalidNode | HandlerFailed | MaxStepsExceeded | Died

  // ---------- Execute ----------

  /** The answer of a handler or condition, whether the checkpoint after it stores the instance, and
      whether the process dies before it. */
  datatype Answer = Answer(ok: bool, next: Id, saves: bool, dies: bool)

  type World = nat -> Answer

  function MoveTo(inst: Instance, to: Id): Instance {
    inst.(current := to, trail := inst.trail + [to])
  }

  datatype Round = GoOn(inst: Instance) | Stop(inst: Instance, result: Result)

  function Follow(node: Node, inst: Instance): Round {
    if node.next == [] then Stop(inst.(status := Completed), Done) else GoOn(MoveTo(inst, node.next[0]))
  }

  /** One round of the loop: what is done at the current node. */
  function OneRound(def: Definition, inst: Instance, a: Answer): Round {
    if inst.current !in def.nodes then Stop(inst.(status := Failed), InvalidNode)
    else
      var node := def.nodes[inst.current];
      match node.kind
      case End => Stop(inst.(status := Completed), Done)
      case Task | Parallel =>
        if node.hasHandler && !a.ok then Stop(inst.(status := Failed), HandlerFailed) else Follow(node, inst)
      case Approval => Stop(inst.(status := WaitingApproval), Done)
      case Condition =>
        if !node.hasCondition then Stop(inst.(status := Failed), InvalidNode)
        else if !a.ok then Stop(inst.(status := Failed), HandlerFailed)
        else GoOn(MoveTo(inst, a.next))
      case Unknown => Stop(inst.(status := Failed), InvalidNode)
  }

  /** The loop from round `steps` on: what is stored in the end, and the result. */
  function Advanced(def: Definition, maxSteps: nat, w: World, inst: Instance, saved: Instance, steps: nat)
    : (Instance, Result)
    decreases maxSteps - steps
  {
    if steps >= maxSteps then (inst.(status := Failed), MaxStepsExceeded)
    else if w(steps).dies then (saved, Died)
    else
      match OneRound(def, inst, w(steps))
      case Stop(i, r) => (i, r)
      case GoOn(i) => Advanced(def, maxSteps, w, i, if w(steps).saves then i else saved, steps + 1)
  }

  predicate Final(status: Status) { status.Completed? || status.Cancelled? || status.Failed? }

  // ---------- Calls ----------

  datatype Call =
    | StartWorkflow(id: Id, definition: Id)
    | Execute(id: Id, w: World)
    | Approve(id: Id)
    | Reject(id: Id)
    | Cancel(id: Id)

  datatype Config = Config(definitions: map<Id, Definition>, maxSteps: nat)

  type Store = map<Id, Instance>

  /** What a call makes of the instance, and its result. */
  function Answered(cfg: Config, s: Store, c: Call): (Store, Result) {
    if c.StartWorkflow? then
      if c.definition !in cfg.definitions then (s, DefinitionNotFound)
      else
        var start := cfg.definitions[c.definition].start;
        (s[c.id := Instance(c.definition, Pending, start, [start], 0)], Done)
    else if c.id !in s then (s, InstanceNotFound)
    else
      var (i, r) := Changed(cfg, s[c.id], c);
      (s[c.id := i], r)
  }

  function Changed(cfg: Config, i: Instance, c: Call): (Instance, Result) {
    match c
    case StartWorkflow(_, _) => (i, Done)
    case Execute(_, w) =>
      if Final(i.status) then (i, WorkflowCompleted)
      else if i.definition !in cfg.definitions then (i, DefinitionNotFound)
      else Advanced(cfg.definitions[i.definition], cfg.maxSteps, w, i.(status := Running), i, 0)
    case Approve(_) =>
      if !i.status.WaitingApproval? then (i, ApprovalRequired)
      else if i.definition !in cfg.definitions then (i, DefinitionNotFound)
      else if i.current !in cfg.definitions[i.definition].nodes then (i, InvalidNode)
      else
        var node, i' := cfg.definitions[i.definition].nodes[i.current], i.(approvals := i.approvals + 1);
        if node.next != [] then (MoveTo(i', node.next[0]).(status := Running), Done)
        else (i'.(status := Completed), Done)
    case Reject(_) =>
      if !i.status.WaitingApproval? then (i, ApprovalRequired) else (i.(status := Failed), Done)
    case Cancel(_) =>
      if i.status.Completed? || i.status.Cancelled? then (i, WorkflowCompleted) else (i.(status := Cancelled), Done)
  }

  /** Identifiers of new instances are fresh. */
  predicate Enabled(s: Store, c: Call) { c.StartWorkflow? ==> c.id !in s }

  ghost predicate IsRun(cfg: Config, s: Store, run: seq<Call>)
    decreases |run|
  {
    run == [] || (Enabled(s, run[0]) && IsRun(cfg, Answered(cfg, s, run[0]).0, run[1..]))
  }

  ghost function After(cfg: Config, s: Store, run: seq<Call>): Store
    requires IsRun(cfg, s, run)
    decreases |run|
  {
    if run == [] then s else After(cfg, Answered(cfg, s, run[0]).0, run[1..])
  }

  // ---------- What every call keeps ----------

  predicate IsGate(def: Definition, n: Id) { n in def.nodes && def.nodes[n].kind.Approval? }

  /** The definition lets an instance go from `a` to `b`. */
  predicate Edge(def: Definition, a: Id, b: Id) {
    && a in def.nodes
    && var node := def.nodes[a];
       match node.kind
       case Task | Parallel | Approval => node.next != [] && node.next[0] == b
       case Condition => node.hasCondition
       case _ => false
  }

  ghost predicate Walk(def: Definition, trail: seq<Id>) {
    forall k :: 0 < k < |trail| ==> Edge(def, trail[k - 1], trail[k])
  }

  /** How many of the nodes are approval nodes. */
  function Gates(def: Definition, nodes: seq<Id>): nat {
    if nodes == [] then 0 else Gates(def, nodes[..|nodes| - 1]) + if IsGate(def, nodes[|nodes| - 1]) then 1 else 0
  }

  /** The nodes an instance has left behind: all but the last, and the last too if it is completed. */
  function Behind(i: Instance): seq<Id> {
    if i.trail == [] || i.status.Completed? then i.trail else i.trail[..|i.trail| - 1]
  }

  /** An instance has walked along its definition from the start, and every approval node it has left
      behind has been approved, once for each time it was there. */
  ghost predicate Travelled(def: Definition, i: Instance) {
    && i.trail != [] && i.trail[0] == def.start && i.trail[|i.trail| - 1] == i.current
    && Walk(def, i.trail)
    && i.approvals == Gates(def, Behind(i))
  }

  /** Where an instance can stand in each status. */
  predicate Placed(def: Definition, i: Instance) {
    match i.status
    case WaitingApproval => IsGate(def, i.current)
    case Pending => i.trail == [def.start]
    case Completed => i.current in def.nodes && (def.nodes[i.current].kind.End? || def.nodes[i.current].next == [])
    case _ => true
  }

  ghost predicate Good(cfg: Config, i: Instance) {
    && i.definition in cfg.definitions
    && Travelled(cfg.definitions[i.definition], i)
    && Placed(cfg.definitions[i.definition], i)
  }

  ghost predicate Inv(cfg: Config, s: Store) {
    forall id :: id in s ==> Good(cfg, s[id])
  }

  lemma MoveKeeps(def: Definition, i: Instance, to: Id)
    requires Travelled(def, i) && !i.status.Completed? && Edge(def, i.current, to)
    ensures var approved := if IsGate(def, i.current) then i.approvals + 1 else i.approvals;
            Travelled(def, MoveTo(i, to).(approvals := approved))
  {
    var i' := MoveTo(i, to);
    assert Behind(i') == i.trail;
    forall k | 0 < k < |i'.trail| ensures Edge(def, i'.trail[k - 1], i'.trail[k]) {
      if k < |i.trail| {
        assert Edge(def, i.trail[k - 1], i.trail[k]);
      }
    }
  }

  /** Completing at a node leaves it behind. */
  lemma CompleteKeeps(def: Definition, i: Instance)
    requires Travelled(def, i) && !i.status.Completed?
    ensures var approved := if IsGate(def, i.current) then i.approvals + 1 else i.approvals;
            Travelled(def, i.(status := Completed, approvals := approved))
  {
  }

  lemma RoundKeeps(def: Definition, i: Instance, a: Answer)
    requires Travelled(def, i) && i.status.Running?
    ensures var r := OneRound(def, i, a);
            && Travelled(def, r.inst) && Placed(def, r.inst)
            && r.inst.definition == i.definition
            && (r.GoOn? ==> r.inst.status.Running?)
  {
    if i.current in def.nodes {
      var node := def.nodes[i.current];
      CompleteKeeps(def, i);
      if OneRound(def, i, a).GoOn? {
        MoveKeeps(def, i, if node.kind.Condition? then a.next else node.next[0]);
      }
    }
  }

  lemma {:induction false} AdvancedKeeps(def: Definition, max: nat, w: World, i: Instance, saved: Instance, steps: nat)
    requires Travelled(def, i) && i.status.Running? && i.definition == saved.definition
    requires Travelled(def, saved) && Placed(def, saved)
    ensures var j := Advanced(def, max, w, i, saved, steps).0;
            Travelled(def, j) && Placed(def, j) && j.definition == i.definition
    decreases max - steps
  {
    if steps < max && !w(steps).dies {
      RoundKeeps(def, i, w(steps));
      var r := OneRound(def, i, w(steps));
      if r.GoOn? {
        AdvancedKeeps(def, max, w, r.inst, if w(steps).saves then r.inst else saved, steps + 1);
      }
    }
  }

  lemma ChangedKeeps(cfg: Config, i: Instance, c: Call)
    requires Good(cfg, i)
    ensures Good(cfg, Changed(cfg, i, c).0)
  {
    var def := cfg.definitions[i.definition];
    match c
    case Execute(_, w) =>
      if !Final(i.status) {
        AdvancedKeeps(def, cfg.maxSteps, w, i.(status := Running), i, 0);
      }
    case Approve(_) =>
      if i.status.WaitingApproval? {
        var node := def.nodes[i.current];
        if node.next != [] {
          MoveKeeps(def, i, node.next[0]);
        } else {
          CompleteKeeps(def, i);
        }
      }
    case _ =>
  }

  lemma InvStep(cfg: Config, s: Store, c: Call)
    requires Inv(cfg, s) && Enabled(s, c)
    ensures Inv(cfg, Answered(cfg, s, c).0)
  {
    if c.id in s {
      ChangedKeeps(cfg, s[c.id], c);
    }
  }

  lemma {:induction false} RunKeeps(cfg: Config, s: Store, run: seq<Call>)
    requires Inv(cfg, s) && IsRun(cfg, s, run)
    ensures Inv(cfg, After(cfg, s, run))
    decreases |run|
  {
    if run != [] {
      InvStep(cfg, s, run[0]);
      RunKeeps(cfg, Answered(cfg, s, run[0]).0, run[1..]);
    }
  }

  // ---------- Gates ----------

  /** The call takes the instance on from the node where it stands. */
  predicate Leaves(i: Instance, i': Instance) {
    i'.trail != i.trail || i'.current != i.current || (i'.status.Completed? && !i.status.Completed?)
  }

  /** An instance at an approval node leaves it exactly when an approval finds it waiting there. Every
      other call leaves it where it is; so a restart after a crash asks for approval again. */
  lemma GateOpensOnlyByApproval(cfg: Config, i: Instance, c: Call)
    requires Good(cfg, i) && IsGate(cfg.definitions[i.definition], i.current)
    ensures Leaves(i, Changed(cfg, i, c).0) <==> c.Approve? && i.status.WaitingApproval?
    ensures c.Execute? && !Final(i.status) && cfg.maxSteps > 0 && !c.w(0).dies ==>
              Changed(cfg, i, c) == (i.(status := WaitingApproval), Done)
  {
    var def := cfg.definitions[i.definition];
    if c.Execute? && !Final(i.status) && cfg.maxSteps > 0 && !c.w(0).dies {
      assert OneRound(def, i.(status := Running), c.w(0)) == Stop(i.(status := WaitingApproval), Done);
    }
  }

  // ---------- Final statuses ----------

  lemma FinalStep(cfg: Config, i: Instance, c: Call)
    ensures i.status.Completed? || i.status.Cancelled? ==> Changed(cfg, i, c).0 == i
    ensures i.status.Failed? ==> Changed(cfg, i, c).0 == if c.Cancel? then i.(status := Cancelled) else i
  {
  }

  /** Over whole runs: completed and cancelled instances never change again, failed ones can at most
      be cancelled where they are. */
  lemma {:induction false} FinalForGood(cfg: Config, s: Store, run: seq<Call>, id: Id)
    requires IsRun(cfg, s, run) && id in s && Final(s[id].status)
    ensures var t := After(cfg, s, run);
            && id in t
            && (t[id] == s[id] || (s[id].status.Failed? && t[id] == s[id].(status := Cancelled)))
    decreases |run|
  {
    if run != [] {
      FinalStep(cfg, s[id], run[0]);
      FinalForGood(cfg, Answered(cfg, s, run[0]).0, run[1..], id);
    }
  }

  /** A rejected instance stays where it was rejected, whatever is called after. */
  lemma RejectedForGood(cfg: Config, s: Store, id: Id, run: seq<Call>)
    requires id in s && s[id].status.WaitingApproval?
    requires IsRun(cfg, Answered(cfg, s, Reject(id)).0, run)
    ensures var t := After(cfg, Answered(cfg, s, Reject(id)).0, run);
            id in t && (t[id] == s[id].(status := Failed) || t[id] == s[id].(status := Cancelled))
  {
    FinalForGood(cfg, Answered(cfg, s, Reject(id)).0, run, id);
  }

  // ---------- Bounded execution ----------

  /** A call visits no more than `maxSteps` further nodes, cyclic graph or not; and if it reports that
      the limit is exceeded, it has gone through that many nodes of the definition. */
  lemma {:induction false} AdvancedVisits(def: Definition, max: nat, w: World, i: Instance, saved: Instance, steps: nat)
    requires steps <= max && |saved.trail| <= |i.trail| && i.trail != [] && i.trail[|i.trail| - 1] == i.current
    ensures var (j, r) := Advanced(def, max, w, i, saved, steps);
            && |j.trail| <= |i.trail| + max - steps
            && (r.MaxStepsExceeded? ==>
                  && |j.trail| == |i.trail| + max - steps && i.trail <= j.trail
                  && forall k :: |i.trail| - 1 <= k < |j.trail| - 1 ==> j.trail[k] in def.nodes)
    decreases max - steps
  {
    if steps < max && !w(steps).dies && OneRound(def, i, w(steps)).GoOn? {
      var i' := OneRound(def, i, w(steps)).inst;
      AdvancedVisits(def, max, w, i', if w(steps).saves then i' else saved, steps + 1);
    }
  }

  lemma {:induction false} DistinctFit(s: seq<Id>, all: set<Id>)
    requires forall k :: 0 <= k < |s| ==> s[k] in all
    requires forall a, b :: 0 <= a < b < |s| ==> s[a] != s[b]
    ensures |s| <= |all|
  {
    if s != [] {
      DistinctFit(s[1..], all - {s[0]});
    }
  }

  ghost predicate Revisits(trail: seq<Id>, from: nat) {
    exists a, b :: from <= a < b < |trail| && trail[a] == trail[b]
  }

  /** With a limit above the number of nodes, a call exceeds it only if it has come back to a node it
      has already visited in the same call: the limit never stops an execution that makes progress. */
  lemma LimitStopsOnlyCycles(cfg: Config, i: Instance, c: Call)
    requires Good(cfg, i) && c.Execute? && cfg.maxSteps > |cfg.definitions[i.definition].nodes|
    ensures var (j, r) := Changed(cfg, i, c);
            && |j.trail| <= |i.trail| + cfg.maxSteps
            && (r.MaxStepsExceeded? ==> j.status.Failed? && Revisits(j.trail, |i.trail| - 1))
  {
    if !Final(i.status) {
      var def, started := cfg.definitions[i.definition], i.(status := Running);
      AdvancedVisits(def, cfg.maxSteps, c.w, started, i, 0);
      ExceededFails(def, cfg.maxSteps, c.w, started, i, 0);
      var (j, r) := Changed(cfg, i, c);
      if r.MaxStepsExceeded? {
        Pigeonhole(j.trail, |i.trail| - 1, def.nodes.Keys);
      }
    }
  }

  lemma Pigeonhole(trail: seq<Id>, from: nat, all: set<Id>)
    requires |trail| - 1 - from > |all|
    requires forall k :: from <= k < |trail| - 1 ==> trail[k] in all
    ensures Revisits(trail, from)
  {
    var visited := trail[from..|trail| - 1];
    if forall a, b :: 0 <= a < b < |visited| ==> visited[a] != visited[b] {
      DistinctFit(visited, all);
    } else {
      var a, b :| 0 <= a < b < |visited| && visited[a] == visited[b];
      assert trail[from + a] == trail[from + b];
    }
  }

  lemma {:induction false} ExceededFails(def: Definition, max: nat, w: World, i: Instance, saved: Instance, steps: nat)
    ensures var (j, r) := Advanced(def, max, w, i, saved, steps); r.MaxStepsExceeded? ==> j.status.Failed?
    decreases max - steps
  {
    if steps < max && !w(steps).dies && OneRound(def, i, w(steps)).GoOn? {
      var i' := OneRound(def, i, w(steps)).inst;
      ExceededFails(def, max, w, i', if w(steps).saves then i' else saved, steps + 1);
    }
  }

  // ---------- What one execution does, told by the nodes and the answers ----------

  /** A handler or a condition is called at this node. */
  predicate Asks(def: Definition, n: Id) {
    && n in def.nodes
    && var node := def.nodes[n];
       ((node.kind.Task? || node.kind.Parallel?) && node.hasHandler) || (node.kind.Condition? && node.hasCondition)
  }

  /** The engine cannot tell what to do at this node. */
  predicate Misdefined(def: Definition, n: Id) {
    n !in def.nodes || def.nodes[n].kind.Unknown? || (def.nodes[n].kind.Condition? && !def.nodes[n].hasCondition)
  }

  /** A node where an execution may end well: the instance completes, or waits for approval. */
  predicate Ends(def: Definition, n: Id) {
    && n in def.nodes
    && var node := def.nodes[n];
       node.kind.End? || node.kind.Approval? || ((node.kind.Task? || node.kind.Parallel?) && node.next == [])
  }

  /** Where an execution may go from a node that has answered `a`. */
  predicate LeadsTo(def: Definition, n: Id, a: Answer, next: Id) {
    && n in def.nodes && !Ends(def, n) && !Misdefined(def, n) && (Asks(def, n) ==> a.ok)
    && next == if def.nodes[n].kind.Condition? then a.next else def.nodes[n].next[0]
  }

  /** Rounds `from` to `to` each went on from the node that they found. */
  ghost predicate WentOn(def: Definition, w: World, trail: seq<Id>, base: nat, from: nat, to: nat) {
    && base + to < |trail|
    && forall k {:trigger w(k)} :: from <= k < to ==>
         !w(k).dies && LeadsTo(def, trail[base + k], w(k), trail[base + k + 1])
  }

  /** How a call ends at a node that has answered `a`: an error in the definition, a handler or condition
      that has failed, or done; and the status that goes with it. */
  ghost predicate EndsAt(def: Definition, a: Answer, j: Instance, r: Result) {
    && (r.InvalidNode? <==> Misdefined(def, j.current))
    && (r.HandlerFailed? <==> Asks(def, j.current) && !a.ok)
    && (r.Done? <==> Ends(def, j.current) && (Asks(def, j.current) ==> a.ok))
    && (r.Done? || r.InvalidNode? || r.HandlerFailed?)
    && j.status == if !r.Done? then Failed else if IsGate(def, j.current) then WaitingApproval else Completed
  }

  /** What one visit of a node comes to. */
  ghost predicate Visited(def: Definition, i: Instance, a: Answer, round: Round) {
    match round
    case GoOn(j) =>
      LeadsTo(def, i.current, a, j.current) && j == i.(current := j.current, trail := i.trail + [j.current])
    case Stop(j, r) => EndsAt(def, a, j, r) && j == i.(status := j.status)
  }

  /** How the call ends, in the round after the last one that went on. */
  ghost predicate EndsWith(def: Definition, max: nat, w: World, j: Instance, r: Result, last: nat) {
    if last == max then r.MaxStepsExceeded? && j.status.Failed?
    else !w(last).dies && EndsAt(def, w(last), j, r)
  }

  /** What is stored if the process dies in a round: the instance as it was before the call, or as it
      was at the last checkpoint that could be stored. */
  ghost predicate Saved(w: World, i: Instance, j: Instance, rounds: nat, died: nat) {
    && rounds <= died
    && (if rounds == 0 then j == i else j.status.Running? && w(rounds - 1).saves)
    && forall k {:trigger w(k)} :: rounds <= k < died ==> !w(k).saves
  }

  ghost predicate Executed(def: Definition, max: nat, w: World, i: Instance, j: Instance, r: Result) {
    && i.trail != [] && i.trail <= j.trail && j.trail[|j.trail| - 1] == j.current
    && (j.definition, j.approvals) == (i.definition, i.approvals)
    && var base, rounds := |i.trail| - 1, |j.trail| - |i.trail|;
       && rounds <= max && WentOn(def, w, j.trail, base, 0, rounds)
       && if r.Died? then exists died :: 0 <= died < max && w(died).dies && Saved(w, i, j, rounds, died)
          else EndsWith(def, max, w, j, r, rounds)
  }

  lemma RoundVisits(def: Definition, i: Instance, a: Answer)
    ensures Visited(def, i, a, OneRound(def, i, a))
  {
  }

  lemma {:induction false} AdvancedEnds(def: Definition, max: nat, w: World, i: Instance, saved: Instance,
                                        base: nat, steps: nat)
    requires i.trail != [] && i.trail[|i.trail| - 1] == i.current && base + steps == |i.trail| - 1 && steps <= max
    requires WentOn(def, w, i.trail, base, 0, steps)
    ensures var (j, r) := Advanced(def, max, w, i, saved, steps);
            !r.Died? ==>
              && i.trail <= j.trail && j.trail[|j.trail| - 1] == j.current && |j.trail| - 1 - base <= max
              && (j.definition, j.approvals) == (i.definition, i.approvals)
              && WentOn(def, w, j.trail, base, 0, |j.trail| - 1 - base)
              && EndsWith(def, max, w, j, r, |j.trail| - 1 - base)
    decreases max - steps
  {
    if steps < max && !w(steps).dies {
      RoundVisits(def, i, w(steps));
      var r := OneRound(def, i, w(steps));
      if r.GoOn? {
        WentFurther(def, w, i, base, steps, r.inst.current);
        AdvancedEnds(def, max, w, r.inst, if w(steps).saves then r.inst else saved, base, steps + 1);
      }
    }
  }

  lemma WentFurther(def: Definition, w: World, i: Instance, base: nat, steps: nat, to: Id)
    requires i.trail != [] && i.trail[|i.trail| - 1] == i.current && base + steps == |i.trail| - 1
    requires WentOn(def, w, i.trail, base, 0, steps) && !w(steps).dies && LeadsTo(def, i.current, w(steps), to)
    ensures WentOn(def, w, MoveTo(i, to).trail, base, 0, steps + 1)
  {
    var trail := MoveTo(i, to).trail;
    forall k {:trigger w(k)} | 0 <= k < steps + 1
      ensures !w(k).dies && LeadsTo(def, trail[base + k], w(k), trail[base + k + 1])
    {
    }
  }

  /** A stored instance, after the rounds before `died`. */
  ghost predicate Stored(def: Definition, w: World, first: Instance, j: Instance, base: nat, died: nat) {
    && base < |j.trail| && j.trail[|j.trail| - 1] == j.current && first.trail <= j.trail
    && (j.definition, j.approvals) == (first.definition, first.approvals)
    && WentOn(def, w, j.trail, base, 0, |j.trail| - 1 - base)
    && Saved(w, first, j, |j.trail| - 1 - base, died)
  }

  /** A checkpoint that is stored replaces what was stored before. */
  lemma CheckpointStored(def: Definition, w: World, first: Instance, i: Instance, saved: Instance,
                         base: nat, steps: nat, to: Id)
    requires i.trail != [] && base + steps == |i.trail| - 1 && i.status.Running? && first.trail <= i.trail
    requires (i.definition, i.approvals) == (first.definition, first.approvals)
    requires Stored(def, w, first, saved, base, steps) && WentOn(def, w, MoveTo(i, to).trail, base, 0, steps + 1)
    ensures Stored(def, w, first, if w(steps).saves then MoveTo(i, to) else saved, base, steps + 1)
  {
  }

  lemma {:induction false} AdvancedDies(def: Definition, max: nat, w: World, first: Instance, i: Instance,
                                        saved: Instance, base: nat, steps: nat)
    requires i.trail != [] && i.trail[|i.trail| - 1] == i.current && base + steps == |i.trail| - 1 && steps <= max
    requires WentOn(def, w, i.trail, base, 0, steps) && i.status.Running? && first.trail <= i.trail
    requires (i.definition, i.approvals) == (first.definition, first.approvals)
    requires Stored(def, w, first, saved, base, steps)
    ensures var (j, r) := Advanced(def, max, w, i, saved, steps);
            r.Died? ==> exists died :: 0 <= died < max && w(died).dies && Stored(def, w, first, j, base, died)
    decreases max - steps
  {
    if steps < max && !w(steps).dies {
      RoundVisits(def, i, w(steps));
      var r := OneRound(def, i, w(steps));
      if r.GoOn? {
        WentFurther(def, w, i, base, steps, r.inst.current);
        CheckpointStored(def, w, first, i, saved, base, steps, r.inst.current);
        AdvancedDies(def, max, w, first, r.inst, if w(steps).saves then r.inst else saved, base, steps + 1);
      }
    }
  }

  /** An approval takes the instance on to the first node after the gate, to be executed from there; a
      gate with none after it completes the instance. */
  predicate Approved(def: Definition, i: Instance, j: Instance) {
    && i.current in def.nodes && j.approvals == i.approvals + 1 && j.definition == i.definition
    && var next := def.nodes[i.current].next;
       if next == [] then j.status.Completed? && (j.current, j.trail) == (i.current, i.trail)
       else j.status.Running? && j.current == next[0] && j.trail == i.trail + [next[0]]
  }

  /** The whole of `Execute`: every node that it left behind had answered ok in its own round and led
      to the next; and the node where it stopped, with the answer given there, tells result and status. */
  lemma ExecuteLaw(cfg: Config, i: Instance, id: Id, w: World)
    requires Good(cfg, i) && !Final(i.status)
    ensures var (j, r) := Changed(cfg, i, Call.Execute(id, w));
            Executed(cfg.definitions[i.definition], cfg.maxSteps, w, i, j, r)
  {
    var def, started := cfg.definitions[i.definition], i.(status := Running);
    AdvancedEnds(def, cfg.maxSteps, w, started, i, |i.trail| - 1, 0);
    AdvancedDies(def, cfg.maxSteps, w, i, started, i, |i.trail| - 1, 0);
  }

  // ---------- The engine ----------

  class Engine {
    const cfg: Config
    var store: Store

    constructor (cfg: Config)
      ensures this.cfg == cfg && store == map[] && Inv(cfg, store)
    {
      this.cfg, store := cfg, map[];
    }

    method StartWorkflow(id: Id, definition: Id) returns (r: Result)
      requires Inv(cfg, store) && id !in store
      modifies this
      ensures Inv(cfg, store) && (store, r) == Answered(cfg, old(store), Call.StartWorkflow(id, definition))
      ensures r == if definition in cfg.definitions then Done else DefinitionNotFound
      ensures r.Done? ==>
                && id in store && store == old(store)[id := store[id]]
                && (store[id].definition, store[id].status, store[id].approvals) == (definition, Pending, 0)
                && store[id].trail == [store[id].current] == [cfg.definitions[definition].start]
      ensures !r.Done? ==> store == old(store)
    {
      InvStep(cfg, store, Call.StartWorkflow(id, definition));
      if definition !in cfg.definitions {
        return DefinitionNotFound;
      }
      var start := cfg.definitions[definition].start;
      store := store[id := Instance(definition, Pending, start, [start], 0)];
      return Done;
    }

    method Execute(id: Id, w: World) returns (r: Result)
      requires Inv(cfg, store)
      modifies this
      ensures Inv(cfg, store) && (store, r) == Answered(cfg, old(store), Call.Execute(id, w))
      ensures id !in old(store) ==> r.InstanceNotFound? && store == old(store)
      ensures id in old(store) && Final(old(store)[id].status) ==> r.WorkflowCompleted? && store == old(store)
      ensures id in old(store) && !Final(old(store)[id].status) ==>
                && id in store && store == old(store)[id := store[id]]
                && old(store)[id].definition in cfg.definitions
                && Executed(cfg.definitions[old(store)[id].definition], cfg.maxSteps, w, old(store)[id], store[id], r)
    {
      InvStep(cfg, store, Call.Execute(id, w));
      if id in store && !Final(store[id].status) {
        ExecuteLaw(cfg, store[id], id, w);
      }
      if id !in store {
        return InstanceNotFound;
      }
      var inst := store[id];
      if Final(inst.status) {
        assert store == store[id := inst];
        return WorkflowCompleted;
      }
      r := Advance(id, cfg.definitions[inst.definition], inst.(status := Running), w);
    }

    /** The loop. `store[id]` is what was stored last. */
    method Advance(id: Id, def: Definition, running: Instance, w: World) returns (r: Result)
      requires id in store
      modifies this
      ensures var (j, res) := Advanced(def, cfg.maxSteps, w, running, old(store)[id], 0);
              store == old(store)[id := j] && r == res
    {
      var inst, steps := running, 0;
      while true
        invariant id in store && store == old(store)[id := store[id]] && steps <= cfg.maxSteps
        invariant Advanced(def, cfg.maxSteps, w, inst, store[id], steps)
               == Advanced(def, cfg.maxSteps, w, running, old(store)[id], 0)
        decreases cfg.maxSteps - steps
      {
        if steps >= cfg.maxSteps {
          store := store[id := inst.(status := Failed)];
          return MaxStepsExceeded;
        }
        if w(steps).dies {
          return Died;
        }
        var round := Visit(def, inst, w(steps));
        if round.Stop? {
          store := store[id := round.inst];
          return round.result;
        }
        inst := round.inst;
        if w(steps).saves {
          store := store[id := inst];
        }
        steps := steps + 1;
      }
    }

    /** The switch over the kinds of node. */
    method Visit(def: Definition, loaded: Instance, a: Answer) returns (round: Round)
      ensures round == OneRound(def, loaded, a) && Visited(def, loaded, a, round)
    {
      RoundVisits(def, loaded, a);
      var inst := loaded;
      if inst.current !in def.nodes {
        return Stop(inst.(status := Failed), InvalidNode);
      }
      var node := def.nodes[inst.current];
      match node.kind {
        case End =>
          return Stop(inst.(status := Completed), Done);
        case Task | Parallel =>
          if node.hasHandler {
            if !a.ok {
              return Stop(inst.(status := Failed), HandlerFailed);
            }
          }
          if |node.next| == 0 {
            return Stop(inst.(status := Completed), Done);
          }
          return GoOn(MoveTo(inst, node.next[0]));
        case Approval =>
          return Stop(inst.(status := WaitingApproval), Done);
        case Condition =>
          if !node.hasCondition {
            return Stop(inst.(status := Failed), InvalidNode);
          }
          if !a.ok {
            return Stop(inst.(status := Failed), HandlerFailed);
          }
          return GoOn(MoveTo(inst, a.next));
        case Unknown =>
          return Stop(inst.(status := Failed), InvalidNode);
      }
    }

    method Approve(id: Id) returns (r: Result)
      requires Inv(cfg, store)
      modifies this
      ensures Inv(cfg, store) && (store, r) == Answered(cfg, old(store), Call.Approve(id))
      ensures r.Done? <==> id in old(store) && old(store)[id].status.WaitingApproval?
      ensures r.Done? ==>
                && id in store && store == old(store)[id := store[id]]
                && Approved(cfg.definitions[old(store)[id].definition], old(store)[id], store[id])
      ensures !r.Done? ==> store == old(store) && r == if id in old(store) then ApprovalRequired else InstanceNotFound
    {
      InvStep(cfg, store, Call.Approve(id));
      if id !in store {
        return InstanceNotFound;
      }
      var inst := store[id];
      if inst.status != WaitingApproval {
        assert store == store[id := inst];
        return ApprovalRequired;
      }
      var node := cfg.definitions[inst.definition].nodes[inst.current];
      inst := inst.(approvals := inst.approvals + 1);
      if |node.next| > 0 {
        inst := MoveTo(inst, node.next[0]);
        inst := inst.(status := Running);
      } else {
        inst := inst.(status := Completed);
      }
      store := store[id := inst];
      return Done;
    }

    method Reject(id: Id) returns (r: Result)
      requires Inv(cfg, store)
      modifies this
      ensures Inv(cfg, store) && (store, r) == Answered(cfg, old(store), Call.Reject(id))
      ensures r.Done? <==> id in old(store) && old(store)[id].status.WaitingApproval?
      ensures r.Done? ==> store == old(store)[id := old(store)[id].(status := Failed)]
      ensures !r.Done? ==> store == old(store) && r == if id in old(store) then ApprovalRequired else InstanceNotFound
    {
      InvStep(cfg, store, Call.Reject(id));
      if id !in store {
        return InstanceNotFound;
      }
      var inst := store[id];
      if inst.status != WaitingApproval {
        assert store == store[id := inst];
        return ApprovalRequired;
      }
      store := store[id := inst.(status := Failed)];
      return Done;
    }

    method Cancel(id: Id) returns (r: Result)
      requires Inv(cfg, store)
      modifies this
      ensures Inv(cfg, store) && (store, r) == Answered(cfg, old(store), Call.Cancel(id))
      ensures r.Done? <==> id in old(store) && !old(store)[id].status.Completed? && !old(store)[id].status.Cancelled?
      ensures r.Done? ==> store == old(store)[id := old(store)[id].(status := Cancelled)]
      ensures !r.Done? ==> store == old(store) && r == if id in old(store) then WorkflowCompleted else InstanceNotFound
    {
      InvStep(cfg, store, Call.Cancel(id));
      if id !in store {
        return InstanceNotFound;
      }
      var inst := store[id];
      if inst.status == Completed || inst.status == Cancelled {
        assert store == store[id := inst];
        return WorkflowCompleted;
      }
      store := store[id := inst.(status := Cancelled)];
      return Done;
    }
  }
}
