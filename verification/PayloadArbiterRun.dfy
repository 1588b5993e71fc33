/** Runs of the arbiter: one evicting plan at a time, whatever else happens in between. */
module PayloadArbiterRun {
  import opened Wrappers
  import opened AdmissionCapacity
  import opened RetentionScan
  import opened PayloadDemand
  import opened PayloadArbiter

  /** A demand under one registration. */
  type Plan = (EventId, nat)

  datatype State = State(index: Index, demands: DemandState)

  /** What may happen to the arbiter; a relief request says what else it meets inside its transaction. */
  datatype Op =
    | Mutate(rows: map<Key, IndexRow>, grace: map<Key, IndexRow>)
    | Join(event: EventId, binding: Binding, now: Timestamp, usage: Usage, leased: set<EventId>, missing: set<EventId>, ready: bool)
    | Leave(event: EventId, id: nat)
    | Finished(events: set<EventId>)
    | Reattach
    | Relieve(request: Request)

  datatype Reply = Silent | Joined(registered: bool) | Stepped(step: DemandStep)

  /**
   Events whose envelope is unknown are never missing, an index with a due grace deadline is
   never ready, and a scan limit is positive.
   */
  ghost function Met(known: set<EventId>, index: Index, r: Request): Request {
    r.(missing := r.missing * known,
       ready := r.ready && forall k | k in index.grace :: !Evictable(index.grace[k], None, r.now),
       scanLimit := if r.scanLimit == 0 then 1 else r.scanLimit)
  }

  /** What one operation does to the arbiter, and what it answers. */
  ghost predicate Transition(ranks: map<EventId, Incoming>, s: State, op: Op, reply: Reply, t: State) {
    match op
    case Mutate(rows, grace) => reply == Silent && t == State(Index(s.index.revision + 1, rows, grace), s.demands)
    case Join(e, binding, now, usage, leased, missing, ready) =>
      reply.Joined? && t.index == s.index
      && Registers(ranks, s.demands, t.demands, e, binding, now, usage, leased, missing * ranks.Keys, ready, reply.registered)
    case Leave(e, id) => reply == Silent && t == s.(demands := if e in s.demands.entries && s.demands.entries[e].id == id
                                              then s.demands.(entries := s.demands.entries - {e}) else s.demands)
    case Finished(events) => reply == Silent && t == s.(demands := s.demands.(entries := s.demands.entries - events))
    case Reattach => reply == Silent && t == s.(demands := DemandState(None, None, map[], s.demands.nextId))
    case Relieve(r) =>
      reply.Stepped? && Relieves(ranks, s.index, t.index, s.demands, t.demands, Met(ranks.Keys, s.index, r), reply.step)
  }

  /** A run: a sound state before and after every operation, and each operation leads from one to the next. */
  ghost predicate Execution(ranks: map<EventId, Incoming>, states: seq<State>, ops: seq<Op>, replies: seq<Reply>) {
    && |replies| == |ops| && |states| == |ops| + 1
    && (forall i | 0 <= i < |states| :: DemandsSound(ranks, states[i].index, states[i].demands))
    && (forall i | 0 <= i < |ops| :: Transition(ranks, states[i], ops[i], replies[i], states[i + 1]))
  }

  /** Operation `i` evicted a payload for this plan. */
  ghost predicate Evicts(states: seq<State>, ops: seq<Op>, replies: seq<Reply>, i: nat, plan: Plan)
    requires i < |ops| <= |states| && |replies| == |ops|
  {
    ops[i].Relieve? && replies[i].Stepped? && replies[i].step.Pruned?
    && replies[i].step.demand == plan.0 && Registered(states[i].demands, plan)
  }

  /** At preemption step `i` the plan's exact demand is registered, unexpired, still missing and not yet reserved. */
  ghost predicate Alive(known: set<EventId>, states: seq<State>, ops: seq<Op>, i: nat, plan: Plan)
    requires i < |ops| <= |states|
  {
    && ops[i].Relieve? && Registered(states[i].demands, plan)
    && plan.0 in LiveDemands(states[i].demands, ops[i].request.now, ops[i].request.leased, ops[i].request.missing * known)
  }

  /** Operation `j` evicts for the plan or evicts nothing, and rejects nothing. */
  ghost predicate Yields(states: seq<State>, ops: seq<Op>, replies: seq<Reply>, j: nat, plan: Plan)
    requires j < |ops| <= |states| && |replies| == |ops|
  {
    replies[j].Stepped? ==> (replies[j].step.Pruned? ==> Evicts(states, ops, replies, j, plan)) && !replies[j].step.Rejected?
  }

  ghost predicate ExclusiveAt(known: set<EventId>, states: seq<State>, ops: seq<Op>, replies: seq<Reply>, i: nat, j: nat, plan: Plan)
    requires i < j < |ops| <= |states| && |replies| == |ops|
  {
    Evicts(states, ops, replies, i, plan) && Alive(known, states, ops, j, plan) ==> Yields(states, ops, replies, j, plan)
  }

  /** Once a plan has evicted, no other plan evicts and none is rejected while its demand lives. */
  ghost predicate AlwaysExclusive(known: set<EventId>, states: seq<State>, ops: seq<Op>, replies: seq<Reply>)
    requires |ops| <= |states| && |replies| == |ops|
  {
    forall i, j, plan: Plan | 0 <= i < j < |ops| :: ExclusiveAt(known, states, ops, replies, i, j, plan)
  }

  lemma TransitionContinues(ranks: map<EventId, Incoming>, s: State, op: Op, reply: Reply, t: State)
    requires DemandsSound(ranks, s.index, s.demands) && Transition(ranks, s, op, reply, t)
    ensures Continues(s.demands, t.demands)
  {
    match op {
      case Join(e, binding, now, usage, leased, missing, ready) =>
        if ready && e in missing * ranks.Keys {
          var state := Rebound(s.demands, binding, now);
          ReboundSound(ranks, s.index, s.demands, binding, now);
          if t.demands != state {
            EnrolledSound(ranks, s.index, state, e, now);
            ContinuesOn(s.demands, state, t.demands);
          }
        }
      case Leave(_, _) => FewerSound(ranks, s.index, s.demands, t.demands);
      case Finished(_) => FewerSound(ranks, s.index, s.demands, t.demands);
      case Reattach => FewerSound(ranks, s.index, s.demands, t.demands);
      case _ =>
    }
  }

  /** A plan that has evicted is the active one for as long as it is registered. */
  lemma {:induction false} EvictingHeld(ranks: map<EventId, Incoming>, states: seq<State>, ops: seq<Op>,
                                        replies: seq<Reply>, i: nat, n: nat, plan: Plan)
    requires Execution(ranks, states, ops, replies) && i < n <= |ops| && Evicts(states, ops, replies, i, plan)
    ensures plan.1 <= states[n].demands.nextId
    ensures Registered(states[n].demands, plan) ==> states[n].demands.active == Some(plan)
  {
    assert Transition(ranks, states[n - 1], ops[n - 1], replies[n - 1], states[n]);
    if n > i + 1 {
      EvictingHeld(ranks, states, ops, replies, i, n - 1, plan);
      TransitionContinues(ranks, states[n - 1], ops[n - 1], replies[n - 1], states[n]);
    }
  }

  /**
   Over every run, whatever operations come in between: after a plan has evicted, every later step at
   which its exact demand is still alive evicts for that plan or not at all, and rejects nothing.
   */
  lemma Exclusive(ranks: map<EventId, Incoming>, states: seq<State>, ops: seq<Op>, replies: seq<Reply>, i: nat,
                  j: nat, plan: Plan)
    requires Execution(ranks, states, ops, replies) && i < j < |ops|
    requires Evicts(states, ops, replies, i, plan) && Alive(ranks.Keys, states, ops, j, plan)
    ensures Yields(states, ops, replies, j, plan)
  {
    EvictingHeld(ranks, states, ops, replies, i, j, plan);
    assert Transition(ranks, states[j], ops[j], replies[j], states[j + 1]);
  }

  /** One operation of a run. */
  method Apply(arbiter: Arbiter, op: Op) returns (reply: Reply)
    requires arbiter.Valid()
    modifies arbiter
    ensures arbiter.Valid()
    ensures Transition(arbiter.ranks, old(State(arbiter.index, arbiter.demands)), op, reply, State(arbiter.index, arbiter.demands))
  {
    reply := Silent;
    match op {
      case Mutate(rows, grace) =>
        arbiter.MutateIndex(Index(arbiter.index.revision + 1, rows, grace));
      case Join(e, binding, now, usage, leased, missing, ready) =>
        var registered := arbiter.Register(e, binding, now, usage, leased, missing * arbiter.ranks.Keys, ready);
        reply := Joined(registered);
      case Leave(e, id) =>
        arbiter.DropOwner(e, id);
      case Finished(events) =>
        arbiter.Complete(events);
      case Reattach =>
        arbiter.Attach();
      case Relieve(r) =>
        var step := arbiter.Preempt(r.(missing := r.missing * arbiter.ranks.Keys,
                                       ready := r.ready && SelectionReady(arbiter.index, r.now),
                                       scanLimit := if r.scanLimit == 0 then 1 else r.scanLimit));
        reply := Stepped(step);
    }
  }

  /** The arbiter, given any operations in any order, performs a run from its own state to its own state. */
  method Run(arbiter: Arbiter, ops: seq<Op>) returns (replies: seq<Reply>, ghost states: seq<State>)
    requires arbiter.Valid()
    modifies arbiter
    ensures arbiter.Valid() && Execution(arbiter.ranks, states, ops, replies)
    ensures states[0] == old(State(arbiter.index, arbiter.demands)) && states[|ops|] == State(arbiter.index, arbiter.demands)
    ensures AlwaysExclusive(arbiter.ranks.Keys, states, ops, replies)
  {
    replies, states := [], [State(arbiter.index, arbiter.demands)];
    for i := 0 to |ops|
      invariant arbiter.Valid() && Execution(arbiter.ranks, states, ops[..i], replies)
      invariant states[0] == old(State(arbiter.index, arbiter.demands)) && states[i] == State(arbiter.index, arbiter.demands)
    {
      var reply := Apply(arbiter, ops[i]);
      assert ops[..i + 1] == ops[..i] + [ops[i]];
      replies, states := replies + [reply], states + [State(arbiter.index, arbiter.demands)];
    }
    assert ops[..|ops|] == ops;
    forall i, j, plan: Plan | 0 <= i < j < |ops| ensures ExclusiveAt(arbiter.ranks.Keys, states, ops, replies, i, j, plan) {
      if Evicts(states, ops, replies, i, plan) && Alive(arbiter.ranks.Keys, states, ops, j, plan) {
        Exclusive(arbiter.ranks, states, ops, replies, i, j, plan);
      }
    }
  }
}
