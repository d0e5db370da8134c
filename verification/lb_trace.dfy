/** Runs of the policy over sequences of calls, and the children's view of
    the calls it makes: a ledger of live and ever-created children that the
    trace must respect. */
module LbTrace {
  import opened Wrappers
  import opened Statuses
  import opened Config
  import opened Lb

  /** One call the framework makes on the policy. */
  datatype Op<C, P, A> =
    | Update(args: UpdateArgs<ImbalancerConfig<C>, P, A>)
    | ExitIdle
    | ResetBackoff
    | Shutdown

  /** The child call a signal makes on the child it reaches, if any. */
  function SignalEvents<C, P, A>(reached: Option<ChildId>, call: ChildId -> Event<C, P, A>): seq<Event<C, P, A>> {
    if reached.Some? then [call(reached.value)] else []
  }

  function Apply<C, P, A>(st: LbState, op: Op<C, P, A>, env: Env<C, P, A>): Step<C, P, A> {
    match op
    case Update(args) => UpdateLocked(st, args, env)
    case ExitIdle =>
      var s := ExitIdleLocked(st);
      Step(s.next, OkStatus, SignalEvents(s.reached, id => ExitedIdle(id)))
    case ResetBackoff =>
      var s := ResetBackoffLocked(st);
      Step(s.next, OkStatus, SignalEvents(s.reached, id => BackoffReset(id)))
    case Shutdown =>
      var s := ShutdownLocked(st);
      Step(s.next, OkStatus, SignalEvents(s.reached, id => Destroyed(id)))
  }

  /** The state a run ends in and every child call it made, in order. */
  datatype History<C, P, A> = History(final: LbState, events: seq<Event<C, P, A>>)

  /** Applies `ops` one after another, as the work serializer runs them. */
  function Run<C, P, A>(st: LbState, ops: seq<Op<C, P, A>>, env: Env<C, P, A>): History<C, P, A>
    decreases |ops|
  {
    if ops == [] then History(st, [])
    else
      var s := Apply(st, ops[0], env);
      var h := Run(s.next, ops[1..], env);
      History(h.final, s.events + h.events)
  }

  /** The children's side of a trace: who is alive, and every id ever created. */
  datatype Ledger = Ledger(live: set<ChildId>, born: set<ChildId>)

  const EmptyLedger: Ledger := Ledger({}, {})

  /** One event seen by the children: a creation must use an id never used
      before, and every other call must reach a live child. `None` marks a
      trace that breaks one of these rules. */
  function ReplayOne<C, P, A>(l: Ledger, e: Event<C, P, A>): Option<Ledger> {
    match e
    case Created(id, _, _) => if id in l.born then None else Some(Ledger(l.live + {id}, l.born + {id}))
    case Destroyed(id) => if id in l.live then Some(Ledger(l.live - {id}, l.born)) else None
    case _ => if e.id in l.live then Some(l) else None
  }

  function Replay<C, P, A>(l: Ledger, events: seq<Event<C, P, A>>): Option<Ledger>
    decreases |events|
  {
    if events == [] then Some(l)
    else
      match ReplayOne(l, events[0])
      case None => None
      case Some(l') => Replay(l', events[1..])
  }

  /** Replaying two traces one after the other is replaying their concatenation. */
  lemma {:induction false} ReplayAppend<C, P, A>(l: Ledger, a: seq<Event<C, P, A>>, b: seq<Event<C, P, A>>)
    ensures Replay(l, a + b) == (match Replay(l, a) case None => None case Some(m) => Replay(m, b))
    decreases |a|
  {
    if a == [] {
      assert a + b == b;
    } else {
      assert (a + b)[0] == a[0];
      assert (a + b)[1..] == a[1..] + b;
      match ReplayOne(l, a[0])
      case None =>
      case Some(l') => ReplayAppend(l', a[1..], b);
    }
  }

  /** The ledger agrees with a state: its live children are the state's, every
      id it has seen lies below the allocator, and the state is valid. */
  ghost predicate Tracks(st: LbState, l: Ledger) {
    && Valid(st)
    && l.live == Children(st)
    && forall id :: id in l.born ==> id < st.nextId
  }

  /** Every transition makes calls the children can accept, and leaves a
      ledger that agrees with the next state. */
  lemma ApplyReplays<C, P, A>(st: LbState, l: Ledger, op: Op<C, P, A>, env: Env<C, P, A>)
    requires Tracks(st, l)
    ensures var s := Apply(st, op, env);
      Replay(l, s.events).Some? && Tracks(s.next, Replay(l, s.events).value)
  {
    var s := Apply(st, op, env);
    match op
    case Update(args) =>
      if !st.shuttingDown && args.config.Some? {
        var config := args.config.value;
        if st.childPolicy.None? || st.childPolicyName != config.childPolicyName {
          if env.create(config.childPolicyName, args.args) {
            var n := st.nextId;
            var created := Ledger(l.live + {n}, l.born + {n});
            assert ReplayOne(l, s.events[0]) == Some(created);
            var after := Ledger({n}, l.born + {n});
            var update: seq<Event<C, P, A>> := [Updated(n, ChildArgs(args, config))];
            assert Replay(after, update) == Some(after) by {
              assert update[1..] == [];
            }
            if st.childPolicy.Some? {
              var rest := s.events[1..];
              assert rest == [Destroyed(st.childPolicy.value)] + update;
              assert ReplayOne(created, rest[0]) == Some(after);
              assert rest[1..] == update;
            } else {
              assert created == after;
              assert s.events[1..] == update;
            }
            assert Replay(created, s.events[1..]) == Some(after);
            assert Replay(l, s.events) == Some(after);
          }
        }
      }
    case ExitIdle =>
    case ResetBackoff =>
    case Shutdown =>
  }

  /** A whole run makes calls the children can accept, and its ledger agrees
      with the state it ends in. */
  lemma {:induction false} RunReplays<C, P, A>(st: LbState, l: Ledger, ops: seq<Op<C, P, A>>, env: Env<C, P, A>)
    requires Tracks(st, l)
    ensures var h := Run(st, ops, env);
      Replay(l, h.events).Some? && Tracks(h.final, Replay(l, h.events).value)
    decreases |ops|
  {
    if ops != [] {
      var s := Apply(st, ops[0], env);
      ApplyReplays(st, l, ops[0], env);
      var m := Replay(l, s.events).value;
      RunReplays(s.next, m, ops[1..], env);
      ReplayAppend(l, s.events, Run(s.next, ops[1..], env).events);
    }
  }

  /** From a freshly constructed policy, after any sequence of calls: every
      call reached a live child, every child created was new, and exactly
      the children the policy holds are alive, so never more than one once
      the call completes (a replacement creates before it releases). */
  lemma AtMostOneChild<C, P, A>(ops: seq<Op<C, P, A>>, env: Env<C, P, A>)
    ensures var h := Run(Initial, ops, env);
      && Replay(EmptyLedger, h.events).Some?
      && Replay(EmptyLedger, h.events).value.live == Children(h.final)
      && |Replay(EmptyLedger, h.events).value.live| <= 1
      && Valid(h.final)
  {
    RunReplays(Initial, EmptyLedger, ops, env);
  }

  /** Shutting down twice is the same as shutting down once. */
  lemma ShutdownIdempotent(st: LbState)
    ensures var once := ShutdownLocked(st).next;
      ShutdownLocked(once) == Signal(once, None)
  {
  }

  /** A policy that is shutting down ignores every later call: the state never
      changes and no child is ever called or created. */
  lemma {:induction false} ShutdownIsTerminal<C, P, A>(st: LbState, ops: seq<Op<C, P, A>>, env: Env<C, P, A>)
    requires st.shuttingDown && st.childPolicy.None?
    ensures Run(st, ops, env) == History(st, [])
    decreases |ops|
  {
    if ops != [] {
      ShutdownIsTerminal(st, ops[1..], env);
    }
  }

  /** After `ShutdownLocked`, whatever comes next, no child exists again. */
  lemma NoChildAfterShutdown<C, P, A>(st: LbState, ops: seq<Op<C, P, A>>, env: Env<C, P, A>)
    ensures var down := ShutdownLocked(st).next;
      && Run(down, ops, env).final.childPolicy.None?
      && Run(down, ops, env).events == []
  {
    ShutdownIsTerminal(ShutdownLocked(st).next, ops, env);
  }

  /** Two updates naming the same child: once the first leaves a child, the
      second reaches that very child, and nothing is created or released. */
  lemma SameNameSameChild<C, P, A>(st: LbState, a1: UpdateArgs<ImbalancerConfig<C>, P, A>,
                                   a2: UpdateArgs<ImbalancerConfig<C>, P, A>, env: Env<C, P, A>)
    requires Valid(st)
    requires a1.config.Some? && a2.config.Some?
    requires a1.config.value.childPolicyName == a2.config.value.childPolicyName
    requires UpdateLocked(st, a1, env).next.childPolicy.Some?
    ensures var s1 := UpdateLocked(st, a1, env);
      var id := s1.next.childPolicy.value;
      && |s1.events| > 0
      && s1.events[|s1.events| - 1] == Updated(id, ChildArgs(a1, a1.config.value))
      && UpdateLocked(s1.next, a2, env)
         == Step(s1.next, env.childUpdate(id, ChildArgs(a2, a2.config.value)),
                 [Updated(id, ChildArgs(a2, a2.config.value))])
  {
  }

  /** Two updates naming different children: the second creates a new child
      first, then releases the old one, then updates the new one. When the
      registry refuses, the old child is still released, no child remains,
      and the new name is kept. */
  lemma NameChangeReplaces<C, P, A>(st: LbState, a1: UpdateArgs<ImbalancerConfig<C>, P, A>,
                                    a2: UpdateArgs<ImbalancerConfig<C>, P, A>, env: Env<C, P, A>)
    requires Valid(st)
    requires a1.config.Some? && a2.config.Some?
    requires a1.config.value.childPolicyName != a2.config.value.childPolicyName
    requires UpdateLocked(st, a1, env).next.childPolicy.Some?
    ensures var s1 := UpdateLocked(st, a1, env);
      var prev := s1.next.childPolicy.value;
      var s2 := UpdateLocked(s1.next, a2, env);
      var name := a2.config.value.childPolicyName;
      && s2.next.childPolicyName == name
      && (env.create(name, a2.args) ==>
            && s2.next.childPolicy.Some? && s2.next.childPolicy.value != prev
            && s2.events == [Created(s2.next.childPolicy.value, name, a2.args), Destroyed(prev),
                             Updated(s2.next.childPolicy.value, ChildArgs(a2, a2.config.value))])
      && (!env.create(name, a2.args) ==>
            && s2.next.childPolicy.None?
            && s2.events == [Destroyed(prev)]
            && s2.status == InvalidArgumentError(CreateFailedMessage))
  {
  }
}
