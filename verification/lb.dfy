/** The "imbalancer" load-balancing policy (`ImbalancerLb`): a shell that holds
    at most one child policy between calls, created by name through the registry, and
    forwards every call to it. Each transition is a pure function returning
    the next state, the status handed back to the caller, and the calls the
    policy made on children, in order. */
module Lb {
  import opened Wrappers
  import opened Statuses
  import opened Config

  /** Identity of a child policy instance; every creation yields a new one. */
  type ChildId = nat

  /** `LoadBalancingPolicy::UpdateArgs`: the config (a possibly null pointer)
      plus the addresses and resolution note, opaque here as `P`, and the
      channel arguments, opaque as `A`. */
  datatype UpdateArgs<Cfg, P, A> = UpdateArgs(config: Option<Cfg>, payload: P, args: A)

  /** A call the policy makes on a child or on the registry for a child. */
  datatype Event<C, P, A> =
    | Created(id: ChildId, name: string, args: A)
    | Updated(id: ChildId, update: UpdateArgs<C, P, A>)
    | ExitedIdle(id: ChildId)
    | BackoffReset(id: ChildId)
    | Destroyed(id: ChildId)

  /** The policy's fields. `nextId` is the allocator: the id the next created
      child will get, above every id handed out so far. */
  datatype LbState = LbState(
    shuttingDown: bool,
    childPolicyName: string,
    childPolicy: Option<ChildId>,
    nextId: ChildId)

  /** The collaborators the policy consults: whether the registry creates a
      child for a name and channel arguments, and the status a child returns
      from an update. */
  datatype Env<!C, !P, !A> = Env(
    create: (string, A) -> bool,
    childUpdate: (ChildId, UpdateArgs<C, P, A>) -> Status)

  /** The outcome of one transition. Calls that return nothing in the source
      report `OkStatus`. */
  datatype Step<C, P, A> = Step(next: LbState, status: Status, events: seq<Event<C, P, A>>)

  /** A freshly constructed policy: not shutting down, no child, empty name. */
  const Initial: LbState := LbState(false, "", None, 0)

  const MissingConfigMessage: string := "imbalancer: missing config"
  const CreateFailedMessage: string := "imbalancer: failed to create child policy"

  /** The children alive according to the state: none or the one held. */
  function Children(st: LbState): set<ChildId> {
    if st.childPolicy.Some? then {st.childPolicy.value} else {}
  }

  /** The facts every reachable state keeps: a held child's id was handed out
      by the allocator, and a policy shutting down holds no child. */
  ghost predicate Valid(st: LbState) {
    && (st.childPolicy.Some? ==> st.childPolicy.value < st.nextId)
    && (st.shuttingDown ==> st.childPolicy.None?)
  }

  /** The update forwarded to the child: the caller's arguments with the
      config replaced by the child's own config. */
  function ChildArgs<C, P, A>(args: UpdateArgs<ImbalancerConfig<C>, P, A>, config: ImbalancerConfig<C>)
    : UpdateArgs<C, P, A>
  {
    UpdateArgs(Some(config.childConfig), args.payload, args.args)
  }

  /** The release of the held child, if any. */
  function Release<C, P, A>(st: LbState): seq<Event<C, P, A>> {
    if st.childPolicy.Some? then [Destroyed(st.childPolicy.value)] else []
  }

  /** Forwards an update to the child held in `st` and returns its status. */
  function Forward<C, P, A>(st: LbState, args: UpdateArgs<ImbalancerConfig<C>, P, A>,
                            config: ImbalancerConfig<C>, env: Env<C, P, A>, before: seq<Event<C, P, A>>)
    : Step<C, P, A>
    requires st.childPolicy.Some?
  {
    var id := st.childPolicy.value;
    Step(st, env.childUpdate(id, ChildArgs(args, config)), before + [Updated(id, ChildArgs(args, config))])
  }

  /** `UpdateLocked`. The name is stored before creation is attempted; the new
      child is created before the old one is released (assigning over the
      owning pointer); a failed creation still releases the old child. */
  function UpdateLocked<C, P, A>(st: LbState, args: UpdateArgs<ImbalancerConfig<C>, P, A>, env: Env<C, P, A>)
    : (r: Step<C, P, A>)
    // After shutdown: success, and nothing happens.
    ensures st.shuttingDown ==> r == Step(st, OkStatus, [])
    // A null config is rejected with no side effect.
    ensures !st.shuttingDown && args.config.None? ==>
      r == Step(st, InvalidArgumentError(MissingConfigMessage), [])
    // Same name as the live child: that child gets the update, nothing else happens.
    ensures !st.shuttingDown && args.config.Some? && st.childPolicy.Some?
            && st.childPolicyName == args.config.value.childPolicyName ==>
      var id := st.childPolicy.value;
      && r.next == st
      && r.events == [Updated(id, UpdateArgs(Some(args.config.value.childConfig), args.payload, args.args))]
      && r.status == env.childUpdate(id, r.events[0].update)
    // No child, or a different name: the name is stored, the old child released.
    ensures !st.shuttingDown && args.config.Some?
            && (st.childPolicy.None? || st.childPolicyName != args.config.value.childPolicyName) ==>
      && r.next.childPolicyName == args.config.value.childPolicyName
      && !r.next.shuttingDown
      && (st.childPolicy.Some? ==> Destroyed(st.childPolicy.value) in r.events)
      && (!env.create(args.config.value.childPolicyName, args.args) ==>
            && r.next.childPolicy.None?
            && r.status == InvalidArgumentError(CreateFailedMessage)
            && r.events == Release(st))
      && (env.create(args.config.value.childPolicyName, args.args) ==>
            && r.next.childPolicy == Some(st.nextId)
            && r.events == [Created(st.nextId, args.config.value.childPolicyName, args.args)]
                            + Release(st) + [Updated(st.nextId, ChildArgs(args, args.config.value))]
            && r.status == env.childUpdate(st.nextId, ChildArgs(args, args.config.value)))
    // Never more than one child is created per update.
    ensures forall i, j :: 0 <= i < j < |r.events| && r.events[i].Created? ==> !r.events[j].Created?
    ensures Valid(st) ==> Valid(r.next)
  {
    if st.shuttingDown then Step(st, OkStatus, [])
    else if args.config.None? then Step(st, InvalidArgumentError(MissingConfigMessage), [])
    else
      var config := args.config.value;
      if st.childPolicy.None? || st.childPolicyName != config.childPolicyName then
        var named := st.(childPolicyName := config.childPolicyName);
        if env.create(config.childPolicyName, args.args) then
          var id := st.nextId;
          var created := named.(childPolicy := Some(id), nextId := id + 1);
          Forward(created, args, config, env, [Created(id, config.childPolicyName, args.args)] + Release(st))
        else
          Step(named.(childPolicy := None), InvalidArgumentError(CreateFailedMessage), Release(st))
      else
        Forward(st, args, config, env, [])
  }

  /** The outcome of a call that returns nothing: the next state and the
      child the call reached, if any. */
  datatype Signal = Signal(next: LbState, reached: Option<ChildId>)

  /** `ExitIdleLocked`: forwarded to the child if there is one. */
  function ExitIdleLocked(st: LbState): (r: Signal)
    ensures r.next == st
    ensures r.reached == st.childPolicy
  {
    if st.childPolicy.Some? then Signal(st, Some(st.childPolicy.value)) else Signal(st, None)
  }

  /** `ResetBackoffLocked`: forwarded to the child if there is one. */
  function ResetBackoffLocked(st: LbState): (r: Signal)
    ensures r.next == st
    ensures r.reached == st.childPolicy
  {
    if st.childPolicy.Some? then Signal(st, Some(st.childPolicy.value)) else Signal(st, None)
  }

  /** `ShutdownLocked`: marks the policy as shutting down and releases the
      child, which `reached` names. The stored name is left as it was. */
  function ShutdownLocked(st: LbState): (r: Signal)
    ensures r.next.shuttingDown && r.next.childPolicy.None?
    ensures r.next.childPolicyName == st.childPolicyName && r.next.nextId == st.nextId
    ensures r.reached == st.childPolicy
    ensures Valid(r.next)
  {
    Signal(st.(shuttingDown := true, childPolicy := None), st.childPolicy)
  }
}
