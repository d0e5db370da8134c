# imbalancer: a verified model

A model of the "imbalancer" load-balancing policy of a gRPC core fork. The
policy is a shell: it parses its own JSON config into a child policy name and a
child config validated by the policy registry, then holds at most one child
policy between calls, created by name through the registry, forwards updates, idle-exit and
backoff-reset signals to it, and releases it on shutdown.

Layout:

- `wrappers.dfy` (`Wrappers`): `Option` (a nullable pointer) and `Result` (`absl::StatusOr`).
- `statuses.dfy` (`Statuses`): status codes, `OkStatus`, `InvalidArgumentError`.
- `json.dfy` (`JsonValue`): the JSON tree.
- `config.dfy` (`Config`): `ImbalancerConfig` and `ParseLoadBalancingConfig`. The registry's
  config parser is the function parameter `registryParse`.
- `lb.dfy` (`Lb`): the policy's fields and its four transitions as pure functions returning
  the next state, the status, and the calls made on children (`Created`, `Updated`,
  `ExitedIdle`, `BackoffReset`, `Destroyed`). Child creation and a child's reply to an update
  come from `Env`. The three calls that return nothing report which child they reached. Each created child gets a fresh id from the allocator field `nextId`.
- `lb_trace.dfy` (`LbTrace`): runs over sequences of calls, and a ledger that replays a trace
  from the children's side. Every call must reach a live child, and every creation must use
  an id never used before.

Where the code differs from what one might expect of it, the model follows the code:

- `UpdateLocked` creates the new child before it releases the old one. Assigning the new
  pointer over the old one is what releases it. So a replacement's trace is
  `Created(new), Destroyed(old), Updated(new)`. It is not destroy-first.
- When creation fails, the old child is still released and the new name is still stored.
  The policy then holds no child but remembers the name it failed to create. A stored name
  therefore does not imply that a child is present. Shutdown also keeps the name.
- The shutdown check comes before the null-config check. After shutdown, even a null config
  gets OK.

## Model

| member | source | states |
|---|---|---|
| Config.ParseLoadBalancingConfig | src/core/load_balancing/imbalancer/imbalancer.cc:124-148 | a registry error is returned verbatim; on success the config holds the chosen child name and exactly what the registry returned, and its kind name is "imbalancer" (line 38) |
| Config.RegistryRequestShape | src/core/load_balancing/imbalancer/imbalancer.cc:139-144 | the registry receives a one-element array whose only object has exactly one key, the chosen child name, mapped to an object |
| Config.DefaultsApply | src/core/load_balancing/imbalancer/imbalancer.cc:126-128 | a non-object input or `{}` makes the registry parse `[{"round_robin": {}}]`, a non-object parses exactly like `{}`, and a success names "round_robin" |
| Config.IllTypedChildPolicyIgnored | src/core/load_balancing/imbalancer/imbalancer.cc:129-132 | a non-string "childPolicy" never causes an error by itself: the input parses exactly as if the member were absent |
| Config.IllTypedChildConfigIgnored | src/core/load_balancing/imbalancer/imbalancer.cc:133-136 | a non-object "childPolicyConfig" never causes an error by itself: the input parses exactly as if the member were absent |
| Config.UnknownMembersIgnored | src/core/load_balancing/imbalancer/imbalancer.cc:128-137 | members other than "childPolicy" and "childPolicyConfig" do not affect the result |
| Config.ChildPolicyAloneGetsEmptyConfig | src/core/load_balancing/imbalancer/imbalancer.cc:127-136 | an object with a string "childPolicy" and no "childPolicyConfig" sends `[{name: {}}]` to the registry |
| Config.ChildConfigAloneGetsDefaultName | src/core/load_balancing/imbalancer/imbalancer.cc:126-136 | an object with an object "childPolicyConfig" and no "childPolicy" sends `[{"round_robin": config}]` to the registry, and a success names "round_robin" |
| Config.WellTypedFieldsUsed | src/core/load_balancing/imbalancer/imbalancer.cc:129-147 | a string name and an object config are used as given: the registry sees `[{name: config}]` and a success yields a config naming that child |
| Config.ParseThroughCanonicalForm | src/core/load_balancing/imbalancer/imbalancer.cc:126-147 | every input parses exactly as the canonical form of the name and config chosen from it |
| Lb.UpdateLocked | src/core/load_balancing/imbalancer/imbalancer.cc:56-75 | after shutdown: OK with no effect; a null config: "missing config" with no effect; same name: only the held child is updated, with the config swapped for the child config, and its status returned; otherwise the name is stored and the old child released; a refused creation gives "failed to create child policy" and leaves no child; a successful one creates one fresh child before the release and updates it |
| Lb.ExitIdleLocked | src/core/load_balancing/imbalancer/imbalancer.cc:77-79 | the idle-exit signal reaches exactly the held child, and nothing without a child; the state is unchanged |
| Lb.ResetBackoffLocked | src/core/load_balancing/imbalancer/imbalancer.cc:81-83 | the backoff-reset signal reaches exactly the held child, and nothing without a child; the state is unchanged |
| Lb.ShutdownLocked | src/core/load_balancing/imbalancer/imbalancer.cc:105-108 | the policy is marked shutting down and holds no child; exactly the held child, if any, is released; the name is kept |
| LbTrace.ApplyReplays | src/core/load_balancing/imbalancer/imbalancer.cc:56-108 | every single call on the policy makes child calls that reach live children and creates only new ids, and leaves the live set equal to the held child |
| LbTrace.RunReplays | src/core/load_balancing/imbalancer/imbalancer.cc:56-108 | the same holds for any sequence of calls |
| LbTrace.AtMostOneChild | src/core/load_balancing/imbalancer/imbalancer.cc:110-112 | from a fresh policy, after any sequence of calls, after every completed call the live children are exactly the held one, so there is never more than one between calls (within a replacement the new child is created before the old is released) |
| LbTrace.ShutdownIdempotent | src/core/load_balancing/imbalancer/imbalancer.cc:105-108 | a second shutdown changes nothing and calls nothing |
| LbTrace.ShutdownIsTerminal | src/core/load_balancing/imbalancer/imbalancer.cc:57 | once shutting down with no child, any sequence of calls leaves the state unchanged and calls no child |
| LbTrace.NoChildAfterShutdown | src/core/load_balancing/imbalancer/imbalancer.cc:105-108 | after a shutdown, no sequence of calls creates or calls a child again |
| LbTrace.SameNameSameChild | src/core/load_balancing/imbalancer/imbalancer.cc:63-74 | two updates naming the same child: the child updated by the first also receives the second, and nothing is created or released |
| LbTrace.NameChangeReplaces | src/core/load_balancing/imbalancer/imbalancer.cc:63-70 | an update naming a different child creates a new child, then releases the old one, then updates the new one; if the registry refuses, the old child is released, none remains, and the new name is kept |

## Left out

- The `Helper` control-channel adapter (lines 86-92 and 99-100). It holds a counted reference back to the parent, and its behaviour lives in library base classes that are not part of this model.
- The work serializer (line 97). Calls are modelled as already serialized: a run applies them one after another.
- The registry's internals (lines 101-102 and 142-144). Creation is `Env.create` and config parsing is the `registryParse` parameter.
- `ImbalancerFactory::CreateLoadBalancingPolicy` and `RegisterImbalancerLbPolicy` (lines 117-120 and 153-156). They are construction and registration wiring with no logic. The policy and factory `name()` (lines 54 and 122) is the constant `Config.PolicyName`.
- The contents of `ChannelArgs` and of the addresses and resolution note in `UpdateArgs`. They are the opaque type parameters `A` and `P`, passed through unchanged.
- A config of a kind other than `ImbalancerConfig`. The source `static_cast`s it, which is undefined behaviour, so the model's types admit only `ImbalancerConfig`.
- Logging, and the `OrphanablePtr`/`RefCountedPtr` memory semantics. A release is the `Destroyed` event.
- Lb.UpdateLocked: a child's reply depends only on its id and the forwarded arguments (`Env.childUpdate`). A child's internal state and its reaction to idle-exit, backoff-reset and release are not modelled.
