/** The "imbalancer" policy's configuration and its parser
    (`ImbalancerConfig` and `ImbalancerFactory::ParseLoadBalancingConfig`). */
module Config {
  import opened Wrappers
  import opened Statuses
  import opened JsonValue

  /** The name under which the policy, its factory and its config are known. */
  const PolicyName: string := "imbalancer"

  /** The child policy used when the input does not name one. */
  const DefaultChildPolicy: string := "round_robin"

  const ChildPolicyKey: string := "childPolicy"
  const ChildPolicyConfigKey: string := "childPolicyConfig"

  /** A parsed configuration: the child policy's name and the child's own
      config as the registry produced it (type `C` is opaque here). */
  datatype ImbalancerConfig<C> = ImbalancerConfig(childPolicyName: string, childConfig: C) {
    /** The config's kind, the same for every instance. */
    function Name(): string {
      PolicyName
    }
  }

  /** The child policy name the parser settles on: the "childPolicy" member
      when the input is an object holding it as a string, the default otherwise. */
  function ChosenChildPolicy(json: Json): string {
    if json.Object? && ChildPolicyKey in json.members && json.members[ChildPolicyKey].String?
    then json.members[ChildPolicyKey].s
    else DefaultChildPolicy
  }

  /** The child config the parser settles on: the "childPolicyConfig" member
      when the input is an object holding it as an object, `{}` otherwise. */
  function ChosenChildConfig(json: Json): Json {
    if json.Object? && ChildPolicyConfigKey in json.members && json.members[ChildPolicyConfigKey].Object?
    then json.members[ChildPolicyConfigKey]
    else EmptyObject
  }

  /** A load-balancing config list naming one policy: `[{name: config}]`. */
  function LbConfigList(name: string, config: Json): Json {
    Array([Object(map[name := config])])
  }

  /** What the parser hands to the registry for a given input. */
  function RegistryRequest(json: Json): Json {
    LbConfigList(ChosenChildPolicy(json), ChosenChildConfig(json))
  }

  /** Parses the policy's JSON config. Absent or wrongly-typed fields fall back
      to the defaults; the child's part is validated by `registryParse`, the
      registry's own config parser, whose error is passed back unchanged. */
  function ParseLoadBalancingConfig<C>(json: Json, registryParse: Json -> Result<C, Status>)
    : (r: Result<ImbalancerConfig<C>, Status>)
    ensures r.Failure? ==> registryParse(RegistryRequest(json)) == Failure(r.error)
    ensures r.Success? ==> registryParse(RegistryRequest(json)) == Success(r.value.childConfig)
    ensures r.Success? ==> r.value.childPolicyName == ChosenChildPolicy(json)
    ensures r.Success? ==> r.value.Name() == PolicyName
  {
    var childPolicy := ChosenChildPolicy(json);
    match registryParse(LbConfigList(childPolicy, ChosenChildConfig(json)))
    case Failure(e) => Failure(e)
    case Success(childConfig) => Success(ImbalancerConfig(childPolicy, childConfig))
  }

  /** The registry always receives a one-element array whose only object has
      exactly one key, the chosen child name, mapped to an object. */
  lemma RegistryRequestShape(json: Json)
    ensures var req := RegistryRequest(json);
      && req.Array?
      && |req.items| == 1
      && req.items[0].Object?
      && req.items[0].members.Keys == {ChosenChildPolicy(json)}
      && req.items[0].members[ChosenChildPolicy(json)] == ChosenChildConfig(json)
      && ChosenChildConfig(json).Object?
  {
  }

  /** A non-object input, like `{}`, gets the full defaults: the registry is
      asked to parse `[{"round_robin": {}}]`, and a success names "round_robin". */
  lemma DefaultsApply<C>(json: Json, registryParse: Json -> Result<C, Status>)
    requires !json.Object? || json.members == map[]
    ensures RegistryRequest(json) == Array([Object(map["round_robin" := Object(map[])])])
    ensures var r := ParseLoadBalancingConfig(json, registryParse);
      r.Success? ==> r.value.childPolicyName == "round_robin"
    ensures ParseLoadBalancingConfig(json, registryParse) == ParseLoadBalancingConfig(EmptyObject, registryParse)
  {
  }

  /** A "childPolicy" member that is not a string is ignored: the input parses
      exactly as if the member were absent. */
  lemma IllTypedChildPolicyIgnored<C>(members: map<string, Json>, registryParse: Json -> Result<C, Status>)
    requires ChildPolicyKey in members && !members[ChildPolicyKey].String?
    ensures ParseLoadBalancingConfig(Object(members), registryParse)
         == ParseLoadBalancingConfig(Object(members - {ChildPolicyKey}), registryParse)
  {
    assert ChildPolicyConfigKey != ChildPolicyKey;
  }

  /** A "childPolicyConfig" member that is not an object is ignored: the input
      parses exactly as if the member were absent. */
  lemma IllTypedChildConfigIgnored<C>(members: map<string, Json>, registryParse: Json -> Result<C, Status>)
    requires ChildPolicyConfigKey in members && !members[ChildPolicyConfigKey].Object?
    ensures ParseLoadBalancingConfig(Object(members), registryParse)
         == ParseLoadBalancingConfig(Object(members - {ChildPolicyConfigKey}), registryParse)
  {
    assert ChildPolicyConfigKey != ChildPolicyKey;
  }

  /** Members other than the two known ones have no effect on the result. */
  lemma UnknownMembersIgnored<C>(members: map<string, Json>, registryParse: Json -> Result<C, Status>)
    ensures ParseLoadBalancingConfig(Object(members), registryParse)
         == ParseLoadBalancingConfig(
              Object(map k | k in members && k in {ChildPolicyKey, ChildPolicyConfigKey} :: members[k]),
              registryParse)
  {
  }

  /** A string "childPolicy" on its own names the child, and the child config
      falls back to `{}`. */
  lemma ChildPolicyAloneGetsEmptyConfig<C>(members: map<string, Json>, registryParse: Json -> Result<C, Status>)
    requires ChildPolicyKey in members && members[ChildPolicyKey].String?
    requires ChildPolicyConfigKey !in members
    ensures RegistryRequest(Object(members)) == LbConfigList(members[ChildPolicyKey].s, EmptyObject)
    ensures var r := ParseLoadBalancingConfig(Object(members), registryParse);
      r.Success? ==> r.value.childPolicyName == members[ChildPolicyKey].s
  {
  }

  /** An object "childPolicyConfig" on its own is handed to the registry, and
      the child name falls back to "round_robin". */
  lemma ChildConfigAloneGetsDefaultName<C>(members: map<string, Json>, registryParse: Json -> Result<C, Status>)
    requires ChildPolicyConfigKey in members && members[ChildPolicyConfigKey].Object?
    requires ChildPolicyKey !in members
    ensures RegistryRequest(Object(members)) == LbConfigList("round_robin", members[ChildPolicyConfigKey])
    ensures var r := ParseLoadBalancingConfig(Object(members), registryParse);
      r.Success? ==> r.value.childPolicyName == "round_robin"
  {
  }

  /** The canonical JSON form of a choice of child name and child config. */
  function ConfigJson(childPolicy: string, childConfig: map<string, Json>): Json {
    Object(map[ChildPolicyKey := String(childPolicy), ChildPolicyConfigKey := Object(childConfig)])
  }

  /** Well-typed fields are used as given: parsing the canonical form of a
      choice hands that very choice to the registry and, on success, yields
      a config naming that child. */
  lemma WellTypedFieldsUsed<C>(childPolicy: string, childConfig: map<string, Json>,
                               registryParse: Json -> Result<C, Status>)
    ensures ChosenChildPolicy(ConfigJson(childPolicy, childConfig)) == childPolicy
    ensures ChosenChildConfig(ConfigJson(childPolicy, childConfig)) == Object(childConfig)
    ensures var r := ParseLoadBalancingConfig(ConfigJson(childPolicy, childConfig), registryParse);
      match registryParse(LbConfigList(childPolicy, Object(childConfig)))
      case Failure(e) => r == Failure(e)
      case Success(c) => r == Success(ImbalancerConfig(childPolicy, c))
  {
    assert ChildPolicyConfigKey != ChildPolicyKey;
  }

  /** Every input parses exactly as the canonical form of what the parser
      chose from it: the choice is all the parser keeps of the input. */
  lemma ParseThroughCanonicalForm<C>(json: Json, registryParse: Json -> Result<C, Status>)
    ensures ChosenChildConfig(json).Object?
    ensures ParseLoadBalancingConfig(json, registryParse)
         == ParseLoadBalancingConfig(ConfigJson(ChosenChildPolicy(json), ChosenChildConfig(json).members),
                                     registryParse)
  {
    WellTypedFieldsUsed(ChosenChildPolicy(json), ChosenChildConfig(json).members, registryParse);
  }
}
