/**
 * The device config store: every CONFIG message from the radio is kept under
 * the number of the section it carries, replacing the one received before,
 * and the whole map is published after each change.
 */
module ConfigStore {
  import opened Wrappers
  import opened Mesh
  import CommonUtils

  /** Every stored config sits under its own section number. */
  predicate KeyedByCase(configs: map<int, Config>) {
    forall k :: k in configs ==> ConfigCase(configs[k]) == k
  }

  /** `configs.compute(case) { message.config }`: the section's entry is replaced, every other key kept. */
  function Put(configs: map<int, Config>, config: Config): (r: map<int, Config>)
    ensures r.Keys == configs.Keys + {ConfigCase(config)}
    ensures r[ConfigCase(config)] == config
    ensures forall k :: k in configs && k != ConfigCase(config) ==> r[k] == configs[k]
  {
    configs[ConfigCase(config) := config]
  }

  /** Storing keeps every entry under its own section number. */
  lemma PutKeyed(configs: map<int, Config>, config: Config)
    requires KeyedByCase(configs)
    ensures KeyedByCase(Put(configs, config))
  {
  }

  /**
   * After a LoRa section is stored, the LoRa lookup finds exactly it; storing
   * any other section leaves the lookup's answer as it was.
   */
  lemma PutThenLoraLookup(configs: map<int, Config>, config: Config)
    ensures config.LoraSection? ==> CommonUtils.GetLoraConfig(Put(configs, config)) == Some(config.lora)
    ensures !config.LoraSection? ==>
      CommonUtils.GetLoraConfig(Put(configs, config)) == CommonUtils.GetLoraConfig(configs)
  {
    if !config.LoraSection? {
      assert ConfigCase(config) != LoraCase;
      assert (LoraCase in Put(configs, config)) == (LoraCase in configs);
    }
  }

  /** The same for the security section. */
  lemma PutThenSecurityLookup(configs: map<int, Config>, config: Config)
    ensures config.SecuritySection? ==>
      CommonUtils.GetSecurityConfig(Put(configs, config)) == Some(config.security)
    ensures !config.SecuritySection? ==>
      CommonUtils.GetSecurityConfig(Put(configs, config)) == CommonUtils.GetSecurityConfig(configs)
  {
    if !config.SecuritySection? {
      assert ConfigCase(config) != SecurityCase;
      assert (SecurityCase in Put(configs, config)) == (SecurityCase in configs);
    }
  }

  class ConfigStoreComponent {
    /** `configs`: section number to the last config received for it. */
    var configs: map<int, Config>
    /** The last value published on `configsFlow`. */
    var snapshot: map<int, Config>

    ghost predicate Valid()
      reads this
    {
      KeyedByCase(configs) && snapshot == configs
    }

    constructor()
      ensures Valid() && configs == map[]
    {
      configs := map[];
      snapshot := map[];
    }

    /** `consume`: a CONFIG message is stored and the map published; any other message is ignored. */
    method Consume(message: FromRadio)
      requires Valid()
      modifies this
      ensures Valid()
      ensures message.FromConfig? ==> configs == Put(old(configs), message.config)
      ensures !message.FromConfig? ==> configs == old(configs)
    {
      if message.FromConfig? {
        PutKeyed(configs, message.config);
        configs := Put(configs, message.config);
        snapshot := configs;
      }
    }
  }
}
