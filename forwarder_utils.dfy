/**
 * The older helper file of the forwarder library: the same broadcast id and
 * hex rendering as the shared helpers, but its config lookups return the
 * whole stored `Config` rather than the section inside it.
 */
module ForwarderUtils {
  import opened Wrappers
  import opened Mesh
  import CommonUtils

  /** `getLoraConfig` of the library: the whole config stored under the LoRa variant number. */
  function GetLoraConfig(configs: map<int, Config>): (r: Option<Config>)
    ensures r.Some? <==> LoraCase in configs
    ensures r.Some? ==> r.value == configs[LoraCase]
  {
    if LoraCase in configs then Some(configs[LoraCase]) else None
  }

  /** `getSecurityConfig` of the library: the whole config stored under the security variant number. */
  function GetSecurityConfig(configs: map<int, Config>): (r: Option<Config>)
    ensures r.Some? <==> SecurityCase in configs
    ensures r.Some? ==> r.value == configs[SecurityCase]
  {
    if SecurityCase in configs then Some(configs[SecurityCase]) else None
  }

  /**
   * The two lookup styles agree on a map filled by variant number: the shared
   * helper's section is the section inside this helper's whole config.
   */
  lemma LoraLookupsAgree(configs: map<int, Config>)
    requires forall k :: k in configs ==> ConfigCase(configs[k]) == k
    ensures CommonUtils.GetLoraConfig(configs).Some? <==> GetLoraConfig(configs).Some?
    ensures GetLoraConfig(configs).Some? ==>
      GetLoraConfig(configs).value.LoraSection? &&
      CommonUtils.GetLoraConfig(configs).value == GetLoraConfig(configs).value.lora
  {
  }

  lemma SecurityLookupsAgree(configs: map<int, Config>)
    requires forall k :: k in configs ==> ConfigCase(configs[k]) == k
    ensures CommonUtils.GetSecurityConfig(configs).Some? <==> GetSecurityConfig(configs).Some?
    ensures GetSecurityConfig(configs).Some? ==>
      GetSecurityConfig(configs).value.SecuritySection? &&
      CommonUtils.GetSecurityConfig(configs).value == GetSecurityConfig(configs).value.security
  {
  }
}
