/** The plugin of packages/esw/src/plugins/external.ts: the same rules and
    resolver as `ExternalMark`, registered under another name. */
module External {
  import opened Wrappers
  import ExternalMark

  const PluginName: string := "external-deps"

  /** `setup`: no resolver for an empty dependency list, else one rule per
      name, resolved by `ExternalMark.OnResolve`. */
  function Setup(deps: seq<string>): (p: ExternalMark.Plugin)
    ensures p.name == PluginName
    ensures p.resolver.None? <==> deps == []
    ensures p.resolver.Some? ==> p.resolver.value == deps
  {
    ExternalMark.Plugin(PluginName, if |deps| < 1 then None else Some(deps))
  }

  /** Both plugins register the same resolver for the same dependencies. */
  lemma SameResolverAsExternalMark(deps: seq<string>)
    ensures Setup(deps).resolver == ExternalMark.Setup(deps).resolver
    ensures Setup(deps).name != ExternalMark.Setup(deps).name
  {
    assert PluginName[1] != ExternalMark.PluginName[1];
  }
}
