/** The registry of conversation contexts that have translation turned on:
    the shared `HashMap` from `(network, channel)` to
    `(source_lang, target_lang)` that every handler of src/lib.rs consults
    (`get_channel_langs`, `activate`, `deactivate`). */
module Registry {
  import opened Wrappers

  /** `(network, channel)`: the identity of one conversation context. */
  type ChanKey = (string, string)

  /** `(source_lang, target_lang)`: the translation chosen for a context. */
  type ChanLangs = (string, string)

  /** The key of the current context, when the host names both its network
      and its channel (`get_info("network")`, `get_info("channel")`). */
  function CurrentKey(network: Option<string>, channel: Option<string>): (k: Option<ChanKey>)
    ensures k.Some? <==> network.Some? && channel.Some?
    ensures k.Some? ==> k.value.0 == network.value && k.value.1 == channel.value
  {
    if network.Some? && channel.Some? then Some((network.value, channel.value)) else None
  }

  class ChannelRegistry {
    var chanMap: map<ChanKey, ChanLangs>

    /** The registry as the plugin creates it on load: no context active. */
    constructor ()
      ensures chanMap == map[]
    {
      chanMap := map[];
    }

    /** `get_channel_langs`: the translation of the current context, or
        None when the host does not name the network or the channel, or the
        context has no entry. Being a function, it leaves the map as it is. */
    function GetChannelLangs(network: Option<string>, channel: Option<string>): (r: Option<ChanLangs>)
      reads this
      ensures r.Some? <==> network.Some? && channel.Some? && (network.value, channel.value) in chanMap
      ensures r.Some? ==> r.value == chanMap[(network.value, channel.value)]
    {
      match CurrentKey(network, channel)
      case None => None
      case Some(key) => if key in chanMap then Some(chanMap[key]) else None
    }

    /** `activate`: turns translation on for the current context, replacing
        any earlier choice for it. The source `expect`s both host answers,
        so a missing network or channel name panics before the map is
        touched. */
    method Activate(network: Option<string>, channel: Option<string>, source: string, dest: string)
      returns (r: Outcome<()>)
      modifies this
      ensures network.None? ==> r == Panicked("Unable to get network name.")
      ensures network.Some? && channel.None? ==> r == Panicked("Unable to get channel name.")
      ensures r.Returned? <==> network.Some? && channel.Some?
      ensures r.Panicked? ==> chanMap == old(chanMap)
      ensures r.Returned? ==> chanMap == old(chanMap)[(network.value, channel.value) := (source, dest)]
      ensures r.Returned? ==> GetChannelLangs(network, channel) == Some((source, dest))
      ensures forall k :: k in old(chanMap) && CurrentKey(network, channel) != Some(k) ==>
                k in chanMap && chanMap[k] == old(chanMap)[k]
    {
      if network.None? {
        return Panicked("Unable to get network name.");
      }
      if channel.None? {
        return Panicked("Unable to get channel name.");
      }
      chanMap := chanMap[(network.value, channel.value) := (source, dest)];
      return Returned(());
    }

    /** `deactivate`: turns translation off for the current context; a
        context that had none is left as it was. Missing host answers panic
        as in `Activate`. */
    method Deactivate(network: Option<string>, channel: Option<string>)
      returns (r: Outcome<()>)
      modifies this
      ensures network.None? ==> r == Panicked("Unable to get network name.")
      ensures network.Some? && channel.None? ==> r == Panicked("Unable to get channel name.")
      ensures r.Returned? <==> network.Some? && channel.Some?
      ensures r.Panicked? ==> chanMap == old(chanMap)
      ensures r.Returned? ==> chanMap == old(chanMap) - {(network.value, channel.value)}
      ensures r.Returned? ==> GetChannelLangs(network, channel) == None
      ensures CurrentKey(network, channel) == None || CurrentKey(network, channel).value !in old(chanMap) ==>
                chanMap == old(chanMap)
      ensures forall k :: k in old(chanMap) && CurrentKey(network, channel) != Some(k) ==>
                k in chanMap && chanMap[k] == old(chanMap)[k]
    {
      if network.None? {
        return Panicked("Unable to get network name.");
      }
      if channel.None? {
        return Panicked("Unable to get channel name.");
      }
      chanMap := chanMap - {(network.value, channel.value)};
      return Returned(());
    }
  }
}
