/**
  The capability registry: providers by id, and capabilities by the composite
  key `providerId:capabilityId`, both as insertion-ordered maps. Registration
  only ever adds or overwrites entries; nothing is removed.
 */
module ServiceRegistry {
  import opened Wrappers
  import opened Seqs
  import opened JsValues
  import opened ServiceTypes
  import OrderedMap

  datatype Registry = Registry(
    providers: OrderedMap.OMap<string, Provider>,
    capabilities: OrderedMap.OMap<string, Capability>)

  /** Both maps are well-formed and every provider is stored under its own id. */
  ghost predicate Valid(reg: Registry) {
    && OrderedMap.Valid(reg.providers)
    && OrderedMap.Valid(reg.capabilities)
    && forall id | id in reg.providers.entries :: reg.providers.entries[id].id == id
  }

  /** Every capability a stored provider lists has an entry under its composite key. */
  ghost predicate Indexed(reg: Registry) {
    forall id, c | id in reg.providers.entries && c in reg.providers.entries[id].capabilities ::
      CapabilityKey(id, c.id) in reg.capabilities.entries
  }

  /** The composite index key `${serviceId}:${capabilityId}`. */
  function CapabilityKey(serviceId: string, capabilityId: string): string {
    serviceId + ":" + capabilityId
  }

  /** For one provider id, distinct capability ids give distinct keys. */
  lemma KeyInjective(serviceId: string, a: string, b: string)
    requires CapabilityKey(serviceId, a) == CapabilityKey(serviceId, b)
    ensures a == b
  {
    var n := |serviceId| + 1;
    assert a == CapabilityKey(serviceId, a)[n..];
    assert b == CapabilityKey(serviceId, b)[n..];
  }

  /** Across provider ids the key is not injective: a `:` inside an id is ambiguous. */
  lemma KeyCollision()
    ensures CapabilityKey("a:b", "c") == CapabilityKey("a", "b:c")
    ensures "a:b" != "a"
  {
  }

  /** The keys a list of capabilities is indexed under. */
  ghost function KeysOf(serviceId: string, caps: seq<Capability>): set<string> {
    set c | c in caps :: CapabilityKey(serviceId, c.id)
  }

  /** Position `i` holds the last capability of `caps` with its id. */
  ghost predicate LastOfId(caps: seq<Capability>, i: int) {
    0 <= i < |caps| && forall j | i < j < |caps| :: caps[j].id != caps[i].id
  }

  /** A fresh registry. */
  function New(): (reg: Registry)
    ensures Valid(reg) && Indexed(reg)
    ensures reg.providers.entries == map[] && reg.capabilities.entries == map[]
  {
    Registry(OrderedMap.Empty(), OrderedMap.Empty())
  }

  /** How the keys and last positions of a capability list relate to those of its tail. */
  lemma IndexStep(serviceId: string, caps: seq<Capability>)
    requires |caps| > 0
    ensures KeysOf(serviceId, caps) == {CapabilityKey(serviceId, caps[0].id)} + KeysOf(serviceId, caps[1..])
    ensures forall i | LastOfId(caps, i) && i > 0 :: LastOfId(caps[1..], i - 1)
    ensures LastOfId(caps, 0) ==> CapabilityKey(serviceId, caps[0].id) !in KeysOf(serviceId, caps[1..])
  {
    var key := CapabilityKey(serviceId, caps[0].id);
    assert caps == [caps[0]] + caps[1..];
    if LastOfId(caps, 0) && key in KeysOf(serviceId, caps[1..]) {
      var c :| c in caps[1..] && CapabilityKey(serviceId, c.id) == key;
      KeyInjective(serviceId, c.id, caps[0].id);
      assert false;
    }
  }

  /**
    The `forEach` that indexes a provider's capabilities, first to last: every
    key of the list is present afterwards, holding the last capability with
    that id; every other key keeps its entry.
   */
  function Index(index: OrderedMap.OMap<string, Capability>, serviceId: string, caps: seq<Capability>)
    : (r: OrderedMap.OMap<string, Capability>)
    ensures OrderedMap.Valid(index) ==> OrderedMap.Valid(r)
    ensures r.entries.Keys == index.entries.Keys + KeysOf(serviceId, caps)
    ensures forall k | k in index.entries && k !in KeysOf(serviceId, caps) :: r.entries[k] == index.entries[k]
    ensures forall i | LastOfId(caps, i) :: r.entries[CapabilityKey(serviceId, caps[i].id)] == caps[i]
    decreases |caps|
  {
    if |caps| == 0 then index
    else
      var key := CapabilityKey(serviceId, caps[0].id);
      var r := Index(OrderedMap.Set(index, key, caps[0]), serviceId, caps[1..]);
      IndexStep(serviceId, caps);
      r
  }

  /** The provider's capability list after its discovery hook, if any, has run once. */
  function Expand(p: Provider): (r: Result<seq<Capability>, Thrown>)
    ensures p.discover.None? ==> r == Success(p.capabilities)
    ensures p.discover.Some? && p.discover.value().Success? ==>
              r == Success(p.capabilities + p.discover.value().value)
    ensures p.discover.Some? && p.discover.value().Failure? ==>
              r == Failure(p.discover.value().error)
  {
    match p.discover
    case None => Success(p.capabilities)
    case Some(hook) =>
      match hook()
      case Success(found) => Success(p.capabilities + found)
      case Failure(e) => Failure(e)
  }

  /**
    `registerProvider`: run discovery, then store the provider (with its
    expanded list) under its id and index each capability. A throwing
    discovery hook leaves the registry as it was, since it runs before any
    write.
   */
  function RegisterProvider(reg: Registry, p: Provider): (r: Result<Registry, Thrown>)
    ensures r.Failure? <==> Expand(p).Failure?
    ensures r.Failure? ==> r.error == Expand(p).error
    ensures r.Success? ==>
              var caps := Expand(p).value;
              && r.value.providers.entries == reg.providers.entries[p.id := p.(capabilities := caps)]
              && r.value.capabilities.entries.Keys == reg.capabilities.entries.Keys + KeysOf(p.id, caps)
              && (forall k | k in reg.capabilities.entries && k !in KeysOf(p.id, caps) ::
                    r.value.capabilities.entries[k] == reg.capabilities.entries[k])
              && (forall i | LastOfId(caps, i) ::
                    r.value.capabilities.entries[CapabilityKey(p.id, caps[i].id)] == caps[i])
    ensures r.Success? && Valid(reg) ==> Valid(r.value)
    ensures r.Success? && Indexed(reg) ==> Indexed(r.value)
  {
    match Expand(p)
    case Failure(e) => Failure(e)
    case Success(caps) =>
      var stored := p.(capabilities := caps);
      var next := Registry(
        OrderedMap.Set(reg.providers, p.id, stored),
        Index(reg.capabilities, p.id, caps));
      assert Indexed(reg) ==> Indexed(next) by {
        if Indexed(reg) {
          forall id, c | id in next.providers.entries && c in next.providers.entries[id].capabilities
            ensures CapabilityKey(id, c.id) in next.capabilities.entries
          {
            if id == p.id {
              assert CapabilityKey(id, c.id) in KeysOf(p.id, caps);
            }
          }
        }
      }
      Success(next)
  }

  /** `getProvider(id)`. */
  function GetProvider(reg: Registry, id: string): (r: Option<Provider>)
    ensures r.Some? <==> id in reg.providers.entries
    ensures r.Some? ==> r.value == reg.providers.entries[id]
    ensures r.Some? && Valid(reg) ==> r.value.id == id
  {
    OrderedMap.Get(reg.providers, id)
  }

  /** `getCapability(serviceId, capabilityId)`: a lookup of the composite key only. */
  function GetCapability(reg: Registry, serviceId: string, capabilityId: string): (r: Option<Capability>)
    ensures r.Some? <==> CapabilityKey(serviceId, capabilityId) in reg.capabilities.entries
    ensures r.Some? ==> r.value == reg.capabilities.entries[CapabilityKey(serviceId, capabilityId)]
  {
    OrderedMap.Get(reg.capabilities, CapabilityKey(serviceId, capabilityId))
  }

  /**
    After a successful registration the provider is found under its id, with
    its expanded capability list, and every capability is found under its id:
    for repeated ids, the last one in the list.
   */
  lemma RegisterThenGet(reg: Registry, p: Provider)
    requires RegisterProvider(reg, p).Success?
    ensures GetProvider(RegisterProvider(reg, p).value, p.id) == Some(p.(capabilities := Expand(p).value))
    ensures forall i | LastOfId(Expand(p).value, i) ::
              GetCapability(RegisterProvider(reg, p).value, p.id, Expand(p).value[i].id) == Some(Expand(p).value[i])
  {
  }

  /** `getAllCapabilities()`: one capability per composite key, in first-insertion order. */
  function GetAllCapabilities(reg: Registry): (caps: seq<Capability>)
    ensures Valid(reg) ==> |caps| == |reg.capabilities.keys| == |reg.capabilities.entries|
    ensures Valid(reg) ==> forall i | 0 <= i < |caps| ::
              caps[i] == reg.capabilities.entries[reg.capabilities.keys[i]]
  {
    OrderedMap.ValuesOfValid(reg.capabilities);
    OrderedMap.Values(reg.capabilities)
  }

  /** `discoverServices()`: one provider per registered id, in first-registration order. */
  function DiscoverServices(reg: Registry): (ps: seq<Provider>)
    ensures Valid(reg) ==> |ps| == |reg.providers.keys| == |reg.providers.entries|
    ensures Valid(reg) ==> forall i | 0 <= i < |ps| ::
              ps[i] == reg.providers.entries[reg.providers.keys[i]] && ps[i].id == reg.providers.keys[i]
  {
    OrderedMap.ValuesOfValid(reg.providers);
    OrderedMap.Values(reg.providers)
  }
}
