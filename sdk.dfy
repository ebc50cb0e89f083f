/** The DeckLink driver, seen from quad_cfg as an abstract collaborator.

    The vendor SDK is not modelled; what quad_cfg relies on is: an
    enumeration of devices that may be unavailable (no driver installed),
    per-device interface queries that may fail, integer attributes read
    through the interfaces, a configuration write with a separate persist
    step, and reference-counted handles that must be released exactly once.
    Handles carry a fresh id each, so the set of live handles tells exactly
    what has been acquired and not yet released. */
module Sdk {

  /** C's int64_t. */
  newtype int64 = x: int | -0x8000_0000_0000_0000 <= x < 0x8000_0000_0000_0000

  datatype Option<T> = None | Some(value: T)

  /** One device as the driver enumerates it. */
  datatype Device = Device(
    name: string,          // GetModelName
    uid: int64,            // BMDDeckLinkPersistentID
    pairUid: int64,        // BMDDeckLinkPairedDevicePersistentID
    status: int64,         // bmdDeckLinkStatusDuplexMode, as read back
    hasAttributes: bool,   // QueryInterface(IID_IDeckLinkAttributes) succeeds
    hasStatus: bool,       // QueryInterface(IID_IDeckLinkStatus) succeeds
    hasConfiguration: bool,// QueryInterface(IID_IDeckLinkConfiguration) succeeds
    persistOk: bool)       // WriteConfigurationToPreferences succeeds

  /** The interfaces of a device that quad_cfg holds. */
  datatype Kind = Main | Attributes | Status | Configuration

  /** An acquired reference: an iterator, or an interface of the device at
      position `device` of the enumeration. */
  datatype Handle =
    | IteratorHandle(id: nat)
    | DeviceHandle(id: nat, kind: Kind, device: nat)

  predicate Provides(d: Device, kind: Kind) {
    match kind
    case Main => true
    case Attributes => d.hasAttributes
    case Status => d.hasStatus
    case Configuration => d.hasConfiguration
  }

  /** All handles of `hs` were acquired with ids in [lo, hi). */
  predicate IdsWithin(hs: set<Handle>, lo: nat, hi: nat) {
    forall h :: h in hs ==> lo <= h.id < hi
  }

  class Driver {
    const installed: bool
    const devices: seq<Device>
    /** Handles acquired and not yet released. */
    var live: set<Handle>
    /** Number of acquisitions so far; also the id of the next handle. */
    var acquired: nat
    /** Number of releases so far. */
    var released: nat
    /** For each iterator id, how many devices it has handed out. */
    var cursor: map<nat, nat>
    /** Duplex mode last written to each device's configuration. */
    var config: map<nat, int64>
    /** Duplex mode saved to each device's preferences. */
    var persisted: map<nat, int64>

    ghost predicate Valid()
      reads this
    {
      forall h :: h in live ==>
        h.id < acquired &&
        (h.IteratorHandle? ==> h.id in cursor) &&
        (h.DeviceHandle? ==> h.device < |devices|)
    }

    /** Whether `quad_cfg` can open all it needs of enumerated device `k`. */
    predicate CanOpen(k: nat) {
      installed && k < |devices| &&
      devices[k].hasAttributes && devices[k].hasStatus && devices[k].hasConfiguration
    }

    constructor (installed: bool, devices: seq<Device>)
      ensures Valid()
      ensures this.installed == installed && this.devices == devices
      ensures live == {} && acquired == 0 && released == 0
      ensures cursor == map[] && config == map[] && persisted == map[]
    {
      this.installed := installed;
      this.devices := devices;
      live, acquired, released := {}, 0, 0;
      cursor, config, persisted := map[], map[], map[];
    }

    /** CreateDeckLinkIteratorInstance: a fresh iterator at the start of the
        enumeration, or nothing when no driver is installed. */
    method CreateIterator() returns (it: Option<Handle>)
      requires Valid()
      modifies this`live, this`acquired, this`cursor
      ensures Valid()
      ensures it.Some? <==> installed
      ensures it.Some? ==>
        it.value == IteratorHandle(old(acquired)) &&
        live == old(live) + {it.value} && acquired == old(acquired) + 1 &&
        cursor == old(cursor)[it.value.id := 0]
      ensures it.None? ==> live == old(live) && acquired == old(acquired) && cursor == old(cursor)
    {
      if installed {
        var h := IteratorHandle(acquired);
        live, acquired := live + {h}, acquired + 1;
        cursor := cursor[h.id := 0];
        it := Some(h);
      } else {
        it := None;
      }
    }

    /** IDeckLinkIterator::Next: a new reference to the next enumerated
        device, or nothing once the enumeration is exhausted. */
    method Next(it: Handle) returns (m: Option<Handle>)
      requires Valid() && it in live && it.IteratorHandle?
      modifies this`live, this`acquired, this`cursor
      ensures Valid()
      ensures m.Some? <==> old(cursor[it.id]) < |devices|
      ensures m.Some? ==>
        m.value == DeviceHandle(old(acquired), Main, old(cursor[it.id])) &&
        live == old(live) + {m.value} && acquired == old(acquired) + 1 &&
        cursor == old(cursor)[it.id := old(cursor[it.id]) + 1]
      ensures m.None? ==> live == old(live) && acquired == old(acquired) && cursor == old(cursor)
    {
      var pos := cursor[it.id];
      if pos < |devices| {
        var h := DeviceHandle(acquired, Main, pos);
        live, acquired := live + {h}, acquired + 1;
        cursor := cursor[it.id := pos + 1];
        m := Some(h);
      } else {
        m := None;
      }
    }

    /** IDeckLink::QueryInterface for one of the device's other interfaces. */
    method QueryInterface(main: Handle, kind: Kind) returns (r: Option<Handle>)
      requires Valid() && main in live && main.DeviceHandle? && main.kind == Main
      requires kind != Main
      modifies this`live, this`acquired
      ensures Valid()
      ensures r.Some? <==> Provides(devices[main.device], kind)
      ensures r.Some? ==>
        r.value == DeviceHandle(old(acquired), kind, main.device) &&
        live == old(live) + {r.value} && acquired == old(acquired) + 1
      ensures r.None? ==> live == old(live) && acquired == old(acquired)
    {
      if Provides(devices[main.device], kind) {
        var h := DeviceHandle(acquired, kind, main.device);
        live, acquired := live + {h}, acquired + 1;
        r := Some(h);
      } else {
        r := None;
      }
    }

    /** Release: gives up a live reference; releasing twice is not allowed. */
    method Release(h: Handle)
      requires Valid() && h in live
      modifies this`live, this`released
      ensures Valid()
      ensures live == old(live) - {h} && released == old(released) + 1
    {
      live, released := live - {h}, released + 1;
    }

    /** GetModelName through the device's main interface. */
    function ModelName(main: Handle): string
      requires main.DeviceHandle? && main.kind == Main && main.device < |devices|
    {
      devices[main.device].name
    }

    /** GetInt(BMDDeckLinkPersistentID) through the attributes interface. */
    function PersistentId(attributes: Handle): int64
      requires attributes.DeviceHandle? && attributes.kind == Attributes
      requires attributes.device < |devices|
    {
      devices[attributes.device].uid
    }

    /** GetInt(BMDDeckLinkPairedDevicePersistentID) through the attributes interface. */
    function PairedPersistentId(attributes: Handle): int64
      requires attributes.DeviceHandle? && attributes.kind == Attributes
      requires attributes.device < |devices|
    {
      devices[attributes.device].pairUid
    }

    /** GetInt(bmdDeckLinkStatusDuplexMode) through the status interface. */
    function DuplexStatus(status: Handle): int64
      requires status.DeviceHandle? && status.kind == Status && status.device < |devices|
    {
      devices[status.device].status
    }

    /** SetInt(bmdDeckLinkConfigDuplexMode, mode) through the configuration interface. */
    method SetDuplexMode(cfg: Handle, mode: int64)
      requires Valid() && cfg in live && cfg.DeviceHandle? && cfg.kind == Configuration
      modifies this`config
      ensures config == old(config)[cfg.device := mode]
    {
      config := config[cfg.device := mode];
    }

    /** WriteConfigurationToPreferences: saves the written mode when the
        device accepts it; a refusal leaves the saved preferences as they were. */
    method WriteConfigurationToPreferences(cfg: Handle)
      requires Valid() && cfg in live && cfg.DeviceHandle? && cfg.kind == Configuration
      modifies this`persisted
      ensures persisted ==
        if devices[cfg.device].persistOk && cfg.device in config
        then old(persisted)[cfg.device := config[cfg.device]]
        else old(persisted)
    {
      if devices[cfg.device].persistOk && cfg.device in config {
        persisted := persisted[cfg.device := config[cfg.device]];
      }
    }
  }
}
