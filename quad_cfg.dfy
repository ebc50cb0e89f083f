/** quad_cfg: loads the first eight DeckLink devices into the global device
    table, writes one duplex mode to all of them, reports each device's duplex
    status and pairing, and releases everything again. */
module QuadCfg {
  import opened Sdk
  import opened Duplex
  import opened Registry

  /** Number of devices main configures. */
  const DEVICE_COUNT: nat := 8

  /** Acquisition counts that never decrease. */
  ghost predicate Ascending(marks: seq<nat>) {
    forall a :: 0 <= a < |marks| - 1 ==> marks[a] <= marks[a + 1]
  }

  lemma AscendingAppend(marks: seq<nat>, x: nat)
    requires Ascending(marks) && |marks| > 0 && marks[|marks| - 1] <= x
    ensures Ascending(marks + [x])
  {
  }

  lemma {:induction false} AscendingBetween(marks: seq<nat>, a: nat, b: nat)
    requires Ascending(marks) && a <= b < |marks|
    ensures marks[a] <= marks[b]
    decreases b - a
  {
    if a < b {
      AscendingBetween(marks, a + 1, b);
    }
  }

  /** Slots 0..n-1 of `now` are loaded from devices 0..n-1 over what `start`
      held; slot j's references were acquired with ids in [marks[j],
      marks[j + 1]) and are live; the other slots are as in `start`; and
      exactly those references were added to `live0`. */
  ghost predicate LoadedPrefix(start: seq<DeviceProps>, now: seq<DeviceProps>, devices: seq<Device>,
                               n: nat, marks: seq<nat>, live0: set<Handle>, live: set<Handle>)
  {
    |start| == MAX_DEVICES && |now| == MAX_DEVICES && n <= DEVICE_COUNT && n <= |devices| &&
    |marks| == n + 1 && Ascending(marks) &&
    (forall j :: 0 <= j < n ==>
      LoadedFrom(start[j], now[j], j, devices[j]) &&
      IdsWithin(SlotHandles(now[j]), marks[j], marks[j + 1]) &&
      SlotHandles(now[j]) <= live) &&
    (forall j :: n <= j < MAX_DEVICES ==> now[j] == start[j]) &&
    live == live0 + HeldBy(now[..n])
  }

  lemma LoadedPrefixStep(start: seq<DeviceProps>, now: seq<DeviceProps>, next: seq<DeviceProps>,
                         devices: seq<Device>, n: nat, marks: seq<nat>,
                         live0: set<Handle>, live: set<Handle>, next_live: set<Handle>, hi: nat)
    requires LoadedPrefix(start, now, devices, n, marks, live0, live)
    requires n < DEVICE_COUNT && n < |devices| && |next| == MAX_DEVICES
    requires next == now[n := next[n]]
    requires LoadedFrom(now[n], next[n], n, devices[n])
    requires IdsWithin(SlotHandles(next[n]), marks[n], hi)
    requires next_live == live + SlotHandles(next[n])
    ensures LoadedPrefix(start, next, devices, n + 1, marks + [hi], live0, next_live)
  {
    assert next[..n + 1] == now[..n] + [next[n]];
    HeldByAppend(now[..n], next[n]);
    assert marks[n] <= hi by {
      assert next[n].handles.Some?;
      assert next[n].handles.value.main in SlotHandles(next[n]);
    }
    AscendingAppend(marks, hi);
  }

  /** Slots 0..7 are loaded; slot j's references have ids in [marks[j],
      marks[j + 1]); every reference in `before` is older than all of them. */
  ghost predicate HeldSlots(slots: seq<DeviceProps>, marks: seq<nat>, before: set<Handle>) {
    |slots| == MAX_DEVICES && |marks| == DEVICE_COUNT + 1 && Ascending(marks) &&
    IdsWithin(before, 0, marks[0]) &&
    forall j :: 0 <= j < DEVICE_COUNT ==>
      slots[j].handles.Some? && IdsWithin(SlotHandles(slots[j]), marks[j], marks[j + 1])
  }

  /** Unloading slot i releases references that are all live, and leaves
      live exactly `before` and the references of the slots after i. */
  lemma UnloadStep(slots: seq<DeviceProps>, marks: seq<nat>, before: set<Handle>, live: set<Handle>, i: nat)
    requires HeldSlots(slots, marks, before) && i < DEVICE_COUNT
    requires live == before + HeldBy(slots[i..DEVICE_COUNT])
    ensures SlotHandles(slots[i]) <= live
    ensures live - SlotHandles(slots[i]) == before + HeldBy(slots[i + 1..DEVICE_COUNT])
  {
    var rest := slots[i + 1..DEVICE_COUNT];
    assert slots[i..DEVICE_COUNT] == [slots[i]] + rest;
    assert HeldBy(slots[i..DEVICE_COUNT]) == SlotHandles(slots[i]) + HeldBy(rest);
    forall j | 0 <= j < |rest|
      ensures forall h :: h in SlotHandles(rest[j]) ==> marks[i + 1] <= h.id
    {
      var k := i + 1 + j;
      assert rest[j] == slots[k];
      assert IdsWithin(SlotHandles(slots[k]), marks[k], marks[k + 1]);
      AscendingBetween(marks, i + 1, k);
    }
    HeldByIdsFrom(rest, marks[i + 1]);
    AscendingBetween(marks, 0, i);
  }

  /** The global device_props table together with the driver it was loaded from. */
  class DeviceTable {
    const props: array<DeviceProps>
    const sdk: Driver

    ghost predicate Valid()
      reads this, props, sdk
    {
      props.Length == MAX_DEVICES && sdk.Valid() &&
      forall i :: 0 <= i < MAX_DEVICES ==> SlotOk(props[i], i)
    }

    /** The zero-initialised global table. */
    constructor (sdk: Driver)
      requires sdk.Valid()
      ensures Valid() && this.sdk == sdk && fresh(props)
      ensures forall i :: 0 <= i < MAX_DEVICES ==> props[i] == Unloaded
    {
      this.sdk := sdk;
      props := new DeviceProps[MAX_DEVICES](_ => Unloaded);
    }

    /** get_device_idx_from_uid: scans all sixteen slots, loaded or not. */
    method DeviceIdxFromUid(uid: int64) returns (r: int)
      requires Valid()
      ensures r == FindIdx(props[..], uid)
      ensures r == -1 <==> forall i :: 0 <= i < MAX_DEVICES ==> props[i].uid != uid
    {
      FindIdxMissing(props[..], uid);
      var i := 0;
      while i < MAX_DEVICES
        invariant 0 <= i <= MAX_DEVICES
        invariant FindIdx(props[i..], uid) == FindIdx(props[..], uid)
      {
        if props[i].uid == uid {
          return props[i].idx;
        }
        assert props[i..][1..] == props[i + 1..];
        i := i + 1;
      }
      return -1;
    }

    /** load_device_props: walks a fresh enumeration to device k, releasing
        every device it passes, then opens the attributes, status and
        configuration interfaces of device k. On success slot k is written;
        on failure everything acquired in this call has been released and
        the table is as it was. */
    method LoadDeviceProps(k: nat) returns (ret: int)
      requires Valid() && k < MAX_DEVICES
      modifies props, sdk`live, sdk`acquired, sdk`released, sdk`cursor
      ensures Valid()
      ensures ret == (if sdk.CanOpen(k) then 0 else -1)
      ensures ret != 0 ==> props[..] == old(props[..]) && sdk.live == old(sdk.live)
      ensures ret != 0 ==> sdk.acquired - old(sdk.acquired) == sdk.released - old(sdk.released)
      ensures !sdk.installed ==> sdk.acquired == old(sdk.acquired)
      ensures sdk.installed && |sdk.devices| <= k ==>
        sdk.acquired == old(sdk.acquired) + |sdk.devices| + 1
      ensures ret == 0 ==> props[..] == old(props[..])[k := props[k]]
      ensures ret == 0 ==> LoadedFrom(old(props[k]), props[k], k, sdk.devices[k])
      ensures ret == 0 ==>
        sdk.live == old(sdk.live) + HandleSet(props[k].handles.value) &&
        IdsWithin(HandleSet(props[k].handles.value), old(sdk.acquired), sdk.acquired)
      ensures ret == 0 ==>
        sdk.acquired == old(sdk.acquired) + k + 5 && sdk.released == old(sdk.released) + k
    {
      var enumeration := sdk.CreateIterator();
      if enumeration.None? {
        return -1;
      }
      var it := enumeration.value;
      var main := SkipToDevice(it, k);

      if main.None? {
        sdk.Release(it);
        return -1;
      }
      var m := main.value;

      ghost var mid := sdk.acquired;
      var interfaces := OpenInterfaces(it, m);
      if interfaces.None? {
        return -1;
      }
      assert it.id == old(sdk.acquired) && m.id == mid - 1 && sdk.acquired == mid + 3;
      assert IdsWithin(HandleSet(interfaces.value), old(sdk.acquired), sdk.acquired);
      props[k] := props[k].(
        name := sdk.ModelName(m),
        uid := sdk.PersistentId(interfaces.value.attributes),
        handles := interfaces,
        idx := k);
      return 0;
    }

    /** The walk of load_device_props over a fresh enumeration: takes devices
        from the iterator until the k-th (counting from 0), releasing each one
        passed over; nothing is left when fewer than k + 1 devices enumerate. */
    method SkipToDevice(it: Handle, k: nat) returns (main: Option<Handle>)
      requires sdk.Valid() && it in sdk.live && it.IteratorHandle? && sdk.cursor[it.id] == 0
      modifies sdk`live, sdk`acquired, sdk`released, sdk`cursor
      ensures sdk.Valid() && it in sdk.live && it.id in sdk.cursor
      ensures main.Some? <==> k < |sdk.devices|
      ensures main.Some? ==>
        main.value == DeviceHandle(old(sdk.acquired) + k, Main, k) &&
        sdk.live == old(sdk.live) + {main.value} &&
        sdk.acquired == old(sdk.acquired) + k + 1 && sdk.released == old(sdk.released) + k
      ensures main.None? ==>
        sdk.live == old(sdk.live) &&
        sdk.acquired == old(sdk.acquired) + |sdk.devices| &&
        sdk.released == old(sdk.released) + |sdk.devices|
    {
      var idx := k;
      main := sdk.Next(it);
      while main.Some?
        invariant sdk.Valid() && it in sdk.live && it.id in sdk.cursor
        invariant sdk.cursor[it.id] <= |sdk.devices|
        invariant main.Some? ==> idx + sdk.cursor[it.id] == k + 1
        invariant main.None? ==> idx + sdk.cursor[it.id] == k && sdk.cursor[it.id] == |sdk.devices|
        invariant 0 <= idx
        invariant main.Some? ==>
          main.value == DeviceHandle(sdk.acquired - 1, Main, sdk.cursor[it.id] - 1)
        invariant sdk.live == old(sdk.live) + (if main.Some? then {main.value} else {})
        invariant sdk.acquired == old(sdk.acquired) + sdk.cursor[it.id]
        invariant sdk.released + (if main.Some? then 1 else 0) == old(sdk.released) + sdk.cursor[it.id]
        decreases |sdk.devices| - sdk.cursor[it.id] + (if main.Some? then 1 else 0)
      {
        if idx == 0 {
          break;
        }
        idx := idx - 1;
        sdk.Release(main.value);
        main := sdk.Next(it);
      }
    }

    /** The three QueryInterface steps of load_device_props on the device
        behind `m`: attributes, status, configuration. At the first refusal it
        releases everything held so far, `m` and the iterator included, in
        the source's order, and yields nothing. */
    method OpenInterfaces(it: Handle, m: Handle) returns (hs: Option<Handles>)
      requires sdk.Valid() && it in sdk.live && it.IteratorHandle?
      requires m in sdk.live && m.DeviceHandle? && m.kind == Main
      modifies sdk`live, sdk`acquired, sdk`released
      ensures sdk.Valid() && m.device < |sdk.devices|
      ensures hs.Some? <==>
        sdk.devices[m.device].hasAttributes && sdk.devices[m.device].hasStatus &&
        sdk.devices[m.device].hasConfiguration
      ensures hs.Some? ==>
        hs.value == Handles(m, it,
          DeviceHandle(old(sdk.acquired), Attributes, m.device),
          DeviceHandle(old(sdk.acquired) + 1, Status, m.device),
          DeviceHandle(old(sdk.acquired) + 2, Configuration, m.device)) &&
        sdk.live == old(sdk.live) + {hs.value.attributes, hs.value.status, hs.value.configuration} &&
        sdk.acquired == old(sdk.acquired) + 3 && sdk.released == old(sdk.released)
      ensures hs.None? ==>
        sdk.live == old(sdk.live) - {it, m} &&
        sdk.acquired - old(sdk.acquired) + 2 == sdk.released - old(sdk.released)
    {
      var attributes := sdk.QueryInterface(m, Attributes);
      if attributes.None? {
        sdk.Release(it);
        sdk.Release(m);
        return None;
      }
      hs := OpenStatusAndConfiguration(it, m, attributes.value);
    }

    /** The status and configuration steps of OpenInterfaces, with the
        attributes interface `a` already held; a refusal releases `a` too. */
    method OpenStatusAndConfiguration(it: Handle, m: Handle, a: Handle) returns (hs: Option<Handles>)
      requires sdk.Valid() && it in sdk.live && it.IteratorHandle?
      requires m in sdk.live && m.DeviceHandle? && m.kind == Main
      requires a == DeviceHandle(sdk.acquired - 1, Attributes, m.device) && a in sdk.live
      modifies sdk`live, sdk`acquired, sdk`released
      ensures sdk.Valid() && m.device < |sdk.devices|
      ensures hs.Some? <==> sdk.devices[m.device].hasStatus && sdk.devices[m.device].hasConfiguration
      ensures hs.Some? ==>
        hs.value == Handles(m, it, a,
          DeviceHandle(old(sdk.acquired), Status, m.device),
          DeviceHandle(old(sdk.acquired) + 1, Configuration, m.device)) &&
        sdk.live == old(sdk.live) + {hs.value.status, hs.value.configuration} &&
        sdk.acquired == old(sdk.acquired) + 2 && sdk.released == old(sdk.released)
      ensures hs.None? ==>
        sdk.live == old(sdk.live) - {it, m, a} &&
        sdk.acquired - old(sdk.acquired) + 3 == sdk.released - old(sdk.released)
    {
      var status := sdk.QueryInterface(m, Status);
      if status.None? {
        sdk.Release(a);
        sdk.Release(it);
        sdk.Release(m);
        return None;
      }

      var configuration := sdk.QueryInterface(m, Configuration);
      if configuration.None? {
        sdk.Release(status.value);
        sdk.Release(a);
        sdk.Release(it);
        sdk.Release(m);
        return None;
      }

      hs := Some(Handles(m, it, a, status.value, configuration.value));
    }

    /** unload_device_props: releases the five references of a loaded slot,
        each exactly once; the slot itself keeps its now stale contents. */
    method UnloadDeviceProps(k: nat) returns (ret: int)
      requires Valid() && k < MAX_DEVICES && props[k].handles.Some?
      requires HandleSet(props[k].handles.value) <= sdk.live
      modifies sdk`live, sdk`released
      ensures Valid() && ret == 0
      ensures sdk.live == old(sdk.live) - HandleSet(props[k].handles.value)
      ensures sdk.released == old(sdk.released) + 5
    {
      var hs := props[k].handles.value;
      sdk.Release(hs.configuration);
      sdk.Release(hs.status);
      sdk.Release(hs.attributes);
      sdk.Release(hs.enumerator);
      sdk.Release(hs.main);
      return 0;
    }

    /** report_device_status: reads back the duplex status and the paired
        device's uid into slot k, resolves the pair through the table, and
        classifies the status. Returns 1 exactly for half duplex. */
    method ReportDeviceStatus(k: nat) returns (half: int, report: Report)
      requires Valid() && k < MAX_DEVICES && props[k].handles.Some?
      requires props[k].handles.value.status in sdk.live
      requires props[k].handles.value.attributes in sdk.live
      modifies props
      ensures Valid()
      ensures k < |sdk.devices|
      ensures props[..] == old(props[..])[k := props[k]]
      ensures props[k] == old(props[k]).(
        duplexMode := sdk.devices[k].status,
        pairUid := sdk.devices[k].pairUid,
        pairIdx := props[k].pairIdx)
      ensures props[k].pairIdx == FindIdx(props[..], props[k].pairUid)
      ensures report == Classify(k, props[k].pairIdx, props[k].duplexMode)
      ensures half == 0 || half == 1
      ensures half == 1 <==> props[k].duplexMode == StatusHalfDuplex
    {
      var hs := props[k].handles.value;
      props[k] := props[k].(duplexMode := sdk.DuplexStatus(hs.status));
      props[k] := props[k].(pairUid := sdk.PairedPersistentId(hs.attributes));
      var pairIdx := DeviceIdxFromUid(props[k].pairUid);
      ghost var before := props[..];
      props[k] := props[k].(pairIdx := pairIdx);
      FindIdxSameKeys(props[..], before, props[k].pairUid);
      var s := props[k];
      report := Classify(k, s.pairIdx, s.duplexMode);
      half := HalfDuplexFlag(s.duplexMode);
    }

    /** set_device_duplex: writes Half for any nonzero mode and Full for zero,
        asks the device to save it, and always returns 0. */
    method SetDeviceDuplex(k: nat, mode: int64) returns (ret: int)
      requires Valid() && k < MAX_DEVICES && props[k].handles.Some?
      requires props[k].handles.value.configuration in sdk.live
      modifies sdk`config, sdk`persisted
      ensures Valid() && ret == 0
      ensures sdk.config == ApplyMode(old(sdk.config), k, mode)
      ensures sdk.persisted ==
        if sdk.devices[k].persistOk then ApplyMode(old(sdk.persisted), k, mode)
        else old(sdk.persisted)
    {
      var cfg := props[k].handles.value.configuration;
      sdk.SetDuplexMode(cfg, if mode != 0 then ModeHalf else ModeFull);
      sdk.WriteConfigurationToPreferences(cfg);
      return 0;
    }

    /** The first loop of main: loads devices 0..7 into slots 0..7 and gives
        up with 1 at the first failure, leaving what was loaded before it
        loaded. `marks` records the acquisition count before each load, so
        that the references of different slots can be told apart. */
    method LoadAll() returns (ret: int, ghost marks: seq<nat>)
      requires Valid()
      modifies props, sdk`live, sdk`acquired, sdk`released, sdk`cursor
      ensures Valid()
      ensures ret == (if forall i :: 0 <= i < DEVICE_COUNT ==> sdk.CanOpen(i) then 0 else 1)
      ensures old(sdk.live) <= sdk.live
      ensures ret == 0 ==> |marks| == DEVICE_COUNT + 1 && marks[0] == old(sdk.acquired)
      ensures ret == 0 ==>
        LoadedPrefix(old(props[..]), props[..], sdk.devices, DEVICE_COUNT, marks, old(sdk.live), sdk.live)
      ensures ret != 0 ==> exists n :: (0 <= n < DEVICE_COUNT && !sdk.CanOpen(n) &&
        (forall j :: 0 <= j < n ==> sdk.CanOpen(j)) &&
        LoadedPrefix(old(props[..]), props[..], sdk.devices, n, marks, old(sdk.live), sdk.live))
    {
      marks := [sdk.acquired];
      var i := 0;
      while i < DEVICE_COUNT
        invariant 0 <= i <= DEVICE_COUNT
        invariant Valid()
        invariant forall j :: 0 <= j < i ==> sdk.CanOpen(j)
        invariant |marks| == i + 1 && marks[0] == old(sdk.acquired) && marks[i] == sdk.acquired
        invariant LoadedPrefix(old(props[..]), props[..], sdk.devices, i, marks, old(sdk.live), sdk.live)
      {
        ghost var now := props[..];
        ghost var live := sdk.live;
        var r := LoadDeviceProps(i);
        if r != 0 {
          return 1, marks;
        }
        LoadedPrefixStep(old(props[..]), now, props[..], sdk.devices, i, marks, old(sdk.live), live, sdk.live, sdk.acquired);
        marks := marks + [sdk.acquired];
        i := i + 1;
      }
      return 0, marks;
    }

    /** The second loop of main: set_device_duplex on devices 0..7. */
    method SetAll(state: int64) returns (ret: int)
      requires Valid() && DEVICE_COUNT <= |sdk.devices|
      requires forall j :: 0 <= j < DEVICE_COUNT ==>
        props[j].handles.Some? && props[j].handles.value.configuration in sdk.live
      modifies sdk`config, sdk`persisted
      ensures Valid() && ret == 0
      ensures DEVICE_COUNT <= |sdk.devices|
      ensures sdk.config == ConfigureFirst(old(sdk.config), DEVICE_COUNT, state)
      ensures sdk.persisted == PersistFirst(old(sdk.persisted), sdk.devices, DEVICE_COUNT, state)
    {
      var i := 0;
      while i < DEVICE_COUNT
        invariant 0 <= i <= DEVICE_COUNT && i <= |sdk.devices|
        invariant Valid()
        invariant sdk.config == ConfigureFirst(old(sdk.config), i, state)
        invariant sdk.persisted == PersistFirst(old(sdk.persisted), sdk.devices, i, state)
      {
        var r := SetDeviceDuplex(i, state);
        if r != 0 {
          return 1;
        }
        i := i + 1;
      }
      return 0;
    }

    /** The third loop of main: report_device_status on devices 0..7, with
        the report each one gives. Each lookup sees the table as loaded: the
        reports before it change no uid and no idx. */
    method ReportAll() returns (reports: seq<Report>)
      requires Valid()
      requires forall j :: 0 <= j < DEVICE_COUNT ==>
        props[j].handles.Some? &&
        props[j].handles.value.status in sdk.live && props[j].handles.value.attributes in sdk.live
      modifies props
      ensures Valid()
      ensures DEVICE_COUNT <= |sdk.devices|
      ensures Reported(old(props[..]), props[..], sdk.devices, DEVICE_COUNT)
      ensures |reports| == DEVICE_COUNT && forall j :: 0 <= j < DEVICE_COUNT ==>
        reports[j] == Classify(j, FindIdx(old(props[..]), sdk.devices[j].pairUid), sdk.devices[j].status)
    {
      ghost var loaded := props[..];
      assert props[DEVICE_COUNT - 1].handles.value.status.device < |sdk.devices|;
      reports := [];
      var i := 0;
      while i < DEVICE_COUNT
        invariant 0 <= i <= DEVICE_COUNT
        invariant Valid()
        invariant forall j :: 0 <= j < DEVICE_COUNT ==>
          loaded[j].handles.Some? &&
          loaded[j].handles.value.status in sdk.live && loaded[j].handles.value.attributes in sdk.live
        invariant Reported(loaded, props[..], sdk.devices, i)
        invariant |reports| == i && forall j :: 0 <= j < i ==>
          reports[j] == Classify(j, FindIdx(loaded, sdk.devices[j].pairUid), sdk.devices[j].status)
      {
        ghost var now := props[..];
        var _, report := ReportDeviceStatus(i);
        ReportedStep(loaded, now, props[..], sdk.devices, i);
        reports := reports + [report];
        i := i + 1;
      }
    }

    /** The last loop of main: unload_device_props on devices 0..7. Slot j's
        references were acquired with ids in [marks[j], marks[j + 1]), after
        every reference in `before`, so no release touches another slot's
        references or one held before; afterwards exactly `before` is live. */
    method UnloadAll(ghost before: set<Handle>, ghost marks: seq<nat>) returns (ret: int)
      requires Valid()
      requires HeldSlots(props[..], marks, before)
      requires sdk.live == before + HeldBy(props[..DEVICE_COUNT])
      modifies sdk`live, sdk`released
      ensures Valid() && ret == 0
      ensures sdk.live == before
    {
      var i := 0;
      assert props[0..DEVICE_COUNT] == props[..DEVICE_COUNT];
      while i < DEVICE_COUNT
        invariant 0 <= i <= DEVICE_COUNT
        invariant Valid()
        invariant sdk.live == before + HeldBy(props[i..DEVICE_COUNT])
      {
        UnloadStep(props[..], marks, before, sdk.live, i);
        var r := UnloadDeviceProps(i);
        if r != 0 {
          return 1;
        }
        i := i + 1;
      }
      return 0;
    }

    /** main: load devices 0..7 (any failure exits with 1 before anything is
        written, without unloading what was loaded), write the mode the
        argument selects to all of them, report all of them, unload all of
        them, exit with 0. */
    method Run(arg: Option<string>) returns (exit: int, reports: seq<Report>)
      requires Valid()
      requires arg.Some? ==> CString(arg.value)
      modifies props, sdk
      ensures Valid()
      ensures exit == (if forall i :: 0 <= i < DEVICE_COUNT ==> sdk.CanOpen(i) then 0 else 1)
      ensures exit == 0 ==> DEVICE_COUNT <= |sdk.devices|
      ensures exit != 0 ==>
        sdk.config == old(sdk.config) && sdk.persisted == old(sdk.persisted) &&
        reports == [] && old(sdk.live) <= sdk.live
      ensures exit != 0 ==> exists n, marks :: (0 <= n < DEVICE_COUNT && !sdk.CanOpen(n) &&
        (forall j :: 0 <= j < n ==> sdk.CanOpen(j)) &&
        LoadedPrefix(old(props[..]), props[..], sdk.devices, n, marks, old(sdk.live), sdk.live))
      ensures exit == 0 ==>
        sdk.config == ConfigureFirst(old(sdk.config), DEVICE_COUNT, SelectState(arg) as int64) &&
        sdk.persisted ==
          PersistFirst(old(sdk.persisted), sdk.devices, DEVICE_COUNT, SelectState(arg) as int64)
      ensures exit == 0 ==> forall i :: 0 <= i < DEVICE_COUNT ==>
        props[i].idx == i && props[i].uid == sdk.devices[i].uid &&
        props[i].pairUid == sdk.devices[i].pairUid &&
        props[i].duplexMode == sdk.devices[i].status &&
        props[i].pairIdx == FindIdx(props[..], sdk.devices[i].pairUid)
      ensures exit == 0 ==> forall i :: DEVICE_COUNT <= i < MAX_DEVICES ==> props[i] == old(props[i])
      ensures exit == 0 ==> |reports| == DEVICE_COUNT && forall i :: 0 <= i < DEVICE_COUNT ==>
        reports[i] == Classify(i, FindIdx(props[..], sdk.devices[i].pairUid), sdk.devices[i].status)
      ensures exit == 0 ==> sdk.live == old(sdk.live)
    {
      ghost var before := sdk.live;
      assert IdsWithin(before, 0, sdk.acquired);
      var loadedAll, marks := LoadAll();
      if loadedAll != 0 {
        return 1, [];
      }
      assert sdk.CanOpen(DEVICE_COUNT - 1);

      var state := SelectState(arg);
      var r := SetAll(state as int64);
      if r != 0 {
        return 1, [];
      }

      ghost var loaded := props[..];
      ghost var written := (sdk.config, sdk.persisted);
      assert HeldSlots(loaded, marks, before);
      reports := ReportAll();
      ghost var reported := props[..];
      ReportedKeepsKeys(loaded, reported, sdk.devices, DEVICE_COUNT);
      LoadedThenReported(old(props[..]), loaded, reported, sdk.devices, marks, before, sdk.live);
      ReportKeepsHeld(loaded, reported, sdk.devices, marks, before);

      r := UnloadAll(before, marks);
      if r != 0 {
        return 1, reports;
      }
      assert props[..] == reported && (sdk.config, sdk.persisted) == written;
      return 0, reports;
    }
  }

  /** Slot s as report_device_status leaves it for device d: status and
      pair uid read back, the pair resolved in `table`. */
  function Refreshed(s: DeviceProps, table: seq<DeviceProps>, d: Device): DeviceProps {
    s.(duplexMode := d.status, pairUid := d.pairUid, pairIdx := FindIdx(table, d.pairUid))
  }

  /** Slots 0..n-1 of `now` are reported against the table `loaded`; the
      other slots are as loaded. */
  ghost predicate Reported(loaded: seq<DeviceProps>, now: seq<DeviceProps>, devices: seq<Device>, n: nat) {
    |loaded| == MAX_DEVICES && |now| == MAX_DEVICES && n <= DEVICE_COUNT && n <= |devices| &&
    (forall j :: 0 <= j < n ==> now[j] == Refreshed(loaded[j], loaded, devices[j])) &&
    (forall j :: n <= j < MAX_DEVICES ==> now[j] == loaded[j])
  }

  /** Reporting changes no uid, idx or handle, so every lookup, and what the
      slots hold, stay as they were after loading. */
  lemma ReportedKeepsKeys(loaded: seq<DeviceProps>, now: seq<DeviceProps>, devices: seq<Device>, n: nat)
    requires Reported(loaded, now, devices, n)
    ensures forall j :: 0 <= j < MAX_DEVICES ==>
      now[j].uid == loaded[j].uid && now[j].idx == loaded[j].idx && now[j].handles == loaded[j].handles
    ensures forall uid :: FindIdx(now, uid) == FindIdx(loaded, uid)
  {
    forall uid: int64 ensures FindIdx(now, uid) == FindIdx(loaded, uid) {
      FindIdxSameKeys(now, loaded, uid);
    }
  }

  /** Reporting slot n, with the lookup done on the table as it then stands,
      extends the reported prefix by one. */
  lemma ReportedStep(loaded: seq<DeviceProps>, now: seq<DeviceProps>, next: seq<DeviceProps>,
                     devices: seq<Device>, n: nat)
    requires Reported(loaded, now, devices, n) && n < DEVICE_COUNT && n < |devices|
    requires |next| == MAX_DEVICES
    requires forall j :: 0 <= j < MAX_DEVICES && j != n ==> next[j] == now[j]
    requires next[n] == now[n].(duplexMode := devices[n].status, pairUid := devices[n].pairUid,
                                pairIdx := FindIdx(next, devices[n].pairUid))
    ensures Reported(loaded, next, devices, n + 1)
  {
    FindIdxSameKeys(next, loaded, devices[n].pairUid);
  }

  /** After loading devices 0..7 and reporting them, each of the first eight
      slots holds its own position, its device's uid, pair uid and status,
      and the pair as the final table resolves it; the other slots are as
      they were before loading. */
  lemma LoadedThenReported(start: seq<DeviceProps>, loaded: seq<DeviceProps>, now: seq<DeviceProps>,
                           devices: seq<Device>, marks: seq<nat>, live0: set<Handle>, live: set<Handle>)
    requires LoadedPrefix(start, loaded, devices, DEVICE_COUNT, marks, live0, live)
    requires Reported(loaded, now, devices, DEVICE_COUNT)
    ensures forall i :: 0 <= i < DEVICE_COUNT ==>
      now[i].idx == i && now[i].uid == devices[i].uid && now[i].pairUid == devices[i].pairUid &&
      now[i].duplexMode == devices[i].status && now[i].pairIdx == FindIdx(now, devices[i].pairUid)
    ensures forall i :: DEVICE_COUNT <= i < MAX_DEVICES ==> now[i] == start[i]
  {
    ReportedKeepsKeys(loaded, now, devices, DEVICE_COUNT);
  }

  /** Reporting changes no handle, so what the slots hold stays the same. */
  lemma ReportKeepsHeld(loaded: seq<DeviceProps>, now: seq<DeviceProps>, devices: seq<Device>,
                        marks: seq<nat>, before: set<Handle>)
    requires HeldSlots(loaded, marks, before) && Reported(loaded, now, devices, DEVICE_COUNT)
    ensures HeldSlots(now, marks, before)
    ensures HeldBy(loaded[..DEVICE_COUNT]) == HeldBy(now[..DEVICE_COUNT])
  {
    ReportedKeepsKeys(loaded, now, devices, DEVICE_COUNT);
    HeldBySameHandles(loaded[..DEVICE_COUNT], now[..DEVICE_COUNT]);
  }
}
