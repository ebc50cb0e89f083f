# quad_cfg, modelled in Dafny

quad_cfg is a small command-line tool for Blackmagic DeckLink Quad cards. It
loads the first eight enumerated DeckLink devices into a global table of
sixteen slots (`device_props`). Then it writes one duplex mode to all of
them: full duplex when the first argument is exactly `full`, half duplex
otherwise. It reads back each device's duplex status and resolves its paired
device through the table by persistent id. Finally it releases every
interface it holds.

The project has four modules:

- `Sdk` (`sdk.dfy`) models the DeckLink driver as an abstract collaborator
  (class `Driver`). The devices it enumerates are a parameter. Each device
  says whether its interfaces can be opened. Every acquired reference is a
  `Handle` with a fresh id, and `live` is the set acquired and not yet
  released. `Release` demands a live handle, so no reference is released
  twice.
- `Duplex` (`duplex.dfy`) holds the pure decisions:
  - the five-way classification of a duplex status;
  - the `(uint32_t)` cast in the catch-all message;
  - the mode `set_device_duplex` writes;
  - C's `strncmp`, and the argument rule of `main`.
- `Registry` (`registry.dfy`) holds the slot record `DeviceProps` and
  `FindIdx`, the lookup that `get_device_idx_from_uid` performs, as a
  function on a snapshot of the table, with its lemmas.
- `QuadCfg` (`quad_cfg.dfy`) holds class `DeviceTable`. Its `array` of
  sixteen slots is the global table, and its methods follow the tool's
  functions. `Run` is `main`. Its four loops are the methods `LoadAll`,
  `SetAll`, `ReportAll` and `UnloadAll`.

`load_device_props` is split into three methods, each with its own contract:

- `LoadDeviceProps` is the whole function;
- `SkipToDevice` is its enumeration loop;
- `OpenInterfaces` and `OpenStatusAndConfiguration` are its three interface
  queries and their cleanup paths.

On every failure path, everything the call acquired is released, in the
source's order. A successful call adds exactly the five references that the
slot then holds.

Two behaviours of the code differ from what one might expect, and the model
follows the code:

- One would expect an id that no loaded device has to resolve to -1. The
  code scans all sixteen slots, including the eight zero-initialised ones,
  so a paired id of 0 resolves to index 0
  (`Registry.ZeroUidResolvesThroughUnloadedSlot`).
- One would expect a failure while loading device k to leave nothing held.
  `load_device_props` does release what that one call acquired. But `main`
  then returns 1 without unloading devices 0..k-1. The contracts of
  `LoadAll` and `Run` state this: on exit 1, slots 0..k-1 are loaded and
  exactly their references stay live.

## Model

| member | source | states |
|---|---|---|
| Registry.FindIdxFirstMatch | quad_cfg.cpp:52-58 | the lookup returns the idx of the lowest-numbered slot whose uid matches |
| Registry.FindIdxMissing | quad_cfg.cpp:52-58 | with no negative idx in the table, the lookup returns -1 exactly when no slot has the uid (both directions) |
| Registry.FindIdxSameKeys | quad_cfg.cpp:52-58 | the lookup depends only on the uid and idx fields of the slots |
| Registry.LookupOwnUid | quad_cfg.cpp:52-58 | a slot holding its own position is found by its own uid when no earlier slot shares it |
| Registry.ZeroUidResolvesThroughUnloadedSlot | quad_cfg.cpp:50-58 | with eight loaded slots of nonzero uid, uid 0 resolves to 0 through the zero-initialised slot 8, not to -1 |
| QuadCfg.DeviceTable.constructor | quad_cfg.cpp:50 | the global table starts with sixteen zero-initialised slots |
| QuadCfg.DeviceTable.DeviceIdxFromUid | quad_cfg.cpp:52-58 | the scan over all sixteen slots returns the lookup's answer; -1 exactly when no slot has the uid |
| QuadCfg.DeviceTable.LoadDeviceProps | quad_cfg.cpp:60-126 | succeeds exactly when the driver is installed, device k is enumerated and all three interfaces open. On success, slot k alone changes: name, uid, the five references and idx == k. The references are fresh and live; k passed devices were acquired and released. On failure the table and the live set are unchanged and acquisitions equal releases |
| QuadCfg.DeviceTable.SkipToDevice | quad_cfg.cpp:76-86 | the walk yields device k's main interface exactly when k < number of devices, having released each of the k devices passed; otherwise it has released every device it took |
| QuadCfg.DeviceTable.OpenInterfaces | quad_cfg.cpp:88-94 | the three queries succeed exactly when the device provides attributes, status and configuration, adding exactly those three references; a refusal of attributes releases the iterator and main interface |
| QuadCfg.DeviceTable.OpenStatusAndConfiguration | quad_cfg.cpp:96-113 | a refusal of status or configuration releases everything acquired so far (attributes, iterator, main) and nothing else; success adds exactly the two new references |
| QuadCfg.DeviceTable.UnloadDeviceProps | quad_cfg.cpp:128-140 | releases exactly the five references of the slot, each once; returns 0 |
| QuadCfg.DeviceTable.ReportDeviceStatus | quad_cfg.cpp:143-165 | only slot k changes: status and pair uid are read back, the pair index is the lookup over the updated table, the report is the classification of the status, and the result is 1 exactly for half duplex |
| Duplex.ClassifyIsTotal | quad_cfg.cpp:153-162 | each of the four status codes selects its own branch, every other value the catch-all carrying the value truncated to 32 bits; full-duplex and inactive carry the pair index |
| Duplex.AsUint32 | quad_cfg.cpp:162 | the `(uint32_t)` cast: the result is below 2^32 and congruent to the value modulo 2^32 |
| Duplex.HalfDuplexFlag | quad_cfg.cpp:164 | the result is 0 or 1, and 1 exactly when the classification is half duplex |
| Duplex.ModeFor | quad_cfg.cpp:172-173 | any nonzero mode writes half duplex, zero writes full duplex |
| Duplex.ApplyMode | quad_cfg.cpp:172-173 | the device's configured mode becomes the chosen mode; every other device's entry, present or absent, is kept |
| Duplex.ApplyModeIdempotent | quad_cfg.cpp:168-178 | writing the same mode twice equals writing it once |
| QuadCfg.DeviceTable.SetDeviceDuplex | quad_cfg.cpp:168-178 | the configuration becomes ApplyMode of the old one; the saved preferences change the same way when the device accepts the save; returns 0 |
| Duplex.StrncmpFromEqual | quad_cfg.cpp:188 | with a bound past the terminator of the second string, strncmp returns 0 exactly when the strings are equal |
| Duplex.SelectState | quad_cfg.cpp:188-191 | the state is 0 exactly when the argument is the whole word `full`, and 1 for a missing or any other argument |
| QuadCfg.DeviceTable.LoadAll | quad_cfg.cpp:184-186 | returns 0 exactly when all eight devices can be loaded. Then slots 0..7 are loaded from devices 0..7, the rest untouched, and exactly their references were added to the live set. Otherwise it stops at the first device n that cannot be loaded: slots 0..n-1 are loaded, the rest untouched, and exactly the references of slots 0..n-1 were added to the live set and stay held |
| QuadCfg.LoadedPrefixStep | quad_cfg.cpp:184-186 | loading device n after devices 0..n-1 extends the loaded prefix and its acquisition bounds by one slot |
| Duplex.ConfigureFirstSpec | quad_cfg.cpp:193-195 | after set_device_duplex on devices 0..n-1, each of them is configured to the chosen mode, and every other device's entry is unchanged |
| Duplex.PersistFirstSpec | quad_cfg.cpp:193-195 | after set_device_duplex on devices 0..n-1, each of them that accepts the save has the chosen mode saved; a device that refuses it, and every other device, keeps its saved entry |
| QuadCfg.DeviceTable.SetAll | quad_cfg.cpp:193-195 | the configuration and saved preferences become ConfigureFirst and PersistFirst of the old ones for devices 0..7 and the mode the state selects: devices 0..7 are set, a refusing device keeps its saved mode, and nothing else changes |
| QuadCfg.DeviceTable.ReportAll | quad_cfg.cpp:199-200 | slots 0..7 hold their device's status and pair uid and the pair resolved over the loaded table; report j is the classification of device j's status |
| QuadCfg.ReportedStep | quad_cfg.cpp:145-151 | reporting slot n, with its lookup over the table as it stands, extends the reported prefix: the lookup sees the table as loaded |
| QuadCfg.ReportedKeepsKeys | quad_cfg.cpp:147-151 | reporting changes no uid, idx or reference, so every lookup answers as over the loaded table |
| QuadCfg.ReportKeepsHeld | quad_cfg.cpp:199-204 | after reporting, the slots hold the same references as after loading |
| QuadCfg.UnloadStep | quad_cfg.cpp:202-204 | unloading slot i releases only live references, and leaves live the references held before loading plus those of the later slots |
| QuadCfg.DeviceTable.UnloadAll | quad_cfg.cpp:202-204 | after unloading slots 0..7 the live set is exactly what it was before loading |
| QuadCfg.LoadedThenReported | quad_cfg.cpp:184-200 | after loading and reporting, each of slots 0..7 holds its position, its device's uid, pair uid and status, and the pair as the final table resolves it; slots 8..15 are as before |
| QuadCfg.DeviceTable.Run | quad_cfg.cpp:180-207 | exit 0 exactly when all eight devices can be loaded. Then the configuration and saved preferences are ConfigureFirst and PersistFirst of the old ones for devices 0..7 and the argument's mode, slots and reports are as above, and no reference remains held. On exit 1 nothing was configured, and the table and live set are as LoadAll left them at the first device that cannot be loaded: the earlier slots loaded and their references still held |

## Left out

- The DeckLink SDK itself, and the vendor header DeckLinkAPI.h, are not part
  of this model. The driver is the abstract class `Sdk.Driver`. The status
  and mode constants are the SDK's four-character codes `fdup`, `hdup`,
  `splx` and `inac`.
- The text printed by `fprintf` is left out. Each branch of
  `report_device_status` is the `Report` value it prints from, and the
  driver error messages of `load_device_props` are not modelled.
- `sleep(1)` in `main` is left out: time is not modelled.
- `free(s->name)` in `unload_device_props` is left out: memory is not
  modelled, and names are values.
- The results of `GetModelName`, `GetInt` and `SetInt` are ignored by the
  source, and the model treats those calls as always succeeding. The result
  of `WriteConfigurationToPreferences` is ignored too. In the model, a device
  that refuses the save keeps its saved preferences unchanged.
- The status read back is the device's own value and is not tied to the mode
  just written. The hardware applies a written mode on its own schedule, so
  nothing is claimed about the two agreeing.
- QuadCfg.DeviceTable.UnloadDeviceProps, QuadCfg.DeviceTable.ReportDeviceStatus
  and QuadCfg.DeviceTable.SetDeviceDuplex require a loaded slot whose
  references are live. The source dereferences those pointers unchecked, and
  `main` only calls these functions on slots it loaded.
- C's `int` and the arithmetic on indexes are left unbounded. Device indexes
  stay below sixteen, so no width matters there. The `int64_t` ids and
  statuses are the bounded type `Sdk.int64`.
