/** The pure decisions of quad_cfg: how a raw duplex status is reported,
    which configuration value a requested mode becomes, and which mode the
    command line asks for. */
module Duplex {
  import opened Sdk

  // BMDDuplexStatus values, the DeckLink SDK's four-character codes.
  const StatusFullDuplex: int64 := 0x6664_7570  // 'fdup'
  const StatusHalfDuplex: int64 := 0x6864_7570  // 'hdup'
  const StatusSimplex: int64 := 0x7370_6C78     // 'splx'
  const StatusInactive: int64 := 0x696E_6163    // 'inac'

  // BMDDuplexMode values written to bmdDeckLinkConfigDuplexMode.
  const ModeFull: int64 := 0x6664_7570  // 'fdup'
  const ModeHalf: int64 := 0x6864_7570  // 'hdup'

  /** What report_device_status tells about one device: the branch it takes
      and the values that branch prints. */
  datatype Report =
    | FullDuplex(device: int, pairIdx: int)   // paired operation, naming the partner's index
    | HalfDuplex(device: int)                 // one port on its own
    | Simplex(device: int)                    // capture-only or playback-only
    | Inactive(device: int, pairIdx: int)     // unused port, naming the partner's index
    | InvalidMode(device: int, raw: nat)      // unknown status, shown as a 32-bit hex value

  predicate IsKnownStatus(status: int64) {
    status == StatusFullDuplex || status == StatusHalfDuplex ||
    status == StatusSimplex || status == StatusInactive
  }

  /** The (uint32_t) cast of an int64_t: reduction modulo 2^32. */
  function AsUint32(x: int64): (r: nat)
    ensures r < 0x1_0000_0000
    ensures (x as int - r) % 0x1_0000_0000 == 0
    ensures 0 <= x as int < 0x1_0000_0000 ==> r == x as int
    ensures -0x1_0000_0000 <= x as int < 0 ==> r == x as int + 0x1_0000_0000
  {
    x as int % 0x1_0000_0000
  }

  /** The five-way case split on the status read back from a device. */
  function Classify(device: int, pairIdx: int, status: int64): Report {
    if status == StatusFullDuplex then FullDuplex(device, pairIdx)
    else if status == StatusHalfDuplex then HalfDuplex(device)
    else if status == StatusSimplex then Simplex(device)
    else if status == StatusInactive then Inactive(device, pairIdx)
    else InvalidMode(device, AsUint32(status))
  }

  /** Every status selects exactly one branch: each known code its own, every
      other value the catch-all, which reports the value truncated to 32 bits. */
  lemma ClassifyIsTotal(device: int, pairIdx: int, status: int64)
    ensures Classify(device, pairIdx, status).device == device
    ensures Classify(device, pairIdx, status).FullDuplex? <==> status == StatusFullDuplex
    ensures Classify(device, pairIdx, status).HalfDuplex? <==> status == StatusHalfDuplex
    ensures Classify(device, pairIdx, status).Simplex? <==> status == StatusSimplex
    ensures Classify(device, pairIdx, status).Inactive? <==> status == StatusInactive
    ensures Classify(device, pairIdx, status).InvalidMode? <==> !IsKnownStatus(status)
    ensures Classify(device, pairIdx, status).FullDuplex? || Classify(device, pairIdx, status).Inactive?
      ==> Classify(device, pairIdx, status).pairIdx == pairIdx
    ensures Classify(device, pairIdx, status).InvalidMode?
      ==> Classify(device, pairIdx, status).raw == AsUint32(status)
  {
  }

  /** The value report_device_status returns. */
  function HalfDuplexFlag(status: int64): (r: int)
    ensures r == 0 || r == 1
    ensures forall device, pairIdx :: r == 1 <==> Classify(device, pairIdx, status).HalfDuplex?
  {
    if status == StatusHalfDuplex then 1 else 0
  }

  /** The configuration value set_device_duplex writes for a requested mode. */
  function ModeFor(mode: int64): (m: int64)
    ensures m == ModeHalf || m == ModeFull
    ensures m == ModeHalf <==> mode != 0
  {
    if mode != 0 then ModeHalf else ModeFull
  }

  /** The configuration of all devices after set_device_duplex(device, mode). */
  function ApplyMode(config: map<nat, int64>, device: nat, mode: int64): (c: map<nat, int64>)
    ensures device in c && c[device] == ModeFor(mode)
    ensures forall d :: d != device ==> (d in c <==> d in config) && (d in c ==> c[d] == config[d])
  {
    config[device := ModeFor(mode)]
  }

  /** Writing the same mode twice leaves the configuration as one write does. */
  lemma ApplyModeIdempotent(config: map<nat, int64>, device: nat, mode: int64)
    ensures ApplyMode(ApplyMode(config, device, mode), device, mode) == ApplyMode(config, device, mode)
  {
  }

  /** The configuration after set_device_duplex(j, mode) for j = 0..n-1. */
  function ConfigureFirst(config: map<nat, int64>, n: nat, mode: int64): map<nat, int64> {
    if n == 0 then config else ApplyMode(ConfigureFirst(config, n - 1, mode), n - 1, mode)
  }

  /** Devices 0..n-1 hold the chosen mode; every other device's entry is kept. */
  lemma {:induction false} ConfigureFirstSpec(config: map<nat, int64>, n: nat, mode: int64)
    ensures forall d: nat :: d < n ==>
      d in ConfigureFirst(config, n, mode) && ConfigureFirst(config, n, mode)[d] == ModeFor(mode)
    ensures forall d: nat :: n <= d ==>
      (d in ConfigureFirst(config, n, mode) <==> d in config) &&
      (d in config ==> ConfigureFirst(config, n, mode)[d] == config[d])
  {
    if n > 0 {
      ConfigureFirstSpec(config, n - 1, mode);
    }
  }

  /** The saved preferences after set_device_duplex(j, mode) for j = 0..n-1. */
  function PersistFirst(persisted: map<nat, int64>, devices: seq<Device>, n: nat, mode: int64)
    : map<nat, int64>
  {
    if n == 0 then persisted
    else
      var rest := PersistFirst(persisted, devices, n - 1, mode);
      if n - 1 < |devices| && devices[n - 1].persistOk then ApplyMode(rest, n - 1, mode) else rest
  }

  /** Each of devices 0..n-1 that accepts the save holds the chosen mode; a
      device that refuses it, and every device from n on, keeps its entry. */
  lemma {:induction false} PersistFirstSpec(persisted: map<nat, int64>, devices: seq<Device>, n: nat, mode: int64)
    ensures forall d: nat :: d < n && d < |devices| && devices[d].persistOk ==>
      d in PersistFirst(persisted, devices, n, mode) &&
      PersistFirst(persisted, devices, n, mode)[d] == ModeFor(mode)
    ensures forall d: nat :: !(d < n && d < |devices| && devices[d].persistOk) ==>
      (d in PersistFirst(persisted, devices, n, mode) <==> d in persisted) &&
      (d in persisted ==> PersistFirst(persisted, devices, n, mode)[d] == persisted[d])
  {
    if n > 0 {
      PersistFirstSpec(persisted, devices, n - 1, mode);
    }
  }

  /** A command-line argument is a C string: it holds no NUL character. */
  predicate CString(s: string) {
    forall i :: 0 <= i < |s| ==> s[i] != '\0'
  }

  /** The character at position i of a C string, the terminator past its end. */
  function CharAt(s: string, i: nat): char {
    if i < |s| then s[i] else '\0'
  }

  /** C's strncmp from position i on: compares at most n - i more characters
      and stops after a terminator; zero means equal. */
  function StrncmpFrom(a: string, b: string, i: nat, n: nat): int
    decreases n - i
  {
    if n <= i then 0
    else if CharAt(a, i) != CharAt(b, i) then CharAt(a, i) as int - CharAt(b, i) as int
    else if CharAt(a, i) == '\0' then 0
    else StrncmpFrom(a, b, i + 1, n)
  }

  function Strncmp(a: string, b: string, n: nat): int {
    StrncmpFrom(a, b, 0, n)
  }

  /** When the bound reaches past b's terminator, strncmp compares whole strings. */
  lemma {:induction false} StrncmpFromEqual(a: string, b: string, i: nat, n: nat)
    requires CString(a) && CString(b)
    requires i <= |a| && i <= |b| < n
    ensures StrncmpFrom(a, b, i, n) == 0 <==> a[i..] == b[i..]
    decreases n - i
  {
    if CharAt(a, i) != CharAt(b, i) {
      if i < |a| && i < |b| {
        assert a[i..][0] != b[i..][0];
      } else {
        assert |a[i..]| != |b[i..]|;
      }
    } else if CharAt(a, i) == '\0' {
      assert i == |a| && i == |b|;
    } else {
      assert i < |a| && i < |b| && a[i] == b[i];
      StrncmpFromEqual(a, b, i + 1, n);
      assert a[i..] == [a[i]] + a[i + 1..];
      assert b[i..] == [b[i]] + b[i + 1..];
    }
  }

  /** The mode main selects: 0 (full duplex) exactly when the argument is the
      whole word "full"; a missing or any other argument selects 1 (half).
      strncmp with sizeof("full") == 5 also compares the terminator, so a
      longer word that starts with "full" is not accepted. */
  function SelectState(arg: Option<string>): (state: int)
    requires arg.Some? ==> CString(arg.value)
    ensures state == 0 || state == 1
    ensures state == 0 <==> arg == Some("full")
  {
    if arg.Some? then
      StrncmpFromEqual(arg.value, "full", 0, 5);
      if Strncmp(arg.value, "full", 5) == 0 then 0 else 1
    else 1
  }
}
