/** The device table of quad_cfg: its slot record and the identity lookup
    get_device_idx_from_uid performs over it, as functions on a snapshot. */
module Registry {
  import opened Sdk

  /** Number of slots in the global device table. */
  const MAX_DEVICES: nat := 16

  /** The five references a loaded slot holds. */
  datatype Handles = Handles(
    main: Handle,
    enumerator: Handle,
    attributes: Handle,
    status: Handle,
    configuration: Handle)

  function HandleSet(hs: Handles): set<Handle> {
    {hs.main, hs.enumerator, hs.attributes, hs.status, hs.configuration}
  }

  /** The handles of a loaded slot for enumerated device k: an iterator, and
      the main, attributes, status and configuration interfaces of device k. */
  predicate HandlesOf(hs: Handles, k: nat) {
    hs.enumerator.IteratorHandle? &&
    hs.main.DeviceHandle? && hs.main.kind == Main && hs.main.device == k &&
    hs.attributes.DeviceHandle? && hs.attributes.kind == Attributes && hs.attributes.device == k &&
    hs.status.DeviceHandle? && hs.status.kind == Status && hs.status.device == k &&
    hs.configuration.DeviceHandle? && hs.configuration.kind == Configuration &&
    hs.configuration.device == k
  }

  /** One slot of the table (struct DeviceProps); `handles` is None for a
      slot never loaded, whose pointers are all NULL. */
  datatype DeviceProps = DeviceProps(
    idx: int,
    pairIdx: int,
    name: string,
    uid: int64,
    pairUid: int64,
    duplexMode: int64,
    handles: Option<Handles>)

  /** A zero-initialised slot of the global table. */
  const Unloaded := DeviceProps(0, 0, "", 0, 0, 0, None)

  /** Slot k is either still as zero-initialisation left its idx, or loaded
      from device k with idx == k. */
  predicate SlotOk(s: DeviceProps, k: nat) {
    match s.handles
    case None => s.idx == 0
    case Some(hs) => s.idx == k && HandlesOf(hs, k)
  }

  /** `after` is `before` as a successful load of device d into slot k leaves
      it: name, uid, handles and idx written, every other field kept. */
  predicate LoadedFrom(before: DeviceProps, after: DeviceProps, k: nat, d: Device) {
    after.handles.Some? && HandlesOf(after.handles.value, k) &&
    after == before.(idx := k, name := d.name, uid := d.uid, handles := after.handles)
  }

  /** The references a slot holds: none for a slot never loaded. */
  function SlotHandles(s: DeviceProps): set<Handle> {
    if s.handles.Some? then HandleSet(s.handles.value) else {}
  }

  /** The references held by a run of slots. */
  function HeldBy(slots: seq<DeviceProps>): set<Handle> {
    if |slots| == 0 then {} else SlotHandles(slots[0]) + HeldBy(slots[1..])
  }

  lemma {:induction false} HeldByAppend(slots: seq<DeviceProps>, s: DeviceProps)
    ensures HeldBy(slots + [s]) == HeldBy(slots) + SlotHandles(s)
  {
    if |slots| > 0 {
      assert (slots + [s])[1..] == slots[1..] + [s];
      HeldByAppend(slots[1..], s);
    }
  }

  /** A run of slots whose references were each acquired at or after `lo`
      holds only references acquired at or after `lo`. */
  lemma {:induction false} HeldByIdsFrom(slots: seq<DeviceProps>, lo: nat)
    requires forall j :: 0 <= j < |slots| ==> forall h :: h in SlotHandles(slots[j]) ==> lo <= h.id
    ensures forall h :: h in HeldBy(slots) ==> lo <= h.id
  {
    if |slots| > 0 {
      assert forall j :: 0 <= j < |slots[1..]| ==> slots[1..][j] == slots[j + 1];
      HeldByIdsFrom(slots[1..], lo);
    }
  }

  /** Which references a run of slots holds depends only on their handles. */
  lemma {:induction false} HeldBySameHandles(a: seq<DeviceProps>, b: seq<DeviceProps>)
    requires |a| == |b|
    requires forall j :: 0 <= j < |a| ==> a[j].handles == b[j].handles
    ensures HeldBy(a) == HeldBy(b)
  {
    if |a| > 0 {
      HeldBySameHandles(a[1..], b[1..]);
    }
  }

  /** get_device_idx_from_uid over a table snapshot: the idx of the first slot
      whose uid matches, or -1. */
  function FindIdx(slots: seq<DeviceProps>, uid: int64): int {
    if |slots| == 0 then -1
    else if slots[0].uid == uid then slots[0].idx
    else FindIdx(slots[1..], uid)
  }

  /** Slot i is the lowest-numbered slot whose uid is `uid`. */
  predicate IsFirstMatch(slots: seq<DeviceProps>, uid: int64, i: int) {
    0 <= i < |slots| && slots[i].uid == uid &&
    forall j :: 0 <= j < i ==> slots[j].uid != uid
  }

  /** The lookup returns the idx of the lowest-numbered matching slot. */
  lemma {:induction false} FindIdxFirstMatch(slots: seq<DeviceProps>, uid: int64, i: int)
    requires IsFirstMatch(slots, uid, i)
    ensures FindIdx(slots, uid) == slots[i].idx
  {
    if i > 0 {
      assert slots[0].uid != uid;
      assert IsFirstMatch(slots[1..], uid, i - 1) by {
        forall j | 0 <= j < i - 1 ensures slots[1..][j].uid != uid {
          assert slots[1..][j] == slots[j + 1];
        }
      }
      FindIdxFirstMatch(slots[1..], uid, i - 1);
    }
  }

  /** With no negative idx in the table, the lookup returns -1 exactly when
      no slot has the uid. */
  lemma {:induction false} FindIdxMissing(slots: seq<DeviceProps>, uid: int64)
    requires forall i :: 0 <= i < |slots| ==> slots[i].idx >= 0
    ensures FindIdx(slots, uid) == -1 <==> forall i :: 0 <= i < |slots| ==> slots[i].uid != uid
  {
    if |slots| > 0 && slots[0].uid != uid {
      assert forall i :: 0 <= i < |slots[1..]| ==> slots[1..][i] == slots[i + 1];
      FindIdxMissing(slots[1..], uid);
    }
  }

  /** The lookup reads only the uid and idx fields of the slots. */
  lemma {:induction false} FindIdxSameKeys(a: seq<DeviceProps>, b: seq<DeviceProps>, uid: int64)
    requires |a| == |b|
    requires forall i :: 0 <= i < |a| ==> a[i].uid == b[i].uid && a[i].idx == b[i].idx
    ensures FindIdx(a, uid) == FindIdx(b, uid)
  {
    if |a| > 0 && a[0].uid != uid {
      FindIdxSameKeys(a[1..], b[1..], uid);
    }
  }

  /** A slot holding its own position as idx is found by its own uid, as long
      as no earlier slot shares that uid (in particular, when all uids differ). */
  lemma LookupOwnUid(slots: seq<DeviceProps>, k: nat)
    requires k < |slots| && slots[k].idx == k
    requires forall j :: 0 <= j < k ==> slots[j].uid != slots[k].uid
    ensures FindIdx(slots, slots[k].uid) == k
  {
    FindIdxFirstMatch(slots, slots[k].uid, k);
  }

  /** Zero-initialised slots take part in the lookup: once the first eight
      slots are loaded with nonzero uids, uid 0 resolves to idx 0 through the
      unloaded slot 8, not to -1. */
  lemma ZeroUidResolvesThroughUnloadedSlot(slots: seq<DeviceProps>)
    requires |slots| == MAX_DEVICES
    requires forall i :: 0 <= i < 8 ==> slots[i].uid != 0
    requires slots[8] == Unloaded
    ensures FindIdx(slots, 0) == 0
  {
    FindIdxFirstMatch(slots, 0, 8);
  }
}
