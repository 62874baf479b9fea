/**
 * The chipset driver manager: detection of known PCI chipsets, the
 * per-chipset capability table, and load/unload bookkeeping over a list of
 * at most 32 loaded drivers.
 *
 * The calls into the kernel bridge are inputs here: the context that
 * bridge_register_device hands back (possibly null) and the return codes
 * of bridge_forward_request, bridge_chipset_configure and
 * bridge_chipset_power_state. Contexts given back to the bridge are
 * logged in `released`.
 */
module ChipsetDriver {
  import opened Common
  import AiBuffer
  import opened KernelBridge

  const CHIPSET_SUCCESS: int := 0
  const CHIPSET_ERR_INVALID_ARG: int := -2
  const CHIPSET_ERR_NOT_FOUND: int := -4
  const CHIPSET_ERR_LOAD_FAILED: int := -5
  const CHIPSET_ERR_IO_ERROR: int := -6

  const MAX_LOADED: nat := 32

  /** The value a successful register read yields (the read is simulated). */
  const SIMULATED_REGISTER_VALUE: u32 := 0x12345678

  /** chipset_driver_t as a value: what detect fills in and the loaded list copies. */
  datatype DriverRecord = DriverRecord(
    name: string, vendor: string, vendorId: u32, deviceId: u32,
    chipsetType: ChipsetType, driverPath: string,
    loaded: bool, hasHandle: bool, bridgeContext: DeviceContext?)

  const EmptyRecord := DriverRecord("", "", 0, 0, Intel, "", false, false, null)

  /** A driver record after unload: not loaded, no handle, no bridge context. */
  function Unloaded(r: DriverRecord): (u: DriverRecord)
    ensures !u.loaded && !u.hasHandle && u.bridgeContext == null
    ensures u.deviceId == r.deviceId && u.name == r.name && u.chipsetType == r.chipsetType
  {
    r.(loaded := false, hasHandle := false, bridgeContext := null)
  }

  // ---------------------------------------------------------------------
  // Capabilities

  datatype Capabilities = Capabilities(
    dma: bool, msi: bool, powerManagement: bool, pcie: bool,
    maxTransferSize: u32, alignment: u32)

  const MIB: nat := 1024 * 1024

  /** The capability table of chipset_get_capabilities. */
  function CapabilitiesOf(t: ChipsetType): (c: Capabilities)
    ensures c.alignment == 64 || c.alignment == 4096
    ensures c.maxTransferSize % c.alignment == 0
    ensures MIB <= c.maxTransferSize <= 64 * MIB
    ensures c.pcie == c.msi && c.dma == c.powerManagement && (c.pcie ==> c.dma)
    ensures c.dma <==> t != UnknownChipset
    ensures c.pcie <==> t in {Intel, Amd, Nvidia}
    ensures c.alignment == 4096 <==> c.pcie
    ensures !c.dma ==> c.maxTransferSize == MIB
  {
    match t
    case Intel | Amd => Capabilities(true, true, true, true, 16 * MIB, 4096)
    case Nvidia => Capabilities(true, true, true, true, 64 * MIB, 4096)
    case Qualcomm => Capabilities(true, false, true, false, 4 * MIB, 64)
    case UnknownChipset => Capabilities(false, false, false, false, MIB, 64)
  }

  /** Intel and AMD share one row; NVIDIA differs from it only in the transfer size. */
  lemma CapabilityRows()
    ensures CapabilitiesOf(Intel) == CapabilitiesOf(Amd)
    ensures CapabilitiesOf(Nvidia) == CapabilitiesOf(Intel).(maxTransferSize := 4 * CapabilitiesOf(Intel).maxTransferSize)
    ensures CapabilitiesOf(Qualcomm).maxTransferSize * 4 == CapabilitiesOf(Intel).maxTransferSize
  {
  }

  // ---------------------------------------------------------------------
  // Detection

  /** A PCI function whose vendor and device files could be read. */
  datatype PciId = PciId(vendorId: u32, deviceId: u32)

  datatype KnownChipset = KnownChipset(vendorId: u32, deviceId: u32, chipsetType: ChipsetType, name: string, vendor: string)

  /** The known-chipsets database, without its NULL-named terminator. */
  const KNOWN: seq<KnownChipset> := [
    KnownChipset(0x8086, 0x1904, Intel, "Intel HD Graphics 520", "Intel"),
    KnownChipset(0x8086, 0x9D03, Intel, "Intel Sunrise Point-LP PMC", "Intel"),
    KnownChipset(0x8086, 0x9D14, Intel, "Intel Sunrise Point-LP PCI Express", "Intel"),
    KnownChipset(0x1022, 0x1480, Amd, "AMD Starship/Matisse Root Complex", "AMD"),
    KnownChipset(0x1022, 0x1481, Amd, "AMD Starship/Matisse IOMMU", "AMD"),
    KnownChipset(0x10DE, 0x0BE3, Nvidia, "NVIDIA GeForce GTX 660M", "NVIDIA"),
    KnownChipset(0x10DE, 0x1180, Nvidia, "NVIDIA GeForce GTX 680", "NVIDIA"),
    KnownChipset(0x17CB, 0x0106, Qualcomm, "Qualcomm Snapdragon", "Qualcomm")
  ]

  predicate IsKnown(k: KnownChipset, id: PciId)
  {
    k.vendorId == id.vendorId && k.deviceId == id.deviceId
  }

  /** Index of the first database row for the id, |table| when there is none. */
  function KnownIndex(table: seq<KnownChipset>, id: PciId): (k: nat)
    ensures k <= |table|
    ensures k < |table| ==> IsKnown(table[k], id)
    ensures forall j :: 0 <= j < k ==> !IsKnown(table[j], id)
  {
    if table == [] then 0
    else if IsKnown(table[0], id) then 0
    else 1 + KnownIndex(table[1..], id)
  }

  /** `/opt/windrvmgr/drivers/%04x_%04x.sys`. */
  function DriverPath(id: PciId): string
  {
    "/opt/windrvmgr/drivers/" + HexString(id.vendorId, 4) + "_" + HexString(id.deviceId, 4) + ".sys"
  }

  /** The path names the device by its two ids, each as at least four hex digits. */
  lemma DriverPathShape(id: PciId)
    ensures var v, d := HexString(id.vendorId, 4), HexString(id.deviceId, 4);
            DriverPath(id) == "/opt/windrvmgr/drivers/" + v + "_" + d + ".sys"
            && HexValue(v) == id.vendorId && HexValue(d) == id.deviceId && |v| >= 4 && |d| >= 4
  {
  }

  /** The entry detect writes for a device matching row k of the database. */
  function DetectedRecord(table: seq<KnownChipset>, k: nat, id: PciId): (r: DriverRecord)
    requires k < |table|
  {
    DriverRecord(table[k].name, table[k].vendor, id.vendorId, id.deviceId, table[k].chipsetType,
                 DriverPath(id), false, false, null)
  }

  /** What detect emits for one device: its entry when the database knows it, nothing otherwise. */
  function Emitted(table: seq<KnownChipset>, id: PciId): (e: seq<DriverRecord>)
    ensures |e| <= 1
  {
    var k := KnownIndex(table, id);
    if k < |table| then [DetectedRecord(table, k, id)] else []
  }

  /**
   * What detect emits for the devices in listing order: one entry per
   * device the database knows, until `max` entries are out. The database
   * is KNOWN; it is a parameter so that proofs do not unfold it.
   */
  function Detected(table: seq<KnownChipset>, ids: seq<PciId>, max: nat): (r: seq<DriverRecord>)
    ensures |r| <= max && |r| <= |ids|
  {
    if ids == [] then []
    else
      var before := Detected(table, ids[..|ids| - 1], max);
      if |before| < max then before + Emitted(table, ids[|ids| - 1]) else before
  }

  /** Every emitted entry is for a listed device the database knows, not yet loaded. */
  lemma {:induction false} DetectedRecords(table: seq<KnownChipset>, ids: seq<PciId>, max: nat)
    ensures forall r :: r in Detected(table, ids, max) ==>
              && !r.loaded && !r.hasHandle && r.bridgeContext == null
              && KnownIndex(table, PciId(r.vendorId, r.deviceId)) < |table|
              && PciId(r.vendorId, r.deviceId) in ids
  {
    if ids != [] {
      var pre := ids[..|ids| - 1];
      DetectedRecords(table, pre, max);
      forall r | r in Detected(table, pre, max) ensures PciId(r.vendorId, r.deviceId) in ids {
        var t :| 0 <= t < |pre| && pre[t] == PciId(r.vendorId, r.deviceId);
        assert ids[t] == pre[t];
      }
    }
  }

  /** One more device in the listing adds what it emits while fewer than `max` entries are out. */
  lemma DetectedStep(table: seq<KnownChipset>, ids: seq<PciId>, i: nat, max: nat)
    requires i < |ids| && |Detected(table, ids[..i], max)| < max
    ensures Detected(table, ids[..i + 1], max) == Detected(table, ids[..i], max) + Emitted(table, ids[i])
  {
    assert ids[..i + 1][..i] == ids[..i];
  }

  /** Once `max` entries are out, the rest of the listing adds nothing. */
  lemma {:induction false} DetectedFull(table: seq<KnownChipset>, ids: seq<PciId>, k: nat, max: nat)
    requires k <= |ids| && |Detected(table, ids[..k], max)| == max
    ensures Detected(table, ids, max) == Detected(table, ids[..k], max)
    decreases |ids| - k
  {
    if k < |ids| {
      var pre := ids[..|ids| - 1];
      assert pre[..k] == ids[..k];
      DetectedFull(table, pre, k, max);
    } else {
      assert ids[..k] == ids;
    }
  }

  /** Number of devices in the listing that the database knows. */
  function KnownCount(table: seq<KnownChipset>, ids: seq<PciId>): (n: nat)
    ensures n <= |ids|
  {
    if ids == [] then 0 else KnownCount(table, ids[..|ids| - 1]) + |Emitted(table, ids[|ids| - 1])|
  }

  /** Detect emits every known device of the listing, up to `max` of them. */
  lemma {:induction false} DetectedCount(table: seq<KnownChipset>, ids: seq<PciId>, max: nat)
    ensures |Detected(table, ids, max)| == if KnownCount(table, ids) < max then KnownCount(table, ids) else max
  {
    if ids != [] {
      DetectedCount(table, ids[..|ids| - 1], max);
    }
  }

  // ---------------------------------------------------------------------
  // The loaded list

  /** Index of the first entry with the device id, |list| when there is none. */
  function FirstWithDevice(list: seq<DriverRecord>, deviceId: u32): (i: nat)
    ensures i <= |list|
    ensures i < |list| ==> list[i].deviceId == deviceId
    ensures forall j :: 0 <= j < i ==> list[j].deviceId != deviceId
  {
    if list == [] then 0
    else if list[0].deviceId == deviceId then 0
    else 1 + FirstWithDevice(list[1..], deviceId)
  }

  /** The list without its first entry for the device id. */
  function RemoveFirst(list: seq<DriverRecord>, deviceId: u32): (r: seq<DriverRecord>)
    ensures |r| == |list| || |r| == |list| - 1
  {
    if list == [] then []
    else if list[0].deviceId == deviceId then list[1..]
    else [list[0]] + RemoveFirst(list[1..], deviceId)
  }

  /** RemoveFirst drops exactly the entry the scan of the unload loop stops at. */
  lemma RemoveFirstAt(list: seq<DriverRecord>, deviceId: u32)
    ensures var i := FirstWithDevice(list, deviceId);
            RemoveFirst(list, deviceId) == if i == |list| then list else list[..i] + list[i + 1..]
  {
    var i := FirstWithDevice(list, deviceId);
    if i == |list| {
      RemoveFirstAbsent(list, deviceId);
    } else {
      RemoveFirstAtIndex(list, deviceId, i);
    }
  }

  /** Without an entry for the device id, RemoveFirst leaves the list as it is. */
  lemma {:induction false} RemoveFirstAbsent(list: seq<DriverRecord>, deviceId: u32)
    requires forall j :: 0 <= j < |list| ==> list[j].deviceId != deviceId
    ensures RemoveFirst(list, deviceId) == list
  {
    if list != [] {
      assert list[0].deviceId != deviceId;
      RemoveFirstAbsent(list[1..], deviceId);
      assert [list[0]] + list[1..] == list;
    }
  }

  /** RemoveFirst drops the entry at i when it is the first one with the device id. */
  lemma {:induction false} RemoveFirstAtIndex(list: seq<DriverRecord>, deviceId: u32, i: nat)
    requires i < |list| && list[i].deviceId == deviceId
    requires forall j :: 0 <= j < i ==> list[j].deviceId != deviceId
    ensures RemoveFirst(list, deviceId) == list[..i] + list[i + 1..]
  {
    if i > 0 {
      var tail := list[1..];
      assert list[0].deviceId != deviceId;
      RemoveFirstAtIndex(tail, deviceId, i - 1);
      assert list[..i] == [list[0]] + tail[..i - 1];
      assert list[i + 1..] == tail[i..];
    }
  }

  /** Loading a driver whose device is not listed and unloading it gives the list back. */
  lemma {:induction false} LoadUnloadRoundTrip(list: seq<DriverRecord>, r: DriverRecord)
    requires forall j :: 0 <= j < |list| ==> list[j].deviceId != r.deviceId
    ensures RemoveFirst(list + [r], r.deviceId) == list
  {
    if list != [] {
      assert (list + [r])[1..] == list[1..] + [r];
      LoadUnloadRoundTrip(list[1..], r);
    }
  }

  /** Every entry is unloaded. */
  ghost predicate NoneLoaded(list: seq<DriverRecord>)
  {
    forall j :: 0 <= j < |list| ==> !list[j].loaded
  }

  /**
   * chipset_shutdown's loop as written: slot i is unloaded in place, the
   * first entry with its device id leaves the list, and then i moves on,
   * past the entry that has just shifted into slot i.
   */
  function ShutdownLoop(list: seq<DriverRecord>, i: nat): (r: seq<DriverRecord>)
    ensures |r| <= |list|
    decreases |list| - i
  {
    if i >= |list| then list
    else if list[i].loaded then ShutdownLoop(RemoveFirst(list[i := Unloaded(list[i])], list[i].deviceId), i + 1)
    else ShutdownLoop(list, i + 1)
  }

  /**
   * The bridge contexts chipset_shutdown's loop as written releases, in
   * order: those of the loaded entries it visits in ShutdownLoop.
   */
  ghost function ShutdownReleased(list: seq<DriverRecord>, i: nat): seq<DeviceContext>
    decreases |list| - i
  {
    if i >= |list| then []
    else if list[i].loaded then
      (if list[i].bridgeContext != null then [list[i].bridgeContext] else [])
      + ShutdownReleased(RemoveFirst(list[i := Unloaded(list[i])], list[i].deviceId), i + 1)
    else ShutdownReleased(list, i + 1)
  }

  /** One iteration of the loop as written, in the terms of ShutdownLoop and ShutdownReleased. */
  lemma ShutdownLoopStep(list: seq<DriverRecord>, i: nat)
    requires i < |list|
    ensures list[i].loaded ==>
              var next := RemoveFirst(list[i := Unloaded(list[i])], list[i].deviceId);
              && ShutdownLoop(next, i + 1) == ShutdownLoop(list, i)
              && (if list[i].bridgeContext != null then [list[i].bridgeContext] else []) + ShutdownReleased(next, i + 1)
                 == ShutdownReleased(list, i)
    ensures !list[i].loaded ==>
              ShutdownLoop(list, i + 1) == ShutdownLoop(list, i) && ShutdownReleased(list, i + 1) == ShutdownReleased(list, i)
  {
  }

  /**
   * Two loaded drivers for different devices: the loop unloads the first,
   * the second shifts into slot 0, the loop moves to slot 1 and stops. The
   * second driver is still loaded and still holds its bridge context, which
   * is never released.
   */
  lemma ShutdownLeavesDriverLoaded(a: DriverRecord, b: DriverRecord)
    requires a.loaded && b.loaded && a.deviceId != b.deviceId
    ensures ShutdownLoop([a, b], 0) == [b]
    ensures !NoneLoaded(ShutdownLoop([a, b], 0))
    ensures ShutdownReleased([a, b], 0) == (if a.bridgeContext != null then [a.bridgeContext] else [])
  {
    var u := [a, b][0 := Unloaded(a)];
    assert [a, b][0] == a;
    assert RemoveFirst(u, a.deviceId) == [b];
    assert ShutdownLoop([a, b], 0) == ShutdownLoop(RemoveFirst(u, a.deviceId), 1);
    assert ShutdownLoop([b], 1) == [b];
    assert ShutdownReleased([b], 1) == [];
    assert [b][0].loaded;
  }

  /**
   * Unloading slot i in place and removing the first entry with its device
   * id keeps every slot before i unloaded when all of them were, and the
   * entries after slot i move down by one into slot i onwards.
   */
  lemma UnloadKeepsPrefix(list: seq<DriverRecord>, i: nat)
    requires i < |list| && NoneLoaded(list[..i])
    ensures var r := RemoveFirst(list[i := Unloaded(list[i])], list[i].deviceId);
            |r| == |list| - 1 && NoneLoaded(r[..i]) && r[i..] == list[i + 1..]
  {
    var l := list[i := Unloaded(list[i])];
    var id := list[i].deviceId;
    RemoveFirstAt(l, id);
    var j := FirstWithDevice(l, id);
    assert l[i].deviceId == id;
    var r := l[..j] + l[j + 1..];
    forall k | i <= k < |r| ensures r[k] == list[k + 1] {
      assert r[k] == l[k + 1];
    }
    assert r[i..] == list[i + 1..];
    forall k | 0 <= k < i ensures !r[k].loaded {
      if k < j {
        assert r[k] == l[k] == list[..i][k];
      } else {
        assert r[k] == l[k + 1];
        if k + 1 < i {
          assert l[k + 1] == list[..i][k + 1];
        }
      }
    }
  }

  /** The bridge contexts that the loaded entries of the list hold, in list order. */
  ghost function LoadedContexts(list: seq<DriverRecord>): (r: seq<DeviceContext>)
    ensures |r| <= LoadedCount(list)
  {
    if list == [] then []
    else
      var d := list[|list| - 1];
      LoadedContexts(list[..|list| - 1]) + (if d.loaded && d.bridgeContext != null then [d.bridgeContext] else [])
  }

  /** The number of loaded entries of the list. */
  function LoadedCount(list: seq<DriverRecord>): (n: nat)
    ensures n <= |list|
  {
    if list == [] then 0
    else LoadedCount(list[..|list| - 1]) + (if list[|list| - 1].loaded then 1 else 0)
  }

  /** A list of loaded entries only, the state load builds, counts all of its entries. */
  lemma {:induction false} LoadedCountAll(list: seq<DriverRecord>)
    requires forall j :: 0 <= j < |list| ==> list[j].loaded
    ensures LoadedCount(list) == |list|
  {
    if list != [] {
      LoadedCountAll(list[..|list| - 1]);
    }
  }

  /**
   * The state of the corrected shutdown loop after it has examined the
   * first k entries of the starting list and stands at slot i of `list`,
   * with `released` the contexts released so far: the slots before i are
   * unloaded, the unexamined entries follow from slot i, and the loaded
   * entries examined so far have left the list and released their contexts.
   */
  ghost predicate SweptList(list: seq<DriverRecord>, released: seq<DeviceContext>,
                            start: seq<DriverRecord>, before: seq<DeviceContext>, i: nat, k: nat)
  {
    && i <= |list| && k <= |start|
    && NoneLoaded(list[..i])
    && list[i..] == start[k..]
    && |list| == |start| - LoadedCount(start[..k])
    && released == before + LoadedContexts(start[..k])
  }

  /** The corrected loop's account after unloading the loaded slot i. */
  lemma SweepListLoaded(list: seq<DriverRecord>, released: seq<DeviceContext>,
                        start: seq<DriverRecord>, before: seq<DeviceContext>, i: nat, k: nat)
    requires SweptList(list, released, start, before, i, k) && i < |list| && list[i].loaded
    ensures var c := list[i].bridgeContext;
            SweptList(RemoveFirst(list[i := Unloaded(list[i])], list[i].deviceId),
                      released + (if c != null then [c] else []), start, before, i, k + 1)
  {
    UnloadKeepsPrefix(list, i);
    assert list[i] == start[k];
    assert list[i + 1..] == start[k + 1..];
    assert start[..k + 1][..k] == start[..k];
  }

  /** The corrected loop's account after passing the unloaded slot i. */
  lemma SweepListSkip(list: seq<DriverRecord>, released: seq<DeviceContext>,
                      start: seq<DriverRecord>, before: seq<DeviceContext>, i: nat, k: nat)
    requires SweptList(list, released, start, before, i, k) && i < |list| && !list[i].loaded
    ensures SweptList(list, released, start, before, i + 1, k + 1)
  {
    assert list[i] == start[k];
    assert list[i + 1..] == start[k + 1..];
    assert start[..k + 1][..k] == start[..k];
    assert list[..i + 1] == list[..i] + [list[i]];
  }

  /**
   * A driver structure owned by the caller; load and unload update it in
   * place. Its identity fields are fixed once detect has filled them in.
   */
  class Driver {
    const name: string
    const vendor: string
    const vendorId: u32
    const deviceId: u32
    const chipsetType: ChipsetType
    const driverPath: string
    var loaded: bool
    var hasHandle: bool
    var bridgeContext: DeviceContext?

    constructor (r: DriverRecord)
      ensures Record() == r
    {
      name, vendor, vendorId, deviceId := r.name, r.vendor, r.vendorId, r.deviceId;
      chipsetType, driverPath := r.chipsetType, r.driverPath;
      loaded, hasHandle, bridgeContext := r.loaded, r.hasHandle, r.bridgeContext;
    }

    /** The structure's current contents, as memcpy copies them. */
    function Record(): DriverRecord
      reads this
    {
      DriverRecord(name, vendor, vendorId, deviceId, chipsetType, driverPath, loaded, hasHandle, bridgeContext)
    }
  }

  /** The outcome of a register or control call: return code, value read and request sent, if any. */
  datatype Access = Access(code: int, value: u32, sent: Option<AiBuffer.Request>)

  /** The request read and write send to the bridge: 4 bytes at the offset, priority 5. */
  function RegisterRequest(reqType: u32, deviceId: u32, offset: u32): (req: AiBuffer.Request)
    requires reqType == AiBuffer.REQ_IO_READ || reqType == AiBuffer.REQ_IO_WRITE
    ensures req.size == 4 && req.priority == 5 && req.flags == 0 && req.timestamp == 0
    ensures req.deviceId == deviceId && req.address == offset && req.reqType == reqType
  {
    AiBuffer.Request(reqType, deviceId, offset, 4, 0, 0, 5)
  }

  /** g_chipset. */
  class ChipsetManager {
    var initialized: bool
    const loadedDrivers: array<DriverRecord>
    var driverCount: nat
    ghost var released: seq<DeviceContext>

    ghost predicate Valid()
      reads this
    {
      loadedDrivers.Length == MAX_LOADED && driverCount <= MAX_LOADED
    }

    /** The loaded list in order. */
    function List(): seq<DriverRecord>
      reads this, loadedDrivers
      requires Valid()
    {
      loadedDrivers[..driverCount]
    }

    /** The zero-filled static state. */
    constructor ()
      ensures Valid() && !initialized && List() == [] && released == []
    {
      initialized := false;
      loadedDrivers := new DriverRecord[MAX_LOADED](_ => EmptyRecord);
      driverCount := 0;
      released := [];
    }

    /** chipset_init: a second call succeeds without touching the state. */
    method Init() returns (code: int)
      requires Valid()
      modifies this, loadedDrivers
      ensures Valid() && code == CHIPSET_SUCCESS && initialized
      ensures old(initialized) ==> unchanged(this, loadedDrivers)
      ensures !old(initialized) ==>
                && List() == [] && released == old(released)
                && forall i :: 0 <= i < MAX_LOADED ==> loadedDrivers[i] == EmptyRecord
    {
      if initialized {
        return CHIPSET_SUCCESS;
      }
      forall i | 0 <= i < loadedDrivers.Length {
        loadedDrivers[i] := EmptyRecord;
      }
      driverCount := 0;
      initialized := true;
      code := CHIPSET_SUCCESS;
    }

    /**
     * chipset_detect over the devices whose ids could be read, in listing
     * order (None: the PCI directory could not be opened). The output
     * array and count pointers are taken to be present.
     */
    method Detect(pci: Option<seq<PciId>>, maxDrivers: u32) returns (code: int, found: seq<DriverRecord>)
      requires Valid()
      ensures !initialized ==> code == CHIPSET_ERR_INVALID_ARG && found == []
      ensures initialized && pci.None? ==> code == CHIPSET_ERR_IO_ERROR && found == []
      ensures initialized && pci.Some? ==> code == CHIPSET_SUCCESS && found == Detected(KNOWN, pci.value, maxDrivers)
    {
      found := [];
      if !initialized {
        return CHIPSET_ERR_INVALID_ARG, found;
      }
      if pci.None? {
        return CHIPSET_ERR_IO_ERROR, found;
      }
      found := Scan(KNOWN, pci.value, maxDrivers);
      code := CHIPSET_SUCCESS;
    }

    /** The listing scan inside detect: each device is looked up in the database in turn. */
    static method Scan(table: seq<KnownChipset>, ids: seq<PciId>, max: nat) returns (found: seq<DriverRecord>)
      ensures found == Detected(table, ids, max)
    {
      found := [];
      var i := 0;
      while i < |ids| && |found| < max
        invariant 0 <= i <= |ids|
        invariant found == Detected(table, ids[..i], max)
      {
        var k := FindKnown(table, ids[i]);
        DetectedStep(table, ids, i, max);
        if k < |table| {
          found := found + [DetectedRecord(table, k, ids[i])];
        }
        i := i + 1;
      }
      if i < |ids| {
        DetectedFull(table, ids, i, max);
      } else {
        assert ids[..i] == ids;
      }
    }

    /** The database scan inside detect. */
    static method FindKnown(table: seq<KnownChipset>, id: PciId) returns (k: nat)
      ensures k == KnownIndex(table, id)
    {
      k := 0;
      while k < |table| && !IsKnown(table[k], id)
        invariant 0 <= k <= |table|
        invariant forall j :: 0 <= j < k ==> !IsKnown(table[j], id)
      {
        k := k + 1;
      }
      KnownIndexIsFirst(table, id, k);
    }

    /**
     * chipset_load_driver. `registered` is what bridge_register_device
     * returns. A loaded driver is left alone; a null context fails the
     * load; otherwise the driver is loaded and a copy joins the list while
     * it holds fewer than 32 entries.
     */
    method Load(driver: Driver?, registered: DeviceContext?) returns (code: int)
      requires Valid()
      modifies driver, this, loadedDrivers
      ensures Valid() && initialized == old(initialized) && released == old(released)
      ensures !old(initialized) || driver == null ==>
                code == CHIPSET_ERR_INVALID_ARG && unchanged(this, loadedDrivers)
      ensures !old(initialized) && driver != null ==> unchanged(driver)
      ensures old(initialized) && driver != null && old(driver.loaded) ==>
                code == CHIPSET_SUCCESS && unchanged(this, loadedDrivers) && unchanged(driver)
      ensures old(initialized) && driver != null && !old(driver.loaded) && registered == null ==>
                && code == CHIPSET_ERR_LOAD_FAILED && unchanged(this, loadedDrivers)
                && !driver.loaded && driver.hasHandle == old(driver.hasHandle) && driver.bridgeContext == null
      ensures old(initialized) && driver != null && !old(driver.loaded) && registered != null ==>
                && code == CHIPSET_SUCCESS
                && driver.loaded && driver.hasHandle && driver.bridgeContext == registered
                && List() == old(List()) + (if old(driverCount) < MAX_LOADED then [driver.Record()] else [])
    {
      if !initialized || driver == null {
        return CHIPSET_ERR_INVALID_ARG;
      }
      if driver.loaded {
        return CHIPSET_SUCCESS;
      }
      driver.bridgeContext := registered;
      if driver.bridgeContext == null {
        return CHIPSET_ERR_LOAD_FAILED;
      }
      driver.loaded := true;
      driver.hasHandle := true;
      if driverCount < MAX_LOADED {
        loadedDrivers[driverCount] := driver.Record();
        driverCount := driverCount + 1;
      }
      code := CHIPSET_SUCCESS;
    }

    /**
     * chipset_unload_driver: a no-op unless running and the driver is
     * loaded. Otherwise its bridge context goes back to the bridge, the
     * driver is marked unloaded, and the first list entry for its device
     * leaves the list.
     */
    method Unload(driver: Driver?)
      requires Valid()
      modifies driver, this, loadedDrivers
      ensures Valid() && initialized == old(initialized)
      ensures !old(initialized) || driver == null || !old(driver.loaded) ==> unchanged(this, loadedDrivers)
      ensures driver != null && (!old(initialized) || !old(driver.loaded)) ==> unchanged(driver)
      ensures old(initialized) && driver != null && old(driver.loaded) ==>
                && !driver.loaded && !driver.hasHandle && driver.bridgeContext == null
                && List() == RemoveFirst(old(List()), driver.deviceId)
                && released == old(released) + (if old(driver.bridgeContext) != null then [old(driver.bridgeContext)] else [])
    {
      if !initialized || driver == null || !driver.loaded {
        return;
      }
      if driver.bridgeContext != null {
        released := released + [driver.bridgeContext];
        driver.bridgeContext := null;
      }
      driver.loaded := false;
      driver.hasHandle := false;
      RemoveFromList(driver.deviceId);
    }

    /** The removal loop of unload: the first entry for the device leaves and the rest shift down. */
    method RemoveFromList(deviceId: u32)
      requires Valid()
      modifies this, loadedDrivers
      ensures Valid() && initialized == old(initialized) && released == old(released)
      ensures List() == RemoveFirst(old(List()), deviceId)
    {
      ghost var before := List();
      var i := 0;
      while i < driverCount && loadedDrivers[i].deviceId != deviceId
        modifies {}
        invariant 0 <= i <= driverCount
        invariant forall j :: 0 <= j < i ==> loadedDrivers[j].deviceId != deviceId
      {
        i := i + 1;
      }
      FirstWithDeviceIsFirst(before, deviceId, i);
      RemoveFirstAt(before, deviceId);
      if i == driverCount {
        return;
      }
      ShiftDown(i, driverCount);
      driverCount := driverCount - 1;
    }

    /** Moves the entries after i, up to n, one place towards the front. */
    method ShiftDown(i: nat, n: nat)
      requires i < n <= loadedDrivers.Length
      modifies loadedDrivers
      ensures loadedDrivers[..n - 1] == old(loadedDrivers[..n])[..i] + old(loadedDrivers[..n])[i + 1..]
    {
      ghost var before := loadedDrivers[..];
      var j := i;
      while j < n - 1
        invariant i <= j <= n - 1
        invariant forall k :: 0 <= k < i ==> loadedDrivers[k] == before[k]
        invariant forall k :: i <= k < j ==> loadedDrivers[k] == before[k + 1]
        invariant forall k :: j <= k < loadedDrivers.Length ==> loadedDrivers[k] == before[k]
      {
        loadedDrivers[j] := loadedDrivers[j + 1];
        j := j + 1;
      }
      ShiftedSlices(before, loadedDrivers[..], i, n);
    }

    /**
     * chipset_unload_driver applied to &loaded_drivers[i], as shutdown
     * does: the slot itself is marked unloaded before the removal scan.
     */
    method UnloadSlot(i: nat)
      requires Valid() && initialized && i < driverCount && loadedDrivers[i].loaded
      modifies this, loadedDrivers
      ensures Valid() && initialized
      ensures List() == RemoveFirst(old(List())[i := Unloaded(old(List())[i])], old(List())[i].deviceId)
      ensures var c := old(loadedDrivers[i]).bridgeContext;
              released == old(released) + (if c != null then [c] else [])
    {
      var slot := loadedDrivers[i];
      if slot.bridgeContext != null {
        released := released + [slot.bridgeContext];
      }
      loadedDrivers[i] := Unloaded(slot);
      assert List() == old(List())[i := Unloaded(slot)];
      RemoveFromList(slot.deviceId);
    }

    /**
     * chipset_shutdown as written: the loop index advances after every
     * unload, although the unload has just shifted the next entry into the
     * current slot.
     */
    method ShutdownAsWritten()
      requires Valid()
      modifies this, loadedDrivers
      ensures Valid() && !initialized
      ensures old(initialized) ==> List() == ShutdownLoop(old(List()), 0)
      ensures old(initialized) ==> released == old(released) + ShutdownReleased(old(List()), 0)
      ensures !old(initialized) ==> unchanged(this, loadedDrivers)
    {
      if !initialized {
        return;
      }
      var i := 0;
      while i < driverCount
        invariant Valid() && initialized
        invariant ShutdownLoop(List(), i) == ShutdownLoop(old(List()), 0)
        invariant released + ShutdownReleased(List(), i) == old(released) + ShutdownReleased(old(List()), 0)
        decreases driverCount - i
      {
        AsWrittenStep(i);
        i := i + 1;
      }
      initialized := false;
    }

    /** One pass of the loop as written: unload slot i in place if it is loaded. */
    method AsWrittenStep(i: nat)
      requires Valid() && initialized && i < driverCount
      modifies this, loadedDrivers
      ensures Valid() && initialized && driverCount <= old(driverCount)
      ensures ShutdownLoop(List(), i + 1) == ShutdownLoop(old(List()), i)
      ensures released + ShutdownReleased(List(), i + 1) == old(released) + ShutdownReleased(old(List()), i)
    {
      ShutdownLoopStep(List(), i);
      if loadedDrivers[i].loaded {
        UnloadSlot(i);
      }
    }

    /** The corrected shutdown loop's account (SweptList) over the manager's own list and release log. */
    ghost predicate Swept(start: seq<DriverRecord>, before: seq<DeviceContext>, i: nat, k: nat)
      reads this, loadedDrivers
    {
      Valid() && initialized && i <= driverCount && SweptList(List(), released, start, before, i, k)
    }

    /** One pass of the corrected loop body: unload slot i in place, or move past it. */
    method SweepStep(i: nat, ghost start: seq<DriverRecord>, ghost before: seq<DeviceContext>, ghost k: nat)
      returns (next: nat)
      requires Swept(start, before, i, k) && i < driverCount
      modifies this, loadedDrivers
      ensures Swept(start, before, next, k + 1)
    {
      if loadedDrivers[i].loaded {
        SweepListLoaded(List(), released, start, before, i, k);
        UnloadSlot(i);
        next := i;
      } else {
        SweepListSkip(List(), released, start, before, i, k);
        next := i + 1;
      }
    }

    /**
     * The loop of chipset_shutdown with the index held in place after an
     * unload: every entry of the list is examined once, every loaded one is
     * unloaded and leaves the list, and its bridge context is released, in
     * list order. Entries that were already unloaded stay.
     */
    method UnloadAll()
      requires Valid() && initialized
      modifies this, loadedDrivers
      ensures Valid() && initialized
      ensures NoneLoaded(List())
      ensures |List()| == old(|List()|) - LoadedCount(old(List()))
      ensures released == old(released) + LoadedContexts(old(List()))
    {
      ghost var start := List();
      ghost var k: nat := 0;
      var i: nat := 0;
      assert start[..0] == [];
      while i < driverCount
        invariant Swept(start, old(released), i, k)
        decreases |start| - k
      {
        i := SweepStep(i, start, old(released), k);
        k := k + 1;
      }
      assert List()[..i] == List();
      assert start[..k] == start;
    }

    /** chipset_shutdown with the corrected loop; nothing happens before init. */
    method Shutdown()
      requires Valid()
      modifies this, loadedDrivers
      ensures Valid() && !initialized
      ensures old(initialized) ==> NoneLoaded(List())
      ensures old(initialized) ==> |List()| == old(|List()|) - LoadedCount(old(List()))
      ensures old(initialized) ==> released == old(released) + LoadedContexts(old(List()))
      ensures !old(initialized) ==> unchanged(this, loadedDrivers)
    {
      if !initialized {
        return;
      }
      UnloadAll();
      initialized := false;
    }

    /** chipset_get_capabilities: the table row of the driver's chipset type, loaded or not. */
    function GetCapabilities(driver: Driver?): (r: Result<Capabilities>)
      reads this, driver
      ensures r.Ok? <==> initialized && driver != null
      ensures r.Err? ==> r.code == CHIPSET_ERR_INVALID_ARG
      ensures r.Ok? ==> r.value == CapabilitiesOf(driver.chipsetType)
    {
      if !initialized || driver == null then Err(CHIPSET_ERR_INVALID_ARG)
      else Ok(CapabilitiesOf(driver.chipsetType))
    }

    /**
     * The guards shared by configure, read, write and power management:
     * INVALID_ARG before init or without a driver, NOT_FOUND when the
     * driver is not loaded, IO_ERROR when it has no bridge context.
     */
    function Guard(driver: Driver?): (code: int)
      reads this, driver
      ensures code == CHIPSET_SUCCESS <==> initialized && driver != null && driver.loaded && driver.bridgeContext != null
      ensures !initialized || driver == null ==> code == CHIPSET_ERR_INVALID_ARG
      ensures initialized && driver != null && !driver.loaded ==> code == CHIPSET_ERR_NOT_FOUND
      ensures initialized && driver != null && driver.loaded && driver.bridgeContext == null ==> code == CHIPSET_ERR_IO_ERROR
    {
      if !initialized || driver == null then CHIPSET_ERR_INVALID_ARG
      else if !driver.loaded then CHIPSET_ERR_NOT_FOUND
      else if driver.bridgeContext == null then CHIPSET_ERR_IO_ERROR
      else CHIPSET_SUCCESS
    }

    /**
     * chipset_configure: INVALID_ARG also without a parameter name; past
     * the guards, the result of bridge_chipset_configure.
     */
    function Configure(driver: Driver?, param: Option<string>, bridgeCode: int): (code: int)
      reads this, driver
      ensures param.None? ==> code == CHIPSET_ERR_INVALID_ARG
      ensures param.Some? && Guard(driver) == CHIPSET_SUCCESS ==> code == bridgeCode
      ensures param.Some? && Guard(driver) != CHIPSET_SUCCESS ==> code == Guard(driver) < 0
    {
      if !initialized || driver == null || param.None? then CHIPSET_ERR_INVALID_ARG
      else if !driver.loaded then CHIPSET_ERR_NOT_FOUND
      else if driver.bridgeContext != null then bridgeCode
      else CHIPSET_ERR_IO_ERROR
    }

    /** chipset_power_management: past the guards, the result of bridge_chipset_power_state. */
    function PowerManagement(driver: Driver?, state: u32, bridgeCode: int): (code: int)
      reads this, driver
      ensures Guard(driver) == CHIPSET_SUCCESS ==> code == bridgeCode
      ensures Guard(driver) != CHIPSET_SUCCESS ==> code == Guard(driver) < 0
    {
      if !initialized || driver == null then CHIPSET_ERR_INVALID_ARG
      else if !driver.loaded then CHIPSET_ERR_NOT_FOUND
      else if driver.bridgeContext != null then bridgeCode
      else CHIPSET_ERR_IO_ERROR
    }

    /**
     * chipset_read_register: past the guards, a 4-byte read is forwarded
     * through the bridge; when that succeeds the simulated value is read.
     */
    function ReadRegister(driver: Driver?, offset: u32, bridgeCode: int): (a: Access)
      reads this, driver
      ensures a.sent.Some? <==> Guard(driver) == CHIPSET_SUCCESS
      ensures a.sent.Some? ==> a.sent.value == RegisterRequest(AiBuffer.REQ_IO_READ, driver.deviceId, offset)
      ensures a.code == CHIPSET_SUCCESS <==> a.sent.Some? && bridgeCode == BRIDGE_SUCCESS
      ensures a.code == CHIPSET_SUCCESS ==> a.value == SIMULATED_REGISTER_VALUE
      ensures a.code != CHIPSET_SUCCESS ==> a.code < 0 && (a.sent.None? ==> a.code == Guard(driver))
    {
      if !initialized || driver == null then Access(CHIPSET_ERR_INVALID_ARG, 0, None)
      else if !driver.loaded then Access(CHIPSET_ERR_NOT_FOUND, 0, None)
      else if driver.bridgeContext == null then Access(CHIPSET_ERR_IO_ERROR, 0, None)
      else
        var req := RegisterRequest(AiBuffer.REQ_IO_READ, driver.deviceId, offset);
        if bridgeCode == BRIDGE_SUCCESS then Access(CHIPSET_SUCCESS, SIMULATED_REGISTER_VALUE, Some(req))
        else Access(CHIPSET_ERR_IO_ERROR, 0, Some(req))
    }

    /** chipset_write_register: past the guards, a 4-byte write is forwarded through the bridge. */
    function WriteRegister(driver: Driver?, offset: u32, bridgeCode: int): (a: Access)
      reads this, driver
      ensures a.sent.Some? <==> Guard(driver) == CHIPSET_SUCCESS
      ensures a.sent.Some? ==> a.sent.value == RegisterRequest(AiBuffer.REQ_IO_WRITE, driver.deviceId, offset)
      ensures a.code == CHIPSET_SUCCESS <==> a.sent.Some? && bridgeCode == BRIDGE_SUCCESS
      ensures a.code != CHIPSET_SUCCESS ==> a.code < 0 && (a.sent.None? ==> a.code == Guard(driver))
    {
      if !initialized || driver == null then Access(CHIPSET_ERR_INVALID_ARG, 0, None)
      else if !driver.loaded then Access(CHIPSET_ERR_NOT_FOUND, 0, None)
      else if driver.bridgeContext == null then Access(CHIPSET_ERR_IO_ERROR, 0, None)
      else
        var req := RegisterRequest(AiBuffer.REQ_IO_WRITE, driver.deviceId, offset);
        Access(if bridgeCode == BRIDGE_SUCCESS then CHIPSET_SUCCESS else CHIPSET_ERR_IO_ERROR, 0, Some(req))
    }
  }

  lemma {:induction false} KnownIndexIsFirst(table: seq<KnownChipset>, id: PciId, k: nat)
    requires k <= |table|
    requires k < |table| ==> IsKnown(table[k], id)
    requires forall j :: 0 <= j < k ==> !IsKnown(table[j], id)
    ensures k == KnownIndex(table, id)
  {
    if table != [] && k > 0 {
      KnownIndexIsFirst(table[1..], id, k - 1);
    }
  }

  lemma {:induction false} FirstWithDeviceIsFirst(list: seq<DriverRecord>, deviceId: u32, i: nat)
    requires i <= |list|
    requires i < |list| ==> list[i].deviceId == deviceId
    requires forall j :: 0 <= j < i ==> list[j].deviceId != deviceId
    ensures i == FirstWithDevice(list, deviceId)
  {
    if list != [] && i > 0 {
      FirstWithDeviceIsFirst(list[1..], deviceId, i - 1);
    }
  }
}
