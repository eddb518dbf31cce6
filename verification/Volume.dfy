/**
 Activating an encrypted storage volume: dm-integrity, a tags descriptor,
 dm-crypt, a format of a blank disk, the mount, the overlays, the exports and
 the seal, each undone when a later step fails.

 Source: tinfoil/internal/volume/volume.go, workspace.go and worker.go, and
 ActivateIntegrity in tinfoil/internal/devicemapper/devicemapper.go.

 Every system call may fail. Which of them do in one attempt is an input, the set
 `failing`, so outcomes are stated exactly. The deferred undo of an acquisition is
 the tail of the method that made it, so each method reads as "acquire, run the
 rest, undo if the rest failed".
 */
module Volume {
  import opened Options
  import opened Bytes

  type Key = seq<Byte>

  const KEY_BYTES: nat := 64
  const MAX_REQUEST_BYTES: nat := 512

  datatype Layer = Integrity | Crypt | Data | Overlay(index: nat) | Export(index: nat)

  function OverlayLayers(n: nat): (layers: seq<Layer>)
    ensures |layers| == n
  {
    seq(n, i requires 0 <= i < n => Overlay(i))
  }

  const BASE: seq<Layer> := [Integrity, Crypt, Data]
  const EXPORTS: seq<Layer> := [Export(0), Export(1)]

  // What the first mebibyte of the disk holds.
  datatype Header = Blank | Superblock | Foreign

  // What runs after everything is mounted.
  datatype Finish = Plain | Seal | ExportAndSeal

  datatype Op = Status | Unlock | Initialize | Unknown
  datatype Request = Request(op: Op, key: Key)
  datatype Packet = Packet(size: nat, request: Option<Request>)
  datatype Reply = Ok | Rejected | Failed | Locked

  // ---------- The calls of an attempt that can fail ----------

  datatype Table = ProbeTable | FinalTable
  datatype Look = AtBlankCheck | BeforeTable | AfterProbe
  datatype When = Probing | Loading | Unwinding | Preparing

  datatype Call =
    | PrepareDirectories | InspectMounts | LookupMapping(layer: Layer) | CheckExports
    | FlushCache(look: Look) | ReadDisk(look: Look)
    | DeriveTableKey
    | DescribeDevice | CreateIntegrity(table: Table) | BuildTable(table: Table) | LoadTable(table: Table)
    | FitCapacity | ResumeIntegrity
    | OpenTags | CreateCrypt | ReadyCrypt
    | PrepareFormat | RunMkfs
    | MountVolume | StatMount
    | OverlayPaths(index: nat) | OverlayMount(index: nat) | OverlayOwner(index: nat)
    | LayOut | ExportMount(index: nat)
    | DeriveIdentity | OpenRegister | WriteRegister | CloseRegister
    | Release(layer: Layer, when: When)
    | OpenDisk | ZeroDisk | SyncDisk

  // The superblock gets written.
  predicate ProbeBuilds(failing: set<Call>) {
    && DescribeDevice !in failing && FlushCache(BeforeTable) !in failing && ReadDisk(BeforeTable) !in failing
    && CreateIntegrity(ProbeTable) !in failing && BuildTable(ProbeTable) !in failing
  }

  predicate ProbeWorks(failing: set<Call>) {
    && ProbeBuilds(failing) && LoadTable(ProbeTable) !in failing && Release(Integrity, Probing) !in failing
    && FlushCache(AfterProbe) !in failing && ReadDisk(AfterProbe) !in failing
  }

  predicate IntegrityWorks(failing: set<Call>, initialize: bool) {
    && (initialize ==> ProbeWorks(failing))
    && DescribeDevice !in failing && FlushCache(BeforeTable) !in failing && ReadDisk(BeforeTable) !in failing
    && FitCapacity !in failing
    && CreateIntegrity(FinalTable) !in failing && BuildTable(FinalTable) !in failing && LoadTable(FinalTable) !in failing
    && ResumeIntegrity !in failing
  }

  predicate MappingWorks(failing: set<Call>) {
    OpenTags !in failing && CreateCrypt !in failing && ReadyCrypt !in failing
  }

  predicate FormatWorks(failing: set<Call>) {
    PrepareFormat !in failing && RunMkfs !in failing
  }

  predicate OverlayWorks(failing: set<Call>, index: nat) {
    OverlayPaths(index) !in failing && OverlayMount(index) !in failing && OverlayOwner(index) !in failing
  }

  predicate OverlaysWork(failing: set<Call>, n: nat) {
    forall i: nat :: i < n ==> OverlayWorks(failing, i)
  }

  // The register is written to.
  predicate SealWrites(failing: set<Call>, registerPresent: bool) {
    DeriveIdentity !in failing && registerPresent && OpenRegister !in failing && WriteRegister !in failing
  }

  predicate SealWorks(failing: set<Call>, registerPresent: bool) {
    DeriveIdentity !in failing && (registerPresent ==> SealWrites(failing, true) && CloseRegister !in failing)
  }

  predicate ExportsWork(failing: set<Call>) {
    LayOut !in failing && ExportMount(0) !in failing && ExportMount(1) !in failing
  }

  predicate FinishWrites(failing: set<Call>, registerPresent: bool, finish: Finish) {
    && finish != Plain && (finish == ExportAndSeal ==> ExportsWork(failing))
    && SealWrites(failing, registerPresent)
  }

  predicate FinishWorks(failing: set<Call>, registerPresent: bool, finish: Finish) {
    && (finish == ExportAndSeal ==> ExportsWork(failing))
    && (finish != Plain ==> SealWorks(failing, registerPresent))
  }

  predicate RestoreWorks(failing: set<Call>) {
    OpenDisk !in failing && ZeroDisk !in failing && SyncDisk !in failing
  }

  // No undo call fails.
  ghost predicate UndosWork(failing: set<Call>) {
    RestoreWorks(failing) && forall layer, when :: Release(layer, when) !in failing
  }

  // ---------- Histories of a disk ----------

  // Everything that happens to one volume, and to the machine it is attached to.
  datatype Event =
    | BootMount(key: Key, failing: set<Call>)
    | Enroll(key: Key, failing: set<Call>)
    | Serve(packet: Packet, failing: set<Call>)
    | Reboot

  datatype DiskState = DiskState(header: Header, fsKey: Option<Key>, mkfsRuns: nat, formats: nat, zeroings: nat)

  // Once a disk is not blank nothing more happens to it; a header is zeroed only
  // while there is no filesystem behind it.
  ghost predicate Settles(history: seq<DiskState>) {
    && (forall i, j :: 0 <= i <= j < |history| && history[i].header != Blank ==> history[j] == history[i])
    && (forall i, j :: 0 <= i <= j < |history| && history[i].fsKey.Some? ==> history[j] == history[i])
    && (forall i, j :: 0 <= i <= j < |history| ==> AtMostOneFormat(history[i], history[j]))
  }

  predicate AtMostOneFormat(before: DiskState, after: DiskState) {
    after.formats == before.formats || (after.formats == before.formats + 1 && after.fsKey.Some?)
  }

  class Volume {
    const overlays: nat
    const registerPresent: bool

    // The kernel: what is stacked on the disk, oldest first, and the descriptor
    // that holds the integrity device open.
    var live: seq<Layer>
    var tagsOpen: bool
    var cryptKey: Key

    // The disk, the page cache of its device and the key of the filesystem on it.
    var header: Header
    var cached: Option<Header>
    var fsKey: Option<Key>

    // The identities the seal register was extended with.
    var register: seq<Key>

    // The worker's own state.
    var unlocked: bool

    // An undo call of this attempt failed.
    ghost var undoFailed: bool

    // Over the whole run.
    ghost var mkfsRuns: nat
    ghost var formats: nat
    ghost var zeroings: nat

    constructor (overlays: nat, registerPresent: bool, header: Header)
      ensures this.overlays == overlays && this.registerPresent == registerPresent && this.header == header
      ensures Valid() && live == [] && fsKey == None && register == [] && !unlocked
      ensures mkfsRuns == formats == zeroings == 0
    {
      this.overlays, this.registerPresent, this.header := overlays, registerPresent, header;
      live, tagsOpen, cryptKey := [], false, [];
      cached, fsKey, register, unlocked := None, None, [], false;
      undoFailed := false;
      mkfsRuns, formats, zeroings := 0, 0, 0;
    }

    function Stack(finish: Finish): seq<Layer> {
      BASE + OverlayLayers(overlays) + (if finish == ExportAndSeal then EXPORTS else [])
    }

    // Layers are stacked in one order only.
    ghost predicate Chain()
      reads this
    {
      live <= Stack(ExportAndSeal)
    }

    // A filesystem is only ever behind a superblock, and only a filesystem is
    // ever mounted.
    ghost predicate Valid()
      reads this
    {
      && Chain() && !tagsOpen
      && (fsKey.Some? ==> header == Superblock)
      && (Data in live ==> fsKey.Some?)
    }

    // ---------- System calls ----------

    // A mount, or a mapping of a name that must be free.
    method Acquire(layer: Layer, call: Call, failing: set<Call>) returns (ok: bool)
      modifies `live
      ensures ok <==> call !in failing && layer !in old(live)
      ensures live == if ok then old(live) + [layer] else old(live)
    {
      ok := call !in failing && layer !in live;
      if ok {
        live := live + [layer];
      }
    }

    /** An unmount or the removal of a mapping. The kernel refuses it while
        something acquired later is still there. No caller asks for that unless an
        earlier undo has failed. */
    method Undo(layer: Layer, when: When, failing: set<Call>) returns (ok: bool)
      requires undoFailed || (live != [] && live[|live| - 1] == layer)
      requires undoFailed || (layer == Integrity ==> !tagsOpen)
      modifies `live, `undoFailed
      ensures undoFailed == (old(undoFailed) || !ok)
      ensures !old(undoFailed) ==> (ok <==> Release(layer, when) !in failing)
      ensures ok ==> old(live) != [] && old(live)[|old(live)| - 1] == layer && live == old(live)[..|old(live)| - 1]
      ensures !ok ==> live == old(live)
    {
      ok := Release(layer, when) !in failing;
      if live == [] || live[|live| - 1] != layer || (layer == Integrity && tagsOpen) {
        ok := false;
      }
      if ok {
        live := live[..|live| - 1];
      } else {
        undoFailed := true;
      }
    }

    // BLKFLSBUF, then a read of the start of the disk through the page cache.
    method FlushAndRead(look: Look, failing: set<Call>) returns (read: Option<Header>)
      modifies `cached
      ensures read == if FlushCache(look) !in failing && ReadDisk(look) !in failing then Some(header) else None
    {
      if FlushCache(look) in failing {
        return None;
      }
      cached := None;
      if ReadDisk(look) in failing {
        return None;
      }
      read := ReadThroughCache();
    }

    method ReadThroughCache() returns (read: Option<Header>)
      modifies `cached
      ensures read == if old(cached).Some? then old(cached) else Some(header)
    {
      if cached == None {
        cached := Some(header);
      }
      return cached;
    }

    // ---------- The disk ----------

    /** blockDeviceBlank: what it reads is what the disk holds, whatever the cache held. */
    method BlockDeviceBlank(failing: set<Call>) returns (blank: Option<bool>)
      modifies `cached
      ensures blank.Some? <==> FlushCache(AtBlankCheck) !in failing && ReadDisk(AtBlankCheck) !in failing
      ensures blank.Some? ==> (blank.value <==> header == Blank)
    {
      var read := FlushAndRead(AtBlankCheck, failing);
      if read == None {
        return None;
      }
      return Some(read.value == Blank);
    }

    // IntegrityDataSectors, as far as it tells whether there is a superblock.
    method HasSuperblock(look: Look, failing: set<Call>) returns (formatted: Option<bool>)
      modifies `cached
      ensures formatted.Some? <==> FlushCache(look) !in failing && ReadDisk(look) !in failing
      ensures formatted.Some? ==> (formatted.value <==> header == Superblock)
    {
      var read := FlushAndRead(look, failing);
      if read == None {
        return None;
      }
      return Some(read.value == Superblock);
    }

    /** restoreBlank. Only once the integrity device is gone, unless it could not be
        removed: it would write its superblock back. */
    method RestoreBlank(failing: set<Call>)
      requires undoFailed || Integrity !in live
      modifies `header, `cached, `undoFailed, `zeroings
      ensures zeroings == old(zeroings) + (if OpenDisk !in failing then 1 else 0)
      ensures OpenDisk in failing ==> header == old(header)
      ensures RestoreWorks(failing) ==> header == Blank
      ensures undoFailed == (old(undoFailed) || !RestoreWorks(failing))
    {
      if OpenDisk in failing {
        undoFailed := true;
        return;
      }
      zeroings := zeroings + 1;
      cached := Some(Blank);
      if ZeroDisk !in failing && SyncDisk !in failing {
        header := Blank;
      } else {
        // A part of it may have reached the disk.
        header := *;
        undoFailed := true;
      }
    }

    // ---------- Integrity ----------

    // loadIntegrityTable: building the table writes a superblock on a blank disk,
    // even if the load then fails.
    method LoadIntegrityTable(table: Table, failing: set<Call>) returns (ok: bool)
      requires Chain() && !tagsOpen && !undoFailed
      modifies `live, `header, `undoFailed
      ensures Chain() && (live == old(live) || live == [Integrity])
      ensures ok <==>
                old(live) == [] && old(header) != Foreign
                && CreateIntegrity(table) !in failing && BuildTable(table) !in failing && LoadTable(table) !in failing
      ensures ok ==> live == [Integrity] && !undoFailed
      ensures !ok && !undoFailed ==> live == old(live)
      ensures header == if old(live) == [] && old(header) == Blank
                           && CreateIntegrity(table) !in failing && BuildTable(table) !in failing
                        then Superblock else old(header)
      ensures UndosWork(failing) ==> !undoFailed
    {
      assert live != [] ==> live[0] == Stack(ExportAndSeal)[0];
      ok := Acquire(Integrity, CreateIntegrity(table), failing);
      if !ok {
        return;
      }
      ok := BuildTable(table) !in failing;
      if ok && header == Blank {
        header := Superblock;
      }
      ok := ok && LoadTable(table) !in failing && header == Superblock;
      if !ok {
        var undone := Undo(Integrity, Loading, failing);
      }
    }

    /** ActivateIntegrity. A superblock it wrote stays on the disk if it then fails:
        exactly if it got as far as building the probe table. */
    method ActivateIntegrity(initialize: bool, failing: set<Call>) returns (ok: bool)
      requires Chain() && !tagsOpen && !undoFailed
      modifies `live, `header, `cached, `undoFailed
      ensures Chain() && (live == old(live) || live == [Integrity])
      ensures ok <==>
                old(live) == [] && old(header) == (if initialize then Blank else Superblock)
                && IntegrityWorks(failing, initialize)
      ensures ok ==> live == [Integrity] && header == Superblock && !undoFailed
      ensures !ok && !undoFailed ==> live == old(live)
      ensures header == if initialize && old(live) == [] && old(header) == Blank && ProbeBuilds(failing)
                        then Superblock else old(header)
      ensures UndosWork(failing) ==> !undoFailed
    {
      if DescribeDevice in failing {
        return false;
      }
      var formatted := HasSuperblock(BeforeTable, failing);
      if formatted == None {
        return false;
      }
      if formatted.value && initialize {
        return false;
      }
      if !formatted.value {
        if !initialize {
          return false;
        }
        ok := Probe(failing);
        if !ok {
          return;
        }
      }
      if FitCapacity in failing {
        return false;
      }
      ok := LoadIntegrityTable(FinalTable, failing);
      if !ok {
        return;
      }
      if ResumeIntegrity in failing {
        var undone := Undo(Integrity, Loading, failing);
        return false;
      }
    }

    // The first table, loaded and removed for the sake of the superblock.
    method Probe(failing: set<Call>) returns (ok: bool)
      requires Chain() && !tagsOpen && !undoFailed && header != Superblock
      requires DescribeDevice !in failing && FlushCache(BeforeTable) !in failing && ReadDisk(BeforeTable) !in failing
      modifies `live, `header, `cached, `undoFailed
      ensures Chain() && (live == old(live) || live == [Integrity])
      ensures ok <==> old(live) == [] && old(header) == Blank && ProbeWorks(failing)
      ensures ok ==> !undoFailed
      ensures !undoFailed ==> live == old(live)
      ensures header == if old(live) == [] && old(header) == Blank && ProbeBuilds(failing) then Superblock else old(header)
      ensures UndosWork(failing) ==> !undoFailed
    {
      ok := LoadIntegrityTable(ProbeTable, failing);
      if !ok {
        return;
      }
      ok := Undo(Integrity, Probing, failing);
      if !ok {
        return;
      }
      var formatted := HasSuperblock(AfterProbe, failing);
      ok := formatted == Some(true);
    }

    // ---------- The filesystem ----------

    // The format worker, on the crypt mapping.
    method Mkfs(failing: set<Call>) returns (ok: bool)
      modifies `fsKey, `mkfsRuns, `formats
      ensures mkfsRuns == old(mkfsRuns) + 1
      ensures ok <==> RunMkfs !in failing
      ensures fsKey == if ok then Some(cryptKey) else None
      ensures formats == old(formats) + (if ok then 1 else 0)
    {
      mkfsRuns := mkfsRuns + 1;
      ok := RunMkfs !in failing;
      fsKey := if ok then Some(cryptKey) else None;
      if ok {
        formats := formats + 1;
      }
    }

    // Mounting reads through the tags, which authenticate under one key only.
    method MountData(failing: set<Call>) returns (ok: bool)
      requires Data !in live
      modifies `live
      ensures ok <==> fsKey == Some(cryptKey) && MountVolume !in failing
      ensures live == if ok then old(live) + [Data] else old(live)
    {
      if fsKey != Some(cryptKey) {
        return false;
      }
      ok := Acquire(Data, MountVolume, failing);
    }

    // overlay: whether it mounted the layer, and whether it succeeded.
    method MountOverlay(index: nat, failing: set<Call>) returns (mounted: bool, ok: bool)
      requires Overlay(index) !in live
      modifies `live
      ensures live == if mounted then old(live) + [Overlay(index)] else old(live)
      ensures ok <==> OverlayWorks(failing, index)
      ensures ok ==> mounted
    {
      // The lower layer is a real path; the three directories are directories.
      if OverlayPaths(index) in failing {
        return false, false;
      }
      mounted := Acquire(Overlay(index), OverlayMount(index), failing);
      if !mounted {
        return false, false;
      }
      return true, OverlayOwner(index) !in failing;
    }

    /** mountOverlays reports every layer it merged, on failure as well. */
    method MountOverlays(failing: set<Call>) returns (merged: seq<Layer>, ok: bool)
      requires live == BASE
      modifies `live
      ensures merged <= OverlayLayers(overlays) && live == BASE + merged
      ensures ok <==> OverlaysWork(failing, overlays)
      ensures ok ==> merged == OverlayLayers(overlays)
    {
      merged := [];
      for i := 0 to overlays
        invariant merged == OverlayLayers(overlays)[..i]
        invariant live == BASE + merged
        invariant OverlaysWork(failing, i)
      {
        var mounted;
        mounted, ok := MountOverlay(i, failing);
        if mounted {
          merged := merged + [Overlay(i)];
        }
        if !ok {
          return;
        }
      }
      ok := true;
    }

    // The undo of a run of layers, newest first.
    method Unstack(layers: seq<Layer>, failing: set<Call>)
      requires undoFailed || (|live| >= |layers| && live[|live| - |layers|..] == layers)
      requires Integrity !in layers
      modifies `live, `undoFailed
      ensures old(undoFailed) ==> undoFailed
      ensures !undoFailed ==> |old(live)| >= |layers| && live == old(live)[..|old(live)| - |layers|]
      ensures live <= old(live) && |live| + |layers| >= |old(live)|
      ensures !old(undoFailed) && UndosWork(failing) ==> !undoFailed
    {
      var i := |layers|;
      while i > 0
        invariant 0 <= i <= |layers|
        invariant old(undoFailed) ==> undoFailed
        invariant !undoFailed ==> |old(live)| >= |layers| && live == old(live)[..|old(live)| - |layers| + i]
        invariant live <= old(live) && |live| + |layers| - i >= |old(live)|
        invariant !old(undoFailed) && UndosWork(failing) ==> !undoFailed
      {
        i := i - 1;
        assert !undoFailed ==> old(live)[|old(live)| - |layers|..][i] == layers[i];
        var undone := Undo(layers[i], Unwinding, failing);
      }
    }

    // ---------- The seal ----------

    /** extendSeal: the write is the extend, whatever the close says. */
    method ExtendSeal(identity: Key, failing: set<Call>) returns (ok: bool)
      requires DeriveIdentity !in failing
      modifies `register
      ensures ok <==> SealWorks(failing, registerPresent)
      ensures register == if SealWrites(failing, registerPresent) then old(register) + [identity] else old(register)
    {
      if !registerPresent {
        return true;
      }
      if OpenRegister in failing {
        return false;
      }
      if WriteRegister in failing {
        return false;
      }
      register := register + [identity];
      ok := CloseRegister !in failing;
    }

    // keySeal, then the extend.
    method SealWith(key: Key, failing: set<Call>) returns (ok: bool)
      modifies `register
      ensures ok <==> SealWorks(failing, registerPresent)
      ensures register == if SealWrites(failing, registerPresent) then old(register) + [key] else old(register)
    {
      if DeriveIdentity in failing {
        return false;
      }
      ok := ExtendSeal(key, failing);
    }

    /** exportAndSeal: a transaction of its own inside the outer one. */
    method ExportAndSealWith(key: Key, failing: set<Call>) returns (ok: bool)
      requires !undoFailed && Export(0) !in live && Export(1) !in live && LayOut !in failing
      modifies `live, `undoFailed, `register
      ensures ok <==> FinishWorks(failing, registerPresent, ExportAndSeal)
      ensures register == if FinishWrites(failing, registerPresent, ExportAndSeal) then old(register) + [key] else old(register)
      ensures ok ==> live == old(live) + EXPORTS && !undoFailed
      ensures !ok && !undoFailed ==> live == old(live)
      ensures old(live) <= live <= old(live) + EXPORTS
      ensures UndosWork(failing) ==> !undoFailed
    {
      var mounted := [];
      for i := 0 to 2
        invariant mounted == EXPORTS[..i] && live == old(live) + mounted
        invariant !undoFailed && register == old(register)
        invariant forall k: nat :: k < i ==> ExportMount(k) !in failing
      {
        ok := Acquire(Export(i), ExportMount(i), failing);
        if !ok {
          Unstack(mounted, failing);
          return;
        }
        mounted := mounted + [Export(i)];
      }
      ok := SealWith(key, failing);
      if !ok {
        Unstack(mounted, failing);
      }
    }

    method Run(finish: Finish, key: Key, failing: set<Call>) returns (ok: bool)
      requires !undoFailed && Export(0) !in live && Export(1) !in live
      modifies `live, `undoFailed, `register
      ensures ok <==> FinishWorks(failing, registerPresent, finish)
      ensures register == if FinishWrites(failing, registerPresent, finish) then old(register) + [key] else old(register)
      ensures ok ==> live == old(live) + (if finish == ExportAndSeal then EXPORTS else []) && !undoFailed
      ensures !ok && !undoFailed ==> live == old(live)
      ensures old(live) <= live <= old(live) + (if finish == ExportAndSeal then EXPORTS else [])
      ensures UndosWork(failing) ==> !undoFailed
    {
      match finish
      case Plain => ok := true;
      case Seal => ok := SealWith(key, failing);
      case ExportAndSeal =>
        // workspaceLayout.
        if LayOut in failing {
          return false;
        }
        ok := ExportAndSealWith(key, failing);
    }

    // ---------- The transaction, from the inside out ----------

    /** From the mounted volume on. Undoes the overlays. */
    method WithOverlays(key: Key, finish: Finish, failing: set<Call>) returns (ok: bool)
      requires live == BASE && !undoFailed
      modifies `live, `undoFailed, `register
      ensures ok <==> OverlaysWork(failing, overlays) && FinishWorks(failing, registerPresent, finish)
      ensures register == if OverlaysWork(failing, overlays) && FinishWrites(failing, registerPresent, finish)
                          then old(register) + [key] else old(register)
      ensures ok ==> live == Stack(finish) && !undoFailed
      ensures !ok && !undoFailed ==> live == BASE
      ensures BASE <= live && Chain()
      ensures UndosWork(failing) ==> !undoFailed
    {
      var merged;
      merged, ok := MountOverlays(failing);
      ghost var overlaid := live;
      assert overlaid <= BASE + OverlayLayers(overlays);
      if ok {
        ok := Run(finish, key, failing);
      }
      if !ok {
        Unstack(merged, failing);
      }
    }

    // What it takes to have the volume and its overlays mounted over a crypt mapping.
    predicate Mounts(key: Key, initialize: bool, failing: set<Call>)
      reads `fsKey
    {
      && (if initialize then FormatWorks(failing) else fsKey == Some(key))
      && MountVolume !in failing && StatMount !in failing && OverlaysWork(failing, overlays)
    }

    /** From the crypt mapping on: the format of a fresh volume, the mount.
        `rollback` is cleared once the format has finished. */
    method WithCrypt(key: Key, initialize: bool, finish: Finish, failing: set<Call>)
      returns (ok: bool, mounted: bool, rollback: bool)
      requires live == [Integrity, Crypt] && cryptKey == key && !undoFailed
      modifies `live, `undoFailed, `register, `fsKey, `mkfsRuns, `formats
      ensures ok <==> old(Mounts(key, initialize, failing)) && FinishWorks(failing, registerPresent, finish)
      ensures register == if old(Mounts(key, initialize, failing)) && FinishWrites(failing, registerPresent, finish)
                          then old(register) + [key] else old(register)
      ensures ok ==> live == Stack(finish) && !undoFailed
      ensures !ok && !undoFailed ==> live == if mounted then BASE else [Integrity, Crypt]
      ensures [Integrity, Crypt] <= live && Chain() && (Data in live ==> fsKey == Some(key))
      ensures Formatted(key, initialize, initialize && FormatWorks(failing))
      ensures rollback <==> initialize && !FormatWorks(failing)
      ensures UndosWork(failing) ==> !undoFailed
    {
      rollback := initialize;
      if initialize {
        if PrepareFormat in failing {
          return false, false, rollback;
        }
        ok := Mkfs(failing);
        if !ok {
          return false, false, rollback;
        }
        rollback := false;
      }
      mounted := MountData(failing);
      if !mounted {
        return false, false, rollback;
      }
      // The mount is of the device just mapped.
      if StatMount in failing {
        return false, mounted, rollback;
      }
      ok := WithOverlays(key, finish, failing);
    }

    /** What an attempt did to the filesystem: nothing unless it initializes, and
        `finished` tells whether a format was completed. */
    twostate predicate Formatted(key: Key, initialize: bool, finished: bool)
      reads this
    {
      && (!initialize ==> mkfsRuns == old(mkfsRuns) && fsKey == old(fsKey))
      && formats == old(formats) + (if finished then 1 else 0)
      && (finished ==> fsKey == Some(key))
      && (!finished ==> fsKey == old(fsKey) || fsKey == None)
    }

    // Maps the crypt device, and undoes the mount and the mapping.
    method WithMapping(key: Key, initialize: bool, finish: Finish, failing: set<Call>) returns (ok: bool, rollback: bool)
      requires live == [Integrity] && !undoFailed
      modifies `live, `cryptKey, `undoFailed, `register, `fsKey, `mkfsRuns, `formats
      ensures ok <==>
                CreateCrypt !in failing && ReadyCrypt !in failing
                && old(Mounts(key, initialize, failing)) && FinishWorks(failing, registerPresent, finish)
      ensures register == if CreateCrypt !in failing && ReadyCrypt !in failing
                             && old(Mounts(key, initialize, failing)) && FinishWrites(failing, registerPresent, finish)
                          then old(register) + [key] else old(register)
      ensures ok ==> live == Stack(finish) && !undoFailed
      ensures !ok && !undoFailed ==> live == [Integrity]
      ensures [Integrity] <= live && Chain() && (Data in live ==> fsKey == Some(key))
      ensures Formatted(key, initialize, initialize && CreateCrypt !in failing && ReadyCrypt !in failing && FormatWorks(failing))
      ensures rollback <==> initialize && !(CreateCrypt !in failing && ReadyCrypt !in failing && FormatWorks(failing))
      ensures UndosWork(failing) ==> !undoFailed
    {
      rollback := initialize;
      ok := Acquire(Crypt, CreateCrypt, failing);
      if !ok {
        return;
      }
      cryptKey := key;
      if ReadyCrypt in failing {
        var undone := Undo(Crypt, Loading, failing);
        return false, rollback;
      }
      var mounted;
      ok, mounted, rollback := WithCrypt(key, initialize, finish, failing);
      if !ok {
        UndoCrypt(mounted, failing);
      }
    }

    // The deferred unmount, if there was a mount, and removal of the mapping.
    method UndoCrypt(mounted: bool, failing: set<Call>)
      requires undoFailed || live == if mounted then BASE else [Integrity, Crypt]
      requires [Integrity, Crypt] <= live && Chain()
      modifies `live, `undoFailed
      ensures old(undoFailed) ==> undoFailed
      ensures !undoFailed ==> live == [Integrity]
      ensures [Integrity] <= live <= old(live) && Chain()
      ensures !old(undoFailed) && UndosWork(failing) ==> !undoFailed
    {
      if mounted {
        var undone := Undo(Data, Unwinding, failing);
      }
      assert [Integrity, Crypt] <= live || |live| == 1;
      var undone := Undo(Crypt, Unwinding, failing);
    }

    /** From the tags descriptor on, which is closed whether or not the rest succeeds. */
    method WithTags(key: Key, initialize: bool, finish: Finish, failing: set<Call>) returns (ok: bool, rollback: bool)
      requires live == [Integrity] && !tagsOpen && !undoFailed
      modifies `live, `tagsOpen, `cryptKey, `undoFailed, `register, `fsKey, `mkfsRuns, `formats
      ensures !tagsOpen
      ensures ok <==> MappingWorks(failing) && old(Mounts(key, initialize, failing)) && FinishWorks(failing, registerPresent, finish)
      ensures register == if MappingWorks(failing) && old(Mounts(key, initialize, failing)) && FinishWrites(failing, registerPresent, finish)
                          then old(register) + [key] else old(register)
      ensures ok ==> live == Stack(finish) && !undoFailed
      ensures !ok && !undoFailed ==> live == [Integrity]
      ensures [Integrity] <= live && Chain() && (Data in live ==> fsKey == Some(key))
      ensures Formatted(key, initialize, initialize && MappingWorks(failing) && FormatWorks(failing))
      ensures rollback <==> initialize && !(MappingWorks(failing) && FormatWorks(failing))
      ensures UndosWork(failing) ==> !undoFailed
    {
      rollback := initialize;
      if OpenTags in failing {
        return false, rollback;
      }
      tagsOpen := true;
      ok, rollback := WithMapping(key, initialize, finish, failing);
      tagsOpen := false;
    }

    // Whether an attempt gets the integrity device once nothing is left of an
    // earlier one, and with it a finished format, or the volume with its overlays.
    predicate MakesOnceClear(initialize: bool, failing: set<Call>)
      reads `header
    {
      && DeriveTableKey !in failing
      && header == (if initialize then Blank else Superblock) && IntegrityWorks(failing, initialize)
    }

    predicate MountsOnceClear(key: Key, initialize: bool, failing: set<Call>)
      reads `header, `fsKey
    {
      MakesOnceClear(initialize, failing) && MappingWorks(failing) && Mounts(key, initialize, failing)
    }

    predicate Makes(initialize: bool, failing: set<Call>)
      reads this
    {
      live == [] && MakesOnceClear(initialize, failing)
    }

    predicate Formats(initialize: bool, failing: set<Call>)
      reads this
    {
      Makes(initialize, failing) && initialize && MappingWorks(failing) && FormatWorks(failing)
    }

    predicate MountsAll(key: Key, initialize: bool, failing: set<Call>)
      reads this
    {
      live == [] && MountsOnceClear(key, initialize, failing)
    }

    /** activateWith, in full: when it succeeds, what it leaves when it does not, when
        the register is extended, the disk formatted and the header zeroed, and when
        a superblock is left behind. */
    method ActivateWith(key: Key, initialize: bool, finish: Finish, failing: set<Call>) returns (ok: bool)
      requires Valid()
      modifies this
      ensures Valid() && unlocked == old(unlocked)
      // All or nothing.
      ensures ok <==> old(MountsAll(key, initialize, failing)) && FinishWorks(failing, registerPresent, finish)
      ensures ok ==> live == Stack(finish) && fsKey == Some(key)
      ensures !ok && !undoFailed ==> live == old(live)
      ensures UndosWork(failing) ==> !undoFailed
      // The seal.
      ensures register == if old(MountsAll(key, initialize, failing)) && FinishWrites(failing, registerPresent, finish)
                          then old(register) + [key] else old(register)
      ensures register != old(register) ==> fsKey == Some(key)
      // The disk.
      ensures Formatted(key, initialize, old(Formats(initialize, failing)))
      ensures !old(Makes(initialize, failing)) ==> mkfsRuns == old(mkfsRuns) && fsKey == old(fsKey) && zeroings == old(zeroings)
      ensures !old(Makes(initialize, failing)) ==>
                header == if initialize && DeriveTableKey !in failing && old(live) == [] && old(header) == Blank && ProbeBuilds(failing)
                          then Superblock else old(header)
      ensures zeroings == old(zeroings) + (if ZeroesHeader(old(Makes(initialize, failing)), old(Formats(initialize, failing)), initialize, failing) then 1 else 0)
      ensures old(Makes(initialize, failing)) && zeroings == old(zeroings) ==> header == Superblock
      ensures old(Makes(initialize, failing)) && initialize && !old(Formats(initialize, failing)) && RestoreWorks(failing) ==> header == Blank
    {
      undoFailed := false;
      if DeriveTableKey in failing {
        return false;
      }
      ok := ActivateIntegrity(initialize, failing);
      if !ok {
        return;
      }
      var rollback;
      ok, rollback := WithTags(key, initialize, finish, failing);
      if !ok {
        var undone := Undo(Integrity, Unwinding, failing);
        if rollback {
          RestoreBlank(failing);
        }
      }
    }

    static predicate ZeroesHeader(made: bool, formatted: bool, initialize: bool, failing: set<Call>) {
      made && initialize && !formatted && OpenDisk !in failing
    }

    // ---------- The callers ----------

    ghost function Disk(): DiskState
      reads this
    {
      DiskState(header, fsKey, mkfsRuns, formats, zeroings)
    }

    /** What any attempt does to the disk. A disk that is not blank keeps its header
        and its filesystem and is neither formatted nor zeroed. A blank one is
        formatted at most once, and zeroed at most once and only without a finished
        format, after which it reads blank again if the zeroing worked. */
    twostate predicate DiskStep(failing: set<Call>)
      reads this
    {
      && (old(header) != Blank ==> Disk() == old(Disk()))
      && old(zeroings) <= zeroings <= old(zeroings) + 1
      && (zeroings > old(zeroings) ==> formats == old(formats) && (RestoreWorks(failing) ==> header == Blank))
      && AtMostOneFormat(old(Disk()), Disk())
      && (formats == old(formats) ==> fsKey == old(fsKey) || fsKey == None)
    }

    // removeUnopened.
    method RemoveUnopened(layer: Layer, failing: set<Call>) returns (ok: bool)
      requires Valid() && !undoFailed && layer != Data
      requires layer in live ==> live[|live| - 1] == layer
      modifies `live, `undoFailed
      ensures Valid()
      ensures ok <==> LookupMapping(layer) !in failing && (layer in old(live) ==> Release(layer, Preparing) !in failing)
      ensures ok ==> !undoFailed && live == if layer in old(live) then old(live)[..|old(live)| - 1] else old(live)
      ensures !ok ==> live == old(live)
      ensures UndosWork(failing) ==> !undoFailed
    {
      if LookupMapping(layer) in failing {
        return false;
      }
      if layer !in live {
        return true;
      }
      ok := Undo(layer, Preparing, failing);
    }

    // Whether the volume is not mounted and nothing else is left of it either.
    predicate Clears(failing: set<Call>)
      reads this
    {
      && PrepareDirectories !in failing && InspectMounts !in failing && Data !in live
      && LookupMapping(Crypt) !in failing && (Crypt in live ==> Release(Crypt, Preparing) !in failing)
      && LookupMapping(Integrity) !in failing && (Integrity in live ==> Release(Integrity, Preparing) !in failing)
    }

    /** prepare and inspect: whether the volume is mounted already; if it is not,
        whatever an earlier attempt left is gone. */
    method Prepare(failing: set<Call>) returns (ok: bool, mounted: bool)
      requires Valid()
      modifies `live, `undoFailed
      ensures Valid()
      ensures ok && !mounted <==> old(Clears(failing))
      ensures ok && mounted <==> Data in old(live) && PrepareDirectories !in failing && LookupMapping(Crypt) !in failing
      ensures ok && !mounted ==> live == []
      ensures mounted ==> live == old(live)
      ensures live <= old(live)
      ensures UndosWork(failing) ==> !undoFailed
    {
      undoFailed, mounted := false, false;
      ChainCases();
      if PrepareDirectories in failing {
        return false, false;
      }
      if Crypt in live && Data in live {
        // The mapping is active, writable and has one target.
        ok := LookupMapping(Crypt) !in failing;
        return ok, ok;
      }
      ok := RemoveUnopened(Crypt, failing);
      if !ok {
        return;
      }
      ok := RemoveUnopened(Integrity, failing);
      if !ok {
        return;
      }
      // Nothing else is mounted there.
      ok := InspectMounts !in failing;
    }

    lemma ChainCases()
      requires Chain()
      ensures live == [] || live == [Integrity] || live == [Integrity, Crypt] || BASE <= live
      ensures Data in live <==> BASE <= live
      ensures Crypt in live <==> |live| >= 2
      ensures Integrity in live <==> |live| >= 1
      ensures Export(0) in live || Export(1) in live ==> Data in live
    {
      var whole := Stack(ExportAndSeal);
      assert whole[0] == Integrity && whole[1] == Crypt && whole[2] == Data;
      assert forall i :: 0 <= i < |live| ==> live[i] == whole[i];
      assert forall i :: 3 <= i < |whole| ==> whole[i].Overlay? || whole[i].Export?;
    }

    // Whether the check for a blank disk gets an answer.
    static predicate Answers(failing: set<Call>) {
      FlushCache(AtBlankCheck) !in failing && ReadDisk(AtBlankCheck) !in failing
    }

    /** Mount, at boot: a blank disk is initialized, any other must open with this key. */
    method Mount(key: Key, failing: set<Call>) returns (ok: bool)
      requires Valid()
      modifies this
      ensures Valid() && DiskStep(failing) && register == old(register) && unlocked == old(unlocked)
      ensures ok && Data !in old(live) <==>
                |key| == KEY_BYTES && old(Clears(failing)) && Answers(failing)
                && old(MountsOnceClear(key, header == Blank, failing))
      ensures ok && Data !in old(live) ==> live == Stack(Plain) && fsKey == Some(key)
      ensures ok && Data in old(live) <==>
                |key| == 64 && Data in old(live) && PrepareDirectories !in failing && LookupMapping(Crypt) !in failing
      ensures ok && Data in old(live) ==> live == old(live) && fsKey == old(fsKey)
      ensures |key| == KEY_BYTES && old(Clears(failing)) && Answers(failing) && old(header) == Blank
              && DeriveTableKey !in failing && ProbeBuilds(failing) && !IntegrityWorks(failing, true) ==>
                !ok && header == Superblock && fsKey == old(fsKey) && mkfsRuns == old(mkfsRuns)
      ensures !ok && UndosWork(failing) && old(live) == [] ==> live == []
    {
      if |key| != KEY_BYTES {
        return false;
      }
      var mounted;
      ok, mounted := Prepare(failing);
      if !ok || mounted {
        return;
      }
      var blank := BlockDeviceBlank(failing);
      if blank == None {
        return false;
      }
      ok := ActivateWith(key, blank.value, Plain, failing);
    }

    /** OpenWorkspace, at enrollment. The register is extended by an attempt that
        fails exactly if everything worked but the close of the register's file. */
    method OpenWorkspace(key: Key, failing: set<Call>) returns (ok: bool)
      requires Valid()
      modifies this
      ensures Valid() && DiskStep(failing) && unlocked == old(unlocked)
      ensures ok <==> old(Opens(key, failing)) && FinishWorks(failing, registerPresent, ExportAndSeal)
      ensures ok ==> live == Stack(ExportAndSeal) && fsKey == Some(key)
      ensures !ok && UndosWork(failing) && old(live) == [] ==> live == []
      ensures register == if old(Opens(key, failing)) && FinishWrites(failing, registerPresent, ExportAndSeal)
                          then old(register) + [key] else old(register)
      ensures register != old(register) ==> fsKey == Some(key)
    {
      ChainCases();
      // The workspace is valid and its two exports are free directories.
      if |key| != KEY_BYTES || CheckExports in failing || Export(0) in live || Export(1) in live {
        return false;
      }
      var mounted;
      ok, mounted := Prepare(failing);
      if !ok || mounted {
        return false;
      }
      var blank := BlockDeviceBlank(failing);
      if blank == None {
        return false;
      }
      ok := ActivateWith(key, blank.value, ExportAndSeal, failing);
    }

    predicate Opens(key: Key, failing: set<Call>)
      reads this
    {
      && |key| == KEY_BYTES && CheckExports !in failing && Clears(failing) && Answers(failing)
      && MountsOnceClear(key, header == Blank, failing)
    }

    // Whether a request is one that gets as far as sealing the open volume.
    predicate Unlocks(packet: Packet, failing: set<Call>)
      reads this
    {
      && packet.size <= MAX_REQUEST_BYTES && packet.request.Some?
      && var request := packet.request.value;
         && (request.op == Unlock || (request.op == Initialize && Answers(failing)))
         && |request.key| == KEY_BYTES
         && MountsAll(request.key, request.op == Initialize, failing)
    }

    // A request that is turned down as it stands.
    static predicate Refuses(packet: Packet) {
      packet.size > 512 || packet.request == None ||
      var request := packet.request.value;
      request.op == Unknown || (request.op != Status && |request.key| != 64)
    }

    // A request to format the disk, which must be blank.
    static predicate AsksToFormat(packet: Packet) {
      !Refuses(packet) && packet.request.value.op == Initialize
    }

    /** handle: one request to the worker. Only an explicit request initializes, and
        only a blank disk. */
    method Handle(packet: Packet, failing: set<Call>) returns (reply: Reply)
      requires Valid()
      modifies this
      ensures Valid() && DiskStep(failing)
      ensures unlocked == (old(unlocked) || reply == Ok)
      ensures reply == Ok <==> old(Unlocks(packet, failing)) && FinishWorks(failing, registerPresent, Seal)
      ensures reply == Ok ==> live == Stack(Seal) && fsKey == Some(packet.request.value.key)
      ensures register == if old(Unlocks(packet, failing)) && FinishWrites(failing, registerPresent, Seal)
                          then old(register) + [packet.request.value.key] else old(register)
      ensures register != old(register) ==> fsKey == Some(packet.request.value.key)
      ensures reply == Locked <==> packet.size <= 512 && packet.request.Some? && packet.request.value.op == Status
      ensures reply == Rejected <==> Refuses(packet) || (AsksToFormat(packet) && Answers(failing) && old(header) != Blank)
      ensures reply == Rejected || reply == Locked ==> live == old(live) && Disk() == old(Disk())
      ensures reply == Failed && !undoFailed ==> live == old(live)
      ensures mkfsRuns > old(mkfsRuns) ==> packet.request.Some? && packet.request.value.op == Initialize
    {
      undoFailed := false;
      if packet.size > MAX_REQUEST_BYTES || packet.request == None {
        return Rejected;
      }
      var request := packet.request.value;
      if request.op == Status {
        return Locked;
      }
      if request.op != Unlock && request.op != Initialize {
        return Rejected;
      }
      if |request.key| != KEY_BYTES {
        return Rejected;
      }
      if request.op == Initialize {
        var blank := BlockDeviceBlank(failing);
        if blank == None {
          return Failed;
        }
        if !blank.value {
          return Rejected;
        }
      }
      var ok := ActivateWith(request.key, request.op == Initialize, Seal, failing);
      if !ok {
        return Failed;
      }
      unlocked := true;
      return Ok;
    }

    // ---------- Runs ----------

    // A restart of the machine between attempts. The disk is all that is left.
    method Restart()
      requires Valid()
      modifies this
      ensures Valid() && Disk() == old(Disk()) && live == [] && register == [] && !unlocked
    {
      live, cryptKey, register, unlocked := [], [], [], false;
      cached := *;
    }

    // The boot is marked with no key but that of the filesystem.
    ghost predicate Marked()
      reads this
    {
      forall key :: key in register ==> fsKey == Some(key)
    }

    method Attempt(event: Event) returns (success: bool)
      requires Valid() && Marked()
      modifies this
      ensures Valid() && Marked()
      ensures old(header) != Blank ==> Disk() == old(Disk())
      ensures AtMostOneFormat(old(Disk()), Disk())
      ensures success ==> fsKey.Some?
    {
      success := false;
      match event
      case BootMount(key, failing) => success := Mount(key, failing);
      case Enroll(key, failing) => success := OpenWorkspace(key, failing);
      case Serve(packet, failing) =>
        var reply := Handle(packet, failing);
        success := reply == Ok;
      case Reboot => Restart();
    }

    /** Every run: whatever is attempted and whatever fails, once a format has
        finished the disk is never formatted or zeroed again, a boot is only ever
        marked with the key the disk was formatted under, and a disk that is
        neither blank nor formatted is never opened. */
    method EveryRun(events: seq<Event>) returns (ghost history: seq<DiskState>, successes: seq<bool>)
      requires Valid() && Marked()
      modifies this
      ensures Valid() && Marked()
      ensures |history| == |events| + 1 && history[0] == old(Disk()) && history[|events|] == Disk()
      ensures Settles(history)
      ensures |successes| == |events| && forall i :: 0 <= i < |events| && successes[i] ==> history[i + 1].fsKey.Some?
      ensures old(header) != Blank && old(fsKey) == None ==> forall i :: 0 <= i < |events| ==> !successes[i]
    {
      history, successes := [Disk()], [];
      for i := 0 to |events|
        invariant Valid() && Marked()
        invariant |history| == i + 1 && history[0] == old(Disk()) && history[i] == Disk() && |successes| == i
        invariant forall k :: 0 <= k <= i ==> (history[k].fsKey.Some? ==> history[k].header == Superblock)
        invariant Settles(history)
        invariant forall k :: 0 <= k < i && successes[k] ==> history[k + 1].fsKey.Some?
      {
        var worked := Attempt(events[i]);
        history := Longer(history, Disk());
        successes := successes + [worked];
      }
      forall i | 0 <= i < |events| && old(header) != Blank && old(fsKey) == None
        ensures !successes[i]
      {
        assert history[i + 1] == history[0];
      }
    }

    static lemma Longer(history: seq<DiskState>, next: DiskState) returns (longer: seq<DiskState>)
      requires history != [] && Settles(history)
      requires forall k :: 0 <= k < |history| && history[k].fsKey.Some? ==> history[k].header == Superblock
      requires var last := history[|history| - 1];
        && (last.header != Blank ==> next == last)
        && AtMostOneFormat(last, next)
      ensures longer == history + [next] && Settles(longer)
    {
      longer := history + [next];
      var n := |history|;
      forall i | 0 <= i <= n && longer[i].header != Blank
        ensures longer[n] == longer[i]
      {
        if i < n {
          assert history[n - 1] == history[i];
        }
      }
      assert longer[n - 1] == history[n - 1] && longer[n] == next;
      forall i, j | 0 <= i <= j <= n
        ensures AtMostOneFormat(longer[i], longer[j])
      {
        if i < j == n {
          assert AtMostOneFormat(history[i], history[n - 1]);
        }
      }
    }
  }

  // ---------- What can go wrong, and what cannot ----------

  /** The finish extends the register and yet fails exactly if all of it works but
      the close of the register's file. */
  lemma SealedButFailedExactly(failing: set<Call>, registerPresent: bool, finish: Finish)
    ensures FinishWrites(failing, registerPresent, finish) && !FinishWorks(failing, registerPresent, finish) <==>
              FinishWrites(failing, registerPresent, finish) && CloseRegister in failing
    ensures FinishWorks(failing - {CloseRegister}, registerPresent, finish) && finish != Plain && registerPresent <==>
              FinishWrites(failing, registerPresent, finish)
  {
  }

  /** On a fresh disk, when nothing fails: formatted, mounted, exported and sealed. */
  method NothingFails(key: Key, overlays: nat) returns (volume: Volume)
    requires |key| == KEY_BYTES
    ensures fresh(volume) && volume.live == volume.Stack(ExportAndSeal) && volume.overlays == overlays
    ensures volume.fsKey == Some(key) && volume.register == [key] && volume.formats == 1 && volume.zeroings == 0
  {
    volume := new Volume(overlays, true, Blank);
    var ok := volume.OpenWorkspace(key, {});
    assert ok;
  }

  /** An enrollment that fails and leaves the boot marked with its key. */
  method SealedButFailed(key: Key) returns (volume: Volume)
    requires |key| == KEY_BYTES
    ensures fresh(volume) && volume.Valid() && volume.register == [key] && volume.fsKey == Some(key)
    ensures volume.live == []
  {
    volume := new Volume(1, true, Blank);
    var ok := volume.OpenWorkspace(key, {CloseRegister});
    assert !ok;
  }

  /** A boot that leaves a superblock and no filesystem on a blank disk: the probe
      table is built and its load fails. No later attempt opens that disk. */
  method StrandedDisk(key: Key, events: seq<Event>) returns (volume: Volume, successes: seq<bool>)
    requires |key| == KEY_BYTES
    ensures fresh(volume) && volume.header == Superblock && volume.fsKey == None && volume.mkfsRuns == 0
    ensures |successes| == |events| && forall i :: 0 <= i < |events| ==> !successes[i]
  {
    volume := new Volume(0, true, Blank);
    var ok := volume.Mount(key, {LoadTable(ProbeTable)});
    assert !ok;
    ghost var history;
    history, successes := volume.EveryRun(events);
  }
}
