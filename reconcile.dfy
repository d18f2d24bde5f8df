/**
 * Mount-table enrichment (`collect_all`): every mount record either updates
 * the first device-service block with the same device node or becomes a
 * block of the synthetic fstab drive; that drive is then added, the drives
 * are sorted by object path and each drive's blocks by device node.
 */
module Reconcile {
  import opened Wrappers
  import opened Ordering
  import opened Model
  import opened Service

  /** `b` with the mount state of record `m`. */
  function Attach(b: Block, m: MountRecord): Block
  {
    b.(mount := m.path, mounted := m.mounted)
  }

  /** Applies mount record `m` to the first block of `drives` with its device node, if any. */
  function AttachMount(drives: seq<Drive>, m: MountRecord): seq<Drive>
  {
    match FindBlockByDev(drives, m.dev)
    case None => drives
    case Some(l) =>
      var d := drives[l.drive];
      drives[l.drive := d.(blocks := d.blocks[l.block := Attach(d.blocks[l.block], m)])]
  }

  /** The drives after applying every mount record of `ms` in turn. */
  function AttachMounts(drives: seq<Drive>, ms: seq<MountRecord>): seq<Drive>
  {
    if ms == [] then drives
    else AttachMount(AttachMounts(drives, ms[..|ms| - 1]), ms[|ms| - 1])
  }

  /** The block a mount record with no device-service block becomes. */
  function Orphan(m: MountRecord): Block
  {
    Block("", FstabPath, m.dev, "", m.path, m.fs, m.mounted, "")
  }

  /** No block of `service` has device node `dev`. */
  predicate Unmatched(service: seq<Drive>, dev: string)
  {
    FindBlockByDev(service, dev).None?
  }

  /** The blocks of the fstab drive: one per mount record matching no block of `service`. */
  function OrphanBlocks(service: seq<Drive>, ms: seq<MountRecord>): seq<Block>
  {
    if ms == [] then []
    else
      var m := ms[|ms| - 1];
      OrphanBlocks(service, ms[..|ms| - 1]) + (if Unmatched(service, m.dev) then [Orphan(m)] else [])
  }

  function FstabDrive(blocks: seq<Block>): Drive
  {
    Drive(FstabPath, FstabPath, FstabPath, false, blocks)
  }

  /** `d` with its blocks sorted by device node. */
  function SortBlocks(d: Drive): Drive
  {
    d.(blocks := SortByKey(d.blocks, BlockKey))
  }

  function SortEachDrive(drives: seq<Drive>): (r: seq<Drive>)
    ensures |r| == |drives|
  {
    seq(|drives|, i requires 0 <= i < |drives| => SortBlocks(drives[i]))
  }

  /** The drives before sorting: the enriched device-service drives, then the fstab drive. */
  function Merged(service: seq<Drive>, ms: seq<MountRecord>): seq<Drive>
  {
    AttachMounts(service, ms) + [FstabDrive(OrphanBlocks(service, ms))]
  }

  /** What `collect_all` returns for device-service drives `service` and mount table `ms`. */
  function Reconciled(service: seq<Drive>, ms: seq<MountRecord>): seq<Drive>
  {
    SortEachDrive(SortByKey(Merged(service, ms), DriveKey))
  }

  // ----- Layout: what enrichment leaves alone -----

  /** `b` without its mount state. */
  function Detached(b: Block): Block
  {
    b.(mount := None, mounted := false)
  }

  /** `d` without its blocks. */
  function Bare(d: Drive): Drive
  {
    d.(blocks := [])
  }

  /** `a` and `b` hold the same blocks, up to mount state. */
  predicate SameBlocks(a: seq<Block>, b: seq<Block>)
  {
    |a| == |b| && forall j :: 0 <= j < |a| ==> Detached(a[j]) == Detached(b[j])
  }

  /** `a` and `b` hold the same drives with the same blocks, up to mount state. */
  predicate SameLayout(a: seq<Drive>, b: seq<Drive>)
  {
    |a| == |b| && forall i :: 0 <= i < |a| ==> Bare(a[i]) == Bare(b[i]) && SameBlocks(a[i].blocks, b[i].blocks)
  }

  lemma FindBlockSameBlocks(a: seq<Block>, b: seq<Block>, dev: string)
    requires SameBlocks(a, b)
    ensures FindBlock(a, dev) == FindBlock(b, dev)
  {
    assert forall j :: 0 <= j < |a| ==> a[j].dev == Detached(a[j]).dev == Detached(b[j]).dev == b[j].dev;
  }

  /** Lookups by device node see the same block in drives of the same layout. */
  lemma FindBlockByDevSameLayout(a: seq<Drive>, b: seq<Drive>, dev: string)
    requires SameLayout(a, b)
    ensures FindBlockByDev(a, dev) == FindBlockByDev(b, dev)
  {
    forall i | 0 <= i < |a| ensures FindBlock(a[i].blocks, dev) == FindBlock(b[i].blocks, dev) {
      FindBlockSameBlocks(a[i].blocks, b[i].blocks, dev);
    }
    assert FindDriveHolding(a, dev) == FindDriveHolding(b, dev);
  }

  lemma AttachMountLayout(drives: seq<Drive>, m: MountRecord)
    ensures SameLayout(drives, AttachMount(drives, m))
  {
  }

  /** Enrichment adds no drive and no block and changes nothing but mount state. */
  lemma {:induction false} AttachMountsLayout(drives: seq<Drive>, ms: seq<MountRecord>)
    ensures SameLayout(drives, AttachMounts(drives, ms))
  {
    if ms != [] {
      AttachMountsLayout(drives, ms[..|ms| - 1]);
      AttachMountLayout(AttachMounts(drives, ms[..|ms| - 1]), ms[|ms| - 1]);
    }
  }

  // ----- Effect: which block takes which mount record -----

  /** The last record of `ms` for device node `dev`, if any. */
  function LastMountFor(ms: seq<MountRecord>, dev: string): Option<MountRecord>
  {
    if ms == [] then None
    else if ms[|ms| - 1].dev == dev then Some(ms[|ms| - 1])
    else LastMountFor(ms[..|ms| - 1], dev)
  }

  /**
   * The block at `l` after enrichment as described independently of the
   * loop: the first block with a given device node takes the mount state of
   * the last record for that node; every other block is left as it was.
   */
  function ExpectedBlock(service: seq<Drive>, ms: seq<MountRecord>, l: Location): Block
    requires l.drive < |service| && l.block < |service[l.drive].blocks|
  {
    var b := service[l.drive].blocks[l.block];
    match LastMountFor(ms, b.dev)
    case Some(m) => if FindBlockByDev(service, b.dev) == Some(l) then Attach(b, m) else b
    case None => b
  }

  lemma {:induction false} AttachMountsEffect(service: seq<Drive>, ms: seq<MountRecord>, l: Location)
    requires l.drive < |service| && l.block < |service[l.drive].blocks|
    ensures SameLayout(service, AttachMounts(service, ms))
    ensures AttachMounts(service, ms)[l.drive].blocks[l.block] == ExpectedBlock(service, ms, l)
  {
    AttachMountsLayout(service, ms);
    if ms != [] {
      var pre := ms[..|ms| - 1];
      var m := ms[|ms| - 1];
      var cur := AttachMounts(service, pre);
      AttachMountsEffect(service, pre, l);
      FindBlockByDevSameLayout(service, cur, m.dev);
      var b := service[l.drive].blocks[l.block];
      var c := cur[l.drive].blocks[l.block];
      assert Detached(c) == Detached(b);
      assert c.dev == b.dev;
      if FindBlockByDev(service, m.dev) == Some(l) {
        assert m.dev == b.dev;
        assert LastMountFor(ms, b.dev) == Some(m);
        assert Attach(c, m) == Attach(b, m);
      } else if m.dev == b.dev {
        assert LastMountFor(ms, b.dev) == Some(m);
        assert FindBlockByDev(service, b.dev) != Some(l);
      } else {
        assert LastMountFor(ms, b.dev) == LastMountFor(pre, b.dev);
      }
    }
  }

  // ----- Orphans: the fstab drive's blocks -----

  /** The number of mount records that match no block of `service`. */
  function UnmatchedCount(service: seq<Drive>, ms: seq<MountRecord>): nat
  {
    if ms == [] then 0
    else UnmatchedCount(service, ms[..|ms| - 1]) + (if Unmatched(service, ms[|ms| - 1].dev) then 1 else 0)
  }

  /** The fstab drive gets one block per unmatched mount record. */
  lemma {:induction false} OrphanBlocksCount(service: seq<Drive>, ms: seq<MountRecord>)
    ensures |OrphanBlocks(service, ms)| == UnmatchedCount(service, ms)
  {
    if ms != [] {
      OrphanBlocksCount(service, ms[..|ms| - 1]);
    }
  }

  /**
   * The fstab drive holds, for each mount record whose device node no
   * device-service block has, the block copied from it, and nothing else.
   * Only the device-service drives are searched, so records repeating a
   * device node each add their own block.
   */
  lemma {:induction false} OrphanBlocksMembers(service: seq<Drive>, ms: seq<MountRecord>)
    ensures forall b :: b in OrphanBlocks(service, ms) <==>
      exists m :: m in ms && Unmatched(service, m.dev) && b == Orphan(m)
  {
    if ms != [] {
      var pre := ms[..|ms| - 1];
      var m := ms[|ms| - 1];
      OrphanBlocksMembers(service, pre);
      assert ms == pre + [m];
      forall b ensures b in OrphanBlocks(service, ms) <==>
        exists n :: n in ms && Unmatched(service, n.dev) && b == Orphan(n)
      {
        if exists n :: n in ms && Unmatched(service, n.dev) && b == Orphan(n) {
          var n :| n in ms && Unmatched(service, n.dev) && b == Orphan(n);
          if n != m {
            assert n in pre;
          }
        }
        if b in OrphanBlocks(service, pre) {
          var n :| n in pre && Unmatched(service, n.dev) && b == Orphan(n);
          assert n in ms;
        }
      }
    }
  }

  /**
   * A block of the fstab drive has no object path, label or size, names
   * "fstab" as its drive, and has a device node no device-service block has.
   */
  lemma OrphanBlocksShape(service: seq<Drive>, ms: seq<MountRecord>)
    ensures forall b :: b in OrphanBlocks(service, ms) ==>
      b.objectPath == "" && b.idLabel == "" && b.size == "" && b.drivePath == FstabPath
      && Unmatched(service, b.dev)
  {
    OrphanBlocksMembers(service, ms);
  }

  // ----- The sorted result -----

  lemma SortEachDriveAppend(a: seq<Drive>, b: seq<Drive>)
    ensures SortEachDrive(a + b) == SortEachDrive(a) + SortEachDrive(b)
  {
  }

  lemma {:induction false} WithKeySortEachDrive(s: seq<Drive>, k: string)
    ensures WithKey(SortEachDrive(s), DriveKey, k) == SortEachDrive(WithKey(s, DriveKey, k))
  {
    if s != [] {
      var e := SortEachDrive(s);
      assert e[0] == SortBlocks(s[0]) && DriveKey(e[0]) == DriveKey(s[0]);
      assert e[1..] == SortEachDrive(s[1..]);
      var h := if DriveKey(s[0]) == k then [s[0]] else [];
      assert WithKey(e, DriveKey, k) == SortEachDrive(h) + WithKey(SortEachDrive(s[1..]), DriveKey, k);
      WithKeySortEachDrive(s[1..], k);
      SortEachDriveAppend(h, WithKey(s[1..], DriveKey, k));
    }
  }

  /**
   * Sorting the drives and then each drive's blocks gives the same result
   * as sorting each drive's blocks and then the drives.
   */
  lemma SortDrivesThenBlocks(drives: seq<Drive>)
    ensures SortEachDrive(SortByKey(drives, DriveKey)) == SortByKey(SortEachDrive(drives), DriveKey)
  {
    var sorted := SortByKey(drives, DriveKey);
    var r := SortEachDrive(sorted);
    assert SortedBy(r, DriveKey) by {
      assert forall i :: 0 <= i < |r| ==> DriveKey(r[i]) == DriveKey(sorted[i]);
    }
    forall k ensures WithKey(r, DriveKey, k) == WithKey(SortEachDrive(drives), DriveKey, k) {
      WithKeySortEachDrive(sorted, k);
      WithKeySortEachDrive(drives, k);
    }
    StableSortUnique(r, SortEachDrive(drives), DriveKey);
  }

  /**
   * The result has one drive more than the device service reported, sorted
   * by object path, each with its blocks sorted by device node; it is a
   * permutation of the merged drives with their blocks sorted, and it holds
   * the fstab drive with all the orphan blocks.
   */
  lemma ReconciledShape(service: seq<Drive>, ms: seq<MountRecord>)
    ensures |Reconciled(service, ms)| == |service| + 1
    ensures SortedBy(Reconciled(service, ms), DriveKey)
    ensures forall i :: 0 <= i < |Reconciled(service, ms)| ==> SortedBy(Reconciled(service, ms)[i].blocks, BlockKey)
    ensures multiset(Reconciled(service, ms)) == multiset(SortEachDrive(Merged(service, ms)))
    ensures SortBlocks(FstabDrive(OrphanBlocks(service, ms))) in Reconciled(service, ms)
  {
    var m := Merged(service, ms);
    AttachMountsLayout(service, ms);
    SortDrivesThenBlocks(m);
    var e := SortEachDrive(m);
    assert e[|e| - 1] == SortBlocks(FstabDrive(OrphanBlocks(service, ms)));
    assert e[|e| - 1] in multiset(e);
  }

  lemma {:induction false} TotalBlocksInsert(s: seq<Drive>, x: Drive)
    ensures TotalBlocks(InsertBefore(s, DriveKey, x)) == TotalBlocks(s) + |x.blocks|
  {
    if s != [] && !LexLe(DriveKey(x), DriveKey(s[0])) {
      TotalBlocksInsert(s[1..], x);
      assert ([s[0]] + InsertBefore(s[1..], DriveKey, x))[1..] == InsertBefore(s[1..], DriveKey, x);
    }
  }

  lemma {:induction false} TotalBlocksSort(s: seq<Drive>)
    ensures TotalBlocks(SortByKey(s, DriveKey)) == TotalBlocks(s)
  {
    if s != [] {
      TotalBlocksSort(s[1..]);
      TotalBlocksInsert(SortByKey(s[1..], DriveKey), s[0]);
    }
  }

  lemma {:induction false} TotalBlocksSortEach(s: seq<Drive>)
    ensures TotalBlocks(SortEachDrive(s)) == TotalBlocks(s)
  {
    if s != [] {
      assert SortEachDrive(s)[1..] == SortEachDrive(s[1..]);
      TotalBlocksSortEach(s[1..]);
    }
  }

  lemma {:induction false} TotalBlocksSameLayout(a: seq<Drive>, b: seq<Drive>)
    requires SameLayout(a, b)
    ensures TotalBlocks(a) == TotalBlocks(b)
  {
    if a != [] {
      TotalBlocksSameLayout(a[1..], b[1..]);
    }
  }

  /** The result holds every device-service block and one block per unmatched mount record. */
  lemma ReconciledBlockCount(service: seq<Drive>, ms: seq<MountRecord>)
    ensures TotalBlocks(Reconciled(service, ms)) == TotalBlocks(service) + UnmatchedCount(service, ms)
  {
    var m := Merged(service, ms);
    TotalBlocksSortEach(SortByKey(m, DriveKey));
    TotalBlocksSort(m);
    TotalBlocksAppend(AttachMounts(service, ms), FstabDrive(OrphanBlocks(service, ms)));
    AttachMountsLayout(service, ms);
    TotalBlocksSameLayout(service, AttachMounts(service, ms));
    OrphanBlocksCount(service, ms);
  }

  /**
   * With no device-service drive at path "fstab", no two drives of the
   * result share an object path. The requirement always holds for the
   * device service: every object path it reports, including a block's
   * owning-drive path (`/` when the block has no drive), starts with `/`.
   */
  lemma ReconciledUnique(objects: seq<ServiceObject>, ms: seq<MountRecord>)
    requires FstabPath !in MentionedPaths(objects)
    ensures UniquePaths(Reconciled(ServiceDrives(objects), ms))
  {
    var s := ServiceDrives(objects);
    ServiceDrivesUnique(objects);
    ServiceDrivesPaths(objects);
    var a := AttachMounts(s, ms);
    AttachMountsLayout(s, ms);
    var m := Merged(s, ms);
    assert forall i :: 0 <= i < |a| ==> a[i].objectPath == Bare(a[i]).objectPath == Bare(s[i]).objectPath;
    forall i, j | 0 <= i < j < |m| ensures DriveKey(m[i]) != DriveKey(m[j]) {
      if j == |a| {
        assert s[i] in s;
      } else {
        assert DriveKey(s[i]) != DriveKey(s[j]);
      }
    }
    SortByKeyKeepsUnique(m, DriveKey);
    var sorted := SortByKey(m, DriveKey);
    assert forall i :: 0 <= i < |sorted| ==> DriveKey(SortEachDrive(sorted)[i]) == DriveKey(sorted[i]);
  }

  /** Every block names the drive that holds it as its owning drive. */
  predicate BackReferenced(drives: seq<Drive>)
  {
    forall i, j :: 0 <= i < |drives| && 0 <= j < |drives[i].blocks| ==>
      drives[i].blocks[j].drivePath == drives[i].objectPath
  }

  lemma BackReferencedSorted(m: seq<Drive>)
    requires BackReferenced(m)
    ensures BackReferenced(SortEachDrive(SortByKey(m, DriveKey)))
  {
    var sorted := SortByKey(m, DriveKey);
    var r := SortEachDrive(sorted);
    forall i, j | 0 <= i < |r| && 0 <= j < |r[i].blocks| ensures r[i].blocks[j].drivePath == r[i].objectPath {
      assert sorted[i] in multiset(m);
      var k :| 0 <= k < |m| && m[k] == sorted[i];
      var blocks := m[k].blocks;
      assert r[i].blocks == SortByKey(blocks, BlockKey);
      assert r[i].blocks[j] in multiset(blocks);
      var n :| 0 <= n < |blocks| && blocks[n] == r[i].blocks[j];
    }
  }

  /** In the result, every block's owning-drive path is the object path of the drive holding it. */
  lemma ReconciledBackReferences(objects: seq<ServiceObject>, ms: seq<MountRecord>)
    ensures BackReferenced(Reconciled(ServiceDrives(objects), ms))
  {
    var s := ServiceDrives(objects);
    ServiceDrivesExpected(objects);
    var a := AttachMounts(s, ms);
    AttachMountsLayout(s, ms);
    var orphans := OrphanBlocks(s, ms);
    OrphanBlocksShape(s, ms);
    var m := Merged(s, ms);
    forall i, j | 0 <= i < |m| && 0 <= j < |m[i].blocks| ensures m[i].blocks[j].drivePath == m[i].objectPath {
      if i < |a| {
        var p := s[i].objectPath;
        BlocksForShape(objects, p);
        assert s[i].blocks == BlocksFor(objects, p);
        assert s[i].blocks[j] in BlocksFor(objects, p);
        assert Detached(a[i].blocks[j]) == Detached(s[i].blocks[j]);
        assert Bare(a[i]) == Bare(s[i]);
      } else {
        assert m[i].blocks[j] in orphans;
      }
    }
    BackReferencedSorted(m);
  }

  // ----- Scenarios -----

  /** A mount record with no device-service block ends up in the fstab drive. */
  lemma OrphanMountScenario()
    ensures Reconciled([], [MountRecord("sdb1", Some("/mnt/usb"), "vfat", true)])
      == [Drive("fstab", "fstab", "fstab", false,
                [Block("", "fstab", "sdb1", "", Some("/mnt/usb"), "vfat", true, "")])]
  {
    var ms := [MountRecord("sdb1", Some("/mnt/usb"), "vfat", true)];
    assert ms[..0] == [];
    assert FindBlockByDev([], "sdb1") == None;
    assert AttachMounts([], ms) == AttachMount([], ms[0]) == [];
    assert OrphanBlocks([], ms) == [Orphan(ms[0])];
    var fstab := FstabDrive([Orphan(ms[0])]);
    assert Merged([], ms) == [fstab];
    assert SortByKey([fstab], DriveKey) == InsertBefore([], DriveKey, fstab) == [fstab];
    assert SortByKey(fstab.blocks, BlockKey) == fstab.blocks;
    assert SortEachDrive([fstab]) == [SortBlocks(fstab)];
  }

  /** A mount record for a device-service block updates that block in place and adds none. */
  lemma MatchedMountScenario()
    ensures AttachMounts([Drive("Samsung", "/drives/0", "SSD", false,
                                [Block("/block/sda1", "/drives/0", "sda1", "", None, "ext4", false, "")])],
                         [MountRecord("sda1", Some("/"), "ext4", true)])
      == [Drive("Samsung", "/drives/0", "SSD", false,
                [Block("/block/sda1", "/drives/0", "sda1", "", Some("/"), "ext4", true, "")])]
    ensures OrphanBlocks([Drive("Samsung", "/drives/0", "SSD", false,
                                [Block("/block/sda1", "/drives/0", "sda1", "", None, "ext4", false, "")])],
                         [MountRecord("sda1", Some("/"), "ext4", true)]) == []
  {
    var ms := [MountRecord("sda1", Some("/"), "ext4", true)];
    var b := Block("/block/sda1", "/drives/0", "sda1", "", None, "ext4", false, "");
    var service := [Drive("Samsung", "/drives/0", "SSD", false, [b])];
    assert ms[..0] == [];
    assert FindBlock([b], "sda1") == Some(0);
    assert FindDriveHolding(service, "sda1") == Some(0);
    assert FindBlockByDev(service, "sda1") == Some(Location(0, 0));
    assert AttachMounts(service, ms) == AttachMount(service, ms[0]);
    assert ms[0].dev == "sda1";
    var d := service[0].(blocks := [Attach(b, ms[0])]);
    assert [b][0 := Attach(b, ms[0])] == [Attach(b, ms[0])];
    assert service[0 := d] == [d];
    assert AttachMount(service, ms[0]) == [service[0].(blocks := [Attach(b, ms[0])])];
  }

  // ----- The operation -----

  /**
   * The loop over the mount table: a record whose device node some block of
   * `service` has updates the first such block's mount state; any other
   * record adds a block to the fstab drive.
   */
  method ApplyMountTable(service: seq<Drive>, mounts: seq<MountRecord>) returns (drives: seq<Drive>, fstab: Drive)
    ensures drives == AttachMounts(service, mounts)
    ensures fstab == FstabDrive(OrphanBlocks(service, mounts))
    ensures SameLayout(service, drives)
  {
    drives := service;
    fstab := Drive(FstabPath, FstabPath, FstabPath, false, []);
    for i := 0 to |mounts|
      invariant drives == AttachMounts(service, mounts[..i])
      invariant fstab == FstabDrive(OrphanBlocks(service, mounts[..i]))
    {
      var m := mounts[i];
      assert mounts[..i + 1][..i] == mounts[..i];
      AttachMountsLayout(service, mounts[..i]);
      FindBlockByDevSameLayout(service, drives, m.dev);
      var found := FindBlockByDev(drives, m.dev);
      if found.Some? {
        var l := found.value;
        var block := drives[l.drive].blocks[l.block];
        block := block.(mount := m.path, mounted := m.mounted);
        drives := drives[l.drive := drives[l.drive].(blocks := drives[l.drive].blocks[l.block := block])];
      } else {
        fstab := fstab.(blocks := fstab.blocks + [Block("", fstab.objectPath, m.dev, "", m.path, m.fs, m.mounted, "")]);
      }
    }
    assert mounts[..|mounts|] == mounts;
    AttachMountsLayout(service, mounts);
  }

  /** The loop that sorts each drive's blocks by device node. */
  method SortEachDriveBlocks(sorted: seq<Drive>) returns (drives: seq<Drive>)
    ensures drives == SortEachDrive(sorted)
    ensures forall i :: 0 <= i < |drives| ==> SortedBy(drives[i].blocks, BlockKey)
    ensures forall i :: 0 <= i < |drives| ==> Bare(drives[i]) == Bare(sorted[i])
    ensures forall i :: 0 <= i < |drives| ==> multiset(drives[i].blocks) == multiset(sorted[i].blocks)
  {
    drives := sorted;
    for j := 0 to |drives|
      invariant |drives| == |sorted|
      invariant forall k :: 0 <= k < j ==> drives[k] == SortBlocks(sorted[k])
      invariant forall k :: j <= k < |drives| ==> drives[k] == sorted[k]
    {
      drives := drives[j := drives[j].(blocks := SortByKey(drives[j].blocks, BlockKey))];
    }
  }

  /**
   * Runs the device-service fold, applies the mount table, adds the fstab
   * drive and sorts. Fails exactly when the fold fails, with its error.
   */
  method CollectAll(objects: seq<ServiceObject>, mounts: seq<MountRecord>) returns (r: Result<seq<Drive>, Error>)
    ensures r.Success? <==> Readable(objects)
    ensures r.Failure? ==> FirstUnreadable(objects, r.error)
    ensures r.Success? ==> r.value == Reconciled(ServiceDrives(objects), mounts)
    ensures r.Success? ==> |r.value| == |ServiceDrives(objects)| + 1
    ensures r.Success? ==> SortedBy(r.value, DriveKey)
    ensures r.Success? ==> forall i :: 0 <= i < |r.value| ==> SortedBy(r.value[i].blocks, BlockKey)
    ensures r.Success? ==> SortBlocks(FstabDrive(OrphanBlocks(ServiceDrives(objects), mounts))) in r.value
    ensures r.Success? ==> TotalBlocks(r.value) == CountBlockObjects(objects) + UnmatchedCount(ServiceDrives(objects), mounts)
    ensures r.Success? ==> BackReferenced(r.value)
  {
    var udisk := CollectDrivesFromUdisk(objects);
    if udisk.Failure? {
      return Failure(udisk.error);
    }
    var drives, fstab := ApplyMountTable(udisk.value, mounts);
    drives := drives + [fstab];
    drives := SortByKey(drives, DriveKey);
    drives := SortEachDriveBlocks(drives);
    ghost var service := udisk.value;
    ReconciledShape(service, mounts);
    ReconciledBlockCount(service, mounts);
    ServiceDrivesBlockCount(objects);
    ReconciledBackReferences(objects, mounts);
    return Success(drives);
  }
}
