/**
 * The data model of the reconciliation engine: the `Block` and `Drive`
 * records it produces, the objects the device service enumerates, the
 * records the mount table yields, and the lookups the engine performs on
 * its vector of drives.
 */
module Model {
  import opened Wrappers
  import opened Ordering

  /** Identity, id and model of the synthetic drive that collects mount-table entries. */
  const FstabPath: string := "fstab"

  /** One filesystem-bearing device node. */
  datatype Block = Block(
    objectPath: string,   // device-service object; empty for a mount-table-only block
    drivePath: string,    // object path of the owning drive
    dev: string,          // device node path, the join key with the mount table
    idLabel: string,      // the Rust field `label` (`label` is a Dafny keyword)
    mount: Option<string>,
    fstype: string,
    mounted: bool,
    size: string)         // display-formatted size

  /** A device-service drive, a placeholder for one, or the synthetic fstab drive. */
  datatype Drive = Drive(
    id: string,
    objectPath: string,
    model: string,
    ejectable: bool,
    blocks: seq<Block>)

  /** The drive-shaped properties of a device-service object, already fetched. */
  datatype DriveInfo = DriveInfo(id: string, model: string, ejectable: bool)

  /**
   * One enumerated device-service object, with its properties already
   * fetched: a drive, a block (its raw device string may hold NUL
   * characters; `size` is None when that fetch failed), an object whose
   * drive or block property fetch failed, or an object with neither face.
   */
  datatype ServiceObject =
    | DriveObject(path: string, info: DriveInfo)
    | BlockObject(path: string, drivePath: string, device: string, idLabel: string,
                  fstype: string, size: Option<string>)
    | Unreadable(path: string)
    | OtherObject(path: string)

  /** One entry of the mount table. */
  datatype MountRecord = MountRecord(dev: string, path: Option<string>, fs: string, mounted: bool)

  /** A failed property fetch, which aborts the whole pass. */
  datatype Error = QueryFailed(objectPath: string)

  /** Where a block sits in a vector of drives. */
  datatype Location = Location(drive: nat, block: nat)

  function DriveKey(d: Drive): string { d.objectPath }

  function BlockKey(b: Block): string { b.dev }

  /** The object paths of `drives`. */
  function Paths(drives: seq<Drive>): set<string>
  {
    set d | d in drives :: d.objectPath
  }

  /** No two drives share an object path. */
  predicate UniquePaths(drives: seq<Drive>)
  {
    UniqueBy(drives, DriveKey)
  }

  /** The number of blocks over all drives. */
  function TotalBlocks(drives: seq<Drive>): nat
  {
    if drives == [] then 0 else |drives[0].blocks| + TotalBlocks(drives[1..])
  }

  /** `s` with every NUL character removed, the rest in order. */
  function StripNul(s: string): (r: string)
    ensures '\0' !in r
    ensures forall c :: c != '\0' ==> multiset(r)[c] == multiset(s)[c]
    ensures '\0' !in s ==> r == s
  {
    if s == [] then []
    else
      assert s == [s[0]] + s[1..];
      (if s[0] == '\0' then [] else [s[0]]) + StripNul(s[1..])
  }

  /**
   * Stripping distributes over concatenation, so the characters that are
   * kept stay in their input order: together with the contract of
   * `StripNul` on one character, this fixes the whole result.
   */
  lemma {:induction false} StripNulAppend(a: string, b: string)
    ensures StripNul(a + b) == StripNul(a) + StripNul(b)
  {
    if a == [] {
      assert a + b == b;
    } else {
      assert (a + b)[0] == a[0];
      assert (a + b)[1..] == a[1..] + b;
      StripNulAppend(a[1..], b);
      var h: string := if a[0] == '\0' then [] else [a[0]];
      assert h + (StripNul(a[1..]) + StripNul(b)) == (h + StripNul(a[1..])) + StripNul(b);
    }
  }

  /** The index of the first drive whose object path is `path`. */
  function FindDrive(drives: seq<Drive>, path: string): (r: Option<nat>)
    ensures r.Some? ==> r.value < |drives| && drives[r.value].objectPath == path
    ensures r.Some? ==> forall i :: 0 <= i < r.value ==> drives[i].objectPath != path
    ensures r.None? <==> path !in Paths(drives)
  {
    if drives == [] then None
    else if drives[0].objectPath == path then Some(0)
    else match FindDrive(drives[1..], path)
      case None => assert drives == [drives[0]] + drives[1..]; None
      case Some(i) => Some(i + 1)
  }

  /** The index of the first block whose device node is `dev`. */
  function FindBlock(blocks: seq<Block>, dev: string): (r: Option<nat>)
    ensures r.Some? ==> r.value < |blocks| && blocks[r.value].dev == dev
    ensures r.Some? ==> forall j :: 0 <= j < r.value ==> blocks[j].dev != dev
    ensures r.None? <==> forall j :: 0 <= j < |blocks| ==> blocks[j].dev != dev
  {
    if blocks == [] then None
    else if blocks[0].dev == dev then Some(0)
    else match FindBlock(blocks[1..], dev)
      case None => None
      case Some(j) => Some(j + 1)
  }

  /** The index of the first drive holding a block whose device node is `dev`. */
  function FindDriveHolding(drives: seq<Drive>, dev: string): (r: Option<nat>)
    ensures r.Some? ==> r.value < |drives| && FindBlock(drives[r.value].blocks, dev).Some?
    ensures r.Some? ==> forall i :: 0 <= i < r.value ==> FindBlock(drives[i].blocks, dev).None?
    ensures r.None? <==> forall i :: 0 <= i < |drives| ==> FindBlock(drives[i].blocks, dev).None?
  {
    if drives == [] then None
    else if FindBlock(drives[0].blocks, dev).Some? then Some(0)
    else match FindDriveHolding(drives[1..], dev)
      case None => None
      case Some(i) => Some(i + 1)
  }

  /**
   * The first block, in drive order and then block order, whose device node
   * is `dev`: the drive is found first, then the block within it.
   */
  function FindBlockByDev(drives: seq<Drive>, dev: string): (r: Option<Location>)
    ensures r.Some? ==> r.value.drive < |drives| && r.value.block < |drives[r.value.drive].blocks|
    ensures r.Some? ==> drives[r.value.drive].blocks[r.value.block].dev == dev
    ensures r.Some? ==> forall i, j :: 0 <= i < r.value.drive && 0 <= j < |drives[i].blocks| ==> drives[i].blocks[j].dev != dev
    ensures r.Some? ==> forall j :: 0 <= j < r.value.block ==> drives[r.value.drive].blocks[j].dev != dev
    ensures r.None? <==> forall i, j :: 0 <= i < |drives| && 0 <= j < |drives[i].blocks| ==> drives[i].blocks[j].dev != dev
  {
    match FindDriveHolding(drives, dev)
    case None => None
    case Some(i) => Some(Location(i, FindBlock(drives[i].blocks, dev).value))
  }

  lemma {:induction false} TotalBlocksAppend(drives: seq<Drive>, d: Drive)
    ensures TotalBlocks(drives + [d]) == TotalBlocks(drives) + |d.blocks|
  {
    if drives != [] {
      assert (drives + [d])[1..] == drives[1..] + [d];
      TotalBlocksAppend(drives[1..], d);
    }
  }

  lemma {:induction false} TotalBlocksUpdate(drives: seq<Drive>, k: nat, d: Drive)
    requires k < |drives|
    ensures TotalBlocks(drives[k := d]) == TotalBlocks(drives) - |drives[k].blocks| + |d.blocks|
  {
    if k > 0 {
      assert drives[k := d][1..] == drives[1..][k - 1 := d];
      TotalBlocksUpdate(drives[1..], k - 1, d);
    }
  }
}
