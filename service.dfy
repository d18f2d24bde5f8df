/**
 * The device-service fold (`collect_drives_from_udisk`): enumerated drive
 * and block objects become a vector of drives, merging a drive object into a
 * placeholder that an earlier block created and creating a placeholder for a
 * block whose drive is not known yet.
 */
module Service {
  import opened Wrappers
  import opened Ordering
  import opened Model

  /** The display size: empty when its fetch failed. */
  function SizeText(size: Option<string>): string
  {
    match size
    case Some(s) => s
    case None => ""
  }

  /** The block a block object contributes: not mounted, device node NUL-stripped. */
  function NewBlock(obj: ServiceObject): Block
    requires obj.BlockObject?
  {
    Block(obj.path, obj.drivePath, StripNul(obj.device), obj.idLabel, None, obj.fstype, false, SizeText(obj.size))
  }

  /** The drive a block creates when its drive has not been seen yet. */
  function Placeholder(path: string, b: Block): Drive
  {
    Drive("", path, "", false, [b])
  }

  /** One turn of the fold over the enumerated objects. */
  function Absorb(drives: seq<Drive>, obj: ServiceObject): seq<Drive>
  {
    match obj
    case DriveObject(p, info) =>
      (match FindDrive(drives, p)
       case Some(k) => drives[k := drives[k].(model := info.model, ejectable := info.ejectable, id := info.id)]
       case None => drives + [Drive(info.id, p, info.model, info.ejectable, [])])
    case BlockObject(_, dp, _, _, _, _) =>
      (match FindDrive(drives, dp)
       case Some(k) => drives[k := drives[k].(blocks := drives[k].blocks + [NewBlock(obj)])]
       case None => drives + [Placeholder(dp, NewBlock(obj))])
    case _ => drives
  }

  /** The drives the fold builds from `objects`, in discovery order. */
  function ServiceDrives(objects: seq<ServiceObject>): seq<Drive>
  {
    if objects == [] then []
    else Absorb(ServiceDrives(objects[..|objects| - 1]), objects[|objects| - 1])
  }

  /** No object of `objects` had a failed property fetch. */
  predicate Readable(objects: seq<ServiceObject>)
  {
    forall i :: 0 <= i < |objects| ==> !objects[i].Unreadable?
  }

  /** `e` reports the first unreadable object of `objects`. */
  predicate FirstUnreadable(objects: seq<ServiceObject>, e: Error)
  {
    exists k :: 0 <= k < |objects| && objects[k] == Unreadable(e.objectPath) && Readable(objects[..k])
  }

  // ----- An independent description of the fold's outcome -----

  /** The drive path an object names, if any. */
  function Mentions(obj: ServiceObject): set<string>
  {
    match obj
    case DriveObject(p, _) => {p}
    case BlockObject(_, dp, _, _, _, _) => {dp}
    case _ => {}
  }

  /** Every drive path named by a drive object or by a block object's owning-drive reference. */
  function MentionedPaths(objects: seq<ServiceObject>): set<string>
  {
    if objects == [] then {}
    else MentionedPaths(objects[..|objects| - 1]) + Mentions(objects[|objects| - 1])
  }

  /** The blocks of all block objects naming drive `path`, in discovery order. */
  function BlocksFor(objects: seq<ServiceObject>, path: string): seq<Block>
  {
    if objects == [] then []
    else
      var last := objects[|objects| - 1];
      BlocksFor(objects[..|objects| - 1], path)
        + (if last.BlockObject? && last.drivePath == path then [NewBlock(last)] else [])
  }

  /** The properties of the last drive object at `path`, if there is one. */
  function LastInfo(objects: seq<ServiceObject>, path: string): Option<DriveInfo>
  {
    if objects == [] then None
    else
      var last := objects[|objects| - 1];
      if last.DriveObject? && last.path == path then Some(last.info)
      else LastInfo(objects[..|objects| - 1], path)
  }

  /**
   * The drive at `path` as the fold must leave it: the last drive object's
   * id, model and ejectable flag (placeholder values when there is none) and
   * every block naming it, whatever the order of drive and block objects.
   */
  function ExpectedDrive(objects: seq<ServiceObject>, path: string): Drive
  {
    var info := match LastInfo(objects, path) case Some(i) => i case None => DriveInfo("", "", false);
    Drive(info.id, path, info.model, info.ejectable, BlocksFor(objects, path))
  }

  /** The number of block objects. */
  function CountBlockObjects(objects: seq<ServiceObject>): nat
  {
    if objects == [] then 0
    else CountBlockObjects(objects[..|objects| - 1]) + (if objects[|objects| - 1].BlockObject? then 1 else 0)
  }

  // ----- The fold meets that description -----

  lemma {:induction false} UnmentionedIsEmpty(objects: seq<ServiceObject>, path: string)
    requires path !in MentionedPaths(objects)
    ensures BlocksFor(objects, path) == [] && LastInfo(objects, path) == None
  {
    if objects != [] {
      UnmentionedIsEmpty(objects[..|objects| - 1], path);
    }
  }

  /** Both the drive branch and the block branch look up the path before pushing. */
  lemma {:induction false} ServiceDrivesUnique(objects: seq<ServiceObject>)
    ensures UniquePaths(ServiceDrives(objects))
  {
    if objects != [] {
      var prev := ServiceDrives(objects[..|objects| - 1]);
      ServiceDrivesUnique(objects[..|objects| - 1]);
      var obj := objects[|objects| - 1];
      var next := Absorb(prev, obj);
      if obj.DriveObject? || obj.BlockObject? {
        var p := if obj.DriveObject? then obj.path else obj.drivePath;
        match FindDrive(prev, p)
        case Some(k) =>
          assert forall i :: 0 <= i < |next| ==> next[i].objectPath == prev[i].objectPath;
        case None =>
          assert next == prev + [next[|prev|]] && next[|prev|].objectPath == p;
          assert forall i :: 0 <= i < |prev| ==> prev[i] in prev;
      }
    }
  }

  /** The fold has a drive for exactly the paths the objects mention. */
  lemma {:induction false} ServiceDrivesPaths(objects: seq<ServiceObject>)
    ensures Paths(ServiceDrives(objects)) == MentionedPaths(objects)
  {
    if objects != [] {
      var prev := ServiceDrives(objects[..|objects| - 1]);
      ServiceDrivesPaths(objects[..|objects| - 1]);
      var obj := objects[|objects| - 1];
      var next := Absorb(prev, obj);
      if obj.DriveObject? || obj.BlockObject? {
        var p := if obj.DriveObject? then obj.path else obj.drivePath;
        match FindDrive(prev, p)
        case Some(k) =>
          forall q ensures q in Paths(next) <==> q in Paths(prev) {
            if q in Paths(prev) {
              var d :| d in prev && d.objectPath == q;
              var i :| 0 <= i < |prev| && prev[i] == d;
              assert next[i] in next;
            }
          }
          assert Paths(next) == Paths(prev);
        case None =>
          assert next == prev + [next[|prev|]] && next[|prev|].objectPath == p;
          assert Paths(next) == Paths(prev) + {p};
      }
    }
  }

  /** ExpectedDrive after one more object, for a drive path that object does not name. */
  lemma ExpectedUnnamed(before: seq<ServiceObject>, obj: ServiceObject, q: string)
    requires q !in Mentions(obj)
    ensures ExpectedDrive(before + [obj], q) == ExpectedDrive(before, q)
  {
    var objects := before + [obj];
    assert objects[..|objects| - 1] == before;
  }

  /** ExpectedDrive after one more object that names drive path `q`. */
  lemma ExpectedNamed(before: seq<ServiceObject>, obj: ServiceObject, q: string)
    requires q in Mentions(obj)
    ensures obj.DriveObject? ==>
              ExpectedDrive(before + [obj], q) ==
              ExpectedDrive(before, q).(id := obj.info.id, model := obj.info.model, ejectable := obj.info.ejectable)
    ensures obj.BlockObject? ==>
              ExpectedDrive(before + [obj], q) ==
              ExpectedDrive(before, q).(blocks := BlocksFor(before, q) + [NewBlock(obj)])
  {
    var objects := before + [obj];
    assert objects[..|objects| - 1] == before;
  }

  /** One turn of the fold keeps every drive equal to its description. */
  lemma AbsorbExpected(before: seq<ServiceObject>, prev: seq<Drive>, obj: ServiceObject, i: nat)
    requires UniquePaths(prev) && Paths(prev) == MentionedPaths(before)
    requires forall j :: 0 <= j < |prev| ==> prev[j] == ExpectedDrive(before, prev[j].objectPath)
    requires i < |Absorb(prev, obj)|
    ensures Absorb(prev, obj)[i] == ExpectedDrive(before + [obj], Absorb(prev, obj)[i].objectPath)
  {
    var next := Absorb(prev, obj);
    var q := next[i].objectPath;
    if i < |prev| {
      assert prev[i] == ExpectedDrive(before, prev[i].objectPath);
      if q in Mentions(obj) {
        ExpectedNamed(before, obj, q);
        var k := FindDrive(prev, q).value;
        assert prev[k].objectPath == q;
        assert k == i;
      } else {
        ExpectedUnnamed(before, obj, q);
        assert next[i] == prev[i];
      }
    } else {
      assert q !in Paths(prev) && q in Mentions(obj);
      UnmentionedIsEmpty(before, q);
      ExpectedNamed(before, obj, q);
    }
  }

  /** Every drive of the fold is the one ExpectedDrive describes. */
  lemma {:induction false} ServiceDrivesExpected(objects: seq<ServiceObject>)
    ensures forall i :: 0 <= i < |ServiceDrives(objects)| ==>
      ServiceDrives(objects)[i] == ExpectedDrive(objects, ServiceDrives(objects)[i].objectPath)
  {
    if objects != [] {
      var before := objects[..|objects| - 1];
      var obj := objects[|objects| - 1];
      assert objects == before + [obj];
      ServiceDrivesExpected(before);
      ServiceDrivesPaths(before);
      ServiceDrivesUnique(before);
      forall i | 0 <= i < |ServiceDrives(objects)|
        ensures ServiceDrives(objects)[i] == ExpectedDrive(objects, ServiceDrives(objects)[i].objectPath)
      {
        AbsorbExpected(before, ServiceDrives(before), obj, i);
      }
    }
  }

  /** Each block object lands in exactly one drive. */
  lemma {:induction false} ServiceDrivesBlockCount(objects: seq<ServiceObject>)
    ensures TotalBlocks(ServiceDrives(objects)) == CountBlockObjects(objects)
  {
    if objects != [] {
      var prev := ServiceDrives(objects[..|objects| - 1]);
      ServiceDrivesBlockCount(objects[..|objects| - 1]);
      var obj := objects[|objects| - 1];
      match obj {
        case DriveObject(p, info) =>
          match FindDrive(prev, p) {
            case Some(k) =>
              TotalBlocksUpdate(prev, k, prev[k].(model := info.model, ejectable := info.ejectable, id := info.id));
            case None =>
              TotalBlocksAppend(prev, Drive(info.id, p, info.model, info.ejectable, []));
          }
        case BlockObject(_, dp, _, _, _, _) =>
          match FindDrive(prev, dp) {
            case Some(k) =>
              TotalBlocksUpdate(prev, k, prev[k].(blocks := prev[k].blocks + [NewBlock(obj)]));
            case None =>
              TotalBlocksAppend(prev, Placeholder(dp, NewBlock(obj)));
          }
        case _ =>
      }
    }
  }

  /**
   * The blocks a drive collects are fresh from the device service: they
   * point back to that drive, are not mounted, carry no NUL in their device
   * node, and each comes from one block object.
   */
  lemma {:induction false} BlocksForShape(objects: seq<ServiceObject>, path: string)
    ensures forall b :: b in BlocksFor(objects, path) ==>
      b.drivePath == path && b.mount == None && !b.mounted && '\0' !in b.dev
    ensures forall b :: b in BlocksFor(objects, path) ==>
      exists k :: 0 <= k < |objects| && objects[k].BlockObject? && b == NewBlock(objects[k])
  {
    if objects != [] {
      var before := objects[..|objects| - 1];
      BlocksForShape(before, path);
      forall b | b in BlocksFor(objects, path)
        ensures exists k :: 0 <= k < |objects| && objects[k].BlockObject? && b == NewBlock(objects[k])
      {
        if b in BlocksFor(before, path) {
          var k :| 0 <= k < |before| && before[k].BlockObject? && b == NewBlock(before[k]);
          assert objects[k] == before[k];
        } else {
          assert b == NewBlock(objects[|objects| - 1]);
        }
      }
    }
  }

  /**
   * The device-service fold. Drive objects update the drive already at their
   * path (a placeholder, or an earlier record) or push a new one; block
   * objects join the drive at their owning-drive path or push a placeholder
   * for it; other objects are skipped; the first object whose property
   * fetch failed aborts the pass.
   */
  method CollectDrivesFromUdisk(objects: seq<ServiceObject>) returns (r: Result<seq<Drive>, Error>)
    ensures r.Success? <==> Readable(objects)
    ensures r.Failure? ==> FirstUnreadable(objects, r.error)
    ensures r.Success? ==> r.value == ServiceDrives(objects)
    ensures r.Success? ==> UniquePaths(r.value) && Paths(r.value) == MentionedPaths(objects)
    ensures r.Success? ==> forall i :: 0 <= i < |r.value| ==> r.value[i] == ExpectedDrive(objects, r.value[i].objectPath)
    ensures r.Success? ==> TotalBlocks(r.value) == CountBlockObjects(objects)
  {
    var drives: seq<Drive> := [];
    var i := 0;
    while i < |objects|
      invariant 0 <= i <= |objects|
      invariant Readable(objects[..i])
      invariant drives == ServiceDrives(objects[..i])
    {
      var obj := objects[i];
      assert objects[..i + 1][..i] == objects[..i];
      match obj {
        case Unreadable(p) =>
          assert objects[i] == Unreadable(QueryFailed(p).objectPath);
          return Failure(QueryFailed(p));
        case DriveObject(p, info) =>
          var found := FindDrive(drives, p);
          if found.Some? {
            var k := found.value;
            drives := drives[k := drives[k].(model := info.model, ejectable := info.ejectable, id := info.id)];
          } else {
            drives := drives + [Drive(info.id, p, info.model, info.ejectable, [])];
          }
        case BlockObject(_, drivePath, _, _, _, _) =>
          var block := NewBlock(obj);
          var found := FindDrive(drives, drivePath);
          if found.Some? {
            var k := found.value;
            drives := drives[k := drives[k].(blocks := drives[k].blocks + [block])];
          } else {
            drives := drives + [Drive("", drivePath, "", false, [block])];
          }
        case OtherObject(_) =>
      }
      i := i + 1;
    }
    assert objects[..i] == objects;
    ServiceDrivesUnique(objects);
    ServiceDrivesPaths(objects);
    ServiceDrivesExpected(objects);
    ServiceDrivesBlockCount(objects);
    return Success(drives);
  }

  /**
   * A drive object arriving after any number of objects: the fold has a drive
   * at its path, and every drive at that path carries the record's id, model
   * and ejectable flag together with all the blocks that arrived earlier.
   */
  lemma DriveRecordMerges(objects: seq<ServiceObject>, p: string, info: DriveInfo)
    ensures exists i :: 0 <= i < |ServiceDrives(objects + [DriveObject(p, info)])| &&
                        ServiceDrives(objects + [DriveObject(p, info)])[i].objectPath == p
    ensures forall i :: 0 <= i < |ServiceDrives(objects + [DriveObject(p, info)])| &&
                        ServiceDrives(objects + [DriveObject(p, info)])[i].objectPath == p ==>
              ServiceDrives(objects + [DriveObject(p, info)])[i]
              == Drive(info.id, p, info.model, info.ejectable, BlocksFor(objects, p))
  {
    var all := objects + [DriveObject(p, info)];
    var r := ServiceDrives(all);
    assert all[..|all| - 1] == objects;
    ServiceDrivesPaths(all);
    ServiceDrivesExpected(all);
    ExpectedNamed(objects, DriveObject(p, info), p);
    assert p in Paths(r);
    var d :| d in r && d.objectPath == p;
    var i :| 0 <= i < |r| && r[i] == d;
  }

  /**
   * A block that arrives before its drive: the placeholder it creates takes
   * the drive record's metadata when that record arrives.
   */
  lemma BlockBeforeDrive()
    ensures ServiceDrives([
      BlockObject("/block/sda1", "/drives/0", "sda1\0", "", "ext4", None),
      DriveObject("/drives/0", DriveInfo("Samsung", "SSD", false))
    ]) == [Drive("Samsung", "/drives/0", "SSD", false,
                 [Block("/block/sda1", "/drives/0", "sda1", "", None, "ext4", false, "")])]
  {
    var objects := [
      BlockObject("/block/sda1", "/drives/0", "sda1\0", "", "ext4", None),
      DriveObject("/drives/0", DriveInfo("Samsung", "SSD", false))
    ];
    assert objects[..1][..0] == [];
    assert StripNul("sda1\0") == "sda1";
  }
}
