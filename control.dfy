/**
 * The control operations `mount`, `unmount` and `eject`: which
 * device-service object each one addresses. The calls themselves are the
 * service's; none of them changes the reconciled model.
 */
module Control {
  import opened Model
  import opened Service
  import opened Reconcile

  /** The interface of the addressed object that a control call uses. */
  datatype Action = MountFilesystem | UnmountFilesystem | EjectDrive

  /** A control call: `action` on the device-service object at `target`, with empty options. */
  datatype Request = Request(target: string, action: Action)

  /** `mount` goes through the filesystem interface of the block's own object. */
  function Mount(b: Block): Request
  {
    Request(b.objectPath, MountFilesystem)
  }

  /** `unmount` goes through the filesystem interface of the block's own object. */
  function Unmount(b: Block): Request
  {
    Request(b.objectPath, UnmountFilesystem)
  }

  /** `eject` goes through the drive interface of the block's owning drive. */
  function Eject(b: Block): Request
  {
    Request(b.drivePath, EjectDrive)
  }

  /** In the reconciled model, `eject` on any block addresses the drive that holds it. */
  lemma EjectAddressesHoldingDrive(objects: seq<ServiceObject>, ms: seq<MountRecord>, i: nat, j: nat)
    requires i < |Reconciled(ServiceDrives(objects), ms)|
    requires j < |Reconciled(ServiceDrives(objects), ms)[i].blocks|
    ensures Eject(Reconciled(ServiceDrives(objects), ms)[i].blocks[j]).target
         == Reconciled(ServiceDrives(objects), ms)[i].objectPath
  {
    ReconciledBackReferences(objects, ms);
  }

  /**
   * A block the device service reported keeps, through the mount-table pass,
   * the identities of its block object: `mount` and `unmount` address that
   * object and `eject` the drive it names.
   */
  lemma ServiceBlockTargets(objects: seq<ServiceObject>, ms: seq<MountRecord>, i: nat, j: nat)
    requires i < |ServiceDrives(objects)| && j < |ServiceDrives(objects)[i].blocks|
    ensures SameLayout(ServiceDrives(objects), AttachMounts(ServiceDrives(objects), ms))
    ensures var b := AttachMounts(ServiceDrives(objects), ms)[i].blocks[j];
            exists k :: 0 <= k < |objects| && objects[k].BlockObject? &&
                        Mount(b) == Request(objects[k].path, MountFilesystem) &&
                        Unmount(b) == Request(objects[k].path, UnmountFilesystem) &&
                        Eject(b) == Request(objects[k].drivePath, EjectDrive)
  {
    var s := ServiceDrives(objects);
    AttachMountsLayout(s, ms);
    ServiceDrivesExpected(objects);
    var p := s[i].objectPath;
    BlocksForShape(objects, p);
    assert s[i].blocks[j] in BlocksFor(objects, p);
    var k :| 0 <= k < |objects| && objects[k].BlockObject? && s[i].blocks[j] == NewBlock(objects[k]);
    var b := AttachMounts(s, ms)[i].blocks[j];
    assert Detached(b) == Detached(s[i].blocks[j]);
  }

  /**
   * A block that exists only in the mount table has no object of its own:
   * `mount` and `unmount` address the empty path, `eject` the "fstab" path.
   */
  lemma OrphanTargets(service: seq<Drive>, ms: seq<MountRecord>, b: Block)
    requires b in OrphanBlocks(service, ms)
    ensures Mount(b).target == "" && Unmount(b).target == ""
    ensures Eject(b).target == FstabPath
  {
    OrphanBlocksShape(service, ms);
  }
}
