# Drive reconciliation engine, modelled in Dafny

This project models the reconciliation engine of a storage-device browser
(`src/drives.rs`). The engine merges two views of storage into one ordered
vector of drives:

- **Device-service fold** (`collect_drives_from_udisk`). The objects the
  device-management service enumerates arrive in discovery order. A drive
  object updates the drive already at its object path or is pushed as a new
  drive. A block object is appended to the drive whose object path is the
  block's owning-drive path. When that drive is not there yet, a placeholder
  drive is pushed (empty id and model, not ejectable). If the drive object
  arrives later, its id, model and ejectable flag overwrite the placeholder's.
- **Mount-table enrichment** (`collect_all`). A mount record whose device
  node matches a device-service block overwrites the mount state of the first
  such block. Any other record becomes a block of the synthetic `"fstab"`
  drive. That drive is then added, the drives are sorted by object path and
  each drive's blocks by device node.
- **Control operations** (`mount`, `unmount`, `eject`). Each one addresses a
  device-service object: the block's own object for mount and unmount, the
  block's owning drive for eject.

Layout, one module per file:

- `wrappers.dfy`: `Option` and `Result`.
- `ordering.dfy`: Rust's order on `String`, and the stable sort that
  `sort_by_cached_key` performs. The sort is written as an insertion sort.
  `StableSortUnique` proves that a stable sort has only one possible result,
  so the choice of algorithm does not matter.
- `model.dfy`: `Block`, `Drive`, the enumerated `ServiceObject`s, `MountRecord`,
  the NUL filter, and the `find` lookups over the drive vector.
- `service.dfy`: the fold `CollectDrivesFromUdisk`, a loop over a
  sequence-valued vector that it updates in place. It is proved equal to the
  spec function `ServiceDrives`. Lemmas then relate `ServiceDrives` to an
  independent per-path description (`ExpectedDrive`).
- `reconcile.dfy`: the mount-table loop `ApplyMountTable`, the per-drive
  block sort loop `SortEachDriveBlocks` and the whole pass `CollectAll`. Each
  is proved against spec functions (`AttachMounts`, `OrphanBlocks`,
  `Reconciled`), and lemmas state what those functions guarantee.
- `control.dfy`: the target each control operation addresses.

How the Rust code is represented:

- The `.await?` property reads are replaced by values that have already been
  fetched. An object whose property fetch failed is the variant
  `Unreadable`. The first such object makes the whole pass fail with
  `QueryFailed(path)`, and no partial vector is returned.
- The size fetch may fail without an error (`drives.rs:61-65`). It is an
  `Option<string>` that becomes `""` when absent.
- Objects with neither a drive nor a block interface are `OtherObject` and
  are skipped.
- The Rust block field `label` is called `idLabel`, because `label` is a
  Dafny keyword.
- Strings are compared the way Rust's `Ord for String` compares them. Rust
  compares UTF-8 bytes, which gives the same order as comparing code points,
  and Dafny's `char` order compares code points.

Properties of the Rust code that the model keeps:

- Enrichment searches only the device-service drives. The fstab drive being
  built is never searched, so two unmatched records with the same device node
  both become fstab blocks. Device-service blocks may also share a device
  node. Device nodes are therefore not unique in the output, and the model
  does not claim that they are.
- The synthetic drive's `id`, `object_path` and `model` are all `"fstab"`.
  Drives carry no `label` field; only blocks do.
- The output is not fully independent of arrival order. When drive records
  repeat, the last one wins. Blocks with equal device nodes keep their
  arrival order. Which block a mount record updates depends on the fold's
  drive order.
- Enumeration errors are not propagated. The list of managed objects is
  flattened (`drives.rs:28-39`), so a failed enumeration gives an empty
  input, and objects that cannot be resolved are dropped before the loop.
  The model's input is the sequence that remains.

## Model

| member | source | states |
|---|---|---|
| `Model.StripNul` | src/drives.rs:69-72 | the device node holds no NUL, every other character occurs in it as often as in the raw device string, and a NUL-free string is kept unchanged |
| `Model.StripNulAppend` | src/drives.rs:69-72 | stripping distributes over concatenation, so the kept characters stay in input order |
| `Model.FindDrive` | src/drives.rs:52 | returns the index of the first drive with the given object path; returns None exactly when no drive has that path |
| `Model.FindBlockByDev` | src/drives.rs:110-113 | returns the first block with the device node: in the first drive holding one, the first such block; returns None exactly when no block has it |
| `Service.CollectDrivesFromUdisk` | src/drives.rs:25-95 | fails exactly when some object is unreadable, reporting the first one; otherwise returns `ServiceDrives(objects)`, which has unique paths, exactly the mentioned paths, each drive as `ExpectedDrive` describes, and one block per block object |
| `Service.ServiceDrivesUnique` | src/drives.rs:52-58 | no two drives of the fold share an object path, because both branches search before pushing (also lines 80-90) |
| `Service.ServiceDrivesPaths` | src/drives.rs:41-92 | the fold has a drive for exactly the paths named by drive objects and by block objects' owning-drive references |
| `Service.ServiceDrivesExpected` | src/drives.rs:44-90 | every drive of the fold has the id, model and ejectable flag of the last drive object at its path, or placeholder values when there is none; its blocks are exactly the blocks of the block objects naming it, in arrival order |
| `Service.DriveRecordMerges` | src/drives.rs:52-55 | a drive object that arrives after a placeholder yields a drive at its path with the record's metadata and every block that arrived earlier |
| `Service.ServiceDrivesBlockCount` | src/drives.rs:80-90 | the number of blocks over all drives equals the number of block objects |
| `Service.BlocksForShape` | src/drives.rs:66-78 | every block a drive collects names that drive as its owner, is not mounted (`mount = None`, `mounted = false`), has no NUL in its device node, and comes from one block object |
| `Service.BlockBeforeDrive` | src/drives.rs:80-90 | a block that arrives before its drive, then that drive's record, gives one drive with the record's metadata holding the block, with its device node NUL-stripped |
| `Reconcile.ApplyMountTable` | src/drives.rs:109-129 | the loop over mount records returns `AttachMounts(service, mounts)` and the fstab drive holding `OrphanBlocks(service, mounts)`, with the service drives' layout unchanged |
| `Reconcile.AttachMountsLayout` | src/drives.rs:114-116 | enrichment adds no drive or block and changes no field except blocks' `mount` and `mounted` |
| `Reconcile.AttachMountsEffect` | src/drives.rs:110-116 | a block takes the mount path and flag of the last mount record for its device node if it is the first block with that node, and is otherwise unchanged |
| `Reconcile.OrphanBlocksCount` | src/drives.rs:117-128 | the fstab drive gets one block per mount record that matches no device-service block |
| `Reconcile.OrphanBlocksMembers` | src/drives.rs:110-127 | a block is in the fstab drive exactly when it is the copy of some mount record matching no device-service block; only device-service drives are searched |
| `Reconcile.OrphanBlocksShape` | src/drives.rs:118-127 | fstab blocks have empty object path, label and size, owning-drive path `"fstab"`, and a device node that no device-service block has |
| `Reconcile.SortEachDriveBlocks` | src/drives.rs:133-135 | the loop sorts every drive's blocks by device node, keeping each drive's other fields and the multiset of its blocks |
| `Reconcile.SortDrivesThenBlocks` | src/drives.rs:132-135 | sorting drives and then each drive's blocks gives the same result as the other order |
| `Reconcile.ReconciledShape` | src/drives.rs:131-135 | the result has one drive more than the fold, is sorted by object path, has each drive's blocks sorted by device node, is a permutation of the merged drives (blocks sorted), and contains the fstab drive |
| `Reconcile.ReconciledBlockCount` | src/drives.rs:109-131 | the total block count is the fold's block count plus the number of unmatched mount records |
| `Reconcile.ReconciledUnique` | src/drives.rs:101-107 | if no device-service path is `"fstab"` (always so for D-Bus object paths, which start with `/`), no two drives of the result share an object path |
| `Reconcile.ReconciledBackReferences` | src/drives.rs:118-134 | in the result, every block's owning-drive path is the object path of the drive holding it |
| `Reconcile.OrphanMountScenario` | src/drives.rs:117-131 | with no device-service drives, a mount record for `sdb1` gives only the fstab drive, holding one block with that record's mount state and an empty label |
| `Reconcile.MatchedMountScenario` | src/drives.rs:110-116 | a mount record for an existing device-service block updates that block in place and adds no fstab block |
| `Reconcile.CollectAll` | src/drives.rs:97-138 | fails exactly when the fold fails, with its error; otherwise returns `Reconciled(...)`, which has one drive more than the fold, sorted drives and blocks, the fstab drive with all orphan blocks, the block count, and back-references |
| `Ordering.SortByKey` | src/drives.rs:132 | the result is sorted by key and is a permutation of the input; for every key, the elements with that key keep their input order (the sort is stable) |
| `Ordering.StableSortUnique` | src/drives.rs:134 | any sorted sequence that keeps each key's elements in input order equals `SortByKey`, so the library's stable sort has this same result |
| `Ordering.SortByKeyKeepsUnique` | src/drives.rs:132 | sorting keeps object paths unique |
| `Ordering.LexLeIsTotalOrder` | src/drives.rs:132 | the string order used as the sort key is reflexive, total, antisymmetric and transitive |
| `Control.EjectAddressesHoldingDrive` | src/drives.rs:166-177 | in the reconciled model, `eject` on any block addresses the object path of the drive holding it |
| `Control.ServiceBlockTargets` | src/drives.rs:140-170 | for a device-service block, even after enrichment, `mount` and `unmount` address its own block object and `eject` the drive that object names |
| `Control.OrphanTargets` | src/drives.rs:118-127 | for a mount-table-only block, `mount` and `unmount` address the empty path and `eject` addresses `"fstab"` |

## Left out

- The device-service client, its connection (`Client::new`), the object
  manager and all `async` plumbing are left out. They are foreign RPC. The
  enumerated objects are an input sequence with their properties already
  fetched. A failed connection is not modelled.
- `size_for_display` is a library formatting call. The size is an opaque
  string, empty when its fetch failed.
- `String::from_utf8_lossy` is left out. The device string is already
  decoded, and only the NUL filter is modelled.
- The mount-table reader (`mountpoints::MountPoint::collect`) is not part of
  this model. Its output is an input sequence of `MountRecord`s.
- The mount, unmount and eject actions themselves are left out, along with
  their options maps and failures (stale identity, no filesystem interface,
  not ejectable, busy). They are service calls. The model states only which
  object each operation addresses.
- `sort_by_cached_key` is a library call, modelled by its result: a stable
  sort, given as an insertion sort and proved to be the only stable result.
  Its key caching and its in-place algorithm are not modelled.
- Uniqueness of device nodes and full independence from arrival order are
  not claimed, because the code does not enforce them.
