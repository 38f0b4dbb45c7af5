# A verified model of the elf-csi-driver

The driver connects Kubernetes volumes to the Tower storage backend through the Container
Storage Interface. This project models its four stateful parts and proves what they keep
over whole runs, retries and interleavings.

- **Node service.** `NodeModel` gives stage, publish, unpublish and unstage as transitions
  of a mount table, a path tree, per-device formats and device data. `NodeServer` is the
  same service as methods that change the host step by step, each proved equal to its
  transition. `NodeRuns` proves properties of all runs of whole RPCs. `NodeSteps` cuts the
  RPCs into steps and proves that uninterrupted steps are the RPC again. `NodeSystem` lets
  the steps interleave, proves mount and delete safety over every interleaving, and shows
  that runs of whole RPCs are among them. `NodeData` and `NodeRace` say exactly when formats
  are write-once and data is safe; `NodePublish` proves where overlapping publishes land;
  `NodeRetry` says exactly when RPCs succeed and whether retries converge, `NodeExact` what
  they leave behind in the terms of the request.
- **Node registry.** `Registry` interleaves the reads and the version-checked writes of any
  number of nodes on one ConfigMap.
- **Controller.** `Tower` and `TowerRuns` treat volumes, disks and labels, one RPC at a time
  with failures anywhere; `TowerExact` says exactly when each succeeds and what it leaves;
  `Controller` holds the methods. `TowerSteps`, `TowerSystem` and
  `TowerRace` cut the RPCs into steps and say exactly which overlaps break a promise.
  `Attach` interleaves publish and unpublish calls under the hashed per-node lock.
- **Map decoder and bounded loops.** `Unmarshal` is the tag language and the typed field
  loop. `Waiting` holds waitTask, Retry, the resize loop and the device search, `Sizes` the
  size arithmetic and the capability checks, `Text` and `Words` the string functions and
  machine integers they share.

## Assumptions

Every external call takes its outcome from a parameter (`Faults`, `Outcome`, `Effect`,
`Query`, or a function from the number of the call to its answer), so a lemma over all
values covers failures anywhere, also those that leave an effect behind.

- The mount-point check is accurate. RPCs on one path do not overlap; node.go itself has no
  locks. No path in use lies below another one in use. RPCs on different paths overlap
  freely, also when they found the same device.
- A bind mount shows its source's device and type with the options given, and may stay
  behind when its option remount fails. mkfs may fail after it wrote to the device, leaving
  any format or none. The library's format-and-mount skips formatted disks and, on a blank
  disk, looks for "ro" in the mount options.
- Whether mkfs writes over a formatted disk depends on the type: the driver forces mkfs.ext4
  and does not force mkfs.xfs. The results on formats take the set `refuses` of types whose
  mkfs leaves a formatted disk alone as a parameter and hold for every such set. The safety
  results allow any write by a workload at any time; the runs that show a loss are plausible
  ones, in which a workload writes through a mount that is not read-only and mkfs runs only
  on a disk that no mount reaches.
- The API server refuses a write with a stale resource version, and a write that changes the
  data moves the version forward. JSON is known by its round trip only. Nobody but the
  drivers writes the ConfigMap.
- A backend change takes effect no later than its wait returns, or never; label creation,
  which is not awaited, no later than its call returns. `Mounting` is true exactly when the
  volume has a disk. The backend issues unused identifiers. The races need a backend that does
  not refuse what the driver asks for: a second attachment of an attached volume
  (`OneDiskExactlyWhenOneLock`), a second volume or label of one name (`NamesDistinctExactly`,
  `OneLabelExactly`), the deletion of an attached volume (`NoOrphansExactly`).

## Where the code does less than one might expect

- Repeating a successful filesystem publish fails with AlreadyExists when it was read-only
  and flagged "rw", or when its type differs from the staged one (`RepeatPublish`).
- A stage request without access type succeeds once; its repeat dereferences a nil
  capability (`RepeatOthers`).
- One disk per volume holds in every sequential run, and in every concurrent run exactly
  when all nodes share one lock; otherwise two publishes can race (`OneDiskExactlyWhenOneLock`).
- A successful publish means a disk on the node asked for exactly when the volume had no disk
  on another node; a volume attached elsewhere is reported as published
  (`PublishReachesNodeExactly`).
- Formats are write-once, and data on formatted devices is safe, exactly when of two
  filesystem stages on different paths that can format and find one device, neither has a
  type whose mkfs writes over a format. Otherwise one can see the device blank, wait while
  the other formats and mounts it, a workload writes and the mount goes, and then run mkfs
  (`WriteOnceExactlyWhenApart`, `FormatRace`).
- Volume names are distinct under overlapping calls exactly when no two creations of one
  lower-cased name overlap; the cluster has one label exactly when no two creations overlap;
  no disk outlives its volume exactly when no deletion overlaps a publish of that volume.
  The driver has no lock against any of the three (`NamesDistinctExactly`,
  `OneLabelExactly`, `NoOrphansExactly`).
- CreateVolume reports an existing volume of the name whatever its size: a success covers the
  request exactly as `CoveredExactly` says.
- After a filesystem publish whose option remount failed, every retry answers AlreadyExists
  unless no flag but "bind" was asked for and the type is the staged one; an unpublish
  clears the way (`HalfPublishRetry`, `UnpublishRecovers`).
- A filesystem publish whose staging path exists but is not mounted succeeds, with a
  directory of the host (`PublishReaches`).
- A successful read-only publish leaves a read-only mount exactly when its target was not
  already mounted read-write (`ReadOnlyExactly`).
- The size given to the backend wraps negative for requests above 2^63 - 2^30 bytes
  (`SizeIsLeastMultiple`, `CreatedAsRequested`).
- A blank disk staged with "ro" is formatted as ext4 or xfs all the same (`BlankReadOnly`).

## Model

| member | source | states |
|---|---|---|
| `NodeSteps.StepsAreExec` | pkg/driver/node.go:90-389 | the steps of an RPC, run without interruption, end in the state and status of the whole RPC, for every fault |
| `NodeSystem.RunIsSysRun` | pkg/driver/node.go:238-389 | every run of whole RPCs and workload writes is the interleaving in which each RPC takes its turns in a row |
| `NodeSystem.InterleavingsAreSafe` | pkg/driver/node.go:90-300 | in every interleaving of RPC steps, serialised per path on prefix-free paths, with failures anywhere, no path in use gets a second mount, and a recursive delete about to run has nothing mounted at or below it |
| `NodeSystem.DeleteChangesNoData` | pkg/driver/node.go:281-297 | in every such interleaving the recursive delete changes no device's data |
| `NodeSystem.DeleteIsSafe` | pkg/driver/node.go:281-297 | the same after any run of whole RPCs |
| `NodeData.InterleavedData` | pkg/utils/mount.go:71-126 | from a point where no stage is about to format the device, a formatted device, or one no filesystem stage finds, keeps its format and holds exactly what its workload wrote last, in every interleaving |
| `NodeData.ApartIsSafe` | pkg/utils/mount.go:71-94 | if of two stage requests on different paths that can format and find one device neither has a type whose mkfs writes over a format, then in every run of such requests with any other RPCs, faults and writes a device, once formatted, keeps its format and holds what its workload wrote last |
| `NodeRace.FormattedIsSafeExactly` | pkg/utils/mount.go:71-94 | at any point of any interleaving a formatted device keeps format and data in every plausible continuation if no stage that saw it blank is about to run an mkfs that writes over a format; also only if, where the device holds data and no mount reaches it |
| `NodeRace.WriteOnceExactlyWhenApart` | pkg/utils/mount.go:71-126 | for every set of types whose mkfs refuses a formatted disk: over all plausible runs of a set of stage requests with any other RPCs and faults, formats are write-once, and likewise formatted data is safe, if and only if of two requests on different paths that can format and find one device neither has a type whose mkfs writes over a format |
| `NodeRace.FormatRace` | pkg/utils/mount.go:72-126 | for any two requests that break this condition, a plausible run in which the format is gone after it was set and what the workload wrote through a mount is lost |
| `NodeData.RunData` | pkg/driver/node.go:238-389 | in every run of whole RPCs a formatted device keeps its format and holds what its workload wrote last |
| `NodeData.ExecKeepsFormatted` | pkg/driver/node.go:238-389 | one RPC, failing anywhere, keeps the mount invariant and every formatted device |
| `NodePublish.PublishesLand` | pkg/driver/node.go:156-199 | in every interleaving in which the staging path is not unmounted, its mount stays and every filesystem publish from it that succeeds on the way leaves its target on the staged device with the flags asked for, whatever was published from there before |
| `NodePublish.StageLeavesMount` | pkg/driver/node.go:201-236 | the step with which a filesystem stage succeeds, amid other RPCs, leaves the device it found mounted with the type and flags asked for |
| `NodePublish.StagedThenPublished` | pkg/driver/node.go:156-236 | from that step on, in every interleaving without the unstage, every successful publish from the staging path lands on the device staged |
| `NodeRetry.StageSucceedsExactly` | pkg/driver/node.go:201-269 | a stage succeeds if and only if its arguments are valid, its device is found, no call it makes fails, its path can be made, and the path already shows what is asked for or is unmounted with a device that is formatted or may be |
| `NodeRetry.PublishSucceedsExactly` | pkg/driver/node.go:90-199 | the same for a publish: its calls do not fail, the target can be made and, if mounted, shows what is asked for, and the staging path exists |
| `NodeRetry.UnmountSucceedsExactly` | pkg/driver/node.go:271-300 | an unpublish or unstage succeeds if and only if its arguments are valid and its path does not exist, or no call fails and everything at or below it can be deleted |
| `NodeRetry.UnmountSucceeds` | pkg/driver/node.go:271-300 | one in which no call fails always succeeds, removes the path and its mount, and changes no device |
| `NodeRetry.RunKeepsRooted` | pkg/driver/node.go:238-389 | in every run of whole RPCs, mounts on paths in use sit on paths that exist |
| `NodeRetry.PublishReaches` | pkg/driver/node.go:168-199 | a filesystem publish that mounted reaches the device mounted at its staging path, or the host where nothing is mounted there |
| `NodeRetry.StageConverges` | pkg/driver/node.go:201-269 | after any number of attempts of a block or filesystem stage, failing anywhere, a fault-free one that finds the same device succeeds if and only if it would have succeeded at first |
| `NodeRetry.HalfPublishRetry` | pkg/driver/node.go:120-199 | after a publish whose option remount failed, a retry changes nothing and succeeds exactly when the type is the staged one and no flag but "bind" was asked for |
| `NodeRetry.UnpublishRecovers` | pkg/driver/node.go:271-300 | after an unpublish the same publish succeeds |
| `NodeExact.StagingIs` | pkg/driver/utils.go:129-131 | a volume is staged in the directory of its own name, or of its last piece, below the path given; "." and "/" give that path and ".." the one above |
| `NodeExact.StagedApart` | pkg/driver/utils.go:129-131 | two volumes with different plain ids are staged on paths neither of which lies below the other |
| `NodeExact.StagedWhere` | pkg/driver/node.go:238-269 | after a successful stage of a volume with a plain id, the directory of its name is mounted |
| `NodeExact.UnstagedWhere` | pkg/driver/node.go:302-323 | after a successful unstage that directory is gone and nothing outside of it |
| `NodeExact.FirstAtIs` | pkg/utils/mount.go:160-166 | the mount looked up is the first row at the path |
| `NodeExact.TopAtIs` | pkg/driver/node.go:281-290 | an umount removes the last row at the path and no other |
| `NodeExact.BlockStageMounts` | pkg/driver/node.go:90-118 | a block stage that mounts adds one writable row for the raw device and changes no device |
| `NodeExact.BlockPublishMounts` | pkg/driver/node.go:356-357 | a block publish that mounts adds one row for the raw device found, read-only exactly when the request says so |
| `NodeExact.FsPublishMounts` | pkg/driver/node.go:156-199 | a filesystem publish that mounts adds one row with the device, type, root and data of its staging path and the flags asked for, read-only exactly when the request or its flags say so |
| `NodeExact.FsStageMounts` | pkg/utils/mount.go:96-126 | a filesystem stage that mounts adds one row with the device found, the type asked for, ext4 by default, and the flags asked for, "nouuid" behind them for xfs; a blank device gets that type, a formatted one and all others are left alone |
| `NodeExact.FailedMkfs` | pkg/utils/mount.go:71-94 | a stage whose mkfs fails reports an error and mounts nothing; an mkfs that ran partly leaves an empty device, one that did not run leaves it as it was |
| `NodeExact.DropIs` | pkg/utils/mount.go:54-69 | "rw" and "ro" are dropped and every other option stays, in order |
| `NodeExact.HalfStays` | pkg/driver/node.go:90-199 | a bind mount whose option remount failed is an error and stays behind with "bind" alone |
| `NodeExact.DeleteDestroys` | pkg/driver/node.go:292-297 | a recursive delete destroys the data of every device mounted at or below the path and of no other |
| `NodeExact.MakesDirs` | pkg/driver/utils.go:149-170 | a directory made brings all missing ones above it and nothing else; a failure leaves exactly those made before it |
| `NodeExact.BadRequests` | pkg/driver/node.go:238-389 | the status of each request with a missing argument or an unknown device, which changes nothing |
| `NodeExact.StageConflicts` | pkg/driver/node.go:73-154 | a stage on a path of the wrong kind or mounted otherwise answers AlreadyExists and changes nothing |
| `NodeExact.PublishConflicts` | pkg/driver/node.go:73-154 | the same for a publish |
| `NodeExact.FailureLeavesMounts` | pkg/driver/node.go:90-236 | a stage or publish that fails leaves the mount table as it was, unless an option remount failed |
| `NodeRuns.RunKeepsInv` | pkg/driver/node.go:238-389 | every run of whole RPCs keeps at most one mount per path in use and none below it |
| `NodeRuns.ExecMounts` | pkg/driver/node.go:238-389 | an RPC changes the mount table on its own path only, by one mount more on an unmounted path or one mount less |
| `NodeRuns.TopIsFirst` | pkg/utils/mount.go:148-167 | without stacked mounts, the row the driver reads is the mount in force |
| `NodeRuns.StageMounts` | pkg/driver/node.go:201-236 | a successful filesystem stage leaves its device mounted with the requested type and flags, formatted with that type if it was blank |
| `NodeRuns.PublishEntry` | pkg/driver/node.go:156-199 | the entry a successful filesystem publish leaves, whether it mounted or found a mount |
| `NodeRuns.PublishLandsOnStagedDevice` | pkg/driver/node.go:325-368 | after a successful filesystem stage and any run without its unstage, a successful publish leaves the target on the staged device with every requested flag, except "rw" when it mounted read-only, in which case "ro" is there |
| `NodeRuns.BlockIsMounted` | pkg/driver/node.go:90-118 | a successful block stage or publish leaves a mount of that device node, read-only exactly when asked if it did the mounting |
| `NodeRuns.ReadOnlyExactly` | pkg/driver/node.go:73-199 | a read-only publish that succeeds leaves a read-only mount if and only if the target was unmounted before or mounted read-only |
| `NodeRuns.RepeatPublish` | pkg/driver/node.go:120-199 | repeating a filesystem publish that mounted changes nothing and succeeds exactly when the type is the staged one and it is not both read-only and flagged "rw" |
| `NodeRuns.RepeatOthers` | pkg/driver/node.go:73-118 | repeating a stage, block publish, unpublish or unstage changes nothing and succeeds, except a stage without access type |
| `NodeRuns.UnpublishUndoesPublish` | pkg/driver/node.go:325-389 | publish followed by unpublish restores the mount table |
| `NodeRuns.BlankReadOnly` | pkg/utils/mount.go:71-126 | with "ro" among the mount options a blank disk is formatted for ext4 and xfs and left blank for other types |
| `NodeServer.IsMountReadOnly` | pkg/utils/mount.go:44-52 | true exactly when "ro" is an option |
| `NodeServer.MakeReadOnlyMountOpts` | pkg/utils/mount.go:54-69 | no "rw" is left, "ro" is there, every other option is kept, in the order of the specification |
| `NodeServer.CheckMountFlags` | pkg/driver/utils.go:133-147 | true exactly when every expected flag is among the actual ones |
| `NodeServer.Server.GetMountPoint` | pkg/utils/mount.go:128-167 | fails exactly when the path cannot be resolved or the table cannot be read, else returns the first row at the path, if any |
| `NodeServer.Server.ScanMounts` | pkg/utils/mount.go:160-166 | the scan finds the first row at the path, and finds one exactly when there is one |
| `NodeServer.Server.CreateDir` | pkg/driver/utils.go:149-170 | performs the CreateDir transition, including partly made parents |
| `NodeServer.Server.CreateFile` | pkg/driver/utils.go:172-195 | performs the CreateFile transition |
| `NodeModel.CreateDir` | pkg/driver/utils.go:149-170 | touches only the path tree; success means the path is a directory |
| `NodeModel.CreateFile` | pkg/driver/utils.go:172-195 | touches only the path tree; success means the path is a file |
| `NodeServer.Server.DetectBlockVolumeConflict` | pkg/driver/node.go:73-88 | computes the block conflict status |
| `NodeServer.Server.DetectMountVolumeConflict` | pkg/driver/node.go:120-154 | computes the filesystem conflict status from device, type and flags |
| `NodeServer.Server.MountBlockVolume` | pkg/driver/node.go:90-118 | performs the block mount transition |
| `NodeServer.Server.BindMountVolume` | pkg/driver/node.go:156-199 | performs the bind mount transition |
| `NodeServer.Server.MountMountVolume` | pkg/driver/node.go:201-236 | performs the filesystem mount transition |
| `NodeServer.Server.FormatIfBlank` | pkg/utils/mount.go:71-94 | formats a blank disk only, with every outcome of mkfs |
| `NodeServer.Server.FormatAndMount` | pkg/utils/mount.go:96-126 | performs the format-and-mount transition |
| `NodeServer.Server.UnmountVolume` | pkg/driver/node.go:271-300 | performs the unmount transition, recursive delete included |
| `NodeServer.Server.Serve` | pkg/driver/node.go:238-389 | each of the four RPCs performs its transition; mounts do not come to stack and every formatted device keeps its format and data; a staged volume is mounted in the directory of its name, a published raw device is read-only exactly when asked |
| `Text.BaseOfRooted` | pkg/driver/node.go:82 | the base name of a bind mount's root is the device's base name, so the conflict check accepts its own mount |
| `Text.BaseIs` | pkg/driver/utils.go:129-131 | the base name is "." for the empty text, "/" for slashes only, else the last piece between slashes |
| `Registry.Serialisable` | pkg/driver/node_map.go:34-69 | in every interleaving the stored map is what the committed writes, each setting its own key, leave one after another |
| `Registry.NoLostUpdate` | pkg/driver/node_map.go:34-69 | the last commit of a registration that reported success is its entry, also after unacknowledged attempts, and its key decodes to that entry in every later state until the key is committed again after that |
| `Registry.OtherKeysKept` | pkg/driver/node_map.go:60-62 | a key changes only when a registration of that key commits |
| `Registry.CommitKeepsInv` | pkg/driver/node_map.go:60-69 | an accepted write puts back a copy of exactly what is stored, plus its own key |
| `Registry.ConflictMeansProgress` | pkg/driver/node.go:50-54 | a stale version implies that another node committed since the read |
| `Registry.GivingUp` | pkg/driver/node.go:47-56 | a registration that gave up met five failures, and others committed at least as often since it began as it met conflicts |
| `Registry.PeaceSucceeds` | pkg/driver/node_map.go:34-69 | in every reachable state in which a node is about to read, if the read works, nobody commits before its write and the write is answered, the registration ends with success, its key holds the entry and the log gains its commit |
| `Registry.FetchExactly` | pkg/driver/node_map.go:34-53 | a read hands over what is stored unless it fails or an old entry does not decode, which counts as an error |
| `Registry.UpdateExactly` | pkg/driver/node_map.go:60-69 | a write is applied exactly when it is not lost and its version is current, and ends in success exactly when it is then acknowledged; which failures count as conflicts |
| `Registry.FailedAttempts` | pkg/utils/utils.go:17-29 | a failed attempt is followed by another one, up to the fifth |
| `Registry.NodeMap.Put` | pkg/driver/node_map.go:34-69 | with other nodes' writes landing in between, success adds the key to what is then stored, failure adds nothing unless unacknowledged; exactly when it succeeds |
| `Registry.NodeMap.Get` | pkg/driver/node_map.go:71-92 | returns the decoded entry exactly when the read works, the key is there and its bytes decode |
| `Registry.NodeMap.Register` | pkg/driver/node.go:36-57 | succeeds if and only if one of the first five attempts meets the conditions of Put, and stops at the first that does; then the key decodes to the entry; every other key is as the other nodes' writes left it |
| `TowerRuns.RunKeepsInv` | pkg/driver/controller.go:53-449 | in every sequential run with failures anywhere, the driver's volumes have distinct lower-case names, no volume has two disks, no disk outlives its volume |
| `TowerRuns.CreateKeeps` | pkg/driver/controller.go:53-151 | CreateVolume, failing anywhere, keeps the invariant, adds no duplicate name or label and leaves settled volumes settled |
| `TowerRuns.SuccessSettles` | pkg/driver/controller.go:75-94 | a success leaves exactly one volume of the name, carrying the one cluster label |
| `TowerRuns.FaultFreeSucceeds` | pkg/driver/controller.go:53-151 | from any state, whatever failed attempts left behind, an attempt with valid arguments and no failing backend call succeeds |
| `TowerRuns.RepeatChangesNothing` | pkg/driver/controller.go:96-112 | once settled, a repeat changes nothing and returns the same identifier and size exactly when its arguments are valid and its two queries are answered, else an error |
| `TowerRuns.CreateConverges` | pkg/driver/controller.go:53-151 | after any RPCs failing anywhere a fault-free attempt succeeds; the first success settles the name; after any further RPCs short of its deletion a repeat changes nothing and returns the same identifier and size exactly when its arguments are valid and its queries are answered |
| `TowerRuns.CreatedAsRequested` | pkg/driver/controller.go:129-138 | a volume created by the call has the needed sharing, is less than 2^30 above the request, and covers it exactly when the request is at most 2^63 - 2^30 |
| `TowerRuns.FoundAsItIs` | pkg/driver/controller.go:109-111 | a success on a volume found by name reports that volume with the size and sharing it has |
| `TowerRuns.CoveredExactly` | pkg/driver/controller.go:96-138 | every success covers the request if and only if each volume that bears the name is large enough, or there is none and the request is at most 2^63 - 2^30 |
| `TowerRuns.ReconcileLabels` | pkg/driver/controller.go:590-667 | a reconciled label is the cluster's and is on the volume, whose name and size are unchanged |
| `TowerRuns.PublishAttaches` | pkg/driver/controller.go:226-294 | a publish that reports success leaves the volume with exactly one disk |
| `TowerRuns.PublishReachesNodeExactly` | pkg/driver/controller.go:226-294 | a publish that reports success leaves a disk on the node asked for if and only if the volume had no disk on another node |
| `TowerRuns.DoneMeansDone` | pkg/driver/controller.go:405-449 | unpublish success means no disk of the volume on the node and touches no other disk; delete success removes that volume and no other |
| `TowerExact.UnpublishSucceedsExactly` | pkg/driver/controller.go:365-449 | an unpublish succeeds if and only if its arguments are valid, the disk query is answered, and the volume has no disk on the node or the disk named has an id and its removal is reported done; what it changes |
| `TowerExact.UnpublishSkips` | pkg/driver/controller.go:423-426 | unpublishing a volume without a disk on the node succeeds and changes nothing |
| `TowerExact.RepeatUnpublish` | pkg/driver/controller.go:405-449 | after a successful unpublish and any RPCs that do not publish the volume, a repeat with the query answered succeeds and changes nothing |
| `TowerExact.PublishSucceedsExactly` | pkg/driver/controller.go:153-294 | a publish succeeds if and only if its arguments are valid, the node is reachable, the volume is listed, and it has a disk already or the VM is found and the attachment is reported done; what it changes |
| `TowerExact.RepeatPublish` | pkg/driver/controller.go:226-294 | repeating a successful publish, with the volume still listed, succeeds and changes nothing |
| `TowerExact.DeleteSucceedsExactly` | pkg/driver/controller.go:325-363 | a deletion succeeds if and only if the volume is listed, has no disk, and its removal is reported done; what it changes |
| `TowerExact.CreateSucceedsExactly` | pkg/driver/controller.go:53-151 | a creation succeeds if and only if its arguments are valid, volume and label are each found or made, and the volume carries the label or its addition is reported done; which volume it reports |
| `TowerExact.CreateLeaves` | pkg/driver/controller.go:53-151 | whatever fails, a creation adds the volume asked for exactly when its creation takes effect, and leaves disks and the other volumes alone |
| `TowerExact.LabelLeaves` | pkg/driver/controller.go:590-667 | what reconciling a label changes, for every outcome of its calls |
| `TowerExact.UnseenVolumeIsFound` | pkg/driver/controller.go:96-151 | a volume made behind a failed call is the one the next success reports |
| `TowerRuns.UnpublishUndoesPublish` | pkg/driver/controller.go:226-294 | publish followed by unpublish restores the backend |
| `Tower.ToLower` | pkg/driver/controller.go:56 | each capital letter becomes its small one and every other character stays |
| `TowerRuns.ToLowerIdempotent` | pkg/driver/controller.go:56 | lower-casing a volume name twice is lower-casing it once |
| `Controller.Server.CreateVmVolume` | pkg/driver/controller.go:96-151 | performs the find-or-create transition |
| `Controller.Server.UpsertLabel` | pkg/driver/controller.go:590-623 | performs the find-or-create label transition |
| `Controller.Server.ReconcileVolumeLabel` | pkg/driver/controller.go:625-667 | the label scan and the label addition perform the reconcile transition |
| `Controller.Server.CreateVolume` | pkg/driver/controller.go:53-94 | performs the CreateVolume transition; success settles the name |
| `Controller.Server.PublishVolumeToVm` | pkg/driver/controller.go:226-294 | performs the publish transition; success leaves one disk, on this node exactly when there was none elsewhere |
| `Controller.Server.UnpublishVolumeFromVm` | pkg/driver/controller.go:405-449 | performs the unpublish transition; a volume without a disk on the node is a success that changes nothing; success leaves no disk of the volume on the node, other disks stay |
| `Controller.Server.DeleteVolume` | pkg/driver/controller.go:335-363 | performs the delete transition; success removes the volume, other volumes stay |
| `Controller.Server.Serve` | pkg/driver/controller.go:153-403 | each RPC checks its arguments, performs its transition and keeps the lifecycle invariant |
| `Attach.AtMostOneDiskPerNode` | pkg/driver/controller.go:186-194 | in every interleaving and for every hash, from any state without two disks of one volume on one node, no volume gets two disks on one node |
| `Attach.AtMostOneDiskPerLock` | pkg/driver/controller.go:186-194 | likewise for the nodes that share a lock |
| `Attach.MutualExclusion` | pkg/driver/controller.go:392-400 | two calls inside the section of one lock are the same call |
| `Attach.OneDiskExactlyWhenOneLock` | pkg/driver/controller.go:226-294 | from every idle state without two disks of one volume, no interleaving of calls for a set of nodes gives a volume two disks, if and only if those nodes share one lock |
| `Attach.Race` | pkg/driver/controller.go:243-293 | for any two nodes with different locks and any volume without a disk, a run that gives it two |
| `Attach.AloneIsExec` | pkg/driver/controller.go:226-449 | a publish or unpublish call that nothing interrupts does to the disks what its transition in Tower does, for every behaviour of the backend, and gives its lock back |
| `TowerSteps.StepsAreExec` | pkg/driver/controller.go:53-449 | the steps of a controller RPC, run without interruption, end in the state and result of the whole RPC, for every fault |
| `TowerRace.NamesDistinctExactly` | pkg/driver/controller.go:96-151 | the driver's volume names stay distinct in every interleaving, whatever fails, if and only if no two creations of one lower-cased name may overlap |
| `TowerRace.OneLabelExactly` | pkg/driver/controller.go:590-623 | the cluster has at most one label object in every interleaving if and only if no two creations may overlap |
| `TowerRace.NoOrphansExactly` | pkg/driver/controller.go:335-363 | no disk outlives its volume in any interleaving if and only if no deletion may overlap a publish of that volume |
| `TowerRace.NameRace` | pkg/driver/controller.go:104-138 | for any two such creations, a run that makes two volumes of one name |
| `TowerRace.OrphanRace` | pkg/driver/controller.go:335-363 | for any such deletion and publish, a run that leaves a disk without its volume |
| `TowerSystem.RunKeepsNames` | pkg/driver/controller.go:96-151 | under such a policy, a creation that saw no volume of its name still has none of the driver's when it creates |
| `TowerSystem.RunKeepsDisks` | pkg/driver/controller.go:226-363 | under such a policy, a deletion under way still has its volume without a disk, and a publish under way still has its volume |
| `Waiting.WaitTask` | pkg/driver/controller.go:669-709 | stops at the first poll after which it may not go on, within 121 polls, within 13 when the task is never found; nil exactly without a task or on success seen; a success that comes while a pending task is at most ten minutes old, and a missing one at most one, is seen |
| `Waiting.Retry` | pkg/utils/utils.go:17-29 | stops at the first success within the limit; nil exactly when the last call succeeded |
| `Waiting.ResizeBlock` | pkg/utils/resizer.go:57-78 | at most fifteen rescans, success exactly when the last one read a size at least the volume's |
| `Waiting.Expand` | pkg/driver/node.go:456-478 | a file system grows only behind a rescan that read the full size; exactly when the call succeeds |
| `Waiting.FindDevice` | pkg/driver/node.go:503-541 | the loop returns the last listed device whose reported serial is a prefix of the volume's; exactly when it fails |
| `Waiting.OwnDeviceOnly` | pkg/driver/node.go:517-535 | with truncated serials that differ within the reported length, a listed device matches exactly when it is the volume's own |
| `Waiting.GetVolumeDevice` | pkg/driver/node.go:481-542 | an error exactly when a query fails, there is no disk or serial, or nothing matches; else the last match |
| `Waiting.FindOwnDevice` | pkg/driver/node.go:499-541 | under those conditions the search returns the volume's own device, in any listing order |
| `Sizes.SizeIsLeastMultiple` | pkg/driver/utils.go:33-48 | every accepted int64 pair gives the least positive multiple of 2^30 at or above its request, without wrap-around; the signed size is exact if and only if the request is at most 2^63 - 2^30 |
| `Sizes.RoundUpMonotoneIdempotent` | pkg/driver/utils.go:21-31 | rounding is monotone and idempotent |
| `Sizes.CheckVolumeCapabilities` | pkg/driver/utils.go:50-92 | accepts exactly the non-empty lists of acceptable capabilities |
| `Sizes.CheckNeedSharing` | pkg/driver/utils.go:229-249 | the scan that stops at the first sharing mode computes NeedSharing |
| `Sizes.AcceptedSharing` | pkg/driver/utils.go:221-249 | an accepted list always gets an answer: whether some capability is multi-node; each such capability is a block one |
| `Sizes.SharingExactly` | pkg/driver/utils.go:229-249 | on any list, an error exactly when a capability without a known mode comes before every multi-node one, else whether there is a multi-node one |
| `Sizes.AcceptableExactly` | pkg/driver/utils.go:50-92 | the modes and file systems accepted |
| `Sizes.SharingIgnoresOrder` | pkg/driver/utils.go:229-249 | the answer does not depend on the order of an accepted list |
| `Unmarshal.UnmarshalMap` | pkg/utils/unmarshal_map.go:86-178 | on success every field has its specified value; on failure the first failing field's error, earlier fields set, later ones untouched, the failing one at most allocated |
| `Unmarshal.SetField` | pkg/utils/unmarshal_map.go:111-173 | one turn of the loop gives the field its specified value and error and leaves the others alone |
| `Unmarshal.RoundTrip` | pkg/utils/unmarshal_map.go:122-170 | printing a struct of strings, booleans and in-range integers and unmarshalling it gives the struct back |
| `Unmarshal.FieldRoundTrip` | pkg/utils/unmarshal_map.go:122-170 | the same for one field, through a nil pointer too |
| `Unmarshal.WidthIsEnforced` | pkg/utils/unmarshal_map.go:143-156 | a decimal is accepted for an integer field exactly when it fits the field's width |
| `Unmarshal.IntegerExactly` | pkg/utils/unmarshal_map.go:143-156 | an integer field takes exactly the texts that are digits, behind at most one sign for signed kinds, and denote a number in its range |
| `Unmarshal.DigitsExactly` | pkg/utils/unmarshal_map.go:143-156 | a number is a text of one or more digits and nothing else |
| `Unmarshal.LeadingZero` | pkg/utils/unmarshal_map.go:143-156 | leading zeros do not count |
| `Unmarshal.MalformedNumber` | pkg/utils/unmarshal_map.go:143-156 | any other character makes the text an error |
| `Unmarshal.Ranges` | pkg/utils/unmarshal_map.go:143-156 | the ranges of the eight integer kinds |
| `Unmarshal.BooleanExactly` | pkg/utils/unmarshal_map.go:164-170 | the twelve texts a boolean field takes, and as what |
| `Unmarshal.FieldExactly` | pkg/utils/unmarshal_map.go:135-173 | what a text does to a field of each kind, and which kinds are unsupported |
| `Unmarshal.PointerExactly` | pkg/utils/unmarshal_map.go:135-140 | a nil pointer is allocated and its element treated as a field of its kind |
| `Unmarshal.AllocatedAtRest` | pkg/utils/unmarshal_map.go:135-170 | a text that does not fit leaves a nil pointer allocated with a zero element |
| `Unmarshal.OptionIs` | pkg/utils/unmarshal_map.go:200-213 | an option answers to a name when it is that name, or that name, "=" and the value |
| `Unmarshal.ScanIs` | pkg/utils/unmarshal_map.go:195-213 | the first option that answers gives the value |
| `Unmarshal.TagRoundTrip` | pkg/utils/unmarshal_map.go:186-213 | parsing a printed tag returns the key and, for each name, the value of the first option so named |
| `Unmarshal.TaggedSource` | pkg/utils/unmarshal_map.go:52-133 | the map's value comes first, then the default; a required field without either is missing, any other is skipped |
| `Unmarshal.Get` | pkg/utils/unmarshal_map.go:195-213 | the option scan computes GetOption |
| `Text.SplitJoin` | pkg/utils/unmarshal_map.go:200 | splitting undoes joining of separator-free parts |
| `Text.JoinSplit` | pkg/utils/unmarshal_map.go:200 | joining undoes splitting |

## Left out

- Symbolic links, permissions and files hidden under a mount: the path tree holds kinds only.
- An inaccurate mount-point check, as for a bind mount within one file system.
- fsck before mounting, which the mount library does for formatted disks.
- Overlap of RPCs on one path: the driver has no lock against it.
- NodeRace.FormattedIsSafeExactly: the only-if half leaves out a device that is mounted or empty, because whether its mounts can go depends on the paths in use, and an mkfs of the same type on an empty device changes nothing.
- The node locks in `TowerSystem`: publish and unpublish overlap there as the policy says; `Attach` has the locks.
- ControllerExpandVolume, ValidateVolumeCapabilities, snapshots, listing, capacity and statistics: stubs or single branches.
- Liveness probing and node lookup before a publish: one outcome, reachable or not.
- The storage policy switch and the cluster query: one outcome, found or not.
- fakeMount, the mounter used by unit tests.
- Unmarshal.UnmarshalMap: does not model float fields, the receiver checks and pointer-to-pointer receivers, because the struct is given as field descriptors and values rather than through reflection.
- Unmarshal.SetField: does not model the float kinds of the switch, whose parsing is outside this model.
- Unicode in volume names and non-ASCII white space: lower-casing and trimming are ASCII.
- gRPC serving, flags, configuration, client construction and deployment files.
- Error message texts; only the kind of the status is kept, and for the controller only whether the call failed.
