# Power OpenStack Kubernetes volume driver: a verified model

The repository provisions OpenStack Cinder volumes for Kubernetes (`pkg/volume`) and attaches, mounts and removes them on
the nodes with a flex volume plugin (`cmd/flexplugin`, `pkg/utils`). This project models the parts of it that decide
something and proves what they keep, over all inputs, all runs and all interleavings. One module models one component;
`dafny verify dfyconfig.toml` checks all of them.

| module | what it models | form |
|---|---|---|
| `Text` | the functions of Go's `strings` and `bufio` that the driver uses, on bytes | functions and lemmas |
| `Base64`, `Config` | the configuration file that the setup script prints, and `loadConfigFile` that reads it into the environment | functions; classes `ConfFile` and `Environment` for what the two change |
| `Certificate` | `readCertificate`, which restores a flattened PEM bundle | functions and lemmas |
| `ScanLock`, `WaitForAttach` | the lock around SCSI scans: any number of processes as a state machine with a clock, and one process as two loops | state machine; method with loops |
| `MountDevice` | `mountDevice`, `HasFSOnVolumeDevice` and what they do to a disk | class `Kubelet`; runs of calls |
| `AttachDetach` | `attach`, `detach`, `isAttached` on the cloud: interleaved processes, one cloud call a step, and the sequential operations | state machine; class `Driver` |
| `MountTable`, `Discovery` | `GetDeviceOfMount`, discovery and teardown over sysfs, `unmountDevice` | methods with loops; class `Host` |
| `MapOrder`, `NovaLookup` | the VM indexes and `GetVMIDThruNova`, for every order of map iteration | methods with loops |
| `Provision` | `parseOptions`, `GetCinderVolume`, `Provision`, `Delete` and runs of the last two | class `Controller`; state machine |
| `DeviceNames` | `GetVolumeDirectoryName` and the name schemes | functions and lemmas, one method |
| `Lifecycle` | provisioner and node drivers interleaved on one cloud | state machine |

Conventions. A string is a sequence of bytes, one `char` each. Calls into the cloud, the kernel and commands appear as
answers: parameters or fields of an event, about which a lemma assumes no more than it says. Wherever the source
iterates over a Go map, the order is a parameter.

Results worth knowing before changing the code:

* The configured password reaches the driver if and only if it has no blank at its ends, at most 57 characters and no `>`, `?` or `~` at an
  index congruent to 2 modulo 3 (`Config.PasswordRoundTrip`): the script encodes with the standard alphabet (section 4 of
  RFC 4648), the driver decodes with the URL-safe one (section 5) and drops the error. `base64` wraps at 76 symbols, and a
  wrapped password can set one more variable, named by its last symbols (`Config.StrayNameIsForeign`).
* A flattened bundle is restored if and only if no base64 body line begins with `CERTIFICATE`
  (`Certificate.BundleRecovery`).
* Scans exclude each other only as long as nobody exhausts its 24 tries: `ScanLock.MutualExclusion`,
  `ScanLock.OverlapIsPossible`, `ScanLock.LongestOverlap`. The five-second margin is sharp: `ScanLock.LateWaiterGetsLock`,
  `ScanLock.EarlyWaiterMayMiss`.
* A sound disk that is mounted with its own type keeps its data if and only if the type contains an entry of `FSTYPES`:
  `MountDevice.SafeExactlyWhenRecognised`; ntfs does not (`MountDevice.NtfsIsForeign`).
* `GetVMIDThruNova` knows one address of each VM and agrees with the direct index exactly when no VM has two there:
  `NovaLookup.AgreesExactlyWhenSingle`.
* A failed listing of the servers is not an error: `attach` then succeeds with an empty device name
  (`DeviceNames.FailedListingIsHidden`).
* `detach` by name resolves to the volume that is live under the name, in every interleaving with the provisioner:
  `Lifecycle.DetachResolvesTheLiveVolume`.
* Storage-class parameters mean the same in every iteration order if and only if no two keys that are equal up to case
  ask for different values: `Provision.OrderIndependentExactly`.

Where comments, names and code disagree, the model follows the code: polls sleep three seconds, not two
(`pkg/utils/rest_utils.go:189-190`), and udevd is given four (`cmd/flexplugin/main.go:192-193`);
`fileInfo.Mode() != 0&os.ModeSymlink` compares the mode with zero (`cmd/flexplugin/main.go:197`); the message about
having got the lock is logged, and the scan made, without it too (lines 168-182); the result of `HasFSOnVolumeDevice` is
used when it comes with an error (line 224); the name of a multipath map is split index 2, which is `mapper`
(`pkg/utils/volume_utils.go:290`); `CreateVMIDToIPMap` replaces the list of a VM instead of extending it
(`pkg/utils/util.go:200-202`); a nil list hides an error (lines 193-194, 210-211), so `GetVMIDThruNova` never reports one and `GetVolumeDirectoryName` misses one;
`cloud.GetHypervisors` (line 236) is read as `ListHypervisors`; after 100 polls `GetCinderVolume` hands out a volume that
is still being created; `isAttached` reports an error of its query as "not attached".

## Model

| member | source | states |
|---|---|---|
| Base64.DecodeOfEncode | pkg/utils/rest_utils.go:497-499 | for every byte string, standard-alphabet encoding read by the URL-safe decoder gives exactly the bytes before the first three-byte group that has a symbol 62 or 63, and no error exactly when nothing is lost |
| Base64.EncodeAppend | cmd/flexplugin/setup-power-openstack-k8s-volume-flex.sh:32 | encoding distributes over concatenation at multiples of three bytes, which is why one line of wrapped output decodes by itself |
| Base64.AlphabetsAreStandard | pkg/utils/rest_utils.go:498 | encoder and decoder use the two alphabets of RFC 4648 (sections 4 and 5), letter for letter |
| Base64.DecodeOfEncodeUrl | pkg/utils/rest_utils.go:498 | what a URL-safe encoder writes is read back without loss, and text after whole groups is read as it would be by itself |
| Base64.BadStartEndsTheOutput | pkg/utils/rest_utils.go:498 | at a quantum that is cut short or has a bad symbol the decoder stops with an error and keeps exactly the whole groups before it |
| Base64.BreaksAreSkipped | pkg/utils/rest_utils.go:498 | a line break anywhere in the text does not change what is decoded |
| Config.Environment.LoadConfigFile | pkg/utils/rest_utils.go:480-505 | the line loop leaves the environment that the specification function `Load` assigns to the text of the file; a missing file changes nothing |
| Config.ConfFile.Write | cmd/flexplugin/setup-power-openstack-k8s-volume-flex.sh:29-44 | the file holds the five lines and, exactly when a certificate is configured, the appended sixth |
| Config.ConfigRoundTrip | pkg/utils/rest_utils.go:480-505 | reading what the script printed, for printable passwords of any length and all values (which may contain `=`) that fit on a line of the scanner and do not begin or end with non-ASCII characters: every plain variable gets its trimmed original, the password its recoverable prefix, a wrapped padded password one stray variable, every other variable keeps its value |
| Config.PasswordRoundTrip | cmd/flexplugin/setup-power-openstack-k8s-volume-flex.sh:32 | the driver's password is the configured one if and only if it has no blank at its ends, at most 57 characters and no `>`, `?`, `~` at an index congruent to 2 modulo 3 |
| Config.RecoveredPassword | pkg/utils/rest_utils.go:497-500 | otherwise it is the trimmed prefix before the first offending group, cut at 57 characters; the stray variable never overwrites it |
| Config.SafeLengthIsFirstOffence | pkg/utils/rest_utils.go:498-499 | that prefix has no offending character at such an index, and it ends where a group with one begins |
| Config.VariablesAfterwards | pkg/utils/rest_utils.go:490-503 | the variables present afterwards are those of before, those of the file and at most one stray one |
| Config.StrayNameIsForeign | cmd/flexplugin/setup-power-openstack-k8s-volume-flex.sh:32 | a stray variable appears if and only if the encoding is wrapped (57 characters or more) and padded; its name contains no underscore |
| Config.LastLineWins | pkg/utils/rest_utils.go:490-503 | in every file the last line that can set a variable decides its value, whatever refused lines follow it, and a variable that no line sets keeps its value |
| Config.LongLineHidesTheRest | pkg/utils/rest_utils.go:488-490 | a line of 65536 bytes or more has no effect, and neither has anything after it, however many lines precede it |
| Config.BlanksDoNotMatter | pkg/utils/rest_utils.go:492-500 | on every line, white space around name, equals sign and value is ignored, the name ends at the first equals sign, and a name in _ENC sets the variable without it to the decoded, trimmed value |
| Config.IgnoredLines | pkg/utils/rest_utils.go:492-494 | the lines that ask for nothing are exactly those without an equals sign and those that begin with one |
| Config.CertificateIsFound | cmd/flexplugin/setup-power-openstack-k8s-volume-flex.sh:41-44 | with a certificate configured, the driver is told the path of the copy that the script puts beside it, for every prefix |
| Certificate.ReplaceIsExchange | pkg/utils/rest_utils.go:474-476 | a left-to-right substring replacement of `c`+`w` by `d`+`w` changes `c` at exactly the positions where `w` follows |
| Certificate.RestoresPointwise | pkg/utils/rest_utils.go:474-477 | the three replacements in sequence are one length-preserving map: a space before CERTIFICATE stays, any other becomes a newline, a dot before CERTIFICATE becomes a space, the rest stays |
| Certificate.RestoringIsIdempotent | pkg/utils/rest_utils.go:474-477 | on every input, restoring twice is restoring once |
| Certificate.FixedPoints | pkg/utils/rest_utils.go:471-477 | a text is left alone if and only if all its spaces and none of its dots stand before CERTIFICATE |
| Certificate.RecoverableTexts | pkg/utils/rest_utils.go:471-477 | a text survives flattening and restoring if and only if it is such a fixed point without a newline before CERTIFICATE |
| Certificate.BundleRecovery | pkg/utils/rest_utils.go:471-477 | a PEM bundle of any number of blocks survives flattening if and only if no body line begins with CERTIFICATE |
| Certificate.IntactBundle | pkg/utils/rest_utils.go:471-477 | a bundle that was not flattened is unchanged |
| ScanLock.RunKeepsInv | cmd/flexplugin/main.go:162-216 | every run of any number of processes keeps the invariant: who owns the lock, tries used, the schedule of each process, and who is to blame for its refused tries |
| ScanLock.ScannersAreAccountedFor | cmd/flexplugin/main.go:168-182 | of two processes that scan at once, each owns the lock or was refused exactly 24 times, and at least one was refused 24 times |
| ScanLock.MutualExclusion | cmd/flexplugin/main.go:168-182 | scans exclude each other in every run in which nobody exhausts its tries, with arbitrary delays and crashes |
| ScanLock.OverlapIsPossible | cmd/flexplugin/main.go:168-182 | that condition is needed, with instantaneous commands as well as with slow ones: of two processes there is a run in which both scan |
| ScanLock.LongestOverlap | cmd/flexplugin/main.go:168-214 | with three contenders and instantaneous commands two processes can scan side by side for 120 seconds, the whole time that `TimeBound` allows a scan |
| ScanLock.OnlyTheOwnerUnlocks | cmd/flexplugin/main.go:178-179 | a live owner loses the lock by its own unlock only; the deferred unlock of a process without the lock removes nothing |
| ScanLock.TrySucceedsExactly | cmd/flexplugin/main.go:168-175 | in every run a try succeeds if and only if no other process is scanning under the lock; otherwise it counts as one more refused try |
| ScanLock.FoundDeviceFreesTheLock | cmd/flexplugin/main.go:178-214 | in every run a process is done exactly when it has found its device or ended its 24th scan; if it held the lock, any try then finds it free |
| ScanLock.TimeBound | cmd/flexplugin/main.go:168-193 | with instantaneous commands a process spends at most 120 s waiting, 120 s scanning, 240 s in all |
| ScanLock.WhoHeldItBack | cmd/flexplugin/main.go:168-175 | with any number of contenders, a process that scans without the lock was held back by one that took the lock no earlier than five seconds before it started |
| ScanLock.LateWaiterGetsLock | cmd/flexplugin/main.go:168-175 | with one other contender, a waiter that starts more than five seconds after the holder took the lock always scans under it |
| ScanLock.EarlyWaiterMayMiss | cmd/flexplugin/main.go:168-182 | for every head start of at most five seconds some run of a waiter ends up scanning without the lock |
| WaitForAttach.WaitForAttach | cmd/flexplugin/main.go:154-216 | tries fail until the first success or 24 times; the response is Success with device d if and only if one of the first 24 scans shows a file and the first such file has a mode bit and resolves to the non-empty d, and Failed otherwise; scans end at that sight or after 24; the sleep is exact and at most 240 s |
| WaitForAttach.ScansAreDetermined | cmd/flexplugin/main.go:182-214 | the number of scans, hence the response, is determined by what the scans show, whatever happened to the lock |
| MountDevice.HasFSOnVolumeDevice | pkg/utils/volume_utils.go:165-189 | a file system is found if and only if lsblk works and its trimmed, lower-cased output contains ext2, ext3, ext4, jfs, reiserfs, xfs or btrfs |
| MountDevice.RecognisedExactly | pkg/resources/constants.go:117-118 | the types that the other results call recognised are the texts that contain one of these seven |
| MountDevice.Kubelet.MountDevice | cmd/flexplugin/main.go:219-290 | the commands of a call in their order, written out: mkfs with the requested type or ext4, forced exactly for ext and ntfs types, mkdir, mount, and the second mkfs exactly when mount blames the superblock; what is then on every disk; and when the call succeeds |
| MountDevice.SuccessIsAMount | cmd/flexplugin/main.go:219-290 | a call succeeds if and only if the directory is made, the mount works and, on a device without a recognised file system, mkfs works; then the requested device is mounted where and in the mode requested, on the disk of before or on a fresh empty file system; the log only grows |
| MountDevice.FormatsExactlyWithReason | cmd/flexplugin/main.go:224-283 | one call formats a device if and only if lsblk failed, named no listed type, or mount blamed the superblock; at most twice; otherwise the disk is untouched |
| MountDevice.EveryFormatIsExplained | cmd/flexplugin/main.go:224-283 | in every run of mounts and unmounts a device is formatted if and only if some call had such a reason, and its disk is as before if none had |
| MountDevice.HealthyDiskIsSafe | cmd/flexplugin/main.go:224-283 | a healthy disk of a recognised type survives every run whose lsblk and mount answers are truthful, whatever is done to other devices |
| MountDevice.DefaultFormatIsKept | cmd/flexplugin/main.go:224-243 | after a successful call without a requested type on a device without a file system, the disk is an empty ext4 one, formatted once, and no run of truthful calls ever formats it again |
| MountDevice.ForeignDiskIsReformatted | cmd/flexplugin/main.go:226-243 | a disk of any other type is formatted once by each of its mounts, although lsblk reports it correctly, with any unmounts and any calls on other devices in between |
| MountDevice.SafeExactlyWhenRecognised | pkg/resources/constants.go:117-118 | in every run that mounts a sound disk at least once, with its own type, the disk keeps its data if and only if the type is recognised |
| MountDevice.NtfsIsForeign | pkg/resources/constants.go:118 | ntfs, for which the code has an option, is not recognised |
| MountDevice.RepairTakesTwoCalls | cmd/flexplugin/main.go:262-283 | on a recognised corrupt disk the first call formats once and fails; the next finds a healthy disk, formats nothing and succeeds exactly when mount does |
| MountDevice.RepairWithoutType | cmd/flexplugin/main.go:226-230 | with an empty type the repair runs the bare `/sbin/mkfs.`, because the default is chosen in the other branch only |
| AttachDetach.GetVolumeByMetadataProperty | pkg/utils/rest_utils.go:250-289 | succeeds if and only if all pages can be read and hold one volume in all, and then returns it, so index 0 is in range |
| AttachDetach.Driver.Attach | cmd/flexplugin/main.go:101-151 | attach ends at the first of its five calls that fails; volumes never change; the name is stored exactly from the third success on, one pair is added exactly from the fourth on, and nothing else changes |
| AttachDetach.Driver.Detach | cmd/flexplugin/main.go:322-360 | which stage is reached, by the pages, the VM and the call, as four equivalences; volumes and names never change, and just the pair of the one listed volume and the VM of the node goes, exactly on completion |
| AttachDetach.Driver.IsAttached | cmd/flexplugin/main.go:63-98 | fails exactly when the VM is not found; an error of the query is reported as "not attached" |
| AttachDetach.AttachAloneIsARun | cmd/flexplugin/main.go:101-151 | the sequential attach is the run of one process of the state machine without interference |
| AttachDetach.DetachAloneIsARun | cmd/flexplugin/main.go:322-360 | the same for detach |
| AttachDetach.RunKeepsInv | cmd/flexplugin/main.go:120-138 | every interleaved run keeps: stored names agree with the correspondence, a process past its update finds its name stored, a detach holds the volume of its name and the VM of its node |
| AttachDetach.DetachFindsTheVolume | cmd/flexplugin/main.go:328-339 | if names and volumes correspond one to one, then in every interleaved run, once an attach has stored its name, a query for the name lists exactly its volume, also after detaches on other nodes |
| AttachDetach.DetachTouchesOneAttachment | cmd/flexplugin/main.go:347-353 | a step of a detach changes no name and no volume, and removes exactly the pair of the volume of that name and the VM of that node, and that only when it completes |
| AttachDetach.SharedNameBlocksDetach | pkg/utils/rest_utils.go:283-286 | the condition is needed: with two volumes of one name every detach by it fails and changes nothing |
| AttachDetach.AttachmentFollowsCalls | pkg/utils/rest_utils.go:196-223 | in every run a volume is attached to a VM exactly when the last working call of any process for that volume and a node on that VM was an attach |
| AttachDetach.ResponseTellsEffect | cmd/flexplugin/main.go:109-144 | in every run from a state in which nobody has begun, despite interference, each operation has made exactly the changes its stage tells: attach none, the name, or the name and then the link to the VM of its node; detach one unlinking from that VM, or none; isAttached none |
| AttachDetach.CloudFollowsLog | cmd/flexplugin/main.go:109-144 | these changes are all there is: in every run volumes, names and attachments are what the logged changes make of those of before |
| AttachDetach.IsAttachedAgrees | pkg/utils/rest_utils.go:226-247 | in every run, whatever record the query returns (none, one without a VM, one of another VM), the report of isAttached agrees with the last working call for the pair if and only if the query works for a VM with an ID or the pair is not attached; it changes nothing |
| AttachDetach.DetachUndoesAttach | cmd/flexplugin/main.go:322-360 | a detach whose calls work after a complete attach completes if and only if no other volume carries the name; then just the pair is gone, otherwise nothing changes |
| NovaLookup.CreateVMIPToVMDetailsMap | pkg/utils/util.go:208-232 | the nested loops fill the index that `LastOwnerWins` characterises; an error with a nil list is lost |
| NovaLookup.CreateVMIDToIPMap | pkg/utils/util.go:191-205 | the loop over the first index, in any order, fills the index that `IdIndexHolds` characterises; no error is ever reported |
| NovaLookup.GetVMIDThruNova | pkg/utils/util.go:174-188 | the search returns the specified lookup, and never an error |
| NovaLookup.LastOwnerWins | pkg/utils/util.go:215-231 | the index holds exactly the addresses with a last listed owner, and leads each to it |
| NovaLookup.IdIndexHolds | pkg/utils/util.go:199-203 | an ID is present exactly when some address leads to it, and then with exactly one of its addresses |
| NovaLookup.LookupExactly | pkg/utils/util.go:174-188 | for every list and all iteration orders the lookup returns the ID that the address index holds if that ID kept this very address, and the empty string otherwise |
| NovaLookup.LookupIsSound | pkg/utils/util.go:174-188 | the result is empty or the ID of the last listed server with that address |
| NovaLookup.OneAddressResolves | pkg/utils/util.go:199-203 | of the addresses of an ID exactly one resolves to it |
| NovaLookup.AgreesExactlyWhenSingle | pkg/utils/util.go:199-203 | lookup and address index agree on all addresses if and only if no ID owns two entries |
| MountTable.FieldsOfEntry | pkg/utils/volume_utils.go:203-213 | a printed mount entry splits into its six fields again |
| MountTable.ParserReadsTheOnlyMatch | pkg/utils/volume_utils.go:192-220 | for every table, a device is returned if and only if exactly one printed line word-matches, and it is the device of that line |
| MountTable.MountPointIsResolved | pkg/utils/volume_utils.go:192-220 | for a mount point, any device returned is the one mounted there, and one is returned exactly when no other line matches |
| MountTable.ParentIsMistaken | pkg/utils/volume_utils.go:197-199 | a directory that is no mount point yields the device of a directory below it when that line is the only match |
| MountTable.DotIsMistaken | pkg/utils/volume_utils.go:197-199 | a directory with a dot yields the device of one that has another character there |
| MountTable.LongerNameIsNoMatch | pkg/utils/volume_utils.go:197-199 | a directory is not taken for one whose name goes on with a letter, digit or underscore |
| MountTable.DeviceExactly | pkg/utils/volume_utils.go:200-219 | for any output: a device is read if and only if there is no error output and the output is one line of six fields and a newline; it is the first field |
| Discovery.FindAttachedVolumeDirectoryPath | pkg/utils/volume_utils.go:134-161 | the node of the first dm-* directory in listing order that has the device below its slaves, the device itself if none has, the empty path when the link does not resolve |
| Discovery.ParentIsFirstHolder | pkg/utils/volume_utils.go:145-158 | the parent that the other results speak of is that first directory |
| Discovery.FirstParentIsFirst | pkg/utils/volume_utils.go:145-158 | no parent exactly when no listed dm device has the slave; otherwise a parent before which there is none |
| Discovery.FindSlaveDevicesOfMultipathParent | pkg/utils/volume_utils.go:269-284 | the device node of every slave, in order, for a path of three parts of which the second begins with dev and the third has a directory of slaves, and nothing for any other path |
| Discovery.Host.UnmountDevice | cmd/flexplugin/main.go:374-407 | when the unmount fails nothing else is done; when it works: without a device below /dev nothing, for a device that is no multipath map one deletion of it, for a map one deletion per slave of its parent and one flush, or nothing if multipath names no parent with a node |
| Discovery.DiscoveredDeviceIsASlave | pkg/utils/volume_utils.go:145-158 | on every sysfs graph, when discovery returns a parent, the device it started from is among the slaves that teardown finds for that parent |
| Discovery.SlaveDeletions | pkg/utils/volume_utils.go:302-310 | one delete file per slave, in order, each of the slave's own name |
| Discovery.TeardownRemovesTheSlaves | cmd/flexplugin/main.go:380-402 | from the text of the mount table on: one unmount, then one deletion for each slave of the parent and for no other device, then one flush |
| Discovery.TeardownRemovesTheDiscovered | cmd/flexplugin/main.go:380-402 | so the device found at attach time is deleted when discovery and multipath name one parent |
| Discovery.TeardownOfPlainDevice | pkg/utils/volume_utils.go:262-264 | every mounted device below /dev whose path does not contain /dev/mapper/mpath, other maps included, is itself deleted; no slave is, and nothing is flushed |
| Discovery.MapperPathHasParts | pkg/utils/volume_utils.go:289-290 | the split index 2 is in range on every path that contains /dev/mapper |
| Discovery.FlushNames | pkg/utils/volume_utils.go:287-291 | the name passed on is the second directory of a path that contains /dev/mapper, and the path itself otherwise |
| Discovery.FlushNamesTheDirectory | pkg/utils/volume_utils.go:287-291 | for every map under /dev/mapper the name that is flushed is `mapper` |
| Provision.CapacityCoversRequest | pkg/volume/provision.go:175 | for every request of at least zero bytes the capacity covers it by less than one GiB extra if and only if rounding does not overflow int64 |
| Provision.ParseOptions | pkg/volume/provision.go:161-216 | which error is reported, in the order of the source, down to the first unknown key; a success has the prefixed name, a size that covers the request by less than one GiB (exactly as long as rounding does not overflow), multi-attach exactly for ReadWriteMany or ReadOnlyMany, and the last visited value of each parameter |
| Provision.ParsingFailsOnUnknownKeys | pkg/volume/provision.go:182-197 | given claim, name and capacity, parsing fails if and only if some key is unknown, in every iteration order |
| Provision.OrderIndependentExactly | pkg/volume/provision.go:182-197 | the parsed fields are the same for all orders if and only if no two keys that are equal up to case ask for different values |
| Provision.FieldsAreTheParameters | pkg/volume/provision.go:182-197 | without such keys, in every order, volume type, zone and file system type each hold the parameter of that name up to case, and are empty without one |
| Provision.GetCinderVolume | pkg/utils/rest_utils.go:174-193 | the first reply other than "creating", an error included, or the hundredth; the number of polls and the sleep are exact |
| Provision.Controller.Provision | pkg/volume/provision.go:66-158 | a persistent volume is returned exactly when the created volume is available or its poll ends with a status other than error; the volume exists afterwards unless it is cleaned up; nothing happens without a creation |
| Provision.Controller.Delete | pkg/volume/delete.go:28-55 | success exactly when authentication and deletion work, and then just the annotated volume and its persistent volume are gone; otherwise nothing changes |
| Provision.ReachableIsSound | pkg/volume/provision.go:95-119 | in every reachable state live persistent volumes refer to distinct existing volumes |
| Provision.UnclaimedVolumesAreExplained | pkg/volume/provision.go:102-119 | in every run the volumes without a persistent volume are exactly the earlier ones and those of a failed status poll or a failed cleanup |
| Provision.DeleteTakesOneVolume | pkg/volume/delete.go:49-51 | a successful Delete removes just its own volume, and every other persistent volume keeps an existing one |
| Provision.ProvisionStaysApart | pkg/volume/provision.go:95-158 | every run beside a provisioned volume is possible, and goes the same way, without it |
| Provision.DeleteUndoesProvision | pkg/volume/delete.go:28-55 | after any run in between that does not concern it, deleting a provisioned volume leaves exactly the volumes and persistent volumes of the run without it |
| DeviceNames.GetVolumeDirectoryName | pkg/utils/volume_utils.go:29-85 | for the last listed owner of the address, the type of its host and the storage registration: the KVM, LIO, XIV or VIOS path in full, the error of a failed registration lookup, or a panic for an ID that is too short; the empty name without an owner or host; an error when a listing reports one |
| DeviceNames.DigitsAreWithoutDashes | pkg/utils/volume_utils.go:109 | for every ID, the digits are the characters that are no dashes |
| DeviceNames.EmptyNameExactly | pkg/utils/volume_utils.go:29-85 | the empty name is answered without an error if and only if the hosts are listed and either there is no list of servers, or the listing works and no server owns the address, or the last owner's host is unknown or of a type that is not on the lists |
| DeviceNames.FailedListingIsHidden | pkg/utils/util.go:209-211 | a listing of servers that fails without a list gives the empty name and no error, for every volume |
| DeviceNames.DigitsOfUuid | pkg/utils/volume_utils.go:109 | removing the dashes of a UUID leaves its five groups of digits |
| DeviceNames.UuidsHaveNames | pkg/utils/volume_utils.go:106-130 | both slices are in range for every canonical UUID |
| DeviceNames.NamesAgreeExactly | pkg/utils/volume_utils.go:106-130 | LIO names agree exactly when the first 25 digits do, KVM names exactly when the first 17 do |
| DeviceNames.LioDistinguishesMore | pkg/utils/volume_utils.go:106-130 | equal LIO names imply equal KVM names |
| DeviceNames.SchemesAreApart | pkg/resources/constants.go:82-87 | names of different schemes never coincide (XIV with a non-empty WWN), except that a VIOS name is an LIO name exactly when the lower-cased WWN is 6001405 and the volume's first 25 digits |
| DeviceNames.NameTellsScheme | pkg/utils/volume_utils.go:48-85 | for a UUID and a WWN that does not look like LIO, each of the four names is answered if and only if hypervisor and storage are of its kind, so the path tells them apart |
| Lifecycle.RunKeepsInv | pkg/volume/provision.go:95-119 | in every run in which Provision, Delete and the calls of any number of drivers interleave: live persistent volumes have distinct existing volumes, a stored name leads to its volume, and what a driver remembers is right as long as the volume exists |
| Lifecycle.NameLeadsToItsVolume | cmd/flexplugin/main.go:328-339 | in every such run a query for a name lists exactly the volume live under it if its name is stored, and nothing otherwise: the correspondence is a consequence, not an assumption |
| Lifecycle.DetachResolvesTheLiveVolume | cmd/flexplugin/main.go:328-339 | a detach whose query works goes on with the volume live under its name at that moment, and fails exactly when there is none or its name is not stored |
| Lifecycle.DetachFindsTheProvisionedVolume | cmd/flexplugin/main.go:120-138 | once an attach has stored the name and while its volume exists, the persistent volume is live, and a query finds the volume provisioned under it, and no other |
| Lifecycle.DetachTouchesItsVolumeOnly | cmd/flexplugin/main.go:347-353 | even if the volume is deleted and its name given to a new one meanwhile, a detach removes no attachment but that of the volume live under its name on the VM of its node |

## Left out

- HTTP, Keystone, TLS, certificates of clients and the paging protocol: the cloud is state plus answers; its filtering by tenant is part of the answer.
- Running commands, pipes, udev and writes to scan files: a command is an event with an answer.
- Logging, log files, `ValidateArgs`, `createRespMsg`, JSON and DNS: no logic that would need proof.
- `mount`, `unmount` and `waitForDetach` of the plugin: fixed command lists without decisions.
- The rest of the setup script (directories, copies, its final loop) and the shell: the password is the text that echo receives and prints, in printable ASCII; word splitting, globbing and options of echo are not modelled.
- Trimming and case folding beyond ASCII: `Config.ConfigRoundTrip` asks for values whose ends are ASCII; `Config.Environment.LoadConfigFile` speaks of other files with ASCII white space only.
- The lock library: that `TryLock` takes over the file of a process that no longer runs, and that `Unlock` removes only the caller's file, is taken as given; reuse of process IDs and a failing `lockfile.New` are not modelled.
- WaitForAttach.WaitForAttach: the other processes show only as refused tries; `ScanLock` models them.
- Config.ConfigRoundTrip: values with line breaks or NUL are not covered, since the file cannot hold them on a line, and neither are lines that exceed the scanner's buffer, which `Config.LongLineHidesTheRest` covers.
- MountDevice.HealthyDiskIsSafe: what a failed mkfs leaves on a disk is an arbitrary answer, and unmounting does not change a disk.
- MountTable.ParserReadsTheOnlyMatch: of the special characters of regular expressions only the dot is modelled, and text in the error output of the pipe gives an error.
- AttachDetach.DetachFindsTheVolume: volumes are neither created nor deleted while the run lasts; `Lifecycle` lifts this.
- Lifecycle.RunKeepsInv: the cloud forgets names and attachments of a volume that it deletes and refuses calls for it; whether it refuses to delete an attached volume is part of the answer.
- NovaLookup.CreateVMIPToVMDetailsMap: the panic of `GetAllOSVMs` on an empty list (pkg/utils/rest_utils.go:161); the index of an empty list is empty here.
- AttachDetach.Driver.Attach: the result of the directory lookup at its end is an answer; `DeviceNames` models the lookup.
- Discovery: that a directory of slaves is read between discovery and teardown unchanged is assumed by the lemmas that relate the two.
- Provision.CapacityCoversRequest: negative requests.
- Provision.Controller.Provision: parsing, authentication and the mock client of the `test` parameter are one answer; labels, annotations other than the volume ID and the mount options of the persistent volume are not modelled.
- Provision.Controller.Delete: the fatal exit without an annotation, which no returned persistent volume lacks.
