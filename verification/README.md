# Verification of the LITP boot manager

The boot manager plugin plans and runs the PXE installation of managed nodes through Cobbler. This
project models the parts of it that decide something a node cannot recover from: which disks are
wiped, when a node counts as installed, what is left of a registration that was cut off, and the
shell snippets that Python writes and a kickstart runs. Everything is proved for all inputs, all
interleavings and runs of any length; `dafny verify dfyconfig.toml` checks the whole project.

| file | part of the system |
|---|---|
| `wrappers.dfy`, `strings.dfy` | results that may be errors; Python's and bash's string operations |
| `disks.dfy` | disks, volume groups and nodes of the model, and counting UUIDs |
| `sizes.dfy` | `_convert_to_mb` and `convert_to_gigabytes` over all strings |
| `bootloader.dfy` | the shielded UUIDs and the scan that zeroes disks (one model for both RHEL templates) |
| `shell.dfy` | the shell language of the partition snippet and its interpreter |
| `partition.dfy`, `partition_meaning.dfy` | generating the RHEL 7 snippet, and what running it does |
| `rhel6.dfy`, `rhel6_meaning.dfy` | generating the RHEL 6 snippet, and what running it does: its sizes must add up |
| `nics.dfy` | the resolvers of the boot interface's name and MAC |
| `plan_graph.dfy` | the tasks of a plan and their `requires` graph |
| `kernel_options.dfy` | parser and printer of post-install kernel options |
| `cobbler.dfy` | the table of systems, the agent's commands, the install trigger |
| `registration.dfy` | `_add_system_callback`, cut off anywhere and repeated |
| `sync_trigger.dfy` | the sync trigger that starts and stops xinetd |
| `install_protocol.dfy` | all of these interleaved over any number of nodes |
| `wait_loops.dfy` | the waits for PXE and for the installed node |
| `interface_swap.dfy` | `interfaces=` of the Puppet provider |
| `anamon_backup.dfy` | keeping one backup of a node's logs |

Code that changes state step by step is a class or a method with a loop, proved against a function;
the theorems are about that function.

## What does not hold, and exactly when it does

Where the code falls short of what it is for, the exact condition under which it does not is proved for all
inputs; for some there is also a concrete input that breaks it.

- A size in T is converted to too small a virtual disk, for every T size; M and G sizes never are (`Sizes.EnoughSpaceUnlessTera`).
- A shared disk is recognised by counting equal spellings of its UUID, while the node compares without case. The disk is safe on a node exactly if the node must keep some spelling of it: one that the node itself uses and that another disk entry repeats letter for letter, or one kept for another reason (`Bootloader.SafeIffSpellingKept`). A node that alone uses its spelling wipes the disk, however many others share it (`SpellingHole`).
- The boot target may be given as bus_serial; a shielded UUID in that form protects its disk exactly if the disk is the target or shielded in another form too (`Bootloader.BusFormExact`, `BusFormHole`).
- Every eligible disk is zeroed exactly if each has the link that `dd` writes to and no serial is part of the serial of an eligible disk scanned before its own first one (`Bootloader.AllEligibleZeroedIff`, `SubstringHole`).
- The PV lines read an unassigned `disk_list` key exactly if a root disk's UUID is not unique (`PartitionMeaning.UnsetReadIffSharedRootDisk`), and the boot disk is wiped even if it is shared (`WipedExact`).
- On RHEL 6 the partitions on a root disk used once add up to the disk exactly if it is not skipped for being shared; on a skipped disk nothing lies, since its PV line is written without a device (`Rhel6Meaning.SizesAddUp`, `UnsetReadIffSharedRootDisk`). All sizes are positive exactly if every bootable root disk has more than 500 MB and every other more than none (`SizesPositiveIff`).
- Printing and parsing kernel options is a round trip exactly if no value is `~` (`KernelOptions.ParsedRoundTrip`).
- Registrations wait for their kickstart files only if no profile is initial (`PlanGraph.PairingIffNoProfile`).
- A backup survives exactly if its name contains the host name of no later one (`AnamonBackup.SurvivesIff`); a backup for node1 removes that of node10 (`SubstringHostLosesBackup`).
- Interfaces without a setting are not created, and if no interface has one the swap is refused at its last command, with the temporary interface left behind (`InterfaceSwap.SwapExact`).
- A registration without interfaces raises TypeError before it sends anything; one without a profile leaves the system removed (`Registration.NeedsNameAndProfile`).
- A vlan that tags a bridge or another vlan resolves to something that is not a physical interface (`Nics.NameIsPhysical`).

Two conditions in the code change nothing. `_is_bootable_unshared_and_os_reinstall` (bootmgr_plugin.py:766-769)
is implied by the test before it, so the cleared disks do not depend on the reinstallation; and the
LVM loop's test for new disks and file systems (bootmgr_plugin.py:200-208) cannot decide anything,
since its nodes have a new system already. The docstring of `convert_to_gigabytes` speaks of gibibytes; the code
converts between units at 1000, and the model follows the code.

## Model

| member | source | states |
|---|---|---|
| InstallProtocol.NoStaleSuccess | src/bootmgr_plugin/bootmgr_plugin.py:336-399 | in every run from any table, if a node's PXE wait has succeeded, its latest registration removed whatever record was there, then added the new one, and after that the trigger fired and found it in the table |
| InstallProtocol.InstalledInOrder | src/bootmgr_plugin/bootmgr_plugin.py:427-432 | an installed node's latest removal and addition, the trigger that found the record, an answered ping, a delivered deregistration and a successful sync happened in this order; the node has been out of the table since the deregistration |
| InstallProtocol.ProgressKept | src/bootmgr_plugin/bootmgr_plugin.py:361-399 | no failed poll, ping, removal or sync, and no callback that is given up, sets a registered node back |
| InstallProtocol.AttemptsStartOver | src/bootmgr_plugin/bootmgr_plugin.py:430-432 | every attempt at the wait for a node starts anew: a removal comes right after an answered ping, a sync right after a delivered removal |
| InstallProtocol.FailureEndsRegistration | src/bootmgr_plugin/bootmgr_plugin.py:1496-1502 | a command that fails or whose reply is lost ends the registration; a delivered one leads to the next, the last to a registered node |
| InstallProtocol.RecordLeaves | src/bootmgr_plugin/bootmgr_plugin.py:329-331 | a record leaves the table only by the first command of its own re-registration or by the deregistration after an answered ping |
| InstallProtocol.OthersUntouched | src/bootmgr_plugin/bootmgr_plugin.py:1508-1561 | no event of one node changes another node's phase or record, and none stops xinetd while the other's record is in the table |
| InstallProtocol.WaitingNodeIsServed | src/bootmgr_plugin/bootmgr_plugin.py:401-428 | while a node waits for PXE its record holds all that its registration wrote, and xinetd runs |
| InstallProtocol.SyncAgrees | src/triggers/cobbler/sync_pre_trigger.py:28-48 | after every sync that reaches Cobbler and whose service commands succeed, reply lost or not, xinetd runs if and only if the table is nonempty, so only the last deregistration stops it |
| InstallProtocol.RunInv | src/bootmgr_plugin/bootmgr_plugin.py:1511-1561 | the invariant behind these holds after every event of every run |
| InstallProtocol.InvKept | src/bootmgr_plugin/bootmgr_plugin.py:1484-1502 | every single step keeps it, failed and half-delivered commands included |
| InstallProtocol.NeverStuck | src/bootmgr_plugin/bootmgr_plugin.py:1554-1561 | a registration under way can always send its next command |
| InstallProtocol.CanInstall | src/bootmgr_plugin/bootmgr_plugin.py:430-432 | from any point of any run, whatever failed before, a node can be taken to the end; its record is then gone, the others are as they were |
| Registration.RetryConverges | src/bootmgr_plugin/bootmgr_plugin.py:1511-1561 | cut off after any number of commands and run again, in any interface order and from any table, a registration leaves exactly the target record and all other records as they were |
| Registration.RegistersTarget | src/bootmgr_plugin/bootmgr_plugin.py:1511-1561 | an uninterrupted registration leaves the nonempty settings, the virt data and exactly the given interfaces, nothing of the old record |
| Registration.RegisteredRecord | src/bootmgr_plugin/bootmgr_plugin.py:1515-1552 | the registered record setting by setting: profile, host name and kickstart are the arguments unless empty or named by the virt data, every other setting is the virt data's, and the interfaces are the given ones |
| Registration.StageReached | src/bootmgr_plugin/bootmgr_plugin.py:1554-1561 | what the record is after each prefix of the commands |
| Registration.NeedsNameAndProfile | src/bootmgr_plugin/bootmgr_plugin.py:1515-1524 | a registration succeeds if and only if neither name nor profile is empty; otherwise the system ends up removed |
| Registration.EachInterfaceEditedOnce | src/bootmgr_plugin/bootmgr_plugin.py:1539-1559 | each interface is edited by exactly one command, with its own settings |
| Registration.NoCommentArgs | src/bootmgr_plugin/bootmgr_plugin.py:1526-1552 | no command of a registration sets the comment |
| Registration.Plugin.AddSystem | src/bootmgr_plugin/bootmgr_plugin.py:1508-1561 | the callback sends a prefix of the specified commands; it succeeds if and only if there are interfaces, every command is delivered and Cobbler accepts them all |
| Registration.Plugin.RemoveFromCobbler | src/bootmgr_plugin/bootmgr_plugin.py:329-331 | removes the node's record and nothing else, unless the removal never arrives |
| Cobbler.Server.Mco | puppet/mcollective_agents/files/cobbler.rb:13-77 | the effect of each agent command on the table, delivered, lost before or lost after it took effect |
| Cobbler.Server.RunInstallTrigger | src/triggers/cobbler/install_pre_pxe.py:14-24 | the trigger marks the named system and does nothing for other objects or unknown names |
| Cobbler.CommentApart | src/triggers/cobbler/install_pre_pxe.py:14-24 | commands that do not set the comment work the same under it and never produce it, so the trigger is its only source |
| Cobbler.TriggerOnlyComments | src/triggers/cobbler/install_pre_pxe.py:19-22 | the trigger changes nothing but the comment of its own system |
| Cobbler.AcceptedExactly | puppet/mcollective_agents/files/cobbler.rb:21-77 | which commands are accepted, by the table |
| Cobbler.EditExact | puppet/mcollective_agents/files/cobbler.rb:54-77 | what an edit leaves, setting by setting and option by option: what it gives, and otherwise what was there |
| Cobbler.AddRemoveExact | puppet/mcollective_agents/files/cobbler.rb:13-52 | a new system has its profile and nothing else, a removed one is gone, a sync changes nothing |
| Cobbler.OthersKept | puppet/mcollective_agents/files/cobbler.rb:21-77 | a command leaves all other records alone, and a refused one the whole table |
| SyncTrigger.Xinetd.Run | src/triggers/cobbler/sync_pre_trigger.py:13-48 | which service commands the trigger issues, the service state and the result they leave |
| SyncTrigger.FailsExactly | src/triggers/cobbler/sync_pre_trigger.py:28-48 | the trigger fails if and only if the start or stop that it needs fails; none is needed while xinetd runs for systems |
| SyncTrigger.ChangesExactly | src/triggers/cobbler/sync_pre_trigger.py:32-43 | xinetd is started only for systems and stopped only without any, by a command that took effect |
| WaitLoops.WaitForPxeBoot | src/bootmgr_plugin/bootmgr_plugin.py:351-399 | the loop ends after at most as many polls as seconds; success, time-out and stop each only for the reason they name |
| WaitLoops.WaitForCallback | src/bootmgr_plugin/bootmgr_plugin.py:1567-1582 | the loop ends after at most 3601 polls; a positive poll beats a stopped plan, which beats the time limit |
| WaitLoops.PxeSuccessExact | src/bootmgr_plugin/bootmgr_plugin.py:361-387 | the PXE wait succeeds if and only if the first positive poll comes in time and before the plan is seen stopped |
| WaitLoops.NodeSuccessExact | src/bootmgr_plugin/bootmgr_plugin.py:1569-1582 | the node wait succeeds if and only if the node answers no later than the round that would have ended it |
| Bootloader.SharedUuids | src/bootmgr_plugin/bootmgr_plugin.py:565-582 | the list holds exactly the UUIDs counted twice, of non-bootable shared disks on reinstallation, and of fencing disks |
| Bootloader.ScanDevices | puppet/cobbler/templates/bootloader.erb:13-53 | the scan's two arrays are the target matches of `MatchesExact` and the queue of `QueueExact` |
| Bootloader.FoldExact | puppet/cobbler/templates/bootloader.erb:2-3 | two strings fold to the same if and only if they differ in the case of letters only |
| Bootloader.MatchesExact | puppet/cobbler/templates/bootloader.erb:34-35 | the matches are the names of the disks whose serial, bus and serial, or short serial folds to the target, and empty if and only if there is none |
| Bootloader.ShieldExact | src/bootmgr_plugin/bootmgr_plugin.py:543-582 | the UUIDs shielded by counting are, in terms of the deployment: those of the node's disks that another disk has too, of shared disks on reinstallation, and of fencing disks |
| Bootloader.WipeSafety | puppet/cobbler/templates/bootloader.erb:34-62 | no disk zeroed on a node has a serial, bus and serial, or short serial that folds to its boot target, or a serial or short serial that folds to a UUID that the node and another node of the deployment have, by that of a shared disk on reinstallation, or of a fencing disk of a vcs-cluster |
| Bootloader.QueueExact | puppet/cobbler/templates/bootloader.erb:44-49 | a serial is queued if and only if an eligible device had it while the queue did not contain it |
| Bootloader.QueueComplete | puppet/cobbler/templates/bootloader.erb:44-49 | every eligible serial is contained in the joined queue |
| Bootloader.QueuedOnce | puppet/cobbler/templates/bootloader.erb:45-48 | no serial is queued twice, in any spelling |
| Bootloader.AllEligibleZeroedIff | puppet/cobbler/templates/bootloader.erb:34-62 | every eligible disk is zeroed if and only if all have their scsi link and no eligible serial is part of the serial of an eligible device scanned before its own first one |
| Bootloader.ZeroedIffEligible | puppet/cobbler/templates/bootloader.erb:34-62 | if paths to one disk agree, the zeroed disks are exactly the eligible ones if and only if the same condition holds |
| Bootloader.SafeIffSpellingKept | src/bootmgr_plugin/bootmgr_plugin.py:565-566 | whatever devices a node finds, as long as the paths to one disk agree, the disk of a UUID is never zeroed if and only if the node must keep some spelling of the UUID |
| Bootloader.SpellingHole | src/bootmgr_plugin/bootmgr_plugin.py:565-566 | a node that spells a disk unlike all the others that share it does not keep it safe, however many there are |
| Bootloader.BusFormExact | puppet/cobbler/templates/bootloader.erb:34-43 | the disks that shielded UUIDs denote, bus_serial form included, are spared if and only if each meant in that form is the target or named in another form |
| Bootloader.BusFormHole | puppet/cobbler/templates/rhel6/bootloader.erb:34-43 | two nodes that share a disk given in bus_serial form: the UUID is shielded and the disk zeroed |
| Bootloader.SubstringHole | puppet/cobbler/templates/bootloader.erb:46-48 | an eligible disk that is not zeroed because its serial is part of another |
| DiskModel.UuidOnDiskExact | src/bootmgr_plugin/bootmgr_plugin.py:646-648 | a disk has a UUID unless it is None, empty, or kgb in any case with white space around it |
| DiskModel.GetAllDiskUuids | src/bootmgr_plugin/bootmgr_plugin.py:532-537 | the list holds exactly the UUIDs of the deployment's disks, and counts one twice if and only if two disks have it |
| DiskModel.CountedIffHeldTwice | src/bootmgr_plugin/bootmgr_plugin.py:565-566 | a UUID is counted more than once if and only if two disks of the deployment, of one node or of two, have it |
| DiskModel.CountTwice | src/bootmgr_plugin/bootmgr_plugin.py:634-636 | a count above one means two places in the deployment hold the UUID, and conversely |
| Shell.WipeListExact | src/bootmgr_plugin/bootmgr_plugin.py:818-826 | splitting the comma list gives back the appended drives and then the partitions, in order, empty fields dropped |
| Shell.StripCommaIsJoin | src/bootmgr_plugin/bootmgr_plugin.py:974-977 | appending a comma and a drive each time and stripping the first comma is a join |
| Shell.TwoTeraExact | src/bootmgr_plugin/bootmgr_plugin.py:858-862 | over all sizes, what the test says of the bytes modulo 2^64; below 8 EiB, more than any block device has, it is 512 * sectors >= 2 TiB |
| Partition.GetLvmKickstartConfig | src/bootmgr_plugin/bootmgr_plugin.py:952-997 | the generator returns the specified program, no program without root disks, and the error of a bad size |
| Partition.GetRootVgDisks | src/bootmgr_plugin/bootmgr_plugin.py:488-504 | the root disks are exactly the named disks that a device of the root volume group names, each as often as it is named |
| Partition.GetDisksToClear | src/bootmgr_plugin/bootmgr_plugin.py:771-837 | the first loop and the wiping commands after it |
| Partition.GetNodeBootParts | src/bootmgr_plugin/bootmgr_plugin.py:873-899 | the second loop |
| Partition.GetNodeVolumeParts | src/bootmgr_plugin/bootmgr_plugin.py:901-950 | the PV, volgroup and logvol commands of the root volume group |
| Partition.PvIdsDistinct | src/bootmgr_plugin/bootmgr_plugin.py:910-917 | physical volume ids are pairwise distinct |
| PartitionMeaning.SnippetRuns | src/bootmgr_plugin/bootmgr_plugin.py:952-997 | what a complete run of the generated snippet does: the volume groups removed, the disks wiped and their new partition table, the table of disks, every line written, every unassigned key read |
| PartitionMeaning.LogvolsExact | src/bootmgr_plugin/bootmgr_plugin.py:934-948 | the logical volumes written: one for each file system of the root volume group with a mount point, in model order and no others, with its mount point, type, name, group and size; only "/" grows |
| PartitionMeaning.GeneratedIff | src/bootmgr_plugin/bootmgr_plugin.py:968-995 | a snippet is generated if and only if there is a root disk and the size of every mounted file system reads |
| PartitionMeaning.FirstLoopRuns | src/bootmgr_plugin/bootmgr_plugin.py:698-793 | the first loop collects exactly the bootable drives, or stops if and only if a disk is missing |
| PartitionMeaning.MissingDiskStopsInTime | src/bootmgr_plugin/bootmgr_plugin.py:726-727 | with a disk missing on the node the snippet exits before it wipes or writes anything |
| PartitionMeaning.KeysDenoteTheirDisks | src/bootmgr_plugin/bootmgr_plugin.py:698-738 | the table holds exactly the disks that are not skipped, each under its own device |
| PartitionMeaning.UnsetReadIffSharedRootDisk | src/bootmgr_plugin/bootmgr_plugin.py:901-924 | an unassigned key is read if and only if some root disk is skipped; boot partitions never read one |
| PartitionMeaning.SecondLoopRuns | src/bootmgr_plugin/bootmgr_plugin.py:839-899 | every boot line lies on the device of the disk it was generated for, no unassigned key read |
| PartitionMeaning.WipedExact | src/bootmgr_plugin/bootmgr_plugin.py:740-836 | the disks wiped are the bootable disk and its multipath partitions, shared or not, reinstalled or not |
| PartitionMeaning.SizedPartitionExact | src/bootmgr_plugin/bootmgr_plugin.py:851-869 | the size test looks at the disk that gets the partition; exactly one 1 MB partition is written, biosboot if and only if the disk has 2 TiB |
| PartitionMeaning.VolgroupListsItsVolumes | src/bootmgr_plugin/bootmgr_plugin.py:910-932 | the volgroup line lists exactly the physical volumes created before it, in order, distinct |
| PartitionMeaning.PvLinesExact | src/bootmgr_plugin/bootmgr_plugin.py:913-924 | one growing partition for each root disk in order |
| Rhel6.GetLvmKickstartConfig | src/bootmgr_plugin/bootmgr_plugin.py:1086-1171 | the generator returns the specified program, or the error of its first bad size |
| Rhel6Meaning.SnippetRuns | src/bootmgr_plugin/bootmgr_plugin.py:1005-1171 | running the generated snippet stops with nothing written if and only if a disk is missing, and otherwise determines the table of disks, every line written and every unassigned key read |
| Rhel6Meaning.SizesAddUp | src/bootmgr_plugin/bootmgr_plugin.py:1075-1150 | the partitions written on the device of a root disk used once add up to its size if the disk is not skipped; nothing lies on a skipped one |
| Rhel6Meaning.UnsetReadIffSharedRootDisk | src/bootmgr_plugin/bootmgr_plugin.py:1015-1016 | an unassigned key is read if and only if some root disk is skipped |
| Rhel6Meaning.SizesPositiveIff | src/bootmgr_plugin/bootmgr_plugin.py:1136-1138 | every size written is positive if and only if bootable root disks have more than 500 MB and the others more than none |
| Rhel6Meaning.LogvolsExact | src/bootmgr_plugin/bootmgr_plugin.py:1160-1170 | as on RHEL 7, one logical volume for each mounted file system, but none grows |
| Rhel6Meaning.GeneratedIff | src/bootmgr_plugin/bootmgr_plugin.py:1095-1171 | a snippet is generated if and only if there is a root disk, all their sizes are usable, and the size of every mounted file system reads |
| Rhel6Meaning.VolgroupListsItsVolumes | src/bootmgr_plugin/bootmgr_plugin.py:1132-1158 | the volgroup line lists exactly the physical volumes created before it, in order, distinct |
| Sizes.ConvertToMbExact | src/bootmgr_plugin/bootmgr_plugin.py:1174-1177 | over all strings: signed numbers with a unit and white space are read as that many megabytes; no unit gives None, no number ValueError, nothing at all IndexError |
| Strings.SpaceExact | src/bootmgr_plugin/bootmgr_plugin.py:2007 | the characters that `strip` and the pattern take as white space |
| Sizes.PyIntExact | src/bootmgr_plugin/bootmgr_plugin.py:1177 | which texts `int` accepts, and with which number |
| Sizes.MbExact | src/bootmgr_plugin/bootmgr_plugin.py:1174-1177 | a printed number with a unit is read as exactly that many megabytes |
| Sizes.MbUnitsAgree | src/bootmgr_plugin/bootmgr_plugin.py:1175-1177 | the units agree at 1024 |
| Sizes.MatchSizeExact | src/bootmgr_plugin/bootmgr_plugin.py:2007-2009 | the matcher accepts exactly the strings of the regular expression, with its groups |
| Sizes.ConvertToGigabytesExact | src/bootmgr_plugin/bootmgr_plugin.py:2001-2031 | over all strings: the rounded-up size inside the pattern, 5 outside it |
| Sizes.GigabytesFactor | src/bootmgr_plugin/bootmgr_plugin.py:2019-2027 | the result is the least whole number not below the size times the code's decimal factor of its unit |
| Sizes.GigabytesLeast | src/bootmgr_plugin/bootmgr_plugin.py:2019-2027 | the same over the integers |
| Sizes.GigabytesMonotone | src/bootmgr_plugin/bootmgr_plugin.py:2019-2027 | a larger size never gives a smaller result |
| Sizes.GigabytesUnitsAgree | src/bootmgr_plugin/bootmgr_plugin.py:2019-2024 | the units agree at 1000 |
| Sizes.EnoughSpaceUnlessTera | src/bootmgr_plugin/bootmgr_plugin.py:2001-2027 | the virtual disk is large enough if and only if the unit is not T |
| Nics.ResolversAgree | src/bootmgr_plugin/bootmgr_plugin.py:1735-1834 | whenever the name resolver returns, the MAC of its name is the MAC of the interface carrying the network, for every topology with unique names |
| Nics.NameExact | src/bootmgr_plugin/bootmgr_plugin.py:1778-1808 | which name is found, in terms of the interfaces: the eth itself, the least slave of the bond, what the vlan tags or its least slave, or the same for the first interface on the bridge |
| Nics.PortExact | src/bootmgr_plugin/bootmgr_plugin.py:1740-1747 | the port of a bridge is the first interface on it, and None if there is none |
| Nics.CarrierExact | src/bootmgr_plugin/bootmgr_plugin.py:1785-1793 | the carrier of a network is the first interface with it, and None if there is none |
| Nics.NoName | src/bootmgr_plugin/bootmgr_plugin.py:1783-1808 | no name is found if and only if nothing carries the network |
| Nics.EthMac | src/bootmgr_plugin/bootmgr_plugin.py:1833-1834 | the MAC of an eth is its own |
| Nics.NameErrorExact | src/bootmgr_plugin/bootmgr_plugin.py:1794-1807 | the name resolver raises IndexError if and only if it is led to a bond, which then has no slaves, and AttributeError otherwise |
| Nics.NameResolvesIffGrounded | src/bootmgr_plugin/bootmgr_plugin.py:1778-1808 | the name resolver raises exactly when the topology under the carrier leads nowhere |
| Nics.NameIsPhysical | src/bootmgr_plugin/bootmgr_plugin.py:1797-1808 | the name is that of a physical interface if and only if the carrier is not a vlan over a bridge or vlan |
| Nics.SlaveMac | src/bootmgr_plugin/bootmgr_plugin.py:1865-1871 | the slave chosen by name gives the bond's MAC |
| Nics.FirstSlaveExact | src/bootmgr_plugin/bootmgr_plugin.py:1850-1863 | the chosen slave is the live eth of the bond with the least name, and there is one if there is a slave at all |
| Strings.LexLessExact | src/bootmgr_plugin/bootmgr_plugin.py:1861 | the order of names is the lexicographic one |
| Nics.FirstSlaveStable | src/bootmgr_plugin/bootmgr_plugin.py:1857-1861 | reordering the interfaces does not change the choice |
| InterfaceSwap.SystemProvider.SetInterfaces | puppet/cobblerdata/lib/puppet/provider/cobblersystem/system.rb:135-187 | the setter runs the specified commands and records the value only if none was refused |
| InterfaceSwap.SwapExact | puppet/cobblerdata/lib/puppet/provider/cobblersystem/system.rb:156-184 | the system ends with exactly the desired interfaces and settings if and only if some entry has a setting; otherwise only the temporary interface is left |
| InterfaceSwap.NeverEmpty | puppet/cobblerdata/lib/puppet/provider/cobblersystem/system.rb:139-142 | after every command of the swap, refused or not, the system has an interface, for every manifest |
| InterfaceSwap.NeverRefused | puppet/cobblerdata/lib/puppet/provider/cobblersystem/system.rb:156-184 | no command of the swap is refused if some entry has a setting |
| InterfaceSwap.SnapshotMustComeFirst | puppet/cobblerdata/lib/puppet/provider/cobblersystem/system.rb:145-162 | were the snapshot taken after the temporary interface is added, every swap would be refused |
| InterfaceSwap.CreatesRun | puppet/cobblerdata/lib/puppet/provider/cobblersystem/system.rb:164-180 | the creation phase makes the desired interfaces beside whatever is there |
| InterfaceSwap.DeletesRun | puppet/cobblerdata/lib/puppet/provider/cobblersystem/system.rb:158-162 | with the temporary interface there, no deletion is refused |
| PlanGraph.Plan.CreateConfiguration | src/bootmgr_plugin/bootmgr_plugin.py:149-262 | which tasks a plan has, and which requires which |
| PlanGraph.NewNodesExact | src/bootmgr_plugin/bootmgr_plugin.py:1356-1361 | the new nodes are exactly those in one of the three states, each as often as in the model |
| PlanGraph.NewNodesInOrder | src/bootmgr_plugin/bootmgr_plugin.py:1356-1361 | the new nodes stand in model order: a further node is left out or comes last |
| PlanGraph.NewNodeIsInstalled | src/bootmgr_plugin/bootmgr_plugin.py:184-258 | with a service every new node has all its tasks, and the wait for it requires the wait for its PXE boot |
| PlanGraph.ConfiguredIff | src/bootmgr_plugin/bootmgr_plugin.py:227-238 | Cobbler is configured if and only if the service is new, the network has changed, or a new node with storage is initial |
| PlanGraph.Acyclic | src/bootmgr_plugin/bootmgr_plugin.py:216-258 | no chain of requirements leads back to its start, for any model |
| PlanGraph.RequirementsArePlanned | src/bootmgr_plugin/bootmgr_plugin.py:401-463 | every requirement joins two tasks of the plan |
| PlanGraph.RegistrationRequiresImport | src/bootmgr_plugin/bootmgr_plugin.py:1408-1463 | a registration requires the profile, and through it the import, of its own distribution if and only if the plan creates it |
| PlanGraph.PairingIffNoProfile | src/bootmgr_plugin/bootmgr_plugin.py:248-250 | registrations wait for kickstart files if and only if no profile is initial, and then each for its own node's |
| PlanGraph.RecordsExact | src/bootmgr_plugin/bootmgr_plugin.py:1391-1463 | two tasks for each profile and one for each node |
| KernelOptions.RoundTrip | puppet/cobblerdata/lib/puppet/provider/cobblerprofile/profile.rb:71-85 | what parsing gives of every printed list of options: those that are printed as something, or ValueError if a `~` has a key; values may contain `=` |
| KernelOptions.LastWins | src/bootmgr_plugin/bootmgr_plugin.py:1423 | every key is kept, with the value of its last option |
| KernelOptions.ParsedRoundTrip | src/bootmgr_plugin/bootmgr_plugin.py:1418-1424 | whatever the parser accepts survives printing in any order and parsing again if and only if it holds no `~` |
| KernelOptions.ProfileProvider.SetKsOptsPost | puppet/cobblerdata/lib/puppet/provider/cobblerprofile/profile.rb:71-85 | the setter runs one command with the printed options |
| AnamonBackup.LogBackups.Backup | src/bootmgr_plugin/bootmgr_plugin.py:1584-1618 | after a backup one directory with the host name in it is left, none of them younger; all others are as they were |
| AnamonBackup.RunIsAfterAll | src/bootmgr_plugin/bootmgr_plugin.py:1602-1618 | over any number of backups with rising ctimes, each keeps its own new directory |
| AnamonBackup.SurvivesIff | src/bootmgr_plugin/bootmgr_plugin.py:1604-1617 | a backup survives a run of backups if and only if its name contains no host name of a later one |
| AnamonBackup.NewestKept | src/bootmgr_plugin/bootmgr_plugin.py:1606-1617 | if no host name occurs in another host's backups, every host keeps its newest backup and no other |
| AnamonBackup.SubstringHostLosesBackup | src/bootmgr_plugin/bootmgr_plugin.py:1604-1605 | backing up node1 removes the backup of node10 |

## Left out

- The LITP core (model manager, queries, scheduler, item states) is not part of this repository; queries are given lists in a stable order, and a node's waits are assumed to follow its registration, which the scheduler orders.
- Cobbler itself is not part of this repository: removing an unknown system succeeds, adding a known one or one without a profile fails, editing an unknown one fails, deleting the last interface is refused.
- MCollective, XML-RPC, subprocesses and log output: a remote command is delivered, or fails before or after it took effect.
- Finding a disk on the node (`ls`, `find`, `udevadm`) is an oracle; UUIDs and serials are read literally, not as glob or regular expressions, and `dd`, `wipefs` and `parted` as always successful.
- The rest of the bootloader template: the check, after the zeroing, that a target was found and that several paths to it are all Fibre Channel, and the variant for boot disks without a UUID.
- Bootloader.AllEligibleZeroedIff: serials are taken to be nonempty and without blanks, as udev writes them; whether a disk has the link scsi-<serial> is given with the disk.
- Rhel6Meaning.SizesAddUp: no two disks of the node have one device, and no two volume groups the name of the root volume group.
- Cobbler.Server.Mco: an edit takes the options of the system and of its interface as two dictionaries, where the plugin sends one flat dictionary; the names it uses in the two do not overlap.
- Registration.Plugin.AddSystem: starts after the backup of the logs, which `anamon_backup.dfy` models on its own; the interface dictionaries that the loop completes in place are built as new values.
- InstallProtocol.NoStaleSuccess: assumes that nothing but the plugin and the triggers writes to the table, so not an operator or the Puppet provider at the same time.
- WaitLoops.WaitForPxeBoot: every sleep is taken to last at least a second; the log message each minute is left out.
- Sizes.ConvertToGigabytesExact: exact rationals instead of floating point, which may differ by one when the exact value is a whole number.
- AnamonBackup.RunIsAfterAll: assumes that the remote commands succeed and that ctimes are distinct; `max` takes the first of equal ones.
- PlanGraph.Plan.CreateConfiguration: tasks by kind and node; the requirements of tasks on model items, and the contents of the tasks, are left out.
- InterfaceSwap.SwapExact: the setting keys of an interface stay distinct when `_` becomes `-`, and the random name of the temporary interface is new.
- `insync?` of the interfaces property rejects equal values (puppet/cobblerdata/lib/puppet/type/cobblersystem.rb:69), so nothing is claimed about when `interfaces=` runs again.
- The dedicated PXE-only interface, keyboard, timezone, validators, MS-side DHCP and the libvirt bridge lookup: no branching worth a proof.
- Kickstart, DHCP, multipath and udev texts, Puppet manifests, SELinux policy and packaging: configuration.
