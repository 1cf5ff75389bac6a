# A verified model of the SLS controller and daemon

SLS runs game servers: a controller (Protocube) hands out nodes and ports, and a daemon on every node
installs, starts, stops and stores the servers. This Dafny project models the stateful parts of both and
proves what they keep over every run. `dafny verify dfyconfig.toml` checks all of it.

Where the code changes things step by step, the model does: the allocator, the balancer, the managers and the
registration handlers, the quota file system with its batched recursive removal, the size walk, the power
lock, the container environment, the rate limiter, the throttle and the sink pool are classes, each method
proved equal to a step of a specification. What the system promises is then proved about those
specifications, over all runs or all interleavings.

| file | what it models |
|---|---|
| `PortAllocator.dfy` | ports of a node: allocation, claiming, release |
| `Nodes.dfy`, `Balancer.dfy` | nodes, and the round robin with index map and swap-remove |
| `Cluster.dfy` | registration, re-registration, disconnection, creation and cleanup as one state machine, with its invariant |
| `Controller.dfy` | the same handlers on shared mutable objects, each proved to take exactly the step of `Cluster.dfy` |
| `InstallLock.dfy` | any number of processes installing into one shared folder, by interleaved file system accesses |
| `FsTree.dfy`, `Sweep.dfy`, `QuotaFs.dfy` | directory trees, what attempted removals do to them, and the quota file system |
| `ServerFiles.dfy` | writes, copies and deletes with their usage accounting |
| `DiskSpace.dfy` | the size walk that counts each inode once |
| `Locker.dfy`, `PowerLock.dfy` | the try-lock, and power actions and resets interleaving around it |
| `DockerEnv.dfy`, `DockerOverlaps.dfy` | container states, their published log and what looks like a crash; operations that overlap |
| `Rate.dfy` | the fixed-window limiter and the console throttle |
| `Version.dfy` | versions, constraints and the choice of an image |
| `Flatten.dfy`, `ConfigLayers.dfy` | flattening of configuration maps and the merge of their layers |
| `Pager.dfy` | the paged listing of servers, both ends |
| `ScanReader.dfy` | lines of console output |
| `SinkPool.dfy` | sinks as rolling buffers |
| `Wrappers.dfy`, `Sequences.dfy`, `Integers.dfy`, `Numerals.dfy` | option and result types, shared notions about sequences, the 64-bit integers, and numbers as they are written |

The main results:

- ports and registration: `Cluster.EveryRunIsSafe` over all runs, and the four handlers of `Controller.Router`,
  which take exactly its steps on shared objects; `PortAllocator.AllocationFailsExactlyWhenFull`;
- the balancer: `Balancer.RoundIsFair`, `Balancer.PickRound`;
- the install lock: `InstallLock.InstallsExclusivelyOnce`, `InstallLock.LeavesInstalledExactly`,
  `InstallLock.ExclusiveExactlyWithoutFailures`, `InstallLock.EveryProcessCanLeave`;
- the quota file system: `QuotaFs.Quota.RemoveAll`, `QuotaFs.RemovalKeepsExactExactly`,
  `ServerFiles.RunKeepsExact`, `ServerFiles.RunStaysWithin`, `ServerFiles.RunsStayWithinExactly`,
  `ServerFiles.LimitHoldsExactlyWithoutOverflow`, `DiskSpace.DirectorySize`, `DiskSpace.RecalculationAgrees`;
- power: `PowerLock.LockDiscipline`, `PowerLock.ResetGoesInOrder`, `PowerLock.ApartExactlyWhenNeverStopped`,
  `PowerLock.ApartExactlyByRequests`, `PowerLock.ResetsApartExactlyByRequests`, `DockerEnv.RunKeepsLog`,
  `DockerOverlaps.OverlapsCrashExactly`;
- the smaller cores: `Rate.BoundedExactly`, `Rate.BoundIsTight`, `Rate.ThrottleStrikesOncePerRun`,
  `Version.AcceptedVersionsAreConvex`, `Version.ExpressionMeans`, `Version.ImageByPosition`,
  `Flatten.UnflattenUndoesFlatten`, `Pager.GetServers`, `ScanReader.EventsAreLinesExactly`,
  `SinkPool.BufferIsEndOfHeard`, `SinkPool.RegisteredOnceNeverPanics`.

How the code is read:

- Each handler of the controller is one step. A creation's later failures are an `outcome` parameter; the
  shuffled order of addresses, listing orders and map orders are arbitrary. A port range arrives parsed or as
  unparseable.
- `leaked` in `Cluster.dfy` collects the ports of failed creations, which the deferred rollback
  (protocube/server/manager.go:168-177) never releases.
- In the file system a `pinned` entry is one the kernel refuses to unlink. In `ServerFiles.dfy` the
  number of bytes a reader has is a parameter.
- Docker's answers, the outcome of attaching and booting, the clock, what ReadLine returns and which page
  requests fail are parameters.

Where the code and its own documentation or intent disagree, the model follows the code; the exact conditions
are proved:

- A node that re-registers with an unparseable range loses its allocator, and cleaning up its servers panics
  (`Cluster.CleanupSucceedsExactly`).
- A failed install removes the lock before the folder, the reverse of what
  daemon/server/install_lock.go:91-93 asks for; with more than one process the protocol is safe exactly when no
  install fails and nothing comes between creating folder and lock (`InstallLock.LeavesInstalledExactly`).
- The quota's unlinkat subtracts before it unlinks, and removeContentsFrom never returns the error it
  collected; a removal makes the usage drift exactly if a non-empty file refuses to be unlinked
  (`QuotaFs.RemovalKeepsExactExactly`), and reports the error of the directory's first unlink.
- The space check and the usage counter add in 64 bits and can wrap; under a positive limit that is exactly
  how files get beyond it, as long as nothing else makes the usage wrong
  (`ServerFiles.LimitHoldsExactlyWithoutOverflow`, `ServerFiles.WriteKeepsExactExactly`).
- A copy whose 51 numbered names are taken falls back to a time stamp without checking that it is free, opens
  the file without truncating it, and counts its size in full (`ServerFiles.CopyKeepsExactExactly`). The
  first numbered copy is "copy 1", not "copy 2" (`ServerFiles.CopyIsNamed`).
- A reset of a server that is not running takes no lock; requests are kept apart exactly if that never happens
  (`PowerLock.ApartExactlyWhenNeverStopped`, `PowerLock.ResetsApartExactlyWhenNeverStopped`).
- Terminate on a missing container publishes what looks like a crash (`DockerEnv.CrashEdgeExactly`); so can an
  operation that sets the server offline beside one that takes it up (`DockerOverlaps.OverlapsCrashExactly`).
- ScanReader is documented to cut off overlong lines; it drops only the rest of the current piece and sends
  what follows as further lines (`ScanReader.TooLongLine`).
- The pager multiplies in 64 bits and ignores that a page number was out of range: it can panic or answer with
  a wrong page (`Pager.GetAllServerConfigurations`, `Pager.HugePagePanics`), and for page sizes near 2^63 it
  can report a last page that keeps the daemon asking for ever (`Pager.GetServers`).
- A limit of 2^64 - 1 limits nothing (`Rate.BoundedExactly`).

## Model

| member | source | states |
|---|---|---|
| `PortAllocator.LowestFreeIsLeast` | protocube/node/allocator/allocator.go:138-147 | within one range the scan settles on the lowest port nobody holds, and on none only if every port of the range is held |
| `PortAllocator.ScanFindsFirst` | protocube/node/allocator/allocator.go:129-153 | over the ranges of an address the first range with a free port wins, with its lowest free port; no result means every range is exhausted |
| `PortAllocator.PickIsOffered` | protocube/node/allocator/allocator.go:79-126 | for every address order, what is handed out was inside a configured range and free |
| `PortAllocator.PickFindsFirst` | protocube/node/allocator/allocator.go:79-126 | the first address in the shuffled order that has a free port wins, with the port the scan of its ranges settles on |
| `PortAllocator.AllocationFailsExactlyWhenFull` | protocube/node/allocator/allocator.go:79-126 | for every shuffle of the addresses, an allocation fails if and only if every port of every configured range is in use |
| `PortAllocator.Allocator.Allocate` | protocube/node/allocator/allocator.go:129-153 | takes exactly the port of the scan and nothing else; each error leaves the book unchanged and names its cause |
| `PortAllocator.Allocator.NewAllocation` | protocube/node/allocator/allocator.go:79-126 | the nested loops hand out the slot the address order determines, record exactly that slot, and fail without a trace |
| `PortAllocator.Allocator.Release` | protocube/node/allocator/allocator.go:70-76 | removes exactly one slot from the ports in use; releasing a free port changes nothing |
| `PortAllocator.Allocator.Claim` | protocube/node/allocator/allocator.go:180-209 | adds the slot exactly when a configured range of its address covers the port |
| `PortAllocator.GroupedIsExact` | protocube/node/allocator/allocator.go:45-67 | grouping raw allocations by address loses no range and invents none |
| `PortAllocator.GroupedKeepsOrder` | protocube/node/allocator/allocator.go:45-67 | each address is listed with exactly the allocations sent for it, in the order in which they were sent |
| `PortAllocator.GroupedListsNoEmptyAddress` | protocube/node/allocator/allocator.go:45-67 | an address is listed only with at least one range |
| `PortAllocator.NewAllocator` | protocube/node/allocator/allocator.go:45-67 | succeeds exactly when every port range parses, and starts with no port in use |
| `Cluster.BootEstablishesInv` | protocube/server/manager.go:214-246 | servers loaded at start-up, with distinct recorded ports and no node connected, satisfy the invariant |
| `Cluster.RegisterKeepsInv` | protocube/api/router/router_node.go:22-83 | registration and re-registration with a fresh allocator keep the invariant, because claiming rebuilds exactly the live ports |
| `Cluster.DisconnectKeepsInv` | protocube/node/manager.go:121-133 | disconnecting unbinds the servers of that node only and keeps the invariant |
| `Cluster.CreateKeepsInv` | protocube/server/manager.go:140-211 | a creation keeps the invariant, whether it succeeds or fails at any later point and leaks its port |
| `Cluster.CleanupKeepsInv` | protocube/server/server.go:182-198 | removing a server gives back exactly its port and keeps the invariant |
| `Cluster.NodesAreAsRegistered` | protocube/node/node.go:116-128 | a node has the name and is as drained as when it was first registered; no later handler call changes these or its connection |
| `Cluster.DisconnectUnbinds` | protocube/node/manager.go:121-133 | a disconnection removes the node and unbinds exactly its servers; everything else stays |
| `Cluster.StepKeepsInv` | protocube/server/manager.go:109-211 | the invariant across allocator, server manager, node manager and balancer is kept by every handler |
| `Cluster.RunKeepsInv` | protocube/server/manager.go:109-211 | it holds after every sequence of handler calls |
| `Cluster.EveryRunIsSafe` | protocube/server/manager.go:109-211 | over every run no two servers of a node hold the same address and port; each book is exactly the live in-range ports plus the leaked ones; each server has the name and the current connection of its node, and no connection while the node is not registered; the balancer holds exactly the registered nodes; and the records so reached are a valid start-up |
| `Cluster.CreationFailsExactlyWhenFull` | protocube/node/allocator/allocator.go:79-126 | on a reachable state a creation finds no port exactly when every configured port is held by a live server or was leaked |
| `Cluster.CleanupSucceedsExactly` | protocube/server/server.go:182-198 | cleanup removes the server and frees its port at once, except exactly when the node is registered without an allocator and the release function goes through the node |
| `Cluster.CreatedServerCleansUp` | protocube/server/manager.go:140-211 | a created server holds a slot that was on offer, has the name and connection of the node, and can be cleaned up even after a failed re-registration of the node |
| `Cluster.FailedReregistrationStrands` | protocube/api/router/router_node.go:38-58 | a concrete run: a node that re-registers with ranges that do not parse makes the cleanup of its server panic, so the server stays |
| `Cluster.CreateChangesOnlyPorts` | protocube/server/manager.go:140-211 | a creation touches no other server, no other node and no client |
| `Cluster.CleanupChangesOnlyPorts` | protocube/server/server.go:182-198 | a cleanup touches no other server, no other node and no client |
| `Controller.ServerManager.ServersByNode` | protocube/server/manager.go:93-104 | lists exactly the servers of the node |
| `Controller.ServerManager.AttachOne` | protocube/server/manager.go:109-124 | one turn of the attach loop: client, name and release function set, port claimed |
| `Controller.ServerManager.AttachNodeClientToServers` | protocube/server/manager.go:109-124 | binds every server of the node, claims all their in-range ports in the given allocator, and leaves other servers alone |
| `Controller.ServerManager.DetachNodeClientFromServers` | protocube/server/manager.go:129-137 | clears client and release function of the servers of that node only |
| `Controller.ServerManager.CreateServer` | protocube/server/manager.go:140-211 | the whole effect on the manager and the allocator, for a missing allocator, a full one, and every later failure (the port stays taken) |
| `Controller.ServerManager.CleanupForDestroy` | protocube/server/server.go:182-198 | releases through the captured closure, then removes; a nil allocator panics before anything is removed |
| `Controller.NodeManager.Register` | protocube/node/manager.go:81-119 | the new node, with the name, connection and drain flag given, is listed, balanced and bound to its servers, whose ports are claimed in its allocator; every other node is untouched |
| `Controller.NodeManager.Disconnect` | protocube/node/manager.go:121-133 | the node leaves the manager and the balancer and its servers are unbound; every other node is untouched |
| `Controller.Router.Reregister` | protocube/api/router/router_node.go:38-58 | the node object keeps its client and gets a fresh allocator holding exactly its live ports, or none when a range does not parse |
| `Controller.Router.PostNodeRegister` | protocube/api/router/router_node.go:22-83 | on shared mutable objects the handler takes exactly the registration step of the state machine, names and drain flag included, and answers with the surviving connection |
| `Controller.Router.RegisteredIsBalanced` | protocube/node/manager.go:98-103 | a registered node has the name, connection and drain flag of the state machine, stands where the balancer looks for it, and is among the undrained positions, whose nodes a round of picks returns, exactly if it is not drained |
| `Controller.Router.PostNodeDisconnect` | protocube/api/router/router_node.go:92-97 | the handler takes exactly the disconnection step |
| `Controller.Router.ChooseNode` | protocube/api/router/router_system.go:141-171 | a creation request goes to the node it names, or else to the first undrained one from the cursor on; it is refused exactly if the named node is not registered, or every registered node is drained |
| `Controller.Router.PostServer` | protocube/server/manager.go:140-211 | the handler takes exactly the creation step, with aliasing between allocator, node and release closures accounted for |
| `Controller.Router.PostServerDeleted` | protocube/api/router/router_node.go:154-158 | the handler takes exactly the cleanup step, and panics exactly when that step keeps the server |
| `Balancer.PickIsFirstUndrained` | protocube/balancer/round_robin.go:22-38 | a pick is the first undrained node met from the cursor on, wrapping round |
| `Balancer.PicksFollowUpcoming` | protocube/balancer/round_robin.go:22-38 | consecutive picks walk through the undrained nodes in cursor order |
| `Balancer.UpcomingIsRotation` | protocube/balancer/round_robin.go:22-38 | one turn of the cursor meets each undrained node exactly once and no drained one |
| `Balancer.RoundIsFair` | protocube/balancer/round_robin.go:22-38 | with membership and drain flags fixed, as many picks as there are undrained nodes return each of them exactly once, from any cursor position |
| `Balancer.PickFailsExactlyWhenAllDrained` | protocube/balancer/round_robin.go:22-38 | nil is returned exactly when no node is undrained |
| `Balancer.PickRound` | protocube/balancer/round_robin.go:22-38 | on the object itself, as many calls of PickNode as there are undrained nodes return each undrained node exactly once and nothing else |
| `Balancer.RoundRobin.PickNode` | protocube/balancer/round_robin.go:22-38 | returns the node of the specified pick and moves only the cursor |
| `Balancer.RoundRobin.AddNode` | protocube/balancer/round_robin.go:40-53 | a known id is replaced in place, a new one appended; the map stays the exact inverse of the slice |
| `Balancer.RoundRobin.RemoveNode` | protocube/balancer/round_robin.go:55-81 | swap-remove: the last node moves into the gap, the cursor stays valid, the map stays the exact inverse |
| `Balancer.SwapRemoveKeepsOthers` | protocube/balancer/round_robin.go:55-81 | after swap-remove the slice holds the same nodes minus the removed one |
| `InstallLock.InstallsExclusivelyOnce` | daemon/server/install_lock.go:94-131 | for any number of processes and any interleaving without failing installs: at most one installs at any moment, and the install body is entered at most once |
| `InstallLock.RunKeepsInvariants` | daemon/server/install_lock.go:59-131 | the lock file exists exactly while one process holds it, content means an install under way or done, and with folder and lock created together an unlocked folder is an installed base |
| `InstallLock.EveryProcessCanLeave` | daemon/server/power.go:296-333 | from every state a failure-free run can reach, any process can still leave the loop |
| `InstallLock.LatecomersTakeNoLock` | daemon/server/install_lock.go:94-98 | without failing installs, a process that has not tested for the folder when it exists never comes near the lock: it waits and leaves |
| `InstallLock.FileSystemChanges` | daemon/server/install_lock.go:94-131 | whether or not installs fail: who creates and removes folder, lock and content, and who enters the install body |
| `InstallLock.ErrorsExactly` | daemon/server/install_lock.go:99-131 | when a process gives up with an error, when it leaves, and when it is sent back to test again |
| `InstallLock.ExclusiveExactlyWithoutFailures` | daemon/server/power.go:296-333 | for any number of processes, mutual exclusion over all runs holds exactly when no install can fail or there are at most two processes |
| `InstallLock.LeavesInstalledExactly` | daemon/server/power.go:296-333 | for any number of processes, leaving the loop means a completely installed base exactly when no install can fail and nothing comes between creating the folder and creating the lock, or there is at most one process |
| `InstallLock.EarlyLeaveBetweenMkdirAndLock` | daemon/server/install_lock.go:99-110 | a schedule for every number of processes: a newcomer between the two creations leaves with nothing installed |
| `InstallLock.EarlyLeaveAfterFailure` | daemon/server/power.go:307-314 | a schedule: a failed install removes its lock before its folder, and a newcomer in between leaves with nothing installed |
| `InstallLock.TwoInstallersAfterFailure` | daemon/server/power.go:307-314 | a schedule: the late removal of the folder takes a successor's lock with it and two processes install at once |
| `FsTree.VanishesExactlyWhenUnpinned` | daemon/internal/ufs/removeall_unix.go:183-235 | a subtree can be removed entirely exactly when nothing in it refuses to be unlinked |
| `FsTree.SurvivesTwice` | daemon/internal/ufs/removeall_unix.go:115-181 | removing again what survived a removal changes nothing |
| `FsTree.SurvivingPaths` | daemon/internal/ufs/removeall_unix.go:31-74 | of a tree that does not vanish exactly the paths survive that lead to something with a pinned entry in it |
| `Sweep.SweptTwice` | daemon/internal/ufs/removeall_unix.go:115-181 | attempts on two sets of names add up, in any order and with repetition |
| `Sweep.SweptAll` | daemon/internal/ufs/removeall_unix.go:115-181 | once every remaining name has been attempted, what remains is exactly what survives |
| `QuotaFs.Quota.Add` | daemon/internal/ufs/fs_quota.go:69-78 | the counter moves by the amount in 64 bits and becomes 0 if the sum is negative, also after an overflow |
| `QuotaFs.Quota.CanFit` | daemon/internal/ufs/fs_quota.go:82-109 | admits everything, nothing, or what the 64-bit sum says |
| `QuotaFs.Quota.UnlinkAt` | daemon/internal/ufs/fs_quota.go:161-169 | the size of a regular file is subtracted before the unlink is tried, whether or not it succeeds; every error case and the resulting tree |
| `QuotaFs.Quota.RemoveBatch` | daemon/internal/ufs/removeall_unix.go:133-165 | one batch: exactly the names given are attempted once each, with the number of failures and the charge |
| `QuotaFs.Quota.SweepOnce` | daemon/internal/ufs/removeall_unix.go:115-181 | batches of 1024 from one opening of the directory, until the listing ends or progress calls for a re-open; every sweep but the last removes something |
| `QuotaFs.Quota.RemoveContentsFrom` | daemon/internal/ufs/removeall_unix.go:115-181 | for any listing order and any number of re-opens, the directory is left with exactly what survives |
| `QuotaFs.Quota.RemoveAllFrom` | daemon/internal/ufs/removeall_unix.go:183-235 | recursion on any tree: exactly what survives is left, the error is the one of the first unlink, and each removed file is charged once |
| `QuotaFs.Quota.RemoveAll` | daemon/internal/ufs/fs_quota.go:139-155 | terminates on every tree, leaves nothing removable of the subtree and everything else, returns an error exactly when something survives; usage is max(0, usage minus the removed sizes) exactly when no non-empty file stays behind or the usage runs out anyway |
| `QuotaFs.Quota.Remove` | daemon/internal/ufs/fs_quota.go:114-130 | a file or empty directory goes and its size is subtracted; every failure changes neither tree nor usage |
| `QuotaFs.RemovalIsExact` | daemon/internal/ufs/removeall_unix.go:31-74 | after a removal, the path holds exactly what survives, every unrelated path finds what it found before, and the total drops by what is gone |
| `QuotaFs.AccountingExactlyWhen` | daemon/internal/ufs/fs_quota.go:114-169 | for every tree and what RemoveAll charges for it: each removed file is subtracted once and nothing else if and only if every pinned file in it is empty or the usage is used up |
| `QuotaFs.RemovalKeepsExactExactly` | daemon/internal/ufs/fs_quota.go:139-169 | exact usage stays exact through a removal if and only if every pinned file below the path is empty; otherwise it is too low |
| `QuotaFs.PinnedFileDrifts` | daemon/internal/ufs/fs_quota.go:161-169 | a concrete tree in which nothing is removed and three bytes are subtracted |
| `Sweep.NothingKeptExactly` | daemon/internal/ufs/removeall_unix.go:115-181 | what survives of a tree has no bytes if and only if its pinned files have none |
| `ServerFiles.PutFileIsExact` | daemon/server/filesystem/filesystem.go:103-105 | placing a file changes the total by exactly the difference of the sizes at that path |
| `ServerFiles.PutFileElsewhere` | daemon/server/filesystem/filesystem.go:103-105 | and nothing at any unrelated path |
| `ServerFiles.TransferredIsMost` | daemon/server/filesystem/filesystem.go:180-190 | as much is transferred as both the reader and the declared size allow |
| `ServerFiles.WriteErrors` | daemon/server/filesystem/filesystem.go:148-195 | why a write is refused, in every case; the size check comes before the file is opened |
| `ServerFiles.SpecialLimits` | daemon/internal/ufs/fs_quota.go:82-109 | a limit of -1 keeps everything out; a limit of 0, or a usage that is not known, nothing |
| `ServerFiles.WriteKeepsExactExactly` | daemon/server/filesystem/filesystem.go:148-195 | a write keeps exact usage exact, for readers shorter or longer than declared, if and only if it is not carried out or the bytes in use stay a 64-bit number; on error nothing changes, else the file holds the transferred bytes |
| `ServerFiles.CheckIsExactUnlessItWraps` | daemon/internal/ufs/fs_quota.go:82-109 | unless its 64-bit sums wrap, the space check admits a write exactly when the declared size fits |
| `ServerFiles.WriteStaysWithinExactly` | daemon/server/filesystem/filesystem.go:148-195 | from exact usage within the limit, a write keeps the files within it for every reader, shorter or longer than declared, if and only if it is not carried out or the declared size really fits |
| `ServerFiles.WrappedCheckAdmits` | daemon/internal/ufs/fs_quota.go:82-109 | a declared size near the top of the 64-bit range passes a limit it exceeds |
| `ServerFiles.WritefileKeepsExact` | daemon/server/filesystem/filesystem.go:112-146 | the unchecked write keeps exact usage exact on the same condition and the files within a limit exactly when the data fits |
| `ServerFiles.WritefileErrors` | daemon/server/filesystem/filesystem.go:112-146 | why an unchecked write is refused, in every case |
| `ServerFiles.CopyTargetTakenOnlyWhenAllAre` | daemon/server/filesystem/filesystem.go:520-545 | a copy lands on an existing name only if all 51 numbered names are taken |
| `ServerFiles.SplitNameMeans` | daemon/server/filesystem/filesystem.go:577-586 | the extension begins at the last dot, a .tar in front of it belongs to it, and a name without a dot has none |
| `ServerFiles.CopyIsNamed` | daemon/server/filesystem/filesystem.go:520-545 | the copy takes the first free of " copy", " copy 1", " copy 2", ... up to 51 names, numbers in decimal, and with all of them taken the one with the time stamp |
| `ServerFiles.CopyLands` | daemon/server/filesystem/filesystem.go:549-609 | the copy is there under its name with the size of the source, or the old size of a longer file it was written over; unrelated paths find what they found |
| `ServerFiles.CopyErrors` | daemon/server/filesystem/filesystem.go:549-609 | why a copy is refused, in every case |
| `ServerFiles.CopyKeepsExactExactly` | daemon/server/filesystem/filesystem.go:549-609 | whatever is copied, exact usage stays exact if and only if the copy does not write a non-empty file over a non-empty file and the sum stays a 64-bit number; exactly when a copy is carried out; without overflow usage is never too low |
| `ServerFiles.SecondCopyInOneSecondDrifts` | daemon/server/filesystem/filesystem.go:520-545 | a concrete directory in which a second copy in one second makes the usage wrong |
| `ServerFiles.DeleteKeepsExactExactly` | daemon/server/filesystem/filesystem.go:637-639 | on any tree a deletion keeps exact usage exact if and only if it leaves no non-empty file behind; the files do not grow, and with nothing pinned below the path it is gone |
| `ServerFiles.UnpinnedDeletesDoNotDrift` | daemon/server/filesystem/filesystem.go:637-639 | from exact usage, in a tree in which nothing is pinned no deletion drifts, and it stays such a tree through every operation |
| `ServerFiles.RunKeepsExact` | daemon/server/filesystem/filesystem.go:148-195 | over every run of writes, copies and deletes on any tree the usage equals the total size of the regular files after every operation if and only if no operation along the run drifts: no copy of a non-empty file onto a non-empty file, no deletion that leaves a non-empty file behind, no total beyond 64 bits |
| `ServerFiles.RunStaysWithin` | daemon/server/filesystem/filesystem.go:148-195 | if nothing collides along a run (no copy of a non-empty file onto a non-empty file, no deletion that leaves a non-empty file behind) and each write or copy that is carried out fits by its declared size, the files stay within the limit and the usage exact after every operation, for readers shorter or longer than declared |
| `ServerFiles.RunsStayWithinExactly` | daemon/server/filesystem/filesystem.go:148-195 | for given paths and declared sizes none of whose runs collides, overflow included: all runs, whatever the readers hold, stay within the limit throughout if and only if along all of them every operation carried out fits by its declared size |
| `ServerFiles.SumsThatFitAreSound` | daemon/internal/ufs/fs_quota.go:82-109 | under a positive limit, an operation that passes the check fits by its declared size, and does not overflow, whenever the 64-bit sums of the check do not wrap |
| `ServerFiles.FitsExactlyUnlessItOverflows` | daemon/internal/ufs/fs_quota.go:82-109 | under a positive limit the check lets something pass that does not fit if and only if the bytes in use, with what the operation declares, would be more than a 64-bit number |
| `ServerFiles.FittingRunsExactly` | daemon/server/filesystem/filesystem.go:148-195 | under a positive limit, along a run in which nothing collides: everything carried out fits if and only if nothing overflows, and then the run stays within the limit with exact usage |
| `ServerFiles.LimitHoldsExactlyWithoutOverflow` | daemon/server/filesystem/filesystem.go:148-195 | under a positive limit, for given paths and declared sizes none of whose runs collides: all runs, whatever the readers hold, stay within the limit throughout if and only if nothing along any of them overflows |
| `ServerFiles.WrappedRunExceeds` | daemon/internal/ufs/fs_quota.go:82-109 | a concrete request with no collision that overflows, passes the check and exceeds the limit |
| `ServerFiles.Filesystem.Write` | daemon/server/filesystem/filesystem.go:148-195 | the method has exactly the specified outcome, including every error branch |
| `ServerFiles.Filesystem.Writefile` | daemon/server/filesystem/filesystem.go:112-146 | likewise for the write without a size |
| `ServerFiles.Filesystem.FindCopySuffix` | daemon/server/filesystem/filesystem.go:520-545 | the loop finds the first free of the 51 candidates, or falls back to the time stamp |
| `ServerFiles.Filesystem.Copy` | daemon/server/filesystem/filesystem.go:549-609 | the method has exactly the specified outcome, including landing on an existing file |
| `ServerFiles.Filesystem.Delete` | daemon/server/filesystem/filesystem.go:637-639 | on any tree leaves exactly what survives and reports an error exactly when something does; the usage goes down by what is gone and what a failed removal of a non-empty file charges |
| `DiskSpace.SizeWalk.Visit` | daemon/server/filesystem/disk_space.go:174-200 | a regular file adds its size unless it has several links and one of them was met before |
| `DiskSpace.SizeWalk.WalkDir` | daemon/internal/ufs/walk_unix.go:37-90 | for every listing order the walk visits every entry exactly once, the directory first |
| `DiskSpace.DirectorySize` | daemon/server/filesystem/disk_space.go:168-207 | the size is the sum over the distinct inodes of the regular files, for every tree and every order |
| `DiskSpace.RecalculationAgrees` | daemon/server/filesystem/disk_space.go:138-165 | the recomputed size equals the total that writes and deletes keep if and only if every inode with several names in the tree is empty; otherwise it is smaller |
| `Locker.Locker.IsLocked` | daemon/system/locker.go:26-30 | reports exactly whether the slot is taken; a destroyed lock is not locked |
| `Locker.Locker.Acquire` | daemon/system/locker.go:34-43 | succeeds exactly on a free slot and fills it |
| `Locker.Locker.TryAcquire` | daemon/system/locker.go:47-59 | returns only with the slot taken or the context done |
| `Locker.Locker.Release` | daemon/system/locker.go:64-71 | empties the slot whoever filled it; on a destroyed lock nothing happens |
| `Locker.DestroyedStaysDestroyed` | daemon/system/locker.go:74-85 | after Destroy no sequence of calls makes an Acquire succeed |
| `PowerLock.StepKeepsInv` | daemon/server/power.go:61-275 | each atomic step of any thread keeps: one holder at most, who is the owner of the token, and acquisitions balanced by releases |
| `PowerLock.LockDiscipline` | daemon/server/power.go:61-275 | in every interleaving of any number of power actions and resets: at most one start, stop, restart or locked reset at a time; a release is made by the thread that acquired; and for each phase of each request exactly how often it has acquired and released: a locked reset once and not at all until it unlocks, once each when it goes on to start the server, an action that goes ahead without the lock never |
| `PowerLock.ResetGoesInOrder` | daemon/server/power.go:225-275 | over every interleaving: a locked reset works on the overlay only after it found the server running, stopped it and waited for it, each with success and in this order, and starts the server only if the overlay reset succeeded too |
| `PowerLock.FailedResetEnds` | daemon/server/power.go:243-267 | over every continuation: a reset whose stop, wait or overlay reset fails only releases the lock, once, and ends; it neither goes on with the reset nor starts the server |
| `PowerLock.UnlockedResetEnds` | daemon/server/power.go:256-274 | over every continuation: a reset without the lock never takes it and never starts the server |
| `PowerLock.ResetGivesUp` | daemon/server/power.go:226-241 | a reset that cannot tell whether the server runs, or does not get the lock, ends at once and leaves everything as it was |
| `PowerLock.LocklessNeverReleases` | daemon/server/power.go:108-117 | a kill, pause or unpause that went ahead without the lock never releases in any continuation |
| `PowerLock.OverlapIsLockless` | daemon/server/power.go:225-275 | in every reachable state a reset overlaps another request's start, stop or restart if and only if it goes on without the lock |
| `PowerLock.ApartExactlyWhenNeverStopped` | daemon/server/power.go:225-275 | over all runs of any number of requests, resets and power actions are kept apart if and only if no reset finds the server not running or there is at most one request |
| `PowerLock.ApartExactlyByRequests` | daemon/server/power.go:225-275 | for given requests, all runs keep them apart if and only if there is no reset together with another start, stop, restart or reset |
| `PowerLock.ResetsMeetLockless` | daemon/server/power.go:225-275 | in every reachable state two resets work on the overlay at once if and only if one of them goes on without the lock beside the other |
| `PowerLock.ResetsApartExactlyByRequests` | daemon/server/power.go:225-275 | for given requests, all runs keep resets apart from each other if and only if no two of the requests are resets |
| `PowerLock.ResetsApartExactlyWhenNeverStopped` | daemon/server/power.go:225-275 | over all runs of any number of requests, resets are kept apart from each other if and only if no reset finds the server not running or there is at most one request |
| `PowerLock.NoAcquireAfterDestroy` | daemon/server/power.go:61-118 | once the lock is destroyed, with nobody blocked on it, no thread ever acquires it again |
| `PowerLock.DestroyedForGood` | daemon/system/locker.go:74-85 | destroying the lock while nobody waits disturbs no request, and from then on none acquires it |
| `PowerLock.EveryRequestCanFinish` | daemon/server/power.go:61-275 | from any state any request can end by at most nine steps of its own; nothing has to be waited for without end |
| `PowerLock.UnlockedResetMeetsStart` | daemon/server/power.go:225-261 | for any such pair of requests a schedule in which the reset takes no lock and the other runs beside it |
| `DockerEnv.CrashEdgeExactly` | daemon/environment/docker/power.go:278-323 | an operation publishes a running-to-offline or starting-to-offline edge if and only if it is a Terminate of a running or starting server whose container is missing |
| `DockerEnv.WaitForStopIsQuiet` | daemon/environment/docker/power.go:215-275 | a stop followed by a forced kill never publishes such an edge, whatever Docker answers |
| `DockerEnv.ReportMeans` | daemon/environment/docker/power.go:50-368 | what the error or success of each operation means: a start reported as successful leaves the server starting or running, one that fails after its boot began leaves it offline; a kill succeeds exactly if it leaves it offline by its own doing; a pause, resume or wait likewise |
| `DockerEnv.RunKeepsLog` | daemon/environment/docker/environment.go:192-207 | over every run consecutive published states differ, the last one is the current state, nothing published is taken back, and a crash edge exists exactly when some Terminate hit a missing container |
| `DockerOverlaps.AloneIsStep` | daemon/environment/docker/power.go:50-368 | each operation is the sequence of its single looks at and changes of the state: undisturbed, that sequence does exactly what the operation does |
| `DockerOverlaps.RunIsInterleaving` | daemon/environment/docker/power.go:50-368 | the runs of one operation after the other are among the interleavings |
| `DockerOverlaps.ProgramMeans` | daemon/environment/docker/power.go:50-368 | which operations take the server up, can set it offline, or take it out of offline, said of the operation and the answers of Docker |
| `DockerOverlaps.OverlapsCrashExactly` | daemon/server/power.go:108-117 | for any number of operations at once, from any state and for all answers of Docker: some interleaving publishes what looks like a crash if and only if the server is up and a missing container is killed, or one operation takes the server up and another one can set it offline, at once or after a third one has taken it out of offline |
| `DockerOverlaps.KillBesideStart` | daemon/environment/docker/power.go:278-323 | a kill that finds the container not running, beside a start of the stopped server, can make the start look like a crash, although neither order of the two one after the other does |
| `DockerEnv.Environment.SetState` | daemon/environment/docker/environment.go:192-207 | publishes exactly the changes |
| `DockerEnv.Environment.StartServer` | daemon/environment/docker/power.go:50-131 | the state sequence of every path, including the deferred stopping-then-offline after an error, and exactly when success is reported |
| `DockerEnv.Environment.StopServer` | daemon/environment/docker/power.go:140-205 | the state sequence for signal, command and native stops |
| `DockerEnv.Environment.SignalContainer` | daemon/environment/docker/power.go:278-308 | the state sequence for missing, stopped and running containers |
| `DockerEnv.Environment.TerminateServer` | daemon/environment/docker/power.go:312-323 | offline is published, and success reported, exactly when the signal succeeded |
| `DockerEnv.Environment.WaitForStop` | daemon/environment/docker/power.go:215-275 | when the kill follows the stop, and exactly when success is reported |
| `DockerEnv.Environment.IsRunning` | daemon/environment/docker/environment.go:137-147 | a paused container is not running, and the state is synchronised |
| `DockerEnv.Environment.PauseServer` | daemon/environment/docker/power.go:327-346 | the state sequence and the report for every container state and answer |
| `DockerEnv.Environment.UnpauseServer` | daemon/environment/docker/power.go:349-368 | the state sequence and the report for every container state and answer |
| `Rate.WindowBound` | daemon/system/rate.go:27-50 | for every non-decreasing clock, a closed interval no longer than the duration with r resets has at most (2 + r) * limit successful tries |
| `Rate.BoundIsTight` | daemon/system/rate.go:27-50 | for every limit, every positive duration and every number r of resets a run attains (2 + r) * limit |
| `Rate.BoundedExactly` | daemon/system/rate.go:27-50 | the bound holds for every duration, clock, run and interval if and only if the limit is below 2^64 - 1 |
| `Rate.LargestLimitRefusesNothing` | daemon/system/rate.go:36-41 | with the limit 2^64 - 1 the counter wraps and nothing is ever refused |
| `Rate.TwoBursts` | daemon/system/rate.go:30-47 | exactly how many of two bursts of calls succeed: what the window has room for, and the whole limit more than a duration after the window was opened |
| `Rate.BurstsAfterReset` | daemon/system/rate.go:45-50 | after a reset the whole limit is there again, in a window that begins with the reset |
| `Rate.ThrottleStrikesOncePerRun` | daemon/server/console.go:65-76 | the strike fires exactly at the first call of each maximal run of refused calls, whatever the clock and the resets |
| `Rate.AllowedExactlyAsLimited` | daemon/server/console.go:66-77 | over every run the throttle allows exactly what its limiter does |
| `Rate.Rate.Try` | daemon/system/rate.go:27-42 | the method takes exactly the specified step |
| `Rate.Rate.Reset` | daemon/system/rate.go:45-50 | the method takes exactly the specified step |
| `Rate.ConsoleThrottle.Allow` | daemon/server/console.go:65-76 | limiter and lock together take exactly the specified step |
| `Rate.ConsoleThrottle.Reset` | daemon/server/console.go:79-81 | only the limiter is reset; the lock keeps its state |
| `Version.PatternTakesLongestCore` | protocube/software/version.go:95-101 | however the pattern matches, the longest numeric core matches too and begins with the same components |
| `Version.ParseUndoesFormat` | protocube/software/version.go:89-115 | parsing a formatted version gives its components back, whatever suffix follows |
| `Version.ParsesExactly` | protocube/software/version.go:87-118 | numbers with dots between them and any suffix that belongs to none of them give the numbers, unless one is too large or a line feed comes further on |
| `Version.TrimMeans` | protocube/software/version.go:90 | the white space of Unicode around a version is cut off, and nothing else |
| `Version.ParseErrors` | protocube/software/version.go:87-118 | nothing but white space is empty; what does not begin with a digit has no number |
| `Version.ParseVersion` | protocube/software/version.go:89-115 | the loop over the components, with overflow of any component as an error |
| `Version.CompareVersions` | protocube/software/version.go:203-227 | the loop computes the comparison |
| `Version.CompareMeans` | protocube/software/version.go:203-227 | the comparison decides the first difference of the component sequences extended by zeros without end |
| `Version.CompareIsTotalPreorder` | protocube/software/version.go:203-227 | reflexive, antisymmetric in sign, transitive also for strict steps |
| `Version.EqualUpToTrailingZeros` | protocube/software/version.go:203-227 | two versions compare equal if and only if they are the same without trailing zeros |
| `Version.SplitTakesLongest` | protocube/software/version.go:178-199 | the operator is the longest one the token starts with, the rest is the version |
| `Version.SplitComparatorToken` | protocube/software/version.go:178-199 | the two loops over the operators find it |
| `Version.MatchesVersionConstraint` | protocube/software/version.go:126-174 | the loop accepts exactly when every token parses and holds |
| `Version.EveryTokenMustParse` | protocube/software/version.go:129-137 | an expression with a token whose version cannot be read accepts nothing |
| `Version.TokenMeans` | protocube/software/version.go:126-199 | an operator followed by a written version accepts exactly the versions on the right side of it, component by component; parsing, splitting and comparing together |
| `Version.ExpressionMeans` | protocube/software/version.go:121-174 | any number of operators with versions, with any white space between and around them, accept exactly the versions that meet the demand of each |
| `Version.RangeMeans` | protocube/software/version.go:121-174 | two such tokens separated by a space demand both, so a lower and an upper bound make an interval |
| `Version.AcceptedVersionsAreConvex` | protocube/software/version.go:126-174 | for every expression: what lies between two accepted versions is accepted |
| `Version.EqualVersionsGetSameImage` | protocube/software/version.go:26-85 | versions that compare equal, however written, get the same image or the same error |
| `Version.FirstSelectedIsFirst` | protocube/software/version.go:54-72 | the entry chosen selects the version and no earlier one does |
| `Version.ImageByPosition` | protocube/software/version.go:24-85 | by position in the list: the image is that of the first accepting entry; if none accepts, the last default decides; and without a default there is no image |
| `Version.SelectionBetween` | protocube/software/version.go:54-72 | a version between two that the same entry selects is selected by that entry or an earlier one |
| `Version.ImageForVersion` | protocube/software/version.go:26-85 | the nested loops return the image of the first matching entry, else of the last default, with each error in its case |
| `Flatten.FlattenMap` | protocube/server/config_parser.go:65-86 | for every map and visiting order: an entry for every leaf, and nothing but leaves under their dotted keys |
| `Flatten.SplitUndoesDotted` | protocube/server/config_parser.go:65-86 | for non-empty dot-free keys, splitting the dotted key gives back the path |
| `Flatten.PlainLookups` | protocube/server/config_parser.go:65-86 | for such keys the dotted keys are distinct and every flat lookup is the nested lookup along the path |
| `Flatten.UnflattenUndoesFlatten` | protocube/server/config_parser.go:65-86 | unflattening returns the original map if and only if it has no empty sub-map |
| `Flatten.LosesNothingExactly` | protocube/server/config_parser.go:65-86 | for all keys: every leaf is found under its dotted key if and only if no two leaves with different data share one |
| `Flatten.DottedAndEmptyKeysCollide` | protocube/server/config_parser.go:65-86 | a dotted key and an empty key that lose a leaf |
| `ConfigLayers.AddLayer` | protocube/server/config_parser.go:23-32 | one layer merged, in any order of its files |
| `ConfigLayers.LayersMean` | protocube/server/config_parser.go:17-48 | parser and values of each key come from the overrides if they have them, else from the blueprint, else from the software |
| `ConfigLayers.GetConfigFiles` | protocube/server/config_parser.go:18-60 | each file of any layer exactly once, with the parser of the last layer that has the file and each top-level key from the last layer that has the key; files of the software first, then those of the blueprint, then the rest |
| `Pager.GetAllServerConfigurations` | protocube/api/router/router_node.go:207-279 | for every page number and page size: the answer is the requested page if and only if the product of page and size is a 64-bit number or the wrapped start is behind the listing; exactly when slicing panics; from and to delimit what is answered |
| `Pager.HugePagePanics` | protocube/api/router/router_node.go:213-246 | a page number beyond the 64-bit range panics for every listing, even the empty one |
| `Pager.WrappedCount` | protocube/api/router/router_node.go:255-258 | exactly when the rounded-up quotient survives |
| `Pager.GetServersPaged` | daemon/remote/servers.go:68-81 | page 0 is answered with page 1; a panic of the controller fails the request |
| `Pager.LastPageExactly` | protocube/api/router/router_node.go:255-258 | the last page reported: the right number, or after an overflow none at all or 2^64 - 1 |
| `Pager.GetServers` | daemon/remote/servers.go:36-64 | for every list length, limit and order of completion: every configuration exactly once; or an error exactly when some page's request failed; or no return, exactly when the last page is reported as 2^64 - 1 |
| `Pager.EveryEntryOnce` | daemon/remote/servers.go:36-64 | the pages in any order, each once, make up the listing as a multiset |
| `Pager.InOrderIsTheListing` | daemon/remote/servers.go:36-64 | in page order they make up the listing itself |
| `ScanReader.PiecewiseExactly` | daemon/system/utils.go:72-77 | rewriting piece by piece keeps the length and equals rewriting the whole line if and only if no pair straddles a boundary |
| `ScanReader.RewriteAt` | daemon/system/utils.go:72-76 | byte by byte what replacing blank and carriage return by carriage return and line feed does |
| `ScanReader.EventSizes` | daemon/system/utils.go:79-113 | every event has between 1 and 65536 bytes, for every input |
| `ScanReader.EventsAreLinesExactly` | daemon/system/utils.go:49-124 | the events are the non-empty lines in order, each the concatenation of its rewritten pieces, if no line exceeds the limit, and for input that ends well only then |
| `ScanReader.TooLongLine` | daemon/system/utils.go:79-93 | a line over the limit is cut where it passes it and its remaining pieces are sent as if they were the next line |
| `ScanReader.FillBuffer` | daemon/system/utils.go:62-104 | the inner loop up to the end of a line, the limit, or the end of the input |
| `ScanReader.ScanReader` | daemon/system/utils.go:49-124 | the nested loops send exactly the specified events and report exactly the failures |
| `SinkPool.RegisteredOnceNeverPanics` | daemon/system/sink_pool.go:32-127 | over every run in which a channel is registered at most once no channel is closed twice or sent to after it was closed, and buffers stay within capacity |
| `SinkPool.BufferIsEndOfHeard` | daemon/system/sink_pool.go:96-127 | under any reads a sink's buffer is a contiguous end of the messages pushed since it joined, within capacity; without reads the longest such end |
| `SinkPool.OffKeepsOrder` | daemon/system/sink_pool.go:40-65 | Off closes the channel and keeps the other sinks in order; an unknown channel is left alone |
| `SinkPool.OffNil` | daemon/system/sink_pool.go:40-65 | Off on a nil channel takes the first nil sink out and closes nothing |
| `SinkPool.DestroyClosesAll` | daemon/system/sink_pool.go:69-78 | Destroy leaves an empty pool and exactly the registered channels closed |
| `SinkPool.PushReachesAll` | daemon/system/sink_pool.go:96-127 | a push puts the message at the end of every registered buffer, pushing the oldest one out of a full one |
| `SinkPool.DestroyPanicsExactly` | daemon/system/sink_pool.go:69-78 | destroying a pool of open channels panics if and only if a channel is registered twice |
| `SinkPool.SecondRegistrationPanics` | daemon/system/sink_pool.go:40-65 | after Off on a channel registered twice, the next Off, Push or Destroy panics |
| `SinkPool.SinkPool.On` | daemon/system/sink_pool.go:32-36 | appends the sink |
| `SinkPool.SinkPool.Off` | daemon/system/sink_pool.go:40-65 | the loop removes the first match and closes it |
| `SinkPool.SinkPool.Destroy` | daemon/system/sink_pool.go:69-78 | the loop closes every sink, stopping at a panic |
| `SinkPool.SinkPool.Push` | daemon/system/sink_pool.go:96-127 | every sink gets the message as a rolling buffer does |
| `PowerLock.AtTheLock` | daemon/server/power.go:77-118 | case by case: a kill, pause or unpause is always carried out, with the lock if it is free; a start, stop or restart exactly if it gets the lock, and else it fails or waits as it was told to |
| `DockerEnv.ReachedState` | daemon/environment/docker/power.go:50-368 | case by case: the state each operation leaves, for every answer of Docker, and that nothing changes without an answer |

## Left out

- Cluster.EveryRunIsSafe: the steps inside a registration are not interleaved with a creation, although a node is already listed and balanced before its servers' ports are claimed (protocube/node/manager.go:102-115); each handler is one step.
- Cluster.CleanupKeepsInv: a cleanup of a server that is no longer in the manager is not an event; a second release of its port by a stale handle is not covered.
- Cluster.NodesAreAsRegistered: draining or undraining a registered node through the API is not a handler here.
- Controller.Router.PostServer: the choice of blueprint and software, the database record and the request to the node are the `outcome` parameter.
- InstallLock.InstallsExclusivelyOnce: locks older than ten minutes, cancelled contexts, and successful installs that leave the folder empty are not in the runs considered.
- InstallLock.LeavesInstalledExactly: stated for runs without the stale-lock path.
- The install loop, HandlePowerAction and HandleReset are state machines over single steps, not methods: their point is how several of them interleave, which a sequential method would not show.
- PowerLock.NoAcquireAfterDestroy: Destroy is a step only while nobody is blocked in TryAcquire; what a blocked sender on the closed channel does is not modelled.
- PowerLock.LockDiscipline: the environment operations inside an action are one step each, and the deletion of unsaved servers that some paths start is not part of the runs.
- DockerEnv.RunKeepsLog: one operation after the other; operations that overlap are in `DockerOverlaps.dfy`. State changes made by the attach goroutine when the container's stream ends, by destroying the container and by listeners of the event bus are not among the operations, and delivery of events is not modelled.
- DockerOverlaps.OverlapsCrashExactly: what Docker answers an operation is given beforehand and does not depend on the others; a change of state, that is SetState's comparison, store and publication, is one step.
- QuotaFs.Quota.RemoveAll: hard links, symbolic links on the way to the path (answered as not a directory), openat sandboxing and file systems that change during the removal are not modelled; `over` says how much more than the removed sizes was charged.
- ServerFiles.RunKeepsExact: how much a deletion subtracts too much, within what `QuotaFs.Quota.RemoveAll` ensures, is a parameter of the operation; runs start from a usage that has been calculated.
- ServerFiles.Filesystem.Touch: for paths that are missing or name a file.
- DiskSpace.DirectorySize: errors of stat and open during the walk are not modelled; sizes do not overflow.
- Rate.WindowBound: the difference of two clock readings is not saturated.
- Version.ParseVersion: strings are sequences of characters; invalid UTF-8 is not modelled. A mapping with several keys is given in the order in which the range visits it.
- ConfigLayers.GetConfigFiles: the conversion of values by parser.NewReplaceValue, and its errors, are not modelled.
- Pager.GetServers: the listing does not change between requests, and is no longer than a slice of pointers can be; a request fails as a whole or not at all.
- SinkPool.SinkPool.Push: one step for all sinks; the ten milliseconds of waiting for room are not modelled.
- FormatBytes: floating-point formatting.
- The credential cache, heartbeats, health checks, telemetry, the remaining routers, banners and the command line: plumbing around the modelled state.
- The rewriting of configuration files and the overlay mounts: the behaviour of foreign libraries and of the kernel.
- Restarting the controller is covered by `Cluster.Boot` on the records of any reachable state; loading them from the database is not.
