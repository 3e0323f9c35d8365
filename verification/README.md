# netd: routing policy, socket marks, packet filters

A Dafny model of the Android network daemon's decision logic, with proofs about all its runs.

- **The network-selection engine.** `NetworkController` keeps networks, interfaces, VPN user ranges, permissions and
  the default network; `RouteController` compiles every command into kernel policy rules; `FwmarkServer` gives each
  socket a 32-bit mark that those rules match on. The kernel is two multisets of rules, one per address family: an add
  inserts one copy, a delete removes one equal copy or fails. What netd does not control (interface indices, whether an
  interface is there, the answer to each request) comes from an environment, and every statement holds for all
  environments.
- **UidRanges**, the sorted list with binary search behind every VPN.
- **The netlink encoder**, which justifies treating rules as values.
- **The iptables controllers**, `NatController` and `BandwidthController`, over chains edited by -N, -F, -X, -A, -I, -D
  and traversed with jump, goto and return.
- **List.h**, a circular doubly linked list on the heap.

Each stateful class of the source is a class here. The classes of the engine are proved to do, object by object and
request by request, what the functions in `Controller.dfy` and `Sockets.dfy` say (same state, same kernel, same return
code, under every environment); the theorems are about runs of those functions.

| files | content |
|---|---|
| `Wrappers.dfy`, `Fwmark.dfy`, `UidRanges.dfy`, `Kernel.dfy`, `Sums.dfy` | options, marks and permissions, uid ranges, the kernel and route lookup, sums of rules |
| `Rules.dfy`, `Controller.dfy` | rule builders and request lists, what every command does |
| `Safety.dfy` | what holds in every run, whatever the kernel answers |
| `Sync.dfy`, `SyncRuns.dfy` | in successful runs the kernel's rules are a function of the controller's state |
| `Routing.dfy`, `Sockets.dfy`, `Guarantees.dfy` | which rules match a packet, the mark state machine, the end-to-end theorems |
| `Lookups.dfy`, `Delivery.dfy` | exactly what every lookup consults, and where that takes packets |
| `Answers.dfy` | what the controller answers and sockets get, through coverage, permissions and membership |
| `Effects.dfy`, `Progress.dfy` | what every command achieves, and when it succeeds |
| `Examples.dfy` | runs that show that the assumptions of the theorems are needed |
| `Transitions.dfy` | make before break, after every number of requests and after failures |
| `RouteController.dfy`, `Networks.dfy`, `NetworkController.dfy`, `FwmarkServer.dfy` | the classes of the engine |
| `NetworkRuns.dfy` | start-up and lists of commands on these objects |
| `Netlink.dfy`, `List.dfy` | the message codec, the linked list |
| `Iptables.dfy`, `Nat.dfy`, `TetherStats.dfy`, `TetherRuns.dfy` | chains and verdicts, tethering, its statistics, runs of it |
| `Ledgers.dfy`, `BandwidthBooks.dfy`, `Bandwidth.dfy`, `Alerts.dfy` | rule lists of bandwidth control, how tables mirror the records, the controller, what raises alerts |

Where the code and its comments or a first expectation disagree, the code is kept:

- `hasUid` is not membership for every sorted list (`Uids.HasUidMisses`); `Uids.HasUidIsMembership` gives the exact
  condition.
- The ON_CONNECT heuristic does not survive every SELECT_FOR_USER (`Examples.SelectForUserHarms`), nor the reuse of a
  network id (`Examples.ReuseHarms`); `Sockets.ConnectHeuristicHolds` gives the exact condition on the commands.
- A passed access check does not imply routing for a privileged uid that selects a bypassable VPN it is outside of on a
  socket bound to another network's interface (`Examples.SelectionDiverted`); `Guarantees.AccessImpliesRouting` has the
  exact condition.
- A refused selection is not always one that could not have been routed (`Delivery.RefusedIsNotRouted`, with
  `Delivery.ExplicitIsServed` as the exact condition).
- `removeUsersFromNetwork` with ranges the VPN does not have can delete the rules of users that stay on its list
  (`Examples.OverRemovalHarms`); `Progress.RefusalsKeepConsistent` gives the exact condition.
- `enableNat` that is refused its tethering rule after other pairs were enabled leaves the pair's forwarding rules
  behind (last clause of `EnableNat`, with the exact condition); the count stays right all the same
  (`Nat.RunAnyCommands`). Only the first upstream since nothing was enabled is masqueraded (`Nat.MasqueradeVerdict`,
  `Nat.UpstreamIsFirst`).
- Pair names can collide (`TetherRuns.UnderscoresCollide`, `TetherRuns.SelfCollides`); `TetherRuns.LayoutIsPaired` and
  `TetherRuns.StatsAfterRun` give the exact condition.
- A second alert writes the first one's value to the counter again and only records the new one
  (`Bandwidth.SecondAlertIsLost`); on an interface whose name has more than 11 characters it always fails
  (`SetInterfaceAlert`).
- A new quota for an interface called "shared" takes over the shared chain (`SetInterfaceQuota`, `Bandwidth.Obey`).
- When its jumps cannot be placed, `setInterfaceQuota` removes the interface's shared quota instead of its own, for
  instance while bandwidth control is disabled (`Bandwidth.QuotaWhileDisabled`); `SetInterfaceQuota` has the exact
  condition.

## Model

| member | source | states |
|---|---|---|
| `Guarantees.SecureVpnCaptures` | server/FwmarkServer.cpp:96-198 | For every run of successful commands and every interleaved sequence of socket commands by a uid that never holds PERMISSION_SYSTEM and is never protectable: whenever a secure VPN with an interface covers the uid, every lookup for the socket's packets starts with the table of a secure VPN covering the uid |
| `Guarantees.AccessImpliesRouting` | server/NetworkController.cpp:496-521 | If no uid is covered twice, the access check returns 0 when the command asks it and for the state at hand, for a physical or virtual network with an interface, and the uid's permission and protectability are still those of the states that answered the first and the third question, then SELECT_NETWORK succeeds, and its mark makes that network's table the first one consulted if and only if it is not the case that the uid is outside the ranges of a bypassable VPN and the socket is bound to an interface of another network that carries the uid's traffic |
| `Examples.SelectionDiverted` | server/NetworkController.cpp:496-521 | A run from start-up to a state in which the system server may select a bypassable VPN and, on a socket bound to wlan0, is not routed to it |
| `Examples.QuietIsValid` | server/RouteController.cpp:122-137 | There is an environment as the theorems assume it, one that refuses nothing |
| `Lookups.LookupIsExact` | server/RouteController.cpp:464-602 | The reference for routing: in every consistent state a lookup has a rule of a given priority to a given table if and only if the packet is to consult that table at that stage, stage by stage in terms of mark, sender, interfaces, VPN coverage, permissions and the default network |
| `Delivery.UnmarkedUsesDefault` | server/RouteController.cpp:739-757 | Traffic that selected nothing, holds the default network's permission and has no VPN in between looks at the default network's table before any other interface table |
| `Delivery.UsersUseTheirVpn` | server/RouteController.cpp:464-485 | Unprotected traffic that selected nothing, or is marked implicitly with the VPN, looks first at the table of the VPN over its sender, secure or bypassable |
| `Delivery.ConnectedUsersUseTheirVpn` | server/NetworkController.cpp:228-235 | The mark ON_CONNECT leaves for a user under a bypassable VPN takes its packets to that VPN first |
| `Delivery.ProtectedEscapesVpns` | server/FwmarkServer.cpp:165-181 | After a granted PROTECT_FROM_VPN on an implicitly marked socket no lookup reaches a VPN's table, unless the mark is privileged and names a VPN; a socket without a network or with a VPN's goes to the default network |
| `Delivery.ExplicitIsServed` | server/RouteController.cpp:487-511 | An explicitly marked packet without privileges is taken to the network it names first if and only if that has an interface, the sender is entitled to it, and no secure VPN of others with an interface takes the traffic |
| `Delivery.RefusedIsNotRouted` | server/NetworkController.cpp:496-521 | The mark of a refused selection would not have been served first by the network, except for root without its permission and a VPN, and where the secure VPN over the user has no interface yet |
| `Delivery.IncomingMarksAreExact` | server/RouteController.cpp:428-447 | The marks for incoming packets in the kernel are exactly one per interface of a network: its id and permission, explicit and protected |
| `Delivery.RepliesReturn` | server/RouteController.cpp:421-447 | A packet with the mark of an interface's incoming traffic goes back by that network first, for a VPN if its sender is one of the users or root |
| `Answers.AccessIsExact` | server/NetworkController.cpp:496-521 | If no uid is covered twice, the access check passes exactly the system, the users of a VPN for that VPN, and for other networks those who hold the network's permission and are not held by a secure VPN; the code says what was wrong |
| `Answers.VpnIsExact` | server/NetworkController.cpp:476-486 | The VPN found for a user is the one that covers the user, and none is found exactly if none does |
| `Answers.LowestVpnIsFound` | server/NetworkController.cpp:476-486 | Of several VPNs that apply to a user, the one with the lowest id is found |
| `Answers.ConnectIsExact` | server/NetworkController.cpp:228-235 | Connecting sockets get the bypassable VPN over the user, else the default network |
| `Answers.UserNetworkIsExact` | server/NetworkController.cpp:206-216 | A user's network is the VPN over it, else the default network |
| `Answers.DnsIsExact` | server/NetworkController.cpp:179-202 | A query goes to the network asked for, explicitly, if the user may use it; else to the VPN over the user if that has DNS servers; else to the default network; always protected and privileged |
| `Answers.InterfaceOwnerIsExact` | server/NetworkController.cpp:237-245 | An interface is looked up to exactly the network that has it |
| `Answers.PermissionIsExact` | server/NetworkController.cpp:448-452 | A user holds the flags recorded for it, or all of the system's or none of an app's; it may protect if it is of the system or listed |
| `Answers.AcceptIsExact` | server/FwmarkServer.cpp:97-102 | ON_ACCEPT adds the user's permission to the mark's and changes nothing else |
| `Answers.ConnectMarkIsExact` | server/FwmarkServer.cpp:104-146 | What ON_CONNECT makes of every mark, through the VPN over the user and the default network; the permission becomes exactly the user's |
| `Answers.UnselectIsExact` | server/FwmarkServer.cpp:150-153 | Selecting no network clears the mark |
| `Answers.SelectIsExact` | server/FwmarkServer.cpp:148-163 | Selecting a network works exactly for those who may use it; the mark then names it explicitly, with the user's permission and right to protect, and stays otherwise |
| `Answers.ProtectIsExact` | server/FwmarkServer.cpp:165-181 | Protecting works exactly for the system and those allowed to; the mark is then protected, gains the user's permission and leaves a VPN for the default network, and stays otherwise |
| `Answers.SelectForUserIsExact` | server/FwmarkServer.cpp:183-190 | Selecting for a user works exactly for the system; the mark is then protected and names the VPN over that user, else the default network, and stays otherwise |
| `Effects.CommandsAchieve` | server/NetworkController.cpp:142-464 | Every command that returns 0 from a consistent state does what it says and nothing else: interfaces, ranges, permissions, rights and tethering rules present or absent as asked, all other networks and users as before |
| `Effects.RemovedInterfaceIsGone` | server/NetworkController.cpp:353-366 | A removed interface is in no network, no rule but a tethering rule leads to its table, and the table is forgotten |
| `Effects.TablesHaveOwners` | server/RouteController.cpp:464-602 | Apart from tethering, only an interface of a network has rules that lead to its table |
| `Progress.CommandsSucceedIfAllowed` | server/NetworkController.cpp:142-464 | With a kernel that refuses nothing and names that fit, a command returns 0 from a consistent state if and only if it is allowed, by a condition its caller can check |
| `Progress.SuccessWasAllowed` | server/NetworkController.cpp:142-464 | Whatever the kernel does, only allowed commands return 0 |
| `Progress.RequestsSucceed` | server/RouteController.cpp:256-325 | Requests that pass the checks succeed if the rules they delete are there |
| `Progress.RefusalsKeepConsistent` | server/NetworkController.cpp:142-436 | A refused command leaves the rules in step with the state if and only if it is not a removal of more ranges than a VPN with an interface has that begins with one it has |
| `Progress.OverRemoval` | server/VirtualNetwork.cpp:55-65 | Such a removal deletes rules and leaves the list of users as it was |
| `Examples.OverRemovalHarms` | server/VirtualNetwork.cpp:55-65 | A VPN loses the rules of a user it keeps on its list, because another one was to go with it |
| `Progress.HistoryStaysConsistent` | server/NetworkController.cpp:142-436 | On a kernel that refuses nothing every history without such removals stays consistent, whether its commands are allowed or not, and each returns 0 exactly if it is |
| `Guarantees.SelectionGrants` | server/FwmarkServer.cpp:148-163 | Under the same assumptions on the four states that answer the command, the mark SELECT_NETWORK sets carries what the network's rules ask for: explicit, the right id, the permission or the VPN's uid range or system permission |
| `Guarantees.ConnectedSocketUses` | server/RouteController.cpp:552-573 | A packet marked implicitly with a physical network whose permission it holds meets that network's table before any other interface table, unless a secure VPN covers an unprotected user |
| `Guarantees.ConnectedSocketsStayPut` | server/NetworkController.cpp:142-177 | After ON_CONNECT, answered in any four states, marked a socket with network D whose permission the uid held at the first question, its first interface table stays D's through every sequence of default-network changes |
| `Guarantees.SetDefaultOnly` | server/NetworkController.cpp:142-177 | Changing the default network changes no interfaces, permissions, ranges or users |
| `Guarantees.DnsUsesChosenNetwork` | server/NetworkController.cpp:179-202 | The DNS mark, sent by root, makes the first interface table consulted one of the chosen network's |
| `Guarantees.DnsFallsThroughToDefault` | server/RouteController.cpp:575-602 | If a VPN is chosen implicitly for DNS, the interface tables consulted are first the VPN's and then exactly the default network's |
| `Guarantees.PermissionIsEnforced` | server/RouteController.cpp:513-573 | No rule except a tethering rule leads a mark without the owning network's current permission to a physical interface's table |
| `Guarantees.CoveredOnceIsExact` | server/UidRanges.cpp:23-27 | While no uid is covered twice, the binary search decides exactly whether a VPN covers a uid |
| `Guarantees.CoveringVpnIsFound` | server/NetworkController.cpp:476-486 | While no uid is covered twice, the VPN found for a user is the one that covers the user |
| `Sockets.UnprivilegedStaysCaptive` | server/FwmarkServer.cpp:96-198 | A socket driven only by an unprivileged, unprotectable uid never becomes protected and never carries PERMISSION_SYSTEM |
| `Sockets.ConnectHeuristicHolds` | server/FwmarkServer.cpp:104-190 | In every history without reuse of network ids, whatever the commands return: a socket is after none of its commands, then or later, at once implicit, protected and marked with a VPN's id, if and only if each command is harmless to the mark it finds; harmful is a granted SELECT_FOR_USER on an implicitly marked socket for a user with a VPN that is still there when the mark is set |
| `Sockets.EventKeepsMarkSane` | server/FwmarkServer.cpp:96-198 | A single command keeps such a mark so if and only if it is harmless |
| `Sockets.ConnectNeverInstallsSecure` | server/FwmarkServer.cpp:104-146 | After harmless commands ON_CONNECT never leaves an implicit mark with the id of a VPN that is secure then or later |
| `Sockets.SelectForUserMarksVpn` | server/FwmarkServer.cpp:183-190 | A granted SELECT_FOR_USER makes an implicitly marked socket protected and marks it with a VPN's id if and only if the user has a VPN |
| `Examples.SelectForUserHarms` | server/FwmarkServer.cpp:183-190 | A run without id reuse and one harmful command after which the mark is wrong and ON_CONNECT leaves a secure VPN's id on the socket |
| `Examples.ReuseHarms` | server/NetworkController.cpp:277-335 | A run of harmless commands after which the same happens, because a secure VPN was given the id of a destroyed network |
| `Sockets.StepKeepsKind` | server/NetworkController.cpp:253-335 | No command changes the kind of an existing network or makes a bypassable VPN secure |
| `Sockets.RunKeepsKind` | server/NetworkController.cpp:253-335 | If ids are not reused, an id means the same kind of network throughout a run, whatever the commands return |
| `FwmarkServers.FwmarkServer.ProcessClient` | server/FwmarkServer.cpp:48-206 | The step-by-step update of the mark leaves the mark and returns the code of the specification, for every command and every four states in which the controller answers |
| `SyncRuns.RunsStayConsistent` | server/NetworkController.cpp:142-436 | In every run of commands that return 0, from start-up or any other consistent state, both families hold at all times exactly the start-up rules, the per-interface rules of all networks with current permissions and ranges, for the default network its default and fallthrough rules, and the tethering rules in force |
| `NetworkRuns.StartUp` | server/RouteController.cpp:876-894 | The objects the daemon starts with are in the start state |
| `NetworkRuns.SwitchTethering` | server/RouteController.cpp:759-768 | A tethering rule comes or goes on the objects as specified |
| `NetworkRuns.Obey` | server/NetworkController.cpp:142-436 | Every command does on the objects exactly what the specification's step says: state, kernel and return code |
| `NetworkRuns.ObeyAll` | server/NetworkController.cpp:142-436 | Any list of commands takes the objects through a history, whatever fails, and if every command returns 0 through a run, after which the kernel is in step |
| `SyncRuns.StepConsistent` | server/NetworkController.cpp:142-436 | Each command that returns 0 keeps the rule multiset equal to the function of the controller's state |
| `SyncRuns.BootConsistent` | server/RouteController.cpp:876-894 | Whatever policy rules the kernel held before, after a successful start-up it holds exactly the Init rules and the state calls for exactly those |
| `SyncRuns.BootSucceeds` | server/RouteController.cpp:876-894 | Start-up, the flush and the Init rules, succeeds if the kernel refuses nothing: every start-up rule passes the checks |
| `SyncRuns.RemovedRangesWereThere` | server/VirtualNetwork.cpp:55-65 | On a VPN with an interface, removing users can only succeed if every removed range is in the VPN's list, as often as it is removed |
| `SyncRuns.UidRuleCount` | server/RouteController.cpp:464-485 | The kernel holds a VPN interface's uid rule exactly as often as the VPN's list holds the range |
| `SyncRuns.OneMoreVpn` | server/NetworkController.cpp:556-577 | A VPN without interfaces changes the rules called for by one fallthrough rule per default interface and nothing else |
| `SyncRuns.ClearInterfacesSync` | server/Network.cpp:40-50 | A successful clearInterfaces() removes all rules of the network's interfaces and no others |
| `SyncRuns.ChangeUsersSync` | server/VirtualNetwork.cpp:43-65 | Adding or removing users changes the uid based rules of every interface to those of the merged or reduced list |
| `SyncRuns.TetherSync` | server/RouteController.cpp:759-768 | A tethering rule comes and goes without touching any other rule |
| `Sync.AttachSync` | server/PhysicalNetwork.cpp:124-140 | Adding an interface adds exactly the rules of its network, with the default and fallthrough rules if the network is the default |
| `Sync.DetachSync` | server/PhysicalNetwork.cpp:142-162 | Removing an interface removes exactly those rules |
| `Sync.DefaultFlagSync` | server/PhysicalNetwork.cpp:94-118 | Becoming or ceasing to be the default adds or removes exactly the default and fallthrough rules of all interfaces |
| `Sync.SetPermissionSync` | server/PhysicalNetwork.cpp:68-92 | A permission change replaces the rules of all interfaces by those with the new permission |
| `Kernels.ExecBalance` | server/RouteController.cpp:256-325 | When a list of requests succeeds, exactly the added items appear in both families and exactly the deleted ones disappear |
| `Kernels.PrefixBalances` | server/RouteController.cpp:313-325 | Wherever a list of requests stops, also between the families, each family has seen exactly the changes of some first part of the list |
| `Kernels.ExecConcat` | server/PhysicalNetwork.cpp:68-92 | Requests run in order up to the first failure, whose code is the result |
| `Kernels.WalkExists` | server/RouteController.cpp:38-52 | Every packet has a lookup: all matching rules, in the order of their priorities |
| `Kernels.WalkMember` | server/RouteController.cpp:38-52 | A lookup goes through exactly the rules that are there and match |
| `Routing.KernelRules` | server/RouteController.cpp:605-757 | A rule is in a synchronised kernel if and only if it is a start-up rule, a tethering rule in force, or a rule of an interface of some network |
| `Routing.MatchingRule` | server/RouteController.cpp:464-602 | What matching says about mark, uid and network for every kind of rule |
| `Routing.PhysicalRules` | server/RouteController.cpp:680-699 | The rules of a physical interface, by shape |
| `Routing.VirtualRules` | server/RouteController.cpp:701-737 | The rules of a VPN interface, by shape |
| `Rules.PartChanges` | server/RouteController.cpp:672-757 | The requests for a role of an interface add, or delete, exactly the rules of that role |
| `Rules.EachInterfaceChanges` | server/PhysicalNetwork.cpp:94-118 | The loops over a network's interfaces change exactly the sum of the interfaces' rules |
| `Rules.EachSwapChanges` | server/PhysicalNetwork.cpp:68-92 | The add-then-delete loops add the new sum and delete the old one |
| `Rules.BuildersAreInRange` | server/RouteController.cpp:260-264 | No rule builder, tethering and start-up rules included, hits the -ERANGE check, because each one masks what it selects |
| `Transitions.PermissionChangeServes` | server/RouteController.cpp:948-956 | After any number of the requests of a permission change, and wherever it fails, a packet that holds both permissions and had a matching rule still has one of the same priority and table, in both families |
| `Transitions.SwitchIsSetDefault` | server/NetworkController.cpp:142-177 | setDefaultNetwork() between two networks issues exactly the new network's default requests and then the old one's |
| `Transitions.SwitchKeepsADefault` | server/NetworkController.cpp:159-175 | After any number of the requests of a switch between two defaults with interfaces, and wherever it fails, some default rule is present in both families |
| `Safety.HistoryIsSafe` | server/NetworkController.cpp:253-361 | The invariants hold at every moment of a history that starts safe, whatever each command returns |
| `Safety.EveryRunIsSafe` | server/NetworkController.cpp:253-361 | In every run, under all kernel failures and vanishing interfaces: the default is unset or an existing physical network, interface sets are disjoint, ids fit 16 bits, ranges are well formed, and every physical or virtual interface has its table cached |
| `Safety.StepSafe` | server/NetworkController.cpp:142-436 | Every command keeps that, whatever it returns |
| `Safety.BootIsSafe` | server/NetworkController.cpp:132-135 | Start-up establishes it, whether the flush and Init succeed or not |
| `Safety.ClearInterfacesSafe` | server/Network.cpp:40-50 | clearInterfaces() stops, and returns 0 if and only if no interface is left |
| `Safety.FlushlessKeepsTables` | server/RouteController.cpp:122-137 | No request but a flush forgets a cached table, and a successful list has cached every table it looked up |
| `Safety.FinalFlushForgetsOne` | server/RouteController.cpp:825-872 | A list that ends in a flush forgets that one table, and only if everything succeeded |
| `Safety.AttachSafe` | server/NetworkController.cpp:337-351 | An interface that is not in another network can be added without two networks sharing it |
| `Safety.DestroySafe` | server/NetworkController.cpp:296-335 | Destroying a network keeps the invariant even if every kernel request fails |
| `RouteControllers.RouteController.constructor` | server/RouteController.cpp:119-120 | The rules the kernel happens to hold, no cached table |
| `RouteControllers.RouteController.GetRouteTableForInterface` | server/RouteController.cpp:122-137 | Returns the interface's table while it exists or is cached, caches it, and RT_TABLE_UNSPEC otherwise |
| `RouteControllers.RouteController.ModifyIpRule` | server/RouteController.cpp:256-325 | The checks, then one request per family up to the first failure, as specified |
| `RouteControllers.RouteController.ModifyIncomingPacketMark` | server/RouteController.cpp:428-447 | The iptables rule of both families, with -EREMOTEIO if either fails |
| `RouteControllers.RouteController.ModifyLocalNetwork` | server/RouteController.cpp:672-678 | Issues exactly the requests of a local interface, in order, up to the first failure |
| `RouteControllers.RouteController.ModifyPhysicalNetwork` | server/RouteController.cpp:680-699 | Issues exactly the requests of a physical interface, in order, up to the first failure |
| `RouteControllers.RouteController.ModifyVirtualNetwork` | server/RouteController.cpp:701-737 | Issues exactly the requests of a VPN interface, or of its users alone, in order, up to the first failure |
| `RouteControllers.RouteController.ModifyUsers` | server/RouteController.cpp:709-723 | The loop over the ranges: three rules per range |
| `RouteControllers.RouteController.ModifyFixedRules` | server/RouteController.cpp:725-734 | The four rules of a VPN interface that do not depend on users |
| `RouteControllers.RouteController.ModifyDefaultNetwork` | server/RouteController.cpp:739-757 | Lookup and default rule |
| `RouteControllers.RouteController.ModifyVpnFallthroughRule` | server/RouteController.cpp:580-602 | Lookup and fallthrough rule |
| `RouteControllers.RouteController.ModifyTetheredNetwork` | server/RouteController.cpp:759-768 | Lookup of the output interface's table and tethering rule |
| `RouteControllers.RouteController.FlushRoutes` | server/RouteController.cpp:825-872 | At most two attempts per family; the table is forgotten only if both families were flushed |
| `RouteControllers.RouteController.FlushRules` | server/RouteController.cpp:771-785 | Takes all policy rules out of IPv4, then IPv6, up to the first failure, and nothing else |
| `RouteControllers.RouteController.Init` | server/RouteController.cpp:876-894 | Flushes the rules, then installs the start-up rules in order, up to the first failure |
| `Networks.LocalNetwork.AddInterface` | server/LocalNetwork.cpp:34-44 | The interface joins the set if and only if all requests succeed |
| `Networks.LocalNetwork.RemoveInterface` | server/LocalNetwork.cpp:46-56 | The interface leaves the set if and only if all requests succeed |
| `Networks.PhysicalNetwork.ModifyDefault` | server/PhysicalNetwork.cpp:26-50 | The default rule and one fallthrough per VPN, in order, up to the first failure |
| `Networks.PhysicalNetwork.SetPermission` | server/PhysicalNetwork.cpp:68-92 | New rules before old ones for every interface, then the same for the default rules; the permission changes if and only if all succeed |
| `Networks.PhysicalNetwork.AddAsDefault` | server/PhysicalNetwork.cpp:94-105 | Default rules for all interfaces; the flag is set if and only if all succeed |
| `Networks.PhysicalNetwork.RemoveAsDefault` | server/PhysicalNetwork.cpp:107-118 | Default rules of all interfaces removed; the flag is cleared if and only if all succeed |
| `Networks.PhysicalNetwork.AddInterface` | server/PhysicalNetwork.cpp:124-140 | Physical rules, then default rules if default; the interface joins if and only if all succeed |
| `Networks.PhysicalNetwork.RemoveInterface` | server/PhysicalNetwork.cpp:142-162 | Default rules, physical rules, then the flush; the interface leaves if and only if all succeed |
| `Networks.VirtualNetwork.ChangeUsers` | server/VirtualNetwork.cpp:43-65 | Uid based rules on all interfaces; the ranges are merged or reduced if and only if all succeed |
| `Networks.VirtualNetwork.AddInterface` | server/VirtualNetwork.cpp:71-82 | All rules of a VPN interface; it joins if and only if all succeed |
| `Networks.VirtualNetwork.RemoveInterface` | server/VirtualNetwork.cpp:84-95 | All rules of a VPN interface and the flush; it leaves if and only if all succeed |
| `NetworkControllers.NetworkController.constructor` | server/NetworkController.cpp:132-135 | Only the local network, no default |
| `NetworkControllers.NetworkController.SetDefaultNetwork` | server/NetworkController.cpp:142-177 | Objects, kernel and return code become exactly what the specification says, for every environment |
| `NetworkControllers.NetworkController.GetNetworkForDns` | server/NetworkController.cpp:179-202 | Returns the specified network and mark |
| `NetworkControllers.NetworkController.GetNetworkForUser` | server/NetworkController.cpp:206-212 | The applicable VPN or the default network |
| `NetworkControllers.NetworkController.GetNetworkForConnect` | server/NetworkController.cpp:228-235 | The applicable bypassable VPN or the default network |
| `NetworkControllers.NetworkController.GetNetworkForInterface` | server/NetworkController.cpp:237-245 | The lowest id of a network with the interface, or NETID_UNSET |
| `NetworkControllers.NetworkController.IsVirtualNetwork` | server/NetworkController.cpp:247-251 | Whether the id is a VPN's |
| `NetworkControllers.NetworkController.CreatePhysicalNetwork` | server/NetworkController.cpp:253-275 | As specified; the inner setPermission() has nothing to do |
| `NetworkControllers.NetworkController.CreateVirtualNetwork` | server/NetworkController.cpp:277-294 | As specified; nothing is created if a fallthrough rule fails |
| `NetworkControllers.NetworkController.DestroyNetwork` | server/NetworkController.cpp:296-335 | As specified: everything is attempted and the first error returned |
| `NetworkControllers.NetworkController.AddInterfaceToNetwork` | server/NetworkController.cpp:337-351 | As specified, with -ENONET and -EBUSY |
| `NetworkControllers.NetworkController.RemoveInterfaceFromNetwork` | server/NetworkController.cpp:353-361 | As specified, with -ENONET |
| `NetworkControllers.NetworkController.GetPermissionForUser` | server/NetworkController.cpp:488-494 | The recorded permission, or system below the first application uid, or none |
| `NetworkControllers.NetworkController.SetPermissionForUsers` | server/NetworkController.cpp:368-374 | As specified |
| `NetworkControllers.NetworkController.SetPermissionForNetworks` | server/NetworkController.cpp:381-402 | As specified: stops at the first failure |
| `NetworkControllers.NetworkController.AddUsersToNetwork` | server/NetworkController.cpp:404-419 | As specified, with -ENONET and -EINVAL |
| `NetworkControllers.NetworkController.RemoveUsersFromNetwork` | server/NetworkController.cpp:421-436 | As specified, with -ENONET and -EINVAL |
| `NetworkControllers.NetworkController.CanProtectFromVpn` | server/NetworkController.cpp:448-452 | System permission or listed as protectable |
| `NetworkControllers.NetworkController.AllowProtect` | server/NetworkController.cpp:454-457 | The uids join the protectable ones |
| `NetworkControllers.NetworkController.DenyProtect` | server/NetworkController.cpp:459-464 | The uids leave the protectable ones |
| `NetworkControllers.NetworkController.GetVirtualNetworkForUser` | server/NetworkController.cpp:476-486 | The applicable VPN with the lowest id |
| `NetworkControllers.NetworkController.CheckUserNetworkAccess` | server/NetworkController.cpp:496-521 | The specified verdict, in every case |
| `NetworkControllers.NetworkController.ModifyFallthrough` | server/NetworkController.cpp:556-577 | Fallthrough rules for every interface of the default network, up to the first failure, with the error codes of a missing default |
| `NetworkControllers.NetworkController.ClearInterfacesOf` | server/Network.cpp:40-50 | Removes interfaces until none is left or one fails, and terminates |
| `Fwmarks.ViewsAreInverse` | include/Fwmark.h:24-33 | The integer and the struct view of a mark determine each other |
| `Fwmarks.MatchAgrees` | include/Fwmark.h:24-35 | Masked 32-bit matching equals field-wise matching, for every mark and every selector |
| `Fwmarks.ConjunctionIsAnd` | server/RouteController.cpp:260-264 | The bitwise conjunction of 32-bit values, bit by bit, is the recursive one the proofs use |
| `Uids.MergeIsUnion` | server/UidRanges.cpp:74-77 | Merging is multiset union |
| `Uids.MergeIsSorted` | server/UidRanges.cpp:74-77 | Merging keeps the order |
| `Uids.DifferenceIsMultisetDifference` | server/UidRanges.cpp:79-83 | Removal is multiset difference |
| `Uids.DifferenceIsSorted` | server/UidRanges.cpp:79-83 | Removal keeps the order and adds nothing |
| `Uids.SortIsSorted` | server/UidRanges.cpp:70-70 | Sorting orders and keeps every element |
| `Uids.RemoveUndoesAdd` | server/UidRanges.cpp:74-83 | remove() after add() of the same ranges gives the list back |
| `Uids.HasUidIsSound` | server/UidRanges.cpp:23-27 | hasUid() never claims a uid no range contains, for every sorted list |
| `Uids.HasUidIsMembership` | server/UidRanges.cpp:23-27 | hasUid() is membership for all uids if and only if no range hides the tail of an earlier one |
| `Uids.HasUidMisses` | server/UidRanges.cpp:23-27 | For the list 10-20, 12-13 the uid 15 is covered and not found |
| `Uids.NonDecreasingEndsSuffice` | server/UidRanges.cpp:23-27 | It is membership whenever range ends do not decrease |
| `Uids.UidRanges.Has` | server/UidRanges.cpp:23-27 | The binary search returns what the specification says and is sound |
| `Uids.UidRanges.LowerBoundOf` | server/UidRanges.cpp:24-24 | std::lower_bound as a loop |
| `Uids.UidRanges.ParseFrom` | server/UidRanges.cpp:33-72 | Succeeds if and only if every argument is acceptable; then the ranges are the arguments, sorted, with start <= end |
| `Uids.UidRanges.Add` | server/UidRanges.cpp:74-77 | Sorted multiset union of both lists |
| `Uids.UidRanges.Remove` | server/UidRanges.cpp:79-83 | Sorted multiset difference of both lists |
| `Uids.UidRanges.RemoveInPlace` | server/UidRanges.cpp:79-83 | The difference written over its own input, the writes never overtaking the reads |
| `Netlink.AttrsRoundTrip` | server/RouteController.cpp:283-313 | Decoding a stream of attributes gives the attributes back |
| `Netlink.RuleRoundTrip` | server/RouteController.cpp:256-325 | The message of every accepted rule is 4-byte aligned, its header length is its size, and decoding it gives the rule back |
| `Netlink.MessagesIdentifyRules` | server/RouteController.cpp:256-325 | Different rules, actions or families have different messages |
| `Netlink.PadInterfaceName` | server/RouteController.cpp:229-242 | Length with the NUL, padding to the alignment, -ENAMETOOLONG |
| `Netlink.AssembleRule` | server/RouteController.cpp:256-325 | Returns the first failing check's code, or the io vector as exactly the encoded message |
| `Netlink.Send` | server/RouteController.cpp:184-193 | The length field is the sum over the io vector, kept to 32 bits, for every io vector |
| `Lists.List.constructor` | server/List.h:164-166 | An empty ring |
| `Lists.List.CopyOf` | server/List.h:167-170 | The source's sequence, the source unchanged |
| `Lists.List.Insert` | server/List.h:212-220 | Inserts into the sequence and keeps next and prev mutually inverse around the ring |
| `Lists.List.InsertRange` | server/List.h:223-226 | Inserts a part of another list's sequence, in order |
| `Lists.List.Erase` | server/List.h:229-236 | Removes one element and returns the position after it |
| `Lists.List.EraseRange` | server/List.h:239-243 | Removes a part of the sequence and returns the position after it |
| `Lists.List.Clear` | server/List.h:246-257 | The empty sequence |
| `Lists.List.Distance` | server/List.h:269-283 | The number of steps between two positions |
| `Lists.List.Size` | server/List.h:185-187 | The length of the sequence |
| `Lists.List.PushFront` | server/List.h:208-208 | Prepends |
| `Lists.List.PushBack` | server/List.h:209-209 | Appends |
| `Lists.List.Overwrite` | server/List.h:321-322 | The elements both lists have take the source's values, and the position reached is known |
| `Lists.List.Assign` | server/List.h:313-329 | The source's sequence for all combinations of lengths and for self-assignment, the source unchanged |
| `Iptables.IsIfaceName` | server/NetdConstants.cpp:156-175 | Decides the names of 1 to 16 characters that start alphanumerically and continue with the allowed characters |
| `Iptables.SkipInert` | server/BandwidthController.cpp:66-109 | Rules that do not match or have no target do not change a verdict |
| `Nat.ForwardVerdict` | server/NatController.cpp:287-363 | A forwarded packet passes natctrl_FORWARD if and only if some enabled pair allows it, outward unless INVALID or inward if ESTABLISHED or RELATED; all others are dropped |
| `Nat.MasqueradeVerdict` | server/NatController.cpp:156-172 | While something is enabled, exactly what leaves by the upstream interface is masqueraded |
| `Nat.UpstreamIsFirst` | server/NatController.cpp:156-172 | The upstream is that of the pair enabled when nothing was, for as long as something stays enabled |
| `Nat.CountersTake` | server/NatController.cpp:241-285 | A counter takes exactly the packets that go from its first interface to its second |
| `Nat.DeletePair` | server/NatController.cpp:287-363 | Deleting the first copy of each of the three rules removes the oldest enabling of the pair and nothing else |
| `Nat.MoveDropLast` | server/NatController.cpp:181-197 | After the delete and append the bare DROP is the last rule and the only one |
| `Nat.RunBalances` | server/NatController.cpp:139-213 | After every successful run the enabled pairs are those enabled minus those disabled, each as often as the difference |
| `Nat.NatController.constructor` | server/NatController.cpp:43-44 | No pairs recorded |
| `Nat.NatController.SetupIptablesHooks` | server/NatController.cpp:78-113 | Success leaves nothing enabled, nothing counted and only the bare DROP |
| `Nat.NatController.SetDefaults` | server/NatController.cpp:115-137 | Success resets both chains and the count |
| `Nat.NatController.EnableNat` | server/NatController.cpp:139-213 | Succeeds if and only if the names are usable and the tethering rule is accepted; then chains, list and count hold one more pair. What a refusal leaves behind is stated case by case; whatever iptables or RouteController refuse, the count is that of the tethering rules and the list names exactly the counters |
| `Nat.NatController.DisableNat` | server/NatController.cpp:365-383 | Succeeds if and only if the pair is enabled and the kernel agrees; then chains and count hold one pair less, the last one resetting them; count and list stay right whatever iptables refuses |
| `Nat.NatController.SetForwardRules` | server/NatController.cpp:287-363 | Adds the three rules in order, or deletes the first copy of each, and counts when adding; a failed addition loses no rule and leaves at most the three of its pair |
| `Nat.NatController.SetTetherCountingRules` | server/NatController.cpp:227-285 | Counters for both directions unless their names are known; after a failure list and counters still agree |
| `Nat.NatController.CheckTetherCountingRuleExist` | server/NatController.cpp:215-225 | Whether the name is in the list |
| `Nat.RunCommands` | server/CommandListener.cpp:813-821 | Running any list of enable and disable commands on a settled controller while nothing is refused: exactly the commands that can succeed, each judged after the ones before, return 0, and chains, list, count and tethering rules are those of the run of these |
| `Nat.RunAnyCommands` | server/CommandListener.cpp:813-821 | Any list of commands while iptables and RouteController refuse what they like: the count is that of the tethering rules, the list names exactly the counters, and the pairs recorded are those of the run of the commands that returned 0 |
| `TetherRuns.LayoutIsPaired` | server/NatController.cpp:227-285 | A run from nothing lays out the counter rules as adjacent (int,ext),(ext,int) pairs, one per pair ever enabled, if and only if the names of these pairs and their reverses all differ |
| `TetherRuns.StatsAfterRun` | server/BandwidthController.cpp:1247-1346 | After every run from nothing: if those names differ, listing and parsing the counter chain reports every pair once, in order, received bytes from its first and sent bytes from its second rule, and -1 if there is none; if they do not, fewer entries than pairs are reported |
| `TetherRuns.RunKeepsPairs` | server/NatController.cpp:227-285 | From any paired layout, a run over names that differ keeps it paired, never a pair twice |
| `TetherRuns.RunKeepsNames` | server/NatController.cpp:230-247 | No run ever counts two pairs with one name |
| `TetherStats.UnfilteredRoundTrip` | server/BandwidthController.cpp:1309-1321 | Without a filter the parser inverts that layout |
| `TetherStats.FilteredRoundTrip` | server/BandwidthController.cpp:1285-1294 | With a pair as filter exactly that pair is reported, in the orientation asked for, and nothing if it is not counted |
| `TetherStats.OuterRoundTrip` | server/BandwidthController.cpp:1295-1308 | With an external interface as filter every pair that involves it is reported with it as the external side |
| `TetherStats.InnerRoundTrip` | server/BandwidthController.cpp:1285-1308 | With an internal interface as filter every pair that involves it is reported with it as the internal side |
| `TetherRuns.PairNameIsInjective` | server/NatController.cpp:233-234 | Names without underscores identify their pair |
| `TetherRuns.PlainNamesDiffer` | server/NatController.cpp:233-234 | Interfaces without underscores always meet the condition |
| `TetherRuns.SelfCollides` | server/NatController.cpp:233-247 | The pair (a, a_a) passes for its own reverse: one counter is laid out and nothing is reported |
| `TetherRuns.UnderscoresCollide` | server/NatController.cpp:233-239 | The pair (a_b, c) passes for (a, b_c) and gets no counters |
| `TetherStats.ParseForwardChainStats` | server/BandwidthController.cpp:1247-1346 | The loop sends and returns what the specification says, for all three filters; with strict off it is the IPv6 variant |
| `BandwidthBooks.LedgerVerdict` | server/BandwidthController.cpp:65-109 | In step, a packet passes bw_INPUT or bw_OUTPUT if and only if its interface's quotas are not used up and, if the interface is costly, the boxes let its uid through |
| `Alerts.AlertsAreRaised` | server/BandwidthController.cpp:918-1095 | In step, a packet is accounted for if and only if the ledger lets it through, and one that is let through raises exactly the due alerts that watch its interface: the global one, the shared one, its own |
| `BandwidthBooks.BoxVerdict` | server/BandwidthController.cpp:96-109 | A uid passes bw_penalty_box if and only if it is not naughty and, while the happy box is on, is nice |
| `BandwidthBooks.AppListed` | server/BandwidthController.cpp:441-466 | A box follows its list by one insertion or deletion, or the command is refused because there is no box |
| `BandwidthBooks.SharedChainTaken` | server/BandwidthController.cpp:508-560 | A shared chain that starts with the penalty box and has the quota second is not the chain of a shared quota, with or without quota and alert; no order of jumps and no happy box state explains the tables then |
| `BandwidthBooks.AlertNameFits` | server/BandwidthController.cpp:1078-1080 | The name of an alert is valid if and only if the interface's has at most 11 characters |
| `BandwidthBooks.ChainUnreferenced` | server/BandwidthController.cpp:588-593 | Once its jumps are deleted nothing refers to an interface's chain, so it can be deleted |
| `Bandwidth.BandwidthController.EnableBandwidthControl` | server/BandwidthController.cpp:255-280 | Success brings tables and records in step with nothing tracked, whatever the records and the chains of bandwidth control held before |
| `Bandwidth.BandwidthController.DisableBandwidthControl` | server/BandwidthController.cpp:282-286 | All chains are flushed while the records stay, so the two part ways |
| `Bandwidth.BandwidthController.EnableHappyBox` | server/BandwidthController.cpp:332-362 | The box is on, empty and last in the penalty box, also when it was on or missing |
| `Bandwidth.BandwidthController.DisableHappyBox` | server/BandwidthController.cpp:364-377 | The box is off and the nice list empty |
| `Bandwidth.BandwidthController.ManipulateSpecialApps` | server/BandwidthController.cpp:404-475 | Lists and boxes change together, up to the first application that is refused; a missing happy box is the one exception and is stated |
| `Bandwidth.BandwidthController.PrepCostlyIface` | server/BandwidthController.cpp:508-560 | One jump per direction right after the alert, moved there if it was there already, and for an own quota a chain that starts with the penalty box; in tables of any content it returns 0 if and only if the chain jumped to can be had and each ledger exists and, while a global alert is set, is not empty without the old jump |
| `Bandwidth.BandwidthController.InstallQuota` | server/BandwidthController.cpp:706-775 | Returns 0 on the same condition; the chain ends up as penalty box and quota, and stays when the call fails; for an interface called shared that chain is the shared one |
| `Bandwidth.BandwidthController.CleanupCostlyIface` | server/BandwidthController.cpp:562-595 | Both jumps go, and for an own quota the chain |
| `Bandwidth.BandwidthController.SetInterfaceSharedQuota` | server/BandwidthController.cpp:597-663 | Tables and records stay in step; the first interface installs the quota; -1 as the amount removes it |
| `Bandwidth.BandwidthController.RemoveInterfaceSharedQuota` | server/BandwidthController.cpp:666-704 | The last interface takes the quota and its alert along |
| `Bandwidth.BandwidthController.SetInterfaceQuota` | server/BandwidthController.cpp:706-775 | A new quota keeps tables and records in step if and only if the interface is not called shared, whose quota turns bw_costly_shared into penalty box and quota; in tables of any content the call returns 0 if and only if the jumps can be placed, or, for a quota that is set, its counter exists; otherwise the interface loses its place on the shared quota and its own chain stays without a record |
| `Bandwidth.QuotaWhileDisabled` | server/BandwidthController.cpp:282-286 | After setting a global alert and disabling bandwidth control from any state in step, a new quota is refused, the interface loses its place on the shared quota, and its chain stays |
| `Bandwidth.BandwidthController.RemoveInterfaceQuota` | server/BandwidthController.cpp:802-835 | Jumps, chain and record go together |
| `Bandwidth.BandwidthController.UpdateQuota` | server/BandwidthController.cpp:837-856 | Writes the value to the counter and succeeds if and only if the name is valid and some rule has the quota |
| `Bandwidth.BandwidthController.SetGlobalAlert` | server/BandwidthController.cpp:918-937 | The alert becomes the first rule of both ledgers and of bw_FORWARD if something is tethered |
| `Bandwidth.BandwidthController.SetGlobalAlertInForwardChain` | server/BandwidthController.cpp:939-958 | bw_FORWARD gets the alert with the first tethering |
| `Bandwidth.BandwidthController.RemoveGlobalAlert` | server/BandwidthController.cpp:960-975 | The alert leaves every chain that has it |
| `Bandwidth.BandwidthController.RemoveGlobalAlertInForwardChain` | server/BandwidthController.cpp:977-999 | bw_FORWARD loses the alert with the last tethering |
| `Bandwidth.BandwidthController.SetSharedAlert` | server/BandwidthController.cpp:1001-1011 | Only with a shared quota; then the alert is in the shared chain, and setting it again writes the previous value to the counter |
| `Bandwidth.SecondAlertIsLost` | server/BandwidthController.cpp:1063-1090 | After two alerts on the shared quota the record holds the second and the counter was given the first |
| `Bandwidth.BandwidthController.RemoveSharedAlert` | server/BandwidthController.cpp:1013-1015 | The shared chain loses its alert |
| `Bandwidth.BandwidthController.SetInterfaceAlert` | server/BandwidthController.cpp:1017-1040 | The interface's chain has the alert; setting it again returns 0 if and only if the name leaves room for the suffix, and then writes the previous value to the counter |
| `Bandwidth.BandwidthController.RemoveInterfaceAlert` | server/BandwidthController.cpp:1042-1061 | The interface's chain loses its alert; 0 if and only if there was one |
| `Bandwidth.Obey` | server/CommandListener.cpp:1009-1290 | Every command other than enabling and disabling bandwidth control keeps tables and records in step, whatever it returns, unless it is a new quota for an interface called shared, which never does |
| `Bandwidth.ObeyAll` | server/CommandListener.cpp:1009-1290 | Every sequence of commands without such a quota keeps tables and records in step |
| `Bandwidth.BandwidthController.FlushExistingCostlyTables` | server/BandwidthController.cpp:1399-1443 | Every costly chain but the shared one is emptied, the others untouched |

## Left out

- Routes: `addRoute`, `removeRoute` and `modifyIpRoute` change routing tables, not rules; only the flush is modelled.
- The kernel's own rule for the local table, which netd neither sees nor changes, is not among the rules; lookups start after it.
- Packets sent by a socket come in by loopback, and no network has loopback as an interface (`SentFromHere`).
- An interface keeps its index while the daemon runs, and no two interfaces share one.
- The table names file `RouteController::Init` writes is not modelled, and the iptables chain of incoming marks is assumed empty at start-up (`SyncRuns.BootConsistent`).
- The access check of the local network reads a permission from an object that has none (`server/NetworkController.cpp:519`); the value read is a parameter, and the access theorem is about physical and virtual networks.
- `VirtualNetwork` holds its ranges by value; `UidRanges` is proved as a class of its own against the same functions.
- std::set, std::map, std::sort and std::inplace_merge are represented by ordered sequences, maps and the merge functions they are specified by; std::lower_bound and std::set_difference are modelled as loops.
- Failures of getsockopt and setsockopt, and the transport of commands, replies and file descriptors.
- Locks: each lock section is one atomic step; `ProcessClient` takes the controller's state at each question as a parameter.
- Under kernel failures only the invariants of every run are claimed, not that the rules match the state, since several paths leave residue on purpose; on a kernel that refuses nothing `Progress.HistoryStaysConsistent` claims it for refused commands too.
- Progress.CommandsSucceedIfAllowed: takes interface names of at most 15 characters, in the state and in the command, because longer ones fail the checks of `modifyIpRule` (`NamesKeepFitting` keeps it).
- Iptables commands of bandwidth control fail only when the tables give them a reason; for `NatController` other failures are allowed and the results that depend on there being none say so (`reliable`).
- `Bandwidth.BandwidthController.RunIpxtablesCmd` keeps one table for both families, which receive the same commands.
- The value a quota or alert rule is created with: rules are identified by the quota's name, and presence and position are claimed; the values written to a counter later are modelled.
- `BandwidthController::setupIptablesHooks`: the chains are assumed to exist.
- Nat.NatController.EnableNat: does not say what is left in the forwarding chains when an iptables command fails without a reason in the tables, because how much is left depends on which commands of the clean-up fail too.
- Nat.NatController.DisableNat: does not say what is left in the chains when an iptables command fails without a reason in the tables, for the same reason; its return code, count and record do not depend on it.
- Nat.NatController.SetForwardRules: does not say which of the pair's rules the unwinding leaves when an iptables command fails without a reason in the tables, for the same reason.
- Nat.RunCommands: assumes that neither iptables nor RouteController refuses a command, because a refusal can leave a controller that is no longer settled (last clause of `EnableNat`); `Nat.RunAnyCommands` does without.
- Lists.List.InsertRange: does not model a range of the list itself; with a position inside or at the end of that range the loop of the source does not stop.
- Text: number parsing, command strings and listing lines start from parsed values; a line or uid that does not parse is `None`.
- The tethering rules `NatController` asks `RouteController` for are a multiset of pairs inside it; the kernel side of such a rule is `ModifyTetheredNetwork`.
- CommandListener, the DNS proxy, mDNS, firewall, idle timer, softAP, PPP, clatd and resolver controllers are not part of this model.
