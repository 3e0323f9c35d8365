/** What every NetworkController command does to the networks, the users and the kernel
    (server/NetworkController.cpp, Network.cpp, PhysicalNetwork.cpp, VirtualNetwork.cpp, LocalNetwork.cpp).
    The classes in NetworkController.dfy are proved to do exactly this. */
module Controllers {
  import opened Wrappers
  import opened Fwmarks
  import opened Kernels
  import opened Uids
  import opened Rules

  const EPERM := 1
  const EACCES := 13
  const EBUSY := 16
  const EEXIST := 17
  const EINVAL := 22
  const ENONET := 64

  const MIN_NET_ID: nat := 100
  const MAX_NET_ID: nat := 65535
  const MIN_OEM_ID: nat := 1
  const MAX_OEM_ID: nat := 50

  /** Iteration over the networks goes by ascending id, up to some number above all valid ids; which one does not
      matter. */
  type IdBound = n: nat | n > MAX_NET_ID witness MAX_NET_ID + 1
  const NET_ID_BOUND: IdBound

  datatype Network =
    | Local(interfaces: seq<string>)
    | Physical(interfaces: seq<string>, permission: Permission, isDefault: bool)
    | Virtual(interfaces: seq<string>, hasDns: bool, secure: bool, ranges: seq<Range>)

  datatype Controller = Controller(defaultNetId: nat, networks: map<nat, Network>,
                                   users: map<nat, Permission>, protectable: set<nat>)

  /** A controller, the kernel it drives, and the tethering rules in force (which netd itself does not record). */
  datatype World = World(ctl: Controller, kernel: Kernel, tethers: multiset<Item>)

  datatype Outcome = Outcome(world: World, ret: int)

  // ----- std::set<std::string> and the ascending order of std::map -----

  /** operator< of std::string. */
  predicate NameLess(a: string, b: string) {
    b != [] && (a == [] || a[0] < b[0] || (a[0] == b[0] && NameLess(a[1..], b[1..])))
  }

  function InsertName(names: seq<string>, name: string): seq<string> {
    if names == [] || NameLess(name, names[0]) then [name] + names
    else [names[0]] + InsertName(names[1..], name)
  }

  function EraseName(names: seq<string>, name: string): seq<string> {
    if names == [] then []
    else if names[0] == name then names[1..]
    else [names[0]] + EraseName(names[1..], name)
  }

  /** The VPNs with an id below `bound`, in ascending order. */
  function VpnsBelow(networks: map<nat, Network>, bound: nat): seq<nat> {
    if bound == 0 then []
    else
      VpnsBelow(networks, bound - 1) +
      (if bound - 1 in networks && networks[bound - 1].Virtual? then [bound - 1] else [])
  }

  function Vpns(ctl: Controller): seq<nat> { VpnsBelow(ctl.networks, NET_ID_BOUND) }

  // ----- Queries -----

  function FirstApplicable(networks: map<nat, Network>, vpns: seq<nat>, uid: nat): (r: Option<nat>)
    requires forall v :: v in vpns ==> v in networks && networks[v].Virtual?
    ensures r.Some? ==> r.value in vpns && HasUid(networks[r.value].ranges, uid)
    ensures r.None? ==> forall v :: v in vpns ==> !HasUid(networks[v].ranges, uid)
  {
    if vpns == [] then None
    else if HasUid(networks[vpns[0]].ranges, uid) then Some(vpns[0])
    else FirstApplicable(networks, vpns[1..], uid)
  }

  lemma {:induction false} VpnsAreVirtual(networks: map<nat, Network>, bound: nat)
    ensures forall v :: v in VpnsBelow(networks, bound) <==> v in networks && networks[v].Virtual? && v < bound
  {
    if bound > 0 {
      VpnsAreVirtual(networks, bound - 1);
    }
  }

  /** getVirtualNetworkForUserLocked(): the applicable VPN with the smallest id. */
  function VpnForUser(ctl: Controller, uid: nat): (r: Option<nat>)
    ensures r.Some? ==>
              r.value in ctl.networks && ctl.networks[r.value].Virtual? && HasUid(ctl.networks[r.value].ranges, uid)
    ensures r.None? ==> forall v :: v in ctl.networks && v < NET_ID_BOUND && ctl.networks[v].Virtual? ==>
                                    !HasUid(ctl.networks[v].ranges, uid)
  {
    VpnsAreVirtual(ctl.networks, NET_ID_BOUND);
    FirstApplicable(ctl.networks, Vpns(ctl), uid)
  }

  predicate IsVirtual(ctl: Controller, netId: nat) {
    netId in ctl.networks && ctl.networks[netId].Virtual?
  }

  /** `firstAppUid` is FIRST_APPLICATION_UID. */
  function PermissionForUser(ctl: Controller, uid: nat, firstAppUid: nat): Permission {
    if uid in ctl.users then ctl.users[uid]
    else if uid < firstAppUid then PERMISSION_SYSTEM else PERMISSION_NONE
  }

  predicate CanProtect(ctl: Controller, uid: nat, firstAppUid: nat) {
    PermissionForUser(ctl, uid, firstAppUid).Includes(PERMISSION_SYSTEM) || uid in ctl.protectable
  }

  function NetworkForUser(ctl: Controller, uid: nat): nat {
    var v := VpnForUser(ctl, uid);
    if v.Some? then v.value else ctl.defaultNetId
  }

  function NetworkForConnect(ctl: Controller, uid: nat): nat {
    var v := VpnForUser(ctl, uid);
    if v.Some? && !ctl.networks[v.value].secure then v.value else ctl.defaultNetId
  }

  /** `stray` is what the source reads when it treats the local network as a physical one. */
  function CheckAccess(ctl: Controller, uid: nat, netId: nat, firstAppUid: nat, stray: Permission): int {
    if netId !in ctl.networks then -ENONET
    else if uid == INVALID_UID then -EREMOTEIO
    else
      var network := ctl.networks[netId];
      var held := PermissionForUser(ctl, uid, firstAppUid);
      if held.Includes(PERMISSION_SYSTEM) then 0
      else if network.Virtual? then (if HasUid(network.ranges, uid) then 0 else -EPERM)
      else
        var v := VpnForUser(ctl, uid);
        if v.Some? && ctl.networks[v.value].secure && uid !in ctl.protectable then -EPERM
        else
          var needed := if network.Physical? then network.permission else stray;
          if held.Includes(needed) then 0 else -EACCES
  }

  /** getNetworkForDns(): the network chosen and the mark for the query. */
  function NetworkForDns(ctl: Controller, netId: nat, uid: nat, firstAppUid: nat, stray: Permission): (nat, Mark) {
    if CheckAccess(ctl, uid, netId, firstAppUid, stray) == 0 then
      (netId, Fwmark(NetIdBits(netId), true, true, PERMISSION_SYSTEM))
    else
      var v := VpnForUser(ctl, uid);
      var chosen := if v.Some? && ctl.networks[v.value].hasDns then v.value else ctl.defaultNetId;
      (chosen, Fwmark(NetIdBits(chosen), false, true, PERMISSION_SYSTEM))
  }

  // ----- Operations of the network classes -----

  /** Issue requests; only if all succeed does the controller's own state change. */
  function Perform(env: Env, w: World, requests: seq<Request>, ctl: Controller): Outcome {
    var d := Exec(env, w.kernel, requests);
    Outcome(w.(kernel := d.kernel, ctl := if d.ret == 0 then ctl else w.ctl), d.ret)
  }

  function Updated(ctl: Controller, netId: nat, network: Network): Controller {
    ctl.(networks := ctl.networks[netId := network])
  }

  function AddAsDefault(env: Env, w: World, netId: nat): Outcome
    requires netId in w.ctl.networks && w.ctl.networks[netId].Physical?
  {
    var n := w.ctl.networks[netId];
    if n.isDefault then Outcome(w, 0)
    else Perform(env, w, EachInterface(env, DefaultPart(Vpns(w.ctl), n.permission), n.interfaces, true),
                 Updated(w.ctl, netId, n.(isDefault := true)))
  }

  function RemoveAsDefault(env: Env, w: World, netId: nat): Outcome
    requires netId in w.ctl.networks && w.ctl.networks[netId].Physical?
  {
    var n := w.ctl.networks[netId];
    if !n.isDefault then Outcome(w, 0)
    else Perform(env, w, EachInterface(env, DefaultPart(Vpns(w.ctl), n.permission), n.interfaces, false),
                 Updated(w.ctl, netId, n.(isDefault := false)))
  }

  function SetPermissionRequests(env: Env, vpns: seq<nat>, netId: nat, n: Network, permission: Permission): seq<Request>
    requires n.Physical?
  {
    EachSwap(env, PhysicalPart(netId, permission), PhysicalPart(netId, n.permission), n.interfaces) +
    if n.isDefault then EachSwap(env, DefaultPart(vpns, permission), DefaultPart(vpns, n.permission), n.interfaces)
    else []
  }

  function SetPermission(env: Env, w: World, netId: nat, permission: Permission): Outcome
    requires netId in w.ctl.networks && w.ctl.networks[netId].Physical?
  {
    var n := w.ctl.networks[netId];
    if permission == n.permission then Outcome(w, 0)
    else Perform(env, w, SetPermissionRequests(env, Vpns(w.ctl), netId, n, permission),
                 Updated(w.ctl, netId, n.(permission := permission)))
  }

  /** The role a network gives its interfaces. */
  function MainPart(netId: nat, n: Network): Part {
    match n
    case Local(_) => LocalPart(netId)
    case Physical(_, permission, _) => PhysicalPart(netId, permission)
    case Virtual(_, _, secure, ranges) => VirtualPart(netId, ranges, secure)
  }

  predicate IsDefault(n: Network) { n.Physical? && n.isDefault }

  /** The further role of the interfaces of the default network. */
  function ExtraPart(vpns: seq<nat>, n: Network): Part {
    DefaultPart(vpns, if n.Physical? then n.permission else PERMISSION_NONE)
  }

  function AttachRequests(env: Env, vpns: seq<nat>, netId: nat, n: Network, interface: string): seq<Request> {
    PartRequests(env, MainPart(netId, n), interface, true) +
    if IsDefault(n) then PartRequests(env, ExtraPart(vpns, n), interface, true) else []
  }

  /** Flushing the routes forgets the interface's table, so it comes last. */
  function DetachRequests(env: Env, vpns: seq<nat>, netId: nat, n: Network, interface: string): seq<Request> {
    (if IsDefault(n) then PartRequests(env, ExtraPart(vpns, n), interface, false) else []) +
    PartRequests(env, MainPart(netId, n), interface, false) +
    (if n.Local? then [] else [Flush(interface)])
  }

  function Attach(env: Env, w: World, netId: nat, interface: string): Outcome
    requires netId in w.ctl.networks
  {
    var n := w.ctl.networks[netId];
    if interface in n.interfaces then Outcome(w, 0)
    else Perform(env, w, AttachRequests(env, Vpns(w.ctl), netId, n, interface),
                 Updated(w.ctl, netId, n.(interfaces := InsertName(n.interfaces, interface))))
  }

  function Detach(env: Env, w: World, netId: nat, interface: string): Outcome
    requires netId in w.ctl.networks
  {
    var n := w.ctl.networks[netId];
    if interface !in n.interfaces then Outcome(w, 0)
    else Perform(env, w, DetachRequests(env, Vpns(w.ctl), netId, n, interface),
                 Updated(w.ctl, netId, n.(interfaces := EraseName(n.interfaces, interface))))
  }

  /** Network::clearInterfaces() */
  function ClearInterfaces(env: Env, w: World, netId: nat): (o: Outcome)
    requires netId in w.ctl.networks
    ensures netId in o.world.ctl.networks
    decreases |w.ctl.networks[netId].interfaces|
  {
    var n := w.ctl.networks[netId];
    if n.interfaces == [] then Outcome(w, 0)
    else
      var o := Detach(env, w, netId, n.interfaces[0]);
      if o.ret != 0 then o else ClearInterfaces(env, o.world, netId)
  }

  function ChangeUsers(env: Env, w: World, netId: nat, ranges: seq<Range>, add: bool): Outcome
    requires netId in w.ctl.networks && w.ctl.networks[netId].Virtual?
  {
    var n := w.ctl.networks[netId];
    Perform(env, w, EachInterface(env, UsersPart(netId, ranges, n.secure), n.interfaces, add),
            Updated(w.ctl, netId, n.(ranges := if add then Merge(n.ranges, ranges) else Difference(n.ranges, ranges))))
  }

  // ----- Commands -----

  datatype Command =
    | SetDefaultNetwork(netId: nat)
    | CreatePhysicalNetwork(netId: nat, permission: Permission)
    | CreateVirtualNetwork(netId: nat, hasDns: bool, secure: bool)
    | DestroyNetwork(netId: nat)
    | AddInterfaceToNetwork(netId: nat, interface: string)
    | RemoveInterfaceFromNetwork(netId: nat, interface: string)
    | SetPermissionForUsers(permission: Permission, uids: seq<nat>)
    | SetPermissionForNetworks(permission: Permission, netIds: seq<nat>)
    | AddUsersToNetwork(netId: nat, ranges: seq<Range>)
    | RemoveUsersFromNetwork(netId: nat, ranges: seq<Range>)
    | AllowProtect(uids: seq<nat>)
    | DenyProtect(uids: seq<nat>)
    | EnableTethering(input: string, output: string)
    | DisableTethering(input: string, output: string)

  /** The user ranges of a command come out of UidRanges::parseFrom(). */
  ghost predicate ValidCommand(c: Command) {
    (c.AddUsersToNetwork? || c.RemoveUsersFromNetwork?) ==> Wellformed(c.ranges)
  }

  function SetDefault(env: Env, w: World, netId: nat): Outcome {
    if netId == w.ctl.defaultNetId then Outcome(w, 0)
    else if netId != NETID_UNSET && netId !in w.ctl.networks then Outcome(w, -ENONET)
    else if netId != NETID_UNSET && !w.ctl.networks[netId].Physical? then Outcome(w, -EINVAL)
    else
      var o1 := if netId != NETID_UNSET then AddAsDefault(env, w, netId) else Outcome(w, 0);
      if o1.ret != 0 then o1
      else
        var w1 := o1.world;
        var was := w1.ctl.defaultNetId;
        if was != NETID_UNSET && !(was in w1.ctl.networks && w1.ctl.networks[was].Physical?) then Outcome(w1, -ESRCH)
        else
          var o2 := if was != NETID_UNSET then RemoveAsDefault(env, w1, was) else Outcome(w1, 0);
          if o2.ret != 0 then o2
          else Outcome(o2.world.(ctl := o2.world.ctl.(defaultNetId := netId)), 0)
  }

  predicate ValidPhysicalNetId(netId: nat) {
    MIN_NET_ID <= netId <= MAX_NET_ID || MIN_OEM_ID <= netId <= MAX_OEM_ID
  }

  predicate ValidVirtualNetId(netId: nat) {
    MIN_NET_ID <= netId <= MAX_NET_ID
  }

  function CreatePhysical(env: Env, w: World, netId: nat, permission: Permission): Outcome {
    if !ValidPhysicalNetId(netId) then Outcome(w, -EINVAL)
    else if netId in w.ctl.networks then Outcome(w, -EEXIST)
    else Outcome(w.(ctl := Updated(w.ctl, netId, Physical([], permission, false))), 0)
  }

  /** modifyFallthroughLocked(): the requests, or an error if the default network cannot be found. */
  function FallthroughRequests(env: Env, ctl: Controller, vpn: nat, add: bool): (seq<Request>, int) {
    var id := ctl.defaultNetId;
    if id == NETID_UNSET then ([], 0)
    else if id !in ctl.networks then ([], -ESRCH)
    else if !ctl.networks[id].Physical? then ([], -EINVAL)
    else
      var n := ctl.networks[id];
      (EachInterface(env, FallthroughPart(vpn, n.permission), n.interfaces, add), 0)
  }

  function CreateVirtual(env: Env, w: World, netId: nat, hasDns: bool, secure: bool): Outcome {
    if !ValidVirtualNetId(netId) then Outcome(w, -EINVAL)
    else if netId in w.ctl.networks then Outcome(w, -EEXIST)
    else
      var (requests, error) := FallthroughRequests(env, w.ctl, netId, true);
      if error != 0 then Outcome(w, error)
      else Perform(env, w, requests, Updated(w.ctl, netId, Virtual([], hasDns, secure, [])))
  }

  function Erased(ctl: Controller, netId: nat): Controller {
    ctl.(networks := ctl.networks - {netId})
  }

  function FirstError(a: int, b: int): int { if a != 0 then a else b }

  /** Errors are remembered but do not stop the destruction; the first one is returned. */
  function Destroy(env: Env, w: World, netId: nat): Outcome {
    if netId == LOCAL_NET_ID then Outcome(w, -EINVAL)
    else if netId !in w.ctl.networks then Outcome(w, -ENONET)
    else
      var o1 := ClearInterfaces(env, w, netId);
      var w1 := o1.world;
      var n := w1.ctl.networks[netId];
      if w1.ctl.defaultNetId == netId && n.Physical? then
        var o2 := RemoveAsDefault(env, w1, netId);
        Outcome(o2.world.(ctl := Erased(o2.world.ctl, netId).(defaultNetId := NETID_UNSET)), FirstError(o1.ret, o2.ret))
      else if n.Virtual? then
        var (requests, error) := FallthroughRequests(env, w1.ctl, netId, false);
        var o2 := if error != 0 then Outcome(w1, error) else Perform(env, w1, requests, w1.ctl);
        Outcome(o2.world.(ctl := Erased(o2.world.ctl, netId)), FirstError(o1.ret, o2.ret))
      else Outcome(w1.(ctl := Erased(w1.ctl, netId)), o1.ret)
  }

  /** getNetworkForInterface(), scanning network ids upwards from `from`. */
  function NetworkForInterface(networks: map<nat, Network>, interface: string, from: nat): (id: nat)
    requires from > NETID_UNSET
    ensures id != NETID_UNSET ==> id in networks && interface in networks[id].interfaces
    ensures id == NETID_UNSET ==> forall n :: n in networks && from <= n < NET_ID_BOUND ==>
              interface !in networks[n].interfaces
    decreases NET_ID_BOUND - from
  {
    if from >= NET_ID_BOUND then NETID_UNSET
    else if from in networks && interface in networks[from].interfaces then from
    else NetworkForInterface(networks, interface, from + 1)
  }

  function AddInterface(env: Env, w: World, netId: nat, interface: string): Outcome {
    if netId !in w.ctl.networks then Outcome(w, -ENONET)
    else
      var existing := NetworkForInterface(w.ctl.networks, interface, 1);
      if existing != NETID_UNSET && existing != netId then Outcome(w, -EBUSY)
      else Attach(env, w, netId, interface)
  }

  function RemoveInterface(env: Env, w: World, netId: nat, interface: string): Outcome {
    if netId !in w.ctl.networks then Outcome(w, -ENONET) else Detach(env, w, netId, interface)
  }

  function WithPermission(users: map<nat, Permission>, permission: Permission, uids: seq<nat>): map<nat, Permission>
    decreases |uids|
  {
    if uids == [] then users else WithPermission(users[uids[0] := permission], permission, uids[1..])
  }

  function SetNetworkPermissions(env: Env, w: World, permission: Permission, netIds: seq<nat>): Outcome
    decreases |netIds|
  {
    if netIds == [] then Outcome(w, 0)
    else if netIds[0] !in w.ctl.networks then Outcome(w, -ENONET)
    else if !w.ctl.networks[netIds[0]].Physical? then Outcome(w, -EINVAL)
    else
      var o := SetPermission(env, w, netIds[0], permission);
      if o.ret != 0 then o else SetNetworkPermissions(env, o.world, permission, netIds[1..])
  }

  function ChangeUsersOf(env: Env, w: World, netId: nat, ranges: seq<Range>, add: bool): Outcome {
    if netId !in w.ctl.networks then Outcome(w, -ENONET)
    else if !w.ctl.networks[netId].Virtual? then Outcome(w, -EINVAL)
    else ChangeUsers(env, w, netId, ranges, add)
  }

  /** modifyTetheredNetwork(); the rules in force are recorded as they come and go. */
  function Tether(env: Env, w: World, input: string, output: string, add: bool): Outcome {
    var item := IpRule(TetheringRule(input, TableOf(env, output)));
    var d := Exec(env, w.kernel, [Lookup(output), Change(add, item)]);
    var tethers :=
      if d.ret != 0 then w.tethers else if add then w.tethers + multiset{item} else w.tethers - multiset{item};
    Outcome(w.(kernel := d.kernel, tethers := tethers), d.ret)
  }

  function Step(env: Env, w: World, c: Command): Outcome {
    match c
    case SetDefaultNetwork(netId) => SetDefault(env, w, netId)
    case CreatePhysicalNetwork(netId, permission) => CreatePhysical(env, w, netId, permission)
    case CreateVirtualNetwork(netId, hasDns, secure) => CreateVirtual(env, w, netId, hasDns, secure)
    case DestroyNetwork(netId) => Destroy(env, w, netId)
    case AddInterfaceToNetwork(netId, interface) => AddInterface(env, w, netId, interface)
    case RemoveInterfaceFromNetwork(netId, interface) => RemoveInterface(env, w, netId, interface)
    case SetPermissionForUsers(permission, uids) =>
      Outcome(w.(ctl := w.ctl.(users := WithPermission(w.ctl.users, permission, uids))), 0)
    case SetPermissionForNetworks(permission, netIds) => SetNetworkPermissions(env, w, permission, netIds)
    case AddUsersToNetwork(netId, ranges) => ChangeUsersOf(env, w, netId, ranges, true)
    case RemoveUsersFromNetwork(netId, ranges) => ChangeUsersOf(env, w, netId, ranges, false)
    case AllowProtect(uids) =>
      Outcome(w.(ctl := w.ctl.(protectable := w.ctl.protectable + set u | u in uids)), 0)
    case DenyProtect(uids) =>
      Outcome(w.(ctl := w.ctl.(protectable := w.ctl.protectable - set u | u in uids)), 0)
    case EnableTethering(input, output) => Tether(env, w, input, output, true)
    case DisableTethering(input, output) => Tether(env, w, input, output, false)
  }

  /** NetworkController's constructor after RouteController::Init(). */
  function InitialController(): Controller {
    Controller(NETID_UNSET, map[LOCAL_NET_ID := Local([])], map[], {})
  }

  function InitRequests(): seq<Request> { ChangeAll(InitItems(), true) }

  /** RouteController::Init() */
  ghost function StartRules(env: Env, k: Kernel): Done {
    var f := ExecFlushRules(env, k);
    if f.ret != 0 then f else Exec(env, f.kernel, InitRequests())
  }

  /** Start-up, whatever rules the kernel holds before. */
  ghost function Boot(env: Env, v4: multiset<Item>, v6: multiset<Item>): Outcome {
    var d := StartRules(env, Kernel(v4, v6, map[], 0));
    Outcome(World(InitialController(), d.kernel, multiset{}), d.ret)
  }
}
