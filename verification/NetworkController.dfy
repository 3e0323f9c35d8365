/** NetworkController, statement by statement (server/NetworkController.cpp): every command does to the objects and to
    the kernel exactly what the specification says, so whatever holds in its runs holds here. */
module NetworkControllers {
  import opened Wrappers
  import opened Fwmarks
  import opened Kernels
  import opened Uids
  import opened Rules
  import opened Controllers
  import opened Safety
  import opened RouteControllers
  import opened Networks

  /** A Network pointer and its dynamic type. */
  datatype NetworkRef =
    | LocalRef(local: LocalNetwork)
    | PhysicalRef(physical: PhysicalNetwork)
    | VirtualRef(virtual: VirtualNetwork)
  {
    function Object(): object {
      match this
      case LocalRef(n) => n
      case PhysicalRef(n) => n
      case VirtualRef(n) => n
    }

    function NetId(): nat {
      match this
      case LocalRef(n) => n.netId
      case PhysicalRef(n) => n.netId
      case VirtualRef(n) => n.netId
    }

    ghost function Value(): (v: Network)
      reads Object()
      ensures v.Local? == LocalRef? && v.Physical? == PhysicalRef? && v.Virtual? == VirtualRef?
    {
      match this
      case LocalRef(n) => n.Value()
      case PhysicalRef(n) => n.Value()
      case VirtualRef(n) => n.Value()
    }

    function Interfaces(): (r: seq<string>)
      reads Object()
      ensures r == Value().interfaces
    {
      match this
      case LocalRef(n) => n.interfaces
      case PhysicalRef(n) => n.interfaces
      case VirtualRef(n) => n.interfaces
    }
  }

  /** The network that has the interface, if any. */
  ghost function OwnerOf(networks: map<nat, Network>, interface: string): nat {
    NetworkForInterface(networks, interface, 1)
  }

  /** What setDefaultNetwork() does once the new network is a default. */
  ghost function Replacing(env: Env, w: World, netId: nat): Outcome {
    var was := w.ctl.defaultNetId;
    if was != NETID_UNSET && !(was in w.ctl.networks && w.ctl.networks[was].Physical?) then Outcome(w, -ESRCH)
    else
      var o := if was != NETID_UNSET then RemoveAsDefault(env, w, was) else Outcome(w, 0);
      if o.ret != 0 then o else Outcome(o.world.(ctl := o.world.ctl.(defaultNetId := netId)), 0)
  }

  lemma SetDefaultIs(env: Env, w: World, netId: nat)
    ensures SetDefault(env, w, netId) ==
            if netId == w.ctl.defaultNetId then Outcome(w, 0)
            else if netId == NETID_UNSET then Replacing(env, w, netId)
            else if netId !in w.ctl.networks then Outcome(w, -ENONET)
            else if !w.ctl.networks[netId].Physical? then Outcome(w, -EINVAL)
            else
              var o := AddAsDefault(env, w, netId);
              if o.ret != 0 then o else Replacing(env, o.world, netId)
  {
    hide AddAsDefault, RemoveAsDefault;
  }

  /** What destroyNetwork() does between clearing the interfaces and erasing the network. */
  ghost function Releasing(env: Env, w: World, netId: nat): Outcome
    requires netId in w.ctl.networks
  {
    var n := w.ctl.networks[netId];
    if w.ctl.defaultNetId == netId && n.Physical? then
      var o := RemoveAsDefault(env, w, netId);
      Outcome(o.world.(ctl := o.world.ctl.(defaultNetId := NETID_UNSET)), o.ret)
    else if n.Virtual? then
      var (requests, error) := FallthroughRequests(env, w.ctl, netId, false);
      if error != 0 then Outcome(w, error) else Perform(env, w, requests, w.ctl)
    else Outcome(w, 0)
  }

  lemma DestroyIs(env: Env, w: World, netId: nat)
    ensures Destroy(env, w, netId) ==
            if netId == LOCAL_NET_ID then Outcome(w, -EINVAL)
            else if netId !in w.ctl.networks then Outcome(w, -ENONET)
            else
              var o1 := ClearInterfaces(env, w, netId);
              var o2 := Releasing(env, o1.world, netId);
              Outcome(o2.world.(ctl := Erased(o2.world.ctl, netId)), FirstError(o1.ret, o2.ret))
  {
    hide ClearInterfaces, RemoveAsDefault, FallthroughRequests, Perform;
  }

  lemma CreateVirtualIs(env: Env, w: World, netId: nat, hasDns: bool, secure: bool)
    ensures CreateVirtual(env, w, netId, hasDns, secure) ==
            if !ValidVirtualNetId(netId) then Outcome(w, -EINVAL)
            else if netId in w.ctl.networks then Outcome(w, -EEXIST)
            else
              var (requests, error) := FallthroughRequests(env, w.ctl, netId, true);
              var d := if error != 0 then Done(w.kernel, error) else Exec(env, w.kernel, requests);
              Outcome(if d.ret != 0 then w.(kernel := d.kernel)
                      else Replaced(w.(kernel := d.kernel), netId, d.kernel, Virtual([], hasDns, secure, [])), d.ret)
  {
    hide Exec, FallthroughRequests;
  }

  lemma NoSuchNetwork(env: Env, w: World, netId: nat, interface: string)
    requires netId !in w.ctl.networks
    ensures AddInterface(env, w, netId, interface) == Outcome(w, -ENONET)
  {
  }

  lemma AddInterfaceIs(env: Env, w: World, netId: nat, interface: string)
    requires netId in w.ctl.networks
    ensures var existing := OwnerOf(w.ctl.networks, interface);
            AddInterface(env, w, netId, interface) ==
            if existing != NETID_UNSET && existing != netId then Outcome(w, -EBUSY)
            else Attach(env, w, netId, interface)
  {
    hide Attach;
  }

  class NetworkController {
    const routes: RouteController
    var defaultNetId: nat
    var networks: map<nat, NetworkRef>
    var users: map<nat, Permission>
    var protectableUsers: set<nat>
    /** The tethering rules in force. */
    ghost var tethers: multiset<Item>

    ghost function Objects(): set<object>
      reads this
    {
      set id | id in networks :: networks[id].Object()
    }

    ghost function Values(): map<nat, Network>
      reads this, Objects()
    {
      map id | id in networks :: networks[id].Value()
    }

    ghost function State(): World
      reads this, routes, Objects()
    {
      World(Controller(defaultNetId, Values(), users, protectableUsers), routes.State(), tethers)
    }

    /** Every network is filed under its own id. */
    ghost predicate Filed()
      reads this
    {
      forall id :: id in networks ==> networks[id].NetId() == id
    }

    ghost predicate Valid()
      reads this, routes
    {
      routes.Valid() && Filed()
    }

    constructor (routes: RouteController)
      requires routes.Valid()
      ensures this.routes == routes && Filed() && fresh(Objects())
      ensures State().ctl == InitialController() && tethers == multiset{}
    {
      this.routes := routes;
      var local := new LocalNetwork(LOCAL_NET_ID);
      networks := map[LOCAL_NET_ID := LocalRef(local)];
      defaultNetId := NETID_UNSET;
      users, protectableUsers := map[], {};
      tethers := multiset{};
    }

    // ----- The networks -----

    /** The VPNs, in ascending order of their ids. */
    method CollectVpns() returns (vpns: seq<nat>)
      ensures vpns == Vpns(State().ctl)
    {
      vpns := [];
      for id := 0 to NET_ID_BOUND
        invariant vpns == VpnsBelow(Values(), id)
      {
        if id in networks && networks[id].VirtualRef? {
          vpns := vpns + [id];
        }
      }
    }

    method GetNetworkForInterface(interface: string) returns (netId: nat)
      ensures netId == OwnerOf(Values(), interface)
    {
      for id := 1 to NET_ID_BOUND
        invariant NetworkForInterface(Values(), interface, 1) == NetworkForInterface(Values(), interface, id)
      {
        if id in networks && interface in networks[id].Interfaces() {
          return id;
        }
      }
      return NETID_UNSET;
    }

    /** No two ids stand for the same object. */
    lemma Separate(netId: nat)
      requires Filed() && netId in networks
      ensures networks[netId].Object() in Objects()
      ensures forall id :: id in networks && id != netId ==> networks[id].Object() != networks[netId].Object()
      ensures forall id :: id in networks ==> networks[id].Object() != routes
    {
      forall id | id in networks && id != netId
        ensures networks[id].Object() != networks[netId].Object()
      {
        DistinctObjects(networks[id], networks[netId]);
      }
    }

    method AttachInterface(netId: nat, interface: string) returns (ret: int)
      requires Valid() && netId in networks
      modifies routes, Objects()
      ensures Valid() && networks == old(networks)
      ensures Outcome(State(), ret) == Attach(routes.env, old(State()), netId, interface)
    {
      hide VpnsBelow, Exec, AttachRequests, InsertName, Vpns, CacheSound, Commit, Attach;
      var vpns := CollectVpns();
      ghost var w := State();
      var n := networks[netId];
      Separate(netId);
      hide NetworkRef.Object, NetworkRef.Value;
      ret := AddInterfaceTo(n, routes, interface, vpns);
      assert Values() == w.ctl.networks[netId := n.Value()];
      AttachIs(routes.env, w, netId, interface, routes.State(), n.Value(), ret);
    }

    method DetachInterface(netId: nat, interface: string) returns (ret: int)
      requires Valid() && netId in networks
      modifies routes, Objects()
      ensures Valid() && networks == old(networks)
      ensures Outcome(State(), ret) == Detach(routes.env, old(State()), netId, interface)
    {
      hide VpnsBelow, Exec, DetachRequests, EraseName, Vpns, CacheSound, Commit, Detach;
      var vpns := CollectVpns();
      ghost var w := State();
      var n := networks[netId];
      Separate(netId);
      hide NetworkRef.Object, NetworkRef.Value;
      ret := RemoveInterfaceFrom(n, routes, interface, vpns);
      assert Values() == w.ctl.networks[netId := n.Value()];
      DetachIs(routes.env, w, netId, interface, routes.State(), n.Value(), ret);
    }

    /** Network::clearInterfaces() */
    method ClearInterfacesOf(netId: nat) returns (ret: int)
      requires Valid() && netId in networks
      modifies routes, Objects()
      ensures Valid() && networks == old(networks)
      ensures Outcome(State(), ret) == ClearInterfaces(routes.env, old(State()), netId)
    {
      hide Exec, DetachRequests, EraseName, Vpns, VpnsBelow, CacheSound, Detach;
      ghost var env := routes.env;
      ghost var w := State();
      while networks[netId].Interfaces() != []
        invariant Valid() && networks == old(networks)
        invariant netId in State().ctl.networks
                  && ClearInterfaces(env, w, netId) == ClearInterfaces(env, State(), netId)
        decreases |networks[netId].Interfaces()|
      {
        ghost var before := State();
        var interface := networks[netId].Interfaces()[0];
        DetachShrinks(env, before, netId);
        ret := DetachInterface(netId, interface);
        if ret != 0 {
          return;
        }
      }
      return 0;
    }

    method MakeDefault(netId: nat, add: bool) returns (ret: int)
      requires Valid() && netId in networks && networks[netId].PhysicalRef?
      modifies routes, Objects()
      ensures Valid() && networks == old(networks)
      ensures Outcome(State(), ret) ==
              if add then AddAsDefault(routes.env, old(State()), netId)
              else RemoveAsDefault(routes.env, old(State()), netId)
    {
      hide VpnsBelow, Exec, Vpns, CacheSound, Commit, AddAsDefault, RemoveAsDefault, EachInterface;
      var vpns := CollectVpns();
      ghost var w := State();
      var n := networks[netId].physical;
      Separate(netId);
      ret := SetDefaultFlag(n, routes, vpns, add);
      assert State() == Replaced(w, netId, routes.State(), n.Value()) by {
        assert Values() == w.ctl.networks[netId := n.Value()];
      }
      DefaultIs(routes.env, w, netId, add, routes.State(), n.Value(), ret);
    }

    method SetPermissionOf(netId: nat, permission: Permission) returns (ret: int)
      requires Valid() && netId in networks && networks[netId].PhysicalRef?
      modifies routes, Objects()
      ensures Valid() && networks == old(networks)
      ensures Outcome(State(), ret) == SetPermission(routes.env, old(State()), netId, permission)
    {
      hide VpnsBelow, Exec, Vpns, CacheSound, Commit, SetPermission, SetPermissionRequests;
      var vpns := CollectVpns();
      ghost var w := State();
      var n := networks[netId].physical;
      Separate(netId);
      ret := n.SetPermission(routes, vpns, permission);
      assert Values() == w.ctl.networks[netId := n.Value()];
      PermissionIs(routes.env, w, netId, permission, routes.State(), n.Value(), ret);
    }

    method ChangeUsersIn(netId: nat, ranges: seq<Range>, add: bool) returns (ret: int)
      requires Valid() && netId in networks && networks[netId].VirtualRef?
      modifies routes, Objects()
      ensures Valid() && networks == old(networks)
      ensures Outcome(State(), ret) == ChangeUsers(routes.env, old(State()), netId, ranges, add)
    {
      hide VpnsBelow, Exec, CacheSound, Commit, ChangeUsers, EachInterface, Merge, Difference;
      ghost var w := State();
      var n := networks[netId].virtual;
      Separate(netId);
      ret := n.ChangeUsers(routes, ranges, add);
      assert Values() == w.ctl.networks[netId := n.Value()];
      UsersIs(routes.env, w, netId, ranges, add, routes.State(), n.Value(), ret);
    }

    /** modifyFallthroughLocked() */
    method ModifyFallthrough(vpnNetId: nat, add: bool) returns (ret: int)
      requires routes.Valid()
      modifies routes
      ensures routes.Valid()
      ensures State() == old(State()).(kernel := routes.State())
      ensures var (requests, error) := FallthroughRequests(routes.env, old(State()).ctl, vpnNetId, add);
              Done(routes.State(), ret) == if error != 0 then Done(old(routes.State()), error)
                                           else Exec(routes.env, old(routes.State()), requests)
    {
      hide Exec, PartRequests, EachInterface, CacheSound, LookedUp, VpnFallthroughRule;
      if defaultNetId == NETID_UNSET {
        NothingLeft(routes.env, routes.State(), add);
        return 0;
      }
      if defaultNetId !in networks {
        return -ESRCH;
      }
      var network := networks[defaultNetId];
      if !network.PhysicalRef? {
        return -EINVAL;
      }
      var permission := network.physical.permission;
      var interfaces := network.physical.interfaces;
      ghost var env := routes.env;
      ghost var part := FallthroughPart(vpnNetId, permission);
      ghost var all := Exec(env, routes.State(), EachInterface(env, part, interfaces, add));
      assert Values()[defaultNetId] == network.Value();
      assert interfaces[0..] == interfaces;
      for i := 0 to |interfaces|
        invariant routes.Valid() && State() == old(State()).(kernel := routes.State())
        invariant all == Exec(env, routes.State(), EachInterface(env, part, interfaces[i..], add))
      {
        assert interfaces[i..] == [interfaces[i]] + interfaces[i + 1..];
        EachStep(env, routes.State(), part, interfaces[i], interfaces[i + 1..], add);
        FallthroughIs(env, routes.State(), vpnNetId, permission, interfaces[i], add);
        ret := routes.ModifyVpnFallthroughRule(add, vpnNetId, interfaces[i], permission);
        if ret != 0 {
          return;
        }
      }
      NoInterfaces(env, routes.State(), part, part, add);
      return 0;
    }

    // ----- Commands -----

    method SetDefaultNetwork(netId: nat) returns (ret: int)
      requires Valid()
      modifies this, routes, Objects()
      ensures Valid() && Objects() == old(Objects())
      ensures Outcome(State(), ret) == SetDefault(routes.env, old(State()), netId)
    {
      hide AddAsDefault, RemoveAsDefault, Exec, CacheSound, NetworkRef.Object, SetDefault, Replacing;
      SetDefaultIs(routes.env, State(), netId);
      if netId == defaultNetId {
        return 0;
      }
      if netId != NETID_UNSET {
        if netId !in networks {
          return -ENONET;
        }
        if !networks[netId].PhysicalRef? {
          return -EINVAL;
        }
        ret := MakeDefault(netId, true);
        if ret != 0 {
          return;
        }
      }
      ret := ReplaceDefault(netId);
    }

    /** The second half of setDefaultNetwork(). */
    method ReplaceDefault(netId: nat) returns (ret: int)
      requires Valid()
      modifies this, routes, Objects()
      ensures Valid() && Objects() == old(Objects())
      ensures Outcome(State(), ret) == Replacing(routes.env, old(State()), netId)
    {
      hide RemoveAsDefault, Exec, CacheSound, NetworkRef.Object;
      if defaultNetId != NETID_UNSET {
        if defaultNetId !in networks || !networks[defaultNetId].PhysicalRef? {
          return -ESRCH;
        }
        ret := MakeDefault(defaultNetId, false);
        if ret != 0 {
          return;
        }
      }
      defaultNetId := netId;
      return 0;
    }

    method CreatePhysicalNetwork(netId: nat, permission: Permission) returns (ret: int)
      requires Valid()
      modifies this, routes
      ensures Valid() && fresh(Objects() - old(Objects()))
      ensures Outcome(State(), ret) == CreatePhysical(routes.env, old(State()), netId, permission)
    {
      hide Exec, CacheSound, Commit, VpnsBelow;
      if !ValidPhysicalNetId(netId) {
        return -EINVAL;
      }
      if netId in networks {
        return -EEXIST;
      }
      ghost var w := State();
      var vpns := CollectVpns();
      ghost var kernel := routes.State();
      var physicalNetwork := MakePhysical(netId, routes, vpns, permission);
      assert routes.State() == kernel && Values() == w.ctl.networks;
      Enter(netId, PhysicalRef(physicalNetwork));
      return 0;
    }

    /** Files a new network. */
    method Enter(netId: nat, n: NetworkRef)
      requires Valid() && n.NetId() == netId
      modifies this
      ensures Valid() && Objects() <= old(Objects()) + {n.Object()}
      ensures n.Value() == old(n.Value())
      ensures State() == Replaced(old(State()), netId, old(State()).kernel, n.Value())
    {
      ghost var w := State();
      networks := networks[netId := n];
      assert Values() == w.ctl.networks[netId := n.Value()];
    }

    method CreateVirtualNetwork(netId: nat, hasDns: bool, secure: bool) returns (ret: int)
      requires Valid()
      modifies this, routes
      ensures Valid() && fresh(Objects() - old(Objects()))
      ensures Outcome(State(), ret) == CreateVirtual(routes.env, old(State()), netId, hasDns, secure)
    {
      hide Exec, CacheSound, FallthroughRequests, CreateVirtual, ValidVirtualNetId;
      CreateVirtualIs(routes.env, State(), netId, hasDns, secure);
      if !ValidVirtualNetId(netId) {
        return -EINVAL;
      }
      if netId in networks {
        return -EEXIST;
      }
      ret := ModifyFallthrough(netId, true);
      if ret != 0 {
        return;
      }
      ghost var w := State();
      var virtualNetwork := new VirtualNetwork(netId, hasDns, secure);
      assert State() == w;
      hide NetworkRef.Object;
      Enter(netId, VirtualRef(virtualNetwork));
      return 0;
    }

    /** Failures do not stop the destruction; the first one is returned. */
    method DestroyNetwork(netId: nat) returns (ret: int)
      requires Valid()
      modifies this, routes, Objects()
      ensures Valid() && Objects() <= old(Objects())
      ensures Outcome(State(), ret) == Destroy(routes.env, old(State()), netId)
    {
      hide Exec, CacheSound, ClearInterfaces, Releasing, Destroy, NetworkRef.Object;
      DestroyIs(routes.env, State(), netId);
      if netId == LOCAL_NET_ID {
        return -EINVAL;
      }
      if netId !in networks {
        return -ENONET;
      }
      ret := ClearInterfacesOf(netId);
      var err := Release(netId);
      if ret == 0 {
        ret := err;
      }
      Strike(netId);
    }

    /** What a network without interfaces still has in the kernel. */
    method Release(netId: nat) returns (err: int)
      requires Valid() && netId in networks
      modifies this, routes, Objects()
      ensures Valid() && networks == old(networks)
      ensures Outcome(State(), err) == Releasing(routes.env, old(State()), netId)
    {
      hide Exec, CacheSound, RemoveAsDefault, FallthroughRequests, NetworkRef.Object;
      err := 0;
      if defaultNetId == netId && networks[netId].PhysicalRef? {
        err := MakeDefault(netId, false);
        defaultNetId := NETID_UNSET;
      } else if networks[netId].VirtualRef? {
        err := ModifyFallthrough(netId, false);
      }
    }

    method Strike(netId: nat)
      requires Valid()
      modifies this
      ensures Valid() && Objects() <= old(Objects())
      ensures State() == old(State()).(ctl := Erased(old(State()).ctl, netId))
    {
      ghost var w := State();
      networks := networks - {netId};
      assert Values() == w.ctl.networks - {netId};
    }

    method AddInterfaceToNetwork(netId: nat, interface: string) returns (ret: int)
      requires Valid()
      modifies this, routes, Objects()
      ensures Valid() && Objects() == old(Objects())
      ensures Outcome(State(), ret) == AddInterface(routes.env, old(State()), netId, interface)
    {
      hide Attach, Exec, CacheSound, OwnerOf, AddInterface;
      if netId !in networks {
        NoSuchNetwork(routes.env, State(), netId, interface);
        return -ENONET;
      }
      ghost var w := State();
      var existing := GetNetworkForInterface(interface);
      assert State() == w;
      AddInterfaceIs(routes.env, State(), netId, interface);
      if existing != NETID_UNSET && existing != netId {
        return -EBUSY;
      }
      ret := AttachInterface(netId, interface);
    }

    method RemoveInterfaceFromNetwork(netId: nat, interface: string) returns (ret: int)
      requires Valid()
      modifies this, routes, Objects()
      ensures Valid() && Objects() == old(Objects())
      ensures Outcome(State(), ret) == RemoveInterface(routes.env, old(State()), netId, interface)
    {
      hide Detach, Exec, CacheSound, NetworkRef.Object;
      if netId !in networks {
        return -ENONET;
      }
      ret := DetachInterface(netId, interface);
    }

    method SetPermissionForNetworks(permission: Permission, netIds: seq<nat>) returns (ret: int)
      requires Valid()
      modifies this, routes, Objects()
      ensures Valid() && Objects() == old(Objects())
      ensures Outcome(State(), ret) == SetNetworkPermissions(routes.env, old(State()), permission, netIds)
    {
      hide SetPermission, Exec, CacheSound, NetworkRef.Object;
      ghost var w := State();
      ghost var env := routes.env;
      assert netIds[0..] == netIds;
      for i := 0 to |netIds|
        invariant Valid() && networks == old(networks)
        invariant SetNetworkPermissions(env, w, permission, netIds) ==
                    SetNetworkPermissions(env, State(), permission, netIds[i..])
      {
        assert netIds[i..][0] == netIds[i] && netIds[i..][1..] == netIds[i + 1..];
        var netId := netIds[i];
        if netId !in networks {
          return -ENONET;
        }
        if !networks[netId].PhysicalRef? {
          return -EINVAL;
        }
        ret := SetPermissionOf(netId, permission);
        if ret != 0 {
          return;
        }
      }
      return 0;
    }

    method AddUsersToNetwork(netId: nat, ranges: seq<Range>) returns (ret: int)
      requires Valid()
      modifies this, routes, Objects()
      ensures Valid() && Objects() == old(Objects())
      ensures Outcome(State(), ret) == ChangeUsersOf(routes.env, old(State()), netId, ranges, true)
    {
      hide ChangeUsers, Exec, CacheSound, NetworkRef.Object;
      if netId !in networks {
        return -ENONET;
      }
      if !networks[netId].VirtualRef? {
        return -EINVAL;
      }
      ret := ChangeUsersIn(netId, ranges, true);
    }

    method RemoveUsersFromNetwork(netId: nat, ranges: seq<Range>) returns (ret: int)
      requires Valid()
      modifies this, routes, Objects()
      ensures Valid() && Objects() == old(Objects())
      ensures Outcome(State(), ret) == ChangeUsersOf(routes.env, old(State()), netId, ranges, false)
    {
      hide ChangeUsers, Exec, CacheSound, NetworkRef.Object;
      if netId !in networks {
        return -ENONET;
      }
      if !networks[netId].VirtualRef? {
        return -EINVAL;
      }
      ret := ChangeUsersIn(netId, ranges, false);
    }

    method SetPermissionForUsers(permission: Permission, uids: seq<nat>)
      requires Valid()
      modifies this
      ensures Valid() && Objects() == old(Objects())
      ensures Outcome(State(), 0) == Step(routes.env, old(State()), Command.SetPermissionForUsers(permission, uids))
    {
      hide Exec, CacheSound, NetworkRef.Object;
      ghost var w := State();
      assert uids[0..] == uids;
      for i := 0 to |uids|
        invariant networks == old(networks) && State() == w.(ctl := w.ctl.(users := users))
        invariant WithPermission(w.ctl.users, permission, uids) == WithPermission(users, permission, uids[i..])
      {
        assert uids[i..][0] == uids[i] && uids[i..][1..] == uids[i + 1..];
        users := users[uids[i] := permission];
      }
    }

    method AllowProtect(uids: seq<nat>)
      requires Valid()
      modifies this
      ensures Valid() && Objects() == old(Objects())
      ensures Outcome(State(), 0) == Step(routes.env, old(State()), Command.AllowProtect(uids))
    {
      hide Exec, CacheSound, NetworkRef.Object;
      ghost var w := State();
      protectableUsers := protectableUsers + set u | u in uids;
      assert State() == w.(ctl := w.ctl.(protectable := protectableUsers));
    }

    method DenyProtect(uids: seq<nat>)
      requires Valid()
      modifies this
      ensures Valid() && Objects() == old(Objects())
      ensures Outcome(State(), 0) == Step(routes.env, old(State()), Command.DenyProtect(uids))
    {
      hide Exec, CacheSound, NetworkRef.Object;
      ghost var w := State();
      for i := 0 to |uids|
        invariant networks == old(networks) && State() == w.(ctl := w.ctl.(protectable := protectableUsers))
        invariant protectableUsers == w.ctl.protectable - set u | u in uids[..i]
      {
        protectableUsers := protectableUsers - {uids[i]};
      }
      assert uids[..|uids|] == uids;
    }

    // ----- Queries -----

    /** getVirtualNetworkForUserLocked() */
    method GetVirtualNetworkForUser(uid: nat) returns (vpn: Option<nat>)
      ensures vpn == VpnForUser(State().ctl, uid)
    {
      hide HasUid, VpnsBelow, Vpns;
      var vpns := CollectVpns();
      VpnsAreVirtual(Values(), NET_ID_BOUND);
      VpnsAre(State().ctl);
      assert vpns[0..] == vpns;
      for i := 0 to |vpns|
        invariant FirstApplicable(Values(), vpns, uid) == FirstApplicable(Values(), vpns[i..], uid)
      {
        assert vpns[i] in vpns;
        assert vpns[i..][0] == vpns[i] && vpns[i..][1..] == vpns[i + 1..];
        if HasUid(networks[vpns[i]].virtual.uidRanges, uid) {
          return Some(vpns[i]);
        }
      }
      return None;
    }

    method GetPermissionForUser(uid: nat, firstAppUid: nat) returns (permission: Permission)
      ensures permission == PermissionForUser(State().ctl, uid, firstAppUid)
    {
      if uid in users {
        return users[uid];
      }
      return if uid < firstAppUid then PERMISSION_SYSTEM else PERMISSION_NONE;
    }

    method CanProtectFromVpn(uid: nat, firstAppUid: nat) returns (ok: bool)
      ensures ok == CanProtect(State().ctl, uid, firstAppUid)
    {
      var permission := GetPermissionForUser(uid, firstAppUid);
      ok := permission.Includes(PERMISSION_SYSTEM) || uid in protectableUsers;
    }

    method IsVirtualNetwork(netId: nat) returns (ok: bool)
      ensures ok == IsVirtual(State().ctl, netId)
    {
      ok := netId in networks && networks[netId].VirtualRef?;
    }

    method GetNetworkForUser(uid: nat) returns (netId: nat)
      ensures netId == NetworkForUser(State().ctl, uid)
    {
      hide FirstApplicable, Vpns;
      var vpn := GetVirtualNetworkForUser(uid);
      if vpn.Some? {
        return vpn.value;
      }
      return defaultNetId;
    }

    method GetNetworkForConnect(uid: nat) returns (netId: nat)
      ensures netId == NetworkForConnect(State().ctl, uid)
    {
      hide FirstApplicable, Vpns, HasUid;
      var vpn := GetVirtualNetworkForUser(uid);
      if vpn.Some? && !networks[vpn.value].virtual.secure {
        return vpn.value;
      }
      return defaultNetId;
    }

    method CheckUserNetworkAccess(uid: nat, netId: nat, firstAppUid: nat, stray: Permission) returns (ret: int)
      ensures ret == CheckAccess(State().ctl, uid, netId, firstAppUid, stray)
    {
      hide VpnForUser, HasUid;
      if netId !in networks {
        return -ENONET;
      }
      var network := networks[netId];
      if uid == INVALID_UID {
        return -EREMOTEIO;
      }
      var userPermission := GetPermissionForUser(uid, firstAppUid);
      if userPermission.Includes(PERMISSION_SYSTEM) {
        return 0;
      }
      if network.VirtualRef? {
        return if HasUid(network.virtual.uidRanges, uid) then 0 else -EPERM;
      }
      var vpn := GetVirtualNetworkForUser(uid);
      if vpn.Some? && networks[vpn.value].virtual.secure && uid !in protectableUsers {
        return -EPERM;
      }
      var networkPermission := if network.PhysicalRef? then network.physical.permission else stray;
      return if userPermission.Includes(networkPermission) then 0 else -EACCES;
    }

    method GetNetworkForDns(netId: nat, uid: nat, firstAppUid: nat, stray: Permission)
      returns (chosen: nat, fwmark: Mark)
      ensures (chosen, fwmark) == NetworkForDns(State().ctl, netId, uid, firstAppUid, stray)
    {
      hide VpnForUser, HasUid, CheckAccess;
      fwmark := Fwmark(0, false, true, PERMISSION_SYSTEM);
      chosen := netId;
      ghost var ctl := State().ctl;
      var ret := CheckUserNetworkAccess(uid, netId, firstAppUid, stray);
      assert State().ctl == ctl;
      if ret == 0 {
        fwmark := fwmark.(explicitlySelected := true);
      } else {
        var vpn := GetVirtualNetworkForUser(uid);
        assert State().ctl == ctl;
        if vpn.Some? && networks[vpn.value].virtual.hasDns {
          chosen := vpn.value;
        } else {
          chosen := defaultNetId;
        }
      }
      fwmark := fwmark.(netId := NetIdBits(chosen));
    }
  }

  lemma VpnsAre(ctl: Controller)
    ensures Vpns(ctl) == VpnsBelow(ctl.networks, NET_ID_BOUND)
  {
    hide VpnsBelow;
  }

  lemma DistinctObjects(a: NetworkRef, b: NetworkRef)
    requires a.NetId() != b.NetId()
    ensures a.Object() != b.Object()
  {
  }

  /** setPermission() has nothing to do, and so cannot fail, on a network without interfaces. */
  method MakePhysical(netId: nat, routes: RouteController, vpns: seq<nat>,
                      permission: Permission) returns (n: PhysicalNetwork)
    requires routes.Valid()
    modifies routes
    ensures routes.Valid() && routes.State() == old(routes.State())
    ensures fresh(n) && n.netId == netId && n.Value() == Physical([], permission, false)
  {
    hide Exec, CacheSound, Commit, SetPermissionRequests;
    n := new PhysicalNetwork(netId);
    EmptyNetworkNeedsNothing(routes.env, routes.State(), vpns, netId, permission);
    var ret := n.SetPermission(routes, vpns, permission);
  }

  method SetDefaultFlag(n: PhysicalNetwork, routes: RouteController, vpns: seq<nat>, add: bool) returns (ret: int)
    requires routes.Valid()
    modifies n, routes
    ensures routes.Valid()
    ensures old(n.isDefault) == add ==> ret == 0 && n.Value() == old(n.Value()) && routes.State() == old(routes.State())
    ensures old(n.isDefault) != add ==>
              Result(routes.State(), n.Value(), ret) ==
              Commit(routes.env, old(routes.State()),
                     EachInterface(routes.env, DefaultPart(vpns, old(n.permission)), old(n.interfaces), add),
                     old(n.Value()), old(n.Value()).(isDefault := add))
  {
    hide Exec, CacheSound, Commit, EachInterface;
    if add {
      ret := n.AddAsDefault(routes, vpns);
    } else {
      ret := n.RemoveAsDefault(routes, vpns);
    }
  }

  method AddInterfaceTo(n: NetworkRef, routes: RouteController, interface: string, vpns: seq<nat>) returns (ret: int)
    requires routes.Valid()
    modifies n.Object(), routes
    ensures routes.Valid()
    ensures interface in old(n.Value()).interfaces ==>
              ret == 0 && n.Value() == old(n.Value()) && routes.State() == old(routes.State())
    ensures interface !in old(n.Value()).interfaces ==>
              Result(routes.State(), n.Value(), ret) ==
              Commit(routes.env, old(routes.State()),
                     AttachRequests(routes.env, vpns, n.NetId(), old(n.Value()), interface),
                     old(n.Value()), WithInterfaces(old(n.Value()), InsertName(old(n.Value()).interfaces, interface)))
  {
    hide Exec, AttachRequests, InsertName, CacheSound, Commit;
    match n {
      case LocalRef(local) => ret := local.AddInterface(routes, interface, vpns);
      case PhysicalRef(physical) => ret := physical.AddInterface(routes, interface, vpns);
      case VirtualRef(virtual) => ret := virtual.AddInterface(routes, interface, vpns);
    }
  }

  method RemoveInterfaceFrom(n: NetworkRef, routes: RouteController, interface: string,
                             vpns: seq<nat>) returns (ret: int)
    requires routes.Valid()
    modifies n.Object(), routes
    ensures routes.Valid()
    ensures interface !in old(n.Value()).interfaces ==>
              ret == 0 && n.Value() == old(n.Value()) && routes.State() == old(routes.State())
    ensures interface in old(n.Value()).interfaces ==>
              Result(routes.State(), n.Value(), ret) ==
              Commit(routes.env, old(routes.State()),
                     DetachRequests(routes.env, vpns, n.NetId(), old(n.Value()), interface),
                     old(n.Value()), WithInterfaces(old(n.Value()), EraseName(old(n.Value()).interfaces, interface)))
  {
    hide Exec, DetachRequests, EraseName, CacheSound, Commit;
    match n {
      case LocalRef(local) => ret := local.RemoveInterface(routes, interface, vpns);
      case PhysicalRef(physical) => ret := physical.RemoveInterface(routes, interface, vpns);
      case VirtualRef(virtual) => ret := virtual.RemoveInterface(routes, interface, vpns);
    }
  }

  // ----- What the objects did is what the specification says -----

  lemma EmptyNetworkNeedsNothing(env: Env, k: Kernel, vpns: seq<nat>, netId: nat, permission: Permission)
    ensures var n := Physical([], PERMISSION_NONE, false);
            Commit(env, k, SetPermissionRequests(env, vpns, netId, n, permission), n, n.(permission := permission))
            == Result(k, n.(permission := permission), 0)
  {
  }

  lemma FallthroughIs(env: Env, k: Kernel, vpn: nat, permission: Permission, interface: string, add: bool)
    ensures Exec(env, k, PartRequests(env, FallthroughPart(vpn, permission), interface, add))
         == LookedUp(env, k, interface, add, IpRule(VpnFallthroughRule(vpn, TableOf(env, interface), permission)))
  {
    var item := IpRule(VpnFallthroughRule(vpn, TableOf(env, interface), permission));
    hide VpnFallthroughRule, Exec;
    LookupStep(env, k, interface, item, [], add);
    assert [item] + [] == PartItems(env, FallthroughPart(vpn, permission), interface);
    NoLookups(env, LookedUp(env, k, interface, add, item).kernel, interface, add);
  }

  ghost function Replaced(w: World, netId: nat, k: Kernel, n: Network): World {
    w.(kernel := k, ctl := Updated(w.ctl, netId, n))
  }

  lemma SameNetwork(w: World, netId: nat)
    requires netId in w.ctl.networks
    ensures Replaced(w, netId, w.kernel, w.ctl.networks[netId]) == w
  {
    assert w.ctl.networks[netId := w.ctl.networks[netId]] == w.ctl.networks;
  }

  lemma PerformIsCommit(env: Env, w: World, netId: nat, requests: seq<Request>, after: Network)
    requires netId in w.ctl.networks
    ensures var r := Commit(env, w.kernel, requests, w.ctl.networks[netId], after);
            Perform(env, w, requests, Updated(w.ctl, netId, after)) ==
              Outcome(Replaced(w, netId, r.kernel, r.network), r.ret)
  {
    assert w.ctl.networks[netId := w.ctl.networks[netId]] == w.ctl.networks;
  }

  lemma AttachIs(env: Env, w: World, netId: nat, interface: string, k: Kernel, v: Network, ret: int)
    requires netId in w.ctl.networks
    requires var n := w.ctl.networks[netId];
             if interface in n.interfaces then ret == 0 && v == n && k == w.kernel
             else Result(k, v, ret) == Commit(env, w.kernel, AttachRequests(env, Vpns(w.ctl), netId, n, interface), n,
                                              WithInterfaces(n, InsertName(n.interfaces, interface)))
    ensures Outcome(Replaced(w, netId, k, v), ret) == Attach(env, w, netId, interface)
  {
    hide Exec, AttachRequests, InsertName, Vpns, Perform, Commit;
    var n := w.ctl.networks[netId];
    SameNetwork(w, netId);
    PerformIsCommit(env, w, netId, AttachRequests(env, Vpns(w.ctl), netId, n, interface),
                    WithInterfaces(n, InsertName(n.interfaces, interface)));
  }

  lemma DetachIs(env: Env, w: World, netId: nat, interface: string, k: Kernel, v: Network, ret: int)
    requires netId in w.ctl.networks
    requires var n := w.ctl.networks[netId];
             if interface !in n.interfaces then ret == 0 && v == n && k == w.kernel
             else Result(k, v, ret) == Commit(env, w.kernel, DetachRequests(env, Vpns(w.ctl), netId, n, interface), n,
                                              WithInterfaces(n, EraseName(n.interfaces, interface)))
    ensures Outcome(Replaced(w, netId, k, v), ret) == Detach(env, w, netId, interface)
  {
    hide Exec, DetachRequests, EraseName, Vpns, Perform, Commit;
    var n := w.ctl.networks[netId];
    SameNetwork(w, netId);
    PerformIsCommit(env, w, netId, DetachRequests(env, Vpns(w.ctl), netId, n, interface),
                    WithInterfaces(n, EraseName(n.interfaces, interface)));
  }

  lemma DetachShrinks(env: Env, w: World, netId: nat)
    requires netId in w.ctl.networks && w.ctl.networks[netId].interfaces != []
    ensures var n := w.ctl.networks[netId];
            var o := Detach(env, w, netId, n.interfaces[0]);
            && netId in o.world.ctl.networks
            && (o.ret == 0 ==> |o.world.ctl.networks[netId].interfaces| < |n.interfaces|)
            && ClearInterfaces(env, w, netId) == if o.ret != 0 then o else ClearInterfaces(env, o.world, netId)
  {
    hide Exec, DetachRequests, Vpns;
  }

  lemma DefaultIs(env: Env, w: World, netId: nat, add: bool, k: Kernel, v: Network, ret: int)
    requires netId in w.ctl.networks && w.ctl.networks[netId].Physical?
    requires var n := w.ctl.networks[netId];
             if n.isDefault == add then ret == 0 && v == n && k == w.kernel
             else
               Result(k, v, ret) ==
               Commit(env, w.kernel, EachInterface(env, DefaultPart(Vpns(w.ctl), n.permission), n.interfaces, add),
                      n, n.(isDefault := add))
    ensures Outcome(Replaced(w, netId, k, v), ret) ==
            if add then AddAsDefault(env, w, netId) else RemoveAsDefault(env, w, netId)
  {
    hide Exec, EachInterface, Vpns, Perform, Commit;
    var n := w.ctl.networks[netId];
    SameNetwork(w, netId);
    PerformIsCommit(env, w, netId, EachInterface(env, DefaultPart(Vpns(w.ctl), n.permission), n.interfaces, add),
                    n.(isDefault := add));
  }

  lemma PermissionIs(env: Env, w: World, netId: nat, permission: Permission, k: Kernel, v: Network, ret: int)
    requires netId in w.ctl.networks && w.ctl.networks[netId].Physical?
    requires var n := w.ctl.networks[netId];
             if permission == n.permission then ret == 0 && v == n && k == w.kernel
             else
               Result(k, v, ret) ==
               Commit(env, w.kernel, SetPermissionRequests(env, Vpns(w.ctl), netId, n, permission),
                      n, n.(permission := permission))
    ensures Outcome(Replaced(w, netId, k, v), ret) == SetPermission(env, w, netId, permission)
  {
    hide Exec, SetPermissionRequests, Vpns, Perform, Commit;
    var n := w.ctl.networks[netId];
    SameNetwork(w, netId);
    PerformIsCommit(env, w, netId, SetPermissionRequests(env, Vpns(w.ctl), netId, n, permission),
                    n.(permission := permission));
  }

  lemma UsersIs(env: Env, w: World, netId: nat, ranges: seq<Range>, add: bool, k: Kernel, v: Network, ret: int)
    requires netId in w.ctl.networks && w.ctl.networks[netId].Virtual?
    requires var n := w.ctl.networks[netId];
             Result(k, v, ret) ==
               Commit(env, w.kernel, EachInterface(env, UsersPart(netId, ranges, n.secure), n.interfaces, add),
                                         n, n.(ranges := if add then Merge(n.ranges, ranges)
                                               else Difference(n.ranges, ranges)))
    ensures Outcome(Replaced(w, netId, k, v), ret) == ChangeUsers(env, w, netId, ranges, add)
  {
    hide Exec, EachInterface, Perform, Commit, Merge, Difference;
    var n := w.ctl.networks[netId];
    PerformIsCommit(env, w, netId, EachInterface(env, UsersPart(netId, ranges, n.secure), n.interfaces, add),
                    n.(ranges := if add then Merge(n.ranges, ranges) else Difference(n.ranges, ranges)));
  }
}
