/** What each command achieves when it returns 0, and what it leaves alone: in terms of who has which interface,
    permission, range or right afterwards. */
module Effects {
  import opened Wrappers
  import opened Fwmarks
  import opened Kernels
  import opened Uids
  import opened Rules
  import opened Controllers
  import opened Safety
  import opened Sync
  import opened SyncRuns
  import opened Routing
  import opened Guarantees
  import opened Lookups

  ghost predicate OthersSame(a: Controller, b: Controller, netId: nat) {
    forall id :: id != netId ==>
      (id in a.networks <==> id in b.networks) && (id in a.networks ==> a.networks[id] == b.networks[id])
  }

  predicate UsersSame(a: Controller, b: Controller) {
    a.users == b.users && a.protectable == b.protectable
  }

  /** Only network `netId`, which is there before and after, may differ. */
  ghost predicate OnlyNetwork(a: Controller, b: Controller, netId: nat) {
    OthersSame(a, b, netId) && UsersSame(a, b) && a.defaultNetId == b.defaultNetId && netId in a.networks
    && netId in b.networks
  }

  /** The networks listed are physical and have the permission now, the others are as before. */
  ghost predicate NetworksSet(a: Controller, b: Controller, permission: Permission, netIds: seq<nat>) {
    && b == a.(networks := b.networks) && b.networks.Keys == a.networks.Keys
    && (forall id :: id in netIds ==> id in a.networks && a.networks[id].Physical?)
    && forall id :: id in a.networks ==>
         b.networks[id] == if id in netIds && a.networks[id].Physical? then a.networks[id].(permission := permission)
                           else a.networks[id]
  }

  /** Everything but the networks, users, permissions and tethering rules named by the command is as before; these are
      as it says. */
  ghost predicate Achieves(env: Env, w: World, c: Command, w': World) {
    var a, b := w.ctl, w'.ctl;
    (c.EnableTethering? || c.DisableTethering? || w'.tethers == w.tethers) &&
    match c
    case SetDefaultNetwork(netId) =>
      && b.defaultNetId == netId && SameButDefaults(a, b) && UsersSame(a, b)
      && (netId != NETID_UNSET ==> netId in b.networks && b.networks[netId].Physical?)
    case CreatePhysicalNetwork(netId, permission) =>
      && netId !in a.networks && netId in b.networks && OthersSame(a, b, netId) && UsersSame(a, b)
      && a.defaultNetId == b.defaultNetId && b.networks[netId] == Physical([], permission, false)
    case CreateVirtualNetwork(netId, hasDns, secure) =>
      && netId !in a.networks && netId in b.networks && OthersSame(a, b, netId) && UsersSame(a, b)
      && a.defaultNetId == b.defaultNetId && b.networks[netId] == Virtual([], hasDns, secure, [])
    case DestroyNetwork(netId) =>
      && netId in a.networks && netId !in b.networks && OthersSame(a, b, netId) && UsersSame(a, b)
      && b.defaultNetId == if a.defaultNetId == netId then NETID_UNSET else a.defaultNetId
    case AddInterfaceToNetwork(netId, interface) =>
      && OnlyNetwork(a, b, netId) && b.networks[netId] == a.networks[netId].(interfaces := b.networks[netId].interfaces)
      && forall i :: i in b.networks[netId].interfaces <==> i in a.networks[netId].interfaces || i == interface
    case RemoveInterfaceFromNetwork(netId, interface) =>
      && OnlyNetwork(a, b, netId) && b.networks[netId] == a.networks[netId].(interfaces := b.networks[netId].interfaces)
      && forall i :: i in b.networks[netId].interfaces <==> i in a.networks[netId].interfaces && i != interface
    case SetPermissionForUsers(permission, uids) =>
      && b == a.(users := b.users)
      && forall u: nat :: (u in b.users <==> u in a.users || u in uids)
                     && (u in b.users ==> b.users[u] == if u in uids then permission else a.users[u])
    case SetPermissionForNetworks(permission, netIds) =>
      NetworksSet(a, b, permission, netIds)
    case AddUsersToNetwork(netId, ranges) =>
      && OnlyNetwork(a, b, netId) && a.networks[netId].Virtual? && b.networks[netId].Virtual?
      && b.networks[netId] == a.networks[netId].(ranges := b.networks[netId].ranges)
      && multiset(b.networks[netId].ranges) == multiset(a.networks[netId].ranges) + multiset(ranges)
    case RemoveUsersFromNetwork(netId, ranges) =>
      && OnlyNetwork(a, b, netId) && a.networks[netId].Virtual? && b.networks[netId].Virtual?
      && b.networks[netId] == a.networks[netId].(ranges := b.networks[netId].ranges)
      && multiset(b.networks[netId].ranges) == multiset(a.networks[netId].ranges) - multiset(ranges)
      && (a.networks[netId].interfaces != [] ==> multiset(ranges) <= multiset(a.networks[netId].ranges))
    case AllowProtect(uids) =>
      && b == a.(protectable := b.protectable) && forall u: nat :: u in b.protectable <==>
           u in a.protectable || u in uids
    case DenyProtect(uids) =>
      && b == a.(protectable := b.protectable) && forall u: nat :: u in b.protectable <==>
           u in a.protectable && u !in uids
    case EnableTethering(input, output) =>
      b == a && w'.tethers == w.tethers + multiset{Tethered(env, input, output)}
    case DisableTethering(input, output) =>
      && b == a && Tethered(env, input, output) in w.tethers
      && w'.tethers == w.tethers - multiset{Tethered(env, input, output)}
  }

  /** Whatever comes in by `input` goes to the table of `output`. */
  function Tethered(env: Env, input: string, output: string): Item {
    IpRule(Rule(18000, TableOf(env, output), NO_MARK, NO_MARK, Some(input), None, INVALID_UID, INVALID_UID))
  }

  // ----- Command by command -----

  lemma DefaultAchieves(env: Env, w: World, netId: nat)
    requires Consistent(env, w) && SetDefault(env, w, netId).ret == 0
    ensures Achieves(env, w, SetDefaultNetwork(netId), SetDefault(env, w, netId).world)
  {
    hide InSync, TablesCached, InterfacesDisjoint, InterfacesDistinct, RangesWellformed, SameButDefaults, Exec,
         EachInterface, VpnsBelow;
    SetDefaultOnly(env, w, netId);
    SameAsBefore(w.ctl);
    UsersKept(env, w, netId);
  }

  lemma UsersKept(env: Env, w: World, netId: nat)
    requires SetDefault(env, w, netId).ret == 0
    ensures var w' := SetDefault(env, w, netId).world;
            UsersSame(w.ctl, w'.ctl) && w'.ctl.defaultNetId == netId
            && (netId != NETID_UNSET && w.ctl.defaultNetId != netId ==>
                  && netId in w.ctl.networks && w.ctl.networks[netId].Physical?
                  && netId in w'.ctl.networks && w'.ctl.networks[netId].Physical?)
  {
    hide Exec, EachInterface, VpnsBelow;
  }

  lemma CreateAchieves(env: Env, w: World, c: Command)
    requires (c.CreatePhysicalNetwork? || c.CreateVirtualNetwork?) && Step(env, w, c).ret == 0
    ensures Achieves(env, w, c, Step(env, w, c).world)
  {
    hide Exec, FallthroughRequests;
  }

  lemma AttachIs(env: Env, w: World, netId: nat, interface: string)
    requires netId in w.ctl.networks && Attach(env, w, netId, interface).ret == 0
    ensures var n, w' := w.ctl.networks[netId], Attach(env, w, netId, interface).world;
            && w'.tethers == w.tethers
            && w'.ctl == if interface in n.interfaces then w.ctl
                         else Updated(w.ctl, netId, n.(interfaces := InsertName(n.interfaces, interface)))
  {
    hide Exec, AttachRequests, VpnsBelow, InsertName;
  }

  lemma DetachIs(env: Env, w: World, netId: nat, interface: string)
    requires netId in w.ctl.networks && Detach(env, w, netId, interface).ret == 0
    ensures var n, w' := w.ctl.networks[netId], Detach(env, w, netId, interface).world;
            && w'.tethers == w.tethers
            && w'.ctl == if interface !in n.interfaces then w.ctl
                         else Updated(w.ctl, netId, n.(interfaces := EraseName(n.interfaces, interface)))
  {
    hide Exec, DetachRequests, VpnsBelow, EraseName;
  }

  lemma UpdatedOnly(a: Controller, netId: nat, n: Network)
    requires netId in a.networks
    ensures OnlyNetwork(a, Updated(a, netId, n), netId) && Updated(a, netId, n).networks[netId] == n
    ensures OnlyNetwork(a, a, netId)
  {
  }

  lemma OnlyTwice(a: Controller, b: Controller, c: Controller, netId: nat)
    requires OnlyNetwork(a, b, netId) && OnlyNetwork(b, c, netId)
    ensures OnlyNetwork(a, c, netId)
  {
  }

  lemma DetachFails(env: Env, w: World, netId: nat, interface: string)
    requires netId in w.ctl.networks && Detach(env, w, netId, interface).ret != 0
    ensures Detach(env, w, netId, interface).world.ctl == w.ctl
            && Detach(env, w, netId, interface).world.tethers == w.tethers
  {
    hide Exec, DetachRequests, VpnsBelow, EraseName;
  }

  lemma {:induction false} ClearKeepsOthers(env: Env, w: World, netId: nat)
    requires netId in w.ctl.networks
    ensures var o := ClearInterfaces(env, w, netId);
            && OnlyNetwork(w.ctl, o.world.ctl, netId) && o.world.tethers == w.tethers
            && o.world.ctl.networks[netId].Physical? == w.ctl.networks[netId].Physical?
    decreases |w.ctl.networks[netId].interfaces|
  {
    hide Detach, OnlyNetwork;
    var n := w.ctl.networks[netId];
    UpdatedOnly(w.ctl, netId, n);
    if n.interfaces != [] {
      var o := Detach(env, w, netId, n.interfaces[0]);
      if o.ret == 0 {
        DetachIs(env, w, netId, n.interfaces[0]);
        UpdatedOnly(w.ctl, netId, n.(interfaces := EraseName(n.interfaces, n.interfaces[0])));
        ClearKeepsOthers(env, o.world, netId);
        OnlyTwice(w.ctl, o.world.ctl, ClearInterfaces(env, w, netId).world.ctl, netId);
      } else {
        DetachFails(env, w, netId, n.interfaces[0]);
      }
    }
    assert OnlyNetwork(w.ctl, ClearInterfaces(env, w, netId).world.ctl, netId);
    ThereAfter(w.ctl, ClearInterfaces(env, w, netId).world.ctl, netId);
  }

  lemma ThereAfter(a: Controller, b: Controller, netId: nat)
    requires OnlyNetwork(a, b, netId)
    ensures netId in b.networks
  {
  }

  lemma DestroyAchieves(env: Env, w: World, netId: nat)
    requires DefaultIsPhysical(w.ctl) && Destroy(env, w, netId).ret == 0
    ensures Achieves(env, w, DestroyNetwork(netId), Destroy(env, w, netId).world)
  {
    hide Exec, FallthroughRequests, ClearInterfaces, EachInterface, VpnsBelow;
    ClearKeepsOthers(env, w, netId);
  }

  lemma AddAchieves(env: Env, w: World, netId: nat, interface: string)
    requires InterfacesDistinct(w.ctl) && AddInterface(env, w, netId, interface).ret == 0
    ensures Achieves(env, w, AddInterfaceToNetwork(netId, interface), AddInterface(env, w, netId, interface).world)
  {
    hide Attach, NetworkForInterface, InsertName;
    var n := w.ctl.networks[netId];
    AttachIs(env, w, netId, interface);
    if interface !in n.interfaces {
      InsertNameAdds(n.interfaces, interface);
    }
  }

  lemma RemoveAchieves(env: Env, w: World, netId: nat, interface: string)
    requires InterfacesDistinct(w.ctl) && RemoveInterface(env, w, netId, interface).ret == 0
    ensures Achieves(env, w, RemoveInterfaceFromNetwork(netId, interface),
                     RemoveInterface(env, w, netId, interface).world)
  {
    hide Detach, EraseName;
    DetachIs(env, w, netId, interface);
    EraseNameRemoves(w.ctl.networks[netId].interfaces, interface);
  }

  lemma {:induction false} UsersGet(users: map<nat, Permission>, permission: Permission, uids: seq<nat>)
    ensures var users' := WithPermission(users, permission, uids);
            forall u: nat :: (u in users' <==> u in users || u in uids)
                        && (u in users' ==> users'[u] == if u in uids then permission else users[u])
    decreases |uids|
  {
    if uids != [] {
      var next := users[uids[0] := permission];
      UsersGet(next, permission, uids[1..]);
      assert WithPermission(users, permission, uids) == WithPermission(next, permission, uids[1..]);
      forall u: nat
        ensures u in uids <==> u == uids[0] || u in uids[1..]
      {
        assert uids == [uids[0]] + uids[1..];
      }
    }
  }

  lemma OnePermission(env: Env, w: World, netId: nat, permission: Permission)
    requires netId in w.ctl.networks && w.ctl.networks[netId].Physical?
             && SetPermission(env, w, netId, permission).ret == 0
    ensures var w' := SetPermission(env, w, netId, permission).world;
            && w'.tethers == w.tethers
            && w'.ctl == Updated(w.ctl, netId, w.ctl.networks[netId].(permission := permission))
  {
    hide Exec, SetPermissionRequests;
  }

  lemma OneMoreSet(a: Controller, mid: Controller, b: Controller, permission: Permission, netIds: seq<nat>)
    requires netIds != [] && netIds[0] in a.networks && a.networks[netIds[0]].Physical?
    requires mid == Updated(a, netIds[0], a.networks[netIds[0]].(permission := permission))
    requires NetworksSet(mid, b, permission, netIds[1..])
    ensures NetworksSet(a, b, permission, netIds)
  {
    forall id: nat
      ensures id in netIds <==> id == netIds[0] || id in netIds[1..]
    {
      assert netIds == [netIds[0]] + netIds[1..];
    }
  }

  lemma {:induction false} NetworksGet(env: Env, w: World, permission: Permission, netIds: seq<nat>)
    requires SetNetworkPermissions(env, w, permission, netIds).ret == 0
    ensures var w' := SetNetworkPermissions(env, w, permission, netIds).world;
            w'.tethers == w.tethers && NetworksSet(w.ctl, w'.ctl, permission, netIds)
    decreases |netIds|
  {
    hide SetPermission, NetworksSet;
    if netIds != [] {
      OnePermission(env, w, netIds[0], permission);
      var mid := SetPermission(env, w, netIds[0], permission).world;
      NetworksGet(env, mid, permission, netIds[1..]);
      OneMoreSet(w.ctl, mid.ctl, SetNetworkPermissions(env, w, permission, netIds).world.ctl, permission, netIds);
    } else {
      NothingSet(w.ctl, permission);
    }
  }

  lemma NothingSet(a: Controller, permission: Permission)
    ensures NetworksSet(a, a, permission, [])
  {
  }

  lemma UserRangesAchieve(env: Env, w: World, c: Command)
    requires Consistent(env, w) && ValidCommand(c) && (c.AddUsersToNetwork? || c.RemoveUsersFromNetwork?)
    requires Step(env, w, c).ret == 0
    ensures Achieves(env, w, c, Step(env, w, c).world)
  {
    hide Exec, EachInterface, InSync, TablesCached, FlagsMatch, NetIdsFit, InterfacesDisjoint, InterfacesDistinct,
         DefaultIsPhysical, Merge, Difference;
    var n := w.ctl.networks[c.netId];
    MergeIsUnion(n.ranges, c.ranges);
    DifferenceIsMultisetDifference(n.ranges, c.ranges);
    if c.RemoveUsersFromNetwork? && n.interfaces != [] {
      RemovedRangesWereThere(env, w, c.netId, c.ranges);
    }
  }

  lemma TetherIs(env: Env, w: World, input: string, output: string, add: bool)
    requires Tether(env, w, input, output, add).ret == 0
    ensures var w', x := Tether(env, w, input, output, add).world, Tethered(env, input, output);
            && w'.ctl == w.ctl
            && w'.tethers == (if add then w.tethers + multiset{x} else w.tethers - multiset{x})
            && (!add ==> x in w.kernel.v4)
  {
    hide Exec;
    var x := Tethered(env, input, output);
    TetherKernel(env, w.kernel, output, x, add);
  }

  lemma TetherAchieves(env: Env, w: World, input: string, output: string, add: bool)
    requires Consistent(env, w) && Tether(env, w, input, output, add).ret == 0
    ensures Achieves(env, w, if add then EnableTethering(input, output) else DisableTethering(input, output),
                     Tether(env, w, input, output, add).world)
  {
    hide Consistent, Tether;
    TetherIs(env, w, input, output, add);
    if !add {
      TetherWasThere(env, w, Tethered(env, input, output));
    }
  }

  lemma TetherWasThere(env: Env, w: World, x: Item)
    requires Consistent(env, w) && x in w.kernel.v4 && x.IpRule? && x.rule.priority == PRIORITY_TETHERING
    ensures x in w.tethers
  {
    hide ControllerItems, InitItems, TablesCached, FlagsMatch, AreTethering, InterfacesDisjoint, InterfacesDistinct,
         RangesWellformed,
         NetIdsFit, DefaultIsPhysical;
    NotInInit(x);
    NoNetworkTethers(env, w.ctl, x);
  }

  /** Every command that returns 0 from a consistent state does what it says, and nothing else. */
  lemma CommandsAchieve(env: Env, w: World, c: Command)
    requires Consistent(env, w) && ValidCommand(c) && Step(env, w, c).ret == 0
    ensures Achieves(env, w, c, Step(env, w, c).world)
  {
    hide Exec, SetDefault, Destroy, AddInterface, RemoveInterface, SetNetworkPermissions, ChangeUsersOf, Tether, InSync,
         TablesCached, FlagsMatch, InterfacesDisjoint, InterfacesDistinct, RangesWellformed, NetIdsFit, WithPermission,
         CreatePhysical, CreateVirtual, NetworksSet;
    match c {
      case SetDefaultNetwork(netId) => DefaultAchieves(env, w, netId);
      case CreatePhysicalNetwork(_, _) => CreateAchieves(env, w, c);
      case CreateVirtualNetwork(_, _, _) => CreateAchieves(env, w, c);
      case DestroyNetwork(netId) => DestroyAchieves(env, w, netId);
      case AddInterfaceToNetwork(netId, interface) => AddAchieves(env, w, netId, interface);
      case RemoveInterfaceFromNetwork(netId, interface) => RemoveAchieves(env, w, netId, interface);
      case SetPermissionForUsers(permission, uids) => UsersGet(w.ctl.users, permission, uids);
      case SetPermissionForNetworks(permission, netIds) => NetworksGet(env, w, permission, netIds);
      case AddUsersToNetwork(_, _) => UserRangesAchieve(env, w, c);
      case RemoveUsersFromNetwork(_, _) => UserRangesAchieve(env, w, c);
      case EnableTethering(input, output) => TetherAchieves(env, w, input, output, true);
      case DisableTethering(input, output) => TetherAchieves(env, w, input, output, false);
      case _ =>
    }
  }

  // ----- What a removed interface leaves behind -----

  /** Only an interface of a network has rules that lead to its table, apart from tethering. */
  lemma TablesHaveOwners(env: Env, w: World, i: string, r: Rule)
    requires Consistent(env, w) && (IpRule(r) in w.kernel.v4 || IpRule(r) in w.kernel.v6) && r.table == TableOf(env, i)
    ensures IsTetherOf(w, r) || exists id :: id in w.ctl.networks && i in w.ctl.networks[id].interfaces
  {
    hide InSync, InitItems, TablesCached, FlagsMatch, InterfacesDisjoint, InterfacesDistinct, RangesWellformed,
         OwnedRule,
         NetIdsFit;
    SameFamilies(env, w);
    KernelRules(env, w, r);
    if IpRule(r) in InitItems() {
      NoStartTable(env, i, r);
    }
    if id, j :| OwnedRule(env, w.ctl, id, j, r) {
      OwnerExists(env, w.ctl, id, j, r);
      OwnTable(env, w.ctl, id, j, r);
      assert env.index(j) == env.index(i);
    }
  }

  lemma NoStartTable(env: Env, i: string, r: Rule)
    requires IpRule(r) in InitItems()
    ensures r.table != TableOf(env, i)
  {
  }

  lemma OwnTable(env: Env, ctl: Controller, id: nat, j: string, r: Rule)
    requires OwnedRule(env, ctl, id, j, r)
    ensures r.table == TableOf(env, j) || r.table == TABLE_LOCAL_NETWORK
  {
    hide VpnsBelow;
  }

  /** After its successful removal an interface is in no network, no rule but a tethering rule leads to its table, and
      the table is forgotten. */
  lemma RemovedInterfaceIsGone(env: Env, w: World, netId: nat, interface: string, r: Rule)
    requires Consistent(env, w) && netId in w.ctl.networks && interface in w.ctl.networks[netId].interfaces
    requires RemoveInterface(env, w, netId, interface).ret == 0
    ensures var w' := RemoveInterface(env, w, netId, interface).world;
            && (forall id :: id in w'.ctl.networks ==> interface !in w'.ctl.networks[id].interfaces)
            && ((IpRule(r) in w'.kernel.v4 || IpRule(r) in w'.kernel.v6) && r.table == TableOf(env, interface) ==>
                  IsTetherOf(w', r))
            && (!w.ctl.networks[netId].Local? ==> interface !in w'.kernel.cache)
  {
    hide InSync, TablesCached, FlagsMatch, InterfacesDistinct, RangesWellformed, NetIdsFit, DefaultIsPhysical, Detach;
    var c := RemoveInterfaceFromNetwork(netId, interface);
    var w' := RemoveInterface(env, w, netId, interface).world;
    StepConsistent(env, w, c);
    CommandsAchieve(env, w, c);
    if (IpRule(r) in w'.kernel.v4 || IpRule(r) in w'.kernel.v6) && r.table == TableOf(env, interface) {
      TablesHaveOwners(env, w', interface, r);
    }
    if !w.ctl.networks[netId].Local? {
      DetachForgets(env, w, netId, interface);
    }
  }

  lemma DetachForgets(env: Env, w: World, netId: nat, interface: string)
    requires netId in w.ctl.networks && interface in w.ctl.networks[netId].interfaces
    requires Detach(env, w, netId, interface).ret == 0 && !w.ctl.networks[netId].Local?
    ensures interface !in Detach(env, w, netId, interface).world.kernel.cache
  {
    hide Exec, PartRequests, VpnsBelow;
    var n := w.ctl.networks[netId];
    var vpns := Vpns(w.ctl);
    var before := (if IsDefault(n) then PartRequests(env, ExtraPart(vpns, n), interface, false) else []) +
                  PartRequests(env, MainPart(netId, n), interface, false);
    assert DetachRequests(env, vpns, netId, n, interface) == before + [Flush(interface)];
    FlushForgets(env, w.kernel, before, interface);
  }

  lemma FlushForgets(env: Env, k: Kernel, before: seq<Request>, interface: string)
    requires Exec(env, k, before + [Flush(interface)]).ret == 0
    ensures interface !in Exec(env, k, before + [Flush(interface)]).kernel.cache
  {
    ExecConcat(env, k, before, [Flush(interface)]);
    var d := Exec(env, k, before);
    assert [Flush(interface)][1..] == [];
  }
}
