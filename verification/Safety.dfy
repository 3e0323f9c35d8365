/** What holds in every run, whatever the kernel answers. */
module Safety {
  import opened Fwmarks
  import opened Kernels
  import opened Uids
  import opened Sums
  import opened Rules
  import opened Controllers

  ghost predicate NetIdsFit(ctl: Controller) {
    && LOCAL_NET_ID in ctl.networks
    && forall id :: id in ctl.networks ==>
         && 0 < id <= MAX_NET_ID
         && (ctl.networks[id].Local? <==> id == LOCAL_NET_ID)
  }

  ghost predicate InterfacesDisjoint(ctl: Controller) {
    forall a, b, i :: a in ctl.networks && b in ctl.networks && a != b && i in ctl.networks[a].interfaces ==>
                        i !in ctl.networks[b].interfaces
  }

  ghost predicate InterfacesDistinct(ctl: Controller) {
    forall id :: id in ctl.networks ==> Distinct(ctl.networks[id].interfaces)
  }

  ghost predicate DefaultIsPhysical(ctl: Controller) {
    ctl.defaultNetId == NETID_UNSET || (ctl.defaultNetId in ctl.networks && ctl.networks[ctl.defaultNetId].Physical?)
  }

  ghost predicate RangesWellformed(ctl: Controller) {
    forall id :: id in ctl.networks && ctl.networks[id].Virtual? ==> Wellformed(ctl.networks[id].ranges)
  }

  ghost predicate SafeController(ctl: Controller) {
    NetIdsFit(ctl) && InterfacesDisjoint(ctl) && InterfacesDistinct(ctl) && DefaultIsPhysical(ctl)
    && RangesWellformed(ctl)
  }

  /** Every interface of a physical or virtual network has its table cached, so that it can be removed once it is
      gone. */
  ghost predicate TablesCached(env: Env, w: World) {
    && (forall i :: i in w.kernel.cache ==> w.kernel.cache[i] == TableOf(env, i))
    && (forall id, i :: id in w.ctl.networks && !w.ctl.networks[id].Local? && i in w.ctl.networks[id].interfaces ==>
                        i in w.kernel.cache)
  }

  ghost predicate Safe(env: Env, w: World) {
    SafeController(w.ctl) && TablesCached(env, w)
  }

  // ----- Names -----

  lemma {:induction false} InsertNameAdds(names: seq<string>, name: string)
    requires Distinct(names) && name !in names
    ensures Distinct(InsertName(names, name))
    ensures forall n :: n in InsertName(names, name) <==> n == name || n in names
  {
    if names != [] && !NameLess(name, names[0]) {
      assert names == [names[0]] + names[1..];
      InsertNameAdds(names[1..], name);
    }
  }

  lemma {:induction false} EraseNameRemoves(names: seq<string>, name: string)
    requires Distinct(names)
    ensures Distinct(EraseName(names, name))
    ensures forall n :: n in EraseName(names, name) <==> n != name && n in names
  {
    if names != [] {
      assert names == [names[0]] + names[1..];
      if names[0] != name {
        EraseNameRemoves(names[1..], name);
      }
    }
  }

  // ----- The table cache -----

  ghost predicate CacheSound(env: Env, k: Kernel) {
    forall i :: i in k.cache ==> k.cache[i] == TableOf(env, i)
  }

  predicate Flushless(requests: seq<Request>) {
    forall r :: r in requests ==> !r.Flush?
  }

  /** Without a flush no table is forgotten; a request list that succeeds has cached every table it looked up. */
  lemma {:induction false} FlushlessKeepsTables(env: Env, k: Kernel, requests: seq<Request>)
    requires CacheSound(env, k) && Flushless(requests)
    ensures var d := Exec(env, k, requests);
            && CacheSound(env, d.kernel)
            && k.cache.Keys <= d.kernel.cache.Keys
            && (d.ret == 0 ==> forall i :: Lookup(i) in requests ==> i in d.kernel.cache)
    decreases |requests|
  {
    if requests != [] {
      var d := ExecOne(env, k, requests[0]);
      assert requests[0] in requests;
      assert CacheSound(env, d.kernel) && k.cache.Keys <= d.kernel.cache.Keys;
      if d.ret == 0 {
        assert requests == [requests[0]] + requests[1..];
        FlushlessKeepsTables(env, d.kernel, requests[1..]);
      }
    }
  }

  /** A list that ends with a flush forgets that interface's table, and only if everything succeeded. */
  lemma FinalFlushForgetsOne(env: Env, k: Kernel, requests: seq<Request>, interface: string)
    requires CacheSound(env, k) && Flushless(requests)
    ensures var d := Exec(env, k, requests + [Flush(interface)]);
            && CacheSound(env, d.kernel)
            && k.cache.Keys - (if d.ret == 0 then {interface} else {}) <= d.kernel.cache.Keys
  {
    ExecConcat(env, k, requests, [Flush(interface)]);
    FlushlessKeepsTables(env, k, requests);
    var d := Exec(env, k, requests);
    if d.ret == 0 {
      var f := ExecFlush(env, d.kernel, interface);
      assert Exec(env, d.kernel, [Flush(interface)]) == f;
    }
  }

  lemma {:induction false} ChangeAllFlushless(items: seq<Item>, add: bool, interface: string)
    ensures Flushless(ChangeAll(items, add)) && Flushless(LookupAndChangeAll(interface, items, add))
  {
    if items != [] {
      ChangeAllFlushless(items[1..], add, interface);
    }
  }

  lemma PartFlushless(env: Env, part: Part, interface: string, add: bool)
    ensures Flushless(PartRequests(env, part, interface, add))
    ensures !part.LocalPart? && PartItems(env, part, interface) != [] ==>
              Lookup(interface) in PartRequests(env, part, interface, add)
  {
    ChangeAllFlushless(PartItems(env, part, interface), add, interface);
  }

  lemma {:induction false} EachInterfaceFlushless(env: Env, part: Part, interfaces: seq<string>, add: bool)
    ensures Flushless(EachInterface(env, part, interfaces, add))
  {
    if interfaces != [] {
      PartFlushless(env, part, interfaces[0], add);
      EachInterfaceFlushless(env, part, interfaces[1..], add);
    }
  }

  lemma {:induction false} EachSwapFlushless(env: Env, new': Part, old': Part, interfaces: seq<string>)
    ensures Flushless(EachSwap(env, new', old', interfaces))
  {
    if interfaces != [] {
      PartFlushless(env, new', interfaces[0], true);
      PartFlushless(env, old', interfaces[0], false);
      EachSwapFlushless(env, new', old', interfaces[1..]);
    }
  }

  // ----- Operations -----

  /** An operation that flushes nothing and keeps every network's interfaces is safe if its new controller is. */
  lemma PerformSafe(env: Env, w: World, requests: seq<Request>, ctl: Controller)
    requires Safe(env, w) && Flushless(requests) && SafeController(ctl)
    requires forall id, i :: id in ctl.networks && !ctl.networks[id].Local? && i in ctl.networks[id].interfaces ==>
               Lookup(i) in requests ||
               exists id' :: id' in w.ctl.networks && !w.ctl.networks[id'].Local? && i in w.ctl.networks[id'].interfaces
    ensures Safe(env, Perform(env, w, requests, ctl).world)
  {
    FlushlessKeepsTables(env, w.kernel, requests);
  }

  /** Replacing a network by one of the same kind with the same interfaces. */
  lemma SameInterfacesSafe(ctl: Controller, netId: nat, n: Network)
    requires SafeController(ctl) && netId in ctl.networks
    requires var m := ctl.networks[netId];
             m.interfaces == n.interfaces && m.Local? == n.Local? && m.Physical? == n.Physical?
    requires n.Virtual? ==> Wellformed(n.ranges)
    ensures SafeController(Updated(ctl, netId, n))
  {
  }

  lemma DefaultFlagSafe(env: Env, w: World, netId: nat)
    requires Safe(env, w) && netId in w.ctl.networks && w.ctl.networks[netId].Physical?
    ensures Safe(env, AddAsDefault(env, w, netId).world)
    ensures Safe(env, RemoveAsDefault(env, w, netId).world)
  {
    var n := w.ctl.networks[netId];
    forall add: bool
      ensures Safe(env, Perform(env, w, EachInterface(env, DefaultPart(Vpns(w.ctl), n.permission), n.interfaces, add),
                                Updated(w.ctl, netId, n.(isDefault := add))).world)
    {
      EachInterfaceFlushless(env, DefaultPart(Vpns(w.ctl), n.permission), n.interfaces, add);
      SameInterfacesSafe(w.ctl, netId, n.(isDefault := add));
      PerformSafe(env, w, EachInterface(env, DefaultPart(Vpns(w.ctl), n.permission), n.interfaces, add),
                  Updated(w.ctl, netId, n.(isDefault := add)));
    }
  }

  lemma SetPermissionSafe(env: Env, w: World, netId: nat, permission: Permission)
    requires Safe(env, w) && netId in w.ctl.networks && w.ctl.networks[netId].Physical?
    ensures Safe(env, SetPermission(env, w, netId, permission).world)
  {
    var n := w.ctl.networks[netId];
    var vpns := Vpns(w.ctl);
    EachSwapFlushless(env, PhysicalPart(netId, permission), PhysicalPart(netId, n.permission), n.interfaces);
    EachSwapFlushless(env, DefaultPart(vpns, permission), DefaultPart(vpns, n.permission), n.interfaces);
    SameInterfacesSafe(w.ctl, netId, n.(permission := permission));
    PerformSafe(env, w, SetPermissionRequests(env, vpns, netId, n, permission),
                Updated(w.ctl, netId, n.(permission := permission)));
  }

  lemma {:induction false} SetNetworkPermissionsSafe(env: Env, w: World, permission: Permission, netIds: seq<nat>)
    requires Safe(env, w)
    ensures Safe(env, SetNetworkPermissions(env, w, permission, netIds).world)
    decreases |netIds|
  {
    if netIds != [] && netIds[0] in w.ctl.networks && w.ctl.networks[netIds[0]].Physical? {
      SetPermissionSafe(env, w, netIds[0], permission);
      var o := SetPermission(env, w, netIds[0], permission);
      if o.ret == 0 {
        SetNetworkPermissionsSafe(env, o.world, permission, netIds[1..]);
      }
    }
  }

  lemma AttachedSafe(ctl: Controller, netId: nat, interface: string)
    requires SafeController(ctl) && netId in ctl.networks
    requires forall id :: id in ctl.networks ==> interface !in ctl.networks[id].interfaces
    ensures var n := ctl.networks[netId];
            && SafeController(Updated(ctl, netId, n.(interfaces := InsertName(n.interfaces, interface))))
            && forall i :: i in InsertName(n.interfaces, interface) <==> i in n.interfaces || i == interface
  {
    hide Wellformed;
    InsertNameAdds(ctl.networks[netId].interfaces, interface);
  }

  lemma AttachSafe(env: Env, w: World, netId: nat, interface: string)
    requires Safe(env, w) && netId in w.ctl.networks
    requires forall id :: id in w.ctl.networks && id != netId ==> interface !in w.ctl.networks[id].interfaces
    ensures Safe(env, Attach(env, w, netId, interface).world)
  {
    hide PartRequests, Exec, VpnsBelow, NameLess, SafeController;
    var n := w.ctl.networks[netId];
    if interface !in n.interfaces {
      AttachedSafe(w.ctl, netId, interface);
      var ctl := Updated(w.ctl, netId, n.(interfaces := InsertName(n.interfaces, interface)));
      var vpns := Vpns(w.ctl);
      var requests := AttachRequests(env, vpns, netId, n, interface);
      PartFlushless(env, MainPart(netId, n), interface, true);
      PartFlushless(env, ExtraPart(vpns, n), interface, true);
      PerformSafe(env, w, requests, ctl);
    }
  }

  lemma DetachedSafe(ctl: Controller, netId: nat, interface: string)
    requires SafeController(ctl) && netId in ctl.networks
    ensures var n := ctl.networks[netId];
            SafeController(Updated(ctl, netId, n.(interfaces := EraseName(n.interfaces, interface))))
  {
    EraseNameRemoves(ctl.networks[netId].interfaces, interface);
  }

  /** Detaching forgets at most the table of the interface detached, and only on success. */
  lemma DetachKeepsTables(env: Env, k: Kernel, vpns: seq<nat>, netId: nat, n: Network, interface: string)
    requires CacheSound(env, k)
    ensures var d := Exec(env, k, DetachRequests(env, vpns, netId, n, interface));
            && CacheSound(env, d.kernel)
            && k.cache.Keys - (if d.ret == 0 then {interface} else {}) <= d.kernel.cache.Keys
            && (n.Local? ==> k.cache.Keys <= d.kernel.cache.Keys)
  {
    PartFlushless(env, MainPart(netId, n), interface, false);
    PartFlushless(env, ExtraPart(vpns, n), interface, false);
    TablesThrough(env, k, if IsDefault(n) then PartRequests(env, ExtraPart(vpns, n), interface, false) else [],
                  PartRequests(env, MainPart(netId, n), interface, false), n.Local?, interface);
  }

  lemma TablesThrough(env: Env, k: Kernel, a: seq<Request>, b: seq<Request>, keep: bool, interface: string)
    requires CacheSound(env, k) && Flushless(a) && Flushless(b)
    ensures var d := Exec(env, k, a + b + if keep then [] else [Flush(interface)]);
            && CacheSound(env, d.kernel)
            && k.cache.Keys - (if d.ret == 0 then {interface} else {}) <= d.kernel.cache.Keys
            && (keep ==> k.cache.Keys <= d.kernel.cache.Keys)
  {
    FlushlessKeepsTables(env, k, a + b);
    FinalFlushForgetsOne(env, k, a + b, interface);
    assert a + b + [] == a + b;
  }

  lemma DetachSafe(env: Env, w: World, netId: nat, interface: string)
    requires Safe(env, w) && netId in w.ctl.networks
    ensures Safe(env, Detach(env, w, netId, interface).world)
  {
    hide Exec, DetachRequests, VpnsBelow;
    var n := w.ctl.networks[netId];
    if interface in n.interfaces {
      DetachedSafe(w.ctl, netId, interface);
      EraseNameRemoves(n.interfaces, interface);
      DetachKeepsTables(env, w.kernel, Vpns(w.ctl), netId, n, interface);
    }
  }

  /** clearInterfaces() stops, and reports success only when no interface is left. */
  lemma {:induction false} ClearInterfacesSafe(env: Env, w: World, netId: nat)
    requires Safe(env, w) && netId in w.ctl.networks
    ensures var o := ClearInterfaces(env, w, netId);
            && Safe(env, o.world) && o.world.ctl.defaultNetId == w.ctl.defaultNetId
            && (o.ret == 0 <==> o.world.ctl.networks[netId].interfaces == [])
    decreases |w.ctl.networks[netId].interfaces|
  {
    var n := w.ctl.networks[netId];
    if n.interfaces != [] {
      DetachSafe(env, w, netId, n.interfaces[0]);
      var o := Detach(env, w, netId, n.interfaces[0]);
      if o.ret == 0 {
        ClearInterfacesSafe(env, o.world, netId);
      }
    }
  }

  lemma ErasedSafe(env: Env, w: World, netId: nat)
    requires Safe(env, w) && netId != LOCAL_NET_ID
    ensures Safe(env, w.(ctl := Erased(w.ctl, netId).(defaultNetId := NETID_UNSET)))
    ensures netId != w.ctl.defaultNetId ==> Safe(env, w.(ctl := Erased(w.ctl, netId)))
  {
  }

  lemma FallthroughSafe(env: Env, w: World, vpn: nat, add: bool)
    requires Safe(env, w)
    ensures Flushless(FallthroughRequests(env, w.ctl, vpn, add).0) && FallthroughRequests(env, w.ctl, vpn, add).1 == 0
  {
    var id := w.ctl.defaultNetId;
    if id in w.ctl.networks && w.ctl.networks[id].Physical? {
      EachInterfaceFlushless(env, FallthroughPart(vpn, w.ctl.networks[id].permission), w.ctl.networks[id].interfaces,
                             add);
    }
  }

  lemma DestroySafe(env: Env, w: World, netId: nat)
    requires Safe(env, w)
    ensures Safe(env, Destroy(env, w, netId).world)
  {
    if netId != LOCAL_NET_ID && netId in w.ctl.networks {
      ClearInterfacesSafe(env, w, netId);
      var w1 := ClearInterfaces(env, w, netId).world;
      var n := w1.ctl.networks[netId];
      if w1.ctl.defaultNetId == netId {
        DefaultFlagSafe(env, w1, netId);
        ErasedSafe(env, RemoveAsDefault(env, w1, netId).world, netId);
      } else if n.Virtual? {
        FallthroughSafe(env, w1, netId, false);
        PerformSafe(env, w1, FallthroughRequests(env, w1.ctl, netId, false).0, w1.ctl);
        ErasedSafe(env, Perform(env, w1, FallthroughRequests(env, w1.ctl, netId, false).0, w1.ctl).world, netId);
      } else {
        ErasedSafe(env, w1, netId);
      }
    }
  }

  lemma DefaultChosenSafe(env: Env, w: World, netId: nat)
    requires Safe(env, w) && (netId == NETID_UNSET || (netId in w.ctl.networks && w.ctl.networks[netId].Physical?))
    ensures Safe(env, w.(ctl := w.ctl.(defaultNetId := netId)))
  {
  }

  lemma SetDefaultSafe(env: Env, w: World, netId: nat)
    requires Safe(env, w)
    ensures Safe(env, SetDefault(env, w, netId).world)
  {
    hide Exec, VpnsBelow, EachInterface, TablesCached, InterfacesDisjoint, InterfacesDistinct, RangesWellformed;
    if netId != w.ctl.defaultNetId &&
       (netId == NETID_UNSET || (netId in w.ctl.networks && w.ctl.networks[netId].Physical?)) {
      if netId != NETID_UNSET { DefaultFlagSafe(env, w, netId); }
      var w1 := if netId != NETID_UNSET then AddAsDefault(env, w, netId).world else w;
      var was := w1.ctl.defaultNetId;
      if was != NETID_UNSET { DefaultFlagSafe(env, w1, was); }
      var w2 := if was != NETID_UNSET then RemoveAsDefault(env, w1, was).world else w1;
      DefaultChosenSafe(env, w2, netId);
    }
  }

  lemma CreatePhysicalSafe(env: Env, w: World, netId: nat, permission: Permission)
    requires Safe(env, w)
    ensures Safe(env, CreatePhysical(env, w, netId, permission).world)
  {
    if ValidPhysicalNetId(netId) && netId !in w.ctl.networks {
      EnteredSafe(w.ctl, netId, Physical([], permission, false));
    }
  }

  /** A new network without interfaces. */
  lemma EnteredSafe(ctl: Controller, netId: nat, n: Network)
    requires SafeController(ctl) && netId !in ctl.networks && ValidPhysicalNetId(netId)
    requires n.interfaces == [] && !n.Local? && (n.Virtual? ==> n.ranges == [])
    ensures SafeController(Updated(ctl, netId, n))
  {
  }

  lemma CreateVirtualSafe(env: Env, w: World, netId: nat, hasDns: bool, secure: bool)
    requires Safe(env, w)
    ensures Safe(env, CreateVirtual(env, w, netId, hasDns, secure).world)
  {
    hide Exec, VpnsBelow, EachInterface, FallthroughRequests, Perform;
    if ValidVirtualNetId(netId) && netId !in w.ctl.networks {
      var n := Virtual([], hasDns, secure, []);
      EnteredSafe(w.ctl, netId, n);
      hide SafeController;
      FallthroughSafe(env, w, netId, true);
      PerformSafe(env, w, FallthroughRequests(env, w.ctl, netId, true).0, Updated(w.ctl, netId, n));
    }
  }

  lemma ChangeUsersSafe(env: Env, w: World, netId: nat, ranges: seq<Range>, add: bool)
    requires Safe(env, w) && Wellformed(ranges)
    ensures Safe(env, ChangeUsersOf(env, w, netId, ranges, add).world)
  {
    if netId in w.ctl.networks && w.ctl.networks[netId].Virtual? {
      var n := w.ctl.networks[netId];
      MergeIsSorted(n.ranges, ranges);
      MergeIsUnion(n.ranges, ranges);
      DifferenceIsSorted(n.ranges, ranges);
      var n' := n.(ranges := if add then Merge(n.ranges, ranges) else Difference(n.ranges, ranges));
      SameInterfacesSafe(w.ctl, netId, n');
      EachInterfaceFlushless(env, UsersPart(netId, ranges, n.secure), n.interfaces, add);
      PerformSafe(env, w, EachInterface(env, UsersPart(netId, ranges, n.secure), n.interfaces, add),
                  Updated(w.ctl, netId, n'));
    }
  }

  lemma StepSafe(env: Env, w: World, c: Command)
    requires Safe(env, w) && ValidCommand(c)
    ensures Safe(env, Step(env, w, c).world)
  {
    hide Exec, Perform, SetDefault, CreatePhysical, CreateVirtual, Destroy, Attach, Detach, SetNetworkPermissions,
         ChangeUsersOf, Tether, Distinct;
    match c {
      case SetDefaultNetwork(netId) => SetDefaultSafe(env, w, netId);
      case CreatePhysicalNetwork(netId, permission) => CreatePhysicalSafe(env, w, netId, permission);
      case CreateVirtualNetwork(netId, hasDns, secure) => CreateVirtualSafe(env, w, netId, hasDns, secure);
      case DestroyNetwork(netId) => DestroySafe(env, w, netId);
      case AddInterfaceToNetwork(netId, interface) =>
        if netId in w.ctl.networks {
          var existing := NetworkForInterface(w.ctl.networks, interface, 1);
          if existing == NETID_UNSET || existing == netId {
            AttachSafe(env, w, netId, interface);
          }
        }
      case RemoveInterfaceFromNetwork(netId, interface) =>
        if netId in w.ctl.networks { DetachSafe(env, w, netId, interface); }
      case SetPermissionForUsers(permission, uids) =>
      case SetPermissionForNetworks(permission, netIds) => SetNetworkPermissionsSafe(env, w, permission, netIds);
      case AddUsersToNetwork(netId, ranges) => ChangeUsersSafe(env, w, netId, ranges, true);
      case RemoveUsersFromNetwork(netId, ranges) => ChangeUsersSafe(env, w, netId, ranges, false);
      case AllowProtect(uids) =>
      case DenyProtect(uids) =>
      case EnableTethering(input, output) => TetherSafe(env, w, input, output, true);
      case DisableTethering(input, output) => TetherSafe(env, w, input, output, false);
    }
  }

  lemma TetherSafe(env: Env, w: World, input: string, output: string, add: bool)
    requires Safe(env, w)
    ensures Safe(env, Tether(env, w, input, output, add).world)
  {
    FlushlessKeepsTables(env, w.kernel,
                         [Lookup(output), Change(add, IpRule(TetheringRule(input, TableOf(env, output))))]);
  }

  /** A run of commands, whatever each of them returns. */
  function RunAll(env: Env, w: World, commands: seq<Command>): World
    decreases |commands|
  {
    if commands == [] then w else RunAll(env, Step(env, w, commands[0]).world, commands[1..])
  }

  /** In every run from start-up, under every pattern of kernel failures and disappearing interfaces, the controller
      is safe. */
  lemma {:induction false} EveryRunIsSafe(env: Env, w: World, commands: seq<Command>)
    requires Safe(env, w) && forall c :: c in commands ==> ValidCommand(c)
    ensures Safe(env, RunAll(env, w, commands))
    decreases |commands|
  {
    if commands != [] {
      assert commands[0] in commands;
      StepSafe(env, w, commands[0]);
      EveryRunIsSafe(env, Step(env, w, commands[0]).world, commands[1..]);
    }
  }

  lemma BootIsSafe(env: Env, v4: multiset<Item>, v6: multiset<Item>)
    ensures Safe(env, Boot(env, v4, v6).world)
  {
    hide Exec;
    var f := ExecFlushRules(env, Kernel(v4, v6, map[], 0));
    ChangeAllFlushless(InitItems(), true, "");
    FlushlessKeepsTables(env, f.kernel, InitRequests());
  }

  /** A command takes one state to the next, whatever it returns. */
  ghost predicate Goes(env: Env, w: World, c: Command, w': World) {
    ValidCommand(c) && Step(env, w, c).world == w'
  }

  /** The states a run passes through from a safe one on, such as that after start-up. Commands may fail. */
  ghost predicate IsHistory(env: Env, states: seq<World>, commands: seq<Command>) {
    && |states| == |commands| + 1 && Safe(env, states[0])
    && forall t {:trigger commands[t]} :: 0 <= t < |commands| ==> Goes(env, states[t], commands[t], states[t + 1])
  }

  lemma {:induction false} HistoryIsSafe(env: Env, states: seq<World>, commands: seq<Command>, t: nat)
    requires IsHistory(env, states, commands) && t < |states|
    ensures Safe(env, states[t])
  {
    hide Step, Safe;
    if t > 0 {
      HistoryIsSafe(env, states, commands, t - 1);
      StepSafe(env, states[t - 1], commands[t - 1]);
    }
  }
}
