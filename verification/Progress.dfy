/** With a kernel that refuses nothing and interface names that fit, a command from a consistent state returns 0 exactly
    when it is allowed: nothing but the guards of the commands is in the way. */
module Progress {
  import opened Fwmarks
  import opened Kernels
  import opened Uids
  import opened Sums
  import opened Rules
  import opened Controllers
  import opened Safety
  import opened Sync
  import opened SyncRuns
  import opened Effects

  /** Every request is answered, and every interface is there. */
  ghost predicate Quiet(env: Env) {
    ValidEnv(env) && forall t :: env.present(t) && env.reply(t) == 0
  }

  predicate Fits(interface: string) { |interface| < IFNAMSIZ }

  ghost predicate NamesFit(ctl: Controller) {
    forall id, i :: id in ctl.networks && i in ctl.networks[id].interfaces ==> Fits(i)
  }

  ghost predicate CommandFits(c: Command) {
    && ValidCommand(c)
    && (c.AddInterfaceToNetwork? ==> Fits(c.interface))
    && (c.EnableTethering? || c.DisableTethering? ==> Fits(c.input))
  }

  // ----- Requests that succeed -----

  predicate Accepted(request: Request) { request.Change? ==> Acceptable(request.item) }

  ghost predicate AllAccepted(requests: seq<Request>) {
    forall request :: request in requests ==> Accepted(request)
  }

  /** Accepted requests succeed if what they delete is there. */
  lemma {:induction false} RequestsSucceed(env: Env, k: Kernel, requests: seq<Request>)
    requires Quiet(env) && AllAccepted(requests)
    requires Changed(requests, false) <= k.v4 && Changed(requests, false) <= k.v6
    ensures Exec(env, k, requests).ret == 0
    decreases |requests|
  {
    hide Acceptable;
    if requests != [] {
      var d := ExecOne(env, k, requests[0]);
      assert Accepted(requests[0]);
      OneSucceeds(env, k, requests);
      RequestsSucceed(env, d.kernel, requests[1..]);
    }
  }

  lemma LookupSucceeds(env: Env, k: Kernel, request: Request)
    requires Quiet(env) && !request.Change?
    ensures var d := ExecOne(env, k, request);
            d.ret == 0 && d.kernel.v4 == k.v4 && d.kernel.v6 == k.v6
  {
  }

  lemma ChangeSucceeds(env: Env, k: Kernel, request: Request)
    requires Quiet(env) && request.Change? && Accepted(request)
    requires !request.add ==> request.item in k.v4 && request.item in k.v6
    ensures var d, x := ExecOne(env, k, request), multiset{request.item};
            && d.ret == 0
            && d.kernel.v4 == (if request.add then k.v4 + x else k.v4 - x)
            && d.kernel.v6 == (if request.add then k.v6 + x else k.v6 - x)
  {
    hide RuleError;
  }

  lemma OneSucceeds(env: Env, k: Kernel, requests: seq<Request>)
    requires Quiet(env) && requests != [] && Accepted(requests[0])
    requires Changed(requests, false) <= k.v4 && Changed(requests, false) <= k.v6
    ensures var d := ExecOne(env, k, requests[0]);
            && d.ret == 0 && Changed(requests[1..], false) <= d.kernel.v4
               && Changed(requests[1..], false) <= d.kernel.v6
  {
    hide ExecOne, Accepted, Quiet;
    if requests[0].Change? {
      Shrinks(requests, k.v4);
      Shrinks(requests, k.v6);
      ChangeSucceeds(env, k, requests[0]);
    } else {
      LookupSucceeds(env, k, requests[0]);
    }
  }

  lemma Shrinks(requests: seq<Request>, items: multiset<Item>)
    requires requests != [] && requests[0].Change? && Changed(requests, false) <= items
    ensures var x := requests[0].item;
            if requests[0].add then Changed(requests[1..], false) <= items + multiset{x}
            else x in items && Changed(requests[1..], false) <= items - multiset{x}
  {
    var x, rest := requests[0].item, Changed(requests[1..], false);
    if !requests[0].add {
      assert Changed(requests, false) == multiset{x} + rest;
      assert x in Changed(requests, false);
      forall y
        ensures rest[y] <= (items - multiset{x})[y]
      {
        assert (multiset{x} + rest)[y] <= items[y];
      }
    }
  }

  lemma AcceptedBoth(a: seq<Request>, b: seq<Request>)
    requires AllAccepted(a) && AllAccepted(b)
    ensures AllAccepted(a + b)
  {
  }

  lemma AcceptedBut(interface: string)
    ensures AllAccepted([Lookup(interface)]) && AllAccepted([Flush(interface)]) && AllAccepted([])
  {
  }

  lemma {:induction false} AllChangesAccepted(items: seq<Item>, interface: string, add: bool)
    requires forall x :: x in items ==> Acceptable(x)
    ensures AllAccepted(ChangeAll(items, add)) && AllAccepted(LookupAndChangeAll(interface, items, add))
    decreases |items|
  {
    hide Acceptable;
    if items != [] {
      assert items == [items[0]] + items[1..];
      AllChangesAccepted(items[1..], interface, add);
      AcceptedBut(interface);
      AcceptedBoth([Change(add, items[0])], ChangeAll(items[1..], add));
      AcceptedBoth([Lookup(interface), Change(add, items[0])], LookupAndChangeAll(interface, items[1..], add));
    }
  }

  ghost predicate RangesProper(part: Part) {
    part.VirtualPart? || part.UsersPart? ==> forall r :: r in part.ranges ==> Proper(r)
  }

  lemma PartItemShape(env: Env, part: Part, interface: string, x: Item)
    requires RangesProper(part) && Fits(interface) && x in PartItems(env, part, interface) && x.IpRule?
    ensures NameFits(x.rule.iif) && NameFits(x.rule.oif)
            && (x.rule.uidStart == INVALID_UID <==> x.rule.uidEnd == INVALID_UID)
  {
    var table := TableOf(env, interface);
    match part {
      case VirtualPart(netId, ranges, secure) => UserItemsAre(netId, interface, table, ranges, secure, x);
      case UsersPart(netId, ranges, secure) => UserItemsAre(netId, interface, table, ranges, secure, x);
      case DefaultPart(vpns, permission) => FallthroughItemsAre(vpns, table, permission, x);
      case _ =>
    }
  }

  lemma PartItemAccepted(env: Env, part: Part, interface: string, x: Item)
    requires RangesProper(part) && Fits(interface) && x in PartItems(env, part, interface)
    ensures Acceptable(x)
  {
    hide ConjunctionIs, PartItems, NameFits, IsSelectorRule, RangesProper;
    if x.IpRule? {
      PartItemShape(env, part, interface, x);
      BuildersAreInRange(env, part, "", interface, x);
    }
  }

  lemma PartAccepted(env: Env, part: Part, interface: string, add: bool)
    requires RangesProper(part) && Fits(interface)
    ensures AllAccepted(PartRequests(env, part, interface, add))
  {
    hide PartItems, Acceptable, AllAccepted, RangesProper;
    var items := PartItems(env, part, interface);
    forall x | x in items
      ensures Acceptable(x)
    {
      PartItemAccepted(env, part, interface, x);
    }
    AllChangesAccepted(items, interface, add);
    AcceptedBut(interface);
    AcceptedBoth([Lookup(interface)], ChangeAll(items, add));
  }

  lemma {:induction false} EachAccepted(env: Env, part: Part, interfaces: seq<string>, add: bool)
    requires RangesProper(part) && forall i :: i in interfaces ==> Fits(i)
    ensures AllAccepted(EachInterface(env, part, interfaces, add))
    decreases |interfaces|
  {
    hide PartRequests, AllAccepted, RangesProper, Fits;
    AcceptedBut("");
    if interfaces != [] {
      PartAccepted(env, part, interfaces[0], add);
      EachAccepted(env, part, interfaces[1..], add);
      AcceptedBoth(PartRequests(env, part, interfaces[0], add), EachInterface(env, part, interfaces[1..], add));
    }
  }

  lemma {:induction false} SwapAccepted(env: Env, new': Part, old': Part, interfaces: seq<string>)
    requires RangesProper(new') && RangesProper(old') && forall i :: i in interfaces ==> Fits(i)
    ensures AllAccepted(EachSwap(env, new', old', interfaces))
    decreases |interfaces|
  {
    hide PartRequests, AllAccepted, RangesProper, Fits;
    AcceptedBut("");
    if interfaces != [] {
      var i := interfaces[0];
      PartAccepted(env, new', i, true);
      PartAccepted(env, old', i, false);
      SwapAccepted(env, new', old', interfaces[1..]);
      AcceptedBoth(PartRequests(env, new', i, true), PartRequests(env, old', i, false));
      AcceptedBoth(PartRequests(env, new', i, true) + PartRequests(env, old', i, false),
                   EachSwap(env, new', old', interfaces[1..]));
    }
  }

  // ----- What the kernel holds -----

  lemma NetworkInKernel(env: Env, w: World, netId: nat)
    requires InSync(env, w) && netId in w.ctl.networks && netId < NET_ID_BOUND
    ensures var items := NetworkItems(env, Vpns(w.ctl), netId, w.ctl.networks[netId]);
            items <= w.kernel.v4 && items <= w.kernel.v6
  {
    hide NetworkItems, SumBelow, VpnsBelow, InitItems, AreTethering;
    var g := NetworkShare(env, Vpns(w.ctl), w.ctl.networks);
    PartOfSum(NET_ID_BOUND, g, netId);
    assert g(netId) == NetworkItems(env, Vpns(w.ctl), netId, w.ctl.networks[netId]);
  }

  lemma {:induction false} PartOfSum(bound: nat, g: nat -> multiset<Item>, i: nat)
    requires i < bound
    ensures g(i) <= SumBelow(bound, g)
    decreases bound
  {
    if i < bound - 1 {
      PartOfSum(bound - 1, g, i);
    }
  }

  /** Requests succeed that delete no more than the rules of one network. */
  lemma PerformSucceeds(env: Env, w: World, requests: seq<Request>, ctl: Controller, netId: nat)
    requires Quiet(env) && InSync(env, w) && netId in w.ctl.networks && netId < NET_ID_BOUND && AllAccepted(requests)
    requires Changed(requests, false) <= NetworkItems(env, Vpns(w.ctl), netId, w.ctl.networks[netId])
    ensures Perform(env, w, requests, ctl).ret == 0
  {
    hide InSync, NetworkItems, Changed, Exec, AllAccepted, VpnsBelow;
    NetworkInKernel(env, w, netId);
    RequestsSucceed(env, w.kernel, requests);
  }

  // ----- When a command is allowed -----

  ghost predicate PhysicalNet(ctl: Controller, id: nat) { id in ctl.networks && ctl.networks[id].Physical? }

  /** What a caller can check beforehand. */
  ghost predicate Allowed(env: Env, w: World, c: Command) {
    var ctl := w.ctl;
    match c
    case SetDefaultNetwork(netId) => netId == NETID_UNSET || PhysicalNet(ctl, netId)
    case CreatePhysicalNetwork(netId, _) =>
      (MIN_NET_ID <= netId <= MAX_NET_ID || MIN_OEM_ID <= netId <= MAX_OEM_ID) && netId !in ctl.networks
    case CreateVirtualNetwork(netId, _, _) => MIN_NET_ID <= netId <= MAX_NET_ID && netId !in ctl.networks
    case DestroyNetwork(netId) => netId in ctl.networks && netId != LOCAL_NET_ID
    case AddInterfaceToNetwork(netId, interface) =>
      netId in ctl.networks && forall id :: id in ctl.networks && id != netId ==>
        interface !in ctl.networks[id].interfaces
    case RemoveInterfaceFromNetwork(netId, _) => netId in ctl.networks
    case SetPermissionForUsers(_, _) => true
    case SetPermissionForNetworks(_, netIds) => forall id :: id in netIds ==> PhysicalNet(ctl, id)
    case AddUsersToNetwork(netId, _) => netId in ctl.networks && ctl.networks[netId].Virtual?
    case RemoveUsersFromNetwork(netId, ranges) =>
      && netId in ctl.networks && ctl.networks[netId].Virtual?
      && (ctl.networks[netId].interfaces == [] || multiset(ranges) <= multiset(ctl.networks[netId].ranges))
    case AllowProtect(_) => true
    case DenyProtect(_) => true
    case EnableTethering(_, _) => true
    case DisableTethering(input, output) => Tethered(env, input, output) in w.tethers
  }

  lemma AttachSucceeds(env: Env, w: World, netId: nat, interface: string)
    requires Quiet(env) && Consistent(env, w) && netId in w.ctl.networks && Fits(interface)
    ensures Attach(env, w, netId, interface).ret == 0
  {
    hide InSync, TablesCached, FlagsMatch, InterfacesDisjoint, InterfacesDistinct, PartRequests, NetworkItems, Exec,
         VpnsBelow,
         AllAccepted, Fits, InsertName;
    var n, vpns := w.ctl.networks[netId], Vpns(w.ctl);
    AttachChanges(env, vpns, netId, n, interface);
    PartAccepted(env, MainPart(netId, n), interface, true);
    PartAccepted(env, ExtraPart(vpns, n), interface, true);
    AcceptedBut(interface);
    var second := if IsDefault(n) then PartRequests(env, ExtraPart(vpns, n), interface, true) else [];
    AcceptedBoth(PartRequests(env, MainPart(netId, n), interface, true), second);
    PerformSucceeds(env, w, AttachRequests(env, vpns, netId, n, interface),
                    Updated(w.ctl, netId, n.(interfaces := InsertName(n.interfaces, interface))), netId);
  }

  lemma DetachSucceeds(env: Env, w: World, netId: nat, interface: string)
    requires Quiet(env) && SafeController(w.ctl) && InSync(env, w) && netId in w.ctl.networks && NamesFit(w.ctl)
    ensures Detach(env, w, netId, interface).ret == 0
  {
    hide InSync, InterfacesDisjoint, InterfacesDistinct, PartRequests, NetworkItems, Exec, VpnsBelow, AllAccepted,
         Fits, EraseName;
    var n, vpns := w.ctl.networks[netId], Vpns(w.ctl);
    if interface in n.interfaces {
      DetachChanges(env, vpns, netId, n, interface);
      PartAccepted(env, MainPart(netId, n), interface, false);
      PartAccepted(env, ExtraPart(vpns, n), interface, false);
      AcceptedBut(interface);
      var first := if IsDefault(n) then PartRequests(env, ExtraPart(vpns, n), interface, false) else [];
      var main := PartRequests(env, MainPart(netId, n), interface, false);
      AcceptedBoth(first, main);
      AcceptedBoth(first + main, if n.Local? then [] else [Flush(interface)]);
      PerformSucceeds(env, w, DetachRequests(env, vpns, netId, n, interface),
                      Updated(w.ctl, netId, n.(interfaces := EraseName(n.interfaces, interface))), netId);
    }
  }

  lemma FlagSucceeds(env: Env, w: World, netId: nat, add: bool)
    requires Quiet(env) && SafeController(w.ctl) && InSync(env, w) && NamesFit(w.ctl)
    requires netId in w.ctl.networks && w.ctl.networks[netId].Physical?
    ensures (if add then AddAsDefault(env, w, netId) else RemoveAsDefault(env, w, netId)).ret == 0
  {
    hide InSync, InterfacesDisjoint, InterfacesDistinct, EachInterface, Sum, Exec, VpnsBelow, AllAccepted, Fits;
    var n := w.ctl.networks[netId];
    var part := DefaultPart(Vpns(w.ctl), n.permission);
    EachInterfaceChanges(env, part, n.interfaces, add);
    EachAccepted(env, part, n.interfaces, add);
    if n.isDefault != add {
      PerformSucceeds(env, w, EachInterface(env, part, n.interfaces, add), Updated(w.ctl, netId, n.(isDefault := add)),
                      netId);
    }
  }

  lemma PermissionSucceeds(env: Env, w: World, netId: nat, permission: Permission)
    requires Quiet(env) && SafeController(w.ctl) && InSync(env, w) && NamesFit(w.ctl)
    requires netId in w.ctl.networks && w.ctl.networks[netId].Physical?
    ensures SetPermission(env, w, netId, permission).ret == 0
  {
    hide InSync, InterfacesDisjoint, InterfacesDistinct, EachSwap, NetworkItems, Exec, VpnsBelow, AllAccepted, Fits;
    var n, vpns := w.ctl.networks[netId], Vpns(w.ctl);
    SetPermissionChanges(env, vpns, netId, n, permission);
    SwapAccepted(env, PhysicalPart(netId, permission), PhysicalPart(netId, n.permission), n.interfaces);
    SwapAccepted(env, DefaultPart(vpns, permission), DefaultPart(vpns, n.permission), n.interfaces);
    AcceptedBut("");
    var second := if n.isDefault
    then EachSwap(env, DefaultPart(vpns, permission), DefaultPart(vpns, n.permission), n.interfaces)
                  else [];
    AcceptedBoth(EachSwap(env, PhysicalPart(netId, permission), PhysicalPart(netId, n.permission), n.interfaces),
                 second);
    PerformSucceeds(env, w, SetPermissionRequests(env, vpns, netId, n, permission),
                    Updated(w.ctl, netId, n.(permission := permission)), netId);
  }

  lemma PermissionKeeps(env: Env, w: World, netId: nat, permission: Permission)
    requires Quiet(env) && Consistent(env, w) && NamesFit(w.ctl) && PhysicalNet(w.ctl, netId)
    ensures var o := SetPermission(env, w, netId, permission);
            && o.ret == 0 && Consistent(env, o.world) && NamesFit(o.world.ctl)
            && forall id :: PhysicalNet(o.world.ctl, id) <==> PhysicalNet(w.ctl, id)
  {
    hide InSync, TablesCached, SetPermissionRequests, Exec;
    PermissionSucceeds(env, w, netId, permission);
    SetPermissionSync(env, w, netId, permission);
    SetPermissionSafe(env, w, netId, permission);
    OnePermission(env, w, netId, permission);
  }

  lemma {:induction false} PermissionsSucceed(env: Env, w: World, permission: Permission, netIds: seq<nat>)
    requires Quiet(env) && Consistent(env, w) && NamesFit(w.ctl) && forall id :: id in netIds ==> PhysicalNet(w.ctl, id)
    ensures SetNetworkPermissions(env, w, permission, netIds).ret == 0
    decreases |netIds|
  {
    hide Consistent, SetPermission, NamesFit, Quiet;
    if netIds != [] {
      assert netIds[0] in netIds && PhysicalNet(w.ctl, netIds[0]);
      PermissionKeeps(env, w, netIds[0], permission);
      PermissionsSucceed(env, SetPermission(env, w, netIds[0], permission).world, permission, netIds[1..]);
    }
  }

  lemma UsersSucceed(env: Env, w: World, netId: nat, ranges: seq<Range>, add: bool)
    requires Quiet(env) && Consistent(env, w) && NamesFit(w.ctl) && Wellformed(ranges)
    requires netId in w.ctl.networks && w.ctl.networks[netId].Virtual?
    requires add || w.ctl.networks[netId].interfaces == [] || multiset(ranges) <= multiset(w.ctl.networks[netId].ranges)
    ensures ChangeUsers(env, w, netId, ranges, add).ret == 0
  {
    hide InSync, TablesCached, FlagsMatch, InterfacesDisjoint, InterfacesDistinct, EachInterface, NetworkItems, Sum,
         Share, Exec,
         VpnsBelow, AllAccepted, Fits, Merge, Difference;
    var n := w.ctl.networks[netId];
    var part := UsersPart(netId, ranges, n.secure);
    EachInterfaceChanges(env, part, n.interfaces, add);
    EachAccepted(env, part, n.interfaces, add);
    if !add {
      UsersChangeItems(env, Vpns(w.ctl), netId, n, ranges, false);
    }
    var n' := n.(ranges := if add then Merge(n.ranges, ranges) else Difference(n.ranges, ranges));
    PerformSucceeds(env, w, EachInterface(env, part, n.interfaces, add), Updated(w.ctl, netId, n'), netId);
  }

  lemma TetherAccepted(env: Env, input: string, output: string, add: bool)
    requires Fits(input)
    ensures AllAccepted([Lookup(output), Change(add, IpRule(TetheringRule(input, TableOf(env, output))))])
  {
    hide ConjunctionIs, IsSelectorRule;
    BuildersAreInRange(env, LocalPart(0), input, output, IpRule(TetheringRule(input, TableOf(env, output))));
  }

  lemma TetherSucceeds(env: Env, w: World, input: string, output: string, add: bool)
    requires Quiet(env) && InSync(env, w) && Fits(input) && (add || Tethered(env, input, output) in w.tethers)
    ensures Tether(env, w, input, output, add).ret == 0
  {
    hide Exec, AllAccepted, InitItems, ControllerItems, AreTethering;
    var x := IpRule(TetheringRule(input, TableOf(env, output)));
    TetherAccepted(env, input, output, add);
    LookupThenChange(output, x, add);
    assert x == Tethered(env, input, output);
    RequestsSucceed(env, w.kernel, [Lookup(output), Change(add, x)]);
  }

  /** The fallthrough rules of a VPN can be added to the default network's interfaces, or taken from them. */
  lemma FallthroughSucceeds(env: Env, w: World, vpn: nat, add: bool, ctl: Controller)
    requires Quiet(env) && SafeController(w.ctl) && FlagsMatch(w.ctl) && InSync(env, w) && NamesFit(w.ctl)
    requires !add ==> vpn in w.ctl.networks && w.ctl.networks[vpn].Virtual? && w.ctl.networks[vpn].interfaces == []
    ensures Perform(env, w, FallthroughRequests(env, w.ctl, vpn, add).0, ctl).ret == 0
  {
    hide InSync, InterfacesDisjoint, InterfacesDistinct, EachInterface, Sum, Share, Exec, VpnsBelow, AllAccepted, Fits;
    var requests, d := FallthroughRequests(env, w.ctl, vpn, add).0, w.ctl.defaultNetId;
    FallthroughChanges(env, w.ctl, vpn, add);
    AcceptedBut("");
    if d != NETID_UNSET {
      EachAccepted(env, FallthroughPart(vpn, w.ctl.networks[d].permission), w.ctl.networks[d].interfaces, add);
    }
    if !add {
      FallthroughInKernel(env, w, vpn);
    }
    RequestsSucceed(env, w.kernel, requests);
  }

  lemma FallthroughInKernel(env: Env, w: World, vpn: nat)
    requires SafeController(w.ctl) && FlagsMatch(w.ctl) && InSync(env, w)
    requires vpn in w.ctl.networks && w.ctl.networks[vpn].Virtual? && w.ctl.networks[vpn].interfaces == []
    ensures var d := w.ctl.defaultNetId;
            var extra := if d == NETID_UNSET then multiset{}
                         else Sum(w.ctl.networks[d].interfaces,
                                  Share(env, FallthroughPart(vpn, w.ctl.networks[d].permission)));
            extra <= w.kernel.v4 && extra <= w.kernel.v6
  {
    hide Sum, Share, InitItems, ControllerItems, AreTethering;
    ErasedStaysSafe(w.ctl, vpn);
    OneMoreVpn(env, Erased(w.ctl, vpn), w.ctl, vpn);
  }

  lemma ErasedStaysSafe(ctl: Controller, vpn: nat)
    requires SafeController(ctl) && FlagsMatch(ctl) && vpn in ctl.networks && ctl.networks[vpn].Virtual?
    ensures SafeController(Erased(ctl, vpn)) && FlagsMatch(Erased(ctl, vpn))
  {
  }

  // ----- Destroying -----

  lemma DetachKeepsFit(env: Env, w: World, netId: nat, interface: string)
    requires NamesFit(w.ctl) && InterfacesDistinct(w.ctl) && netId in w.ctl.networks
             && Detach(env, w, netId, interface).ret == 0
    ensures NamesFit(Detach(env, w, netId, interface).world.ctl)
  {
    hide Detach, EraseName, Fits;
    DetachIs(env, w, netId, interface);
    EraseNameRemoves(w.ctl.networks[netId].interfaces, interface);
  }

  lemma {:induction false} ClearSucceeds(env: Env, w: World, netId: nat)
    requires Quiet(env) && Safe(env, w) && InSync(env, w) && FlagsMatch(w.ctl) && NamesFit(w.ctl)
             && netId in w.ctl.networks
    ensures var o := ClearInterfaces(env, w, netId);
            o.ret == 0 && NamesFit(o.world.ctl)
    decreases |w.ctl.networks[netId].interfaces|
  {
    hide InSync, Detach, FlagsMatch, Quiet, NamesFit, TablesCached, InterfacesDisjoint, RangesWellformed, NetIdsFit;
    var n := w.ctl.networks[netId];
    if n.interfaces != [] {
      DetachSucceeds(env, w, netId, n.interfaces[0]);
      DetachKeepsFit(env, w, netId, n.interfaces[0]);
      DetachFirst(env, w, netId);
      ClearSucceeds(env, Detach(env, w, netId, n.interfaces[0]).world, netId);
    }
  }

  lemma DestroySucceeds(env: Env, w: World, netId: nat)
    requires Quiet(env) && Consistent(env, w) && NamesFit(w.ctl) && netId in w.ctl.networks && netId != LOCAL_NET_ID
    ensures Destroy(env, w, netId).ret == 0
  {
    hide InSync, TablesCached, Exec, ClearInterfaces, EachInterface, FallthroughRequests, NamesFit, Quiet, VpnsBelow,
         InterfacesDisjoint, InterfacesDistinct, RangesWellformed;
    ClearSucceeds(env, w, netId);
    ClearInterfacesSync(env, w, netId);
    var w1 := ClearInterfaces(env, w, netId).world;
    var n := w1.ctl.networks[netId];
    if w1.ctl.defaultNetId == netId && n.Physical? {
      FlagSucceeds(env, w1, netId, false);
    } else if n.Virtual? {
      FallthroughChanges(env, w1.ctl, netId, false);
      FallthroughSucceeds(env, w1, netId, false, w1.ctl);
    }
  }

  lemma FlagKeepsFit(env: Env, w: World, netId: nat)
    requires NamesFit(w.ctl) && netId in w.ctl.networks && w.ctl.networks[netId].Physical?
    ensures NamesFit(AddAsDefault(env, w, netId).world.ctl)
  {
    hide Exec, EachInterface, VpnsBelow, Fits;
  }

  lemma DefaultSucceeds(env: Env, w: World, netId: nat)
    requires Quiet(env) && Consistent(env, w) && NamesFit(w.ctl) && (netId == NETID_UNSET || PhysicalNet(w.ctl, netId))
    ensures SetDefault(env, w, netId).ret == 0
  {
    hide InSync, TablesCached, Exec, EachInterface, NamesFit, Quiet, VpnsBelow, InterfacesDisjoint, InterfacesDistinct,
         RangesWellformed, FlagsMatch, NetIdsFit;
    var w1 := w;
    if netId != NETID_UNSET {
      FlagSucceeds(env, w, netId, true);
      DefaultFlagSync(env, w, netId);
      DefaultFlagSafe(env, w, netId);
      FlagKeepsFit(env, w, netId);
      w1 := AddAsDefault(env, w, netId).world;
    }
    assert w1.ctl.defaultNetId == w.ctl.defaultNetId;
    if w1.ctl.defaultNetId != NETID_UNSET {
      FlagSucceeds(env, w1, w1.ctl.defaultNetId, false);
    }
  }

  // ----- Together -----

  lemma OwnerFree(ctl: Controller, netId: nat, interface: string)
    requires SafeController(ctl)
    ensures var existing := NetworkForInterface(ctl.networks, interface, 1);
            existing == NETID_UNSET || existing == netId <==>
            forall id :: id in ctl.networks && id != netId ==> interface !in ctl.networks[id].interfaces
  {
  }

  lemma AllowedSucceeds(env: Env, w: World, c: Command)
    requires Quiet(env) && Consistent(env, w) && NamesFit(w.ctl) && CommandFits(c) && Allowed(env, w, c)
    ensures Step(env, w, c).ret == 0
  {
    hide InSync, TablesCached, Exec, Attach, Detach, SetDefault, Destroy, SetNetworkPermissions, ChangeUsers, Tether,
         NamesFit, Quiet,
         NetworkForInterface, InterfacesDisjoint, InterfacesDistinct, RangesWellformed, FallthroughRequests,
         WithPermission, Fits,
         PhysicalNet;
    match c {
      case SetDefaultNetwork(netId) => DefaultSucceeds(env, w, netId);
      case CreateVirtualNetwork(netId, hasDns, secure) =>
        FallthroughChanges(env, w.ctl, netId, true);
        FallthroughSucceeds(env, w, netId, true, Updated(w.ctl, netId, Virtual([], hasDns, secure, [])));
      case DestroyNetwork(netId) => DestroySucceeds(env, w, netId);
      case AddInterfaceToNetwork(netId, interface) =>
        OwnerFree(w.ctl, netId, interface);
        AttachSucceeds(env, w, netId, interface);
      case RemoveInterfaceFromNetwork(netId, interface) => DetachSucceeds(env, w, netId, interface);
      case SetPermissionForNetworks(permission, netIds) => PermissionsSucceed(env, w, permission, netIds);
      case AddUsersToNetwork(netId, ranges) => UsersSucceed(env, w, netId, ranges, true);
      case RemoveUsersFromNetwork(netId, ranges) => UsersSucceed(env, w, netId, ranges, false);
      case EnableTethering(input, output) => TetherSucceeds(env, w, input, output, true);
      case DisableTethering(input, output) => TetherSucceeds(env, w, input, output, false);
      case _ =>
    }
  }

  /** ... and only what is allowed succeeds, whatever the kernel does. */
  lemma SuccessWasAllowed(env: Env, w: World, c: Command)
    requires Consistent(env, w) && ValidCommand(c) && Step(env, w, c).ret == 0
    ensures Allowed(env, w, c)
  {
    hide InSync, TablesCached, Exec, Attach, Detach, SetNetworkPermissions, ChangeUsers, Tether, NetworkForInterface,
         InterfacesDisjoint, InterfacesDistinct, RangesWellformed, FallthroughRequests, WithPermission, ClearInterfaces,
         AddAsDefault, RemoveAsDefault, FlagsMatch;
    CommandsAchieve(env, w, c);
    if c.AddInterfaceToNetwork? {
      OwnerFree(w.ctl, c.netId, c.interface);
    }
  }

  /** With a kernel that refuses nothing, a command whose names fit returns 0 if and only if it is allowed. */
  lemma CommandsSucceedIfAllowed(env: Env, w: World, c: Command)
    requires Quiet(env) && Consistent(env, w) && NamesFit(w.ctl) && CommandFits(c)
    ensures Step(env, w, c).ret == 0 <==> Allowed(env, w, c)
  {
    hide Step, Consistent, Allowed, Quiet, NamesFit;
    if Allowed(env, w, c) {
      AllowedSucceeds(env, w, c);
    } else if Step(env, w, c).ret == 0 {
      SuccessWasAllowed(env, w, c);
    }
  }

  /** The names keep fitting. */
  lemma NamesKeepFitting(env: Env, w: World, c: Command)
    requires Consistent(env, w) && NamesFit(w.ctl) && CommandFits(c) && Step(env, w, c).ret == 0
    ensures NamesFit(Step(env, w, c).world.ctl)
  {
    hide InSync, TablesCached, Step, SafeController, FlagsMatch;
    CommandsAchieve(env, w, c);
  }

  // ----- Whole runs -----

  /** Taking from a VPN with an interface more ranges than it has. */
  ghost predicate TakesTooMuch(w: World, c: Command) {
    && c.RemoveUsersFromNetwork? && c.netId in w.ctl.networks && w.ctl.networks[c.netId].Virtual?
    && w.ctl.networks[c.netId].interfaces != [] && !(multiset(c.ranges) <= multiset(w.ctl.networks[c.netId].ranges))
  }

  /** ... beginning with one it has: the one refusal that leaves rules half deleted. */
  ghost predicate Breaks(w: World, c: Command) {
    TakesTooMuch(w, c) && c.ranges[0] in w.ctl.networks[c.netId].ranges
  }

  lemma {:induction false} DeletesShrink(env: Env, k: Kernel, requests: seq<Request>)
    requires forall request :: request in requests ==> !(request.Change? && request.add)
    ensures Exec(env, k, requests).kernel.v4 <= k.v4
    decreases |requests|
  {
    hide RuleError;
    if requests != [] {
      var d := ExecOne(env, k, requests[0]);
      assert requests[0] in requests;
      assert d.kernel.v4 <= k.v4;
      if d.ret == 0 {
        DeletesShrink(env, d.kernel, requests[1..]);
      }
    }
  }

  lemma {:induction false} EachOnlyDeletes(env: Env, part: Part, interfaces: seq<string>)
    ensures forall request :: request in EachInterface(env, part, interfaces, false) ==>
              !(request.Change? && request.add)
    decreases |interfaces|
  {
    hide PartItems;
    if interfaces != [] {
      var items := PartItems(env, part, interfaces[0]);
      OnlyDeletes(items, interfaces[0]);
      EachOnlyDeletes(env, part, interfaces[1..]);
    }
  }

  lemma {:induction false} OnlyDeletes(items: seq<Item>, interface: string)
    ensures forall request :: request in ChangeAll(items, false) ==> !(request.Change? && request.add)
    ensures forall request :: request in LookupAndChangeAll(interface, items, false) ==>
              !(request.Change? && request.add)
    decreases |items|
  {
    if items != [] {
      OnlyDeletes(items[1..], interface);
    }
  }

  /** The requests to take users off a VPN start with the rule of the first range on the first interface. */
  lemma FirstDelete(env: Env, netId: nat, ranges: seq<Range>, secure: bool,
                    interfaces: seq<string>) returns (rest: seq<Request>)
    requires ranges != [] && interfaces != []
    ensures EachInterface(env, UsersPart(netId, ranges, secure), interfaces, false) ==
            [Lookup(interfaces[0]),
             Change(false, IpRule(VpnUidRangeRule(TableOf(env, interfaces[0]), ranges[0], secure)))] + rest
    ensures forall request :: request in rest ==> !(request.Change? && request.add)
  {
    var i := interfaces[0];
    var items := UserItems(netId, i, TableOf(env, i), ranges, secure);
    FirstUserItem(netId, i, TableOf(env, i), ranges, secure);
    hide VpnUidRangeRule, UserItems;
    var tail := ChangeAll(items[1..], false);
    var others := EachInterface(env, UsersPart(netId, ranges, secure), interfaces[1..], false);
    rest := tail + others;
    OnlyDeletes(items[1..], i);
    EachOnlyDeletes(env, UsersPart(netId, ranges, secure), interfaces[1..]);
    FrontTwo(Lookup(i), Change(false, items[0]), tail, others);
  }

  lemma FirstUserItem(netId: nat, i: string, table: nat, ranges: seq<Range>, secure: bool)
    requires ranges != []
    ensures var items := UserItems(netId, i, table, ranges, secure);
            items != [] && items[0] == IpRule(VpnUidRangeRule(table, ranges[0], secure))
  {
  }

  lemma FrontTwo<T>(a: T, b: T, tail: seq<T>, others: seq<T>)
    ensures [a] + ([b] + tail) + others == [a, b] + (tail + others)
  {
  }

  /** What becomes of such a command: its first delete goes through exactly if the VPN has the first range. */
  lemma OverRemoval(env: Env, w: World, c: Command)
    requires Quiet(env) && Consistent(env, w) && NamesFit(w.ctl) && CommandFits(c) && TakesTooMuch(w, c)
    ensures var w' := Step(env, w, c).world;
            && w'.ctl == w.ctl && w'.tethers == w.tethers
            && (c.ranges[0] in w.ctl.networks[c.netId].ranges ==> w'.kernel.v4 != w.kernel.v4)
            && (c.ranges[0] !in w.ctl.networks[c.netId].ranges ==>
                  w'.kernel.v4 == w.kernel.v4 && w'.kernel.v6 == w.kernel.v6)
  {
    hide InSync, TablesCached, FlagsMatch, InterfacesDisjoint, InterfacesDistinct, RangesWellformed, EachInterface,
         Exec,
         RuleError, VpnUidRangeRule, Quiet;
    var n, i := w.ctl.networks[c.netId], w.ctl.networks[c.netId].interfaces[0];
    if Step(env, w, c).ret == 0 {
      SuccessWasAllowed(env, w, c);
    }
    var x := IpRule(VpnUidRangeRule(TableOf(env, i), c.ranges[0], n.secure));
    var rest := FirstDelete(env, c.netId, c.ranges, n.secure, n.interfaces);
    UidRuleCount(env, w, c.netId, i, c.ranges[0]);
    SameKernels(env, w);
    FirstAccepted(env, c.netId, c.ranges, n.secure, i);
    FirstDeleteDecides(env, w.kernel, i, x, rest);
  }

  lemma FirstAccepted(env: Env, netId: nat, ranges: seq<Range>, secure: bool, i: string)
    requires Wellformed(ranges) && ranges != [] && Fits(i)
    ensures RuleError(VpnUidRangeRule(TableOf(env, i), ranges[0], secure)) == 0
  {
    hide RuleError, Fits;
    var x := IpRule(VpnUidRangeRule(TableOf(env, i), ranges[0], secure));
    assert x == PartItems(env, UsersPart(netId, ranges, secure), i)[0];
    PartItemAccepted(env, UsersPart(netId, ranges, secure), i, x);
  }

  lemma SameKernels(env: Env, w: World)
    requires InSync(env, w)
    ensures w.kernel.v4 == w.kernel.v6
  {
  }

  lemma FirstDeleteDecides(env: Env, k: Kernel, i: string, x: Item, rest: seq<Request>)
    requires Quiet(env) && k.v4 == k.v6 && (x.IpRule? ==> RuleError(x.rule) == 0)
    requires x.IpRule? && forall request :: request in rest ==> !(request.Change? && request.add)
    ensures var d := Exec(env, k, [Lookup(i), Change(false, x)] + rest);
            && (x in k.v4 ==> d.kernel.v4 != k.v4)
            && (x !in k.v4 ==> d.kernel.v4 == k.v4 && d.kernel.v6 == k.v6)
  {
    hide RuleError;
    var requests := [Lookup(i), Change(false, x)] + rest;
    assert requests[1..] == [Change(false, x)] + rest && requests[1..][1..] == rest;
    var d := ExecOne(env, k, Lookup(i));
    var d' := ExecOne(env, d.kernel, Change(false, x));
    assert d.ret == 0 && d.kernel.v4 == k.v4 && d.kernel.v6 == k.v6;
    assert Exec(env, k, requests) == Exec(env, d.kernel, requests[1..]);
    if x in k.v4 {
      DeletesShrink(env, d'.kernel, rest);
      assert d'.ret == 0 && d'.kernel.v4 == k.v4 - multiset{x};
      var last := Exec(env, d'.kernel, rest).kernel.v4;
      assert last <= k.v4 - multiset{x};
      assert last[x] < k.v4[x];
    } else {
      assert d'.ret != 0 && d'.kernel.v4 == k.v4 && d'.kernel.v6 == k.v6;
    }
  }

  lemma {:induction false} PermissionsKeep(env: Env, w: World, permission: Permission, netIds: seq<nat>)
    requires Quiet(env) && Consistent(env, w) && NamesFit(w.ctl)
    ensures var w' := SetNetworkPermissions(env, w, permission, netIds).world;
            Consistent(env, w') && NamesFit(w'.ctl)
    decreases |netIds|
  {
    hide Consistent, SetPermission, NamesFit, Quiet;
    if netIds != [] && netIds[0] in w.ctl.networks && w.ctl.networks[netIds[0]].Physical? {
      PermissionKeeps(env, w, netIds[0], permission);
      PermissionsKeep(env, SetPermission(env, w, netIds[0], permission).world, permission, netIds[1..]);
    }
  }

  lemma UntetherRefused(env: Env, w: World, input: string, output: string)
    requires Quiet(env) && Consistent(env, w) && Fits(input) && Tethered(env, input, output) !in w.tethers
    ensures var o := Tether(env, w, input, output, false);
            && o.ret != 0 && o.world.ctl == w.ctl && o.world.tethers == w.tethers
            && o.world.kernel.v4 == w.kernel.v4 && o.world.kernel.v6 == w.kernel.v6
  {
    hide InitItems, ControllerItems, AreTethering, TablesCached, FlagsMatch, RuleError, Consistent;
    var x := Tethered(env, input, output);
    if x in w.kernel.v4 {
      TetherWasThere(env, w, x);
    }
    var requests := [Lookup(output), Change(false, x)];
    assert requests[1..] == [Change(false, x)];
    var d := ExecOne(env, w.kernel, Lookup(output));
    var d' := ExecOne(env, d.kernel, Change(false, x));
    assert d.ret == 0 && d.kernel.v4 == w.kernel.v4 && d.kernel.v6 == w.kernel.v6;
    assert d'.ret != 0 && d'.kernel.v4 == w.kernel.v4 && d'.kernel.v6 == w.kernel.v6;
    assert Exec(env, w.kernel, requests) == Exec(env, d.kernel, requests[1..]) == d';
    assert x == IpRule(TetheringRule(input, TableOf(env, output)));
  }

  /** Every other refusal keeps everything in step. */
  lemma RefusalsKeepConsistent(env: Env, w: World, c: Command)
    requires Quiet(env) && Consistent(env, w) && NamesFit(w.ctl) && CommandFits(c) && Step(env, w, c).ret != 0
    ensures Consistent(env, Step(env, w, c).world) <==> !Breaks(w, c)
    ensures NamesFit(Step(env, w, c).world.ctl)
  {
    hide Expected, TablesCached, Exec, Attach, Detach, SetDefault, Destroy, SetNetworkPermissions, ChangeUsers, Tether,
         NamesFit, Quiet,
         NetworkForInterface, InterfacesDisjoint, InterfacesDistinct, RangesWellformed, FallthroughRequests,
         WithPermission, Fits,
         PhysicalNet, AreTethering;
    StepSafe(env, w, c);
    if Allowed(env, w, c) {
      AllowedSucceeds(env, w, c);
    }
    match c {
      case SetDefaultNetwork(netId) => DefaultRefused(env, w, netId);
      case AddInterfaceToNetwork(netId, interface) => OwnerFree(w.ctl, netId, interface);
      case SetPermissionForNetworks(permission, netIds) => PermissionsKeep(env, w, permission, netIds);
      case DestroyNetwork(netId) => DestroyRefused(env, w, netId);
      case DisableTethering(input, output) => UntetherRefused(env, w, input, output);
      case RemoveUsersFromNetwork(_, _) => if TakesTooMuch(w, c) { OverRemoval(env, w, c); }
      case _ =>
    }
  }

  lemma DefaultRefused(env: Env, w: World, netId: nat)
    requires netId != NETID_UNSET && !PhysicalNet(w.ctl, netId)
    ensures SetDefault(env, w, netId).world == w
  {
    hide AddAsDefault, RemoveAsDefault;
  }

  lemma DestroyRefused(env: Env, w: World, netId: nat)
    requires netId !in w.ctl.networks || netId == LOCAL_NET_ID
    ensures Destroy(env, w, netId).world == w
  {
  }

  /** On a kernel that refuses nothing, every history of commands whose names fit and that contains no such removal
      stays consistent, whether the commands are allowed or not. */
  lemma {:induction false} HistoryStaysConsistent(env: Env, states: seq<World>, commands: seq<Command>, t: nat)
    requires Quiet(env) && IsHistory(env, states, commands) && t < |states|
    requires Consistent(env, states[0]) && NamesFit(states[0].ctl)
    requires forall k :: 0 <= k < |commands| ==> CommandFits(commands[k]) && !Breaks(states[k], commands[k])
    ensures Consistent(env, states[t]) && NamesFit(states[t].ctl)
    ensures forall k :: 0 <= k < t ==>
              (Step(env, states[k], commands[k]).ret == 0 <==> Allowed(env, states[k], commands[k]))
  {
    hide Step, Consistent, NamesFit, Quiet, Allowed, CommandFits, Breaks, Safe;
    if t > 0 {
      HistoryStaysConsistent(env, states, commands, t - 1);
      var w, c := states[t - 1], commands[t - 1];
      assert Step(env, w, c).world == states[t];
      CommandsSucceedIfAllowed(env, w, c);
      if Step(env, w, c).ret == 0 {
        assert ValidCommand(c);
        StepConsistent(env, w, c);
        NamesKeepFitting(env, w, c);
      } else {
        RefusalsKeepConsistent(env, w, c);
      }
    }
  }
}
