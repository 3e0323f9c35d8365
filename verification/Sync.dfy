/** While every command succeeds, the kernel's rules are a function of the controller's state. */
module Sync {
  import opened Fwmarks
  import opened Kernels
  import opened Sums
  import opened Rules
  import opened Controllers
  import opened Safety

  // ----- The rules a controller state calls for -----

  function NetworkItems(env: Env, vpns: seq<nat>, netId: nat, n: Network): multiset<Item> {
    TwoSums(n.interfaces, Share(env, MainPart(netId, n)), Share(env, ExtraPart(vpns, n)), IsDefault(n))
  }

  function NetworkShare(env: Env, vpns: seq<nat>, networks: map<nat, Network>): nat -> multiset<Item> {
    id => if id in networks then NetworkItems(env, vpns, id, networks[id]) else multiset{}
  }

  function ControllerItems(env: Env, networks: map<nat, Network>): multiset<Item> {
    SumBelow(NET_ID_BOUND, NetworkShare(env, VpnsBelow(networks, NET_ID_BOUND), networks))
  }

  /** The rules of start-up, of every network, and of tethering. */
  function Expected(env: Env, networks: map<nat, Network>, tethers: multiset<Item>): multiset<Item> {
    multiset(InitItems()) + ControllerItems(env, networks) + tethers
  }

  ghost predicate AreTethering(items: multiset<Item>) {
    forall x :: x in items ==> x.IpRule? && x.rule.iif.Some? && x.rule == TetheringRule(x.rule.iif.value, x.rule.table)
  }

  ghost predicate InSync(env: Env, w: World) {
    && w.kernel.v4 == Expected(env, w.ctl.networks, w.tethers)
    && w.kernel.v6 == Expected(env, w.ctl.networks, w.tethers)
    && AreTethering(w.tethers)
  }

  /** Only the default network carries default rules. */
  ghost predicate FlagsMatch(ctl: Controller) {
    forall id :: id in ctl.networks && ctl.networks[id].Physical? ==>
      (ctl.networks[id].isDefault <==> id == ctl.defaultNetId)
  }

  ghost predicate Consistent(env: Env, w: World) {
    ValidEnv(env) && Safe(env, w) && InSync(env, w) && FlagsMatch(w.ctl)
  }

  // ----- How the sums react to changes -----

  lemma {:induction false} SumInsert(names: seq<string>, name: string, f: string -> multiset<Item>)
    ensures Sum(InsertName(names, name), f) == Sum(names, f) + f(name)
  {
    var inserted := InsertName(names, name);
    if names == [] || NameLess(name, names[0]) {
      assert inserted[1..] == names;
    } else {
      assert inserted[0] == names[0] && inserted[1..] == InsertName(names[1..], name);
      SumInsert(names[1..], name, f);
    }
  }

  lemma {:induction false} SumErase(names: seq<string>, name: string, f: string -> multiset<Item>)
    requires name in names
    ensures Sum(names, f) == Sum(EraseName(names, name), f) + f(name)
  {
    if names[0] != name {
      var erased := EraseName(names, name);
      assert erased[0] == names[0] && erased[1..] == EraseName(names[1..], name);
      SumErase(names[1..], name, f);
    }
  }

  function TwoSums(names: seq<string>, f: string -> multiset<Item>, g: string -> multiset<Item>,
                   both: bool): multiset<Item> {
    Sum(names, f) + if both then Sum(names, g) else multiset{}
  }

  lemma TwoSumsInsert(names: seq<string>, name: string, f: string -> multiset<Item>, g: string -> multiset<Item>,
                      both: bool)
    ensures TwoSums(InsertName(names, name), f, g, both) ==
            TwoSums(names, f, g, both) + (f(name) + if both then g(name) else multiset{})
  {
    SumInsert(names, name, f);
    SumInsert(names, name, g);
  }

  lemma TwoSumsErase(names: seq<string>, name: string, f: string -> multiset<Item>, g: string -> multiset<Item>,
                     both: bool)
    requires name in names
    ensures TwoSums(EraseName(names, name), f, g, both) + (f(name) + if both then g(name) else multiset{}) ==
            TwoSums(names, f, g, both)
  {
    SumErase(names, name, f);
    SumErase(names, name, g);
  }

  /** The networks agree except on `id`. */
  ghost predicate AgreeExcept(networks: map<nat, Network>, networks': map<nat, Network>, id: nat) {
    forall i :: i != id ==> (i in networks <==> i in networks') && (i in networks ==> networks[i] == networks'[i])
  }

  lemma SharesAgree(env: Env, vpns: seq<nat>, networks: map<nat, Network>, networks': map<nat, Network>, id: nat)
    requires AgreeExcept(networks, networks', id)
    ensures forall i :: i != id ==> NetworkShare(env, vpns, networks')(i) == NetworkShare(env, vpns, networks)(i)
  {
  }

  lemma {:induction false} VpnsUnchanged(networks: map<nat, Network>, networks': map<nat, Network>, bound: nat)
    requires forall i :: (i in networks && networks[i].Virtual?) <==> (i in networks' && networks'[i].Virtual?)
    ensures VpnsBelow(networks', bound) == VpnsBelow(networks, bound)
  {
    if bound > 0 {
      VpnsUnchanged(networks, networks', bound - 1);
    }
  }

  lemma {:induction false} FallthroughConcat(a: seq<nat>, b: seq<nat>, table: nat, permission: Permission)
    ensures FallthroughItems(a + b, table, permission) == FallthroughItems(a, table, permission) +
              FallthroughItems(b, table, permission)
  {
    if a == [] {
      assert a + b == b;
    } else {
      assert (a + b)[0] == a[0] && (a + b)[1..] == a[1..] + b;
      FallthroughConcat(a[1..], b, table, permission);
    }
  }

  /** A new VPN appears somewhere in the ascending list of VPNs. */
  lemma {:induction false} VpnInserted(networks: map<nat, Network>, networks': map<nat, Network>, vpn: nat, bound: nat)
    returns (before: seq<nat>, after: seq<nat>)
    requires vpn !in networks && vpn in networks' && networks'[vpn].Virtual? && AgreeExcept(networks, networks', vpn)
    ensures VpnsBelow(networks, bound) == before + after
    ensures VpnsBelow(networks', bound) == if vpn < bound then before + [vpn] + after else before + after
  {
    if bound == 0 {
      before, after := [], [];
    } else {
      before, after := VpnInserted(networks, networks', vpn, bound - 1);
      if bound - 1 in networks && networks[bound - 1].Virtual? {
        after := after + [bound - 1];
      } else if bound - 1 == vpn {
        before, after := before + after, [];
      }
    }
  }

  /** The default rules of an interface with one more VPN. */
  lemma DefaultWithOneMore(env: Env, before: seq<nat>, after: seq<nat>, vpn: nat, permission: Permission, i: string)
    ensures Share(env, DefaultPart(before + [vpn] + after, permission))(i) ==
            Share(env, DefaultPart(before + after, permission))(i) + Share(env, FallthroughPart(vpn, permission))(i)
  {
    hide FallthroughItems, VpnFallthroughRule, DefaultNetworkRule;
    var table := TableOf(env, i);
    FallthroughSplit(before, vpn, after, table, permission);
    InsertedInMultiset([IpRule(DefaultNetworkRule(table, permission))], FallthroughItems(before, table, permission),
                       IpRule(VpnFallthroughRule(vpn, table, permission)), FallthroughItems(after, table, permission));
  }

  lemma FallthroughSplit(before: seq<nat>, vpn: nat, after: seq<nat>, table: nat, permission: Permission)
    ensures FallthroughItems(before + after, table, permission) ==
            FallthroughItems(before, table, permission) + FallthroughItems(after, table, permission)
    ensures FallthroughItems(before + [vpn] + after, table, permission) ==
            (FallthroughItems(before, table, permission) + [IpRule(VpnFallthroughRule(vpn, table, permission))]) +
            FallthroughItems(after, table, permission)
  {
    hide VpnFallthroughRule;
    FallthroughConcat(before + [vpn], after, table, permission);
    FallthroughConcat(before, [vpn], table, permission);
    FallthroughConcat(before, after, table, permission);
    assert FallthroughItems([vpn], table, permission) == [IpRule(VpnFallthroughRule(vpn, table, permission))] by {
      assert [vpn][1..] == [];
    }
  }

  lemma InsertedInMultiset(first: seq<Item>, a: seq<Item>, x: Item, b: seq<Item>)
    ensures multiset(first + ((a + [x]) + b)) == multiset(first + (a + b)) + multiset([x])
  {
    assert first + ((a + [x]) + b) == first + a + [x] + b;
    assert first + (a + b) == first + a + b;
  }

  // ----- Membership -----

  /** `x` is a rule that network `id` has for its interface `i`. */
  predicate IsRuleOf(env: Env, vpns: seq<nat>, id: nat, n: Network, i: string, x: Item) {
    i in n.interfaces &&
    (x in Share(env, MainPart(id, n))(i) || (IsDefault(n) && x in Share(env, ExtraPart(vpns, n))(i)))
  }

  ghost predicate HasRule(env: Env, vpns: seq<nat>, networks: map<nat, Network>, id: nat, x: Item) {
    id in networks && exists i :: IsRuleOf(env, vpns, id, networks[id], i, x)
  }

  lemma InNetworkShare(env: Env, vpns: seq<nat>, networks: map<nat, Network>, id: nat, x: Item)
    ensures x in NetworkShare(env, vpns, networks)(id) <==> HasRule(env, vpns, networks, id, x)
  {
    hide Share, Sum;
    if id in networks {
      var n := networks[id];
      var f, g, both := Share(env, MainPart(id, n)), Share(env, ExtraPart(vpns, n)), IsDefault(n);
      InTwoSums(n.interfaces, f, g, both, x);
      if x in NetworkItems(env, vpns, id, n) {
        var i :| i in n.interfaces && (x in f(i) || (both && x in g(i)));
        assert IsRuleOf(env, vpns, id, n, i, x);
      }
    }
  }

  /** Every rule outside start-up and tethering belongs to one interface of one network. */
  lemma InControllerItems(env: Env, ctl: Controller, x: Item)
    requires NetIdsFit(ctl)
    ensures x in ControllerItems(env, ctl.networks) <==> exists id :: HasRule(env, Vpns(ctl), ctl.networks, id, x)
  {
    hide IsRuleOf, SumBelow;
    var g := NetworkShare(env, Vpns(ctl), ctl.networks);
    InSumBelow(NET_ID_BOUND, g, x);
    forall id: nat ensures x in g(id) <==> HasRule(env, Vpns(ctl), ctl.networks, id, x) {
      InNetworkShare(env, Vpns(ctl), ctl.networks, id, x);
    }
  }

  // ----- Operations keep the kernel in sync -----

  lemma PerformSync(env: Env, w: World, requests: seq<Request>, ctl: Controller)
    requires InSync(env, w) && Perform(env, w, requests, ctl).ret == 0
    requires ControllerItems(env, ctl.networks) + Changed(requests, false) == ControllerItems(env, w.ctl.networks) +
               Changed(requests, true)
    ensures InSync(env, Perform(env, w, requests, ctl).world)
  {
    hide InitItems, SumBelow, ControllerItems, Changed, AreTethering;
    var w' := Perform(env, w, requests, ctl).world;
    ExecBalance(env, w.kernel, requests);
    Rebalance(multiset(InitItems()), w.tethers, ControllerItems(env, w.ctl.networks),
              ControllerItems(env, ctl.networks),
              Changed(requests, true), Changed(requests, false), w'.kernel.v4);
    Rebalance(multiset(InitItems()), w.tethers, ControllerItems(env, w.ctl.networks),
              ControllerItems(env, ctl.networks),
              Changed(requests, true), Changed(requests, false), w'.kernel.v6);
  }

  lemma Rebalance<T>(a: multiset<T>, b: multiset<T>, s: multiset<T>, s': multiset<T>, inn: multiset<T>,
                     out: multiset<T>, v: multiset<T>)
    requires s' + out == s + inn && v + out == (a + s + b) + inn
    ensures v == a + s' + b
  {
    assert (a + s + b) + inn == a + b + (s + inn);
    assert a + b + (s' + out) == (a + s' + b) + out;
    Cancel(v, a + s' + b, out);
  }

  /** Changing one network without changing which networks are VPNs. */
  lemma PerformSyncAt(env: Env, w: World, requests: seq<Request>, netId: nat, n: Network)
    requires InSync(env, w) && netId in w.ctl.networks && netId < NET_ID_BOUND
    requires Perform(env, w, requests, Updated(w.ctl, netId, n)).ret == 0
    requires n.Virtual? == w.ctl.networks[netId].Virtual?
    requires NetworkItems(env, Vpns(w.ctl), netId, n) + Changed(requests, false) ==
             NetworkItems(env, Vpns(w.ctl), netId, w.ctl.networks[netId]) + Changed(requests, true)
    ensures InSync(env, Perform(env, w, requests, Updated(w.ctl, netId, n)).world)
  {
    hide Exec, NetworkItems, SumBelow, VpnsBelow, Changed, AreTethering;
    var networks, networks', vpns := w.ctl.networks, w.ctl.networks[netId := n], Vpns(w.ctl);
    VpnsUnchanged(networks, networks', NET_ID_BOUND);
    var g, g' := NetworkShare(env, vpns, networks), NetworkShare(env, vpns, networks');
    SharesAgree(env, vpns, networks, networks', netId);
    SumBelowUpdate(NET_ID_BOUND, g, g', netId);
    Exchange(SumBelow(NET_ID_BOUND, g), SumBelow(NET_ID_BOUND, g'), g(netId), g'(netId), Changed(requests, true),
             Changed(requests, false));
    PerformSync(env, w, requests, Updated(w.ctl, netId, n));
  }

  lemma Exchange<T>(s: multiset<T>, s': multiset<T>, part: multiset<T>, part': multiset<T>, inn: multiset<T>,
                    out: multiset<T>)
    requires s' + part == s + part' && part' + out == part + inn
    ensures s' + out == s + inn
  {
    assert (s' + out) + part == (s' + part) + out;
    assert (s + part') + out == s + (part' + out);
    assert s + (part + inn) == (s + inn) + part;
    Cancel(s' + out, s + inn, part);
  }

  lemma DefaultFlagSync(env: Env, w: World, netId: nat)
    requires InSync(env, w) && Safe(env, w) && netId in w.ctl.networks && w.ctl.networks[netId].Physical?
    ensures AddAsDefault(env, w, netId).ret == 0 ==> InSync(env, AddAsDefault(env, w, netId).world)
    ensures RemoveAsDefault(env, w, netId).ret == 0 ==> InSync(env, RemoveAsDefault(env, w, netId).world)
  {
    hide InSync, Exec, EachInterface, Share, Changed, TablesCached, InterfacesDisjoint, InterfacesDistinct,
         RangesWellformed, DefaultIsPhysical;
    var n := w.ctl.networks[netId];
    var part := DefaultPart(Vpns(w.ctl), n.permission);
    if !n.isDefault && AddAsDefault(env, w, netId).ret == 0 {
      EachInterfaceChanges(env, part, n.interfaces, true);
      PerformSyncAt(env, w, EachInterface(env, part, n.interfaces, true), netId, n.(isDefault := true));
    }
    if n.isDefault && RemoveAsDefault(env, w, netId).ret == 0 {
      EachInterfaceChanges(env, part, n.interfaces, false);
      PerformSyncAt(env, w, EachInterface(env, part, n.interfaces, false), netId, n.(isDefault := false));
    }
  }

  lemma SetPermissionSync(env: Env, w: World, netId: nat, permission: Permission)
    requires InSync(env, w) && Safe(env, w) && netId in w.ctl.networks && w.ctl.networks[netId].Physical?
    ensures SetPermission(env, w, netId, permission).ret == 0 ==>
              InSync(env, SetPermission(env, w, netId, permission).world)
  {
    hide InSync, Exec, NetworkItems, SetPermissionRequests, Changed, TablesCached, InterfacesDisjoint,
         InterfacesDistinct, RangesWellformed, DefaultIsPhysical;
    var n, vpns := w.ctl.networks[netId], Vpns(w.ctl);
    if permission != n.permission && SetPermission(env, w, netId, permission).ret == 0 {
      SetPermissionChanges(env, vpns, netId, n, permission);
      var old', new' := NetworkItems(env, vpns, netId, n), NetworkItems(env, vpns, netId, n.(permission := permission));
      assert new' + old' == old' + new';
      PerformSyncAt(env, w, SetPermissionRequests(env, vpns, netId, n, permission), netId,
                    n.(permission := permission));
    }
  }

  lemma SetPermissionChanges(env: Env, vpns: seq<nat>, netId: nat, n: Network, permission: Permission)
    requires n.Physical?
    ensures var requests := SetPermissionRequests(env, vpns, netId, n, permission);
            && Changed(requests, true) == NetworkItems(env, vpns, netId, n.(permission := permission))
            && Changed(requests, false) == NetworkItems(env, vpns, netId, n)
  {
    hide EachSwap, Share;
    var new', old' := PhysicalPart(netId, permission), PhysicalPart(netId, n.permission);
    var newDefault, oldDefault := DefaultPart(vpns, permission), DefaultPart(vpns, n.permission);
    EachSwapChanges(env, new', old', n.interfaces);
    EachSwapChanges(env, newDefault, oldDefault, n.interfaces);
    ChangedBoth(EachSwap(env, new', old', n.interfaces),
                if n.isDefault then EachSwap(env, newDefault, oldDefault, n.interfaces) else []);
  }

  lemma ChangedBoth(a: seq<Request>, b: seq<Request>)
    ensures Changed(a + b, true) == Changed(a, true) + Changed(b, true)
    ensures Changed(a + b, false) == Changed(a, false) + Changed(b, false)
  {
    ChangedConcat(a, b, true);
    ChangedConcat(a, b, false);
  }

  lemma AttachSync(env: Env, w: World, netId: nat, interface: string)
    requires InSync(env, w) && Safe(env, w) && netId in w.ctl.networks && Attach(env, w, netId, interface).ret == 0
    ensures InSync(env, Attach(env, w, netId, interface).world)
    ensures FlagsMatch(w.ctl) ==> FlagsMatch(Attach(env, w, netId, interface).world.ctl)
  {
    hide InSync, Exec, NetworkItems, AttachRequests, Changed, TablesCached, InterfacesDisjoint, InterfacesDistinct,
         RangesWellformed, DefaultIsPhysical;
    var n, vpns := w.ctl.networks[netId], Vpns(w.ctl);
    if interface !in n.interfaces {
      AttachChanges(env, vpns, netId, n, interface);
      PerformSyncAt(env, w, AttachRequests(env, vpns, netId, n, interface), netId,
                    n.(interfaces := InsertName(n.interfaces, interface)));
    }
  }

  lemma PartShare(env: Env, part: Part, interface: string, add: bool)
    ensures Changed(PartRequests(env, part, interface, add), add) == Share(env, part)(interface)
    ensures Changed(PartRequests(env, part, interface, add), !add) == multiset{}
  {
    PartChanges(env, part, interface, add);
  }

  lemma AttachChanges(env: Env, vpns: seq<nat>, netId: nat, n: Network, interface: string)
    ensures var requests := AttachRequests(env, vpns, netId, n, interface);
            && Changed(requests, false) == multiset{}
            && NetworkItems(env, vpns, netId, n.(interfaces := InsertName(n.interfaces, interface))) ==
               NetworkItems(env, vpns, netId, n) + Changed(requests, true)
  {
    hide PartRequests, Share;
    var a, b := MainPart(netId, n), ExtraPart(vpns, n);
    TwoSumsInsert(n.interfaces, interface, Share(env, a), Share(env, b), IsDefault(n));
    PartShare(env, a, interface, true);
    PartShare(env, b, interface, true);
    var second := if IsDefault(n) then PartRequests(env, b, interface, true) else [];
    ChangedBoth(PartRequests(env, a, interface, true), second);
  }

  lemma DetachSync(env: Env, w: World, netId: nat, interface: string)
    requires InSync(env, w) && Safe(env, w) && netId in w.ctl.networks && Detach(env, w, netId, interface).ret == 0
    ensures InSync(env, Detach(env, w, netId, interface).world)
    ensures FlagsMatch(w.ctl) ==> FlagsMatch(Detach(env, w, netId, interface).world.ctl)
  {
    hide InSync, Exec, NetworkItems, DetachRequests, Changed, TablesCached, InterfacesDisjoint, InterfacesDistinct,
         RangesWellformed, DefaultIsPhysical;
    var n, vpns := w.ctl.networks[netId], Vpns(w.ctl);
    if interface in n.interfaces {
      DetachChanges(env, vpns, netId, n, interface);
      PerformSyncAt(env, w, DetachRequests(env, vpns, netId, n, interface), netId,
                    n.(interfaces := EraseName(n.interfaces, interface)));
    }
  }

  lemma ChangedInOrder(a: seq<Request>, b: seq<Request>, c: seq<Request>)
    ensures Changed(a + b + c, true) == Changed(a, true) + Changed(b, true) + Changed(c, true)
    ensures Changed(a + b + c, false) == Changed(a, false) + Changed(b, false) + Changed(c, false)
  {
    ChangedTriple(a, b, c, true);
    ChangedTriple(a, b, c, false);
  }

  lemma DetachChanges(env: Env, vpns: seq<nat>, netId: nat, n: Network, interface: string)
    requires interface in n.interfaces
    ensures var requests := DetachRequests(env, vpns, netId, n, interface);
            && Changed(requests, true) == multiset{}
            && NetworkItems(env, vpns, netId, n.(interfaces := EraseName(n.interfaces, interface))) +
                 Changed(requests, false) ==
               NetworkItems(env, vpns, netId, n)
  {
    hide Share, Changed, DetachRequests;
    var a, b := MainPart(netId, n), ExtraPart(vpns, n);
    TwoSumsErase(n.interfaces, interface, Share(env, a), Share(env, b), IsDefault(n));
    DetachedItems(env, vpns, netId, n, interface);
  }

  lemma DetachedItems(env: Env, vpns: seq<nat>, netId: nat, n: Network, interface: string)
    ensures var requests := DetachRequests(env, vpns, netId, n, interface);
            && Changed(requests, true) == multiset{}
            && Changed(requests, false) == Share(env, MainPart(netId, n))(interface) +
                 if IsDefault(n) then Share(env, ExtraPart(vpns, n))(interface) else multiset{}
  {
    hide PartRequests, Share, Changed;
    var a, b := MainPart(netId, n), ExtraPart(vpns, n);
    PartShare(env, a, interface, false);
    PartShare(env, b, interface, false);
    FlushChangesNothing(interface);
    ChangedInOrder(if IsDefault(n) then PartRequests(env, b, interface, false) else [],
                   PartRequests(env, a, interface, false), if n.Local? then [] else [Flush(interface)]);
  }

  lemma FlushChangesNothing(interface: string)
    ensures forall add :: Changed([Flush(interface)], add) == multiset{} && Changed([], add) == multiset{}
  {
    assert [Flush(interface)][1..] == [];
  }
}
