/** What holds in the middle of a command and after it failed: after any number of its requests, in either address
    family. */
module Transitions {
  import opened Fwmarks
  import opened Kernels
  import opened Sums
  import opened Rules
  import opened Controllers
  import opened Safety
  import opened Sync
  import opened SyncRuns
  import opened Routing

  // ----- Prefixes of request lists -----

  lemma {:induction false} ChangedPrefix(requests: seq<Request>, n: nat, m: nat, add: bool)
    requires n <= m <= |requests|
    ensures Changed(requests[..n], add) <= Changed(requests[..m], add)
  {
    hide Changed;
    ChangedConcat(requests[..n], requests[n..m], add);
    assert requests[..m] == requests[..n] + requests[n..m];
  }

  /** A deleted rule's interface already has all its new rules. */
  ghost predicate Replaced(env: Env, new': Part, old': Part, interfaces: seq<string>, x: Item, added: multiset<Item>) {
    exists i :: i in interfaces && x in Share(env, old')(i) && Share(env, new')(i) <= added
  }

  lemma {:induction false} SwapPrefix(env: Env, new': Part, old': Part, interfaces: seq<string>, n: nat, x: Item)
    requires n <= |EachSwap(env, new', old', interfaces)|
    requires x in Changed(EachSwap(env, new', old', interfaces)[..n], false)
    ensures Replaced(env, new', old', interfaces, x, Changed(EachSwap(env, new', old', interfaces)[..n], true))
  {
    hide PartRequests, Share, Changed;
    if interfaces == [] {
      ChangedNothing();
    } else {
      var i := interfaces[0];
      var a, b := PartRequests(env, new', i, true), PartRequests(env, old', i, false);
      var rest := EachSwap(env, new', old', interfaces[1..]);
      var all := EachSwap(env, new', old', interfaces);
      assert all == a + b + rest;
      PartShare(env, new', i, true);
      PartShare(env, old', i, false);
      if n <= |a| {
        assert all[..n] == a[..n];
        NotYet(a, n, x);
      } else if n <= |a| + |b| {
        assert all[..n] == a + b[..n - |a|];
        FirstBlock(a, b, n - |a|, x);
      } else {
        var m := n - |a| - |b|;
        assert all[..n] == a + b + rest[..m];
        if x in Changed(rest[..m], false) {
          SwapPrefix(env, new', old', interfaces[1..], m, x);
        }
        LaterBlock(env, new', old', interfaces, a, b, rest[..m], x);
      }
    }
  }

  lemma LaterBlock(env: Env, new': Part, old': Part, interfaces: seq<string>,
                   a: seq<Request>, b: seq<Request>, c: seq<Request>, x: Item)
    requires interfaces != [] && x in Changed(a + b + c, false)
    requires Changed(a, true) == Share(env, new')(interfaces[0]) && Changed(a, false) == multiset{}
    requires Changed(b, true) == multiset{} && Changed(b, false) == Share(env, old')(interfaces[0])
    requires x in Changed(c, false) ==> Replaced(env, new', old', interfaces[1..], x, Changed(c, true))
    ensures Replaced(env, new', old', interfaces, x, Changed(a + b + c, true))
  {
    hide Share, Changed;
    ChangedTriple(a, b, c, true);
    ChangedTriple(a, b, c, false);
    if x in Changed(c, false) {
      var j :| j in interfaces[1..] && x in Share(env, old')(j) && Share(env, new')(j) <= Changed(c, true);
      assert j in interfaces;
    }
  }

  lemma ChangedNothing()
    ensures Changed([], true) == multiset{} && Changed([], false) == multiset{}
  {
  }

  lemma NotYet(a: seq<Request>, n: nat, x: Item)
    requires n <= |a| && Changed(a, false) == multiset{}
    ensures x !in Changed(a[..n], false)
  {
    hide Changed;
    ChangedPrefix(a, n, |a|, false);
    assert a[..|a|] == a;
  }

  lemma FirstBlock(a: seq<Request>, b: seq<Request>, m: nat, x: Item)
    requires m <= |b| && Changed(a, false) == multiset{} && x in Changed(a + b[..m], false)
    ensures x in Changed(b, false) && Changed(a, true) <= Changed(a + b[..m], true)
  {
    hide Changed;
    ChangedConcat(a, b[..m], true);
    ChangedConcat(a, b[..m], false);
    ChangedPrefix(b, m, |b|, false);
    assert b[..|b|] == b;
  }

  // ----- A permission change -----

  /** The rules of these roles differ from those under another permission in the permission bits only. */
  predicate PermissionPart(part: Part) { part.PhysicalPart? || part.DefaultPart? }

  function UnderPermission(part: Part, permission: Permission): Part
    requires PermissionPart(part)
  {
    if part.PhysicalPart? then PhysicalPart(part.netId, permission) else DefaultPart(part.vpns, permission)
  }

  lemma PartPermission(env: Env, part: Part, i: string, r: Rule)
    requires PermissionPart(part) && IpRule(r) in Share(env, part)(i)
    ensures r.mask.permission == part.permission
  {
    ShareMember(env, part, i, IpRule(r));
    if part.DefaultPart? {
      FallthroughItemsAre(part.vpns, TableOf(env, i), part.permission, IpRule(r));
    }
  }

  /** The rule that takes the place of `r` under the new permission. */
  function Counterpart(r: Rule, permission: Permission): Rule {
    r.(fwmark := r.fwmark.(permission := permission), mask := r.mask.(permission := permission))
  }

  lemma CounterpartThere(env: Env, part: Part, permission: Permission, i: string, r: Rule)
    requires PermissionPart(part) && IpRule(r) in Share(env, part)(i)
    ensures IpRule(Counterpart(r, permission)) in Share(env, UnderPermission(part, permission))(i)
    ensures IsSelectorRule(r) && IsSelectorRule(Counterpart(r, permission))
            && r.fwmark.permission == part.permission == r.mask.permission
  {
    hide PartItems, Share, IsSelector, Counterpart;
    var part' := UnderPermission(part, permission);
    ShareMember(env, part, i, IpRule(r));
    ShareMember(env, part', i, IpRule(Counterpart(r, permission)));
    if part.PhysicalPart? {
      PhysicalCounterpart(env, part.netId, part.permission, permission, i, r);
    } else {
      DefaultCounterpart(env, part.vpns, part.permission, permission, i, r);
    }
  }

  lemma PhysicalCounterpart(env: Env, netId: nat, was: Permission, permission: Permission, i: string, r: Rule)
    requires IpRule(r) in PartItems(env, PhysicalPart(netId, was), i)
    ensures IpRule(Counterpart(r, permission)) in PartItems(env, PhysicalPart(netId, permission), i)
    ensures IsSelectorRule(r) && IsSelectorRule(Counterpart(r, permission))
            && r.fwmark.permission == was == r.mask.permission
  {
  }

  lemma DefaultCounterpart(env: Env, vpns: seq<nat>, was: Permission, permission: Permission, i: string, r: Rule)
    requires IpRule(r) in PartItems(env, DefaultPart(vpns, was), i)
    ensures IpRule(Counterpart(r, permission)) in PartItems(env, DefaultPart(vpns, permission), i)
    ensures IsSelectorRule(r) && IsSelectorRule(Counterpart(r, permission))
            && r.fwmark.permission == was == r.mask.permission
  {
    var table := TableOf(env, i);
    FallthroughItemsAre(vpns, table, was, IpRule(r));
    FallthroughItemsAre(vpns, table, permission, IpRule(Counterpart(r, permission)));
    if r != DefaultNetworkRule(table, was) {
      var v :| v in vpns && IpRule(r) == IpRule(VpnFallthroughRule(v, table, was));
      assert Counterpart(r, permission) == VpnFallthroughRule(v, table, permission);
    }
  }

  lemma CounterpartMatches(r: Rule, permission: Permission, p: Packet)
    requires IsSelectorRule(r) && IsSelectorRule(Counterpart(r, permission)) && Matches(r, p)
             && p.mark.permission.Includes(permission)
    ensures Matches(Counterpart(r, permission), p)
  {
    hide Matches;
    MatchesByFields(r, p);
    MatchesByFields(Counterpart(r, permission), p);
  }

  /** A rule with the priority and table of `r` that the packet matches is there. */
  ghost predicate StillServed(items: multiset<Item>, r: Rule, p: Packet) {
    exists r' :: IpRule(r') in items && r'.priority == r.priority && r'.table == r.table && Matches(r', p)
  }

  lemma ServedMidway(env: Env, part: Part, permission: Permission, interfaces: seq<string>, r: Rule, p: Packet,
                     before: multiset<Item>, after: multiset<Item>, added: multiset<Item>, deleted: multiset<Item>)
    requires after + deleted == before + added && PermissionPart(part) && permission != part.permission
    requires IpRule(r) in before && Matches(r, p) && p.mark.permission.Includes(permission)
    requires IpRule(r) in deleted ==>
               Replaced(env, UnderPermission(part, permission), part, interfaces, IpRule(r), added)
    requires forall r' :: IpRule(r') in deleted ==> r'.mask.permission == part.permission
    ensures StillServed(after, r, p)
  {
    hide Matches, Share, PermissionPart;
    if IpRule(r) in deleted {
      var part' := UnderPermission(part, permission);
      var i :| i in interfaces && IpRule(r) in Share(env, part)(i) && Share(env, part')(i) <= added;
      CounterpartThere(env, part, permission, i, r);
      CounterpartMatches(r, permission, p);
      var x := IpRule(Counterpart(r, permission));
      assert x in added && x !in deleted;
      assert (after + deleted)[x] == (before + added)[x];
    } else {
      assert (after + deleted)[IpRule(r)] == (before + added)[IpRule(r)];
    }
  }

  /** The rules a permission change has added and deleted after its first n requests. */
  lemma PermissionPrefix(env: Env, vpns: seq<nat>, netId: nat, net: Network, permission: Permission, n: nat, x: Item)
    requires net.Physical? && n <= |SetPermissionRequests(env, vpns, netId, net, permission)|
    requires x in Changed(SetPermissionRequests(env, vpns, netId, net, permission)[..n], false)
    ensures var added := Changed(SetPermissionRequests(env, vpns, netId, net, permission)[..n], true);
            || Replaced(env, PhysicalPart(netId, permission), PhysicalPart(netId, net.permission), net.interfaces, x,
                        added)
            || (net.isDefault &&
                Replaced(env, DefaultPart(vpns, permission), DefaultPart(vpns, net.permission), net.interfaces, x,
                         added))
  {
    hide EachSwap, Share, Changed;
    var a, a' := PhysicalPart(netId, net.permission), PhysicalPart(netId, permission);
    var b, b' := DefaultPart(vpns, net.permission), DefaultPart(vpns, permission);
    var first := EachSwap(env, a', a, net.interfaces);
    var second := if net.isDefault then EachSwap(env, b', b, net.interfaces) else [];
    var all := first + second;
    if n <= |first| {
      assert all[..n] == first[..n];
      SwapPrefix(env, a', a, net.interfaces, n, x);
    } else {
      var m := n - |first|;
      assert all[..n] == first + second[..m];
      ChangedBoth(first, second[..m]);
      if x in Changed(first, false) {
        assert first[..|first|] == first;
        SwapPrefix(env, a', a, net.interfaces, |first|, x);
      } else {
        SwapPrefix(env, b', b, net.interfaces, m, x);
      }
    }
  }

  lemma ReplacedHadPermission(env: Env, part: Part, permission: Permission, interfaces: seq<string>, r: Rule,
                              added: multiset<Item>)
    requires PermissionPart(part)
             && Replaced(env, UnderPermission(part, permission), part, interfaces, IpRule(r), added)
    ensures r.mask.permission == part.permission
  {
    hide Share;
    var i :| i in interfaces && IpRule(r) in Share(env, part)(i);
    PartPermission(env, part, i, r);
  }

  /** One address family that has seen the first m requests of a permission change. */
  lemma FamilyServes(env: Env, vpns: seq<nat>, netId: nat, net: Network, permission: Permission, m: nat, r: Rule,
                     p: Packet,
                     before: multiset<Item>, after: multiset<Item>)
    requires net.Physical? && permission != net.permission
    requires m <= |SetPermissionRequests(env, vpns, netId, net, permission)|
    requires BalancedBy(before, after, SetPermissionRequests(env, vpns, netId, net, permission)[..m])
    requires IpRule(r) in before && Matches(r, p) && p.mark.permission.Includes(permission)
    ensures StillServed(after, r, p)
  {
    hide SetPermissionRequests, Matches, Replaced, StillServed, Changed;
    var requests := SetPermissionRequests(env, vpns, netId, net, permission)[..m];
    var added, deleted := Changed(requests, true), Changed(requests, false);
    var a, b := PhysicalPart(netId, net.permission), DefaultPart(vpns, net.permission);
    forall r' | IpRule(r') in deleted ensures r'.mask.permission == net.permission {
      PermissionPrefix(env, vpns, netId, net, permission, m, IpRule(r'));
      if Replaced(env, PhysicalPart(netId, permission), a, net.interfaces, IpRule(r'), added) {
        ReplacedHadPermission(env, a, permission, net.interfaces, r', added);
      } else {
        ReplacedHadPermission(env, b, permission, net.interfaces, r', added);
      }
    }
    if IpRule(r) in deleted {
      PermissionPrefix(env, vpns, netId, net, permission, m, IpRule(r));
    }
    var swapped := Replaced(env, PhysicalPart(netId, permission), a, net.interfaces, IpRule(r), added);
    var part := if IpRule(r) in deleted && !swapped then b else a;
    ServedMidway(env, part, permission, net.interfaces, r, p, before, after, added, deleted);
  }

  /** Make before break: after any number of requests of a permission change, and wherever it fails, a packet whose mark
      holds the new permission too still finds a rule in place of every rule that it matched before. */
  lemma PermissionChangeServes(env: Env, w: World, netId: nat, permission: Permission, n: nat, r: Rule, p: Packet)
    requires Consistent(env, w) && netId in w.ctl.networks && w.ctl.networks[netId].Physical?
    requires permission != w.ctl.networks[netId].permission
    requires n <= |SetPermissionRequests(env, Vpns(w.ctl), netId, w.ctl.networks[netId], permission)|
    requires IpRule(r) in w.kernel.v4 && Matches(r, p) && p.mark.permission.Includes(permission)
    ensures var requests := SetPermissionRequests(env, Vpns(w.ctl), netId, w.ctl.networks[netId], permission);
            var k := Exec(env, w.kernel, requests[..n]).kernel;
            StillServed(k.v4, r, p) && StillServed(k.v6, r, p)
  {
    hide Exec, Expected, SetPermissionRequests, Matches, StillServed, BalancedBy, AreTethering, Safe, FlagsMatch, Vpns;
    var net, vpns := w.ctl.networks[netId], Vpns(w.ctl);
    var requests := SetPermissionRequests(env, vpns, netId, net, permission);
    var k := Exec(env, w.kernel, requests[..n]).kernel;
    var m4, m6 := PrefixBalances(env, w.kernel, requests[..n]);
    assert requests[..n][..m4] == requests[..m4] && requests[..n][..m6] == requests[..m6];
    FamilyServes(env, vpns, netId, net, permission, m4, r, p, w.kernel.v4, k.v4);
    FamilyServes(env, vpns, netId, net, permission, m6, r, p, w.kernel.v6, k.v6);
  }

  // ----- A change of default network -----

  /** What setDefaultNetwork() asks for when it moves the default from one network to another. */
  function SwitchRequests(env: Env, ctl: Controller, netId: nat): seq<Request>
    requires netId in ctl.networks && ctl.networks[netId].Physical?
    requires ctl.defaultNetId in ctl.networks && ctl.networks[ctl.defaultNetId].Physical?
  {
    var n, d := ctl.networks[netId], ctl.networks[ctl.defaultNetId];
    EachInterface(env, DefaultPart(Vpns(ctl), n.permission), n.interfaces, true) +
    EachInterface(env, DefaultPart(Vpns(ctl), d.permission), d.interfaces, false)
  }

  lemma SwitchIsSetDefault(env: Env, w: World, netId: nat)
    requires Consistent(env, w) && netId != w.ctl.defaultNetId && w.ctl.defaultNetId != NETID_UNSET
    requires netId in w.ctl.networks && w.ctl.networks[netId].Physical?
    ensures var d := Exec(env, w.kernel, SwitchRequests(env, w.ctl, netId));
            SetDefault(env, w, netId).ret == d.ret && SetDefault(env, w, netId).world.kernel == d.kernel
  {
    hide InSync, TablesCached, InterfacesDisjoint, InterfacesDistinct, RangesWellformed, EachInterface, Exec;
    var n, d, vpns := w.ctl.networks[netId], w.ctl.networks[w.ctl.defaultNetId], Vpns(w.ctl);
    ExecConcat(env, w.kernel, EachInterface(env, DefaultPart(vpns, n.permission), n.interfaces, true),
               EachInterface(env, DefaultPart(vpns, d.permission), d.interfaces, false));
    var w1 := AddAsDefault(env, w, netId).world;
    VpnsUnchanged(w.ctl.networks, w1.ctl.networks, NET_ID_BOUND);
  }

  ghost predicate SomeDefaultRule(items: multiset<Item>) {
    exists r :: IpRule(r) in items && r.priority == PRIORITY_DEFAULT_NETWORK
  }

  lemma DefaultRuleInShare(env: Env, vpns: seq<nat>, permission: Permission, i: string, table: nat, p: Permission)
    ensures IpRule(DefaultNetworkRule(table, p)) in Share(env, DefaultPart(vpns, permission))(i) <==>
            table == TableOf(env, i) && p == permission
  {
    var x := IpRule(DefaultNetworkRule(table, p));
    ShareMember(env, DefaultPart(vpns, permission), i, x);
    FallthroughItemsAre(vpns, TableOf(env, i), permission, x);
  }

  lemma DefaultRuleInSum(env: Env, vpns: seq<nat>, permission: Permission, interfaces: seq<string>, table: nat,
                         p: Permission)
    ensures IpRule(DefaultNetworkRule(table, p)) in Sum(interfaces, Share(env, DefaultPart(vpns, permission))) <==>
            p == permission && exists i :: i in interfaces && table == TableOf(env, i)
  {
    hide Share, DefaultNetworkRule;
    InSum(interfaces, Share(env, DefaultPart(vpns, permission)), IpRule(DefaultNetworkRule(table, p)));
    forall i { DefaultRuleInShare(env, vpns, permission, i, table, p); }
  }

  lemma OldDefaultRuleThere(env: Env, w: World)
    requires Consistent(env, w) && w.ctl.defaultNetId != NETID_UNSET
             && w.ctl.networks[w.ctl.defaultNetId].interfaces != []
    ensures SomeDefaultRule(w.kernel.v4) && SomeDefaultRule(w.kernel.v6)
  {
    hide Expected, TablesCached, InterfacesDisjoint, InterfacesDistinct, RangesWellformed, VpnsBelow;
    var d := w.ctl.defaultNetId;
    var n := w.ctl.networks[d];
    var r := DefaultNetworkRule(TableOf(env, n.interfaces[0]), n.permission);
    assert OwnedRule(env, w.ctl, d, n.interfaces[0], r);
    KernelRules(env, w, r);
  }

  lemma KeepsOne(before: multiset<Item>, after: multiset<Item>, added: multiset<Item>, deleted: multiset<Item>, x: Item)
    requires after + deleted == before + added && x !in deleted && (x in before || x in added)
    ensures x in after
  {
    assert (after + deleted)[x] == (before + added)[x];
  }

  /** The new network's default rule is not among those taken away from the old one. */
  lemma NewRuleNotDeleted(env: Env, ctl: Controller, netId: nat)
    requires ValidEnv(env) && InterfacesDisjoint(ctl) && netId in ctl.networks && ctl.networks[netId].Physical?
    requires ctl.networks[netId].interfaces != []
    requires ctl.defaultNetId in ctl.networks && ctl.networks[ctl.defaultNetId].Physical? && netId != ctl.defaultNetId
    ensures var n, d := ctl.networks[netId], ctl.networks[ctl.defaultNetId];
            var x := IpRule(DefaultNetworkRule(TableOf(env, n.interfaces[0]), n.permission));
            && x in Sum(n.interfaces, Share(env, DefaultPart(Vpns(ctl), n.permission)))
            && x !in Sum(d.interfaces, Share(env, DefaultPart(Vpns(ctl), d.permission)))
  {
    hide Share, Sum, DefaultNetworkRule, VpnsBelow;
    var n, d := ctl.networks[netId], ctl.networks[ctl.defaultNetId];
    var i := n.interfaces[0];
    DefaultRuleInSum(env, Vpns(ctl), n.permission, n.interfaces, TableOf(env, i), n.permission);
    DefaultRuleInSum(env, Vpns(ctl), d.permission, d.interfaces, TableOf(env, i), n.permission);
  }

  /** One address family that has seen the first m requests of a switch. */
  lemma FamilyKeepsADefault(env: Env, w: World, netId: nat, m: nat, before: multiset<Item>, after: multiset<Item>)
    requires Consistent(env, w) && netId != w.ctl.defaultNetId && w.ctl.defaultNetId != NETID_UNSET
    requires netId in w.ctl.networks && w.ctl.networks[netId].Physical? && w.ctl.networks[netId].interfaces != []
    requires m <= |SwitchRequests(env, w.ctl, netId)|
             && BalancedBy(before, after, SwitchRequests(env, w.ctl, netId)[..m])
    requires SomeDefaultRule(before)
    ensures SomeDefaultRule(after)
  {
    hide Exec, InSync, EachInterface, Changed, Share, Sum, TablesCached, InterfacesDistinct, RangesWellformed,
         VpnsBelow;
    var net, old', vpns := w.ctl.networks[netId], w.ctl.networks[w.ctl.defaultNetId], Vpns(w.ctl);
    var a := EachInterface(env, DefaultPart(vpns, net.permission), net.interfaces, true);
    var b := EachInterface(env, DefaultPart(vpns, old'.permission), old'.interfaces, false);
    EachInterfaceChanges(env, DefaultPart(vpns, net.permission), net.interfaces, true);
    EachInterfaceChanges(env, DefaultPart(vpns, old'.permission), old'.interfaces, false);
    var requests := SwitchRequests(env, w.ctl, netId)[..m];
    var r :| IpRule(r) in before && r.priority == PRIORITY_DEFAULT_NETWORK;
    if m <= |a| {
      assert requests == a[..m];
      NotYet(a, m, IpRule(r));
      KeepsOne(before, after, Changed(requests, true), Changed(requests, false), IpRule(r));
    } else {
      var new' := DefaultNetworkRule(TableOf(env, net.interfaces[0]), net.permission);
      NewRuleNotDeleted(env, w.ctl, netId);
      assert requests == a + b[..m - |a|];
      ChangedBoth(a, b[..m - |a|]);
      ChangedPrefix(b, m - |a|, |b|, false);
      assert b[..|b|] == b;
      KeepsOne(before, after, Changed(requests, true), Changed(requests, false), IpRule(new'));
    }
  }

  /** While the default moves between two networks that both have an interface, and wherever that fails, there is always
      some default rule. */
  lemma SwitchKeepsADefault(env: Env, w: World, netId: nat, n: nat)
    requires Consistent(env, w) && netId != w.ctl.defaultNetId && w.ctl.defaultNetId != NETID_UNSET
    requires netId in w.ctl.networks && w.ctl.networks[netId].Physical? && w.ctl.networks[netId].interfaces != []
    requires w.ctl.networks[w.ctl.defaultNetId].interfaces != []
    requires n <= |SwitchRequests(env, w.ctl, netId)|
    ensures var k := Exec(env, w.kernel, SwitchRequests(env, w.ctl, netId)[..n]).kernel;
            SomeDefaultRule(k.v4) && SomeDefaultRule(k.v6)
  {
    hide Exec, InSync, BalancedBy, TablesCached, InterfacesDisjoint, InterfacesDistinct, RangesWellformed,
         EachInterface, SomeDefaultRule;
    var requests := SwitchRequests(env, w.ctl, netId);
    var k := Exec(env, w.kernel, requests[..n]).kernel;
    OldDefaultRuleThere(env, w);
    var m4, m6 := PrefixBalances(env, w.kernel, requests[..n]);
    assert requests[..n][..m4] == requests[..m4] && requests[..n][..m6] == requests[..m6];
    FamilyKeepsADefault(env, w, netId, m4, w.kernel.v4, k.v4);
    FamilyKeepsADefault(env, w, netId, m6, w.kernel.v6, k.v6);
  }
}
