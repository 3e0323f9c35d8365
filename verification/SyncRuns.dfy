/** Every command that returns 0 keeps the kernel in step with the controller. */
module SyncRuns {
  import opened Wrappers
  import opened Fwmarks
  import opened Kernels
  import opened Uids
  import opened Sums
  import opened Rules
  import opened Controllers
  import opened Safety
  import opened Sync

  // ----- Users of a VPN -----

  lemma {:induction false} SumMerge(a: seq<Range>, b: seq<Range>, f: Range -> multiset<Item>)
    ensures Sum(Merge(a, b), f) == Sum(a, f) + Sum(b, f)
    decreases |a| + |b|
  {
    if a != [] && b != [] {
      var m := Merge(a, b);
      if Less(b[0], a[0]) {
        assert m[0] == b[0] && m[1..] == Merge(a, b[1..]);
        SumMerge(a, b[1..], f);
      } else {
        assert m[0] == a[0] && m[1..] == Merge(a[1..], b);
        SumMerge(a[1..], b, f);
      }
    }
  }

  /** Removing ranges that are all there takes away exactly their share. */
  lemma {:induction false} SumDifference(a: seq<Range>, b: seq<Range>, f: Range -> multiset<Item>)
    requires Sorted(a) && Sorted(b) && multiset(b) <= multiset(a)
    ensures Sum(a, f) == Sum(Difference(a, b), f) + Sum(b, f)
    decreases |a| + |b|
  {
    if a != [] && b != [] {
      SortedTail(a);
      SortedTail(b);
      assert b[0] in multiset(a);
      if Less(a[0], b[0]) {
        StillThere(a, b);
        SumDifference(a[1..], b, f);
        var m := Difference(a, b);
        assert m[0] == a[0] && m[1..] == Difference(a[1..], b);
      } else {
        BothTails(a, b);
        SumDifference(a[1..], b[1..], f);
      }
    }
  }

  lemma BothTails(a: seq<Range>, b: seq<Range>)
    requires a != [] && b != [] && a[0] == b[0] && multiset(b) <= multiset(a)
    ensures multiset(b[1..]) <= multiset(a[1..])
  {
    assert a == [a[0]] + a[1..] && b == [b[0]] + b[1..];
    assert multiset(a[1..]) == multiset(a) - multiset{a[0]} && multiset(b[1..]) == multiset(b) - multiset{a[0]};
  }

  lemma StillThere(a: seq<Range>, b: seq<Range>)
    requires Sorted(b) && a != [] && b != [] && multiset(b) <= multiset(a) && Less(a[0], b[0])
    ensures multiset(b) <= multiset(a[1..])
  {
    SortedTail(b);
    assert a[0] !in b;
    assert a == [a[0]] + a[1..];
  }

  /** The three rules of one range. */
  function UserShare(netId: nat, i: string, table: nat, secure: bool): Range -> multiset<Item> {
    r => multiset{ IpRule(VpnUidRangeRule(table, r, secure)),
                   IpRule(ExplicitNetworkRule(netId, table, PERMISSION_NONE, r.first, r.last)),
                   IpRule(OutputInterfaceRule(i, table, PERMISSION_NONE, r.first, r.last)) }
  }

  lemma {:induction false} UserItemsSum(netId: nat, i: string, table: nat, ranges: seq<Range>, secure: bool)
    ensures multiset(UserItems(netId, i, table, ranges, secure)) == Sum(ranges, UserShare(netId, i, table, secure))
  {
    if ranges != [] {
      UserItemsSum(netId, i, table, ranges[1..], secure);
    }
  }

  function FixedShare(env: Env, netId: nat, secure: bool, i: string): multiset<Item> {
    multiset(FixedItems(netId, i, TableOf(env, i), secure))
  }

  lemma VirtualShare(env: Env, netId: nat, ranges: seq<Range>, secure: bool, i: string)
    ensures Share(env, VirtualPart(netId, ranges, secure))(i) ==
            Sum(ranges, UserShare(netId, i, TableOf(env, i), secure)) + FixedShare(env, netId, secure, i)
    ensures Share(env, UsersPart(netId, ranges, secure))(i) == Sum(ranges, UserShare(netId, i, TableOf(env, i), secure))
  {
    hide UserItems, FixedItems, TableOf, Sum;
    UserItemsSum(netId, i, TableOf(env, i), ranges, secure);
    MultisetOfConcat(UserItems(netId, i, TableOf(env, i), ranges, secure),
                     FixedItems(netId, i, TableOf(env, i), secure));
  }

  lemma MultisetOfConcat(a: seq<Item>, b: seq<Item>)
    ensures multiset(a + b) == multiset(a) + multiset(b)
  {
  }

  lemma AddUsersShare(env: Env, netId: nat, a: seq<Range>, b: seq<Range>, secure: bool, i: string)
    ensures Share(env, VirtualPart(netId, Merge(a, b), secure))(i) ==
            Share(env, VirtualPart(netId, a, secure))(i) + Share(env, UsersPart(netId, b, secure))(i)
  {
    var f := UserShare(netId, i, TableOf(env, i), secure);
    VirtualShare(env, netId, Merge(a, b), secure, i);
    VirtualShare(env, netId, a, secure, i);
    VirtualShare(env, netId, b, secure, i);
    SumMerge(a, b, f);
    Swap(Sum(a, f), Sum(b, f), FixedShare(env, netId, secure, i));
  }

  lemma RemoveUsersShare(env: Env, netId: nat, a: seq<Range>, b: seq<Range>, secure: bool, i: string)
    requires Sorted(a) && Sorted(b) && multiset(b) <= multiset(a)
    ensures Share(env, VirtualPart(netId, a, secure))(i) ==
            Share(env, VirtualPart(netId, Difference(a, b), secure))(i) + Share(env, UsersPart(netId, b, secure))(i)
  {
    var f := UserShare(netId, i, TableOf(env, i), secure);
    VirtualShare(env, netId, Difference(a, b), secure, i);
    VirtualShare(env, netId, a, secure, i);
    VirtualShare(env, netId, b, secure, i);
    SumDifference(a, b, f);
    Swap(Sum(Difference(a, b), f), Sum(b, f), FixedShare(env, netId, secure, i));
  }

  // ----- A uid rule is present as often as its range is in the VPN's list -----

  lemma {:induction false} CountRanges(ranges: seq<Range>, f: Range -> multiset<Item>, r: Range, x: Item)
    requires forall r' :: f(r')[x] == if r' == r then 1 else 0
    ensures Sum(ranges, f)[x] == multiset(ranges)[r]
  {
    if ranges != [] {
      CountRanges(ranges[1..], f, r, x);
      assert ranges == [ranges[0]] + ranges[1..];
    }
  }

  lemma CountUserItems(netId: nat, i: string, table: nat, ranges: seq<Range>, secure: bool, r: Range)
    ensures Sum(ranges, UserShare(netId, i, table, secure))[IpRule(VpnUidRangeRule(table, r, secure))] ==
              multiset(ranges)[r]
  {
    CountRanges(ranges, UserShare(netId, i, table, secure), r, IpRule(VpnUidRangeRule(table, r, secure)));
  }

  /** A uid range rule comes only from the VPN interface whose table it names. */
  lemma UidRuleOwner(env: Env, part: Part, i: string, x: Item, table: nat, r: Range, secure: bool)
    requires x == IpRule(VpnUidRangeRule(table, r, secure)) && x in Share(env, part)(i)
    ensures TableOf(env, i) == table && (part.VirtualPart? || part.UsersPart?)
  {
    ShareMember(env, part, i, x);
    PartPriority(env, part, i, x);
  }

  lemma ShareMember(env: Env, part: Part, i: string, x: Item)
    ensures x in Share(env, part)(i) <==> x in PartItems(env, part, i)
  {
    MultisetMember(PartItems(env, part, i), x);
  }

  lemma MultisetMember(items: seq<Item>, x: Item)
    ensures x in multiset(items) <==> x in items
  {
  }

  /** Which tables the rules of an interface lead to, and with which priorities. */
  lemma PartPriority(env: Env, part: Part, i: string, x: Item)
    requires x in PartItems(env, part, i) && x.IpRule?
    ensures x.rule.priority != PRIORITY_TETHERING
    ensures x.rule.priority in {PRIORITY_SECURE_VPN, PRIORITY_BYPASSABLE_VPN} ==>
            x.rule.table == TableOf(env, i) && (part.VirtualPart? || part.UsersPart?)
  {
    var table := TableOf(env, i);
    match part {
      case VirtualPart(netId, ranges, secure) => UserItemsAre(netId, i, table, ranges, secure, x);
      case UsersPart(netId, ranges, secure) => UserItemsAre(netId, i, table, ranges, secure, x);
      case DefaultPart(vpns, permission) => FallthroughItemsAre(vpns, table, permission, x);
      case _ =>
    }
  }

  lemma OtherRulesOfTable(env: Env, w: World, netId: nat, i: string, r: Range, id: nat)
    requires ValidEnv(env) && SafeController(w.ctl) && netId in w.ctl.networks && i in w.ctl.networks[netId].interfaces
    requires w.ctl.networks[netId].Virtual? && id != netId
    ensures IpRule(VpnUidRangeRule(TableOf(env, i), r, w.ctl.networks[netId].secure)) !in
            NetworkShare(env, Vpns(w.ctl), w.ctl.networks)(id)
  {
    var n := w.ctl.networks[netId];
    var vpns := Vpns(w.ctl);
    var x := IpRule(VpnUidRangeRule(TableOf(env, i), r, n.secure));
    InNetworkShare(env, vpns, w.ctl.networks, id, x);
    if HasRule(env, vpns, w.ctl.networks, id, x) {
      var m := w.ctl.networks[id];
      var j :| IsRuleOf(env, vpns, id, m, j, x);
      if x in Share(env, MainPart(id, m))(j) {
        UidRuleOwner(env, MainPart(id, m), j, x, TableOf(env, i), r, n.secure);
      } else {
        UidRuleOwner(env, ExtraPart(vpns, m), j, x, TableOf(env, i), r, n.secure);
      }
    }
  }

  lemma UidRuleCountAt(env: Env, netId: nat, n: Network, vpns: seq<nat>, i: string, r: Range)
    requires ValidEnv(env) && n.Virtual? && Distinct(n.interfaces) && i in n.interfaces
    ensures NetworkItems(env, vpns, netId, n)[IpRule(VpnUidRangeRule(TableOf(env, i), r, n.secure))] ==
              multiset(n.ranges)[r]
  {
    var x := IpRule(VpnUidRangeRule(TableOf(env, i), r, n.secure));
    var part := VirtualPart(netId, n.ranges, n.secure);
    forall j | j in n.interfaces && j != i ensures x !in Share(env, part)(j) {
      if x in Share(env, part)(j) {
        UidRuleOwner(env, part, j, x, TableOf(env, i), r, n.secure);
      }
    }
    CountInSum(n.interfaces, Share(env, part), i, x);
    CountAtInterface(env, netId, n.ranges, n.secure, i, r);
  }

  lemma CountAtInterface(env: Env, netId: nat, ranges: seq<Range>, secure: bool, i: string, r: Range)
    ensures var x := IpRule(VpnUidRangeRule(TableOf(env, i), r, secure));
            && Share(env, VirtualPart(netId, ranges, secure))(i)[x] == multiset(ranges)[r]
            && Share(env, UsersPart(netId, ranges, secure))(i)[x] == multiset(ranges)[r]
  {
    hide Share, Sum;
    VirtualShare(env, netId, ranges, secure, i);
    CountUserItems(netId, i, TableOf(env, i), ranges, secure, r);
    var x := IpRule(VpnUidRangeRule(TableOf(env, i), r, secure));
    assert x !in FixedItems(netId, i, TableOf(env, i), secure);
    MultisetMember(FixedItems(netId, i, TableOf(env, i), secure), x);
  }

  /** The kernel holds a VPN interface's uid rule exactly as often as the VPN's list holds the range. */
  lemma UidRuleCount(env: Env, w: World, netId: nat, i: string, r: Range)
    requires ValidEnv(env) && Safe(env, w) && InSync(env, w)
    requires netId in w.ctl.networks && w.ctl.networks[netId].Virtual? && i in w.ctl.networks[netId].interfaces
    ensures w.kernel.v4[IpRule(VpnUidRangeRule(TableOf(env, i), r, w.ctl.networks[netId].secure))] ==
            multiset(w.ctl.networks[netId].ranges)[r]
  {
    var n, vpns := w.ctl.networks[netId], Vpns(w.ctl);
    var x := IpRule(VpnUidRangeRule(TableOf(env, i), r, n.secure));
    var g := NetworkShare(env, vpns, w.ctl.networks);
    forall id: nat | id != netId ensures x !in g(id) {
      OtherRulesOfTable(env, w, netId, i, r, id);
    }
    CountInSumBelow(NET_ID_BOUND, g, netId, x);
    UidRuleCountAt(env, netId, n, vpns, i, r);
    NotInInit(x);
    assert x !in w.tethers;
  }

  lemma NotInInit(x: Item)
    requires x.IpRule? && x.rule.priority in {PRIORITY_SECURE_VPN, PRIORITY_BYPASSABLE_VPN, PRIORITY_TETHERING}
    ensures x !in multiset(InitItems())
  {
    MultisetMember(InitItems(), x);
  }

  lemma DeletedRulesWereThere(env: Env, k: Kernel, part: Part, interfaces: seq<string>)
    requires Exec(env, k, EachInterface(env, part, interfaces, false)).ret == 0
    ensures Sum(interfaces, Share(env, part)) <= k.v4
  {
    EachInterfaceChanges(env, part, interfaces, false);
    DeletesComeFromKernel(env, k, EachInterface(env, part, interfaces, false));
  }

  lemma DeletesComeFromKernel(env: Env, k: Kernel, requests: seq<Request>)
    requires Exec(env, k, requests).ret == 0 && Changed(requests, true) == multiset{}
    ensures Changed(requests, false) <= k.v4
  {
    ExecBalance(env, k, requests);
    assert k.v4 == Exec(env, k, requests).kernel.v4 + Changed(requests, false);
  }

  lemma FirstInSum(names: seq<string>, f: string -> multiset<Item>, x: Item)
    requires names != []
    ensures f(names[0])[x] <= Sum(names, f)[x]
  {
  }

  /** Removing users can only succeed on an interface if every range removed is one of the VPN's. */
  lemma RemovedRangesWereThere(env: Env, w: World, netId: nat, ranges: seq<Range>)
    requires ValidEnv(env) && Safe(env, w) && InSync(env, w)
    requires netId in w.ctl.networks && w.ctl.networks[netId].Virtual? && w.ctl.networks[netId].interfaces != []
    requires ChangeUsers(env, w, netId, ranges, false).ret == 0
    ensures multiset(ranges) <= multiset(w.ctl.networks[netId].ranges)
  {
    var n := w.ctl.networks[netId];
    DeletedRulesWereThere(env, w.kernel, UsersPart(netId, ranges, n.secure), n.interfaces);
    forall r ensures multiset(ranges)[r] <= multiset(n.ranges)[r] {
      RemovedRangeWasThere(env, w, netId, ranges, r);
    }
  }

  lemma RemovedRangeWasThere(env: Env, w: World, netId: nat, ranges: seq<Range>, r: Range)
    requires ValidEnv(env) && Safe(env, w) && InSync(env, w)
    requires netId in w.ctl.networks && w.ctl.networks[netId].Virtual? && w.ctl.networks[netId].interfaces != []
    requires var n := w.ctl.networks[netId];
             Sum(n.interfaces, Share(env, UsersPart(netId, ranges, n.secure))) <= w.kernel.v4
    ensures multiset(ranges)[r] <= multiset(w.ctl.networks[netId].ranges)[r]
  {
    var n := w.ctl.networks[netId];
    var i := n.interfaces[0];
    CountAtInterface(env, netId, ranges, n.secure, i, r);
    UidRuleCount(env, w, netId, i, r);
    FirstInSum(n.interfaces, Share(env, UsersPart(netId, ranges, n.secure)),
               IpRule(VpnUidRangeRule(TableOf(env, i), r, n.secure)));
  }

  /** How a VPN's rules change with its users. */
  lemma VirtualItems(env: Env, vpns: seq<nat>, netId: nat, n: Network)
    requires n.Virtual?
    ensures NetworkItems(env, vpns, netId, n) == Sum(n.interfaces, Share(env, VirtualPart(netId, n.ranges, n.secure)))
  {
  }

  lemma UsersChangeItems(env: Env, vpns: seq<nat>, netId: nat, n: Network, ranges: seq<Range>, add: bool)
    requires n.Virtual? && Sorted(n.ranges) && Sorted(ranges)
    requires !add && n.interfaces != [] ==> multiset(ranges) <= multiset(n.ranges)
    ensures var u := Sum(n.interfaces, Share(env, UsersPart(netId, ranges, n.secure)));
            if add then
              NetworkItems(env, vpns, netId, n.(ranges := Merge(n.ranges, ranges))) ==
                NetworkItems(env, vpns, netId, n) + u
            else
              NetworkItems(env, vpns, netId, n.(ranges := Difference(n.ranges, ranges))) + u ==
                NetworkItems(env, vpns, netId, n)
  {
    var ranges' := if add then Merge(n.ranges, ranges) else Difference(n.ranges, ranges);
    VirtualItems(env, vpns, netId, n);
    VirtualItems(env, vpns, netId, n.(ranges := ranges'));
    hide NetworkItems, Share, Merge, Difference;
    var f, f' := Share(env, VirtualPart(netId, n.ranges, n.secure)), Share(env, VirtualPart(netId, ranges', n.secure));
    var u := Share(env, UsersPart(netId, ranges, n.secure));
    if add {
      forall i | i in n.interfaces ensures f'(i) == f(i) + u(i) {
        AddUsersShare(env, netId, n.ranges, ranges, n.secure, i);
      }
      SumPlus(n.interfaces, f', f, u);
    } else if n.interfaces != [] {
      forall i | i in n.interfaces ensures f(i) == f'(i) + u(i) {
        RemoveUsersShare(env, netId, n.ranges, ranges, n.secure, i);
      }
      SumPlus(n.interfaces, f, f', u);
    }
  }

  lemma ChangeUsersSync(env: Env, w: World, netId: nat, ranges: seq<Range>, add: bool)
    requires ValidEnv(env) && Safe(env, w) && InSync(env, w) && Wellformed(ranges)
    requires netId in w.ctl.networks && w.ctl.networks[netId].Virtual?
    requires ChangeUsers(env, w, netId, ranges, add).ret == 0
    ensures InSync(env, ChangeUsers(env, w, netId, ranges, add).world)
    ensures FlagsMatch(w.ctl) ==> FlagsMatch(ChangeUsers(env, w, netId, ranges, add).world.ctl)
  {
    hide InSync, Exec, NetworkItems, EachInterface, Changed, Merge, Difference, Share, TablesCached,
         InterfacesDisjoint, InterfacesDistinct, DefaultIsPhysical;
    var n := w.ctl.networks[netId];
    var part := UsersPart(netId, ranges, n.secure);
    if !add && n.interfaces != [] {
      RemovedRangesWereThere(env, w, netId, ranges);
    }
    UsersChangeItems(env, Vpns(w.ctl), netId, n, ranges, add);
    EachInterfaceChanges(env, part, n.interfaces, add);
    PerformSyncAt(env, w, EachInterface(env, part, n.interfaces, add), netId,
                  n.(ranges := if add then Merge(n.ranges, ranges) else Difference(n.ranges, ranges)));
  }

  // ----- Creating and destroying networks -----

  /** Adding or dropping a network without interfaces that is not a VPN changes no rule. */
  lemma EmptyNetworkItems(env: Env, ctl: Controller, ctl': Controller, netId: nat)
    requires AgreeExcept(ctl.networks, ctl'.networks, netId)
    requires netId in ctl.networks ==> !ctl.networks[netId].Virtual? && ctl.networks[netId].interfaces == []
    requires netId in ctl'.networks ==> !ctl'.networks[netId].Virtual? && ctl'.networks[netId].interfaces == []
    ensures ControllerItems(env, ctl'.networks) == ControllerItems(env, ctl.networks)
  {
    VpnsUnchanged(ctl.networks, ctl'.networks, NET_ID_BOUND);
    SharesAgree(env, Vpns(ctl), ctl.networks, ctl'.networks, netId);
    EmptyShare(env, Vpns(ctl), ctl.networks, netId);
    EmptyShare(env, Vpns(ctl), ctl'.networks, netId);
    var g, g' := NetworkShare(env, Vpns(ctl), ctl.networks), NetworkShare(env, Vpns(ctl), ctl'.networks);
    SumBelowUpdate(NET_ID_BOUND, g, g', netId);
    Cancel(SumBelow(NET_ID_BOUND, g'), SumBelow(NET_ID_BOUND, g), multiset{});
  }

  lemma EmptyShare(env: Env, vpns: seq<nat>, networks: map<nat, Network>, netId: nat)
    requires netId in networks ==> networks[netId].interfaces == []
    ensures NetworkShare(env, vpns, networks)(netId) == multiset{}
  {
  }

  /** With one more (interface-less) VPN, the only rules that change are the default network's fallthrough rules. */
  lemma OneMoreVpn(env: Env, ctl: Controller, ctl': Controller, vpn: nat)
    requires SafeController(ctl) && FlagsMatch(ctl) && vpn !in ctl.networks && vpn < NET_ID_BOUND
    requires vpn in ctl'.networks && ctl'.networks[vpn].Virtual? && ctl'.networks[vpn].interfaces == []
    requires AgreeExcept(ctl.networks, ctl'.networks, vpn)
    ensures var d := ctl.defaultNetId;
            ControllerItems(env, ctl'.networks) == ControllerItems(env, ctl.networks) +
              if d == NETID_UNSET then multiset{}
              else Sum(ctl.networks[d].interfaces, Share(env, FallthroughPart(vpn, ctl.networks[d].permission)))
  {
    var before, after := VpnInserted(ctl.networks, ctl'.networks, vpn, NET_ID_BOUND);
    var vpns, vpns' := before + after, before + [vpn] + after;
    var d := ctl.defaultNetId;
    var g, g' := NetworkShare(env, vpns, ctl.networks), NetworkShare(env, vpns', ctl'.networks);
    forall i: nat | i != d ensures g'(i) == g(i) {
      SameShareElsewhere(env, ctl, ctl', vpn, vpns, vpns', i);
    }
    SumBelowUpdate(NET_ID_BOUND, g, g', d);
    if d != NETID_UNSET {
      DefaultShareGrows(env, ctl, before, after, vpn);
      GrowByOne(SumBelow(NET_ID_BOUND, g), SumBelow(NET_ID_BOUND, g'), g(d), g'(d),
                Sum(ctl.networks[d].interfaces, Share(env, FallthroughPart(vpn, ctl.networks[d].permission))));
    } else {
      Cancel(SumBelow(NET_ID_BOUND, g'), SumBelow(NET_ID_BOUND, g), multiset{});
    }
  }

  lemma GrowByOne<T>(s: multiset<T>, s': multiset<T>, part: multiset<T>, part': multiset<T>, extra: multiset<T>)
    requires s' + part == s + part' && part' == part + extra
    ensures s' == s + extra
  {
    assert s + (part + extra) == (s + extra) + part;
    Cancel(s', s + extra, part);
  }

  lemma SameShareElsewhere(env: Env, ctl: Controller, ctl': Controller, vpn: nat, vpns: seq<nat>, vpns': seq<nat>,
                           i: nat)
    requires FlagsMatch(ctl) && vpn !in ctl.networks && AgreeExcept(ctl.networks, ctl'.networks, vpn)
             && i != ctl.defaultNetId
    requires vpn in ctl'.networks && ctl'.networks[vpn].Virtual? && ctl'.networks[vpn].interfaces == []
    ensures NetworkShare(env, vpns', ctl'.networks)(i) == NetworkShare(env, vpns, ctl.networks)(i)
  {
  }

  lemma DefaultShareGrows(env: Env, ctl: Controller, before: seq<nat>, after: seq<nat>, vpn: nat)
    requires SafeController(ctl) && FlagsMatch(ctl) && ctl.defaultNetId != NETID_UNSET
    ensures var n := ctl.networks[ctl.defaultNetId];
            NetworkItems(env, before + [vpn] + after, ctl.defaultNetId, n) ==
            NetworkItems(env, before + after, ctl.defaultNetId, n) +
              Sum(n.interfaces, Share(env, FallthroughPart(vpn, n.permission)))
  {
    var n := ctl.networks[ctl.defaultNetId];
    var f' := Share(env, DefaultPart(before + [vpn] + after, n.permission));
    var f := Share(env, DefaultPart(before + after, n.permission));
    var u := Share(env, FallthroughPart(vpn, n.permission));
    forall i | i in n.interfaces ensures f'(i) == f(i) + u(i) {
      DefaultWithOneMore(env, before, after, vpn, n.permission, i);
    }
    SumPlus(n.interfaces, f', f, u);
  }

  lemma CreatePhysicalSync(env: Env, w: World, netId: nat, permission: Permission)
    requires Consistent(env, w) && CreatePhysical(env, w, netId, permission).ret == 0
    ensures InSync(env, CreatePhysical(env, w, netId, permission).world)
    ensures FlagsMatch(CreatePhysical(env, w, netId, permission).world.ctl)
  {
    hide ControllerItems, InitItems;
    EmptyNetworkItems(env, w.ctl, Updated(w.ctl, netId, Physical([], permission, false)), netId);
  }

  lemma CreateVirtualSync(env: Env, w: World, netId: nat, hasDns: bool, secure: bool)
    requires Consistent(env, w) && CreateVirtual(env, w, netId, hasDns, secure).ret == 0
    ensures InSync(env, CreateVirtual(env, w, netId, hasDns, secure).world)
    ensures FlagsMatch(CreateVirtual(env, w, netId, hasDns, secure).world.ctl)
  {
    hide ControllerItems, Sum, Share, Exec, InSync, EachInterface, FallthroughRequests, TablesCached, Changed;
    var ctl' := Updated(w.ctl, netId, Virtual([], hasDns, secure, []));
    FallthroughChanges(env, w.ctl, netId, true);
    OneMoreVpn(env, w.ctl, ctl', netId);
    PerformSync(env, w, FallthroughRequests(env, w.ctl, netId, true).0, ctl');
  }

  lemma FallthroughChanges(env: Env, ctl: Controller, vpn: nat, add: bool)
    requires SafeController(ctl)
    ensures var requests := FallthroughRequests(env, ctl, vpn, add).0;
            var d := ctl.defaultNetId;
            && FallthroughRequests(env, ctl, vpn, add).1 == 0
            && Changed(requests, !add) == multiset{}
            && Changed(requests, add) == if d == NETID_UNSET then multiset{}
                 else Sum(ctl.networks[d].interfaces, Share(env, FallthroughPart(vpn, ctl.networks[d].permission)))
  {
    if ctl.defaultNetId != NETID_UNSET {
      var n := ctl.networks[ctl.defaultNetId];
      EachInterfaceChanges(env, FallthroughPart(vpn, n.permission), n.interfaces, add);
    }
  }

  /** clearInterfaces() when it succeeds: in sync, and only the list of interfaces differs. */
  lemma {:induction false} ClearInterfacesSync(env: Env, w: World, netId: nat)
    requires InSync(env, w) && Safe(env, w) && FlagsMatch(w.ctl) && netId in w.ctl.networks
    requires ClearInterfaces(env, w, netId).ret == 0
    ensures var w' := ClearInterfaces(env, w, netId).world;
            && InSync(env, w') && Safe(env, w') && FlagsMatch(w'.ctl)
            && w'.ctl == Updated(w.ctl, netId, w.ctl.networks[netId].(interfaces := []))
            && w'.tethers == w.tethers
    decreases |w.ctl.networks[netId].interfaces|
  {
    hide InSync, Detach, Safe, FlagsMatch;
    var n := w.ctl.networks[netId];
    if n.interfaces == [] {
      assert w.ctl.networks == w.ctl.networks[netId := n];
    } else {
      DetachFirst(env, w, netId);
      var w1 := Detach(env, w, netId, n.interfaces[0]).world;
      ClearInterfacesSync(env, w1, netId);
      assert w1.ctl.networks[netId := n.(interfaces := [])] == w.ctl.networks[netId := n.(interfaces := [])];
    }
  }

  lemma DetachFirst(env: Env, w: World, netId: nat)
    requires InSync(env, w) && Safe(env, w) && FlagsMatch(w.ctl) && netId in w.ctl.networks
    requires w.ctl.networks[netId].interfaces != []
             && Detach(env, w, netId, w.ctl.networks[netId].interfaces[0]).ret == 0
    ensures var n := w.ctl.networks[netId];
            var w1 := Detach(env, w, netId, n.interfaces[0]).world;
            && InSync(env, w1) && Safe(env, w1) && FlagsMatch(w1.ctl) && w1.tethers == w.tethers
            && w1.ctl == Updated(w.ctl, netId, n.(interfaces := n.interfaces[1..]))
  {
    hide InSync, DetachRequests, Exec, Safe;
    var n := w.ctl.networks[netId];
    DetachSafe(env, w, netId, n.interfaces[0]);
    DetachSync(env, w, netId, n.interfaces[0]);
  }

  lemma EraseSync(env: Env, w: World, netId: nat, d: nat)
    requires InSync(env, w) && netId in w.ctl.networks
    requires !w.ctl.networks[netId].Virtual? && w.ctl.networks[netId].interfaces == []
    ensures InSync(env, w.(ctl := Erased(w.ctl, netId).(defaultNetId := d)))
  {
    hide ControllerItems, InitItems;
    EmptyNetworkItems(env, w.ctl, Erased(w.ctl, netId).(defaultNetId := d), netId);
  }

  /** Dropping a VPN once its interfaces are gone. */
  lemma DropVpnSync(env: Env, w: World, netId: nat)
    requires InSync(env, w) && Safe(env, w) && FlagsMatch(w.ctl)
    requires netId in w.ctl.networks && w.ctl.networks[netId].Virtual? && w.ctl.networks[netId].interfaces == []
    requires Perform(env, w, FallthroughRequests(env, w.ctl, netId, false).0, w.ctl).ret == 0
    ensures var w' := Perform(env, w, FallthroughRequests(env, w.ctl, netId, false).0, w.ctl).world;
            InSync(env, w'.(ctl := Erased(w.ctl, netId)))
  {
    hide ControllerItems, Sum, Share, Exec, InSync, EachInterface, FallthroughRequests;
    var ctl' := Erased(w.ctl, netId);
    ErasedSafe(env, w, netId);
    OneMoreVpn(env, ctl', w.ctl, netId);
    FallthroughChanges(env, w.ctl, netId, false);
    PerformSync(env, w, FallthroughRequests(env, w.ctl, netId, false).0, ctl');
  }

  lemma DestroySync(env: Env, w: World, netId: nat)
    requires Consistent(env, w) && Destroy(env, w, netId).ret == 0
    ensures InSync(env, Destroy(env, w, netId).world) && FlagsMatch(Destroy(env, w, netId).world.ctl)
  {
    hide InSync, Exec, TablesCached, InterfacesDisjoint, InterfacesDistinct, RangesWellformed;
    ClearInterfacesSync(env, w, netId);
    var w1 := ClearInterfaces(env, w, netId).world;
    var n := w1.ctl.networks[netId];
    if w1.ctl.defaultNetId == netId {
      DefaultFlagSync(env, w1, netId);
      EraseSync(env, RemoveAsDefault(env, w1, netId).world, netId, NETID_UNSET);
    } else if n.Virtual? {
      FallthroughChanges(env, w1.ctl, netId, false);
      DropVpnSync(env, w1, netId);
    } else {
      EraseSync(env, w1, netId, w1.ctl.defaultNetId);
    }
  }

  // ----- The remaining commands -----

  lemma SetDefaultSync(env: Env, w: World, netId: nat)
    requires Consistent(env, w) && SetDefault(env, w, netId).ret == 0
    ensures InSync(env, SetDefault(env, w, netId).world) && FlagsMatch(SetDefault(env, w, netId).world.ctl)
  {
    hide Expected, Exec, TablesCached, InterfacesDisjoint, InterfacesDistinct, RangesWellformed;
    if netId != w.ctl.defaultNetId {
      if netId != NETID_UNSET {
        DefaultFlagSync(env, w, netId);
        DefaultFlagSafe(env, w, netId);
      }
      var w1 := if netId != NETID_UNSET then AddAsDefault(env, w, netId).world else w;
      if w1.ctl.defaultNetId != NETID_UNSET {
        DefaultFlagSync(env, w1, w1.ctl.defaultNetId);
      }
    }
  }

  lemma {:induction false} SetNetworkPermissionsSync(env: Env, w: World, permission: Permission, netIds: seq<nat>)
    requires Consistent(env, w) && SetNetworkPermissions(env, w, permission, netIds).ret == 0
    ensures InSync(env, SetNetworkPermissions(env, w, permission, netIds).world)
    ensures FlagsMatch(SetNetworkPermissions(env, w, permission, netIds).world.ctl)
    decreases |netIds|
  {
    hide InSync, Exec, Safe, SetPermissionRequests;
    if netIds != [] {
      SetPermissionSync(env, w, netIds[0], permission);
      SetPermissionSafe(env, w, netIds[0], permission);
      SetNetworkPermissionsSync(env, SetPermission(env, w, netIds[0], permission).world, permission, netIds[1..]);
    }
  }

  /** Tethering rules come from tethering commands only, so a delete that succeeds deletes one of those. */
  lemma TetherSync(env: Env, w: World, input: string, output: string, add: bool)
    requires NetIdsFit(w.ctl) && InSync(env, w) && Tether(env, w, input, output, add).ret == 0
    ensures InSync(env, Tether(env, w, input, output, add).world)
            && Tether(env, w, input, output, add).world.ctl == w.ctl
  {
    hide ControllerItems, InitItems, Exec, TetheringRule, NetIdsFit, AreTethering;
    var x := IpRule(TetheringRule(input, TableOf(env, output)));
    TetherKernel(env, w.kernel, output, x, add);
    TetherShape(input, TableOf(env, output));
    NotInInit(x);
    NoNetworkTethers(env, w.ctl, x);
    var k := Exec(env, w.kernel, [Lookup(output), Change(add, x)]).kernel;
    var w' := w.(kernel := k, tethers := if add then w.tethers + multiset{x} else w.tethers - multiset{x});
    assert Tether(env, w, input, output, add).world == w';
    TethersStay(w.tethers, x, add);
    hide Tether;
    OneTether(multiset(InitItems()), ControllerItems(env, w.ctl.networks), w.tethers, x, add, k.v4);
    OneTether(multiset(InitItems()), ControllerItems(env, w.ctl.networks), w.tethers, x, add, k.v6);
  }

  lemma TetherKernel(env: Env, k: Kernel, i: string, x: Item, add: bool)
    requires Exec(env, k, [Lookup(i), Change(add, x)]).ret == 0
    ensures var k' := Exec(env, k, [Lookup(i), Change(add, x)]).kernel;
            if add then k'.v4 == k.v4 + multiset{x} && k'.v6 == k.v6 + multiset{x}
            else k'.v4 + multiset{x} == k.v4 && k'.v6 + multiset{x} == k.v6
  {
    hide Exec;
    ExecBalance(env, k, [Lookup(i), Change(add, x)]);
    LookupThenChange(i, x, add);
    var k' := Exec(env, k, [Lookup(i), Change(add, x)]).kernel;
    assert k'.v4 + multiset{} == k'.v4 && k'.v6 + multiset{} == k'.v6 && k.v4 + multiset{} == k.v4
           && k.v6 + multiset{} == k.v6;
  }

  lemma LookupThenChange(i: string, x: Item, add: bool)
    ensures var requests := [Lookup(i), Change(add, x)];
            Changed(requests, add) == multiset{x} && Changed(requests, !add) == multiset{}
  {
    var requests := [Lookup(i), Change(add, x)];
    assert requests[1..] == [Change(add, x)] && requests[1..][1..] == [];
    forall a: bool ensures Changed(requests, a) == if a == add then multiset{x} else multiset{} {
      assert Changed(requests, a) == multiset{} + Changed(requests[1..], a);
    }
  }

  lemma TetherShape(input: string, table: nat)
    ensures var r := TetheringRule(input, table);
            r.priority == PRIORITY_TETHERING && r.iif == Some(input) && r.table == table
            && AreTethering(multiset{IpRule(r)})
  {
  }

  lemma TethersStay(tethers: multiset<Item>, x: Item, add: bool)
    requires AreTethering(tethers) && AreTethering(multiset{x})
    ensures AreTethering(if add then tethers + multiset{x} else tethers - multiset{x})
  {
  }

  lemma OneTether<T>(a: multiset<T>, b: multiset<T>, tethers: multiset<T>, x: T, add: bool, v: multiset<T>)
    requires x !in a && x !in b
    requires if add then v == a + b + tethers + multiset{x} else v + multiset{x} == a + b + tethers
    ensures v == a + b + if add then tethers + multiset{x} else tethers - multiset{x}
  {
    if !add {
      assert x in a + b + tethers;
      assert v == (a + b + tethers) - multiset{x};
    }
  }

  lemma NoNetworkTethers(env: Env, ctl: Controller, x: Item)
    requires NetIdsFit(ctl) && x.IpRule? && x.rule.priority == PRIORITY_TETHERING
    ensures x !in ControllerItems(env, ctl.networks)
  {
    InControllerItems(env, ctl, x);
    if x in ControllerItems(env, ctl.networks) {
      var id :| HasRule(env, Vpns(ctl), ctl.networks, id, x);
      var n := ctl.networks[id];
      var i :| IsRuleOf(env, Vpns(ctl), id, n, i, x);
      if x in Share(env, MainPart(id, n))(i) {
        NoPartTethers(env, MainPart(id, n), i, x);
      } else {
        NoPartTethers(env, ExtraPart(Vpns(ctl), n), i, x);
      }
    }
  }

  lemma NoPartTethers(env: Env, part: Part, i: string, x: Item)
    requires x.IpRule? && x.rule.priority == PRIORITY_TETHERING
    ensures x !in Share(env, part)(i)
  {
    ShareMember(env, part, i, x);
    if x in PartItems(env, part, i) {
      PartPriority(env, part, i, x);
    }
  }

  lemma StepConsistent(env: Env, w: World, c: Command)
    requires Consistent(env, w) && ValidCommand(c) && Step(env, w, c).ret == 0
    ensures Consistent(env, Step(env, w, c).world)
  {
    hide Expected, Perform, TablesCached, InterfacesDisjoint, InterfacesDistinct, RangesWellformed, NetIdsFit,
         DefaultIsPhysical, CreateVirtual, Destroy, SetDefault, SetNetworkPermissions, Attach, Detach, ChangeUsers,
         Tether, AreTethering, Wellformed, NetworkForInterface, WithPermission, ControllerItems;
    StepSafe(env, w, c);
    match c {
      case SetDefaultNetwork(netId) => SetDefaultSync(env, w, netId);
      case CreatePhysicalNetwork(netId, permission) => CreatePhysicalSync(env, w, netId, permission);
      case CreateVirtualNetwork(netId, hasDns, secure) => CreateVirtualSync(env, w, netId, hasDns, secure);
      case DestroyNetwork(netId) => DestroySync(env, w, netId);
      case AddInterfaceToNetwork(netId, interface) => AttachSync(env, w, netId, interface);
      case RemoveInterfaceFromNetwork(netId, interface) => DetachSync(env, w, netId, interface);
      case SetPermissionForUsers(permission, uids) =>
      case SetPermissionForNetworks(permission, netIds) => SetNetworkPermissionsSync(env, w, permission, netIds);
      case AddUsersToNetwork(netId, ranges) => ChangeUsersSync(env, w, netId, ranges, true);
      case RemoveUsersFromNetwork(netId, ranges) => ChangeUsersSync(env, w, netId, ranges, false);
      case AllowProtect(uids) =>
      case DenyProtect(uids) =>
      case EnableTethering(input, output) => TetherSync(env, w, input, output, true);
      case DisableTethering(input, output) => TetherSync(env, w, input, output, false);
    }
  }

  // ----- Runs in which every command succeeds -----

  /** A command that returns 0 takes one state to the next. */
  ghost predicate Succeeds(env: Env, w: World, c: Command, w': World) {
    ValidCommand(c) && Step(env, w, c) == Outcome(w', 0)
  }

  /** The states a run of successful commands passes through, from a consistent one on, such as that after start-up. */
  ghost predicate IsRun(env: Env, states: seq<World>, commands: seq<Command>) {
    && |states| == |commands| + 1 && Consistent(env, states[0])
    && forall t {:trigger commands[t]} :: 0 <= t < |commands| ==> Succeeds(env, states[t], commands[t], states[t + 1])
  }

  lemma BootConsistent(env: Env, v4: multiset<Item>, v6: multiset<Item>)
    requires ValidEnv(env) && Boot(env, v4, v6).ret == 0
    requires Marks(v4) == multiset{} && Marks(v6) == multiset{}
    ensures Consistent(env, Boot(env, v4, v6).world)
  {
    hide InitItems, Exec, ControllerItems, Marks;
    BootIsSafe(env, v4, v6);
    NothingYet(env);
    BootInstalls(env, ExecFlushRules(env, Kernel(v4, v6, map[], 0)).kernel);
  }

  /** Start-up succeeds if the kernel refuses nothing. */
  lemma BootSucceeds(env: Env, v4: multiset<Item>, v6: multiset<Item>)
    requires forall t :: env.reply(t) == 0
    ensures Boot(env, v4, v6).ret == 0
  {
    var items := InitItems();
    forall k | 0 <= k < |items|
      ensures Acceptable(items[k])
    {
      InitRuleAccepted(k);
    }
    hide InitItems, Exec, Acceptable, Marks;
    AddsSucceed(env, ExecFlushRules(env, Kernel(v4, v6, map[], 0)).kernel, items);
  }

  predicate Acceptable(x: Item) {
    x.IpRule? ==> RuleError(x.rule) == 0
  }

  lemma InitRuleAccepted(k: nat)
    requires k < INIT_COUNT
    ensures Acceptable(InitItems()[k])
  {
    var r := InitRule(k);
    assert IpRule(r) == InitItems()[k];
    OtherRulesInRange(r);
  }

  lemma OtherRulesInRange(r: Rule)
    requires IpRule(r) in InitItems()
    ensures RuleError(r) != -ERANGE
  {
    hide ConjunctionIs, InitItems;
    BuildersAreInRange(Env(i => 1, t => true, t => 0), LocalPart(0), "", "", IpRule(r));
  }

  lemma {:induction false} AddsSucceed(env: Env, k: Kernel, items: seq<Item>)
    requires forall t :: env.reply(t) == 0
    requires forall i :: 0 <= i < |items| ==> Acceptable(items[i])
    ensures Exec(env, k, ChangeAll(items, true)).ret == 0
    decreases |items|
  {
    if items != [] {
      var d := ExecOne(env, k, Change(true, items[0]));
      assert Acceptable(items[0]);
      AddsSucceed(env, d.kernel, items[1..]);
      assert ChangeAll(items, true)[1..] == ChangeAll(items[1..], true);
    }
  }

  lemma BootInstalls(env: Env, k: Kernel)
    requires k.v4 == multiset{} && k.v6 == multiset{} && Exec(env, k, InitRequests()).ret == 0
    ensures var k' := Exec(env, k, InitRequests()).kernel;
            k'.v4 == multiset(InitItems()) && k'.v6 == multiset(InitItems())
  {
    hide InitItems, Exec;
    ChangeAllChanges(InitItems(), true);
    ExecBalance(env, k, InitRequests());
    var k' := Exec(env, k, InitRequests()).kernel;
    assert k'.v4 == k'.v4 + Changed(InitRequests(), false) && k'.v6 == k'.v6 + Changed(InitRequests(), false);
  }

  lemma NothingYet(env: Env)
    ensures ControllerItems(env, InitialController().networks) == multiset{}
  {
    EmptyNetworkItems(env, InitialController().(networks := map[]), InitialController(), LOCAL_NET_ID);
    NoNetworksNoItems(env, NET_ID_BOUND);
  }

  lemma {:induction false} NoNetworksNoItems(env: Env, bound: nat)
    ensures SumBelow(bound, NetworkShare(env, VpnsBelow(map[], NET_ID_BOUND), map[])) == multiset{}
  {
    if bound > 0 {
      NoNetworksNoItems(env, bound - 1);
    }
  }

  /** In every run of commands that all return 0, the kernel's rules are at all times exactly those the state calls
      for. */
  lemma {:induction false} RunsStayConsistent(env: Env, states: seq<World>, commands: seq<Command>, t: nat)
    requires ValidEnv(env) && IsRun(env, states, commands) && t < |states|
    ensures Consistent(env, states[t])
  {
    hide Consistent, Step;
    if t > 0 {
      RunsStayConsistent(env, states, commands, t - 1);
      StepConsistent(env, states[t - 1], commands[t - 1]);
    }
  }
}
