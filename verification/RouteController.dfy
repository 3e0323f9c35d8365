/** RouteController's operations, statement by statement (server/RouteController.cpp), proved to issue exactly the
    requests the specification lists. */
module RouteControllers {
  import opened Wrappers
  import opened Fwmarks
  import opened Kernels
  import opened Uids
  import opened Rules
  import opened Controllers
  import opened Safety

  lemma ChangeStep(env: Env, k: Kernel, item: Item, rest: seq<Item>, add: bool)
    ensures var d := ExecOne(env, k, Change(add, item));
            Exec(env, k, ChangeAll([item] + rest, add)) == if d.ret != 0 then d
            else Exec(env, d.kernel, ChangeAll(rest, add))
  {
    assert ([item] + rest)[1..] == rest;
    assert ChangeAll([item] + rest, add)[1..] == ChangeAll(rest, add);
  }

  lemma RequestStep(env: Env, k: Kernel, request: Request, rest: seq<Request>)
    ensures var d := ExecOne(env, k, request);
            Exec(env, k, [request] + rest) == if d.ret != 0 then d else Exec(env, d.kernel, rest)
  {
    assert ([request] + rest)[1..] == rest;
  }

  lemma NothingLeft(env: Env, k: Kernel, add: bool)
    ensures Exec(env, k, ChangeAll([], add)) == Done(k, 0) && Exec(env, k, []) == Done(k, 0)
  {
  }

  /** A table lookup followed by a change of one rule. */
  ghost function LookedUp(env: Env, k: Kernel, interface: string, add: bool, item: Item): Done {
    var d := ExecOne(env, k, Lookup(interface));
    if d.ret != 0 then d else ExecOne(env, d.kernel, Change(add, item))
  }

  lemma LookedUpIsExec(env: Env, k: Kernel, interface: string, add: bool, item: Item)
    ensures LookedUp(env, k, interface, add, item) == Exec(env, k, [Lookup(interface), Change(add, item)])
  {
    hide Exec, ExecOne;
    var d := ExecOne(env, k, Lookup(interface));
    var d' := ExecOne(env, d.kernel, Change(add, item));
    RequestStep(env, k, Lookup(interface), [Change(add, item)]);
    RequestStep(env, d.kernel, Change(add, item), []);
    assert [Lookup(interface), Change(add, item)] == [Lookup(interface)] + [Change(add, item)];
    assert [Change(add, item)] == [Change(add, item)] + [];
    NothingLeft(env, d'.kernel, add);
  }

  lemma LookupStep(env: Env, k: Kernel, interface: string, item: Item, rest: seq<Item>, add: bool)
    ensures var d := LookedUp(env, k, interface, add, item);
            Exec(env, k, LookupAndChangeAll(interface, [item] + rest, add))
            == if d.ret != 0 then d else Exec(env, d.kernel, LookupAndChangeAll(interface, rest, add))
  {
    assert ([item] + rest)[1..] == rest;
    LookedUpIsExec(env, k, interface, add, item);
    ExecConcat(env, k, [Lookup(interface), Change(add, item)], LookupAndChangeAll(interface, rest, add));
  }

  /** The kernel's side of `ip rule flush`. */
  method WithoutRules(items: multiset<Item>) returns (kept: multiset<Item>)
    ensures kept == Marks(items)
  {
    hide Marks;
    var rest := items;
    kept := multiset{};
    while rest != multiset{}
      invariant forall x: Item :: (if x.IpRule? then kept[x] else kept[x] + rest[x]) == if x.IpRule? then 0
                else items[x]
      decreases |rest|
    {
      var x :| x in rest;
      rest := rest - multiset{x};
      if !x.IpRule? {
        kept := kept + multiset{x};
      }
    }
    assert forall x :: kept[x] == Marks(items)[x];
  }

  class RouteController {
    const env: Env
    /** The kernel's rules, by address family. */
    var v4: multiset<Item>
    var v6: multiset<Item>
    var interfaceToTable: map<string, nat>
    /** The number of requests so far, which is what the environment's answers go by. */
    var clock: nat

    ghost function State(): Kernel
      reads this
    {
      Kernel(v4, v6, interfaceToTable, clock)
    }

    ghost predicate Valid()
      reads this
    {
      ValidEnv(env) && CacheSound(env, State())
    }

    /** The rules the kernel holds before are arbitrary. */
    constructor (env: Env, v4: multiset<Item>, v6: multiset<Item>)
      requires ValidEnv(env)
      ensures this.env == env && Valid() && State() == Kernel(v4, v6, map[], 0)
    {
      this.env := env;
      this.v4, this.v6, interfaceToTable, clock := v4, v6, map[], 0;
    }

    /** if_nametoindex() */
    method NameToIndex(interface: string) returns (index: nat)
      modifies this`clock
      ensures clock == old(clock) + 1
      ensures index == if env.present(old(clock)) then env.index(interface) else 0
    {
      index := if env.present(clock) then env.index(interface) else 0;
      clock := clock + 1;
    }

    method GetRouteTableForInterface(interface: string) returns (table: nat)
      requires Valid()
      modifies this
      ensures Valid()
      ensures Done(State(), if table == RT_TABLE_UNSPEC then -ESRCH else 0) ==
                ExecOne(env, old(State()), Lookup(interface))
      ensures table != RT_TABLE_UNSPEC ==> table == TableOf(env, interface)
    {
      var index := NameToIndex(interface);
      if index != 0 {
        index := index + ROUTE_TABLE_OFFSET_FROM_INDEX;
        interfaceToTable := interfaceToTable[interface := index];
        return index;
      }
      if interface !in interfaceToTable {
        return RT_TABLE_UNSPEC;
      }
      return interfaceToTable[interface];
    }

    /** One request to one address family. */
    method Send(ipv6: bool, add: bool, item: Item) returns (ret: int)
      modifies this
      ensures var a := Apply(if ipv6 then old(v6) else old(v4), add, item, env.reply(old(clock)));
              && ret == a.ret
              && v4 == (if ipv6 then old(v4) else a.items) && v6 == (if ipv6 then a.items else old(v6))
      ensures clock == old(clock) + 1 && interfaceToTable == old(interfaceToTable)
    {
      var a := Apply(if ipv6 then v6 else v4, add, item, env.reply(clock));
      if ipv6 {
        v6 := a.items;
      } else {
        v4 := a.items;
      }
      clock := clock + 1;
      ret := a.ret;
    }

    method ModifyIpRule(add: bool, rule: Rule) returns (ret: int)
      requires Valid()
      modifies this
      ensures Valid()
      ensures Done(State(), ret) == ExecOne(env, old(State()), Change(add, IpRule(rule)))
    {
      hide RuleError, Apply;
      ret := RuleError(rule);
      if ret != 0 {
        return;
      }
      var i := 0;
      while i < 2
        invariant 0 <= i <= 2
        invariant interfaceToTable == old(interfaceToTable) && clock == old(clock) + i
        invariant i == 0 ==> State() == old(State())
        invariant i >= 1 ==> Apply(old(v4), add, IpRule(rule), env.reply(old(clock))) == Applied(v4, 0)
        invariant i <= 1 ==> v6 == old(v6)
        invariant i == 2 ==> Apply(old(v6), add, IpRule(rule), env.reply(old(clock) + 1)) == Applied(v6, 0)
      {
        ret := Send(i == 1, add, IpRule(rule));
        if ret != 0 {
          return;
        }
        i := i + 1;
      }
      return 0;
    }

    method ModifyIncomingPacketMark(netId: nat, interface: string, permission: Permission, add: bool) returns (ret: int)
      requires Valid()
      modifies this
      ensures Valid()
      ensures Done(State(), ret) ==
                ExecOne(env, old(State()), Change(add, IncomingPacketMark(netId, interface, permission)))
    {
      hide Apply;
      var fwmark := Fwmark(NetIdBits(netId), true, true, permission);
      var ret4 := Send(false, add, IncomingMark(interface, fwmark));
      var ret6 := Send(true, add, IncomingMark(interface, fwmark));
      if ret4 != 0 || ret6 != 0 {
        return -EREMOTEIO;
      }
      return 0;
    }

    method ModifyLocalNetwork(netId: nat, interface: string, add: bool) returns (ret: int)
      requires Valid()
      modifies this
      ensures Valid()
      ensures Done(State(), ret) == Exec(env, old(State()), PartRequests(env, LocalPart(netId), interface, add))
    {
      hide Exec, ExecOne, ChangeAll, IncomingPacketMark, OutputInterfaceRule;
      var mark := IncomingPacketMark(netId, interface, PERMISSION_NONE);
      var output := OutputInterfaceRule(interface, TABLE_LOCAL_NETWORK, PERMISSION_NONE, INVALID_UID, INVALID_UID);
      assert [mark] + [IpRule(output)] == PartItems(env, LocalPart(netId), interface);
      ChangeStep(env, State(), mark, [IpRule(output)], add);
      ret := ModifyIncomingPacketMark(netId, interface, PERMISSION_NONE, add);
      if ret != 0 {
        return;
      }
      ChangeStep(env, State(), IpRule(output), [], add);
      assert [IpRule(output)] == [IpRule(output)] + [];
      ret := ModifyIpRule(add, output);
      NothingLeft(env, State(), add);
    }

    method ModifyPhysicalNetwork(netId: nat, interface: string, permission: Permission, add: bool) returns (ret: int)
      requires Valid()
      modifies this
      ensures Valid()
      ensures Done(State(), ret) ==
                Exec(env, old(State()), PartRequests(env, PhysicalPart(netId, permission), interface, add))
    {
      hide Exec, ExecOne, ChangeAll, IncomingPacketMark, OutputInterfaceRule, ExplicitNetworkRule, ImplicitNetworkRule;
      ghost var t := TableOf(env, interface);
      ghost var mark := IncomingPacketMark(netId, interface, permission);
      ghost var explicit := IpRule(ExplicitNetworkRule(netId, t, permission, INVALID_UID, INVALID_UID));
      ghost var output := IpRule(OutputInterfaceRule(interface, t, permission, INVALID_UID, INVALID_UID));
      ghost var implicit := IpRule(ImplicitNetworkRule(netId, t, permission));
      assert PartItems(env, PhysicalPart(netId, permission), interface) == [mark] +
               ([explicit] + ([output] + ([implicit] + [])));
      hide PartItems;
      RequestStep(env, State(), Lookup(interface),
                  ChangeAll([mark] + ([explicit] + ([output] + ([implicit] + []))), add));
      var table := GetRouteTableForInterface(interface);
      if table == RT_TABLE_UNSPEC {
        return -ESRCH;
      }
      ChangeStep(env, State(), mark, [explicit] + ([output] + ([implicit] + [])), add);
      ret := ModifyIncomingPacketMark(netId, interface, permission, add);
      if ret != 0 {
        return;
      }
      ChangeStep(env, State(), explicit, [output] + ([implicit] + []), add);
      ret := ModifyIpRule(add, ExplicitNetworkRule(netId, table, permission, INVALID_UID, INVALID_UID));
      if ret != 0 {
        return;
      }
      ChangeStep(env, State(), output, [implicit] + [], add);
      ret := ModifyIpRule(add, OutputInterfaceRule(interface, table, permission, INVALID_UID, INVALID_UID));
      if ret != 0 {
        return;
      }
      ChangeStep(env, State(), implicit, [], add);
      ret := ModifyIpRule(add, ImplicitNetworkRule(netId, table, permission));
      NothingLeft(env, State(), add);
    }

    method ModifyVirtualNetwork(netId: nat, interface: string, ranges: seq<Range>, secure: bool, add: bool,
                                modifyNonUidBasedRules: bool) returns (ret: int)
      requires Valid()
      modifies this
      ensures Valid()
      ensures var part := if modifyNonUidBasedRules then VirtualPart(netId, ranges, secure)
              else UsersPart(netId, ranges, secure);
              Done(State(), ret) == Exec(env, old(State()), PartRequests(env, part, interface, add))
    {
      ghost var t := TableOf(env, interface);
      ghost var fixed := if modifyNonUidBasedRules then FixedItems(netId, interface, t, secure) else [];
      ghost var users := UserItems(netId, interface, t, ranges, secure);
      assert users == users + [];
      RequestStep(env, State(), Lookup(interface), ChangeAll(users + fixed, add));
      hide Exec, ExecOne, ChangeAll, FixedItems, UserItems;
      var table := GetRouteTableForInterface(interface);
      if table == RT_TABLE_UNSPEC {
        return -ESRCH;
      }
      ret := ModifyUsers(netId, interface, ranges, secure, add, table, fixed);
      if ret != 0 {
        return;
      }
      if modifyNonUidBasedRules {
        ret := ModifyFixedRules(netId, interface, secure, add, table);
        return;
      }
      NothingLeft(env, State(), add);
      return 0;
    }

    /** The loop over the user ranges; `rest` is what comes after it. */
    method ModifyUsers(netId: nat, interface: string, ranges: seq<Range>, secure: bool, add: bool, table: nat,
                       ghost rest: seq<Item>) returns (ret: int)
      requires Valid()
      modifies this
      ensures Valid()
      ensures Exec(env, old(State()), ChangeAll(UserItems(netId, interface, table, ranges, secure) + rest, add))
           == if ret != 0 then Done(State(), ret) else Exec(env, State(), ChangeAll(rest, add))
    {
      hide Exec, ExecOne, ChangeAll, VpnUidRangeRule, ExplicitNetworkRule, OutputInterfaceRule;
      ghost var all := Exec(env, State(), ChangeAll(UserItems(netId, interface, table, ranges, secure) + rest, add));
      for i := 0 to |ranges|
        invariant Valid()
        invariant all ==
                    Exec(env, State(), ChangeAll(UserItems(netId, interface, table, ranges[i..], secure) + rest, add))
      {
        var range := ranges[i];
        ghost var vpn := IpRule(VpnUidRangeRule(table, range, secure));
        ghost var explicit := IpRule(ExplicitNetworkRule(netId, table, PERMISSION_NONE, range.first, range.last));
        ghost var output := IpRule(OutputInterfaceRule(interface, table, PERMISSION_NONE, range.first, range.last));
        ghost var others := UserItems(netId, interface, table, ranges[i + 1..], secure) + rest;
        assert ranges[i..][0] == range && ranges[i..][1..] == ranges[i + 1..];
        assert UserItems(netId, interface, table, ranges[i..], secure) + rest == [vpn] +
                 ([explicit] + ([output] + others));
        ChangeStep(env, State(), vpn, [explicit] + ([output] + others), add);
        ret := ModifyIpRule(add, VpnUidRangeRule(table, range, secure));
        if ret != 0 {
          return;
        }
        ChangeStep(env, State(), explicit, [output] + others, add);
        ret := ModifyIpRule(add, ExplicitNetworkRule(netId, table, PERMISSION_NONE, range.first, range.last));
        if ret != 0 {
          return;
        }
        ChangeStep(env, State(), output, others, add);
        ret := ModifyIpRule(add, OutputInterfaceRule(interface, table, PERMISSION_NONE, range.first, range.last));
        if ret != 0 {
          return;
        }
      }
      assert UserItems(netId, interface, table, ranges[|ranges|..], secure) + rest == rest;
      return 0;
    }

    /** The rules of a VPN interface that do not depend on the users. */
    method ModifyFixedRules(netId: nat, interface: string, secure: bool, add: bool, table: nat) returns (ret: int)
      requires Valid()
      modifies this
      ensures Valid()
      ensures Done(State(), ret) == Exec(env, old(State()), ChangeAll(FixedItems(netId, interface, table, secure), add))
    {
      hide Exec, ExecOne, ChangeAll, IncomingPacketMark, VpnOutputToLocalRule, VpnSystemPermissionRule,
           ExplicitNetworkRule;
      ghost var mark := IncomingPacketMark(netId, interface, PERMISSION_NONE);
      ghost var local := IpRule(VpnOutputToLocalRule(interface));
      ghost var system := IpRule(VpnSystemPermissionRule(netId, table, secure));
      ghost var root := IpRule(ExplicitNetworkRule(netId, table, PERMISSION_NONE, UID_ROOT, UID_ROOT));
      assert FixedItems(netId, interface, table, secure) == [mark] + ([local] + ([system] + ([root] + [])));
      hide FixedItems;
      ChangeStep(env, State(), mark, [local] + ([system] + ([root] + [])), add);
      ret := ModifyIncomingPacketMark(netId, interface, PERMISSION_NONE, add);
      if ret != 0 {
        return;
      }
      ChangeStep(env, State(), local, [system] + ([root] + []), add);
      ret := ModifyIpRule(add, VpnOutputToLocalRule(interface));
      if ret != 0 {
        return;
      }
      ChangeStep(env, State(), system, [root] + [], add);
      ret := ModifyIpRule(add, VpnSystemPermissionRule(netId, table, secure));
      if ret != 0 {
        return;
      }
      ChangeStep(env, State(), root, [], add);
      ret := ModifyIpRule(add, ExplicitNetworkRule(netId, table, PERMISSION_NONE, UID_ROOT, UID_ROOT));
      NothingLeft(env, State(), add);
    }

    method ModifyDefaultNetwork(add: bool, interface: string, permission: Permission) returns (ret: int)
      requires Valid()
      modifies this
      ensures Valid()
      ensures Done(State(), ret) == LookedUp(env, old(State()), interface, add,
                                             IpRule(DefaultNetworkRule(TableOf(env, interface), permission)))
    {
      hide ExecOne, DefaultNetworkRule;
      var table := GetRouteTableForInterface(interface);
      if table == RT_TABLE_UNSPEC {
        return -ESRCH;
      }
      ret := ModifyIpRule(add, DefaultNetworkRule(table, permission));
    }

    method ModifyVpnFallthroughRule(add: bool, vpnNetId: nat, physicalInterface: string,
                                    permission: Permission) returns (ret: int)
      requires Valid()
      modifies this
      ensures Valid()
      ensures Done(State(), ret) ==
                LookedUp(env, old(State()), physicalInterface, add,
                         IpRule(VpnFallthroughRule(vpnNetId, TableOf(env, physicalInterface), permission)))
    {
      hide ExecOne, VpnFallthroughRule;
      var table := GetRouteTableForInterface(physicalInterface);
      if table == RT_TABLE_UNSPEC {
        return -ESRCH;
      }
      ret := ModifyIpRule(add, VpnFallthroughRule(vpnNetId, table, permission));
    }

    method ModifyTetheredNetwork(add: bool, inputInterface: string, outputInterface: string) returns (ret: int)
      requires Valid()
      modifies this
      ensures Valid()
      ensures Done(State(), ret) == LookedUp(env, old(State()), outputInterface, add,
                                             IpRule(TetheringRule(inputInterface, TableOf(env, outputInterface))))
    {
      hide ExecOne, TetheringRule;
      var table := GetRouteTableForInterface(outputInterface);
      if table == RT_TABLE_UNSPEC {
        return -ESRCH;
      }
      ret := ModifyIpRule(add, TetheringRule(inputInterface, table));
    }

    /** `ip route flush` for one address family, at most twice. */
    method FlushFamilyRoutes() returns (ok: bool)
      modifies this`clock
      ensures (ok, clock) == FlushFamily(env, old(clock))
    {
      var attempts := 0;
      var err := -1;
      while attempts == 0 || (err != 0 && attempts < 2)
        invariant 0 <= attempts <= 2 && clock == old(clock) + attempts
        invariant attempts >= 1 ==> err == env.reply(old(clock) + attempts - 1)
        invariant attempts == 2 ==> env.reply(old(clock)) != 0
        decreases 2 - attempts
      {
        err := env.reply(clock);
        clock := clock + 1;
        attempts := attempts + 1;
      }
      ok := err == 0;
    }

    method FlushRoutes(interface: string) returns (ret: int)
      requires Valid()
      modifies this
      ensures Valid()
      ensures Done(State(), ret) == ExecOne(env, old(State()), Flush(interface))
    {
      var table := GetRouteTableForInterface(interface);
      if table == RT_TABLE_UNSPEC {
        return -ESRCH;
      }
      ret := 0;
      var ok := FlushFamilyRoutes();
      if !ok {
        ret := -EREMOTEIO;
      }
      ok := FlushFamilyRoutes();
      if !ok {
        ret := -EREMOTEIO;
      }
      if ret == 0 {
        interfaceToTable := interfaceToTable - {interface};
      }
    }

    /** `ip rule flush` for one address family. */
    method FlushFamilyRules(ipv6: bool) returns (ok: bool)
      modifies this`v4, this`v6, this`clock
      ensures clock == old(clock) + 1 && ok == (env.reply(old(clock)) == 0)
      ensures v4 == if ok && !ipv6 then Marks(old(v4)) else old(v4)
      ensures v6 == if ok && ipv6 then Marks(old(v6)) else old(v6)
    {
      hide Marks;
      ok := env.reply(clock) == 0;
      clock := clock + 1;
      if ok && ipv6 {
        v6 := WithoutRules(v6);
      } else if ok {
        v4 := WithoutRules(v4);
      }
    }

    method FlushRules() returns (ret: int)
      requires Valid()
      modifies this
      ensures Valid()
      ensures Done(State(), ret) == ExecFlushRules(env, old(State()))
    {
      hide Marks;
      var ok := FlushFamilyRules(false);
      if !ok {
        return -EREMOTEIO;
      }
      ok := FlushFamilyRules(true);
      if !ok {
        return -EREMOTEIO;
      }
      return 0;
    }

    method Init() returns (ret: int)
      requires Valid()
      modifies this
      ensures Valid()
      ensures Done(State(), ret) == StartRules(env, old(State()))
    {
      hide Exec, ExecOne, ChangeAll, ExecFlushRules;
      ret := FlushRules();
      if ret != 0 {
        return;
      }
      ret := AddRules();
    }

    /** addLegacyRouteRules(), addLocalNetworkRules(), addDirectlyConnectedRule(), addUnreachableRule() */
    method AddRules() returns (ret: int)
      requires Valid()
      modifies this
      ensures Valid()
      ensures Done(State(), ret) == Exec(env, old(State()), ChangeAll(InitItems(), true))
    {
      hide Exec, ExecOne, ChangeAll, ExplicitNetworkRule;
      var fwmark, mask := Fwmark(0, false, false, PERMISSION_NONE), Fwmark(0, true, false, PERMISSION_NONE);
      var legacySystem := PlainRule(PRIORITY_LEGACY_SYSTEM, TABLE_LEGACY_SYSTEM, fwmark, mask);
      var legacyNetwork := PlainRule(PRIORITY_LEGACY_NETWORK, TABLE_LEGACY_NETWORK, fwmark, mask);
      var override := PlainRule(PRIORITY_VPN_OVERRIDE_SYSTEM, TABLE_LEGACY_SYSTEM,
                                fwmark.(permission := PERMISSION_SYSTEM), mask.(permission := PERMISSION_SYSTEM));
      var explicit := ExplicitNetworkRule(LOCAL_NET_ID, TABLE_LOCAL_NETWORK, PERMISSION_NONE, INVALID_UID, INVALID_UID);
      var local := PlainRule(PRIORITY_LOCAL_NETWORK, TABLE_LOCAL_NETWORK, fwmark, mask);
      var connected :=
        Rule(PRIORITY_DIRECTLY_CONNECTED, RT_TABLE_MAIN, Fwmark(NETID_UNSET, false, false, PERMISSION_NONE),
                            Fwmark(FWMARK_NET_ID_MASK, false, false, PERMISSION_NONE), None, None, UID_ROOT, UID_ROOT);
      var unreachable := PlainRule(PRIORITY_UNREACHABLE, RT_TABLE_UNSPEC, NO_MARK, NO_MARK);
      ghost var rules := [legacySystem, legacyNetwork, override, explicit, local, connected, unreachable];
      ghost var items := seq(7, i requires 0 <= i < 7 => IpRule(rules[i]));
      assert InitItems() == items;
      hide InitItems, PlainRule;
      assert items == [IpRule(legacySystem)] + items[1..];
      ChangeStep(env, State(), IpRule(legacySystem), items[1..], true);
      ret := ModifyIpRule(true, legacySystem);
      if ret != 0 {
        return;
      }
      assert items[1..] == [IpRule(legacyNetwork)] + items[2..];
      ChangeStep(env, State(), IpRule(legacyNetwork), items[2..], true);
      ret := ModifyIpRule(true, legacyNetwork);
      if ret != 0 {
        return;
      }
      assert items[2..] == [IpRule(override)] + items[3..];
      ChangeStep(env, State(), IpRule(override), items[3..], true);
      ret := ModifyIpRule(true, override);
      if ret != 0 {
        return;
      }
      assert items[3..] == [IpRule(explicit)] + items[4..];
      ChangeStep(env, State(), IpRule(explicit), items[4..], true);
      ret := ModifyIpRule(true, explicit);
      if ret != 0 {
        return;
      }
      assert items[4..] == [IpRule(local)] + items[5..];
      ChangeStep(env, State(), IpRule(local), items[5..], true);
      ret := ModifyIpRule(true, local);
      if ret != 0 {
        return;
      }
      assert items[5..] == [IpRule(connected)] + items[6..];
      ChangeStep(env, State(), IpRule(connected), items[6..], true);
      ret := ModifyIpRule(true, connected);
      if ret != 0 {
        return;
      }
      assert items[6..] == [IpRule(unreachable)] + items[7..];
      ChangeStep(env, State(), IpRule(unreachable), items[7..], true);
      ret := ModifyIpRule(true, unreachable);
      NothingLeft(env, State(), true);
    }
  }
}
