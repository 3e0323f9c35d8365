/** The network classes (server/Network.cpp, LocalNetwork.cpp, PhysicalNetwork.cpp, VirtualNetwork.cpp). A network
    changes its own fields only when every request it made succeeded. */
module Networks {
  import opened Fwmarks
  import opened Kernels
  import opened Uids
  import opened Rules
  import opened Controllers
  import opened RouteControllers

  datatype Result = Result(kernel: Kernel, network: Network, ret: int)

  /** Issue requests; the network becomes `after` if all succeed and stays `before` otherwise. */
  ghost function Commit(env: Env, k: Kernel, requests: seq<Request>, before: Network, after: Network): Result {
    var d := Exec(env, k, requests);
    Result(d.kernel, if d.ret == 0 then after else before, d.ret)
  }

  ghost function WithInterfaces(n: Network, interfaces: seq<string>): Network {
    n.(interfaces := interfaces)
  }

  lemma EachStep(env: Env, k: Kernel, part: Part, interface: string, rest: seq<string>, add: bool)
    ensures var d := Exec(env, k, PartRequests(env, part, interface, add));
            Exec(env, k, EachInterface(env, part, [interface] + rest, add))
            == if d.ret != 0 then d else Exec(env, d.kernel, EachInterface(env, part, rest, add))
  {
    assert ([interface] + rest)[1..] == rest;
    ExecConcat(env, k, PartRequests(env, part, interface, add), EachInterface(env, part, rest, add));
  }

  lemma SwapStep(env: Env, k: Kernel, new': Part, old': Part, interface: string, rest: seq<string>)
    ensures var d := Exec(env, k, PartRequests(env, new', interface, true));
            var e := Exec(env, d.kernel, PartRequests(env, old', interface, false));
            Exec(env, k, EachSwap(env, new', old', [interface] + rest))
            == if d.ret != 0 then d else if e.ret != 0 then e else Exec(env, e.kernel, EachSwap(env, new', old', rest))
  {
    hide Exec, PartRequests;
    var a, b := PartRequests(env, new', interface, true), PartRequests(env, old', interface, false);
    var c := EachSwap(env, new', old', rest);
    assert ([interface] + rest)[1..] == rest;
    assert EachSwap(env, new', old', [interface] + rest) == a + b + c;
    ExecConcat(env, k, a + b, c);
    ExecConcat(env, k, a, b);
  }

  lemma NoInterfaces(env: Env, k: Kernel, part: Part, part': Part, add: bool)
    ensures Exec(env, k, EachInterface(env, part, [], add)) == Done(k, 0)
    ensures Exec(env, k, EachSwap(env, part, part', [])) == Done(k, 0)
  {
  }

  /** What removing an interface's rules and then flushing its routes amounts to. */
  lemma ThenFlush(env: Env, k: Kernel, requests: seq<Request>, interface: string)
    ensures var d := Exec(env, k, requests);
            Exec(env, k, requests + [Flush(interface)]) ==
            if d.ret != 0 then d else ExecOne(env, d.kernel, Flush(interface))
  {
    ExecConcat(env, k, requests, [Flush(interface)]);
    var d := Exec(env, k, requests);
    RequestStep(env, d.kernel, Flush(interface), []);
    assert [Flush(interface)] == [Flush(interface)] + [];
  }

  class LocalNetwork {
    const netId: nat
    var interfaces: seq<string>

    ghost function Value(): Network
      reads this
    {
      Local(interfaces)
    }

    constructor (netId: nat)
      ensures this.netId == netId && Value() == Local([])
    {
      this.netId := netId;
      interfaces := [];
    }

    method AddInterface(routes: RouteController, interface: string, ghost vpns: seq<nat>) returns (ret: int)
      requires routes.Valid()
      modifies this, routes
      ensures routes.Valid()
      ensures interface in old(interfaces) ==>
                ret == 0 && Value() == old(Value()) && routes.State() == old(routes.State())
      ensures interface !in old(interfaces) ==>
                Result(routes.State(), Value(), ret) ==
                Commit(routes.env, old(routes.State()),
                       AttachRequests(routes.env, vpns, netId, old(Value()), interface),
                       old(Value()), WithInterfaces(old(Value()), InsertName(old(interfaces), interface)))
    {
      hide Exec, PartRequests, InsertName;
      if interface in interfaces {
        return 0;
      }
      ghost var requests := PartRequests(routes.env, LocalPart(netId), interface, true);
      assert requests + [] == requests;
      ret := routes.ModifyLocalNetwork(netId, interface, true);
      if ret != 0 {
        return;
      }
      interfaces := InsertName(interfaces, interface);
      return 0;
    }

    method RemoveInterface(routes: RouteController, interface: string, ghost vpns: seq<nat>) returns (ret: int)
      requires routes.Valid()
      modifies this, routes
      ensures routes.Valid()
      ensures interface !in old(interfaces) ==>
                ret == 0 && Value() == old(Value()) && routes.State() == old(routes.State())
      ensures interface in old(interfaces) ==>
                Result(routes.State(), Value(), ret) ==
                Commit(routes.env, old(routes.State()),
                       DetachRequests(routes.env, vpns, netId, old(Value()), interface),
                       old(Value()), WithInterfaces(old(Value()), EraseName(old(interfaces), interface)))
    {
      hide Exec, PartRequests, EraseName;
      if interface !in interfaces {
        return 0;
      }
      ghost var requests := PartRequests(routes.env, LocalPart(netId), interface, false);
      assert [] + requests + [] == requests;
      ret := routes.ModifyLocalNetwork(netId, interface, false);
      if ret != 0 {
        return;
      }
      interfaces := EraseName(interfaces, interface);
      return 0;
    }
  }

  class PhysicalNetwork {
    const netId: nat
    var interfaces: seq<string>
    var permission: Permission
    var isDefault: bool

    ghost function Value(): Network
      reads this
    {
      Physical(interfaces, permission, isDefault)
    }

    constructor (netId: nat)
      ensures this.netId == netId && Value() == Physical([], PERMISSION_NONE, false)
    {
      this.netId := netId;
      interfaces, permission, isDefault := [], PERMISSION_NONE, false;
    }

    /** addToDefault() and removeFromDefault(): the default rule, then the fallthrough of every VPN. */
    method ModifyDefault(routes: RouteController, vpns: seq<nat>, interface: string, permission: Permission,
                         add: bool) returns (ret: int)
      requires routes.Valid()
      modifies routes
      ensures routes.Valid()
      ensures Done(routes.State(), ret) ==
              Exec(routes.env, old(routes.State()),
                   PartRequests(routes.env, DefaultPart(vpns, permission), interface, add))
    {
      hide Exec, LookupAndChangeAll, LookedUp, DefaultNetworkRule, VpnFallthroughRule;
      ghost var env := routes.env;
      ghost var table := TableOf(env, interface);
      ghost var all := Exec(env, routes.State(), PartRequests(env, DefaultPart(vpns, permission), interface, add));
      LookupStep(env, routes.State(), interface, IpRule(DefaultNetworkRule(table, permission)),
                 FallthroughItems(vpns, table, permission), add);
      ret := routes.ModifyDefaultNetwork(add, interface, permission);
      if ret != 0 {
        return;
      }
      for i := 0 to |vpns|
        invariant routes.Valid()
        invariant all == Exec(env, routes.State(),
                              LookupAndChangeAll(interface, FallthroughItems(vpns[i..], table, permission), add))
      {
        assert vpns[i..][0] == vpns[i] && vpns[i..][1..] == vpns[i + 1..];
        LookupStep(env, routes.State(), interface, IpRule(VpnFallthroughRule(vpns[i], table, permission)),
                   FallthroughItems(vpns[i + 1..], table, permission), add);
        ret := routes.ModifyVpnFallthroughRule(add, vpns[i], interface, permission);
        if ret != 0 {
          return;
        }
      }
      NoLookups(env, routes.State(), interface, add);
      return 0;
    }

    method AddAsDefault(routes: RouteController, vpns: seq<nat>) returns (ret: int)
      requires routes.Valid()
      modifies this, routes
      ensures routes.Valid()
      ensures old(isDefault) ==> ret == 0 && Value() == old(Value()) && routes.State() == old(routes.State())
      ensures !old(isDefault) ==>
                Result(routes.State(), Value(), ret) ==
                Commit(routes.env, old(routes.State()),
                       EachInterface(routes.env, DefaultPart(vpns, old(permission)), old(interfaces), true),
                       old(Value()), old(Value()).(isDefault := true))
    {
      if isDefault {
        return 0;
      }
      ret := ModifyDefaultOnAll(routes, vpns, true);
      if ret != 0 {
        return;
      }
      isDefault := true;
      return 0;
    }

    method RemoveAsDefault(routes: RouteController, vpns: seq<nat>) returns (ret: int)
      requires routes.Valid()
      modifies this, routes
      ensures routes.Valid()
      ensures !old(isDefault) ==> ret == 0 && Value() == old(Value()) && routes.State() == old(routes.State())
      ensures old(isDefault) ==>
                Result(routes.State(), Value(), ret) ==
                Commit(routes.env, old(routes.State()),
                       EachInterface(routes.env, DefaultPart(vpns, old(permission)), old(interfaces), false),
                       old(Value()), old(Value()).(isDefault := false))
    {
      if !isDefault {
        return 0;
      }
      ret := ModifyDefaultOnAll(routes, vpns, false);
      if ret != 0 {
        return;
      }
      isDefault := false;
      return 0;
    }

    method ModifyDefaultOnAll(routes: RouteController, vpns: seq<nat>, add: bool) returns (ret: int)
      requires routes.Valid()
      modifies routes
      ensures routes.Valid()
      ensures Done(routes.State(), ret) ==
              Exec(routes.env, old(routes.State()),
                   EachInterface(routes.env, DefaultPart(vpns, permission), interfaces, add))
    {
      hide Exec, PartRequests, EachInterface;
      ghost var env := routes.env;
      ghost var part := DefaultPart(vpns, permission);
      ghost var all := Exec(env, routes.State(), EachInterface(env, part, interfaces, add));
      assert interfaces[0..] == interfaces;
      for i := 0 to |interfaces|
        invariant routes.Valid()
        invariant all == Exec(env, routes.State(), EachInterface(env, part, interfaces[i..], add))
      {
        assert interfaces[i..] == [interfaces[i]] + interfaces[i + 1..];
        EachStep(env, routes.State(), part, interfaces[i], interfaces[i + 1..], add);
        ret := ModifyDefault(routes, vpns, interfaces[i], permission, add);
        if ret != 0 {
          return;
        }
      }
      NoInterfaces(env, routes.State(), part, part, add);
      return 0;
    }

    /** The new rules of every interface go in before its old ones come out. */
    method SetPermission(routes: RouteController, vpns: seq<nat>, permission: Permission) returns (ret: int)
      requires routes.Valid()
      modifies this, routes
      ensures routes.Valid()
      ensures permission == old(this.permission) ==>
                ret == 0 && Value() == old(Value()) && routes.State() == old(routes.State())
      ensures permission != old(this.permission) ==>
                Result(routes.State(), Value(), ret) ==
                Commit(routes.env, old(routes.State()),
                       SetPermissionRequests(routes.env, vpns, netId, old(Value()), permission),
                       old(Value()), old(Value()).(permission := permission))
    {
      hide Exec, PartRequests, EachSwap;
      if permission == this.permission {
        return 0;
      }
      ghost var env := routes.env;
      ghost var first :=
        EachSwap(env, PhysicalPart(netId, permission), PhysicalPart(netId, this.permission), interfaces);
      ghost var second := if isDefault
      then EachSwap(env, DefaultPart(vpns, permission), DefaultPart(vpns, this.permission), interfaces) else [];
      ExecConcat(env, routes.State(), first, second);
      ret := SwapPhysical(routes, permission);
      if ret != 0 {
        return;
      }
      if isDefault {
        ret := SwapDefault(routes, vpns, permission);
        if ret != 0 {
          return;
        }
      } else {
        NothingLeft(env, routes.State(), true);
      }
      this.permission := permission;
      return 0;
    }

    method SwapPhysical(routes: RouteController, permission: Permission) returns (ret: int)
      requires routes.Valid()
      modifies routes
      ensures routes.Valid()
      ensures Done(routes.State(), ret) ==
              Exec(routes.env, old(routes.State()),
                   EachSwap(routes.env, PhysicalPart(netId, permission), PhysicalPart(netId, this.permission),
                            interfaces))
    {
      hide Exec, PartRequests, EachSwap;
      ghost var env := routes.env;
      ghost var new', old' := PhysicalPart(netId, permission), PhysicalPart(netId, this.permission);
      ghost var all := Exec(env, routes.State(), EachSwap(env, new', old', interfaces));
      assert interfaces[0..] == interfaces;
      for i := 0 to |interfaces|
        invariant routes.Valid()
        invariant all == Exec(env, routes.State(), EachSwap(env, new', old', interfaces[i..]))
      {
        assert interfaces[i..] == [interfaces[i]] + interfaces[i + 1..];
        SwapStep(env, routes.State(), new', old', interfaces[i], interfaces[i + 1..]);
        ret := routes.ModifyPhysicalNetwork(netId, interfaces[i], permission, true);
        if ret != 0 {
          return;
        }
        ret := routes.ModifyPhysicalNetwork(netId, interfaces[i], this.permission, false);
        if ret != 0 {
          return;
        }
      }
      NoInterfaces(env, routes.State(), new', old', true);
      return 0;
    }

    method SwapDefault(routes: RouteController, vpns: seq<nat>, permission: Permission) returns (ret: int)
      requires routes.Valid()
      modifies routes
      ensures routes.Valid()
      ensures Done(routes.State(), ret) ==
              Exec(routes.env, old(routes.State()),
                   EachSwap(routes.env, DefaultPart(vpns, permission), DefaultPart(vpns, this.permission), interfaces))
    {
      hide Exec, PartRequests, EachSwap;
      ghost var env := routes.env;
      ghost var new', old' := DefaultPart(vpns, permission), DefaultPart(vpns, this.permission);
      ghost var all := Exec(env, routes.State(), EachSwap(env, new', old', interfaces));
      assert interfaces[0..] == interfaces;
      for i := 0 to |interfaces|
        invariant routes.Valid()
        invariant all == Exec(env, routes.State(), EachSwap(env, new', old', interfaces[i..]))
      {
        assert interfaces[i..] == [interfaces[i]] + interfaces[i + 1..];
        SwapStep(env, routes.State(), new', old', interfaces[i], interfaces[i + 1..]);
        ret := ModifyDefault(routes, vpns, interfaces[i], permission, true);
        if ret != 0 {
          return;
        }
        ret := ModifyDefault(routes, vpns, interfaces[i], this.permission, false);
        if ret != 0 {
          return;
        }
      }
      NoInterfaces(env, routes.State(), new', old', true);
      return 0;
    }

    method AddInterface(routes: RouteController, interface: string, vpns: seq<nat>) returns (ret: int)
      requires routes.Valid()
      modifies this, routes
      ensures routes.Valid()
      ensures interface in old(interfaces) ==>
                ret == 0 && Value() == old(Value()) && routes.State() == old(routes.State())
      ensures interface !in old(interfaces) ==>
                Result(routes.State(), Value(), ret) ==
                Commit(routes.env, old(routes.State()),
                       AttachRequests(routes.env, vpns, netId, old(Value()), interface),
                       old(Value()), WithInterfaces(old(Value()), InsertName(old(interfaces), interface)))
    {
      hide Exec, PartRequests, InsertName;
      if interface in interfaces {
        return 0;
      }
      ghost var env := routes.env;
      ghost var first := PartRequests(env, PhysicalPart(netId, permission), interface, true);
      ghost var second := if isDefault then PartRequests(env, DefaultPart(vpns, permission), interface, true) else [];
      ExecConcat(env, routes.State(), first, second);
      ret := routes.ModifyPhysicalNetwork(netId, interface, permission, true);
      if ret != 0 {
        return;
      }
      if isDefault {
        ret := ModifyDefault(routes, vpns, interface, permission, true);
        if ret != 0 {
          return;
        }
      } else {
        NothingLeft(env, routes.State(), true);
      }
      interfaces := InsertName(interfaces, interface);
      return 0;
    }

    /** The flush forgets the interface's table, so it comes last. */
    method RemoveInterface(routes: RouteController, interface: string, vpns: seq<nat>) returns (ret: int)
      requires routes.Valid()
      modifies this, routes
      ensures routes.Valid()
      ensures interface !in old(interfaces) ==>
                ret == 0 && Value() == old(Value()) && routes.State() == old(routes.State())
      ensures interface in old(interfaces) ==>
                Result(routes.State(), Value(), ret) ==
                Commit(routes.env, old(routes.State()),
                       DetachRequests(routes.env, vpns, netId, old(Value()), interface),
                       old(Value()), WithInterfaces(old(Value()), EraseName(old(interfaces), interface)))
    {
      hide Exec, ExecOne, PartRequests, EraseName;
      if interface !in interfaces {
        return 0;
      }
      ghost var env := routes.env;
      ghost var first := if isDefault then PartRequests(env, DefaultPart(vpns, permission), interface, false) else [];
      ghost var second := PartRequests(env, PhysicalPart(netId, permission), interface, false);
      ThenFlush(env, routes.State(), first + second, interface);
      ExecConcat(env, routes.State(), first, second);
      if isDefault {
        ret := ModifyDefault(routes, vpns, interface, permission, false);
        if ret != 0 {
          return;
        }
      } else {
        NothingLeft(env, routes.State(), true);
      }
      ret := routes.ModifyPhysicalNetwork(netId, interface, permission, false);
      if ret != 0 {
        return;
      }
      ret := routes.FlushRoutes(interface);
      if ret != 0 {
        return;
      }
      interfaces := EraseName(interfaces, interface);
      return 0;
    }
  }

  lemma NoLookups(env: Env, k: Kernel, interface: string, add: bool)
    ensures Exec(env, k, LookupAndChangeAll(interface, [], add)) == Done(k, 0)
  {
  }

  class VirtualNetwork {
    const netId: nat
    const hasDns: bool
    const secure: bool
    var interfaces: seq<string>
    var uidRanges: seq<Range>

    ghost function Value(): Network
      reads this
    {
      Virtual(interfaces, hasDns, secure, uidRanges)
    }

    constructor (netId: nat, hasDns: bool, secure: bool)
      ensures this.netId == netId && Value() == Virtual([], hasDns, secure, [])
    {
      this.netId, this.hasDns, this.secure := netId, hasDns, secure;
      interfaces, uidRanges := [], [];
    }

    /** addUsers() and removeUsers() */
    method ChangeUsers(routes: RouteController, ranges: seq<Range>, add: bool) returns (ret: int)
      requires routes.Valid()
      modifies this, routes
      ensures routes.Valid()
      ensures Result(routes.State(), Value(), ret) ==
              Commit(routes.env, old(routes.State()),
                     EachInterface(routes.env, UsersPart(netId, ranges, secure), old(interfaces), add),
                     old(Value()), old(Value()).(ranges := if add then Merge(old(uidRanges), ranges)
                                                 else Difference(old(uidRanges), ranges)))
    {
      hide Exec, PartRequests, EachInterface, Merge, Difference;
      ghost var env := routes.env;
      ghost var part := UsersPart(netId, ranges, secure);
      ghost var all := Exec(env, routes.State(), EachInterface(env, part, interfaces, add));
      assert interfaces[0..] == interfaces;
      for i := 0 to |interfaces|
        invariant routes.Valid() && Value() == old(Value())
        invariant all == Exec(env, routes.State(), EachInterface(env, part, interfaces[i..], add))
      {
        assert interfaces[i..] == [interfaces[i]] + interfaces[i + 1..];
        EachStep(env, routes.State(), part, interfaces[i], interfaces[i + 1..], add);
        ret := routes.ModifyVirtualNetwork(netId, interfaces[i], ranges, secure, add, false);
        if ret != 0 {
          return;
        }
      }
      NoInterfaces(env, routes.State(), part, part, add);
      uidRanges := if add then Merge(uidRanges, ranges) else Difference(uidRanges, ranges);
      return 0;
    }

    method AddInterface(routes: RouteController, interface: string, ghost vpns: seq<nat>) returns (ret: int)
      requires routes.Valid()
      modifies this, routes
      ensures routes.Valid()
      ensures interface in old(interfaces) ==>
                ret == 0 && Value() == old(Value()) && routes.State() == old(routes.State())
      ensures interface !in old(interfaces) ==>
                Result(routes.State(), Value(), ret) ==
                Commit(routes.env, old(routes.State()),
                       AttachRequests(routes.env, vpns, netId, old(Value()), interface),
                       old(Value()), WithInterfaces(old(Value()), InsertName(old(interfaces), interface)))
    {
      hide Exec, PartRequests, InsertName;
      if interface in interfaces {
        return 0;
      }
      ghost var requests := PartRequests(routes.env, VirtualPart(netId, uidRanges, secure), interface, true);
      assert requests + [] == requests;
      ret := routes.ModifyVirtualNetwork(netId, interface, uidRanges, secure, true, true);
      if ret != 0 {
        return;
      }
      interfaces := InsertName(interfaces, interface);
      return 0;
    }

    method RemoveInterface(routes: RouteController, interface: string, ghost vpns: seq<nat>) returns (ret: int)
      requires routes.Valid()
      modifies this, routes
      ensures routes.Valid()
      ensures interface !in old(interfaces) ==>
                ret == 0 && Value() == old(Value()) && routes.State() == old(routes.State())
      ensures interface in old(interfaces) ==>
                Result(routes.State(), Value(), ret) ==
                Commit(routes.env, old(routes.State()),
                       DetachRequests(routes.env, vpns, netId, old(Value()), interface),
                       old(Value()), WithInterfaces(old(Value()), EraseName(old(interfaces), interface)))
    {
      hide Exec, ExecOne, PartRequests, EraseName;
      if interface !in interfaces {
        return 0;
      }
      ghost var requests := PartRequests(routes.env, VirtualPart(netId, uidRanges, secure), interface, false);
      assert [] + requests == requests;
      ThenFlush(routes.env, routes.State(), requests, interface);
      ret := routes.ModifyVirtualNetwork(netId, interface, uidRanges, secure, false, true);
      if ret != 0 {
        return;
      }
      ret := routes.FlushRoutes(interface);
      if ret != 0 {
        return;
      }
      interfaces := EraseName(interfaces, interface);
      return 0;
    }
  }
}
