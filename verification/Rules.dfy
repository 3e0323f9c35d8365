/** The rules RouteController builds, and the requests each of its operations issues (server/RouteController.cpp). */
module Rules {
  import opened Wrappers
  import opened Fwmarks
  import opened Kernels
  import opened Uids
  import opened Sums

  const PRIORITY_VPN_OVERRIDE_SYSTEM: nat := 10000
  const PRIORITY_VPN_OUTPUT_TO_LOCAL: nat := 11000
  const PRIORITY_SECURE_VPN: nat := 12000
  const PRIORITY_EXPLICIT_NETWORK: nat := 13000
  const PRIORITY_OUTPUT_INTERFACE: nat := 14000
  const PRIORITY_LEGACY_SYSTEM: nat := 15000
  const PRIORITY_LEGACY_NETWORK: nat := 16000
  const PRIORITY_LOCAL_NETWORK: nat := 17000
  const PRIORITY_TETHERING: nat := 18000
  const PRIORITY_IMPLICIT_NETWORK: nat := 19000
  const PRIORITY_BYPASSABLE_VPN: nat := 20000
  const PRIORITY_VPN_FALLTHROUGH: nat := 21000
  const PRIORITY_DEFAULT_NETWORK: nat := 22000
  const PRIORITY_DIRECTLY_CONNECTED: nat := 23000
  const PRIORITY_UNREACHABLE: nat := 32000

  const TABLE_LOCAL_NETWORK: nat := 97
  const TABLE_LEGACY_NETWORK: nat := 98
  const TABLE_LEGACY_SYSTEM: nat := 99

  const LOCAL_NET_ID: nat := 99
  const UID_ROOT: nat := 0

  // ----- Rule builders -----

  function NetIdBits(netId: nat): nat { netId % 0x1_0000 }

  function PlainRule(priority: nat, table: nat, fwmark: Mark, mask: Mark): Rule {
    Rule(priority, table, fwmark, mask, None, None, INVALID_UID, INVALID_UID)
  }

  function IncomingPacketMark(netId: nat, interface: string, permission: Permission): Item {
    IncomingMark(interface, Fwmark(NetIdBits(netId), true, true, permission))
  }

  function VpnOutputToLocalRule(vpnInterface: string): Rule {
    Rule(PRIORITY_VPN_OUTPUT_TO_LOCAL, TABLE_LOCAL_NETWORK, NO_MARK, NO_MARK, Some(vpnInterface), None,
         INVALID_UID, INVALID_UID)
  }

  function VpnUidRangeRule(table: nat, range: Range, secure: bool): Rule {
    Rule(if secure then PRIORITY_SECURE_VPN else PRIORITY_BYPASSABLE_VPN, table,
         NO_MARK, Fwmark(0, !secure, true, PERMISSION_NONE), None, None, range.first, range.last)
  }

  function VpnSystemPermissionRule(netId: nat, table: nat, secure: bool): Rule {
    PlainRule(if secure then PRIORITY_SECURE_VPN else PRIORITY_BYPASSABLE_VPN, table,
              Fwmark(NetIdBits(netId), false, false, PERMISSION_SYSTEM),
              Fwmark(FWMARK_NET_ID_MASK, false, false, PERMISSION_SYSTEM))
  }

  function ExplicitNetworkRule(netId: nat, table: nat, permission: Permission, uidStart: nat, uidEnd: nat): Rule {
    Rule(PRIORITY_EXPLICIT_NETWORK, table,
         Fwmark(NetIdBits(netId), true, false, permission), Fwmark(FWMARK_NET_ID_MASK, true, false, permission),
         None, None, uidStart, uidEnd)
  }

  function OutputInterfaceRule(interface: string, table: nat, permission: Permission, uidStart: nat,
                               uidEnd: nat): Rule {
    Rule(PRIORITY_OUTPUT_INTERFACE, table, Fwmark(0, false, false, permission), Fwmark(0, false, false, permission),
         None, Some(interface), uidStart, uidEnd)
  }

  function ImplicitNetworkRule(netId: nat, table: nat, permission: Permission): Rule {
    PlainRule(PRIORITY_IMPLICIT_NETWORK, table,
              Fwmark(NetIdBits(netId), false, false, permission), Fwmark(FWMARK_NET_ID_MASK, true, false, permission))
  }

  function VpnFallthroughRule(vpnNetId: nat, table: nat, permission: Permission): Rule {
    PlainRule(PRIORITY_VPN_FALLTHROUGH, table,
              Fwmark(NetIdBits(vpnNetId), false, false, permission),
              Fwmark(FWMARK_NET_ID_MASK, true, false, permission))
  }

  function DefaultNetworkRule(table: nat, permission: Permission): Rule {
    PlainRule(PRIORITY_DEFAULT_NETWORK, table,
              Fwmark(NETID_UNSET, false, false, permission), Fwmark(FWMARK_NET_ID_MASK, false, false, permission))
  }

  function TetheringRule(inputInterface: string, table: nat): Rule {
    Rule(PRIORITY_TETHERING, table, NO_MARK, NO_MARK, Some(inputInterface), None, INVALID_UID, INVALID_UID)
  }

  const IMPLICIT_MASK: Mark := Fwmark(0, true, false, PERMISSION_NONE)

  const INIT_COUNT: nat := 7

  /** The k-th rule RouteController::Init() installs. */
  function InitRule(k: nat): Rule
    requires k < INIT_COUNT
  {
    match k
    case 0 => PlainRule(PRIORITY_LEGACY_SYSTEM, TABLE_LEGACY_SYSTEM, NO_MARK, IMPLICIT_MASK)
    case 1 => PlainRule(PRIORITY_LEGACY_NETWORK, TABLE_LEGACY_NETWORK, NO_MARK, IMPLICIT_MASK)
    case 2 => PlainRule(PRIORITY_VPN_OVERRIDE_SYSTEM, TABLE_LEGACY_SYSTEM,
                        Fwmark(0, false, false, PERMISSION_SYSTEM), Fwmark(0, true, false, PERMISSION_SYSTEM))
    case 3 => ExplicitNetworkRule(LOCAL_NET_ID, TABLE_LOCAL_NETWORK, PERMISSION_NONE, INVALID_UID, INVALID_UID)
    case 4 => PlainRule(PRIORITY_LOCAL_NETWORK, TABLE_LOCAL_NETWORK, NO_MARK, IMPLICIT_MASK)
    case 5 => Rule(PRIORITY_DIRECTLY_CONNECTED, RT_TABLE_MAIN, NO_MARK,
                   Fwmark(FWMARK_NET_ID_MASK, false, false, PERMISSION_NONE), None, None, UID_ROOT, UID_ROOT)
    case 6 => PlainRule(PRIORITY_UNREACHABLE, RT_TABLE_UNSPEC, NO_MARK, NO_MARK)
  }

  function InitItems(): (items: seq<Item>)
    ensures |items| == INIT_COUNT && forall k :: 0 <= k < INIT_COUNT ==> items[k] == IpRule(InitRule(k))
  {
    seq(INIT_COUNT, k requires 0 <= k < INIT_COUNT => IpRule(InitRule(k)))
  }

  // ----- Rules and requests per interface -----

  /** A role an interface plays, with what its rules depend on. */
  datatype Part =
    | LocalPart(netId: nat)
    | PhysicalPart(netId: nat, permission: Permission)
    | VirtualPart(netId: nat, ranges: seq<Range>, secure: bool)
    | UsersPart(netId: nat, ranges: seq<Range>, secure: bool)        // only the uid based rules of a VPN
    | DefaultPart(vpns: seq<nat>, permission: Permission)            // the default rule and every VPN's fallthrough
    | FallthroughPart(vpn: nat, permission: Permission)

  function UserItems(netId: nat, interface: string, table: nat, ranges: seq<Range>, secure: bool): seq<Item> {
    if ranges == [] then []
    else
      [ IpRule(VpnUidRangeRule(table, ranges[0], secure)),
        IpRule(ExplicitNetworkRule(netId, table, PERMISSION_NONE, ranges[0].first, ranges[0].last)),
        IpRule(OutputInterfaceRule(interface, table, PERMISSION_NONE, ranges[0].first, ranges[0].last)) ] +
      UserItems(netId, interface, table, ranges[1..], secure)
  }

  /** The rules of a VPN interface that do not depend on the users. */
  function FixedItems(netId: nat, interface: string, table: nat, secure: bool): seq<Item> {
    [ IncomingPacketMark(netId, interface, PERMISSION_NONE),
      IpRule(VpnOutputToLocalRule(interface)),
      IpRule(VpnSystemPermissionRule(netId, table, secure)),
      IpRule(ExplicitNetworkRule(netId, table, PERMISSION_NONE, UID_ROOT, UID_ROOT)) ]
  }

  function FallthroughItems(vpns: seq<nat>, table: nat, permission: Permission): seq<Item> {
    if vpns == [] then []
    else [IpRule(VpnFallthroughRule(vpns[0], table, permission))] + FallthroughItems(vpns[1..], table, permission)
  }

  /** The rules an interface has in a given role. */
  function PartItems(env: Env, part: Part, interface: string): seq<Item> {
    var table := TableOf(env, interface);
    match part
    case LocalPart(netId) =>
      [ IncomingPacketMark(netId, interface, PERMISSION_NONE),
        IpRule(OutputInterfaceRule(interface, TABLE_LOCAL_NETWORK, PERMISSION_NONE, INVALID_UID, INVALID_UID)) ]
    case PhysicalPart(netId, permission) =>
      [ IncomingPacketMark(netId, interface, permission),
        IpRule(ExplicitNetworkRule(netId, table, permission, INVALID_UID, INVALID_UID)),
        IpRule(OutputInterfaceRule(interface, table, permission, INVALID_UID, INVALID_UID)),
        IpRule(ImplicitNetworkRule(netId, table, permission)) ]
    case VirtualPart(netId, ranges, secure) =>
      UserItems(netId, interface, table, ranges, secure) + FixedItems(netId, interface, table, secure)
    case UsersPart(netId, ranges, secure) => UserItems(netId, interface, table, ranges, secure)
    case DefaultPart(vpns, permission) =>
      [IpRule(DefaultNetworkRule(table, permission))] + FallthroughItems(vpns, table, permission)
    case FallthroughPart(vpn, permission) => [IpRule(VpnFallthroughRule(vpn, table, permission))]
  }

  function ChangeAll(items: seq<Item>, add: bool): seq<Request> {
    if items == [] then [] else [Change(add, items[0])] + ChangeAll(items[1..], add)
  }

  /** Each of these rules is built by a call that looks the table up again. */
  function LookupAndChangeAll(interface: string, items: seq<Item>, add: bool): seq<Request> {
    if items == [] then []
    else [Lookup(interface), Change(add, items[0])] + LookupAndChangeAll(interface, items[1..], add)
  }

  /** The requests that give an interface a role or take it away, in the order RouteController issues them. */
  function PartRequests(env: Env, part: Part, interface: string, add: bool): seq<Request> {
    var items := PartItems(env, part, interface);
    match part
    case LocalPart(_) => ChangeAll(items, add)
    case PhysicalPart(_, _) => [Lookup(interface)] + ChangeAll(items, add)
    case VirtualPart(_, _, _) => [Lookup(interface)] + ChangeAll(items, add)
    case UsersPart(_, _, _) => [Lookup(interface)] + ChangeAll(items, add)
    case DefaultPart(_, _) => LookupAndChangeAll(interface, items, add)
    case FallthroughPart(_, _) => LookupAndChangeAll(interface, items, add)
  }

  lemma {:induction false} ChangeAllChanges(items: seq<Item>, add: bool)
    ensures Changed(ChangeAll(items, add), add) == multiset(items)
    ensures Changed(ChangeAll(items, add), !add) == multiset{}
  {
    if items != [] {
      ChangeAllChanges(items[1..], add);
      assert items == [items[0]] + items[1..];
    }
  }

  lemma {:induction false} LookupAndChangeAllChanges(interface: string, items: seq<Item>, add: bool)
    ensures Changed(LookupAndChangeAll(interface, items, add), add) == multiset(items)
    ensures Changed(LookupAndChangeAll(interface, items, add), !add) == multiset{}
  {
    if items != [] {
      LookupAndChangeAllChanges(interface, items[1..], add);
      assert items == [items[0]] + items[1..];
      var first := [Lookup(interface), Change(add, items[0])];
      ChangedConcat(first, LookupAndChangeAll(interface, items[1..], add), add);
      ChangedConcat(first, LookupAndChangeAll(interface, items[1..], add), !add);
      assert first[1..] == [Change(add, items[0])];
    }
  }

  lemma PartChanges(env: Env, part: Part, interface: string, add: bool)
    ensures Changed(PartRequests(env, part, interface, add), add) == multiset(PartItems(env, part, interface))
    ensures Changed(PartRequests(env, part, interface, add), !add) == multiset{}
  {
    hide PartItems;
    var items := PartItems(env, part, interface);
    ChangeAllChanges(items, add);
    LookupAndChangeAllChanges(interface, items, add);
    assert ([Lookup(interface)] + ChangeAll(items, add))[1..] == ChangeAll(items, add);
  }

  // ----- All interfaces of a network -----

  /** The loops over mInterfaces. */
  function EachInterface(env: Env, part: Part, interfaces: seq<string>, add: bool): seq<Request> {
    if interfaces == [] then []
    else PartRequests(env, part, interfaces[0], add) + EachInterface(env, part, interfaces[1..], add)
  }

  /** The loops that give every interface its new rules before taking the old ones away. */
  function EachSwap(env: Env, new': Part, old': Part, interfaces: seq<string>): seq<Request> {
    if interfaces == [] then []
    else
      PartRequests(env, new', interfaces[0], true) + PartRequests(env, old', interfaces[0], false) +
      EachSwap(env, new', old', interfaces[1..])
  }

  /** What one interface in a role contributes; the rules of a list of interfaces are the sum of these. */
  function Share(env: Env, part: Part): string -> multiset<Item> {
    i => multiset(PartItems(env, part, i))
  }

  lemma {:induction false} EachInterfaceChanges(env: Env, part: Part, interfaces: seq<string>, add: bool)
    ensures Changed(EachInterface(env, part, interfaces, add), add) == Sum(interfaces, Share(env, part))
    ensures Changed(EachInterface(env, part, interfaces, add), !add) == multiset{}
  {
    if interfaces != [] {
      var first, rest := PartRequests(env, part, interfaces[0], add), EachInterface(env, part, interfaces[1..], add);
      EachInterfaceChanges(env, part, interfaces[1..], add);
      PartChanges(env, part, interfaces[0], add);
      ChangedConcat(first, rest, add);
      ChangedConcat(first, rest, !add);
    }
  }

  lemma {:induction false} EachSwapChanges(env: Env, new': Part, old': Part, interfaces: seq<string>)
    ensures Changed(EachSwap(env, new', old', interfaces), true) == Sum(interfaces, Share(env, new'))
    ensures Changed(EachSwap(env, new', old', interfaces), false) == Sum(interfaces, Share(env, old'))
  {
    if interfaces != [] {
      var i := interfaces[0];
      EachSwapChanges(env, new', old', interfaces[1..]);
      PartChanges(env, new', i, true);
      PartChanges(env, old', i, false);
      forall add {
        ChangedTriple(PartRequests(env, new', i, true), PartRequests(env, old', i, false),
                      EachSwap(env, new', old', interfaces[1..]), add);
      }
    }
  }

  lemma ChangedTriple(a: seq<Request>, b: seq<Request>, c: seq<Request>, add: bool)
    ensures Changed(a + b + c, add) == Changed(a, add) + Changed(b, add) + Changed(c, add)
  {
    ChangedConcat(a, b, add);
    ChangedConcat(a + b, c, add);
  }

  // ----- Every builder passes modifyIpRule()'s checks on marks -----

  ghost predicate IsSelectorRule(r: Rule) {
    IsSelector(r.fwmark, r.mask)
  }

  /** -ERANGE is never returned for a rule whose mark is a selector. */
  lemma SelectorRulesAreInRange(r: Rule)
    requires IsSelectorRule(r)
    ensures RuleError(r) != -ERANGE
  {
    MatchAgrees(r.fwmark, r.fwmark, r.mask);
  }

  /** `x` is one of the three rules a VPN has for a range of users. */
  predicate IsUserItem(netId: nat, interface: string, table: nat, r: Range, secure: bool, x: Item) {
    x.IpRule? && x.rule in {
      VpnUidRangeRule(table, r, secure),
      ExplicitNetworkRule(netId, table, PERMISSION_NONE, r.first, r.last),
      OutputInterfaceRule(interface, table, PERMISSION_NONE, r.first, r.last) }
  }

  lemma {:induction false} UserItemsAre(netId: nat, interface: string, table: nat, ranges: seq<Range>, secure: bool,
                                        x: Item)
    ensures x in UserItems(netId, interface, table, ranges, secure) <==>
            exists r :: r in ranges && IsUserItem(netId, interface, table, r, secure, x)
  {
    if ranges != [] {
      UserItemsAre(netId, interface, table, ranges[1..], secure, x);
      var rest := UserItems(netId, interface, table, ranges[1..], secure);
      assert ranges == [ranges[0]] + ranges[1..];
      assert x in UserItems(netId, interface, table, ranges, secure) <==>
             IsUserItem(netId, interface, table, ranges[0], secure, x) || x in rest;
    }
  }

  lemma {:induction false} FallthroughItemsAre(vpns: seq<nat>, table: nat, permission: Permission, x: Item)
    ensures x in FallthroughItems(vpns, table, permission) <==>
            exists v :: v in vpns && x == IpRule(VpnFallthroughRule(v, table, permission))
  {
    if vpns != [] {
      FallthroughItemsAre(vpns[1..], table, permission, x);
      assert vpns == [vpns[0]] + vpns[1..];
    }
  }

  /** No rule builder can hit the -ERANGE check of modifyIpRule(). */
  lemma BuildersAreInRange(env: Env, part: Part, input: string, interface: string, x: Item)
    requires || x in PartItems(env, part, interface) || x in InitItems()
             || x == IpRule(TetheringRule(input, TableOf(env, interface)))
    requires x.IpRule?
    ensures IsSelectorRule(x.rule) && RuleError(x.rule) != -ERANGE
  {
    var table := TableOf(env, interface);
    if x in PartItems(env, part, interface) {
      match part {
        case VirtualPart(netId, ranges, secure) =>
          UserItemsAre(netId, interface, table, ranges, secure, x);
        case UsersPart(netId, ranges, secure) => UserItemsAre(netId, interface, table, ranges, secure, x);
        case DefaultPart(vpns, permission) => FallthroughItemsAre(vpns, table, permission, x);
        case _ =>
      }
    }
    SelectorRulesAreInRange(x.rule);
  }
}
