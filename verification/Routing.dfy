/** Which rules a packet meets: the shape of every rule in a consistent kernel, and the order of a lookup. */
module Routing {
  import opened Wrappers
  import opened Fwmarks
  import opened Kernels
  import opened Uids
  import opened Rules
  import opened Controllers
  import opened Safety
  import opened Sync
  import opened SyncRuns

  // ----- Matching by fields -----

  predicate FieldMatches(r: Rule, p: Packet) {
    && FieldMatch(p.mark, r.fwmark, r.mask)
    && (r.iif.Some? ==> r.iif.value == p.iif)
    && (r.oif.Some? ==> r.oif == p.oif)
    && (r.uidStart != INVALID_UID ==> r.uidStart <= p.uid <= r.uidEnd)
  }

  lemma MatchesByFields(r: Rule, p: Packet)
    requires IsSelectorRule(r)
    ensures Matches(r, p) <==> FieldMatches(r, p)
  {
    MatchAgrees(p.mark, r.fwmark, r.mask);
  }

  // ----- The shape of the rules -----

  ghost predicate PhysicalRule(env: Env, vpns: seq<nat>, id: nat, n: Network, i: string, r: Rule)
    requires n.Physical?
  {
    var table := TableOf(env, i);
    || r == ExplicitNetworkRule(id, table, n.permission, INVALID_UID, INVALID_UID)
    || r == OutputInterfaceRule(i, table, n.permission, INVALID_UID, INVALID_UID)
    || r == ImplicitNetworkRule(id, table, n.permission)
    || (n.isDefault && r == DefaultNetworkRule(table, n.permission))
    || (n.isDefault && exists v :: v in vpns && r == VpnFallthroughRule(v, table, n.permission))
  }

  ghost predicate VirtualRule(env: Env, id: nat, n: Network, i: string, r: Rule)
    requires n.Virtual?
  {
    var table := TableOf(env, i);
    || (exists range :: range in n.ranges && IsUserItem(id, i, table, range, n.secure, IpRule(r)))
    || r == VpnOutputToLocalRule(i)
    || r == VpnSystemPermissionRule(id, table, n.secure)
    || r == ExplicitNetworkRule(id, table, PERMISSION_NONE, UID_ROOT, UID_ROOT)
  }

  /** `r` is a rule network `id` has for interface `i`. */
  ghost predicate OwnedRule(env: Env, ctl: Controller, id: nat, i: string, r: Rule) {
    id in ctl.networks && i in ctl.networks[id].interfaces &&
    match ctl.networks[id]
    case Local(_) => r == OutputInterfaceRule(i, TABLE_LOCAL_NETWORK, PERMISSION_NONE, INVALID_UID, INVALID_UID)
    case Physical(_, _, _) => PhysicalRule(env, Vpns(ctl), id, ctl.networks[id], i, r)
    case Virtual(_, _, _, _) => VirtualRule(env, id, ctl.networks[id], i, r)
  }

  lemma PhysicalRules(env: Env, vpns: seq<nat>, id: nat, n: Network, i: string, r: Rule)
    requires n.Physical? && i in n.interfaces
    ensures IsRuleOf(env, vpns, id, n, i, IpRule(r)) <==> PhysicalRule(env, vpns, id, n, i, r)
  {
    hide Share, ExplicitNetworkRule, OutputInterfaceRule, ImplicitNetworkRule, DefaultNetworkRule, VpnFallthroughRule,
         FallthroughItems, TableOf;
    ShareMember(env, MainPart(id, n), i, IpRule(r));
    ShareMember(env, ExtraPart(vpns, n), i, IpRule(r));
    FallthroughItemsAre(vpns, TableOf(env, i), n.permission, IpRule(r));
  }

  lemma VirtualRules(env: Env, vpns: seq<nat>, id: nat, n: Network, i: string, r: Rule)
    requires n.Virtual? && i in n.interfaces
    ensures IsRuleOf(env, vpns, id, n, i, IpRule(r)) <==> VirtualRule(env, id, n, i, r)
  {
    hide Share, ExplicitNetworkRule, VpnOutputToLocalRule, VpnSystemPermissionRule, IsUserItem, UserItems, TableOf;
    ShareMember(env, MainPart(id, n), i, IpRule(r));
    UserItemsAre(id, i, TableOf(env, i), n.ranges, n.secure, IpRule(r));
  }

  lemma LocalRules(env: Env, vpns: seq<nat>, id: nat, n: Network, i: string, r: Rule)
    requires n.Local? && i in n.interfaces
    ensures IsRuleOf(env, vpns, id, n, i, IpRule(r)) <==>
            r == OutputInterfaceRule(i, TABLE_LOCAL_NETWORK, PERMISSION_NONE, INVALID_UID, INVALID_UID)
  {
    ShareMember(env, MainPart(id, n), i, IpRule(r));
  }

  lemma OwnedRules(env: Env, ctl: Controller, id: nat, i: string, r: Rule)
    requires id in ctl.networks
    ensures IsRuleOf(env, Vpns(ctl), id, ctl.networks[id], i, IpRule(r)) <==> OwnedRule(env, ctl, id, i, r)
  {
    hide PhysicalRule, VirtualRule, VpnsBelow, Share, OutputInterfaceRule;
    var n := ctl.networks[id];
    if i in n.interfaces {
      match n {
        case Local(_) => LocalRules(env, Vpns(ctl), id, n, i, r);
        case Physical(_, _, _) => PhysicalRules(env, Vpns(ctl), id, n, i, r);
        case Virtual(_, _, _, _) => VirtualRules(env, Vpns(ctl), id, n, i, r);
      }
    }
  }

  ghost predicate HasOwner(env: Env, ctl: Controller, r: Rule) {
    exists id, i :: OwnedRule(env, ctl, id, i, r)
  }

  /** `r` is one of the tethering rules in force. */
  predicate IsTetherOf(w: World, r: Rule) {
    IpRule(r) in w.tethers && r.iif.Some? && r == TetheringRule(r.iif.value, r.table)
  }

  /** Every rule of a consistent kernel is one of start-up, a tethering rule, or one of a network's interfaces. */
  lemma KernelRules(env: Env, w: World, r: Rule)
    requires NetIdsFit(w.ctl) && InSync(env, w)
    ensures w.kernel.v4 == w.kernel.v6
    ensures IpRule(r) in w.kernel.v4 <==> IpRule(r) in InitItems() || IsTetherOf(w, r) || HasOwner(env, w.ctl, r)
  {
    hide ControllerItems, InitItems, NetIdsFit, TetheringRule;
    var x := IpRule(r);
    MultisetMember(InitItems(), x);
    ControllerRules(env, w.ctl, r);
  }

  lemma ControllerRules(env: Env, ctl: Controller, r: Rule)
    requires NetIdsFit(ctl)
    ensures IpRule(r) in ControllerItems(env, ctl.networks) <==> HasOwner(env, ctl, r)
  {
    hide ControllerItems, OwnedRule, IsRuleOf, NetIdsFit;
    var x := IpRule(r);
    InControllerItems(env, ctl, x);
    if x in ControllerItems(env, ctl.networks) {
      var id :| HasRule(env, Vpns(ctl), ctl.networks, id, x);
      var i :| IsRuleOf(env, Vpns(ctl), id, ctl.networks[id], i, x);
      OwnedRules(env, ctl, id, i, r);
    }
    if HasOwner(env, ctl, r) {
      var id, i :| OwnedRule(env, ctl, id, i, r);
      OwnerExists(env, ctl, id, i, r);
      OwnedRules(env, ctl, id, i, r);
      assert HasRule(env, Vpns(ctl), ctl.networks, id, x);
    }
  }

  lemma OwnerExists(env: Env, ctl: Controller, id: nat, i: string, r: Rule)
    requires OwnedRule(env, ctl, id, i, r)
    ensures id in ctl.networks && i in ctl.networks[id].interfaces
  {
  }

  lemma OwnedRuleSelects(env: Env, ctl: Controller, id: nat, i: string, r: Rule)
    requires OwnedRule(env, ctl, id, i, r)
    ensures IsSelectorRule(r)
  {
    hide VpnsBelow;
    var n := ctl.networks[id];
    if n.Virtual? &&
       exists range :: range in n.ranges && IsUserItem(id, i, TableOf(env, i), range, n.secure, IpRule(r)) {
      var range :| range in n.ranges && IsUserItem(id, i, TableOf(env, i), range, n.secure, IpRule(r));
    }
  }

  lemma KernelRuleByFields(env: Env, w: World, p: Packet, r: Rule)
    requires NetIdsFit(w.ctl) && InSync(env, w) && IpRule(r) in w.kernel.v4
    ensures Matches(r, p) <==> FieldMatches(r, p)
    ensures IpRule(r) in InitItems() || IsTetherOf(w, r) || HasOwner(env, w.ctl, r)
  {
    hide InSync, NetIdsFit, InitItems, FieldMatches, Matches, IsSelectorRule;
    KernelRules(env, w, r);
    if HasOwner(env, w.ctl, r) {
      var id, i :| OwnedRule(env, w.ctl, id, i, r);
      OwnedRuleSelects(env, w.ctl, id, i, r);
    } else {
      OtherRulesSelect(w, r);
    }
    MatchesByFields(r, p);
  }

  lemma OtherRulesSelect(w: World, r: Rule)
    requires IpRule(r) in InitItems() || IsTetherOf(w, r)
    ensures IsSelectorRule(r)
  {
  }

  /** A rule that is there and matches is on the path of every lookup. */
  lemma OnWalk(env: Env, w: World, p: Packet, walk: seq<Rule>, id: nat, i: string, r: Rule)
    requires NetIdsFit(w.ctl) && InSync(env, w) && IsWalk(w.kernel.v4, p, walk)
    requires OwnedRule(env, w.ctl, id, i, r) && FieldMatches(r, p)
    ensures r in walk
  {
    hide InSync, NetIdsFit, InitItems, FieldMatches, IsWalk, Matches, IsSelectorRule, OwnedRule;
    OwnedRuleSelects(env, w.ctl, id, i, r);
    MatchesByFields(r, p);
    KernelRules(env, w, r);
    WalkMember(w.kernel.v4, p, walk, r);
  }

  // ----- What a match says about the packet -----

  /** A physical network's rule matches only marks that hold the network's permission. */
  predicate PhysicalFacts(env: Env, ctl: Controller, id: nat, i: string, r: Rule, p: Packet)
    requires id in ctl.networks && ctl.networks[id].Physical?
  {
    var n, m := ctl.networks[id], p.mark;
    && r.table == TableOf(env, i) && m.permission.Includes(n.permission)
    && (|| (r.priority == PRIORITY_EXPLICIT_NETWORK && m.explicitlySelected && m.netId == NetIdBits(id))
        || (r.priority == PRIORITY_OUTPUT_INTERFACE && p.oif == Some(i))
        || (r.priority == PRIORITY_IMPLICIT_NETWORK && !m.explicitlySelected && m.netId == NetIdBits(id))
        || (r.priority == PRIORITY_VPN_FALLTHROUGH && n.isDefault && !m.explicitlySelected)
        || (r.priority == PRIORITY_DEFAULT_NETWORK && n.isDefault && m.netId == NETID_UNSET))
  }

  ghost predicate VirtualFacts(env: Env, ctl: Controller, id: nat, i: string, r: Rule, p: Packet)
    requires id in ctl.networks && ctl.networks[id].Virtual?
  {
    var n, m := ctl.networks[id], p.mark;
    || (r.priority == PRIORITY_VPN_OUTPUT_TO_LOCAL && r.table == TABLE_LOCAL_NETWORK && p.iif == i)
    || (r.table == TableOf(env, i) &&
        (|| (r.priority == (if n.secure then PRIORITY_SECURE_VPN else PRIORITY_BYPASSABLE_VPN) &&
             (|| (!m.protectedFromVpn && (n.secure || !m.explicitlySelected) && Covers(n.ranges, p.uid))
              || (m.netId == NetIdBits(id) && m.permission.Includes(PERMISSION_SYSTEM))))
         || (r.priority == PRIORITY_EXPLICIT_NETWORK && m.explicitlySelected && m.netId == NetIdBits(id) &&
             (Covers(n.ranges, p.uid) || p.uid == UID_ROOT))
         || (r.priority == PRIORITY_OUTPUT_INTERFACE && p.oif == Some(i) && Covers(n.ranges, p.uid))))
  }

  predicate InitFacts(r: Rule, p: Packet) {
    var m := p.mark;
    || (r.priority == PRIORITY_VPN_OVERRIDE_SYSTEM && r.table == TABLE_LEGACY_SYSTEM &&
        !m.explicitlySelected && m.permission.Includes(PERMISSION_SYSTEM))
    || (r.priority == PRIORITY_EXPLICIT_NETWORK && r.table == TABLE_LOCAL_NETWORK && m.explicitlySelected
        && m.netId == LOCAL_NET_ID)
    || (r.priority in {PRIORITY_LEGACY_SYSTEM, PRIORITY_LEGACY_NETWORK, PRIORITY_LOCAL_NETWORK} &&
        r.table in {TABLE_LEGACY_SYSTEM, TABLE_LEGACY_NETWORK, TABLE_LOCAL_NETWORK} && !m.explicitlySelected)
    || (r.priority in {PRIORITY_DIRECTLY_CONNECTED, PRIORITY_UNREACHABLE}
        && r.table in {RT_TABLE_MAIN, RT_TABLE_UNSPEC})
  }

  lemma PhysicalMatch(env: Env, ctl: Controller, id: nat, i: string, r: Rule, p: Packet)
    requires OwnedRule(env, ctl, id, i, r) && ctl.networks[id].Physical? && FieldMatches(r, p)
    ensures PhysicalFacts(env, ctl, id, i, r, p)
  {
    hide VpnsBelow;
  }

  lemma VirtualMatch(env: Env, ctl: Controller, id: nat, i: string, r: Rule, p: Packet)
    requires RangesWellformed(ctl) && OwnedRule(env, ctl, id, i, r) && ctl.networks[id].Virtual? && FieldMatches(r, p)
    ensures VirtualFacts(env, ctl, id, i, r, p)
  {
    hide VpnsBelow;
    var n, table := ctl.networks[id], TableOf(env, i);
    if exists range :: range in n.ranges && IsUserItem(id, i, table, range, n.secure, IpRule(r)) {
      var range :| range in n.ranges && IsUserItem(id, i, table, range, n.secure, IpRule(r));
      assert Proper(range);
    }
  }

  lemma InitMatch(r: Rule, p: Packet)
    requires IpRule(r) in InitItems() && FieldMatches(r, p)
    ensures InitFacts(r, p)
  {
  }

  /** Everything there is to know about a rule on a lookup's path. */
  ghost predicate OnPath(env: Env, w: World, r: Rule, p: Packet) {
    || InitFacts(r, p)
    || (IsTetherOf(w, r) && r.iif.value == p.iif)
    || (exists id, i :: OwnsOnPath(env, w.ctl, id, i, r, p))
  }

  ghost predicate OwnsOnPath(env: Env, ctl: Controller, id: nat, i: string, r: Rule, p: Packet) {
    && id in ctl.networks && i in ctl.networks[id].interfaces
    && match ctl.networks[id]
       case Local(_) => r.priority == PRIORITY_OUTPUT_INTERFACE && r.table == TABLE_LOCAL_NETWORK && p.oif == Some(i)
       case Physical(_, _, _) => PhysicalFacts(env, ctl, id, i, r, p)
       case Virtual(_, _, _, _) => VirtualFacts(env, ctl, id, i, r, p)
  }

  lemma OwnerOnPath(env: Env, ctl: Controller, id: nat, i: string, r: Rule, p: Packet)
    requires RangesWellformed(ctl) && OwnedRule(env, ctl, id, i, r) && FieldMatches(r, p)
    ensures OwnsOnPath(env, ctl, id, i, r, p)
  {
    hide VpnsBelow, PhysicalFacts, VirtualFacts, PhysicalRule, VirtualRule, RangesWellformed;
    match ctl.networks[id] {
      case Local(_) =>
      case Physical(_, _, _) => PhysicalMatch(env, ctl, id, i, r, p);
      case Virtual(_, _, _, _) => VirtualMatch(env, ctl, id, i, r, p);
    }
  }

  /** Every rule of a consistent kernel that matches a packet satisfies these facts. */
  lemma MatchingRule(env: Env, w: World, p: Packet, r: Rule)
    requires SafeController(w.ctl) && InSync(env, w) && IpRule(r) in w.kernel.v4 && Matches(r, p)
    ensures OnPath(env, w, r, p)
  {
    hide InSync, InitItems, InitFacts, OwnedRule, OwnsOnPath, NetIdsFit, RangesWellformed, InterfacesDisjoint,
         InterfacesDistinct, DefaultIsPhysical, Matches;
    KernelRuleByFields(env, w, p, r);
    if IpRule(r) in InitItems() {
      InitMatch(r, p);
    } else if HasOwner(env, w.ctl, r) {
      var id, i :| OwnedRule(env, w.ctl, id, i, r);
      OwnerOnPath(env, w.ctl, id, i, r, p);
    }
  }

  lemma RuleOnPath(env: Env, w: World, p: Packet, walk: seq<Rule>, r: Rule)
    requires SafeController(w.ctl) && InSync(env, w) && IsWalk(w.kernel.v4, p, walk) && r in walk
    ensures OnPath(env, w, r, p)
  {
    hide InSync, IsWalk, OnPath, SafeController, Matches;
    WalkMember(w.kernel.v4, p, walk, r);
    MatchingRule(env, w, p, r);
  }
}
