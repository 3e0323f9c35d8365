/** What a route lookup consults, stage by stage, said without the rules: for whom a stage is meant, in terms of the
    packet's mark, sender and interfaces and of the networks as they are. */
module Lookups {
  import opened Wrappers
  import opened Fwmarks
  import opened Kernels
  import opened Uids
  import opened Rules
  import opened Controllers
  import opened Safety
  import opened Sync
  import opened Routing
  import opened Guarantees

  /** Stages that are there from the start. */
  predicate StartStage(p: Packet, priority: nat, table: nat) {
    var m := p.mark;
    || (priority == 10000 && table == TABLE_LEGACY_SYSTEM && !m.explicitlySelected && Privileged(m))
    || (priority == 13000 && table == TABLE_LOCAL_NETWORK && m.explicitlySelected && m.netId == LOCAL_NET_ID)
    || (priority == 15000 && table == TABLE_LEGACY_SYSTEM && !m.explicitlySelected)
    || (priority == 16000 && table == TABLE_LEGACY_NETWORK && !m.explicitlySelected)
    || (priority == 17000 && table == TABLE_LOCAL_NETWORK && !m.explicitlySelected)
    || (priority == 23000 && table == RT_TABLE_MAIN && m.netId == NETID_UNSET && p.uid == UID_ROOT)
    || (priority == 32000 && table == RT_TABLE_UNSPEC)
  }

  predicate Privileged(m: Mark) { m.permission.network && m.permission.system }

  /** The mark holds what a network asks for. */
  predicate Holds(m: Mark, needed: Permission) {
    (needed.network ==> m.permission.network) && (needed.system ==> m.permission.system)
  }

  /** Stages of an interface of a physical network: explicit selection, a bound socket, implicit selection, traffic
      a VPN lets through, and unmarked traffic. */
  predicate PhysicalStage(ctl: Controller, id: nat, i: string, p: Packet, priority: nat)
    requires id in ctl.networks && ctl.networks[id].Physical?
  {
    var m := p.mark;
    && Holds(m, ctl.networks[id].permission)
    && (|| (priority == 13000 && m.explicitlySelected && m.netId == id)
        || (priority == 14000 && p.oif == Some(i))
        || (priority == 19000 && !m.explicitlySelected && m.netId == id)
        || (priority == 21000 && ctl.defaultNetId == id && !m.explicitlySelected && IsVirtual(ctl, m.netId))
        || (priority == 22000 && ctl.defaultNetId == id && m.netId == NETID_UNSET))
  }

  /** Stages of a VPN's interface: its users, unless they are protected (or, for a bypassable VPN, have chosen), and
      privileged traffic meant for the VPN; explicit selection by its users or root; sockets bound by its users. */
  ghost predicate VirtualStage(n: Network, id: nat, i: string, p: Packet, priority: nat)
    requires n.Virtual?
  {
    var m := p.mark;
    || (priority == (if n.secure then 12000 else 20000)
        && (|| (Covers(n.ranges, p.uid) && !m.protectedFromVpn && (n.secure || !m.explicitlySelected))
            || (m.netId == id && Privileged(m))))
    || (priority == 13000 && m.explicitlySelected && m.netId == id && (Covers(n.ranges, p.uid) || p.uid == UID_ROOT))
    || (priority == 14000 && p.oif == Some(i) && Covers(n.ranges, p.uid))
  }

  ghost predicate InterfaceStage(env: Env, ctl: Controller, id: nat, i: string, p: Packet, priority: nat, table: nat) {
    && id in ctl.networks && i in ctl.networks[id].interfaces
    && match ctl.networks[id]
       case Local(_) => priority == 14000 && table == TABLE_LOCAL_NETWORK && p.oif == Some(i)
       case Physical(_, _, _) => table == TableOf(env, i) && PhysicalStage(ctl, id, i, p, priority)
       case Virtual(_, _, _, _) =>
         || (priority == 11000 && table == TABLE_LOCAL_NETWORK && p.iif == i)
         || (table == TableOf(env, i) && VirtualStage(ctl.networks[id], id, i, p, priority))
  }

  /** Traffic that comes in by a tethered interface. */
  ghost predicate TetherStage(w: World, p: Packet, priority: nat, table: nat) {
    priority == 18000 && exists r :: IsTetherOf(w, r) && r.iif.value == p.iif && r.table == table
  }

  ghost predicate Consults(env: Env, w: World, p: Packet, priority: nat, table: nat) {
    || StartStage(p, priority, table)
    || TetherStage(w, p, priority, table)
    || exists id, i :: InterfaceStage(env, w.ctl, id, i, p, priority, table)
  }

  // ----- From a rule to its stage -----

  lemma StartRuleStage(r: Rule, p: Packet)
    requires IpRule(r) in InitItems() && FieldMatches(r, p)
    ensures StartStage(p, r.priority, r.table)
  {
  }

  lemma PhysicalRuleStage(env: Env, ctl: Controller, id: nat, i: string, r: Rule, p: Packet)
    requires NetIdsFit(ctl) && FlagsMatch(ctl) && OwnedRule(env, ctl, id, i, r) && ctl.networks[id].Physical?
    requires FieldMatches(r, p)
    ensures InterfaceStage(env, ctl, id, i, p, r.priority, r.table)
  {
    hide VpnsBelow;
    VpnsAreVirtual(ctl.networks, NET_ID_BOUND);
  }

  lemma VirtualRuleStage(env: Env, ctl: Controller, id: nat, i: string, r: Rule, p: Packet)
    requires NetIdsFit(ctl) && RangesWellformed(ctl) && OwnedRule(env, ctl, id, i, r) && ctl.networks[id].Virtual?
    requires FieldMatches(r, p)
    ensures InterfaceStage(env, ctl, id, i, p, r.priority, r.table)
  {
    hide VpnsBelow;
    var n, table := ctl.networks[id], TableOf(env, i);
    if exists range :: range in n.ranges && IsUserItem(id, i, table, range, n.secure, IpRule(r)) {
      var range :| range in n.ranges && IsUserItem(id, i, table, range, n.secure, IpRule(r));
      assert Proper(range);
    }
  }

  lemma LocalRuleStage(env: Env, ctl: Controller, id: nat, i: string, r: Rule, p: Packet)
    requires OwnedRule(env, ctl, id, i, r) && ctl.networks[id].Local? && FieldMatches(r, p)
    ensures InterfaceStage(env, ctl, id, i, p, r.priority, r.table)
  {
  }

  lemma OwnedRuleStage(env: Env, ctl: Controller, id: nat, i: string, r: Rule, p: Packet)
    requires SafeController(ctl) && FlagsMatch(ctl) && OwnedRule(env, ctl, id, i, r) && FieldMatches(r, p)
    ensures InterfaceStage(env, ctl, id, i, p, r.priority, r.table)
  {
    hide OwnedRule, InterfaceStage, FieldMatches, NetIdsFit, FlagsMatch, RangesWellformed;
    OwnerExists(env, ctl, id, i, r);
    match ctl.networks[id] {
      case Local(_) => LocalRuleStage(env, ctl, id, i, r, p);
      case Physical(_, _, _) => PhysicalRuleStage(env, ctl, id, i, r, p);
      case Virtual(_, _, _, _) => VirtualRuleStage(env, ctl, id, i, r, p);
    }
  }

  lemma RuleStage(env: Env, w: World, p: Packet, r: Rule)
    requires SafeController(w.ctl) && FlagsMatch(w.ctl) && InSync(env, w) && IpRule(r) in w.kernel.v4 && Matches(r, p)
    ensures Consults(env, w, p, r.priority, r.table)
  {
    hide InSync, InitItems, OwnedRule, SafeController, FlagsMatch, Matches, FieldMatches, StartStage, InterfaceStage;
    assert NetIdsFit(w.ctl) by { SafeIdsFit(w.ctl); }
    KernelRuleByFields(env, w, p, r);
    if IpRule(r) in InitItems() {
      StartRuleStage(r, p);
    } else if IsTetherOf(w, r) {
      TetherRuleStage(w, r, p);
    } else {
      var id, i :| OwnedRule(env, w.ctl, id, i, r);
      OwnedRuleStage(env, w.ctl, id, i, r, p);
    }
  }

  lemma SafeIdsFit(ctl: Controller)
    requires SafeController(ctl)
    ensures NetIdsFit(ctl)
  {
  }

  lemma TetherRuleStage(w: World, r: Rule, p: Packet)
    requires IsTetherOf(w, r) && FieldMatches(r, p)
    ensures TetherStage(w, p, r.priority, r.table)
  {
  }

  // ----- From a stage to its rule -----

  lemma StartStageRule(p: Packet, priority: nat, table: nat) returns (r: Rule)
    requires StartStage(p, priority, table)
    ensures IpRule(r) in InitItems() && FieldMatches(r, p) && r.priority == priority && r.table == table
  {
    var k :=
      if priority == 10000 then 2 else if priority == 13000 then 3 else if priority == 15000 then 0
      else if priority == 16000 then 1 else if priority == 17000 then 4 else if priority == 23000 then 5 else 6;
    r := InitRule(k);
    assert InitItems()[k] == IpRule(r);
  }

  lemma TetherStageRule(w: World, p: Packet, priority: nat, table: nat) returns (r: Rule)
    requires TetherStage(w, p, priority, table)
    ensures IsTetherOf(w, r) && FieldMatches(r, p) && r.priority == priority && r.table == table
  {
    r :| IsTetherOf(w, r) && r.iif.value == p.iif && r.table == table;
  }

  lemma PhysicalStageRule(env: Env, ctl: Controller, id: nat, i: string, p: Packet, priority: nat, table: nat)
    returns (r: Rule)
    requires NetIdsFit(ctl) && FlagsMatch(ctl) && id in ctl.networks && ctl.networks[id].Physical?
    requires InterfaceStage(env, ctl, id, i, p, priority, table)
    ensures OwnedRule(env, ctl, id, i, r) && FieldMatches(r, p) && r.priority == priority && r.table == table
  {
    hide VpnsBelow;
    VpnsAreVirtual(ctl.networks, NET_ID_BOUND);
    var needed := ctl.networks[id].permission;
    r := if priority == 13000 then ExplicitNetworkRule(id, table, needed, INVALID_UID, INVALID_UID)
         else if priority == 14000 then OutputInterfaceRule(i, table, needed, INVALID_UID, INVALID_UID)
         else if priority == 19000 then ImplicitNetworkRule(id, table, needed)
         else if priority == 21000 then VpnFallthroughRule(p.mark.netId, table, needed)
         else DefaultNetworkRule(table, needed);
  }

  lemma VirtualStageRule(env: Env, ctl: Controller, id: nat, i: string, p: Packet, priority: nat, table: nat)
    returns (r: Rule)
    requires NetIdsFit(ctl) && id in ctl.networks && ctl.networks[id].Virtual?
    requires InterfaceStage(env, ctl, id, i, p, priority, table)
    ensures OwnedRule(env, ctl, id, i, r) && FieldMatches(r, p) && r.priority == priority && r.table == table
  {
    hide VpnsBelow;
    var n, m := ctl.networks[id], p.mark;
    if priority == 11000 {
      r := VpnOutputToLocalRule(i);
    } else if priority == 13000 && !Covers(n.ranges, p.uid) {
      r := ExplicitNetworkRule(id, table, PERMISSION_NONE, UID_ROOT, UID_ROOT);
    } else if priority != 13000 && priority != 14000 && m.netId == id && Privileged(m) {
      r := VpnSystemPermissionRule(id, table, n.secure);
    } else {
      var range :| range in n.ranges && range.first <= p.uid <= range.last;
      r := if priority == 13000 then ExplicitNetworkRule(id, table, PERMISSION_NONE, range.first, range.last)
           else if priority == 14000 then OutputInterfaceRule(i, table, PERMISSION_NONE, range.first, range.last)
           else VpnUidRangeRule(table, range, n.secure);
      assert IsUserItem(id, i, table, range, n.secure, IpRule(r));
    }
  }

  lemma StageRule(env: Env, ctl: Controller, id: nat, i: string, p: Packet, priority: nat, table: nat) returns (r: Rule)
    requires SafeController(ctl) && FlagsMatch(ctl) && InterfaceStage(env, ctl, id, i, p, priority, table)
    ensures OwnedRule(env, ctl, id, i, r) && FieldMatches(r, p) && r.priority == priority && r.table == table
  {
    match ctl.networks[id] {
      case Local(_) =>
        r := OutputInterfaceRule(i, TABLE_LOCAL_NETWORK, PERMISSION_NONE, INVALID_UID, INVALID_UID);
      case Physical(_, _, _) =>
        r := PhysicalStageRule(env, ctl, id, i, p, priority, table);
      case Virtual(_, _, _, _) =>
        r := VirtualStageRule(env, ctl, id, i, p, priority, table);
    }
  }

  /** A rule that matches is on the path, whoever owns it. */
  lemma AnyRuleOnWalk(env: Env, w: World, p: Packet, walk: seq<Rule>, r: Rule)
    requires SafeController(w.ctl) && InSync(env, w) && IsWalk(w.kernel.v4, p, walk)
    requires (IpRule(r) in InitItems() || IsTetherOf(w, r) || HasOwner(env, w.ctl, r)) && FieldMatches(r, p)
    ensures r in walk
  {
    hide InSync, InitItems, SafeController, Matches, FieldMatches, IsWalk, HasOwner;
    SafeIdsFit(w.ctl);
    KernelRules(env, w, r);
    KernelRuleByFields(env, w, p, r);
    WalkMember(w.kernel.v4, p, walk, r);
  }

  /** The reference: in a consistent world a lookup has a rule of a given priority to a given table if and only if it
      is to consult that table at that stage. As lookups go by priority, this says what each of them consults, and in
      which order. */
  lemma LookupIsExact(env: Env, w: World, p: Packet, walk: seq<Rule>, priority: nat, table: nat)
    requires Consistent(env, w) && LooksUp(w, p, walk)
    ensures (exists r :: r in walk && r.priority == priority && r.table == table) <==>
            Consults(env, w, p, priority, table)
  {
    hide InSync, InitItems, SafeController, FlagsMatch, FieldMatches, IsWalk, Matches, StartStage, TetherStage,
         InterfaceStage, IsTetherOf, TablesCached;
    SafeIdsFit(w.ctl);
    SameFamilies(env, w);
    if r :| r in walk && r.priority == priority && r.table == table {
      WalkMember(w.kernel.v4, p, walk, r);
      RuleStage(env, w, p, r);
    }
    if StartStage(p, priority, table) {
      var r := StartStageRule(p, priority, table);
      AnyRuleOnWalk(env, w, p, walk, r);
    } else if TetherStage(w, p, priority, table) {
      var r := TetherStageRule(w, p, priority, table);
      AnyRuleOnWalk(env, w, p, walk, r);
    } else if id, i :| InterfaceStage(env, w.ctl, id, i, p, priority, table) {
      var r := StageRule(env, w.ctl, id, i, p, priority, table);
      AnyRuleOnWalk(env, w, p, walk, r);
    }
  }

  lemma SameFamilies(env: Env, w: World)
    requires InSync(env, w)
    ensures w.kernel.v4 == w.kernel.v6
  {
  }
}
