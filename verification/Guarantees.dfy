/** What the rules achieve for packets: VPN capture, access checks that agree with routing, sockets that stay put,
    DNS queries that go where they should, and permissions that are enforced. */
module Guarantees {
  import opened Wrappers
  import opened Fwmarks
  import opened Kernels
  import opened Uids
  import opened Rules
  import opened Controllers
  import opened Safety
  import opened Sync
  import opened SyncRuns
  import opened Routing
  import opened Sockets

  /** `table` belongs to an interface of network `id`. */
  ghost predicate LeadsTo(env: Env, ctl: Controller, id: nat, table: nat) {
    && id in ctl.networks && !ctl.networks[id].Local?
    && exists i :: i in ctl.networks[id].interfaces && table == TableOf(env, i)
  }

  /** A packet sent from this device, where loopback plays no part in VPNs or tethering. */
  ghost predicate SentFromHere(w: World, p: Packet) {
    && p.iif == LOOPBACK
    && (forall id :: id in w.ctl.networks && w.ctl.networks[id].Virtual? ==> LOOPBACK !in w.ctl.networks[id].interfaces)
    && (forall r :: IsTetherOf(w, r) ==> r.iif.value != LOOPBACK)
  }

  /** A lookup in either address family. */
  ghost predicate LooksUp(w: World, p: Packet, walk: seq<Rule>) {
    IsWalk(w.kernel.v4, p, walk) || IsWalk(w.kernel.v6, p, walk)
  }

  /** The first rule of a lookup comes no later than any rule known to match. */
  lemma FirstRule(items: multiset<Item>, p: Packet, walk: seq<Rule>, r: Rule)
    requires IsWalk(items, p, walk) && r in walk
    ensures |walk| > 0 && walk[0] in walk && walk[0].priority <= r.priority
  {
  }

  // ----- Capture by a secure VPN -----

  ghost predicate CapturedBy(env: Env, ctl: Controller, uid: nat, table: nat, id: nat) {
    LeadsTo(env, ctl, id, table) && ctl.networks[id].Virtual? && ctl.networks[id].secure
    && Covers(ctl.networks[id].ranges, uid)
  }

  lemma UidRuleOnWalk(env: Env, w: World, p: Packet, walk: seq<Rule>, id: nat, i: string) returns (r: Rule)
    requires SafeController(w.ctl) && InSync(env, w) && IsWalk(w.kernel.v4, p, walk)
    requires id in w.ctl.networks && w.ctl.networks[id].Virtual? && i in w.ctl.networks[id].interfaces
    requires w.ctl.networks[id].secure && Covers(w.ctl.networks[id].ranges, p.uid) && !p.mark.protectedFromVpn
    ensures r in walk && r.priority == PRIORITY_SECURE_VPN
  {
    hide InSync, IsWalk, NetIdsFit, InterfacesDisjoint, InterfacesDistinct, DefaultIsPhysical;
    var n := w.ctl.networks[id];
    var range :| range in n.ranges && range.first <= p.uid <= range.last;
    r := VpnUidRangeRule(TableOf(env, i), range, true);
    assert IsUserItem(id, i, TableOf(env, i), range, true, IpRule(r));
    OnWalk(env, w, p, walk, id, i, r);
  }

  lemma CapturedRule(env: Env, w: World, r: Rule, p: Packet)
    requires OnPath(env, w, r, p) && SentFromHere(w, p) && r.priority <= PRIORITY_SECURE_VPN && Captive(p.mark)
    ensures exists id :: CapturedBy(env, w.ctl, p.uid, r.table, id)
  {
    var id, i :| OwnsOnPath(env, w.ctl, id, i, r, p);
    assert CapturedBy(env, w.ctl, p.uid, r.table, id);
  }

  lemma CaptureAt(env: Env, w: World, p: Packet, walk: seq<Rule>, id: nat, i: string)
    requires SafeController(w.ctl) && InSync(env, w) && IsWalk(w.kernel.v4, p, walk) && SentFromHere(w, p)
             && Captive(p.mark)
    requires id in w.ctl.networks && w.ctl.networks[id].Virtual? && i in w.ctl.networks[id].interfaces
    requires w.ctl.networks[id].secure && Covers(w.ctl.networks[id].ranges, p.uid)
    ensures |walk| > 0 && exists vpn :: CapturedBy(env, w.ctl, p.uid, walk[0].table, vpn)
  {
    hide InSync, IsWalk, NetIdsFit, InterfacesDisjoint, InterfacesDistinct, DefaultIsPhysical, OnPath, SentFromHere,
         CapturedBy;
    var r := UidRuleOnWalk(env, w, p, walk, id, i);
    FirstRule(w.kernel.v4, p, walk, r);
    RuleOnPath(env, w, p, walk, walk[0]);
    CapturedRule(env, w, walk[0], p);
  }

  /** A packet `uid` sends on the socket after these events. */
  function SentOn(cfg: Config, states: seq<World>, events: seq<Event>, uid: nat, oif: Option<string>): Packet
    requires forall k :: 0 <= k < |events| ==>
               events[k].t0 < |states| && events[k].t1 < |states| && events[k].t2 < |states| && events[k].t3 < |states|
  {
    Packet(MarkAfter(cfg, states, events), uid, LOOPBACK, oif)
  }

  /** End to end: whatever an unprivileged user does with a socket, and however the controller's (successful) commands
      fall in between, at every moment at which a secure VPN with an interface covers the user, every lookup for
      the socket's packets starts with the table of a secure VPN that covers the user. */
  lemma SecureVpnCaptures(env: Env, cfg: Config, states: seq<World>, commands: seq<Command>, events: seq<Event>,
                          uid: nat,
                          t: nat, oif: Option<string>, walk: seq<Rule>, id: nat)
    requires InOrder(states, events) && t < |states|
    requires ValidEnv(env) && IsRun(env, states, commands)
    requires forall e :: e in events ==> e.uid == uid
    requires forall w :: w in states ==> Unprivileged(cfg, w.ctl, uid)
    requires id in states[t].ctl.networks && states[t].ctl.networks[id].Virtual? && states[t].ctl.networks[id].secure
    requires states[t].ctl.networks[id].interfaces != [] && Covers(states[t].ctl.networks[id].ranges, uid)
    requires SentFromHere(states[t], SentOn(cfg, states, events, uid, oif))
    requires LooksUp(states[t], SentOn(cfg, states, events, uid, oif), walk)
    ensures |walk| > 0 && exists vpn :: CapturedBy(env, states[t].ctl, uid, walk[0].table, vpn)
  {
    hide IsRun, IsWalk, SentFromHere, Covers, SafeController, Expected, CapturedBy, Unprivileged, FlagsMatch,
         TablesCached;
    UnprivilegedStaysCaptive(cfg, states, events, uid);
    RunsStayConsistent(env, states, commands, t);
    CaptureAt(env, states[t], SentOn(cfg, states, events, uid, oif), walk, id,
              states[t].ctl.networks[id].interfaces[0]);
  }

  // ----- Access checks agree with routing -----

  /** No user is covered by two ranges, of one VPN or of two. */
  ghost predicate CoveredOnce(ctl: Controller) {
    forall a, b, j, k, uid :: CoversAt(ctl, a, j, uid) && CoversAt(ctl, b, k, uid) ==> a == b && j == k
  }

  predicate CoversAt(ctl: Controller, id: nat, j: int, uid: nat) {
    && id in ctl.networks && ctl.networks[id].Virtual? && 0 <= j < |ctl.networks[id].ranges|
    && ctl.networks[id].ranges[j].first <= uid <= ctl.networks[id].ranges[j].last
  }

  lemma CoversSomewhere(ctl: Controller, id: nat, uid: nat) returns (j: int)
    requires id in ctl.networks && ctl.networks[id].Virtual? && Covers(ctl.networks[id].ranges, uid)
    ensures CoversAt(ctl, id, j, uid)
  {
    var r :| r in ctl.networks[id].ranges && r.first <= uid <= r.last;
    j :| 0 <= j < |ctl.networks[id].ranges| && ctl.networks[id].ranges[j] == r;
  }

  /** Then hasUid() is plain membership, ... */
  lemma CoveredOnceIsExact(ctl: Controller, id: nat, uid: nat)
    requires CoveredOnce(ctl) && RangesWellformed(ctl) && id in ctl.networks && ctl.networks[id].Virtual?
    ensures HasUid(ctl.networks[id].ranges, uid) <==> Covers(ctl.networks[id].ranges, uid)
  {
    hide HasUid, Covers;
    var s := ctl.networks[id].ranges;
    forall i, j | 0 <= j < i < |s| ensures s[j].last <= s[i].last {
      assert !Less(s[i], s[j]) && s[i] in s;
      assert CoversAt(ctl, id, i, s[i].first);
      assert !CoversAt(ctl, id, j, s[i].first);
    }
    NonDecreasingEndsSuffice(s, uid);
  }

  /** ... and the VPN that covers a user is the one the controller finds. */
  lemma CoveringVpnIsFound(ctl: Controller, id: nat, uid: nat)
    requires CoveredOnce(ctl) && SafeController(ctl) && id in ctl.networks && ctl.networks[id].Virtual?
    requires Covers(ctl.networks[id].ranges, uid)
    ensures VpnForUser(ctl, uid) == Some(id)
  {
    hide HasUid, Covers, CoveredOnce, Wellformed, VpnsBelow;
    CoveredOnceIsExact(ctl, id, uid);
    var v := VpnForUser(ctl, uid);
    assert v.Some?;
    CoveredOnceIsExact(ctl, v.value, uid);
    OnlyOneCovers(ctl, id, v.value, uid);
  }

  lemma OnlyOneCovers(ctl: Controller, a: nat, b: nat, uid: nat)
    requires CoveredOnce(ctl) && a in ctl.networks && ctl.networks[a].Virtual? && b in ctl.networks
             && ctl.networks[b].Virtual?
    requires Covers(ctl.networks[a].ranges, uid) && Covers(ctl.networks[b].ranges, uid)
    ensures a == b
  {
    hide Covers;
    var j := CoversSomewhere(ctl, a, uid);
    var k := CoversSomewhere(ctl, b, uid);
  }

  /** What a granted selection tells about the mark, the user and the VPNs. */
  ghost predicate Granted(cfg: Config, ctl: Controller, uid: nat, netId: nat, m: Mark) {
    && netId in ctl.networks && m.netId == netId && m.explicitlySelected
    && m.permission == PermissionForUser(ctl, uid, cfg.firstAppUid)
    && (m.permission.Includes(PERMISSION_SYSTEM) ==> m.protectedFromVpn)
    && (ctl.networks[netId].Physical? ==> m.permission.Includes(ctl.networks[netId].permission))
    && (ctl.networks[netId].Virtual? ==>
          m.permission.Includes(PERMISSION_SYSTEM) || Covers(ctl.networks[netId].ranges, uid))
    && (!m.protectedFromVpn ==>
          forall v ::
            && v in ctl.networks && ctl.networks[v].Virtual? && ctl.networks[v].secure
            && Covers(ctl.networks[v].ranges, uid)
            ==> v == netId)
  }

  /** What SELECT_NETWORK was told about the user in `c0` and `c2` is still so, and the access check passes now. */
  predicate StillHolds(cfg: Config, ctl: Controller, uid: nat, netId: nat, c0: Controller, c2: Controller) {
    && PermissionForUser(c0, uid, cfg.firstAppUid) == PermissionForUser(ctl, uid, cfg.firstAppUid)
    && CanProtect(c2, uid, cfg.firstAppUid) == CanProtect(ctl, uid, cfg.firstAppUid)
    && CheckAccess(ctl, uid, netId, cfg.firstAppUid, cfg.stray) == 0
  }

  lemma SelectionGrants(cfg: Config, ctl: Controller, uid: nat, netId: nat, m: Mark,
                        c0: Controller, c1: Controller, c2: Controller, c3: Controller)
    requires SafeController(ctl) && CoveredOnce(ctl) && netId != NETID_UNSET
    requires netId in ctl.networks && !ctl.networks[netId].Local?
    requires StillHolds(cfg, ctl, uid, netId, c0, c2)
    requires Process(cfg, m, uid, SelectNetwork(netId), c0, c1, c2, c3).ret == 0
    ensures Granted(cfg, ctl, uid, netId, Process(cfg, m, uid, SelectNetwork(netId), c0, c1, c2, c3).mark)
  {
    hide Covers, CoveredOnce, VpnsBelow, HasUid, RangesWellformed, InterfacesDisjoint, InterfacesDistinct,
         DefaultIsPhysical;
    var n := ctl.networks[netId];
    if n.Virtual? {
      CoveredOnceIsExact(ctl, netId, uid);
    }
    forall v | && v in ctl.networks && ctl.networks[v].Virtual? && ctl.networks[v].secure
               && Covers(ctl.networks[v].ranges, uid)
      ensures CanProtect(ctl, uid, cfg.firstAppUid) || v == netId
    {
      CoveringVpnIsFound(ctl, v, uid);
      if n.Virtual? && Covers(n.ranges, uid) {
        OnlyOneCovers(ctl, v, netId, uid);
      }
    }
  }

  /** The rule that makes a granted selection work, on every lookup's path. */
  lemma SelectedRuleOnWalk(env: Env, cfg: Config, w: World, p: Packet, walk: seq<Rule>, netId: nat) returns (r: Rule)
    requires SafeController(w.ctl) && InSync(env, w) && IsWalk(w.kernel.v4, p, walk)
    requires Granted(cfg, w.ctl, p.uid, netId, p.mark) && !w.ctl.networks[netId].Local?
             && w.ctl.networks[netId].interfaces != []
    ensures r in walk && r.priority <= PRIORITY_BYPASSABLE_VPN
    ensures !OutsideBypassable(w.ctl, netId, p.uid) ==> r.priority <= PRIORITY_EXPLICIT_NETWORK
  {
    hide InSync, IsWalk, VpnsBelow, InterfacesDisjoint, InterfacesDistinct, DefaultIsPhysical;
    var n := w.ctl.networks[netId];
    var i := n.interfaces[0];
    var table := TableOf(env, i);
    if n.Physical? {
      r := ExplicitNetworkRule(netId, table, n.permission, INVALID_UID, INVALID_UID);
    } else if Covers(n.ranges, p.uid) {
      var range :| range in n.ranges && range.first <= p.uid <= range.last;
      r := ExplicitNetworkRule(netId, table, PERMISSION_NONE, range.first, range.last);
      assert IsUserItem(netId, i, table, range, n.secure, IpRule(r));
    } else if p.uid == UID_ROOT {
      r := ExplicitNetworkRule(netId, table, PERMISSION_NONE, UID_ROOT, UID_ROOT);
    } else {
      r := VpnSystemPermissionRule(netId, table, n.secure);
    }
    OnWalk(env, w, p, walk, netId, i, r);
  }

  /** The network is a bypassable VPN for other users than `uid`; only the rule for privileged marks leads there. */
  ghost predicate OutsideBypassable(ctl: Controller, netId: nat, uid: nat)
    requires netId in ctl.networks
  {
    var n := ctl.networks[netId];
    n.Virtual? && !n.secure && !Covers(n.ranges, uid) && uid != UID_ROOT
  }

  /** The socket is bound to an interface of another network, one that carries the user's traffic. */
  ghost predicate BoundElsewhere(ctl: Controller, netId: nat, uid: nat, oif: Option<string>) {
    oif.Some? && exists d :: d != netId && Carries(ctl, d, oif.value, uid)
  }

  ghost predicate Carries(ctl: Controller, d: nat, i: string, uid: nat) {
    d in ctl.networks && i in ctl.networks[d].interfaces
    && (ctl.networks[d].Virtual? ==> Covers(ctl.networks[d].ranges, uid))
  }

  /** No rule up to that one leads anywhere else. */
  lemma SelectedRulesLead(env: Env, cfg: Config, w: World, r: Rule, p: Packet, netId: nat)
    requires SafeController(w.ctl) && OnPath(env, w, r, p) && SentFromHere(w, p)
    requires Granted(cfg, w.ctl, p.uid, netId, p.mark) && !w.ctl.networks[netId].Local?
    requires r.priority <= PRIORITY_EXPLICIT_NETWORK ||
             (r.priority <= PRIORITY_BYPASSABLE_VPN && !BoundElsewhere(w.ctl, netId, p.uid, p.oif))
    ensures LeadsTo(env, w.ctl, netId, r.table)
  {
    hide InterfacesDisjoint, InterfacesDistinct, DefaultIsPhysical, RangesWellformed, Covers;
    assert !InitFacts(r, p);
    var id, i :| OwnsOnPath(env, w.ctl, id, i, r, p);
    if r.priority == PRIORITY_OUTPUT_INTERFACE {
      assert Carries(w.ctl, id, i, p.uid);
    }
    assert id == netId;
  }

  /** The rule that takes a bound socket's packets elsewhere. */
  lemma BoundRuleOnWalk(env: Env, w: World, p: Packet, walk: seq<Rule>, d: nat, i: string) returns (r: Rule)
    requires SafeController(w.ctl) && InSync(env, w) && IsWalk(w.kernel.v4, p, walk)
    requires Carries(w.ctl, d, i, p.uid) && p.oif == Some(i) && p.mark.permission.Includes(PERMISSION_SYSTEM)
    ensures r in walk && r.priority == PRIORITY_OUTPUT_INTERFACE
  {
    hide InSync, IsWalk, VpnsBelow, InterfacesDisjoint, InterfacesDistinct, DefaultIsPhysical;
    var n := w.ctl.networks[d];
    match n {
      case Local(_) => r := OutputInterfaceRule(i, TABLE_LOCAL_NETWORK, PERMISSION_NONE, INVALID_UID, INVALID_UID);
      case Physical(_, permission, _) =>
        r := OutputInterfaceRule(i, TableOf(env, i), permission, INVALID_UID, INVALID_UID);
      case Virtual(_, _, secure, ranges) =>
        var range :| range in ranges && range.first <= p.uid <= range.last;
        r := OutputInterfaceRule(i, TableOf(env, i), PERMISSION_NONE, range.first, range.last);
        assert IsUserItem(d, i, TableOf(env, i), range, secure, IpRule(r));
    }
    OnWalk(env, w, p, walk, d, i, r);
  }

  /** Up to it, nothing leads to a bypassable VPN the user is outside of. */
  lemma DivertedRule(env: Env, w: World, r: Rule, p: Packet, netId: nat)
    requires ValidEnv(env) && SafeController(w.ctl) && OnPath(env, w, r, p) && SentFromHere(w, p)
    requires netId in w.ctl.networks && OutsideBypassable(w.ctl, netId, p.uid)
             && r.priority <= PRIORITY_OUTPUT_INTERFACE
    ensures !LeadsTo(env, w.ctl, netId, r.table)
  {
    hide InterfacesDistinct, DefaultIsPhysical, RangesWellformed, Covers, NetIdsFit;
  }

  /** If the access check lets a user select a network, the mark SELECT_NETWORK leaves makes that network's table the
      first one looked at for the user's packets, with one exception: a privileged user outside the ranges of a
      bypassable VPN whose socket is bound to an interface of another network. */
  lemma AccessImpliesRouting(env: Env, cfg: Config, w: World, uid: nat, netId: nat, was: Mark, oif: Option<string>,
                             walk: seq<Rule>,
                             c0: Controller, c1: Controller, c2: Controller, c3: Controller)
    requires ValidEnv(env) && Consistent(env, w) && CoveredOnce(w.ctl)
    requires netId in w.ctl.networks && !w.ctl.networks[netId].Local? && w.ctl.networks[netId].interfaces != []
    requires CheckAccess(c1, uid, netId, cfg.firstAppUid, cfg.stray) == 0 && StillHolds(cfg, w.ctl, uid, netId, c0, c2)
    requires var p := Packet(Process(cfg, was, uid, SelectNetwork(netId), c0, c1, c2, c3).mark, uid, LOOPBACK, oif);
             SentFromHere(w, p) && LooksUp(w, p, walk)
    ensures Process(cfg, was, uid, SelectNetwork(netId), c0, c1, c2, c3).ret == 0
    ensures |walk| > 0
    ensures LeadsTo(env, w.ctl, netId, walk[0].table) <==>
              !(OutsideBypassable(w.ctl, netId, uid) && BoundElsewhere(w.ctl, netId, uid, oif))
  {
    hide IsWalk, SentFromHere, Covers, Expected, CheckAccess, FlagsMatch, TablesCached, OnPath, LeadsTo, CanProtect,
         Carries,
         InterfacesDisjoint, InterfacesDistinct, RangesWellformed, DefaultIsPhysical, CoveredOnce;
    SelectionGrants(cfg, w.ctl, uid, netId, was, c0, c1, c2, c3);
    var p := Packet(Process(cfg, was, uid, SelectNetwork(netId), c0, c1, c2, c3).mark, uid, LOOPBACK, oif);
    var r := SelectedRuleOnWalk(env, cfg, w, p, walk, netId);
    FirstRule(w.kernel.v4, p, walk, r);
    RuleOnPath(env, w, p, walk, walk[0]);
    if OutsideBypassable(w.ctl, netId, uid) && BoundElsewhere(w.ctl, netId, uid, oif) {
      var d :| d != netId && Carries(w.ctl, d, oif.value, uid);
      var r' := BoundRuleOnWalk(env, w, p, walk, d, oif.value);
      FirstRule(w.kernel.v4, p, walk, r');
      DivertedRule(env, w, walk[0], p, netId);
    } else {
      SelectedRulesLead(env, cfg, w, walk[0], p, netId);
    }
  }

  // ----- Sockets stay on the network they connected on -----

  /** Tables that belong to interfaces, as opposed to the legacy, local and main tables. */
  predicate IsInterfaceTable(table: nat) { table > ROUTE_TABLE_OFFSET_FROM_INDEX }

  /** The first interface table of a lookup belongs to network `id`. */
  ghost predicate FirstInterfaceTable(env: Env, ctl: Controller, id: nat, walk: seq<Rule>) {
    exists k :: && 0 <= k < |walk| && LeadsTo(env, ctl, id, walk[k].table)
                && forall j :: 0 <= j < k ==> !IsInterfaceTable(walk[j].table)
  }

  /** If some rule leads to `id` and no rule up to it leads to an interface of another network, `id` comes first. */
  lemma {:induction false} FirstAmong(env: Env, ctl: Controller, id: nat, walk: seq<Rule>, k: nat)
    requires k < |walk| && LeadsTo(env, ctl, id, walk[k].table)
    requires forall j :: 0 <= j <= k ==> IsInterfaceTable(walk[j].table) ==> LeadsTo(env, ctl, id, walk[j].table)
    ensures FirstInterfaceTable(env, ctl, id, walk)
  {
    hide LeadsTo;
    if j :| 0 <= j < k && IsInterfaceTable(walk[j].table) {
      FirstAmong(env, ctl, id, walk, j);
    }
  }

  lemma ImplicitRuleOnWalk(env: Env, w: World, p: Packet, walk: seq<Rule>, d: nat) returns (r: Rule)
    requires SafeController(w.ctl) && InSync(env, w) && IsWalk(w.kernel.v4, p, walk)
    requires d in w.ctl.networks && w.ctl.networks[d].Physical? && w.ctl.networks[d].interfaces != []
    requires p.mark.netId == d && !p.mark.explicitlySelected && p.mark.permission.Includes(w.ctl.networks[d].permission)
    ensures r in walk && r.priority == PRIORITY_IMPLICIT_NETWORK && LeadsTo(env, w.ctl, d, r.table)
  {
    hide InSync, IsWalk, VpnsBelow, InterfacesDisjoint, InterfacesDistinct, DefaultIsPhysical, RangesWellformed;
    var n := w.ctl.networks[d];
    r := ImplicitNetworkRule(d, TableOf(env, n.interfaces[0]), n.permission);
    OnWalk(env, w, p, walk, d, n.interfaces[0], r);
  }

  ghost predicate NoSecureVpnCovers(ctl: Controller, uid: nat) {
    forall v :: v in ctl.networks && ctl.networks[v].Virtual? && ctl.networks[v].secure ==>
      !Covers(ctl.networks[v].ranges, uid)
  }

  lemma ImplicitRulesLead(env: Env, w: World, r: Rule, p: Packet, d: nat)
    requires SafeController(w.ctl) && OnPath(env, w, r, p) && SentFromHere(w, p) && p.oif.None?
    requires d in w.ctl.networks && w.ctl.networks[d].Physical?
    requires p.mark.netId == d && !p.mark.explicitlySelected
    requires p.mark.protectedFromVpn || NoSecureVpnCovers(w.ctl, p.uid)
    requires r.priority <= PRIORITY_IMPLICIT_NETWORK && IsInterfaceTable(r.table)
    ensures LeadsTo(env, w.ctl, d, r.table)
  {
    hide InterfacesDisjoint, InterfacesDistinct, DefaultIsPhysical, RangesWellformed, Covers;
    assert !InitFacts(r, p);
    var id, i :| OwnsOnPath(env, w.ctl, id, i, r, p);
    assert id == d;
  }

  /** A socket marked with physical network `d`, whose permission its mark holds, uses `d`'s table before any other
      interface's, whatever network is the default, as long as `d` has an interface and no secure VPN covers the
      user. */
  lemma ConnectedSocketUses(env: Env, w: World, p: Packet, walk: seq<Rule>, d: nat)
    requires Consistent(env, w) && LooksUp(w, p, walk) && SentFromHere(w, p) && p.oif.None?
    requires d in w.ctl.networks && w.ctl.networks[d].Physical? && w.ctl.networks[d].interfaces != []
    requires p.mark.netId == d && !p.mark.explicitlySelected && p.mark.permission.Includes(w.ctl.networks[d].permission)
    requires p.mark.protectedFromVpn || NoSecureVpnCovers(w.ctl, p.uid)
    ensures FirstInterfaceTable(env, w.ctl, d, walk)
  {
    hide SentFromHere, Expected, FlagsMatch, TablesCached, OnPath, LeadsTo, NoSecureVpnCovers, AreTethering, Matches,
         InterfacesDisjoint, InterfacesDistinct, RangesWellformed, DefaultIsPhysical;
    var r := ImplicitRuleOnWalk(env, w, p, walk, d);
    var k :| 0 <= k < |walk| && walk[k] == r;
    forall j | 0 <= j <= k && IsInterfaceTable(walk[j].table) ensures LeadsTo(env, w.ctl, d, walk[j].table) {
      RuleOnPath(env, w, p, walk, walk[j]);
      ImplicitRulesLead(env, w, walk[j], p, d);
    }
    FirstAmong(env, w.ctl, d, walk, k);
  }

  /** The default network may change at will: nothing else about the networks does. */
  predicate SameButDefault(a: Network, b: Network) {
    && a.interfaces == b.interfaces && SameKind(a, b)
    && (a.Physical? && b.Physical? ==> a.permission == b.permission)
    && (a.Virtual? && b.Virtual? ==> a.ranges == b.ranges && a.hasDns == b.hasDns)
  }

  ghost predicate SameButDefaults(a: Controller, b: Controller) {
    a.networks.Keys == b.networks.Keys && forall id :: id in a.networks ==>
      SameButDefault(a.networks[id], b.networks[id])
  }

  lemma FlagOnly(env: Env, w: World, netId: nat, add: bool)
    requires netId in w.ctl.networks && w.ctl.networks[netId].Physical?
    ensures var w' := (if add then AddAsDefault(env, w, netId) else RemoveAsDefault(env, w, netId)).world;
            SameButDefaults(w.ctl, w'.ctl) && w'.tethers == w.tethers && w'.ctl.defaultNetId == w.ctl.defaultNetId
  {
    hide Exec, EachInterface, VpnsBelow;
  }

  lemma SameTwice(a: Controller, b: Controller, c: Controller)
    requires SameButDefaults(a, b) && SameButDefaults(b, c)
    ensures SameButDefaults(a, c)
  {
  }

  lemma SetDefaultOnly(env: Env, w: World, netId: nat)
    ensures SameButDefaults(w.ctl, SetDefault(env, w, netId).world.ctl)
    ensures SetDefault(env, w, netId).world.tethers == w.tethers
  {
    hide AddAsDefault, RemoveAsDefault, SameButDefault;
    var w1 := w;
    if netId in w.ctl.networks && w.ctl.networks[netId].Physical? {
      FlagOnly(env, w, netId, true);
      if netId != NETID_UNSET {
        w1 := AddAsDefault(env, w, netId).world;
      }
    }
    SameAsBefore(w.ctl);
    var was := w1.ctl.defaultNetId;
    if was in w1.ctl.networks && w1.ctl.networks[was].Physical? {
      FlagOnly(env, w1, was, false);
      SameTwice(w.ctl, w1.ctl, RemoveAsDefault(env, w1, was).world.ctl);
    }
  }

  lemma SameAsBefore(c: Controller)
    ensures SameButDefaults(c, c)
  {
  }

  lemma {:induction false} DefaultChangesOnly(env: Env, states: seq<World>, commands: seq<Command>, t: nat, t': nat)
    requires IsRun(env, states, commands) && t <= t' < |states|
    requires forall k :: t <= k < t' ==> commands[k].SetDefaultNetwork?
    ensures SameButDefaults(states[t].ctl, states[t'].ctl) && states[t'].tethers == states[t].tethers
    decreases t' - t
  {
    hide Consistent, SetDefault;
    if t < t' {
      DefaultChangesOnly(env, states, commands, t, t' - 1);
      SetDefaultOnly(env, states[t' - 1], commands[t' - 1].netId);
    }
  }

  /** Connected sockets stay put: once ON_CONNECT has marked a socket with physical network `d`, and the user holds
      `d`'s permission, any sequence of default network changes leaves `d`'s table the first interface table looked
      at. */
  lemma ConnectedSocketsStayPut(env: Env, cfg: Config, states: seq<World>, commands: seq<Command>, t: nat, t': nat,
                                was: Mark, uid: nat, d: nat, walk: seq<Rule>,
                                c0: Controller, c1: Controller, c2: Controller, c3: Controller)
    requires ValidEnv(env) && IsRun(env, states, commands) && t <= t' < |states|
    requires forall k :: t <= k < t' ==> commands[k].SetDefaultNetwork?
    requires var c := states[t].ctl;
             var m := Process(cfg, was, uid, OnConnect, c0, c1, c2, c3).mark;
             && !was.explicitlySelected && m.netId == d
             && d in c.networks && c.networks[d].Physical? && c.networks[d].interfaces != []
             && PermissionForUser(c0, uid, cfg.firstAppUid).Includes(c.networks[d].permission)
             && (m.protectedFromVpn || NoSecureVpnCovers(c, uid))
             && SentFromHere(states[t], Packet(m, uid, LOOPBACK, None))
             && LooksUp(states[t'], Packet(m, uid, LOOPBACK, None), walk)
    ensures FirstInterfaceTable(env, states[t'].ctl, d, walk)
  {
    hide IsRun, LooksUp, Consistent, Covers, NetworkForConnect, VpnsBelow;
    RunsStayConsistent(env, states, commands, t');
    DefaultChangesOnly(env, states, commands, t, t');
    var c := states[t].ctl;
    var p := Packet(Process(cfg, was, uid, OnConnect, c0, c1, c2, c3).mark, uid, LOOPBACK, None);
    assert NoSecureVpnCovers(c, uid) ==> NoSecureVpnCovers(states[t'].ctl, uid);
    ConnectedSocketUses(env, states[t'], p, walk, d);
  }

  // ----- DNS queries -----

  lemma DnsRuleOnWalk(env: Env, w: World, p: Packet, walk: seq<Rule>, netId: nat) returns (r: Rule)
    requires SafeController(w.ctl) && InSync(env, w) && IsWalk(w.kernel.v4, p, walk)
    requires netId in w.ctl.networks && !w.ctl.networks[netId].Local? && w.ctl.networks[netId].interfaces != []
    requires p.uid == UID_ROOT && p.mark.netId == netId && p.mark.permission == PERMISSION_SYSTEM
    ensures r in walk && LeadsTo(env, w.ctl, netId, r.table)
    ensures r.priority == if w.ctl.networks[netId].Virtual? then
                            (if w.ctl.networks[netId].secure then PRIORITY_SECURE_VPN
                             else if p.mark.explicitlySelected then PRIORITY_EXPLICIT_NETWORK
                             else PRIORITY_BYPASSABLE_VPN)
                          else if p.mark.explicitlySelected then PRIORITY_EXPLICIT_NETWORK
                          else PRIORITY_IMPLICIT_NETWORK
  {
    hide InSync, IsWalk, VpnsBelow, InterfacesDisjoint, InterfacesDistinct, DefaultIsPhysical, RangesWellformed;
    var n := w.ctl.networks[netId];
    var i := n.interfaces[0];
    var table := TableOf(env, i);
    if n.Physical? {
      r := if p.mark.explicitlySelected then ExplicitNetworkRule(netId, table, n.permission, INVALID_UID, INVALID_UID)
           else ImplicitNetworkRule(netId, table, n.permission);
    } else if p.mark.explicitlySelected && !n.secure {
      r := ExplicitNetworkRule(netId, table, PERMISSION_NONE, UID_ROOT, UID_ROOT);
    } else {
      r := VpnSystemPermissionRule(netId, table, n.secure);
    }
    OnWalk(env, w, p, walk, netId, i, r);
  }

  lemma DnsRulesLead(env: Env, w: World, r: Rule, p: Packet, netId: nat)
    requires SafeController(w.ctl) && OnPath(env, w, r, p) && SentFromHere(w, p) && p.oif.None?
    requires netId in w.ctl.networks && p.mark.netId == netId && p.mark.protectedFromVpn
    requires r.priority <= PRIORITY_BYPASSABLE_VPN && IsInterfaceTable(r.table)
    ensures LeadsTo(env, w.ctl, netId, r.table)
  {
    hide InterfacesDisjoint, InterfacesDistinct, DefaultIsPhysical, RangesWellformed, Covers;
    assert !InitFacts(r, p);
    var id, i :| OwnsOnPath(env, w.ctl, id, i, r, p);
    assert id == netId;
  }

  /** A DNS query sent by root with the mark getNetworkForDns() returns looks first at the chosen network's tables
      (among interface tables). */
  lemma DnsUsesChosenNetwork(env: Env, cfg: Config, w: World, netId: nat, uid: nat, walk: seq<Rule>)
    requires Consistent(env, w)
    requires var (chosen, mark) := NetworkForDns(w.ctl, netId, uid, cfg.firstAppUid, cfg.stray);
             && chosen in w.ctl.networks && !w.ctl.networks[chosen].Local? && w.ctl.networks[chosen].interfaces != []
             && SentFromHere(w, Packet(mark, UID_ROOT, LOOPBACK, None))
                && LooksUp(w, Packet(mark, UID_ROOT, LOOPBACK, None), walk)
    ensures FirstInterfaceTable(env, w.ctl, NetworkForDns(w.ctl, netId, uid, cfg.firstAppUid, cfg.stray).0, walk)
  {
    hide SentFromHere, Expected, FlagsMatch, TablesCached, OnPath, LeadsTo, AreTethering, Matches, CheckAccess,
         VpnForUser,
         InterfacesDisjoint, InterfacesDistinct, RangesWellformed, DefaultIsPhysical;
    var (chosen, mark) := NetworkForDns(w.ctl, netId, uid, cfg.firstAppUid, cfg.stray);
    var p := Packet(mark, UID_ROOT, LOOPBACK, None);
    var r := DnsRuleOnWalk(env, w, p, walk, chosen);
    var k :| 0 <= k < |walk| && walk[k] == r;
    forall j | 0 <= j <= k && IsInterfaceTable(walk[j].table) ensures LeadsTo(env, w.ctl, chosen, walk[j].table) {
      RuleOnPath(env, w, p, walk, walk[j]);
      DnsRulesLead(env, w, walk[j], p, chosen);
    }
    FirstAmong(env, w.ctl, chosen, walk, k);
  }

  /** The interface tables of a lookup are first those of `a`, then exactly those of `b`. */
  ghost predicate FirstThen(env: Env, ctl: Controller, a: nat, b: nat, walk: seq<Rule>, k: nat) {
    && k <= |walk|
    && (forall j :: 0 <= j < k && IsInterfaceTable(walk[j].table) ==> LeadsTo(env, ctl, a, walk[j].table))
    && (forall j :: k <= j < |walk| && IsInterfaceTable(walk[j].table) ==>
          b != NETID_UNSET && LeadsTo(env, ctl, b, walk[j].table))
    && (b != NETID_UNSET ==> b in ctl.networks && forall i :: i in ctl.networks[b].interfaces ==>
          exists j :: k <= j < |walk| && walk[j].table == TableOf(env, i))
  }

  /** Where a lookup, sorted by priority, passes a given priority. */
  lemma SplitAt(walk: seq<Rule>, priority: nat) returns (k: nat)
    requires ByPriority(walk)
    ensures k <= |walk| && (forall j :: 0 <= j < k ==> walk[j].priority <= priority)
    ensures forall j :: k <= j < |walk| ==> walk[j].priority > priority
  {
    k := 0;
    while k < |walk| && walk[k].priority <= priority
      invariant k <= |walk|
      invariant forall j :: 0 <= j < k ==> walk[j].priority <= priority
    {
      k := k + 1;
    }
  }

  lemma FallthroughOnWalk(env: Env, w: World, p: Packet, walk: seq<Rule>, vpn: nat, i: string) returns (r: Rule)
    requires SafeController(w.ctl) && InSync(env, w) && FlagsMatch(w.ctl) && IsWalk(w.kernel.v4, p, walk)
    requires IsVirtual(w.ctl, vpn) && w.ctl.defaultNetId != NETID_UNSET
             && i in w.ctl.networks[w.ctl.defaultNetId].interfaces
    requires p.mark.netId == vpn && !p.mark.explicitlySelected && p.mark.permission == PERMISSION_SYSTEM
    ensures r in walk && r.priority == PRIORITY_VPN_FALLTHROUGH && r.table == TableOf(env, i)
  {
    hide InSync, IsWalk, InterfacesDisjoint, InterfacesDistinct, RangesWellformed;
    var d := w.ctl.defaultNetId;
    VpnsAreVirtual(w.ctl.networks, NET_ID_BOUND);
    r := VpnFallthroughRule(vpn, TableOf(env, i), w.ctl.networks[d].permission);
    OnWalk(env, w, p, walk, d, i, r);
  }

  lemma LaterRulesLead(env: Env, w: World, r: Rule, p: Packet)
    requires SafeController(w.ctl) && FlagsMatch(w.ctl) && OnPath(env, w, r, p) && SentFromHere(w, p) && p.oif.None?
    requires IsVirtual(w.ctl, p.mark.netId) && r.priority > PRIORITY_BYPASSABLE_VPN && IsInterfaceTable(r.table)
    ensures w.ctl.defaultNetId != NETID_UNSET && LeadsTo(env, w.ctl, w.ctl.defaultNetId, r.table)
  {
    hide InterfacesDisjoint, InterfacesDistinct, RangesWellformed, Covers;
    assert !InitFacts(r, p);
    var id, i :| OwnsOnPath(env, w.ctl, id, i, r, p);
  }

  /** If the chosen network is a VPN that was not selected explicitly, a DNS query looks at the VPN's tables and after
      that at exactly the default network's. */
  lemma DnsFallsThroughToDefault(env: Env, cfg: Config, w: World, netId: nat, uid: nat,
                                 walk: seq<Rule>) returns (k: nat)
    requires Consistent(env, w)
    requires var (chosen, mark) := NetworkForDns(w.ctl, netId, uid, cfg.firstAppUid, cfg.stray);
             && IsVirtual(w.ctl, chosen) && !mark.explicitlySelected
             && SentFromHere(w, Packet(mark, UID_ROOT, LOOPBACK, None))
                && LooksUp(w, Packet(mark, UID_ROOT, LOOPBACK, None), walk)
    ensures FirstThen(env, w.ctl, NetworkForDns(w.ctl, netId, uid, cfg.firstAppUid, cfg.stray).0, w.ctl.defaultNetId,
                      walk, k)
  {
    hide SentFromHere, Expected, FlagsMatch, TablesCached, OnPath, LeadsTo, AreTethering, Matches, CheckAccess,
         VpnForUser,
         InterfacesDisjoint, InterfacesDistinct, RangesWellformed;
    var (chosen, mark) := NetworkForDns(w.ctl, netId, uid, cfg.firstAppUid, cfg.stray);
    var p := Packet(mark, UID_ROOT, LOOPBACK, None);
    var d := w.ctl.defaultNetId;
    k := SplitAt(walk, PRIORITY_BYPASSABLE_VPN);
    forall j | 0 <= j < k && IsInterfaceTable(walk[j].table) ensures LeadsTo(env, w.ctl, chosen, walk[j].table) {
      RuleOnPath(env, w, p, walk, walk[j]);
      DnsRulesLead(env, w, walk[j], p, chosen);
    }
    forall j | k <= j < |walk| && IsInterfaceTable(walk[j].table)
      ensures d != NETID_UNSET && LeadsTo(env, w.ctl, d, walk[j].table)
    {
      RuleOnPath(env, w, p, walk, walk[j]);
      LaterRulesLead(env, w, walk[j], p);
    }
    if d != NETID_UNSET {
      forall i | i in w.ctl.networks[d].interfaces
        ensures exists j :: k <= j < |walk| && walk[j].table == TableOf(env, i)
      {
        var r := FallthroughOnWalk(env, w, p, walk, chosen, i);
        var j :| 0 <= j < |walk| && walk[j] == r;
      }
    }
  }

  // ----- Permissions are enforced by the rules -----

  /** No rule other than a tethering rule takes a packet to a physical interface's table unless the packet's mark holds
      the permission the owning network requires at that moment. */
  lemma PermissionIsEnforced(env: Env, w: World, r: Rule, p: Packet, id: nat, i: string)
    requires Consistent(env, w) && (IpRule(r) in w.kernel.v4 || IpRule(r) in w.kernel.v6) && !IsTetherOf(w, r)
    requires id in w.ctl.networks && w.ctl.networks[id].Physical? && i in w.ctl.networks[id].interfaces
    requires r.table == TableOf(env, i) && Matches(r, p)
    ensures p.mark.permission.Includes(w.ctl.networks[id].permission)
  {
    hide Expected, Matches, FlagsMatch, TablesCached, RangesWellformed, InterfacesDistinct, DefaultIsPhysical, Covers,
         AreTethering;
    MatchingRule(env, w, p, r);
    assert !InitFacts(r, p);
    var id', i' :| OwnsOnPath(env, w.ctl, id', i', r, p);
    assert i' == i;
    assert id' == id;
  }
}
