/** Where packets go: unmarked traffic, the users of a VPN, protected sockets, refused selections, and replies. */
module Delivery {
  import opened Wrappers
  import opened Fwmarks
  import opened Kernels
  import opened Uids
  import opened Rules
  import opened Controllers
  import opened Safety
  import opened Sync
  import opened SyncRuns
  import opened Sockets
  import opened Guarantees
  import opened Lookups

  /** Up to a stage, only interfaces of network `id` are consulted. */
  ghost predicate OnlyUpTo(env: Env, ctl: Controller, p: Packet, id: nat, priority: nat) {
    forall id': nat, i: string, q: nat, t: nat ::
      InterfaceStage(env, ctl, id', i, p, q, t) && q <= priority && IsInterfaceTable(t) ==> id' == id
  }

  lemma ConsultedOnWalk(env: Env, w: World, p: Packet, walk: seq<Rule>, j: nat)
    requires Consistent(env, w) && LooksUp(w, p, walk) && j < |walk|
    ensures Consults(env, w, p, walk[j].priority, walk[j].table)
  {
    hide Consistent, LooksUp, Consults;
    LookupIsExact(env, w, p, walk, walk[j].priority, walk[j].table);
  }

  lemma InterfaceConsulted(env: Env, w: World, p: Packet, priority: nat, table: nat)
    requires SentFromHere(w, p) && IsInterfaceTable(table) && Consults(env, w, p, priority, table)
    ensures exists id, i :: InterfaceStage(env, w.ctl, id, i, p, priority, table) && LeadsTo(env, w.ctl, id, table)
  {
    assert !StartStage(p, priority, table) && !TetherStage(w, p, priority, table);
    var id, i :| InterfaceStage(env, w.ctl, id, i, p, priority, table);
    assert LeadsTo(env, w.ctl, id, table);
  }

  /** Lookups go by priority, so a network whose stage comes before those of all others comes first. */
  lemma ComesFirst(env: Env, w: World, p: Packet, walk: seq<Rule>, id: nat, i: string, priority: nat)
    requires Consistent(env, w) && LooksUp(w, p, walk) && SentFromHere(w, p)
    requires InterfaceStage(env, w.ctl, id, i, p, priority, TableOf(env, i)) && !w.ctl.networks[id].Local?
    requires OnlyUpTo(env, w.ctl, p, id, priority)
    ensures FirstInterfaceTable(env, w.ctl, id, walk)
  {
    hide Consistent, LooksUp, SentFromHere, InterfaceStage, Consults, OnlyUpTo;
    LookupIsExact(env, w, p, walk, priority, TableOf(env, i));
    StageConsulted(env, w, p, id, i, priority, TableOf(env, i));
    var r :| r in walk && r.priority == priority && r.table == TableOf(env, i);
    var k :| 0 <= k < |walk| && walk[k] == r;
    StageLeads(env, w.ctl, id, i, p, priority);
    forall j | 0 <= j <= k && IsInterfaceTable(walk[j].table)
      ensures LeadsTo(env, w.ctl, id, walk[j].table)
    {
      ConsultedOnWalk(env, w, p, walk, j);
      InterfaceConsulted(env, w, p, walk[j].priority, walk[j].table);
      var id', i' :| && InterfaceStage(env, w.ctl, id', i', p, walk[j].priority, walk[j].table)
                     && LeadsTo(env, w.ctl, id', walk[j].table);
      WalkGoesUp(w, p, walk, j, k);
      OnlyOne(env, w.ctl, p, id, priority, id', i', walk[j].priority, walk[j].table);
    }
    FirstAmong(env, w.ctl, id, walk, k);
  }

  lemma StageConsulted(env: Env, w: World, p: Packet, id: nat, i: string, priority: nat, table: nat)
    requires InterfaceStage(env, w.ctl, id, i, p, priority, table)
    ensures Consults(env, w, p, priority, table)
  {
  }

  lemma StageLeads(env: Env, ctl: Controller, id: nat, i: string, p: Packet, priority: nat)
    requires InterfaceStage(env, ctl, id, i, p, priority, TableOf(env, i)) && !ctl.networks[id].Local?
    ensures LeadsTo(env, ctl, id, TableOf(env, i))
  {
  }

  lemma OnlyOne(env: Env, ctl: Controller, p: Packet, id: nat, priority: nat, id': nat, i: string, q: nat, t: nat)
    requires OnlyUpTo(env, ctl, p, id, priority) && InterfaceStage(env, ctl, id', i, p, q, t)
    requires q <= priority && IsInterfaceTable(t)
    ensures id' == id
  {
  }

  lemma WalkGoesUp(w: World, p: Packet, walk: seq<Rule>, j: nat, k: nat)
    requires LooksUp(w, p, walk) && j <= k < |walk|
    ensures walk[j].priority <= walk[k].priority
  {
    hide Matches;
  }

  // ----- Unmarked traffic -----

  ghost predicate NoVpnCovers(ctl: Controller, uid: nat) {
    forall v :: IsVirtual(ctl, v) ==> !Covers(ctl.networks[v].ranges, uid)
  }

  /** Traffic of a socket that selected nothing goes to the default network, if it holds that network's permission and
      no VPN is in between. */
  lemma UnmarkedUsesDefault(env: Env, w: World, p: Packet, walk: seq<Rule>)
    requires Consistent(env, w) && LooksUp(w, p, walk) && SentFromHere(w, p) && p.oif.None?
    requires p.mark.netId == NETID_UNSET && !p.mark.explicitlySelected
    requires p.mark.protectedFromVpn || NoVpnCovers(w.ctl, p.uid)
    requires w.ctl.defaultNetId != NETID_UNSET
    requires var d := w.ctl.networks[w.ctl.defaultNetId];
             d.interfaces != [] && Holds(p.mark, d.permission)
    ensures FirstInterfaceTable(env, w.ctl, w.ctl.defaultNetId, walk)
  {
    hide LooksUp, SentFromHere, InSync, TablesCached, InterfacesDisjoint, InterfacesDistinct, RangesWellformed, Covers;
    var d := w.ctl.defaultNetId;
    ComesFirst(env, w, p, walk, d, w.ctl.networks[d].interfaces[0], 22000);
  }

  // ----- The users of a bypassable VPN -----

  /** Traffic that selected nothing, or only what ON_CONNECT selects for it, goes to the VPN that covers its sender,
      bypassable or not. */
  lemma UsersUseTheirVpn(env: Env, w: World, p: Packet, walk: seq<Rule>, v: nat)
    requires Consistent(env, w) && CoveredOnce(w.ctl) && LooksUp(w, p, walk) && SentFromHere(w, p) && p.oif.None?
    requires IsVirtual(w.ctl, v) && w.ctl.networks[v].interfaces != [] && Covers(w.ctl.networks[v].ranges, p.uid)
    requires !p.mark.explicitlySelected && !p.mark.protectedFromVpn
             && (p.mark.netId == NETID_UNSET || p.mark.netId == v)
    ensures FirstInterfaceTable(env, w.ctl, v, walk)
  {
    hide LooksUp, SentFromHere, InSync, TablesCached, InterfacesDisjoint, InterfacesDistinct, RangesWellformed, Covers,
         CoveredOnce;
    forall a | IsVirtual(w.ctl, a) && Covers(w.ctl.networks[a].ranges, p.uid)
      ensures a == v
    {
      OnlyOneCovers(w.ctl, a, v, p.uid);
    }
    ComesFirst(env, w, p, walk, v, w.ctl.networks[v].interfaces[0], if w.ctl.networks[v].secure then 12000 else 20000);
  }

  ghost predicate Bypassable(ctl: Controller, v: nat, uid: nat) {
    && SafeController(ctl) && CoveredOnce(ctl)
    && IsVirtual(ctl, v) && !ctl.networks[v].secure && Covers(ctl.networks[v].ranges, uid)
  }

  /** A socket that connects while a bypassable VPN covers its user keeps to that VPN. */
  lemma ConnectedUsersUseTheirVpn(env: Env, cfg: Config, w: World, was: Mark, uid: nat, walk: seq<Rule>, v: nat,
                                  c0: Controller, c1: Controller, c2: Controller, c3: Controller)
    requires Consistent(env, w) && !was.explicitlySelected && !was.protectedFromVpn
    requires var p := Packet(Process(cfg, was, uid, OnConnect, c0, c1, c2, c3).mark, uid, LOOPBACK, None);
             LooksUp(w, p, walk) && SentFromHere(w, p)
    requires Bypassable(c1, v, uid) && Bypassable(w.ctl, v, uid) && w.ctl.networks[v].interfaces != []
    ensures FirstInterfaceTable(env, w.ctl, v, walk)
  {
    hide LooksUp, SentFromHere, Consistent, InterfacesDisjoint, InterfacesDistinct, RangesWellformed, Covers,
         CoveredOnce,
         VpnForUser;
    CoveringVpnIsFound(c1, v, uid);
    assert NetIdBits(v) == v;
    var m := Process(cfg, was, uid, OnConnect, c0, c1, c2, c3).mark;
    UsersUseTheirVpn(env, w, Packet(m, uid, LOOPBACK, None), walk, v);
  }

  // ----- Protected sockets -----

  /** Whose table an interface table is. */
  lemma TableOwner(env: Env, w: World, p: Packet, walk: seq<Rule>, j: nat, id: nat)
    requires Consistent(env, w) && LooksUp(w, p, walk) && SentFromHere(w, p) && j < |walk|
    requires LeadsTo(env, w.ctl, id, walk[j].table)
    ensures exists i :: i in w.ctl.networks[id].interfaces && walk[j].table == TableOf(env, i)
                        && InterfaceStage(env, w.ctl, id, i, p, walk[j].priority, walk[j].table)
  {
    hide LooksUp, SentFromHere, InSync, InterfacesDistinct, RangesWellformed, Consults;
    ConsultedOnWalk(env, w, p, walk, j);
    var i :| i in w.ctl.networks[id].interfaces && walk[j].table == TableOf(env, i);
    InterfaceConsulted(env, w, p, walk[j].priority, walk[j].table);
    var id', i' :| && InterfaceStage(env, w.ctl, id', i', p, walk[j].priority, walk[j].table)
                   && LeadsTo(env, w.ctl, id', walk[j].table);
    assert walk[j].table == TableOf(env, i');
    assert i' == i;
  }

  /** PROTECT_FROM_VPN is granted to the system and to those allowed to protect; then no lookup of an implicitly marked
      socket reaches a VPN (unless its mark is privileged and names one), and a socket without a network, or with a
      VPN's, goes to the default network. */
  lemma ProtectedEscapesVpns(env: Env, cfg: Config, w: World, was: Mark, uid: nat, walk: seq<Rule>,
                             c0: Controller, c1: Controller, c2: Controller, c3: Controller)
    requires Consistent(env, w) && !was.explicitlySelected && SafeController(c2)
    requires Process(cfg, was, uid, ProtectFromVpn, c0, c1, c2, c3).ret == 0
    requires var p := Packet(Process(cfg, was, uid, ProtectFromVpn, c0, c1, c2, c3).mark, uid, LOOPBACK, None);
             LooksUp(w, p, walk) && SentFromHere(w, p)
    ensures var m := Process(cfg, was, uid, ProtectFromVpn, c0, c1, c2, c3).mark;
            && (!Privileged(m) || !IsVirtual(w.ctl, m.netId) ==>
                  forall v, j :: IsVirtual(w.ctl, v) && 0 <= j < |walk| ==> !LeadsTo(env, w.ctl, v, walk[j].table))
            && ((was.netId == NETID_UNSET || IsVirtual(c2, was.netId)) && c3.defaultNetId == w.ctl.defaultNetId
                && w.ctl.defaultNetId != NETID_UNSET && w.ctl.networks[w.ctl.defaultNetId].interfaces != []
                && Holds(m, w.ctl.networks[w.ctl.defaultNetId].permission) ==>
                  FirstInterfaceTable(env, w.ctl, w.ctl.defaultNetId, walk))
  {
    hide LooksUp, SentFromHere, InSync, TablesCached, InterfacesDisjoint, InterfacesDistinct, RangesWellformed, Covers,
         CanProtect, PermissionForUser;
    var m := Process(cfg, was, uid, ProtectFromVpn, c0, c1, c2, c3).mark;
    var p := Packet(m, uid, LOOPBACK, None);
    assert m.protectedFromVpn && !m.explicitlySelected;
    if !Privileged(m) || !IsVirtual(w.ctl, m.netId) {
      forall v, j | IsVirtual(w.ctl, v) && 0 <= j < |walk|
        ensures !LeadsTo(env, w.ctl, v, walk[j].table)
      {
        if LeadsTo(env, w.ctl, v, walk[j].table) {
          TableOwner(env, w, p, walk, j, v);
        }
      }
    }
    var d := w.ctl.defaultNetId;
    if d != NETID_UNSET && w.ctl.networks[d].interfaces != [] && Holds(m, w.ctl.networks[d].permission) {
      if m.netId == NETID_UNSET {
        UnmarkedUsesDefault(env, w, p, walk);
      } else if m.netId == d {
        ConnectedSocketUses(env, w, p, walk, d);
      }
      assert NetIdBits(d) == d;
    }
  }

  // ----- Refused selections -----

  /** A secure VPN with an interface takes the user's unprotected traffic. */
  ghost predicate Taken(ctl: Controller, uid: nat, other: nat) {
    exists v :: && v != other && IsVirtual(ctl, v) && ctl.networks[v].secure && ctl.networks[v].interfaces != []
                && Covers(ctl.networks[v].ranges, uid)
  }

  /** A rule for explicit selection serves the packet. */
  ghost predicate Entitled(ctl: Controller, netId: nat, m: Mark, uid: nat)
    requires netId in ctl.networks
  {
    match ctl.networks[netId]
    case Local(_) => false
    case Physical(_, permission, _) => Holds(m, permission)
    case Virtual(_, _, _, ranges) => Covers(ranges, uid) || uid == UID_ROOT
  }

  lemma TakenFirst(env: Env, w: World, p: Packet, walk: seq<Rule>, netId: nat)
    requires Consistent(env, w) && LooksUp(w, p, walk) && SentFromHere(w, p)
    requires !p.mark.protectedFromVpn && Taken(w.ctl, p.uid, netId)
    ensures exists j :: 0 <= j < |walk| && walk[j].priority == 12000 && IsInterfaceTable(walk[j].table)
  {
    hide LooksUp, SentFromHere, InSync, TablesCached, InterfacesDisjoint, InterfacesDistinct, RangesWellformed,
         Consults;
    var v :| && v != netId && IsVirtual(w.ctl, v) && w.ctl.networks[v].secure && w.ctl.networks[v].interfaces != []
             && Covers(w.ctl.networks[v].ranges, p.uid);
    var i := w.ctl.networks[v].interfaces[0];
    StageConsulted(env, w, p, v, i, 12000, TableOf(env, i));
    LookupIsExact(env, w, p, walk, 12000, TableOf(env, i));
    var r :| r in walk && r.priority == 12000 && r.table == TableOf(env, i);
    var j :| 0 <= j < |walk| && walk[j] == r;
  }

  lemma Untaken(env: Env, w: World, p: Packet, netId: nat)
    requires SafeController(w.ctl) && SentFromHere(w, p) && p.mark.explicitlySelected && p.mark.netId == netId
    requires p.mark.protectedFromVpn || !Taken(w.ctl, p.uid, netId)
    ensures OnlyUpTo(env, w.ctl, p, netId, 13000)
  {
    hide InterfacesDisjoint, InterfacesDistinct, RangesWellformed, Covers;
    forall id': nat, i: string, q: nat, t: nat |
      InterfaceStage(env, w.ctl, id', i, p, q, t) && q <= 13000 && IsInterfaceTable(t)
      ensures id' == netId
    {
      assert i in w.ctl.networks[id'].interfaces;
    }
  }

  /** An explicitly marked packet without privileges is served by the selected network first if and only if an entitled
      sender meets an interface there and no secure VPN of others takes its traffic. */
  lemma ExplicitIsServed(env: Env, w: World, p: Packet, walk: seq<Rule>, netId: nat)
    requires Consistent(env, w) && CoveredOnce(w.ctl) && LooksUp(w, p, walk) && SentFromHere(w, p)
    requires netId in w.ctl.networks && !w.ctl.networks[netId].Local?
    requires p.mark.explicitlySelected && p.mark.netId == netId && !Privileged(p.mark)
    ensures FirstInterfaceTable(env, w.ctl, netId, walk) <==>
            && w.ctl.networks[netId].interfaces != [] && Entitled(w.ctl, netId, p.mark, p.uid)
            && (p.mark.protectedFromVpn || !Taken(w.ctl, p.uid, netId))
  {
    hide LooksUp, SentFromHere, InSync, TablesCached, InterfacesDisjoint, InterfacesDistinct, RangesWellformed, Covers,
         CoveredOnce, OnlyUpTo;
    var n := w.ctl.networks[netId];
    if FirstInterfaceTable(env, w.ctl, netId, walk) {
      var k :| && 0 <= k < |walk| && LeadsTo(env, w.ctl, netId, walk[k].table)
               && forall j :: 0 <= j < k ==> !IsInterfaceTable(walk[j].table);
      TableOwner(env, w, p, walk, k, netId);
      if !p.mark.protectedFromVpn && Taken(w.ctl, p.uid, netId) {
        TakenFirst(env, w, p, walk, netId);
        var j :| 0 <= j < |walk| && walk[j].priority == 12000 && IsInterfaceTable(walk[j].table);
        var v :| v != netId && IsVirtual(w.ctl, v) && Covers(w.ctl.networks[v].ranges, p.uid);
        if n.Virtual? && Covers(n.ranges, p.uid) {
          OnlyOneCovers(w.ctl, v, netId, p.uid);
        }
        if k <= j {
          WalkGoesUp(w, p, walk, k, j);
        }
      }
    } else if n.interfaces != [] && Entitled(w.ctl, netId, p.mark, p.uid) &&
              (p.mark.protectedFromVpn || !Taken(w.ctl, p.uid, netId)) {
      Untaken(env, w, p, netId);
      ComesFirst(env, w, p, walk, netId, n.interfaces[0], 13000);
    }
  }

  /** Had SELECT_NETWORK not refused a user, the mark would have led nowhere near the network: except for root without
      its permission and a VPN, and for a secure VPN over the user that has no interface yet. */
  lemma RefusedIsNotRouted(env: Env, cfg: Config, w: World, uid: nat, netId: nat, p: Packet, walk: seq<Rule>)
    requires Consistent(env, w) && CoveredOnce(w.ctl) && LooksUp(w, p, walk) && SentFromHere(w, p)
    requires netId in w.ctl.networks && !w.ctl.networks[netId].Local? && uid != INVALID_UID && p.uid == uid
    requires CheckAccess(w.ctl, uid, netId, cfg.firstAppUid, cfg.stray) != 0
    requires p.mark.explicitlySelected && p.mark.netId == netId
    requires p.mark.permission == PermissionForUser(w.ctl, uid, cfg.firstAppUid)
    requires p.mark.protectedFromVpn == CanProtect(w.ctl, uid, cfg.firstAppUid)
    requires FirstInterfaceTable(env, w.ctl, netId, walk)
    ensures || (w.ctl.networks[netId].Virtual? && uid == UID_ROOT)
            || exists v :: && IsVirtual(w.ctl, v) && w.ctl.networks[v].secure && w.ctl.networks[v].interfaces == []
                           && Covers(w.ctl.networks[v].ranges, uid)
  {
    hide LooksUp, SentFromHere, InSync, TablesCached, InterfacesDisjoint, InterfacesDistinct, RangesWellformed, Covers,
         CoveredOnce, FirstInterfaceTable, HasUid, VpnForUser, DefaultIsPhysical;
    var n := w.ctl.networks[netId];
    ExplicitIsServed(env, w, p, walk, netId);
    if n.Virtual? {
      CoveredOnceIsExact(w.ctl, netId, uid);
    } else if VpnForUser(w.ctl, uid).Some? {
      var v := VpnForUser(w.ctl, uid).value;
      CoveredOnceIsExact(w.ctl, v, uid);
    }
  }

  // ----- Replies -----

  /** The incoming-packet marks in the kernel: each interface's own, explicit and protected, with its network's id and
      permission. */
  lemma IncomingMarksAreExact(env: Env, w: World, i: string, m: Mark)
    requires Consistent(env, w)
    ensures IncomingMark(i, m) in w.kernel.v4 <==>
            exists id :: id in w.ctl.networks && i in w.ctl.networks[id].interfaces && m == ReplyMark(w.ctl, id)
    ensures w.kernel.v4 == w.kernel.v6
  {
    hide ControllerItems, InitItems, TablesCached, InterfacesDisjoint, InterfacesDistinct, RangesWellformed, ReplyMark,
         HasRule;
    var x := IncomingMark(i, m);
    NotAtStart(x);
    InControllerItems(env, w.ctl, x);
    forall id: nat
      ensures HasRule(env, Vpns(w.ctl), w.ctl.networks, id, x) <==>
              id in w.ctl.networks && i in w.ctl.networks[id].interfaces && m == ReplyMark(w.ctl, id)
    {
      MarkOfNetwork(env, w.ctl, id, i, m);
    }
  }

  function ReplyMark(ctl: Controller, id: nat): Mark
    requires id in ctl.networks && id < 0x1_0000
  {
    Fwmark(id, true, true, if ctl.networks[id].Physical? then ctl.networks[id].permission else PERMISSION_NONE)
  }

  lemma NotAtStart(x: Item)
    requires !x.IpRule?
    ensures x !in multiset(InitItems())
  {
  }

  lemma MarkOfInterface(env: Env, vpns: seq<nat>, id: nat, n: Network, i': string, i: string, m: Mark)
    requires 0 < id <= MAX_NET_ID
    ensures IsRuleOf(env, vpns, id, n, i', IncomingMark(i, m)) <==>
            && i' in n.interfaces && i' == i
            && m == Fwmark(id, true, true, if n.Physical? then n.permission else PERMISSION_NONE)
  {
    hide Share, ExplicitNetworkRule, OutputInterfaceRule, ImplicitNetworkRule, DefaultNetworkRule, VpnFallthroughRule,
         VpnOutputToLocalRule, VpnSystemPermissionRule, UserItems, FallthroughItems, TableOf;
    var x := IncomingMark(i, m);
    ShareMember(env, MainPart(id, n), i', x);
    ShareMember(env, ExtraPart(vpns, n), i', x);
    if n.Virtual? {
      UserItemsAre(id, i', TableOf(env, i'), n.ranges, n.secure, x);
    } else if n.Physical? {
      FallthroughItemsAre(vpns, TableOf(env, i'), n.permission, x);
    }
  }

  lemma MarkOfNetwork(env: Env, ctl: Controller, id: nat, i: string, m: Mark)
    requires NetIdsFit(ctl)
    ensures HasRule(env, Vpns(ctl), ctl.networks, id, IncomingMark(i, m)) <==>
            id in ctl.networks && i in ctl.networks[id].interfaces && m == ReplyMark(ctl, id)
  {
    hide IsRuleOf, VpnsBelow;
    if id in ctl.networks {
      forall i'
        ensures IsRuleOf(env, Vpns(ctl), id, ctl.networks[id], i', IncomingMark(i, m)) <==>
                i' in ctl.networks[id].interfaces && i' == i && m == ReplyMark(ctl, id)
      {
        MarkOfInterface(env, Vpns(ctl), id, ctl.networks[id], i', i, m);
      }
    }
  }

  /** A packet with the mark of an interface's incoming traffic goes back by that network: for a VPN, if the sender is
      one of its users or root. */
  lemma RepliesReturn(env: Env, w: World, i: string, p: Packet, walk: seq<Rule>, id: nat)
    requires Consistent(env, w) && LooksUp(w, p, walk) && SentFromHere(w, p)
    requires IncomingMark(i, p.mark) in w.kernel.v4 && id in w.ctl.networks && i in w.ctl.networks[id].interfaces
    requires !w.ctl.networks[id].Local?
    requires w.ctl.networks[id].Virtual? ==> Covers(w.ctl.networks[id].ranges, p.uid) || p.uid == UID_ROOT
    ensures FirstInterfaceTable(env, w.ctl, id, walk)
  {
    hide LooksUp, SentFromHere, InSync, TablesCached, InterfacesDistinct, RangesWellformed, Covers, OnlyUpTo;
    IncomingMarksAreExact(env, w, i, p.mark);
    Untaken(env, w, p, id);
    ComesFirst(env, w, p, walk, id, i, 13000);
  }
}
