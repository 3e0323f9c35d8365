/** What the controller answers and what the fwmark server does with it, said through coverage by VPNs, permissions and
    membership. */
module Answers {
  import opened Wrappers
  import opened Fwmarks
  import opened Kernels
  import opened Uids
  import opened Controllers
  import opened Safety
  import opened Sockets
  import opened Guarantees
  import opened Delivery

  // ----- Who a user is -----

  /** The user holds every flag of a permission: the one recorded for it, or else that of the system or of an app. */
  predicate UserHolds(ctl: Controller, uid: nat, firstAppUid: nat, needed: Permission) {
    if uid in ctl.users then
      && (needed.network ==> ctl.users[uid].network)
      && (needed.system ==> ctl.users[uid].system)
    else uid < firstAppUid || (!needed.network && !needed.system)
  }

  predicate IsSystem(ctl: Controller, uid: nat, firstAppUid: nat) {
    UserHolds(ctl, uid, firstAppUid, Permission(true, true))
  }

  predicate MayProtect(ctl: Controller, uid: nat, firstAppUid: nat) {
    IsSystem(ctl, uid, firstAppUid) || uid in ctl.protectable
  }

  lemma PermissionIsExact(ctl: Controller, uid: nat, firstAppUid: nat, needed: Permission)
    ensures PermissionForUser(ctl, uid, firstAppUid).Includes(needed) <==> UserHolds(ctl, uid, firstAppUid, needed)
    ensures CanProtect(ctl, uid, firstAppUid) <==> MayProtect(ctl, uid, firstAppUid)
  {
  }

  // ----- Which network is for whom -----

  /** VPN ranges are in order, and nobody is covered twice. */
  ghost predicate Orderly(ctl: Controller) {
    SafeController(ctl) && CoveredOnce(ctl)
  }

  /** `v` is the VPN over the user. */
  ghost predicate Over(ctl: Controller, v: nat, uid: nat) {
    IsVirtual(ctl, v) && Covers(ctl.networks[v].ranges, uid)
  }

  lemma VpnIsExact(ctl: Controller, uid: nat)
    requires Orderly(ctl)
    ensures forall v: nat :: VpnForUser(ctl, uid) == Some(v) <==> Over(ctl, v, uid)
    ensures VpnForUser(ctl, uid) == None <==> NoVpnCovers(ctl, uid)
  {
    hide SafeController, CoveredOnce, Covers, VpnForUser;
    forall v: nat
      ensures VpnForUser(ctl, uid) == Some(v) <==> Over(ctl, v, uid)
    {
      if Over(ctl, v, uid) {
        CoveringVpnIsFound(ctl, v, uid);
      } else if VpnForUser(ctl, uid) == Some(v) {
        FoundVpnCovers(ctl, v, uid);
      }
    }
    if !NoVpnCovers(ctl, uid) {
      var v: nat :| IsVirtual(ctl, v) && Covers(ctl.networks[v].ranges, uid);
      assert Over(ctl, v, uid);
    }
    assert VpnForUser(ctl, uid).Some? ==> Over(ctl, VpnForUser(ctl, uid).value, uid);
  }

  lemma {:induction false} VpnsAscend(networks: map<nat, Network>, bound: nat)
    ensures forall i, j :: 0 <= i < j < |VpnsBelow(networks, bound)| ==>
              VpnsBelow(networks, bound)[i] < VpnsBelow(networks, bound)[j]
  {
    if bound > 0 {
      VpnsAscend(networks, bound - 1);
      VpnsAreVirtual(networks, bound - 1);
      var before, vpns := VpnsBelow(networks, bound - 1), VpnsBelow(networks, bound);
      forall i, j | 0 <= i < j < |vpns|
        ensures vpns[i] < vpns[j]
      {
        assert before[i] in before;
      }
    }
  }

  lemma {:induction false} FirstIsFirst(networks: map<nat, Network>, vpns: seq<nat>, uid: nat) returns (i: nat)
    requires forall v :: v in vpns ==> v in networks && networks[v].Virtual?
    requires FirstApplicable(networks, vpns, uid).Some?
    ensures i < |vpns| && FirstApplicable(networks, vpns, uid) == Some(vpns[i])
    ensures forall j :: 0 <= j < i ==> !HasUid(networks[vpns[j]].ranges, uid)
    decreases |vpns|
  {
    hide HasUid;
    if HasUid(networks[vpns[0]].ranges, uid) {
      i := 0;
    } else {
      i := FirstIsFirst(networks, vpns[1..], uid);
      i := i + 1;
    }
  }

  /** Of several VPNs that apply to a user, the one with the lowest id is found. */
  lemma LowestVpnIsFound(ctl: Controller, uid: nat, v: nat, u: nat)
    requires NetIdsFit(ctl) && VpnForUser(ctl, uid) == Some(v) && u < v && IsVirtual(ctl, u)
    ensures !HasUid(ctl.networks[u].ranges, uid)
  {
    hide HasUid, VpnsBelow;
    VpnsAreVirtual(ctl.networks, NET_ID_BOUND);
    VpnsAscend(ctl.networks, NET_ID_BOUND);
    var i := FirstIsFirst(ctl.networks, Vpns(ctl), uid);
    assert u in Vpns(ctl);
    var j :| 0 <= j < |Vpns(ctl)| && Vpns(ctl)[j] == u;
  }

  lemma FoundVpnCovers(ctl: Controller, v: nat, uid: nat)
    requires Orderly(ctl) && VpnForUser(ctl, uid) == Some(v)
    ensures Over(ctl, v, uid)
  {
    hide CoveredOnce, Covers, HasUid;
    CoveredOnceIsExact(ctl, v, uid);
  }

  /** Connecting sockets get the bypassable VPN over the user, or else the default network. */
  lemma ConnectIsExact(ctl: Controller, uid: nat)
    requires Orderly(ctl)
    ensures forall v: nat :: Over(ctl, v, uid) ==>
              NetworkForConnect(ctl, uid) == if ctl.networks[v].secure then ctl.defaultNetId else v
    ensures NoVpnCovers(ctl, uid) ==> NetworkForConnect(ctl, uid) == ctl.defaultNetId
  {
    hide Orderly, VpnForUser, Over, NoVpnCovers;
    VpnIsExact(ctl, uid);
  }

  lemma UserNetworkIsExact(ctl: Controller, uid: nat)
    requires Orderly(ctl)
    ensures forall v: nat :: Over(ctl, v, uid) ==> NetworkForUser(ctl, uid) == v
    ensures NoVpnCovers(ctl, uid) ==> NetworkForUser(ctl, uid) == ctl.defaultNetId
  {
    hide Orderly, VpnForUser, Over, NoVpnCovers;
    VpnIsExact(ctl, uid);
  }

  /** Who may use a network: the system; for a VPN its users; for others, users who hold its permission and whom no
      secure VPN holds. `stray` is what is asked for the local network. */
  ghost predicate MayUse(ctl: Controller, uid: nat, netId: nat, firstAppUid: nat, stray: Permission) {
    && netId in ctl.networks && uid != INVALID_UID
    && (|| IsSystem(ctl, uid, firstAppUid)
        || match ctl.networks[netId]
           case Virtual(_, _, _, ranges) => Covers(ranges, uid)
           case Physical(_, permission, _) => UserHolds(ctl, uid, firstAppUid, permission) && Free(ctl, uid)
           case Local(_) => UserHolds(ctl, uid, firstAppUid, stray) && Free(ctl, uid))
  }

  /** No secure VPN holds the user, or it may protect its sockets. */
  ghost predicate Free(ctl: Controller, uid: nat) {
    uid in ctl.protectable || NoSecureVpnCovers(ctl, uid)
  }

  lemma FreeIsExact(ctl: Controller, uid: nat)
    requires Orderly(ctl)
    ensures Free(ctl, uid) <==>
            !(VpnForUser(ctl, uid).Some? && ctl.networks[VpnForUser(ctl, uid).value].secure && uid !in ctl.protectable)
  {
    hide Orderly, VpnForUser, Covers;
    VpnIsExact(ctl, uid);
    assert !NoSecureVpnCovers(ctl, uid) ==> exists v: nat :: Over(ctl, v, uid) && ctl.networks[v].secure;
  }

  /** The access check passes exactly those users, and its code says what was wrong. */
  lemma AccessIsExact(ctl: Controller, uid: nat, netId: nat, firstAppUid: nat, stray: Permission)
    requires Orderly(ctl)
    ensures var ret := CheckAccess(ctl, uid, netId, firstAppUid, stray);
            && (ret == 0 <==> MayUse(ctl, uid, netId, firstAppUid, stray))
            && (netId !in ctl.networks ==> ret == -ENONET)
            && (netId in ctl.networks && uid == INVALID_UID ==> ret == -EREMOTEIO)
            && (netId in ctl.networks && uid != INVALID_UID && ret != 0 ==>
                  ret == if ctl.networks[netId].Virtual? || !Free(ctl, uid) then -EPERM else -EACCES)
  {
    hide Orderly, VpnForUser, Covers, HasUid, Free, PermissionForUser, UserHolds;
    FreeIsExact(ctl, uid);
    PermissionIsExact(ctl, uid, firstAppUid, PERMISSION_SYSTEM);
    PermissionIsExact(ctl, uid, firstAppUid, stray);
    if netId in ctl.networks {
      if ctl.networks[netId].Physical? {
        PermissionIsExact(ctl, uid, firstAppUid, ctl.networks[netId].permission);
      } else if ctl.networks[netId].Virtual? {
        MembershipIsExact(ctl, netId, uid);
      }
    }
  }

  lemma MembershipIsExact(ctl: Controller, id: nat, uid: nat)
    requires Orderly(ctl) && IsVirtual(ctl, id)
    ensures HasUid(ctl.networks[id].ranges, uid) <==> Covers(ctl.networks[id].ranges, uid)
  {
    hide CoveredOnce, Covers, HasUid;
    CoveredOnceIsExact(ctl, id, uid);
  }

  /** A DNS query goes to the network asked for, explicitly, if the user may use it; else to the VPN over the user if
      that has DNS servers; else to the default network. It is always protected and privileged. */
  lemma DnsIsExact(ctl: Controller, netId: nat, uid: nat, firstAppUid: nat, stray: Permission)
    requires Orderly(ctl)
    ensures var (chosen, mark) := NetworkForDns(ctl, netId, uid, firstAppUid, stray);
            var may := MayUse(ctl, uid, netId, firstAppUid, stray);
            && (may ==> chosen == netId)
            && (!may && NoVpnCovers(ctl, uid) ==> chosen == ctl.defaultNetId)
            && (!may ==> forall v: nat :: Over(ctl, v, uid) ==>
                           chosen == if ctl.networks[v].hasDns then v else ctl.defaultNetId)
            && mark == Fwmark(chosen, may, true, PERMISSION_SYSTEM)
  {
    hide VpnForUser, Covers, CheckAccess, MayUse, NoVpnCovers, InterfacesDisjoint, InterfacesDistinct, RangesWellformed,
         CoveredOnce;
    AccessIsExact(ctl, uid, netId, firstAppUid, stray);
    VpnIsExact(ctl, uid);
    MayUseExists(ctl, uid, netId, firstAppUid, stray);
  }

  lemma MayUseExists(ctl: Controller, uid: nat, netId: nat, firstAppUid: nat, stray: Permission)
    ensures MayUse(ctl, uid, netId, firstAppUid, stray) ==> netId in ctl.networks
  {
  }

  /** The network an interface is looked up to is the one that has it. */
  lemma InterfaceOwnerIsExact(ctl: Controller, interface: string, id: nat)
    requires SafeController(ctl) && id != NETID_UNSET
    ensures NetworkForInterface(ctl.networks, interface, 1) == id <==>
            id in ctl.networks && interface in ctl.networks[id].interfaces
  {
  }

  // ----- What becomes of a socket's mark -----

  /** Only the network id, the selection, the protection and the permission ever change. */
  predicate SameRest(was: Mark, m: Mark) { m.unused == was.unused }

  /** The mark's permission has become exactly the user's. */
  predicate HasUserPermission(cfg: Config, c: Controller, uid: nat, m: Mark) {
    && (m.permission.network <==> UserHolds(c, uid, cfg.firstAppUid, Permission(true, false)))
    && (m.permission.system <==> UserHolds(c, uid, cfg.firstAppUid, Permission(false, true)))
  }

  /** The user's permission has been added to the mark's. */
  predicate GainsUserPermission(cfg: Config, c: Controller, uid: nat, was: Mark, m: Mark) {
    && (m.permission.network <==> was.permission.network || UserHolds(c, uid, cfg.firstAppUid, Permission(true, false)))
    && (m.permission.system <==> was.permission.system || UserHolds(c, uid, cfg.firstAppUid, Permission(false, true)))
  }

  lemma GainsAre(cfg: Config, c: Controller, uid: nat, was: Mark)
    ensures var held := PermissionForUser(c, uid, cfg.firstAppUid);
            && HasUserPermission(cfg, c, uid, was.(permission := held))
            && GainsUserPermission(cfg, c, uid, was, was.(permission := held.Or(was.permission)))
  {
  }

  /** Incoming connections get the user's permission on top and keep everything else. */
  lemma AcceptIsExact(cfg: Config, was: Mark, uid: nat, c0: Controller, c1: Controller, c2: Controller, c3: Controller)
    ensures var r := Process(cfg, was, uid, OnAccept, c0, c1, c2, c3);
            && r.ret == 0 && GainsUserPermission(cfg, c0, uid, was, r.mark)
            && r.mark.(permission := was.permission) == was
  {
    hide PermissionForUser, UserHolds;
    GainsAre(cfg, c0, uid, was);
  }

  /** A connecting socket without an explicit choice is marked, unless it is protected, with the bypassable VPN over the
      user or the default network; a protected one leaves a network that is none of the VPNs for the default network. It
      gets exactly the user's permission. */
  lemma ConnectMarkIsExact(cfg: Config, was: Mark, uid: nat,
                           c0: Controller, c1: Controller, c2: Controller, c3: Controller)
    requires Orderly(c1) && Orderly(c2)
    ensures var r := Process(cfg, was, uid, OnConnect, c0, c1, c2, c3);
            var m := r.mark;
            && r.ret == 0 && HasUserPermission(cfg, c0, uid, m)
            && m.(netId := was.netId, permission := was.permission) == was
            && (was.explicitlySelected ==> m.netId == was.netId)
            && (!was.explicitlySelected && !was.protectedFromVpn && NoVpnCovers(c1, uid) ==>
                  m.netId == c1.defaultNetId)
            && (!was.explicitlySelected && !was.protectedFromVpn ==>
                  forall v: nat :: Over(c1, v, uid) ==>
                    m.netId == if c1.networks[v].secure then c1.defaultNetId else v)
            && (!was.explicitlySelected && was.protectedFromVpn ==>
                  m.netId == if IsVirtual(c1, was.netId) then was.netId else c2.defaultNetId)
  {
    hide VpnForUser, Covers, NoVpnCovers, NetworkForConnect, InterfacesDisjoint, InterfacesDistinct, RangesWellformed,
         CoveredOnce, PermissionForUser, UserHolds;
    ConnectIsExact(c1, uid);
    GainsAre(cfg, c0, uid, was);
    ConnectIdFits(c1, uid);
    ConnectIdFits(c2, uid);
  }

  lemma ConnectIdFits(c: Controller, uid: nat)
    requires SafeController(c)
    ensures NetworkForConnect(c, uid) < 0x1_0000 && c.defaultNetId < 0x1_0000 && NetworkForUser(c, uid) < 0x1_0000
  {
    hide VpnForUser, InterfacesDisjoint, InterfacesDistinct, RangesWellformed;
  }

  /** Selecting no network clears the mark. */
  lemma UnselectIsExact(cfg: Config, was: Mark, uid: nat, c0: Controller, c1: Controller, c2: Controller,
                        c3: Controller)
    ensures var r := Process(cfg, was, uid, SelectNetwork(NETID_UNSET), c0, c1, c2, c3);
            r.ret == 0 && r.mark == NO_MARK.(unused := was.unused)
  {
  }

  /** Selecting a network works for those who may use it; the mark then names it, explicitly, with the user's permission
      and its right to protect. Otherwise the mark stays. */
  lemma SelectIsExact(cfg: Config, was: Mark, uid: nat, netId: nat,
                      c0: Controller, c1: Controller, c2: Controller, c3: Controller)
    requires Orderly(c1) && netId != NETID_UNSET
    ensures var r := Process(cfg, was, uid, SelectNetwork(netId), c0, c1, c2, c3);
            var m := r.mark;
            && (r.ret == 0 <==> MayUse(c1, uid, netId, cfg.firstAppUid, cfg.stray))
            && (r.ret != 0 ==> m == was)
            && (r.ret == 0 ==>
                  && m.netId == netId && m.explicitlySelected && HasUserPermission(cfg, c0, uid, m)
                  && (m.protectedFromVpn <==> MayProtect(c2, uid, cfg.firstAppUid)) && SameRest(was, m))
  {
    hide CheckAccess, MayUse, PermissionForUser, UserHolds, CoveredOnce, InterfacesDisjoint, InterfacesDistinct,
         RangesWellformed;
    AccessIsExact(c1, uid, netId, cfg.firstAppUid, cfg.stray);
    MayUseExists(c1, uid, netId, cfg.firstAppUid, cfg.stray);
    GainsAre(cfg, c0, uid, was);
    PermissionIsExact(c2, uid, cfg.firstAppUid, PERMISSION_SYSTEM);
  }

  /** Protecting works for the system and for those allowed to protect; an implicit mark then leaves a VPN for the
      default
      network. Otherwise the mark stays. */
  lemma ProtectIsExact(cfg: Config, was: Mark, uid: nat, c0: Controller, c1: Controller, c2: Controller, c3: Controller)
    requires SafeController(c3)
    ensures var r := Process(cfg, was, uid, ProtectFromVpn, c0, c1, c2, c3);
            var m := r.mark;
            && r.ret == (if MayProtect(c1, uid, cfg.firstAppUid) then 0 else -EPERM)
            && (r.ret != 0 ==> m == was)
            && (r.ret == 0 ==>
                  && m.protectedFromVpn && m.explicitlySelected == was.explicitlySelected && SameRest(was, m)
                  && GainsUserPermission(cfg, c0, uid, was, m)
                  && m.netId == if !was.explicitlySelected && IsVirtual(c2, was.netId) then c3.defaultNetId
                     else was.netId)
  {
    hide PermissionForUser, UserHolds, InterfacesDisjoint, InterfacesDistinct, RangesWellformed;
    GainsAre(cfg, c0, uid, was);
    PermissionIsExact(c1, uid, cfg.firstAppUid, PERMISSION_SYSTEM);
    ConnectIdFits(c3, uid);
  }

  /** Selecting for a user works for the system; the mark is then protected and names the VPN over that user, or else
      the
      default network. Otherwise the mark stays. */
  lemma SelectForUserIsExact(cfg: Config, was: Mark, uid: nat, user: nat,
                             c0: Controller, c1: Controller, c2: Controller, c3: Controller)
    requires Orderly(c1)
    ensures var r := Process(cfg, was, uid, SelectForUser(user), c0, c1, c2, c3);
            var m := r.mark;
            && r.ret == (if IsSystem(c0, uid, cfg.firstAppUid) then 0 else -EPERM)
            && (r.ret != 0 ==> m == was)
            && (r.ret == 0 ==>
                  && m.protectedFromVpn && m.explicitlySelected == was.explicitlySelected && SameRest(was, m)
                  && HasUserPermission(cfg, c0, uid, m)
                  && (NoVpnCovers(c1, user) ==> m.netId == c1.defaultNetId)
                  && forall v: nat :: Over(c1, v, user) ==> m.netId == v)
  {
    hide PermissionForUser, UserHolds, InterfacesDisjoint, InterfacesDistinct, RangesWellformed, CoveredOnce,
         VpnForUser,
         NetworkForUser, NoVpnCovers, Over;
    GainsAre(cfg, c0, uid, was);
    PermissionIsExact(c0, uid, cfg.firstAppUid, PERMISSION_SYSTEM);
    UserNetworkIsExact(c1, user);
    ConnectIdFits(c1, user);
  }
}
