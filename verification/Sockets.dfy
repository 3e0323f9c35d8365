/** What the fwmark server does to a socket's mark (server/FwmarkServer.cpp), and runs of it against a changing
    controller. The class in FwmarkServer.dfy is proved to do exactly this. */
module Sockets {
  import opened Fwmarks
  import opened Kernels
  import opened Uids
  import opened Rules
  import opened Controllers
  import opened Safety

  const EPROTO := 71

  datatype SocketCommand =
    | OnAccept
    | OnConnect
    | SelectNetwork(netId: nat)
    | ProtectFromVpn
    | SelectForUser(user: nat)
    | Unknown

  /** FIRST_APPLICATION_UID, and what the access check reads for the local network. */
  datatype Config = Config(firstAppUid: nat, stray: Permission)

  datatype Reply = Reply(ret: int, mark: Mark)

  /** Each question to the NetworkController takes its lock anew, so it may be answered in a later state than the
      one before: `c0` to `c3` are the states of the first to the fourth question. */
  function Process(cfg: Config, mark: Mark, uid: nat, cmd: SocketCommand,
                   c0: Controller, c1: Controller, c2: Controller, c3: Controller): Reply
  {
    var permission := PermissionForUser(c0, uid, cfg.firstAppUid);
    match cmd
    case OnAccept => Reply(0, mark.(permission := permission.Or(mark.permission)))
    case OnConnect =>
      var netId :=
        if mark.explicitlySelected then mark.netId
        else if !mark.protectedFromVpn then NetIdBits(NetworkForConnect(c1, uid))
        else if !IsVirtual(c1, mark.netId) then NetIdBits(c2.defaultNetId)
        else mark.netId;
      Reply(0, mark.(netId := netId, permission := permission))
    case SelectNetwork(netId) =>
      if netId == NETID_UNSET then
        Reply(0, mark.(netId := NETID_UNSET, explicitlySelected := false, protectedFromVpn := false,
                       permission := PERMISSION_NONE))
      else
        var ret := CheckAccess(c1, uid, netId, cfg.firstAppUid, cfg.stray);
        if ret != 0 then Reply(ret, mark)
        else Reply(0, mark.(netId := NetIdBits(netId), explicitlySelected := true,
                            protectedFromVpn := CanProtect(c2, uid, cfg.firstAppUid), permission := permission))
    case ProtectFromVpn =>
      if !CanProtect(c1, uid, cfg.firstAppUid) then Reply(-EPERM, mark)
      else
        var netId :=
          if !mark.explicitlySelected && IsVirtual(c2, mark.netId) then NetIdBits(c3.defaultNetId) else mark.netId;
        Reply(0, mark.(netId := netId, protectedFromVpn := true, permission := permission.Or(mark.permission)))
    case SelectForUser(user) =>
      if !permission.Includes(PERMISSION_SYSTEM) then Reply(-EPERM, mark)
      else Reply(0, mark.(netId := NetIdBits(NetworkForUser(c1, user)), protectedFromVpn := true,
                          permission := permission))
    case Unknown => Reply(-EPROTO, mark)
  }

  /** A command on the socket by `uid`; its questions are answered at times t0 to t3 of the controller's run. */
  datatype Event = Event(cmd: SocketCommand, uid: nat, t0: nat, t1: nat, t2: nat, t3: nat)

  function Handle(cfg: Config, states: seq<World>, mark: Mark, e: Event): Reply
    requires e.t0 < |states| && e.t1 < |states| && e.t2 < |states| && e.t3 < |states|
  {
    Process(cfg, mark, e.uid, e.cmd, states[e.t0].ctl, states[e.t1].ctl, states[e.t2].ctl, states[e.t3].ctl)
  }

  /** Events happen one after the other, each taking some time. */
  ghost predicate InOrder(states: seq<World>, events: seq<Event>) {
    && (forall k :: 0 <= k < |events| ==> events[k].t0 <= events[k].t1 <= events[k].t2 <= events[k].t3 < |states|)
    && (forall k :: 0 < k < |events| ==> events[k - 1].t3 <= events[k].t0)
  }

  /** The mark of a socket that started unmarked. */
  function MarkAfter(cfg: Config, states: seq<World>, events: seq<Event>): Mark
    requires forall k :: 0 <= k < |events| ==>
               events[k].t0 < |states| && events[k].t1 < |states| && events[k].t2 < |states| && events[k].t3 < |states|
  {
    if events == [] then NO_MARK
    else
      var last := |events| - 1;
      Handle(cfg, states, MarkAfter(cfg, states, events[..last]), events[last]).mark
  }

  // ----- A user without privileges cannot leave a secure VPN -----

  /** The user holds at most PERMISSION_NETWORK and is not protectable. */
  predicate Unprivileged(cfg: Config, ctl: Controller, uid: nat) {
    PermissionForUser(ctl, uid, cfg.firstAppUid) in {PERMISSION_NONE, PERMISSION_NETWORK} && uid !in ctl.protectable
  }

  predicate Captive(m: Mark) {
    !m.protectedFromVpn && m.permission in {PERMISSION_NONE, PERMISSION_NETWORK}
  }

  lemma {:induction false} UnprivilegedStaysCaptive(cfg: Config, states: seq<World>, events: seq<Event>, uid: nat)
    requires InOrder(states, events) && forall e :: e in events ==> e.uid == uid
    requires forall w :: w in states ==> Unprivileged(cfg, w.ctl, uid)
    ensures Captive(MarkAfter(cfg, states, events))
  {
    hide Unprivileged, Handle, Captive;
    if events == [] {
      assert Captive(NO_MARK) by { FreshIsCaptive(); }
    } else {
      var last := |events| - 1;
      UnprivilegedStaysCaptive(cfg, states, events[..last], uid);
      var e := events[last];
      assert e in events && states[e.t0] in states && states[e.t1] in states && states[e.t2] in states;
      CaptiveStep(cfg, MarkAfter(cfg, states, events[..last]), e, states);
    }
  }

  lemma FreshIsCaptive()
    ensures Captive(NO_MARK)
  {
  }

  lemma CaptiveStep(cfg: Config, m: Mark, e: Event, states: seq<World>)
    requires Captive(m) && e.t0 < |states| && e.t1 < |states| && e.t2 < |states| && e.t3 < |states|
    requires Unprivileged(cfg, states[e.t0].ctl, e.uid) && Unprivileged(cfg, states[e.t1].ctl, e.uid)
    requires Unprivileged(cfg, states[e.t2].ctl, e.uid)
    ensures Captive(Handle(cfg, states, m, e).mark)
  {
    hide CheckAccess, NetworkForConnect, NetworkForUser;
  }

  // ----- The ON_CONNECT heuristic -----

  /** No network id comes back once its network is gone. */
  ghost predicate NoReuse(states: seq<World>) {
    forall i, j, k, id :: 0 <= i < j < k < |states| && id in states[i].ctl.networks && id !in states[j].ctl.networks ==>
      id !in states[k].ctl.networks
  }

  predicate SameKind(a: Network, b: Network) {
    a.Local? == b.Local? && a.Physical? == b.Physical? && (a.Virtual? && b.Virtual? ==> a.secure == b.secure)
  }

  /** No single command turns a network into one of another kind, or a bypassable VPN into a secure one. */
  lemma StepKeepsKind(env: Env, w: World, c: Command, id: nat)
    requires id in w.ctl.networks && id in Step(env, w, c).world.ctl.networks
    ensures SameKind(w.ctl.networks[id], Step(env, w, c).world.ctl.networks[id])
  {
    hide SetDefault, CreatePhysical, CreateVirtual, Destroy, AddInterface, RemoveInterface, WithPermission,
         SetNetworkPermissions, ChangeUsersOf, Exec;
    match c {
      case SetDefaultNetwork(netId) => DefaultKeepsKind(env, w, netId, id);
      case CreatePhysicalNetwork(_, _) => CreateKeepsKind(env, w, c, id);
      case CreateVirtualNetwork(_, _, _) => CreateKeepsKind(env, w, c, id);
      case DestroyNetwork(netId) => DestroyKeepsKind(env, w, netId, id);
      case AddInterfaceToNetwork(_, _) => InterfaceKeepsKind(env, w, c, id);
      case RemoveInterfaceFromNetwork(_, _) => InterfaceKeepsKind(env, w, c, id);
      case SetPermissionForNetworks(permission, netIds) => PermissionsKeepKind(env, w, permission, netIds, id);
      case AddUsersToNetwork(netId, ranges) => UsersKeepKind(env, w, netId, ranges, true, id);
      case RemoveUsersFromNetwork(netId, ranges) => UsersKeepKind(env, w, netId, ranges, false, id);
      case EnableTethering(input, output) => assert Tether(env, w, input, output, true).world.ctl == w.ctl;
      case DisableTethering(input, output) => assert Tether(env, w, input, output, false).world.ctl == w.ctl;
      case _ =>
    }
  }

  lemma CreateKeepsKind(env: Env, w: World, c: Command, id: nat)
    requires id in w.ctl.networks && (c.CreatePhysicalNetwork? || c.CreateVirtualNetwork?)
    ensures id in Step(env, w, c).world.ctl.networks
    ensures SameKind(w.ctl.networks[id], Step(env, w, c).world.ctl.networks[id])
  {
    hide Exec, FallthroughRequests;
  }

  lemma InterfaceKeepsKind(env: Env, w: World, c: Command, id: nat)
    requires id in w.ctl.networks && (c.AddInterfaceToNetwork? || c.RemoveInterfaceFromNetwork?)
    ensures id in Step(env, w, c).world.ctl.networks
    ensures SameKind(w.ctl.networks[id], Step(env, w, c).world.ctl.networks[id])
  {
    hide Exec, AttachRequests, DetachRequests, VpnsBelow, NetworkForInterface, InsertName, EraseName;
  }

  lemma UsersKeepKind(env: Env, w: World, netId: nat, ranges: seq<Range>, add: bool, id: nat)
    requires id in w.ctl.networks
    ensures var o := ChangeUsersOf(env, w, netId, ranges, add);
            id in o.world.ctl.networks && SameKind(w.ctl.networks[id], o.world.ctl.networks[id])
  {
    hide Exec, EachInterface, Merge, Difference;
  }

  lemma FlagKeepsKind(env: Env, w: World, netId: nat, add: bool, id: nat)
    requires id in w.ctl.networks && netId in w.ctl.networks && w.ctl.networks[netId].Physical?
    ensures var w' := (if add then AddAsDefault(env, w, netId) else RemoveAsDefault(env, w, netId)).world;
            && id in w'.ctl.networks && SameKind(w.ctl.networks[id], w'.ctl.networks[id])
            && w'.ctl.defaultNetId == w.ctl.defaultNetId
  {
    hide Exec, EachInterface, VpnsBelow;
  }

  lemma DefaultKeepsKind(env: Env, w: World, netId: nat, id: nat)
    requires id in w.ctl.networks
    ensures var o := SetDefault(env, w, netId);
            id in o.world.ctl.networks && SameKind(w.ctl.networks[id], o.world.ctl.networks[id])
  {
    hide AddAsDefault, RemoveAsDefault;
    var w1 := w;
    if netId in w.ctl.networks && w.ctl.networks[netId].Physical? {
      FlagKeepsKind(env, w, netId, true, id);
      if netId != NETID_UNSET {
        w1 := AddAsDefault(env, w, netId).world;
      }
    }
    var was := w1.ctl.defaultNetId;
    if was in w1.ctl.networks && w1.ctl.networks[was].Physical? {
      FlagKeepsKind(env, w1, was, false, id);
    }
  }

  lemma DestroyKeepsKind(env: Env, w: World, netId: nat, id: nat)
    requires id in w.ctl.networks && id in Destroy(env, w, netId).world.ctl.networks
    ensures SameKind(w.ctl.networks[id], Destroy(env, w, netId).world.ctl.networks[id])
  {
    hide Exec, EachInterface, VpnsBelow, FallthroughRequests, ClearInterfaces;
    if netId in w.ctl.networks {
      ClearKeepsKind(env, w, netId, id);
    }
  }

  lemma {:induction false} PermissionsKeepKind(env: Env, w: World, permission: Permission, netIds: seq<nat>, id: nat)
    requires id in w.ctl.networks
    ensures var o := SetNetworkPermissions(env, w, permission, netIds);
            id in o.world.ctl.networks && SameKind(w.ctl.networks[id], o.world.ctl.networks[id])
    decreases |netIds|
  {
    hide Exec, SetPermissionRequests;
    if netIds != [] && netIds[0] in w.ctl.networks && w.ctl.networks[netIds[0]].Physical? {
      PermissionsKeepKind(env, SetPermission(env, w, netIds[0], permission).world, permission, netIds[1..], id);
    }
  }

  lemma {:induction false} ClearKeepsKind(env: Env, w: World, netId: nat, id: nat)
    requires id in w.ctl.networks && netId in w.ctl.networks
    ensures var o := ClearInterfaces(env, w, netId);
            id in o.world.ctl.networks && SameKind(w.ctl.networks[id], o.world.ctl.networks[id])
    decreases |w.ctl.networks[netId].interfaces|
  {
    hide Exec, DetachRequests;
    var n := w.ctl.networks[netId];
    if n.interfaces != [] {
      var o := Detach(env, w, netId, n.interfaces[0]);
      if o.ret == 0 {
        ClearKeepsKind(env, o.world, netId, id);
      }
    }
  }

  lemma {:induction false} RunKeepsKind(env: Env, states: seq<World>, commands: seq<Command>, i: nat, k: nat, id: nat)
    requires IsHistory(env, states, commands) && NoReuse(states) && i <= k < |states|
    requires id in states[i].ctl.networks && id in states[k].ctl.networks
    ensures SameKind(states[i].ctl.networks[id], states[k].ctl.networks[id])
    decreases k - i
  {
    hide Step, Safe;
    if i < k {
      assert id in states[k - 1].ctl.networks;
      RunKeepsKind(env, states, commands, i, k - 1, id);
      StepKeepsKind(env, states[k - 1], commands[k - 1], id);
    }
  }

  /** `id` is 0 or has been the id of a network by time t. */
  ghost predicate Known(states: seq<World>, t: nat, id: nat) {
    id == NETID_UNSET || exists i :: 0 <= i <= t < |states| && id in states[i].ctl.networks
  }

  /** What every mark satisfies from time t on. */
  ghost predicate MarkSane(states: seq<World>, t: nat, m: Mark) {
    && Known(states, t, m.netId)
    && (!m.explicitlySelected && m.protectedFromVpn ==> forall k :: t <= k < |states| ==>
          !IsVirtual(states[k].ctl, m.netId))
  }

  ghost predicate NeverVirtual(states: seq<World>, t: nat, id: nat) {
    forall k :: t <= k < |states| ==> !IsVirtual(states[k].ctl, id)
  }

  ghost predicate NeverSecure(states: seq<World>, t: nat, id: nat) {
    forall k :: t <= k < |states| && IsVirtual(states[k].ctl, id) ==> !states[k].ctl.networks[id].secure
  }

  /** An id that is known but no VPN now never becomes one. */
  lemma NotVirtualNow(env: Env, states: seq<World>, commands: seq<Command>, t: nat, id: nat)
    requires IsHistory(env, states, commands) && NoReuse(states) && t < |states|
    requires Known(states, t, id) && !IsVirtual(states[t].ctl, id)
    ensures NeverVirtual(states, t, id)
  {
    hide IsHistory, Safe;
    forall k | t <= k < |states| ensures !IsVirtual(states[k].ctl, id) {
      SafeAt(env, states, commands, k);
      if id in states[k].ctl.networks {
        assert id != NETID_UNSET;
        var i :| 0 <= i <= t && id in states[i].ctl.networks;
        assert id in states[t].ctl.networks;
        RunKeepsKind(env, states, commands, t, k, id);
      }
    }
  }

  lemma BypassableStays(env: Env, states: seq<World>, commands: seq<Command>, t: nat, id: nat)
    requires IsHistory(env, states, commands) && NoReuse(states) && t < |states|
    requires id in states[t].ctl.networks && (IsVirtual(states[t].ctl, id) ==> !states[t].ctl.networks[id].secure)
    ensures NeverSecure(states, t, id)
  {
    hide IsHistory;
    forall k | t <= k < |states| && IsVirtual(states[k].ctl, id) ensures !states[k].ctl.networks[id].secure {
      RunKeepsKind(env, states, commands, t, k, id);
    }
  }

  lemma SafeAt(env: Env, states: seq<World>, commands: seq<Command>, t: nat)
    requires IsHistory(env, states, commands) && t < |states|
    ensures SafeController(states[t].ctl)
  {
    hide IsHistory, TablesCached, SafeController;
    HistoryIsSafe(env, states, commands, t);
  }

  /** The default network is 0 or known, and no VPN. */
  lemma DefaultKnown(env: Env, states: seq<World>, commands: seq<Command>, t: nat)
    requires IsHistory(env, states, commands) && NoReuse(states) && t < |states|
    ensures var d := states[t].ctl.defaultNetId;
            NetIdBits(d) == d && Known(states, t, d) && NeverVirtual(states, t, d)
  {
    hide IsHistory, InterfacesDisjoint, InterfacesDistinct, RangesWellformed;
    SafeAt(env, states, commands, t);
    NotVirtualNow(env, states, commands, t, states[t].ctl.defaultNetId);
  }

  /** getNetworkForConnect() picks the default network or a VPN that is not secure. */
  lemma ConnectKnown(env: Env, states: seq<World>, commands: seq<Command>, t: nat, uid: nat)
    requires IsHistory(env, states, commands) && NoReuse(states) && t < |states|
    ensures var n := NetworkForConnect(states[t].ctl, uid);
            NetIdBits(n) == n && Known(states, t, n) && NeverSecure(states, t, n)
  {
    hide IsHistory, InterfacesDisjoint, InterfacesDistinct, RangesWellformed;
    SafeAt(env, states, commands, t);
    DefaultKnown(env, states, commands, t);
    var n := NetworkForConnect(states[t].ctl, uid);
    if n != states[t].ctl.defaultNetId {
      BypassableStays(env, states, commands, t, n);
    }
  }

  /** getNetworkForUser() picks the user's VPN, or else the default network, which is none. */
  lemma UserNetworkKnown(env: Env, states: seq<World>, commands: seq<Command>, t: nat, user: nat)
    requires IsHistory(env, states, commands) && NoReuse(states) && t < |states|
    ensures var c := states[t].ctl;
            var n := NetworkForUser(c, user);
            && NetIdBits(n) == n && Known(states, t, n)
            && (VpnForUser(c, user).Some? ==> n == VpnForUser(c, user).value && IsVirtual(c, n))
            && (VpnForUser(c, user).None? ==> NeverVirtual(states, t, n))
  {
    hide IsHistory, InterfacesDisjoint, InterfacesDistinct, RangesWellformed;
    SafeAt(env, states, commands, t);
    DefaultKnown(env, states, commands, t);
  }

  /** The command is no SELECT_FOR_USER that is granted, comes on an implicitly marked socket, and names a user with a
      VPN that is still there when the mark is set. */
  predicate Harmless(cfg: Config, states: seq<World>, m: Mark, e: Event)
    requires e.t0 < |states| && e.t1 < |states| && e.t3 < |states|
  {
    e.cmd.SelectForUser? && !m.explicitlySelected &&
    PermissionForUser(states[e.t0].ctl, e.uid, cfg.firstAppUid).Includes(PERMISSION_SYSTEM) ==>
      var v := VpnForUser(states[e.t1].ctl, e.cmd.user);
      v.None? || !IsVirtual(states[e.t3].ctl, v.value)
  }

  lemma SelectedUserIsSane(env: Env, cfg: Config, states: seq<World>, commands: seq<Command>, t: nat, m: Mark, e: Event)
    requires IsHistory(env, states, commands) && NoReuse(states)
    requires t <= e.t0 <= e.t1 <= e.t2 <= e.t3 < |states| && MarkSane(states, t, m) && e.cmd.SelectForUser?
    ensures MarkSane(states, e.t3, Handle(cfg, states, m, e).mark) <==> Harmless(cfg, states, m, e)
  {
    hide IsHistory, NoReuse, PermissionForUser, VpnForUser, IsVirtual, NetworkForUser;
    var n := NetworkForUser(states[e.t1].ctl, e.cmd.user);
    UserNetworkKnown(env, states, commands, e.t1, e.cmd.user);
    if !IsVirtual(states[e.t3].ctl, n) {
      NotVirtualNow(env, states, commands, e.t3, n);
    }
  }

  /** A command keeps a sane mark sane exactly if it is harmless. */
  lemma EventKeepsMarkSane(env: Env, cfg: Config, states: seq<World>, commands: seq<Command>, t: nat, m: Mark, e: Event)
    requires IsHistory(env, states, commands) && NoReuse(states)
    requires t <= e.t0 <= e.t1 <= e.t2 <= e.t3 < |states| && MarkSane(states, t, m)
    ensures MarkSane(states, e.t3, Handle(cfg, states, m, e).mark) <==> Harmless(cfg, states, m, e)
    ensures e.cmd.OnConnect? && !m.explicitlySelected ==>
              NeverSecure(states, e.t3, Handle(cfg, states, m, e).mark.netId)
  {
    hide IsHistory, NoReuse, PermissionForUser, CanProtect, NetworkForConnect, NetworkForUser, VpnForUser;
    match e.cmd {
      case OnConnect =>
        ConnectKnown(env, states, commands, e.t1, e.uid);
        DefaultKnown(env, states, commands, e.t2);
      case SelectNetwork(netId) => SelectedIsKnown(env, cfg, states, commands, e.t1, e.uid, netId);
      case ProtectFromVpn =>
        DefaultKnown(env, states, commands, e.t3);
        if !IsVirtual(states[e.t2].ctl, m.netId) {
          NotVirtualNow(env, states, commands, e.t2, m.netId);
        }
      case SelectForUser(_) => SelectedUserIsSane(env, cfg, states, commands, t, m, e);
      case _ =>
    }
  }

  lemma SelectedIsKnown(env: Env, cfg: Config, states: seq<World>, commands: seq<Command>, t: nat, uid: nat, netId: nat)
    requires IsHistory(env, states, commands) && t < |states|
    ensures CheckAccess(states[t].ctl, uid, netId, cfg.firstAppUid, cfg.stray) == 0 ==>
              Known(states, t, NetIdBits(netId))
  {
    hide IsHistory, PermissionForUser, VpnForUser, InterfacesDisjoint, InterfacesDistinct, RangesWellformed;
    SafeAt(env, states, commands, t);
  }

  function LastTime(events: seq<Event>): nat { if events == [] then 0 else events[|events| - 1].t3 }

  /** What harm is: a granted SELECT_FOR_USER for a user with a VPN, and for no other, makes on an implicitly marked
      socket the mark that the heuristic takes for a proxy's, implicit and protected with a VPN's network id. */
  lemma SelectForUserMarksVpn(cfg: Config, m: Mark, uid: nat, user: nat,
                              c0: Controller, c1: Controller, c2: Controller, c3: Controller)
    requires SafeController(c1) && PermissionForUser(c0, uid, cfg.firstAppUid).Includes(PERMISSION_SYSTEM)
    requires !m.explicitlySelected
    ensures var m' := Process(cfg, m, uid, SelectForUser(user), c0, c1, c2, c3).mark;
            && !m'.explicitlySelected && m'.protectedFromVpn
            && (IsVirtual(c1, m'.netId) <==> VpnForUser(c1, user).Some?)
  {
    hide VpnForUser, HasUid, InterfacesDisjoint, InterfacesDistinct, RangesWellformed;
    var n := NetworkForUser(c1, user);
    assert NetIdBits(n) == n;
  }

  /** After the first k commands the mark is sane. */
  ghost predicate SaneAfter(cfg: Config, states: seq<World>, events: seq<Event>, k: nat)
    requires InOrder(states, events) && k <= |events|
  {
    MarkSane(states, LastTime(events[..k]), MarkAfter(cfg, states, events[..k]))
  }

  /** The next command does no harm to the mark the first k leave. */
  ghost predicate HarmlessAt(cfg: Config, states: seq<World>, events: seq<Event>, k: nat)
    requires InOrder(states, events) && k < |events|
  {
    Harmless(cfg, states, MarkAfter(cfg, states, events[..k]), events[k])
  }

  lemma NextIsSane(env: Env, cfg: Config, states: seq<World>, commands: seq<Command>, events: seq<Event>, k: nat)
    requires IsHistory(env, states, commands) && NoReuse(states) && InOrder(states, events) && k < |events|
    requires SaneAfter(cfg, states, events, k)
    ensures SaneAfter(cfg, states, events, k + 1) <==> HarmlessAt(cfg, states, events, k)
  {
    hide IsHistory, NoReuse, MarkSane, Handle, Harmless;
    assert events[..k + 1][..k] == events[..k];
    EventKeepsMarkSane(env, cfg, states, commands, LastTime(events[..k]), MarkAfter(cfg, states, events[..k]),
                       events[k]);
  }

  /** A socket that starts unmarked is, after none of its first n commands, at that time or later, implicit, protected
      and marked with a VPN all at once, if and only if each of these commands is harmless to the mark it finds. */
  lemma {:induction false} ConnectHeuristicHolds(env: Env, cfg: Config, states: seq<World>, commands: seq<Command>,
                                                 events: seq<Event>, n: nat)
    requires IsHistory(env, states, commands) && NoReuse(states) && InOrder(states, events) && n <= |events|
    ensures (forall k :: 0 <= k <= n ==> SaneAfter(cfg, states, events, k)) <==>
            (forall k :: 0 <= k < n ==> HarmlessAt(cfg, states, events, k))
  {
    hide IsHistory, NoReuse, InOrder, SaneAfter, HarmlessAt;
    if n == 0 {
      FreshMarkSane(cfg, states, events);
    } else {
      ConnectHeuristicHolds(env, cfg, states, commands, events, n - 1);
      if SaneAfter(cfg, states, events, n - 1) {
        NextIsSane(env, cfg, states, commands, events, n - 1);
      }
    }
  }

  /** ... and after such commands ON_CONNECT never installs the id of a VPN that is secure then or later. */
  lemma ConnectNeverInstallsSecure(env: Env, cfg: Config, states: seq<World>, commands: seq<Command>,
                                   events: seq<Event>, e: Event)
    requires IsHistory(env, states, commands) && NoReuse(states) && InOrder(states, events)
    requires forall k :: 0 <= k < |events| ==> HarmlessAt(cfg, states, events, k)
    requires e.cmd.OnConnect? && LastTime(events) <= e.t0 <= e.t1 <= e.t2 <= e.t3 < |states|
    requires !MarkAfter(cfg, states, events).explicitlySelected
    ensures NeverSecure(states, e.t3, Handle(cfg, states, MarkAfter(cfg, states, events), e).mark.netId)
  {
    hide IsHistory, NoReuse, MarkSane, Handle, HarmlessAt, NeverSecure;
    ConnectHeuristicHolds(env, cfg, states, commands, events, |events|);
    assert SaneAfter(cfg, states, events, |events|) && events[..|events|] == events;
    EventKeepsMarkSane(env, cfg, states, commands, LastTime(events), MarkAfter(cfg, states, events), e);
  }

  lemma FreshMarkSane(cfg: Config, states: seq<World>, events: seq<Event>)
    requires InOrder(states, events)
    ensures SaneAfter(cfg, states, events, 0)
  {
  }
}
