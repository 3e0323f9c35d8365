/** Runs that show that what the theorems assume is needed: a passed access check that is not followed by routing
    (`Guarantees.AccessImpliesRouting`), marks gone wrong by SELECT_FOR_USER or by the reuse of a network id
    (`Sockets.ConnectHeuristicHolds`). */
module Examples {
  import opened Wrappers
  import opened Fwmarks
  import opened Kernels
  import opened Uids
  import opened Rules
  import opened Controllers
  import opened Safety
  import opened Sync
  import opened SyncRuns
  import opened Sockets
  import opened Guarantees
  import opened Progress

  // ----- A kernel that refuses nothing, with every interface there -----

  const CHARS: nat := 0x11_0000

  /** A number for every interface name. */
  function Index(name: string): (n: nat)
    ensures n > 0
  {
    if name == [] then 1 else CHARS * Index(name[1..]) + name[0] as nat
  }

  lemma {:induction false} IndexIsInjective(a: string, b: string)
    requires Index(a) == Index(b)
    ensures a == b
  {
    if a != [] && b != [] {
      assert a == [a[0]] + a[1..] && b == [b[0]] + b[1..];
      IndexIsInjective(a[1..], b[1..]);
    }
  }

  const QUIET: Env := Env(name => Index(name), t => true, t => 0)

  lemma QuietIsValid()
    ensures ValidEnv(QUIET)
  {
    forall a: string, b: string | QUIET.index(a) == QUIET.index(b)
      ensures a == b
    {
      IndexIsInjective(a, b);
    }
  }

  /** Roles without uid ranges. */
  predicate IsPlain(part: Part) {
    part.PhysicalPart? || (part.VirtualPart? && part.ranges == [])
  }

  lemma PlainItemShape(part: Part, interface: string, x: Item)
    requires IsPlain(part) && |interface| < 16 && x in PartItems(QUIET, part, interface) && x.IpRule?
    ensures NameFits(x.rule.iif) && NameFits(x.rule.oif)
            && (x.rule.uidStart == INVALID_UID <==> x.rule.uidEnd == INVALID_UID)
  {
  }

  lemma PlainItemAccepted(part: Part, interface: string, x: Item)
    requires IsPlain(part) && |interface| < 16 && x in PartItems(QUIET, part, interface)
    ensures Acceptable(x)
  {
    hide ConjunctionIs, PartItems, IsSelectorRule, NameFits;
    if x.IpRule? {
      PlainItemShape(part, interface, x);
      BuildersAreInRange(QUIET, part, "", interface, x);
    }
  }

  lemma PlainRoleSucceeds(k: Kernel, part: Part, interface: string)
    requires IsPlain(part) && |interface| < 16
    ensures Exec(QUIET, k, PartRequests(QUIET, part, interface, true)).ret == 0
  {
    hide Acceptable, PartItems, Exec;
    var items := PartItems(QUIET, part, interface);
    forall i | 0 <= i < |items|
      ensures Acceptable(items[i])
    {
      PlainItemAccepted(part, interface, items[i]);
    }
    var d := ExecOne(QUIET, k, Lookup(interface));
    AddsSucceed(QUIET, d.kernel, items);
    LookupFirst(k, interface, ChangeAll(items, true));
  }

  lemma LookupFirst(k: Kernel, interface: string, requests: seq<Request>)
    ensures Exec(QUIET, k, [Lookup(interface)] + requests) ==
            Exec(QUIET, ExecOne(QUIET, k, Lookup(interface)).kernel, requests)
  {
    assert ([Lookup(interface)] + requests)[1..] == requests;
  }

  /** An interface that no network has can be added to a network without interfaces. */
  lemma FirstInterface(w: World, netId: nat, interface: string)
    requires netId in w.ctl.networks && |interface| < 16
    requires forall id :: id in w.ctl.networks ==> interface !in w.ctl.networks[id].interfaces
    requires var n := w.ctl.networks[netId];
             n.interfaces == [] && ((n.Physical? && !n.isDefault) || (n.Virtual? && n.ranges == []))
    ensures var o := Step(QUIET, w, AddInterfaceToNetwork(netId, interface));
            && o.ret == 0
            && o.world.ctl == Updated(w.ctl, netId, w.ctl.networks[netId].(interfaces := [interface]))
            && o.world.tethers == w.tethers
  {
    hide Exec, PartRequests, NetworkForInterface, VpnsBelow;
    var n := w.ctl.networks[netId];
    PlainRoleSucceeds(w.kernel, MainPart(netId, n), interface);
    var requests := PartRequests(QUIET, MainPart(netId, n), interface, true);
    assert requests + [] == requests;
    assert InsertName([], interface) == [interface];
  }

  // ----- The run -----

  const WIFI: nat := 100
  const VPN: nat := 101
  const SYSTEM_SERVER: nat := 1000
  const CONFIG: Config := Config(10000, PERMISSION_NONE)

  function SetupCommands(): (r: seq<Command>) {
    [ CreatePhysicalNetwork(WIFI, PERMISSION_NONE), AddInterfaceToNetwork(WIFI, "wlan0"),
      CreateVirtualNetwork(VPN, true, false), AddInterfaceToNetwork(VPN, "tun0") ]
  }

  function SetupController(): (r: Controller) {
    InitialController().(networks := map[LOCAL_NET_ID := Local([]), WIFI := Physical(["wlan0"], PERMISSION_NONE, false),
                                         VPN := Virtual(["tun0"], true, false, [])])
  }

  lemma SetupRuns() returns (states: seq<World>)
    ensures IsRun(QUIET, states, SetupCommands()) && |states| == 5
    ensures states[0] == Boot(QUIET, multiset{}, multiset{}).world
    ensures states[4].ctl == SetupController() && states[4].tethers == multiset{}
  {
    hide Boot, Consistent, NetworkForInterface, VpnsBelow, Exec, AddInterface;
    var w0 := Start();
    var w1 := Step(QUIET, w0, SetupCommands()[0]).world;
    assert w1.ctl == Updated(w0.ctl, WIFI, Physical([], PERMISSION_NONE, false)) && w1.tethers == multiset{};
    FirstInterface(w1, WIFI, "wlan0");
    var w2 := Step(QUIET, w1, SetupCommands()[1]).world;
    FirstVpn(w2, VPN, false);
    var w3 := Step(QUIET, w2, SetupCommands()[2]).world;
    assert w3.ctl.networks[WIFI].interfaces == ["wlan0"] && w3.ctl.networks[VPN].interfaces == [];
    FirstInterface(w3, VPN, "tun0");
    var w4 := Step(QUIET, w3, SetupCommands()[3]).world;
    assert w4.ctl.networks == SetupController().networks;
    states := [w0, w1, w2, w3, w4];
  }

  lemma Start() returns (w: World)
    ensures w == Boot(QUIET, multiset{}, multiset{}).world && Consistent(QUIET, w)
    ensures w.ctl == InitialController() && w.tethers == multiset{}
  {
    hide Exec, Consistent, StartRules;
    w := Boot(QUIET, multiset{}, multiset{}).world;
    QuietIsValid();
    BootSucceeds(QUIET, multiset{}, multiset{});
    BootConsistent(QUIET, multiset{}, multiset{});
  }

  lemma FirstVpn(w: World, netId: nat, secure: bool)
    requires w.ctl.defaultNetId == NETID_UNSET && ValidVirtualNetId(netId) && netId !in w.ctl.networks
    ensures Step(QUIET, w, CreateVirtualNetwork(netId, true, secure)) ==
            Outcome(w.(ctl := Updated(w.ctl, netId, Virtual([], true, secure, []))), 0)
  {
  }

  /** After that run the system server may select the VPN, but a socket bound to wlan0 is routed elsewhere. */
  lemma SelectionDiverted() returns (states: seq<World>, walk: seq<Rule>)
    ensures IsRun(QUIET, states, SetupCommands()) && |states| == 5
    ensures states[0] == Boot(QUIET, multiset{}, multiset{}).world
    ensures var w := states[4];
            var c := w.ctl;
            var reply := Process(CONFIG, NO_MARK, SYSTEM_SERVER, SelectNetwork(VPN), c, c, c, c);
            && VPN in c.networks && OutsideBypassable(c, VPN, SYSTEM_SERVER)
            && BoundElsewhere(c, VPN, SYSTEM_SERVER, Some("wlan0"))
            && CheckAccess(c, SYSTEM_SERVER, VPN, CONFIG.firstAppUid, CONFIG.stray) == 0 && reply.ret == 0
            && LooksUp(w, Packet(reply.mark, SYSTEM_SERVER, LOOPBACK, Some("wlan0")), walk)
            && |walk| > 0 && !LeadsTo(QUIET, c, VPN, walk[0].table)
  {
    hide IsRun, IsWalk, Consistent, LeadsTo, Boot;
    states := SetupRuns();
    QuietIsValid();
    RunsStayConsistent(QUIET, states, SetupCommands(), 4);
    var w := states[4];
    var c := w.ctl;
    var m := Process(CONFIG, NO_MARK, SYSTEM_SERVER, SelectNetwork(VPN), c, c, c, c).mark;
    var p := Packet(m, SYSTEM_SERVER, LOOPBACK, Some("wlan0"));
    walk := WalkExists(w.kernel.v4, p);
    assert Carries(c, WIFI, "wlan0", SYSTEM_SERVER);
    AccessImpliesRouting(QUIET, CONFIG, w, SYSTEM_SERVER, VPN, NO_MARK, Some("wlan0"), walk, c, c, c, c);
  }

  // ----- Marks that go wrong -----

  const APP: nat := 10055

  /** A secure VPN for the application. */
  function VpnCommands(): (r: seq<Command>) {
    [CreateVirtualNetwork(VPN, true, true), AddUsersToNetwork(VPN, [Range(APP, APP)])]
  }

  /** Users of a VPN without interfaces change no rule. */
  lemma BareUsers(w: World, netId: nat, ranges: seq<Range>)
    requires netId in w.ctl.networks && w.ctl.networks[netId] == Virtual([], true, true, [])
    ensures ChangeUsersOf(QUIET, w, netId, ranges, true) ==
            Outcome(w.(ctl := Updated(w.ctl, netId, Virtual([], true, true, ranges))), 0)
  {
  }

  lemma VpnHistory() returns (states: seq<World>)
    ensures IsHistory(QUIET, states, VpnCommands()) && |states| == 3
    ensures states[0].ctl == InitialController()
    ensures states[1].ctl.networks == map[LOCAL_NET_ID := Local([]), VPN := Virtual([], true, true, [])]
    ensures states[2].ctl.networks == map[LOCAL_NET_ID := Local([]), VPN := Virtual([], true, true, [Range(APP, APP)])]
    ensures states[2].ctl.users == map[]
  {
    hide Boot, Safe;
    var w0 := Start();
    StartIsSafe(w0);
    FirstVpn(w0, VPN, true);
    var w1 := Step(QUIET, w0, VpnCommands()[0]).world;
    BareUsers(w1, VPN, [Range(APP, APP)]);
    hide ChangeUsersOf, CreateVirtual;
    var w2 := Step(QUIET, w1, VpnCommands()[1]).world;
    states := [w0, w1, w2];
  }

  lemma AppIsInside()
    ensures HasUid([Range(APP, APP)], APP)
  {
    assert !Less(Range(APP, APP), Range(APP, APP));
  }

  lemma StartIsSafe(w: World)
    requires Consistent(QUIET, w)
    ensures Safe(QUIET, w)
  {
  }

  /** The system server selects the network of an application under a secure VPN, on an unmarked socket. That is
      harmful, no id was used twice, and a later ON_CONNECT leaves the secure VPN's id on the socket. */
  lemma SelectForUserHarms() returns (states: seq<World>, events: seq<Event>, connect: Event)
    ensures IsHistory(QUIET, states, VpnCommands()) && NoReuse(states) && InOrder(states, events) && |events| == 1
    ensures !HarmlessAt(CONFIG, states, events, 0) && !SaneAfter(CONFIG, states, events, 1)
    ensures connect.cmd.OnConnect?
            && LastTime(events) <= connect.t0 <= connect.t1 <= connect.t2 <= connect.t3 < |states|
    ensures !NeverSecure(states, connect.t3,
                         Handle(CONFIG, states, MarkAfter(CONFIG, states, events), connect).mark.netId)
  {
    hide IsHistory, VpnForUser, Step, SaneAfter;
    states := VpnHistory();
    var c := states[2].ctl;
    events := [Event(SelectForUser(APP), SYSTEM_SERVER, 2, 2, 2, 2)];
    connect := Event(OnConnect, SYSTEM_SERVER, 2, 2, 2, 2);
    AppIsInside();
    assert VPN < NET_ID_BOUND && HasUid(c.networks[VPN].ranges, APP);
    assert VpnForUser(c, APP) == Some(VPN);
    assert events[..0] == [] && events[..1] == events;
    FreshMarkSane(CONFIG, states, events);
    NextIsSane(QUIET, CONFIG, states, VpnCommands(), events, 0);
  }

  /** The default network goes, and a VPN takes its id. */
  function ReuseCommands(): (r: seq<Command>) {
    [ CreatePhysicalNetwork(WIFI, PERMISSION_NONE), SetDefaultNetwork(WIFI), SetDefaultNetwork(NETID_UNSET),
      DestroyNetwork(WIFI), CreateVirtualNetwork(WIFI, true, true) ]
  }

  /** A network without interfaces becomes the default where there was none, or ceases to be it. */
  lemma BareDefault(w: World, netId: nat, add: bool)
    requires netId in w.ctl.networks && netId != NETID_UNSET
    requires w.ctl.networks[netId] == Physical([], PERMISSION_NONE, !add)
    requires w.ctl.defaultNetId == if add then NETID_UNSET else netId
    ensures SetDefault(QUIET, w, if add then netId else NETID_UNSET) ==
            Outcome(w.(ctl := Updated(w.ctl, netId, Physical([], PERMISSION_NONE, add)).(
                                defaultNetId := if add then netId else NETID_UNSET)), 0)
  {
    hide VpnsBelow;
  }

  lemma BareDestroyed(w: World, netId: nat)
    requires netId in w.ctl.networks && netId != LOCAL_NET_ID
             && w.ctl.networks[netId] == Physical([], PERMISSION_NONE, false)
    requires w.ctl.defaultNetId != netId
    ensures Destroy(QUIET, w, netId) == Outcome(w.(ctl := Erased(w.ctl, netId)), 0)
  {
  }

  lemma DefaultComes() returns (w0: World, w1: World, w2: World)
    ensures Safe(QUIET, w0) && w0.ctl == InitialController()
    ensures Goes(QUIET, w0, ReuseCommands()[0], w1) && Goes(QUIET, w1, ReuseCommands()[1], w2)
    ensures w2.ctl.networks == map[LOCAL_NET_ID := Local([]), WIFI := Physical([], PERMISSION_NONE, true)]
    ensures w2.ctl.defaultNetId == WIFI && w2.ctl.users == map[]
  {
    hide Boot, Safe, SetDefault;
    w0 := Start();
    StartIsSafe(w0);
    w1 := Step(QUIET, w0, ReuseCommands()[0]).world;
    BareDefault(w1, WIFI, true);
    w2 := Step(QUIET, w1, ReuseCommands()[1]).world;
  }

  lemma VpnFollows(w2: World) returns (w3: World, w4: World, w5: World)
    requires w2.ctl.networks == map[LOCAL_NET_ID := Local([]), WIFI := Physical([], PERMISSION_NONE, true)]
    requires w2.ctl.defaultNetId == WIFI
    ensures Goes(QUIET, w2, ReuseCommands()[2], w3) && Goes(QUIET, w3, ReuseCommands()[3], w4)
    ensures Goes(QUIET, w4, ReuseCommands()[4], w5)
    ensures w4.ctl.networks == map[LOCAL_NET_ID := Local([])]
    ensures w5.ctl.networks == map[LOCAL_NET_ID := Local([]), WIFI := Virtual([], true, true, [])]
  {
    hide SetDefault, Destroy, CreateVirtual;
    BareDefault(w2, WIFI, false);
    w3 := Step(QUIET, w2, ReuseCommands()[2]).world;
    BareDestroyed(w3, WIFI);
    w4 := Step(QUIET, w3, ReuseCommands()[3]).world;
    FirstVpn(w4, WIFI, true);
    w5 := Step(QUIET, w4, ReuseCommands()[4]).world;
  }

  lemma ReuseHistory() returns (states: seq<World>)
    ensures IsHistory(QUIET, states, ReuseCommands()) && |states| == 6
    ensures states[2].ctl.networks == map[LOCAL_NET_ID := Local([]), WIFI := Physical([], PERMISSION_NONE, true)]
    ensures states[2].ctl.defaultNetId == WIFI && states[2].ctl.users == map[]
    ensures states[4].ctl.networks == map[LOCAL_NET_ID := Local([])]
    ensures states[5].ctl.networks == map[LOCAL_NET_ID := Local([]), WIFI := Virtual([], true, true, [])]
  {
    hide Safe, Goes;
    var w0, w1, w2 := DefaultComes();
    var w3, w4, w5 := VpnFollows(w2);
    states := [w0, w1, w2, w3, w4, w5];
  }

  /** A socket of the system server connects on the default network and is protected. Both commands are harmless, yet
      once a secure VPN has the network's id the mark is not sane, and a later ON_CONNECT leaves that id on it. */
  lemma ReuseHarms() returns (states: seq<World>, events: seq<Event>, connect: Event)
    ensures IsHistory(QUIET, states, ReuseCommands()) && !NoReuse(states) && InOrder(states, events) && |events| == 2
    ensures HarmlessAt(CONFIG, states, events, 0) && HarmlessAt(CONFIG, states, events, 1)
    ensures !SaneAfter(CONFIG, states, events, 2)
    ensures connect.cmd.OnConnect?
            && LastTime(events) <= connect.t0 <= connect.t1 <= connect.t2 <= connect.t3 < |states|
    ensures !NeverSecure(states, connect.t3,
                         Handle(CONFIG, states, MarkAfter(CONFIG, states, events), connect).mark.netId)
  {
    hide IsHistory, VpnForUser, Step;
    states := ReuseHistory();
    events := [Event(OnConnect, SYSTEM_SERVER, 2, 2, 2, 2), Event(ProtectFromVpn, SYSTEM_SERVER, 2, 2, 2, 2)];
    connect := Event(OnConnect, SYSTEM_SERVER, 5, 5, 5, 5);
    assert events[..2] == events && events[..1] == [events[0]] && events[..1][..0] == [];
    assert WIFI in states[2].ctl.networks && WIFI !in states[4].ctl.networks && WIFI in states[5].ctl.networks;
    assert VpnForUser(states[2].ctl, SYSTEM_SERVER).None?;
    assert MarkAfter(CONFIG, states, []) == NO_MARK;
    assert MarkAfter(CONFIG, states, events[..1]) == Fwmark(WIFI, false, false, PERMISSION_SYSTEM);
    var m := MarkAfter(CONFIG, states, events);
    assert m == Fwmark(WIFI, false, true, PERMISSION_SYSTEM);
    assert IsVirtual(states[5].ctl, m.netId);
  }

  // ----- Users taken off a VPN that are not there -----

  lemma SetupFits()
    ensures NamesFit(SetupController()) && Quiet(QUIET)
  {
    QuietIsValid();
  }

  /** A VPN with an interface loses the rules of a user it keeps on its list, because another one was to go with it. */
  lemma OverRemovalHarms() returns (w: World, c: Command)
    ensures Consistent(QUIET, w) && CommandFits(c) && c.RemoveUsersFromNetwork? && Breaks(w, c)
    ensures Step(QUIET, w, c).ret != 0 && !Consistent(QUIET, Step(QUIET, w, c).world)
    ensures Step(QUIET, w, c).world.ctl == w.ctl
  {
    hide IsRun, Consistent, Boot, Step, NamesFit, Quiet;
    var states := SetupRuns();
    QuietIsValid();
    SetupFits();
    RunsStayConsistent(QUIET, states, SetupCommands(), 4);
    var add := AddUsersToNetwork(VPN, [Range(APP, APP)]);
    AllowedSucceeds(QUIET, states[4], add);
    StepConsistent(QUIET, states[4], add);
    NamesKeepFitting(QUIET, states[4], add);
    w := Step(QUIET, states[4], add).world;
    c := RemoveUsersFromNetwork(VPN, [Range(APP, APP), Range(APP + 1, APP + 1)]);
    OneUser(states[4], w);
    if Step(QUIET, w, c).ret == 0 {
      SuccessWasAllowed(QUIET, w, c);
    }
    RefusalsKeepConsistent(QUIET, w, c);
    OverRemoval(QUIET, w, c);
  }

  lemma OneUser(w: World, w': World)
    requires w.ctl == SetupController() && Step(QUIET, w, AddUsersToNetwork(VPN, [Range(APP, APP)])) == Outcome(w', 0)
    ensures var c := RemoveUsersFromNetwork(VPN, [Range(APP, APP), Range(APP + 1, APP + 1)]);
            Breaks(w', c) && CommandFits(c)
  {
    hide Exec, EachInterface;
    var ranges := [Range(APP, APP), Range(APP + 1, APP + 1)];
    assert w'.ctl.networks[VPN].ranges == [Range(APP, APP)];
    assert Range(APP + 1, APP + 1) == ranges[1] && ranges[1] in multiset(ranges);
    assert Range(APP + 1, APP + 1) !in multiset([Range(APP, APP)]);
  }
}
