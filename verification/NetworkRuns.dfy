/** Lists of commands carried out on a NetworkController: the runs of the theorems are those of the objects. */
module NetworkRuns {
  import opened Kernels
  import opened Rules
  import opened Controllers
  import opened Safety
  import opened Sync
  import opened SyncRuns
  import opened RouteControllers
  import opened NetworkControllers

  /** The daemon's start: the tables, then the networks. */
  method StartUp(env: Env, v4: multiset<Item>, v6: multiset<Item>) returns (control: NetworkController, ret: int)
    requires ValidEnv(env)
    ensures fresh(control) && fresh(control.routes) && fresh(control.Objects())
    ensures control.Valid() && control.routes.env == env
    ensures Outcome(control.State(), ret) == Boot(env, v4, v6)
  {
    hide Exec, StartRules;
    var routes := new RouteController(env, v4, v6);
    ret := routes.Init();
    ghost var k := routes.State();
    control := new NetworkController(routes);
    assert routes.State() == k;
  }

  /** RouteController's part in tethering, recorded as the rules come and go. */
  method SwitchTethering(control: NetworkController, input: string, output: string, add: bool) returns (ret: int)
    requires control.Valid()
    modifies control, control.routes
    ensures control.Valid() && control.Objects() == old(control.Objects())
    ensures Outcome(control.State(), ret) == Tether(control.routes.env, old(control.State()), input, output, add)
  {
    hide ExecOne, Exec;
    ghost var w := control.State();
    ghost var item := IpRule(TetheringRule(input, TableOf(control.routes.env, output)));
    LookedUpIsExec(control.routes.env, w.kernel, output, add, item);
    ret := control.routes.ModifyTetheredNetwork(add, input, output);
    if ret == 0 {
      control.tethers := if add then control.tethers + multiset{item} else control.tethers - multiset{item};
    }
    assert control.Values() == w.ctl.networks;
  }

  /** Every command does on the objects what `Step` says. */
  method Obey(control: NetworkController, c: Command) returns (ret: int)
    requires control.Valid()
    modifies control, control.routes, control.Objects()
    ensures control.Valid() && fresh(control.Objects() - old(control.Objects()))
    ensures Outcome(control.State(), ret) == Step(control.routes.env, old(control.State()), c)
  {
    hide Exec, SetDefault, CreatePhysical, CreateVirtual, Destroy, AddInterface, RemoveInterface, WithPermission,
         SetNetworkPermissions, ChangeUsersOf, Tether;
    match c {
      case SetDefaultNetwork(netId) => ret := control.SetDefaultNetwork(netId);
      case CreatePhysicalNetwork(netId, permission) => ret := control.CreatePhysicalNetwork(netId, permission);
      case CreateVirtualNetwork(netId, hasDns, secure) => ret := control.CreateVirtualNetwork(netId, hasDns, secure);
      case DestroyNetwork(netId) => ret := control.DestroyNetwork(netId);
      case AddInterfaceToNetwork(netId, interface) => ret := control.AddInterfaceToNetwork(netId, interface);
      case RemoveInterfaceFromNetwork(netId, interface) => ret := control.RemoveInterfaceFromNetwork(netId, interface);
      case SetPermissionForUsers(permission, uids) =>
        control.SetPermissionForUsers(permission, uids);
        ret := 0;
      case SetPermissionForNetworks(permission, netIds) => ret := control.SetPermissionForNetworks(permission, netIds);
      case AddUsersToNetwork(netId, ranges) => ret := control.AddUsersToNetwork(netId, ranges);
      case RemoveUsersFromNetwork(netId, ranges) => ret := control.RemoveUsersFromNetwork(netId, ranges);
      case AllowProtect(uids) =>
        control.AllowProtect(uids);
        ret := 0;
      case DenyProtect(uids) =>
        control.DenyProtect(uids);
        ret := 0;
      case EnableTethering(input, output) => ret := SwitchTethering(control, input, output, true);
      case DisableTethering(input, output) => ret := SwitchTethering(control, input, output, false);
    }
  }

  /** The states the objects pass through are a history, and a run if every command returns 0; then the kernel ends up
      in step. */
  method ObeyAll(control: NetworkController, commands: seq<Command>) returns (ok: bool, ghost states: seq<World>)
    requires control.Valid() && Consistent(control.routes.env, control.State())
    requires forall c :: c in commands ==> ValidCommand(c)
    modifies control, control.routes, control.Objects()
    ensures control.Valid()
    ensures IsHistory(control.routes.env, states, commands)
    ensures states[0] == old(control.State()) && states[|commands|] == control.State()
    ensures ok ==> IsRun(control.routes.env, states, commands) && Consistent(control.routes.env, control.State())
  {
    hide Step, Consistent, Safe;
    ghost var env := control.routes.env;
    ok := true;
    states := [control.State()];
    StartsHistory(env, control.State());
    assert commands[..0] == [];
    for i := 0 to |commands|
      invariant control.Valid() && fresh(control.Objects() - old(control.Objects()))
      invariant IsHistory(env, states, commands[..i]) && states[0] == old(control.State())
                && states[i] == control.State()
      invariant ok ==> IsRun(env, states, commands[..i])
    {
      ghost var w := control.State();
      var ret := Obey(control, commands[i]);
      HistoryGrows(env, states, commands, i, w, ret, control.State());
      ok := ok && ret == 0;
      states := states + [control.State()];
    }
    assert commands[..|commands|] == commands;
    if ok {
      RunsStayConsistent(env, states, commands, |commands|);
    }
  }

  lemma StartsHistory(env: Env, w: World)
    requires Consistent(env, w)
    ensures IsHistory(env, [w], []) && IsRun(env, [w], [])
  {
  }

  lemma HistoryGrows(env: Env, states: seq<World>, commands: seq<Command>, i: nat, w: World, ret: int, w': World)
    requires i < |commands| && ValidCommand(commands[i]) && Step(env, w, commands[i]) == Outcome(w', ret)
    requires IsHistory(env, states, commands[..i]) && states[i] == w
    ensures IsHistory(env, states + [w'], commands[..i + 1])
    ensures ret == 0 && IsRun(env, states, commands[..i]) ==> IsRun(env, states + [w'], commands[..i + 1])
  {
    hide Step, Consistent, Safe;
    assert commands[..i + 1][..i] == commands[..i];
  }
}
