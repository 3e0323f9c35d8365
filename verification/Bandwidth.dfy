/**
 * BandwidthController: quotas, alerts and the penalty and happy boxes. The
 * controller sends every command to the IPv4 and the IPv6 tables alike, so one
 * table stands for both.
 */
module Bandwidth {
  import opened Wrappers
  import opened Iptables
  import opened Ledgers
  import opened BandwidthBooks

  function Values(uids: seq<Option<int>>): (r: seq<int>)
    requires None !in uids
    ensures |r| == |uids|
  {
    seq(|uids|, i requires 0 <= i < |uids| => assert uids[i] in uids; uids[i].value)
  }

  class BandwidthController {
    var chains: Table
    var sharedQuotaIfaces: seq<string>
    var sharedQuotaBytes: int
    var sharedAlertBytes: int
    var globalAlertBytes: int
    var globalAlertTetherCount: int
    var quotaIfaces: seq<QuotaInfo>
    var naughtyAppUids: seq<int>
    var niceAppUids: seq<int>
    /** The value last written to each /proc/net/xt_quota counter. */
    var written: map<string, int>
    ghost var jumps: seq<Costly>
    ghost var happy: bool

    ghost function State(): Books
      reads this
    {
      Books(sharedQuotaIfaces, quotaIfaces, sharedQuotaBytes, sharedAlertBytes, globalAlertBytes,
            globalAlertTetherCount, naughtyAppUids, niceAppUids, jumps, happy)
    }

    ghost predicate Tracked()
      reads this
    {
      Mirrors(chains, State())
    }

    constructor (chains: Table)
      ensures this.chains == chains && written == map[]
    {
      written := map[];
      this.chains := chains;
      sharedQuotaIfaces, quotaIfaces, naughtyAppUids, niceAppUids := [], [], [], [];
      jumps, happy := [], false;
    }

    // ---- commands, one chain each

    method RunIpxtablesCmd(cmd: Command) returns (res: int)
      modifies this`chains
      ensures res == if Refused(old(chains), cmd) then 1 else 0
      ensures chains == Apply(old(chains), cmd)
    {
      res := if Refused(chains, cmd) then 1 else 0;
      chains := Apply(chains, cmd);
    }

    // ---- the boxes

    method EnableHappyBox() returns (ret: int)
      modifies this
      ensures old(Tracked()) ==> ret == 0 && Tracked() && State() == old(State()).(nice := [], happy := true)
    {
      ghost var t0 := chains;
      ghost var books := State();
      hide Apply, Refused, Mirrors;
      var res := RunIpxtablesCmd(NewChain(BwHappyBox));
      ghost var t1 := chains;
      niceAppUids := [];
      ret := RunIpxtablesCmd(Flush(BwHappyBox));
      ghost var t2 := chains;
      res := RunIpxtablesCmd(Delete(BwPenaltyBox, TO_HAPPY));
      ghost var t3 := chains;
      res := RunIpxtablesCmd(Append(BwPenaltyBox, TO_HAPPY));
      ghost var t4 := chains;
      ret := if ret != 0 || res != 0 then 1 else 0;
      res := RunIpxtablesCmd(Delete(BwHappyBox, REJECT_ALL));
      ghost var t5 := chains;
      res := RunIpxtablesCmd(Append(BwHappyBox, REJECT_ALL));
      ret := if ret != 0 || res != 0 then 1 else 0;
      happy := true;
      if Mirrors(t0, books) {
        HappyBoxOn(t0, t1, t2, t3, t4, t5, chains, books);
      }
    }

    method DisableHappyBox() returns (ret: int)
      modifies this
      ensures ret == 0
      ensures old(Tracked()) ==> Tracked() && State() == old(State()).(nice := [], happy := false)
    {
      ghost var t0 := chains;
      ghost var books := State();
      hide Apply, Refused, Mirrors;
      var res := RunIpxtablesCmd(Delete(BwPenaltyBox, TO_HAPPY));
      ghost var t1 := chains;
      niceAppUids := [];
      res := RunIpxtablesCmd(Flush(BwHappyBox));
      ghost var t2 := chains;
      res := RunIpxtablesCmd(DeleteChain(BwHappyBox));
      happy := false;
      if Mirrors(t0, books) {
        HappyBoxOff(t0, t1, t2, chains, books);
      }
      return 0;
    }

    /**
     * Adds or removes applications, naughty or nice. Uids that do not parse
     * are `None`; one such uid and the command does nothing. A nice
     * application is listed even when there is no happy box to put it in.
     */
    method ManipulateSpecialApps(naughty: bool, add: bool, appUids: seq<Option<int>>) returns (ret: int)
      modifies this`chains, this`naughtyAppUids, this`niceAppUids
      ensures old(Tracked()) ==> Tracked()
      ensures ret == 0 || ret == -1
      ensures None in appUids ==> ret == -1 && State() == old(State()) && chains == old(chains)
      ensures old(Tracked()) && None !in appUids && BoxOf(naughty) in old(chains) ==>
                var r := ListingAll(ListOf(old(State()), naughty), add, Values(appUids));
                State() == WithList(old(State()), naughty, r.list) && (ret == 0 <==> r.complete)
      ensures old(Tracked()) && None !in appUids && BoxOf(naughty) !in old(chains) && appUids != [] ==>
                ret == -1 && chains == old(chains)
    {
      for i := 0 to |appUids|
        invariant None !in appUids[..i]
      {
        if appUids[i].None? {
          return -1;
        }
      }
      assert appUids[..|appUids|] == appUids;
      hide *;
      ret := ListApps(naughty, add, Values(appUids));
    }

    /** The applications in turn, up to the first that fails. */
    method ListApps(naughty: bool, add: bool, uids: seq<int>) returns (ret: int)
      modifies this`chains, this`naughtyAppUids, this`niceAppUids
      ensures old(Tracked()) ==> Tracked()
      ensures ret == 0 || ret == -1
      ensures old(Tracked()) && BoxOf(naughty) in old(chains) ==>
                var r := ListingAll(ListOf(old(State()), naughty), add, uids);
                State() == WithList(old(State()), naughty, r.list) && (ret == 0 <==> r.complete)
      ensures old(Tracked()) && BoxOf(naughty) !in old(chains) && uids != [] ==> ret == -1 && chains == old(chains)
    {
      hide Mirrors, Listing, BoxOf;
      ghost var tracked := Mirrors(chains, State());
      ghost var boxed := BoxOf(naughty) in chains;
      ghost var books := State();
      for i := 0 to |uids|
        invariant tracked ==> Mirrors(chains, State())
        invariant tracked && boxed ==> BoxOf(naughty) in chains
        invariant tracked && !boxed ==> i == 0 && chains == old(chains)
        invariant State() == WithList(books, naughty, ListOf(State(), naughty))
        invariant tracked && boxed ==>
                    ListingAll(ListOf(State(), naughty), add, uids[i..]) ==
                      ListingAll(ListOf(books, naughty), add, uids)
      {
        assert uids[i..][0] == uids[i] && uids[i..][1..] == uids[i + 1..];
        ret := ListApp(naughty, add, uids[i]);
        if ret != 0 {
          return -1;
        }
      }
      return 0;
    }

    /** One application: the list first, then its rule. */
    method ListApp(naughty: bool, add: bool, uid: int) returns (ret: int)
      modifies this`chains, this`naughtyAppUids, this`niceAppUids
      ensures ret == 0 || ret == -1
      ensures var next := Listing(ListOf(old(State()), naughty), add, uid);
              State() == if next.None? then old(State()) else WithList(old(State()), naughty, next.value)
      ensures old(Tracked()) ==>
                && Tracked()
                && (BoxOf(naughty) in chains <==> BoxOf(naughty) in old(chains))
                && (BoxOf(naughty) !in chains ==> chains == old(chains))
                && (ret == 0 <==> BoxOf(naughty) in chains && Listing(ListOf(old(State()), naughty), add, uid).Some?)
    {
      hide Apply, Refused, Mirrors, Listing, AppCommand, BoxOf;
      ghost var t := chains;
      ghost var books := State();
      var next := Listing(if naughty then naughtyAppUids else niceAppUids, add, uid);
      if next.None? {
        return -1;
      }
      if naughty {
        naughtyAppUids := next.value;
      } else {
        niceAppUids := next.value;
      }
      var res := RunIpxtablesCmd(AppCommand(naughty, add, uid));
      if Mirrors(t, books) {
        AppListed(t, books, naughty, add, uid, chains, next.value);
      }
      if res != 0 {
        ghost var t' := chains;
        res := RunIpxtablesCmd(AppCommand(naughty, false, uid));
        NoBoxNoEdit(t, naughty, add, uid);
        NoBoxNoEdit(t', naughty, false, uid);
        return -1;
      }
      return 0;
    }

    // ---- alerts

    /** Rewrites the counter of an existing quota, found by name. */
    method UpdateQuota(name: string, bytes: int) returns (ret: int)
      modifies this`written
      ensures ret == if IfaceName(name) && QuotaExists(chains, name) then 0 else -1
      ensures written == if ret == 0 then old(written)[name := bytes] else old(written)
    {
      var ok := IsIfaceName(name);
      if !ok {
        return -1;
      }
      if !QuotaExists(chains, name) {
        return -1;
      }
      written := written[name := bytes];
      return 0;
    }

    predicate Wrote(name: string, bytes: int)
      reads this`written
    {
      name in written && written[name] == bytes
    }

    method SetGlobalAlert(bytes: int) returns (ret: int)
      modifies this
      ensures bytes == 0 ==> ret == -1 && State() == old(State()) && chains == old(chains)
      ensures old(Tracked()) && bytes != 0 ==> ret == 0 && Tracked() && State() == old(State()).(globalAlert := bytes)
      ensures bytes != 0 && old(globalAlertBytes) != 0 && ret == 0 ==> Wrote(GLOBAL_ALERT, bytes)
    {
      hide Apply, Refused, Mirrors, IfaceName, QuotaExists;
      if bytes == 0 {
        return -1;
      }
      ghost var t0 := chains;
      ghost var books := State();
      if globalAlertBytes != 0 {
        ret := UpdateQuota(GLOBAL_ALERT, bytes);
        NamesKnown();
        if Mirrors(t0, books) {
          QuotasExist(t0, books);
          AlertReset(t0, books, bytes);
        }
      } else {
        ret := RunIpxtablesCmd(Insert(BwInput, 1, ALERT));
        ghost var t1 := chains;
        var res := RunIpxtablesCmd(Insert(BwOutput, 1, ALERT));
        ret := if ret != 0 || res != 0 then 1 else 0;
        ghost var t2 := chains;
        if globalAlertTetherCount != 0 {
          res := RunIpxtablesCmd(Insert(BwForward, 1, ALERT));
          ret := if ret != 0 || res != 0 then 1 else 0;
        }
        if Mirrors(t0, books) {
          GlobalAlertOn(t0, t1, t2, chains, books, bytes);
        }
      }
      globalAlertBytes := bytes;
    }

    method RemoveGlobalAlert() returns (ret: int)
      modifies this
      ensures old(globalAlertBytes) == 0 ==> ret == -1 && State() == old(State()) && chains == old(chains)
      ensures old(Tracked()) && old(globalAlertBytes) != 0 ==>
                ret == 0 && Tracked() && State() == old(State()).(globalAlert := 0)
    {
      hide Apply, Refused, Mirrors;
      if globalAlertBytes == 0 {
        return -1;
      }
      ghost var t0 := chains;
      ghost var books := State();
      ret := RunIpxtablesCmd(Delete(BwInput, ALERT));
      ghost var t1 := chains;
      var res := RunIpxtablesCmd(Delete(BwOutput, ALERT));
      ret := if ret != 0 || res != 0 then 1 else 0;
      ghost var t2 := chains;
      if globalAlertTetherCount != 0 {
        res := RunIpxtablesCmd(Delete(BwForward, ALERT));
        ret := if ret != 0 || res != 0 then 1 else 0;
      }
      if Mirrors(t0, books) {
        GlobalAlertOff(t0, t1, t2, chains, books);
      }
      globalAlertBytes := 0;
    }

    method SetGlobalAlertInForwardChain() returns (ret: int)
      modifies this
      ensures old(Tracked()) ==>
                ret == 0 && Tracked() && State() == old(State()).(tetherCount := old(globalAlertTetherCount) + 1)
    {
      hide Apply, Refused, Mirrors;
      ghost var t := chains;
      ghost var books := State();
      ghost var tracked := Mirrors(t, books);
      if tracked {
        TethersCounted(t, books);
      }
      globalAlertTetherCount := globalAlertTetherCount + 1;
      ret := 0;
      if globalAlertBytes != 0 && globalAlertTetherCount == 1 {
        ret := RunIpxtablesCmd(Insert(BwForward, 1, ALERT));
      }
      if tracked {
        TetherCounted(t, books, globalAlertTetherCount, chains);
      }
    }

    method RemoveGlobalAlertInForwardChain() returns (ret: int)
      modifies this
      ensures old(globalAlertTetherCount) == 0 ==> ret == -1 && State() == old(State()) && chains == old(chains)
      ensures old(Tracked()) && old(globalAlertTetherCount) != 0 ==>
                ret == 0 && Tracked() && State() == old(State()).(tetherCount := old(globalAlertTetherCount) - 1)
    {
      hide Apply, Refused, Mirrors;
      if globalAlertTetherCount == 0 {
        return -1;
      }
      ghost var t := chains;
      ghost var books := State();
      ghost var tracked := Mirrors(t, books);
      if tracked {
        TethersCounted(t, books);
      }
      globalAlertTetherCount := globalAlertTetherCount - 1;
      ret := 0;
      if globalAlertBytes != 0 && globalAlertTetherCount < 1 {
        ret := RunIpxtablesCmd(Delete(BwForward, ALERT));
      }
      if tracked {
        TetherCounted(t, books, globalAlertTetherCount, chains);
      }
    }

    /**
     * Sets the alert of a quota whose recorded alert is `alert`; returns the
     * new record. An alert that is set gets its old value written again.
     */
    method SetCostlyAlert(cost: string, bytes: int, alert: int) returns (ret: int, recorded: int)
      modifies this`chains, this`written
      ensures IfaceName(cost) && bytes != 0 && alert != 0 && ret == 0 ==> Wrote(AlertName(cost), alert)
      ensures !IfaceName(cost) || bytes == 0 ==> ret == -1 && recorded == alert && chains == old(chains)
      ensures IfaceName(cost) && bytes != 0 ==>
                && recorded == bytes
                && (alert != 0 ==>
                      && chains == old(chains)
                      && (ret == 0 <==> IfaceName(AlertName(cost)) && QuotaExists(chains, AlertName(cost))))
                && (alert == 0 ==> chains == Apply(old(chains), Append(BwCostly(cost), AlertRule(cost)))
                                   && (ret == 0 <==> !Refused(old(chains), Append(BwCostly(cost), AlertRule(cost)))))
    {
      hide Apply, Refused, AlertName, AlertRule;
      var ok := IsIfaceName(cost);
      if !ok {
        return -1, alert;
      }
      if bytes == 0 {
        return -1, alert;
      }
      if alert != 0 {
        ret := UpdateQuota(AlertName(cost), alert);
      } else {
        ret := RunIpxtablesCmd(Append(BwCostly(cost), AlertRule(cost)));
      }
      recorded := bytes;
    }

    method RemoveCostlyAlert(cost: string, alert: int) returns (ret: int, recorded: int)
      modifies this`chains
      ensures !IfaceName(cost) || alert == 0 ==> ret == -1 && recorded == alert && chains == old(chains)
      ensures IfaceName(cost) && alert != 0 ==>
                && recorded == 0
                && chains == Apply(old(chains), Delete(BwCostly(cost), AlertRule(cost)))
                && (ret == 0 <==> !Refused(old(chains), Delete(BwCostly(cost), AlertRule(cost))))
    {
      hide Apply, Refused, AlertName, AlertRule;
      var ok := IsIfaceName(cost);
      if !ok {
        return -1, alert;
      }
      if alert == 0 {
        return -1, alert;
      }
      ret := RunIpxtablesCmd(Delete(BwCostly(cost), AlertRule(cost)));
      recorded := 0;
    }

    method SetSharedAlert(bytes: int) returns (ret: int)
      modifies this
      ensures old(sharedQuotaBytes) == 0 || bytes == 0 ==> ret == -1 && State() == old(State()) && chains == old(chains)
      ensures old(Tracked()) && old(sharedQuotaBytes) != 0 && bytes != 0 ==>
                ret == 0 && Tracked() && State() == old(State()).(sharedAlert := bytes)
      ensures old(Tracked()) && old(sharedQuotaBytes) != 0 && bytes != 0 && old(sharedAlertBytes) != 0 ==>
                Wrote(AlertName(SHARED), old(sharedAlertBytes))
    {
      hide Apply, Refused, Mirrors, AlertName, AlertRule, IfaceName, QuotaExists;
      if sharedQuotaBytes == 0 {
        return -1;
      }
      if bytes == 0 {
        return -1;
      }
      ghost var t := chains;
      ghost var books := State();
      NamesKnown();
      ret, sharedAlertBytes := SetCostlyAlert(SHARED, bytes, sharedAlertBytes);
      if Mirrors(t, books) {
        QuotasExist(t, books);
        SharedAlertEdited(t, books, bytes, chains);
      }
    }

    method RemoveSharedAlert() returns (ret: int)
      modifies this`chains, this`sharedAlertBytes
      ensures old(sharedAlertBytes) == 0 ==> ret == -1 && State() == old(State()) && chains == old(chains)
      ensures old(sharedAlertBytes) != 0 ==>
                && sharedAlertBytes == 0
                && chains == Apply(old(chains), Delete(BwCostly(SHARED), AlertRule(SHARED)))
      ensures old(Tracked()) && old(sharedAlertBytes) != 0 ==>
                ret == 0 && Tracked() && State() == old(State()).(sharedAlert := 0)
    {
      hide Apply, Refused, Mirrors, AlertName, AlertRule, IfaceName, QuotaExists;
      ghost var t := chains;
      ghost var books := State();
      NamesKnown();
      ret, sharedAlertBytes := RemoveCostlyAlert(SHARED, sharedAlertBytes);
      if Mirrors(t, books) && books.sharedAlert != 0 {
        SharedAlertEdited(t, books, 0, chains);
      }
    }

    /** The position of an interface among those with a quota of their own. */
    method FindQuota(iface: string) returns (k: nat)
      ensures k <= |quotaIfaces|
      ensures k < |quotaIfaces| ==> quotaIfaces[k].iface == iface
      ensures k == |quotaIfaces| <==> iface !in Names(quotaIfaces)
    {
      k := 0;
      while k < |quotaIfaces|
        invariant 0 <= k <= |quotaIfaces|
        invariant forall i :: 0 <= i < k ==> quotaIfaces[i].iface != iface
      {
        if quotaIfaces[k].iface == iface {
          assert Names(quotaIfaces)[k] in Names(quotaIfaces);
          return;
        }
        k := k + 1;
      }
    }

    /**
     * Setting an alert again writes the value it had to its counter, which
     * fails for an interface whose name leaves no room for the suffix; only
     * the record gets the new value.
     */
    method SetInterfaceAlert(iface: string, bytes: int) returns (ret: int)
      modifies this
      ensures !IfaceName(iface) || bytes == 0 || iface !in Names(old(quotaIfaces)) ==>
                ret == -1 && State() == old(State()) && chains == old(chains)
      ensures old(Tracked()) && IfaceName(iface) && bytes != 0 && iface in Names(old(quotaIfaces)) ==>
                && Tracked()
                && exists k: nat :: k < |old(quotaIfaces)| && old(quotaIfaces)[k].iface == iface
                     && State() == WithAlert(old(State()), k, bytes)
                     && (ret == 0 <==> old(quotaIfaces)[k].alert == 0 || |iface| <= MAX_NAME - 5)
                     && (ret == 0 && old(quotaIfaces)[k].alert != 0 ==>
                           Wrote(AlertName(iface), old(quotaIfaces)[k].alert))
    {
      hide Apply, Refused, Mirrors, AlertName, AlertRule, IfaceName, QuotaExists, Names;
      var ok := IsIfaceName(iface);
      if !ok {
        return -1;
      }
      if bytes == 0 {
        return -1;
      }
      var k := FindQuota(iface);
      if k == |quotaIfaces| {
        return -1;
      }
      ghost var t := chains;
      ghost var books := State();
      AlertNameFits(iface);
      var recorded;
      ret, recorded := SetCostlyAlert(iface, bytes, quotaIfaces[k].alert);
      quotaIfaces := quotaIfaces[k := quotaIfaces[k].(alert := recorded)];
      if Mirrors(t, books) {
        QuotasExist(t, books);
        OwnAlertEdited(t, books, k, bytes, chains);
      }
    }

    method RemoveInterfaceAlert(iface: string) returns (ret: int)
      modifies this
      ensures !IfaceName(iface) || iface !in Names(old(quotaIfaces)) ==>
                ret == -1 && State() == old(State()) && chains == old(chains)
      ensures old(Tracked()) && IfaceName(iface) && iface in Names(old(quotaIfaces)) ==>
                && Tracked()
                && exists k: nat :: k < |old(quotaIfaces)| && old(quotaIfaces)[k].iface == iface
                     && State() == WithAlert(old(State()), k, 0)
                     && (ret == 0 <==> old(quotaIfaces)[k].alert != 0)
    {
      hide Apply, Refused, Mirrors, AlertName, AlertRule, IfaceName, QuotaExists, Names;
      var ok := IsIfaceName(iface);
      if !ok {
        return -1;
      }
      var k := FindQuota(iface);
      if k == |quotaIfaces| {
        return -1;
      }
      ghost var t := chains;
      ghost var books := State();
      var recorded;
      ret, recorded := RemoveCostlyAlert(iface, quotaIfaces[k].alert);
      quotaIfaces := quotaIfaces[k := quotaIfaces[k].(alert := recorded)];
      if Mirrors(t, books) {
        OwnAlertEdited(t, books, k, 0, chains);
      }
    }

    // ---- quotas

    /**
     * Leads both directions of the interface's traffic to its costly chain.
     * `CanPrepare` is when this works, in tables of any content.
     */
    method PrepCostlyIface(iface: string, shared: bool) returns (ret: int)
      modifies this`chains
      ensures var j := Costly(iface, if shared then SHARED else iface);
              var t := if shared then old(chains) else old(chains)[BwCostly(iface) := [TO_PENALTY]];
              old(LedgersHold(chains, State())) && BwPenaltyBox in old(chains) && BwCostly(SHARED) in old(chains) ==>
                ret == 0 && chains == Rejumped(t, State(), [j] + Without(jumps, j))
      ensures var j := Costly(iface, if shared then SHARED else iface);
              && (ret == 0 <==> CanPrepare(old(chains), globalAlertBytes != 0, j, shared))
              && SameExcept(Prepared(old(chains), j.cost, shared), chains, {BwInput, BwOutput})
    {
      ghost var t := chains;
      ghost var books := State();
      ret := 0;
      var cost := if shared then SHARED else iface;
      hide Apply, Refused, LedgersHold, Rejumped, JumpRule, InsertJump, DeleteJump, Without, SameExcept, CanPrepare;
      if !shared {
        var res1 := RunIpxtablesCmd(Flush(BwCostly(cost)));
        ghost var t1 := chains;
        var res2 := RunIpxtablesCmd(NewChain(BwCostly(cost)));
        ghost var t2 := chains;
        ret := if (res1 != 0) == (res2 != 0) then 1 else 0;
        var res := RunIpxtablesCmd(Append(BwCostly(cost), TO_PENALTY));
        ret := if ret != 0 || res != 0 then 1 else 0;
        ChainPrepared(t, t1, t2, chains, cost);
      }
      var j := Costly(iface, cost);
      ghost var t3 := chains;
      var res := RunIpxtablesCmd(DeleteJump(false, j));
      ghost var t4 := chains;
      res := RunIpxtablesCmd(PlaceJump(false, j));
      ret := if ret != 0 || res != 0 then 1 else 0;
      ghost var t5 := chains;
      res := RunIpxtablesCmd(DeleteJump(true, j));
      ghost var t6 := chains;
      res := RunIpxtablesCmd(PlaceJump(true, j));
      ret := if ret != 0 || res != 0 then 1 else 0;
      JumpsPlaced(t, t3, t4, t5, t6, chains, books, j, shared);
      if LedgersHold(t, books) && BwPenaltyBox in t && BwCostly(SHARED) in t {
        LedgersKept(t, t3, books, cost);
        JumpsPrepared(t3, t4, t5, t6, chains, books, j);
      }
    }

    /** The alert rule comes first, so a jump goes second when there is one. */
    function PlaceJump(out: bool, j: Costly): (cmd: Command)
      reads this
      ensures cmd == InsertJump(out, State(), j)
    {
      Insert(if out then BwOutput else BwInput, if globalAlertBytes != 0 then 2 else 1, JumpRule(out, j))
    }

    method CleanupCostlyIface(iface: string, shared: bool) returns (ret: int)
      modifies this`chains
      ensures var j := Costly(iface, if shared then SHARED else iface);
              old(LedgersHold(chains, State())) && j in jumps ==>
                var t := Rejumped(old(chains), State(), Without(jumps, j));
                var t' := Apply(t, Flush(BwCostly(iface)));
                && (shared ==> ret == 0 && chains == t)
                && (!shared ==> chains == Apply(t', DeleteChain(BwCostly(iface))))
                && (!shared ==>
                      (ret == 0 <==> !Refused(t, Flush(BwCostly(iface))) && !Refused(t', DeleteChain(BwCostly(iface)))))
      ensures shared ==> SameExcept(old(chains), chains, {BwInput, BwOutput})
    {
      hide Apply, Refused, LedgersHold, Rejumped, DeleteJump, Without, SameExcept;
      ghost var t := chains;
      ghost var books := State();
      var j := Costly(iface, if shared then SHARED else iface);
      ret := RunIpxtablesCmd(DeleteJump(false, j));
      ghost var t1 := chains;
      var res := RunIpxtablesCmd(DeleteJump(true, j));
      ret := if ret != 0 || res != 0 then 1 else 0;
      if LedgersHold(t, books) && j in jumps {
        JumpsCleared(t, t1, chains, books, j);
      }
      JumpsGone(t, t1, chains, j);
      if !shared {
        res := RunIpxtablesCmd(Flush(BwCostly(iface)));
        ret := if ret != 0 || res != 0 then 1 else 0;
        res := RunIpxtablesCmd(DeleteChain(BwCostly(iface)));
        ret := if ret != 0 || res != 0 then 1 else 0;
      }
    }

    /** The position of an interface among those on the shared quota. */
    method FindShared(iface: string) returns (k: nat)
      ensures k <= |sharedQuotaIfaces|
      ensures k < |sharedQuotaIfaces| ==> sharedQuotaIfaces[k] == iface && iface !in sharedQuotaIfaces[..k]
      ensures k == |sharedQuotaIfaces| <==> iface !in sharedQuotaIfaces
    {
      k := 0;
      while k < |sharedQuotaIfaces|
        invariant 0 <= k <= |sharedQuotaIfaces|
        invariant iface !in sharedQuotaIfaces[..k]
      {
        if sharedQuotaIfaces[k] == iface {
          return;
        }
        k := k + 1;
      }
      assert sharedQuotaIfaces[..k] == sharedQuotaIfaces;
    }

    /** Deletes the shared quota and, with it, its alert. */
    method ReleaseSharedQuota() returns (res: int)
      modifies this`chains, this`sharedQuotaBytes, this`sharedAlertBytes
      ensures sharedQuotaBytes == 0 && sharedAlertBytes == 0
      ensures res == 0 <==> !Refused(old(chains), Delete(BwCostly(SHARED), QuotaRule(SHARED)))
      ensures var t := Apply(old(chains), Delete(BwCostly(SHARED), QuotaRule(SHARED)));
              chains == if old(sharedAlertBytes) != 0 then Apply(t, Delete(BwCostly(SHARED), AlertRule(SHARED))) else t
    {
      hide Apply, Refused, Mirrors;
      res := RunIpxtablesCmd(Delete(BwCostly(SHARED), QuotaRule(SHARED)));
      sharedQuotaBytes := 0;
      if sharedAlertBytes != 0 {
        var r := RemoveSharedAlert();
        sharedAlertBytes := 0;
      }
    }

    method RemoveInterfaceSharedQuota(iface: string) returns (ret: int)
      modifies this
      ensures !IfaceName(iface) || iface !in old(sharedQuotaIfaces) ==>
                ret == -1 && State() == old(State()) && chains == old(chains)
      ensures old(Tracked()) && IfaceName(iface) && iface in old(sharedQuotaIfaces) ==>
                ret == 0 && Tracked() && State() == DropShared(old(State()), iface)
      ensures IfaceName(iface) && iface in old(sharedQuotaIfaces) ==>
                sharedQuotaIfaces == Without(old(sharedQuotaIfaces), iface)
      ensures quotaIfaces == old(quotaIfaces)
      ensures SameExcept(old(chains), chains, {BwInput, BwOutput, BwCostly(SHARED)})
    {
      hide Apply, Refused, Mirrors, IfaceName, DropShared, Without;
      var ok := IsIfaceName(iface);
      if !ok {
        return -1;
      }
      var k := FindShared(iface);
      if k == |sharedQuotaIfaces| {
        return -1;
      }
      ret := LeaveSharedQuota(iface, k);
    }

    /** Takes the interface at position `k` off the shared quota; the last one deletes the quota. */
    method LeaveSharedQuota(iface: string, k: nat) returns (ret: int)
      requires k < |sharedQuotaIfaces| && sharedQuotaIfaces[k] == iface && iface !in sharedQuotaIfaces[..k]
      modifies this
      ensures old(Tracked()) ==> ret == 0 && Tracked() && State() == DropShared(old(State()), iface)
      ensures sharedQuotaIfaces == Without(old(sharedQuotaIfaces), iface) && quotaIfaces == old(quotaIfaces)
      ensures SameExcept(old(chains), chains, {BwInput, BwOutput, BwCostly(SHARED)})
    {
      hide Apply, Refused, Mirrors, Rejumped, LedgersHold, Without, QuotaRule, AlertRule, DropShared, SameExcept;
      ghost var t := chains;
      ghost var books := State();
      ghost var tracked := Mirrors(t, books);
      if tracked {
        MirrorsParts(t, books);
        DropSharedLists(books, iface);
        DropSharedFields(books, iface);
      }
      WithoutAt(sharedQuotaIfaces, iface, k);
      ret := CleanupCostlyIface(iface, true);
      sharedQuotaIfaces := sharedQuotaIfaces[..k] + sharedQuotaIfaces[k + 1..];
      jumps := Without(jumps, Costly(iface, SHARED));
      ghost var t1, t2 := chains, chains;
      SharedRuleGone(t, t1, Delete(BwCostly(SHARED), AlertRule(SHARED)));
      if sharedQuotaIfaces == [] {
        var res := ReleaseSharedQuota();
        t2 := Apply(t1, Delete(BwCostly(SHARED), QuotaRule(SHARED)));
        SharedRuleGone(t, t1, Delete(BwCostly(SHARED), QuotaRule(SHARED)));
        SharedRuleGone(t, t2, Delete(BwCostly(SHARED), AlertRule(SHARED)));
        ret := if ret != 0 || res != 0 then 1 else 0;
      }
      if tracked {
        SharedDropped(t, books, iface, t1, t2, chains);
      }
    }

    /** Puts one more interface on the shared quota; the first one installs the quota. */
    method JoinSharedQuota(iface: string, maxBytes: int) returns (res: int, installed: bool)
      modifies this
      ensures old(Tracked()) && iface !in old(sharedQuotaIfaces) && maxBytes != 0 ==>
                installed && res == 0 && Tracked() && State() == AddShared(old(State()), iface, maxBytes)
      ensures installed ==> sharedQuotaIfaces != []
    {
      hide Apply, Refused, Mirrors, Rejumped, LedgersHold, QuotaRule, SameExcept, CanPrepare;
      ghost var t := chains;
      ghost var books := State();
      ghost var tracked := Mirrors(t, books) && iface !in sharedQuotaIfaces && maxBytes != 0;
      if tracked {
        MirrorsParts(t, books);
        AddSharedLists(books, iface, maxBytes);
        WithoutAbsent(jumps, Costly(iface, SHARED));
      }
      res := PrepCostlyIface(iface, true);
      ghost var t1 := chains;
      if sharedQuotaIfaces == [] {
        var r := RunIpxtablesCmd(Insert(BwCostly(SHARED), 1, QuotaRule(SHARED)));
        if tracked {
          SharedAdded(t, books, iface, maxBytes, t1, chains);
        }
        res := if res != 0 || r != 0 then 1 else 0;
        if res != 0 {
          return res, false;
        }
        sharedQuotaBytes := maxBytes;
      } else if tracked {
        SharedAdded(t, books, iface, maxBytes, t1, chains);
      }
      jumps := [Costly(iface, SHARED)] + jumps;
      sharedQuotaIfaces := [iface] + sharedQuotaIfaces;
      return res, true;
    }

    method SetInterfaceSharedQuota(iface: string, maxBytes: int) returns (ret: int)
      modifies this
      ensures maxBytes == 0 || !IfaceName(iface) ==> ret == -1 && State() == old(State()) && chains == old(chains)
      ensures old(Tracked()) && maxBytes == -1 && IfaceName(iface) ==>
                && Tracked() && (ret == 0 <==> iface in old(sharedQuotaIfaces))
                && State() == if ret == 0 then DropShared(old(State()), iface) else old(State())
      ensures old(Tracked()) && maxBytes != 0 && maxBytes != -1 && IfaceName(iface) ==>
                && ret == 0 && Tracked()
                && State() == (if iface in old(sharedQuotaIfaces) then old(State())
                               else AddShared(old(State()), iface, maxBytes)).(sharedQuota := maxBytes)
      ensures old(Tracked()) && maxBytes != 0 && maxBytes != -1 && IfaceName(iface) && old(sharedQuotaIfaces) != [] ==>
                maxBytes != old(sharedQuotaBytes) ==> Wrote(SHARED, maxBytes)
    {
      hide Apply, Refused, Mirrors, IfaceName, QuotaExists, DropShared;
      if maxBytes == 0 {
        return -1;
      }
      var ok := IsIfaceName(iface);
      if !ok {
        return -1;
      }
      if maxBytes == -1 {
        ret := RemoveInterfaceSharedQuota(iface);
        return;
      }
      ghost var tracked := Mirrors(chains, State());
      var k := FindShared(iface);
      var res := 0;
      if k == |sharedQuotaIfaces| {
        var installed;
        res, installed := JoinSharedQuota(iface, maxBytes);
        if !installed {
          ret := RemoveInterfaceSharedQuota(iface);
          return -1;
        }
      }
      if maxBytes != sharedQuotaBytes {
        var r := UpdateQuota(SHARED, maxBytes);
        NamesKnown();
        if tracked {
          MirrorsParts(chains, State());
          QuotasExist(chains, State());
          SharedReset(chains, State(), maxBytes);
        }
        res := if res != 0 || r != 0 then 1 else 0;
        if res != 0 {
          ret := RemoveInterfaceSharedQuota(iface);
          return -1;
        }
        sharedQuotaBytes := maxBytes;
      }
      return 0;
    }

    method RemoveInterfaceQuota(iface: string) returns (ret: int)
      modifies this
      ensures !IfaceName(iface) || iface !in Names(old(quotaIfaces)) ==>
                ret == -1 && State() == old(State()) && chains == old(chains)
      ensures old(Tracked()) && IfaceName(iface) && iface in Names(old(quotaIfaces)) ==>
                && ret == 0 && Tracked()
                && exists k: nat ::
                     && k < |old(quotaIfaces)| && old(quotaIfaces)[k].iface == iface
                     && State() == DropOwn(old(State()), k)
    {
      hide Apply, Refused, Mirrors, Rejumped, LedgersHold, IfaceName, Without, Names;
      var ok := IsIfaceName(iface);
      if !ok {
        return -1;
      }
      var k := FindQuota(iface);
      if k == |quotaIfaces| {
        return -1;
      }
      ghost var t := chains;
      ghost var books := State();
      ghost var tracked := Mirrors(t, books);
      if tracked {
        MirrorsParts(t, books);
        DropOwnLists(books, k);
      }
      ret := CleanupCostlyIface(iface, false);
      if tracked {
        ghost var t1 := Rejumped(t, books, DropOwn(books, k).jumps);
        OwnDropped(t, books, k, t1, Apply(t1, Flush(BwCostly(iface))), chains);
      }
      jumps := Without(jumps, Costly(iface, iface));
      quotaIfaces := quotaIfaces[..k] + quotaIfaces[k + 1..];
    }

    /** The interface's own chain, with the quota after the penalty box. */
    method InstallQuota(iface: string, maxBytes: int) returns (ret: int)
      modifies this
      ensures old(Tracked()) && iface != SHARED && iface !in Names(old(quotaIfaces)) ==>
                ret == 0 && Tracked() && State() == AddOwn(old(State()), iface, maxBytes)
      ensures old(Tracked()) && iface == SHARED ==>
                && ret == 0 && BwCostly(SHARED) in chains && chains[BwCostly(SHARED)] == [TO_PENALTY, QuotaRule(SHARED)]
                && !SharedHolds(chains, State())
                && forall order, on :: !Mirrors(chains, State().(jumps := order, happy := on))
      ensures ret != 0 ==> quotaIfaces == old(quotaIfaces)
      ensures sharedQuotaIfaces == old(sharedQuotaIfaces)
      ensures ret == 0 <==> CanPrepare(old(chains), old(globalAlertBytes) != 0, Costly(iface, iface), false)
      ensures BwCostly(iface) in chains && chains[BwCostly(iface)] == Started(old(chains)) + [QuotaRule(iface)]
    {
      hide Apply, Refused, Mirrors, Rejumped, LedgersHold, QuotaRule, Names, Without, CanPrepare, SameExcept,
           SharedHolds;
      ghost var t := chains;
      ghost var books := State();
      ghost var tracked := Mirrors(t, books) && iface != SHARED && iface !in Names(quotaIfaces);
      ghost var j := Costly(iface, iface);
      if Mirrors(t, books) {
        MirrorsParts(t, books);
        if tracked {
          AddOwnLists(books, iface, maxBytes);
          WithoutAbsent(jumps, j);
        }
      }
      ret := PrepCostlyIface(iface, false);
      ghost var t2 := chains;
      var res := RunIpxtablesCmd(Append(BwCostly(iface), QuotaRule(iface)));
      if tracked {
        OwnAdded(t, books, iface, maxBytes, t[BwCostly(iface) := [TO_PENALTY]], t2, chains);
      }
      QuotaAppends(t, t2, chains, iface);
      ret := if ret != 0 || res != 0 then 1 else 0;
      if ret == 0 {
        jumps := [j] + jumps;
        quotaIfaces := [QuotaInfo(iface, maxBytes, 0)] + quotaIfaces;
        if Mirrors(t, books) && iface == SHARED {
          SharedChainTaken(chains, State());
        }
      }
    }

    /**
     * A new quota keeps the tables in step if and only if the interface is not
     * called "shared"; one called that takes over the chain of the shared
     * quota, and then nothing explains the tables. It fails exactly when its
     * jumps cannot be placed (`CanPrepare`), or a set quota's counter is
     * missing; the cleanup then takes the interface off the shared quota, and
     * the interface's own chain stays, with no record of it.
     */
    method SetInterfaceQuota(iface: string, maxBytes: int) returns (ret: int)
      modifies this
      ensures maxBytes == 0 || !IfaceName(iface) ==> ret == -1 && State() == old(State()) && chains == old(chains)
      ensures old(Tracked()) && maxBytes == -1 && IfaceName(iface) ==>
                Tracked() && (ret == 0 <==> iface in Names(old(quotaIfaces)))
      ensures old(Tracked()) && maxBytes != 0 && maxBytes != -1 && IfaceName(iface) && iface != SHARED ==>
                && ret == 0 && Tracked()
                && (iface !in Names(old(quotaIfaces)) ==> State() == AddOwn(old(State()), iface, maxBytes))
                && (iface in Names(old(quotaIfaces)) ==>
                      exists k: nat :: k < |old(quotaIfaces)| && old(quotaIfaces)[k].iface == iface
                        && State() ==
                             old(State()).(quotas := old(quotaIfaces)[k := old(quotaIfaces)[k].(quota := maxBytes)]))
      ensures old(Tracked()) && maxBytes != 0 && maxBytes != -1 && iface == SHARED ==>
                && ret == 0
                && BwCostly(SHARED) in chains && chains[BwCostly(SHARED)] == [TO_PENALTY, QuotaRule(SHARED)]
                && !SharedHolds(chains, State())
                && forall order, on :: !Mirrors(chains, State().(jumps := order, happy := on))
      ensures maxBytes != 0 && maxBytes != -1 && IfaceName(iface) && ret != 0 ==>
                && ret == -1 && quotaIfaces == old(quotaIfaces)
                && sharedQuotaIfaces == Without(old(sharedQuotaIfaces), iface)
      ensures maxBytes != 0 && maxBytes != -1 && IfaceName(iface) && iface !in Names(old(quotaIfaces)) ==>
                && (ret == 0 <==> CanPrepare(old(chains), old(globalAlertBytes) != 0, Costly(iface, iface), false))
                && (iface != SHARED ==>
                      && BwCostly(iface) in chains
                      && chains[BwCostly(iface)] == Started(old(chains)) + [QuotaRule(iface)])
      ensures maxBytes != 0 && maxBytes != -1 && IfaceName(iface) && iface in Names(old(quotaIfaces)) ==>
                (ret == 0 <==> QuotaExists(old(chains), iface)) && (ret == 0 ==> Wrote(iface, maxBytes))
    {
      hide SharedHolds, CanPrepare, QuotaRule, Started;
      hide Mirrors, IfaceName, QuotaExists, DropOwn, AddOwn, Names, DropShared, Without;
      NamesKnown();
      if iface !in sharedQuotaIfaces {
        WithoutAbsent(sharedQuotaIfaces, iface);
      }
      var ok := IsIfaceName(iface);
      if !ok {
        return -1;
      }
      if maxBytes == 0 {
        return -1;
      }
      if maxBytes == -1 {
        ret := RemoveInterfaceQuota(iface);
        return;
      }
      ghost var t := chains;
      ghost var books := State();
      ghost var tracked := Mirrors(t, books);
      if tracked {
        NotShared(t, books);
      }
      var k := FindQuota(iface);
      if k == |quotaIfaces| {
        var res := InstallQuota(iface, maxBytes);
        if res != 0 {
          ret := RemoveInterfaceSharedQuota(iface);
          return -1;
        }
      } else {
        var res := UpdateQuota(iface, maxBytes);
        if tracked {
          QuotasExist(t, books);
          OwnReset(t, books, k, maxBytes);
        }
        if res != 0 {
          ret := RemoveInterfaceSharedQuota(iface);
          return -1;
        }
        quotaIfaces := quotaIfaces[k := quotaIfaces[k].(quota := maxBytes)];
      }
      return 0;
    }

    // ---- turning bandwidth control on and off

    /** Runs commands in turn; unless failures are fine, stops at the first. */
    method RunCommands(cmds: seq<Command>, failureOk: bool) returns (ret: int)
      modifies this`chains
      ensures failureOk ==> ret == 0 && chains == ApplyAll(old(chains), cmds)
      ensures ret == 0 && !failureOk ==> NoneRefused(old(chains), cmds) && chains == ApplyAll(old(chains), cmds)
    {
      hide Apply, Refused;
      for i := 0 to |cmds|
        invariant ApplyAll(chains, cmds[i..]) == ApplyAll(old(chains), cmds)
        invariant !failureOk ==> (NoneRefused(chains, cmds[i..]) <==> NoneRefused(old(chains), cmds))
      {
        assert cmds[i..][0] == cmds[i] && cmds[i..][1..] == cmds[i + 1..];
        ret := RunIpxtablesCmd(cmds[i]);
        if ret != 0 && !failureOk {
          return;
        }
      }
      return 0;
    }

    /** Flushes every bw_costly_<iface>. */
    method FlushExistingCostlyTables()
      modifies this`chains
      ensures chains.Keys == old(chains).Keys
      ensures forall c :: c in chains ==> chains[c] == if c.BwCostly? && c.cost != SHARED then [] else old(chains)[c]
    {
      var listed := set c | c in chains && c.BwCostly? && c.cost != SHARED;
      while listed != {}
        invariant chains.Keys == old(chains).Keys
        invariant forall c :: c in listed ==> c in chains && c.BwCostly? && c.cost != SHARED
        invariant forall c :: c in chains && c !in listed ==>
                    chains[c] == if c.BwCostly? && c.cost != SHARED then [] else old(chains)[c]
      {
        var c :| c in listed;
        var res := RunIpxtablesCmd(Flush(c));
        listed := listed - {c};
      }
    }

    method FlushCleanTables()
      modifies this`chains
      ensures Flushed(old(chains), chains)
    {
      FlushExistingCostlyTables();
      ghost var t := chains;
      var res := RunCommands(FlushCommands(), true);
      FlushesAll(t, FlushCommands());
      hide ApplyAll, Apply, Refused;
    }

    method ClearRecords()
      modifies this
      ensures State() == NOTHING && chains == old(chains)
    {
      sharedQuotaIfaces := [];
      quotaIfaces := [];
      naughtyAppUids := [];
      niceAppUids := [];
      globalAlertBytes := 0;
      globalAlertTetherCount := 0;
      sharedQuotaBytes, sharedAlertBytes := 0, 0;
      jumps, happy := [], false;
    }

    /**
     * Whatever the tables and the records were before, a call that returns 0
     * brings them in step, with nothing tracked.
     */
    method EnableBandwidthControl(force: bool, propertyOff: bool) returns (ret: int)
      modifies this
      ensures !force && propertyOff ==> ret == 0 && State() == old(State()) && chains == old(chains)
      ensures (force || !propertyOff) && ret == 0 && BwForward in old(chains) && NoStrayOutside(old(chains)) ==>
                Tracked() && State() == NOTHING
    {
      hide Flushed, ApplyAll, NoneRefused, Mirrors, NoStrayOutside, AccountingCommands;
      if !force {
        if propertyOff {
          return 0;
        }
      }
      ClearRecords();
      ghost var t0 := chains;
      FlushCleanTables();
      ghost var t1 := chains;
      ret := RunCommands(AccountingCommands(), false);
      if ret == 0 && BwForward in t0 && NoStrayOutside(t0) {
        StartsEmpty(t0, t1, chains);
      }
    }

    /** The records are kept while the rules are gone, so the two part ways. */
    method DisableBandwidthControl() returns (ret: int)
      modifies this`chains
      ensures ret == 0 && Flushed(old(chains), chains)
      ensures State() == old(State()) && !Tracked()
    {
      FlushCleanTables();
      return 0;
    }
  }

  // ---- sequences of commands

  datatype BwCommand =
    | EnableHappy | DisableHappy
    | SpecialApps(naughty: bool, add: bool, uids: seq<Option<int>>)
    | SetSharedQuota(iface: string, bytes: int) | DropSharedQuota(iface: string)
    | SetQuota(iface: string, bytes: int) | DropQuota(iface: string)
    | AlertGlobally(bytes: int) | DropGlobalAlert
    | CountTethering | UncountTethering
    | AlertShared(bytes: int) | UnalertShared
    | AlertFor(iface: string, bytes: int) | UnalertFor(iface: string)

  /** A new quota for an interface called "shared". */
  predicate TakesOverShared(cmd: BwCommand) {
    cmd.SetQuota? && cmd.iface == SHARED && cmd.bytes != 0 && cmd.bytes != -1
  }

  /** Every command keeps tables and records in step, whatever it returns, with that one exception. */
  method Obey(control: BandwidthController, cmd: BwCommand) returns (ret: int)
    modifies control
    ensures old(control.Tracked()) ==> (control.Tracked() <==> !TakesOverShared(cmd))
  {
    hide Mirrors, IfaceName, AddOwn, DropOwn, DropShared, AddShared, Without, Names, Listing;
    match cmd {
      case EnableHappy => ret := control.EnableHappyBox();
      case DisableHappy => ret := control.DisableHappyBox();
      case SpecialApps(naughty, add, uids) => ret := control.ManipulateSpecialApps(naughty, add, uids);
      case SetSharedQuota(iface, bytes) => ret := control.SetInterfaceSharedQuota(iface, bytes);
      case DropSharedQuota(iface) => ret := control.RemoveInterfaceSharedQuota(iface);
      case SetQuota(iface, bytes) => ret := control.SetInterfaceQuota(iface, bytes);
      case DropQuota(iface) => ret := control.RemoveInterfaceQuota(iface);
      case AlertGlobally(bytes) => ret := control.SetGlobalAlert(bytes);
      case DropGlobalAlert => ret := control.RemoveGlobalAlert();
      case CountTethering => ret := control.SetGlobalAlertInForwardChain();
      case UncountTethering => ret := control.RemoveGlobalAlertInForwardChain();
      case AlertShared(bytes) => ret := control.SetSharedAlert(bytes);
      case UnalertShared => ret := control.RemoveSharedAlert();
      case AlertFor(iface, bytes) => ret := control.SetInterfaceAlert(iface, bytes);
      case UnalertFor(iface) => ret := control.RemoveInterfaceAlert(iface);
    }
  }

  method ObeyAll(control: BandwidthController, cmds: seq<BwCommand>)
    requires control.Tracked() && forall i :: 0 <= i < |cmds| ==> !TakesOverShared(cmds[i])
    modifies control
    ensures control.Tracked()
  {
    hide Mirrors;
    for i := 0 to |cmds|
      invariant control.Tracked()
    {
      var _ := Obey(control, cmds[i]);
    }
  }

  /**
   * With a global alert set, a quota after bandwidth control was disabled is
   * refused: the ledgers are empty, so no jump can go second. The interface
   * loses its place on the shared quota, and its own chain stays.
   */
  method QuotaWhileDisabled(control: BandwidthController, alert: int, iface: string, bytes: int) returns (ret: int)
    requires control.Tracked() && alert != 0 && bytes != 0 && bytes != -1 && IfaceName(iface)
    requires iface !in Names(control.quotaIfaces) && iface != SHARED
    modifies control
    ensures ret == -1 && control.quotaIfaces == old(control.quotaIfaces)
    ensures control.sharedQuotaIfaces == Without(old(control.sharedQuotaIfaces), iface)
    ensures BwCostly(iface) in control.chains
    ensures control.chains[BwCostly(iface)] == [TO_PENALTY, QuotaRule(iface)]
  {
    hide Mirrors, IfaceName, Names, Without, CanPrepare, QuotaRule, Flushed;
    var res := control.SetGlobalAlert(alert);
    ghost var t := control.chains;
    MirrorsParts(t, control.State());
    res := control.DisableBandwidthControl();
    NothingToGoBehind(t, control.chains, control.State(), Costly(iface, iface));
    ret := control.SetInterfaceQuota(iface, bytes);
  }

  /** A second alert for the shared quota: the record has it, the counter was given the first one again. */
  method SecondAlertIsLost(control: BandwidthController, first: int, second: int)
    requires control.Tracked() && control.sharedQuotaBytes != 0 && first != 0 && second != 0
    modifies control
    ensures control.Tracked() && control.sharedAlertBytes == second && control.Wrote(AlertName(SHARED), first)
    ensures control.Wrote(AlertName(SHARED), second) <==> first == second
  {
    hide Mirrors, AlertName;
    var _ := control.SetSharedAlert(first);
    assert control.State().sharedAlert == first;
    var _ := control.SetSharedAlert(second);
    assert control.State().sharedAlert == second;
  }
}
