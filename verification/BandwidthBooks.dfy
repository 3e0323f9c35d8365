/**
 * What BandwidthController records, how the tables mirror it, and what each
 * sequence of commands does to both.
 */
module BandwidthBooks {
  import opened Wrappers
  import opened Iptables
  import opened Ledgers

  datatype QuotaInfo = QuotaInfo(iface: string, quota: int, alert: int)

  function Names(quotas: seq<QuotaInfo>): (r: seq<string>)
    ensures |r| == |quotas|
    ensures forall i :: 0 <= i < |r| ==> r[i] == quotas[i].iface
  {
    if quotas == [] then [] else [quotas[0].iface] + Names(quotas[1..])
  }

  /**
   * The controller's records, and two things it does not record: the order in
   * which interfaces became costly and whether the happy box is on.
   */
  datatype Books = Books(
    shared: seq<string>, quotas: seq<QuotaInfo>,
    sharedQuota: int, sharedAlert: int, globalAlert: int, tetherCount: int,
    naughty: seq<int>, nice: seq<int>,
    jumps: seq<Costly>, happy: bool)

  // ------------------------------------------------- the tables mirror the books

  ghost predicate LedgersHold(t: Table, b: Books) {
    && BwInput in t && t[BwInput] == Ledger(false, b.globalAlert != 0, b.jumps)
    && BwOutput in t && t[BwOutput] == Ledger(true, b.globalAlert != 0, b.jumps)
  }

  /** bw_FORWARD has the global alert exactly when one is set and something is tethered. */
  ghost predicate ForwardHolds(t: Table, b: Books) {
    && b.tetherCount >= 0
    && BwForward in t && t[BwForward] == AlertPart(b.globalAlert != 0 && b.tetherCount > 0)
  }

  /** The happy box may be missing while it is off. */
  ghost predicate BoxesHold(t: Table, b: Books) {
    && BwPenaltyBox in t && t[BwPenaltyBox] == PenaltyBox(b.naughty, b.happy)
    && (b.happy ==> BwHappyBox in t)
    && (BwHappyBox in t ==> t[BwHappyBox] == HappyBox(b.nice, b.happy))
  }

  ghost predicate SharedHolds(t: Table, b: Books) {
    BwCostly(SHARED) in t && t[BwCostly(SHARED)] == SharedChain(b.sharedQuota != 0, b.sharedAlert != 0)
  }

  ghost predicate OwnHolds(t: Table, q: QuotaInfo) {
    BwCostly(q.iface) in t && t[BwCostly(q.iface)] == OwnChain(q.iface, q.alert != 0)
  }

  ghost predicate OwnChainsHold(t: Table, b: Books) {
    forall i :: 0 <= i < |b.quotas| ==> OwnHolds(t, b.quotas[i])
  }

  predicate LeadsToCostly(r: Rule) {
    (r.target.Jump? || r.target.Goto?) && r.target.to.BwCostly?
  }

  /** Only bw_INPUT and bw_OUTPUT lead to costly chains. */
  ghost predicate NoStrayJumps(t: Table) {
    forall c, r :: c in t && c != BwInput && c != BwOutput && r in t[c] ==> !LeadsToCostly(r)
  }

  /** One jump per tracked quota, in the order of tracking. */
  ghost predicate ListsHold(b: Books) {
    && Tidy(b.jumps)
    && b.shared == SharedOf(b.jumps)
    && Names(b.quotas) == OwnOf(b.jumps)
    && (b.sharedQuota != 0 <==> b.shared != [])
    && (b.sharedAlert != 0 ==> b.sharedQuota != 0)
  }

  ghost predicate Mirrors(t: Table, b: Books) {
    && LedgersHold(t, b) && ForwardHolds(t, b) && BoxesHold(t, b)
    && SharedHolds(t, b) && OwnChainsHold(t, b) && NoStrayJumps(t) && ListsHold(b)
  }

  // ---------------------------------------------------------------- framing

  ghost predicate SameExcept(t: Table, t': Table, touched: set<Chain>) {
    forall c :: c !in touched ==> (c in t <==> c in t') && (c in t ==> t'[c] == t[c])
  }

  // An edit that does not touch a part's chains, nor what it depends on, keeps it.

  lemma SameLedgers(t: Table, t': Table, b: Books, b': Books, touched: set<Chain>)
    requires LedgersHold(t, b) && SameExcept(t, t', touched) && BwInput !in touched && BwOutput !in touched
    requires b'.globalAlert == b.globalAlert && b'.jumps == b.jumps
    ensures LedgersHold(t', b')
  {
  }

  lemma SameForward(t: Table, t': Table, b: Books, b': Books, touched: set<Chain>)
    requires ForwardHolds(t, b) && SameExcept(t, t', touched) && BwForward !in touched
    requires b'.globalAlert == b.globalAlert && b'.tetherCount == b.tetherCount
    ensures ForwardHolds(t', b')
  {
  }

  lemma SameBoxes(t: Table, t': Table, b: Books, b': Books, touched: set<Chain>)
    requires BoxesHold(t, b) && SameExcept(t, t', touched) && BwPenaltyBox !in touched && BwHappyBox !in touched
    requires b'.naughty == b.naughty && b'.nice == b.nice && b'.happy == b.happy
    ensures BoxesHold(t', b')
  {
  }

  lemma SameShared(t: Table, t': Table, b: Books, b': Books, touched: set<Chain>)
    requires SharedHolds(t, b) && SameExcept(t, t', touched) && BwCostly(SHARED) !in touched
    requires b'.sharedQuota == b.sharedQuota && b'.sharedAlert == b.sharedAlert
    ensures SharedHolds(t', b')
  {
  }

  lemma SameOwn(t: Table, t': Table, b: Books, b': Books, touched: set<Chain>)
    requires OwnChainsHold(t, b) && SameExcept(t, t', touched)
    requires forall i :: 0 <= i < |b.quotas| ==> BwCostly(b.quotas[i].iface) !in touched
    requires b'.quotas == b.quotas
    ensures OwnChainsHold(t', b')
  {
    assert forall i :: 0 <= i < |b.quotas| ==> OwnHolds(t, b.quotas[i]);
  }

  lemma SameStrays(t: Table, t': Table, touched: set<Chain>)
    requires NoStrayJumps(t) && SameExcept(t, t', touched)
    requires forall c :: c in touched && c in t' && c != BwInput && c != BwOutput ==> LeadsNowhere(t'[c])
    ensures NoStrayJumps(t')
  {
  }

  ghost predicate LeadsNowhere(rules: seq<Rule>) {
    forall r :: r in rules ==> !LeadsToCostly(r)
  }

  lemma SameLists(b: Books, b': Books)
    requires ListsHold(b) && b'.shared == b.shared && b'.quotas == b.quotas && b'.jumps == b.jumps
    requires b'.sharedQuota == b.sharedQuota && (b'.sharedAlert != 0 ==> b'.sharedQuota != 0)
    ensures ListsHold(b')
  {
  }

  lemma AlertNeedsQuota(b: Books)
    requires ListsHold(b)
    ensures b.sharedAlert != 0 ==> b.sharedQuota != 0
  {
  }

  /** Editing only the boxes leaves everything else as it was. */
  lemma BoxFrame(t: Table, t': Table, b: Books, b': Books)
    requires Mirrors(t, b) && SameExcept(t, t', {BwPenaltyBox, BwHappyBox})
    requires b' == b.(naughty := b'.naughty, nice := b'.nice, happy := b'.happy)
    requires BoxesHold(t', b')
    ensures Mirrors(t', b')
  {
    hide LedgersHold, ForwardHolds, BoxesHold, SharedHolds, OwnChainsHold, NoStrayJumps, ListsHold, SameExcept,
         LeadsNowhere;
    BoxesLeadNowhere(t', b');
    AlertNeedsQuota(b);
    SameLists(b, b');
    var touched := {BwPenaltyBox, BwHappyBox};
    SameLedgers(t, t', b, b', touched);
    SameForward(t, t', b, b', touched);
    SameShared(t, t', b, b', touched);
    SameOwn(t, t', b, b', touched);
    SameStrays(t, t', touched);
  }

  lemma BoxesLeadNowhere(t: Table, b: Books)
    requires BoxesHold(t, b)
    ensures LeadsNowhere(t[BwPenaltyBox])
    ensures BwHappyBox in t ==> LeadsNowhere(t[BwHappyBox])
  {
    AppRulesOnly(b.naughty, Reject);
    AppRulesOnly(b.nice, Return);
  }

  // --------------------------------------------------------- lists of applications

  /** One application added to or removed from a list; `None` when that is refused. */
  function Listing(list: seq<int>, add: bool, uid: int): Option<seq<int>> {
    if add then if uid in list then None else Some([uid] + list)
    else if uid in list then Some(Without(list, uid)) else None
  }

  datatype ListOutcome = ListOutcome(list: seq<int>, complete: bool)

  /** A whole command: it stops at the first application that is refused. */
  function ListingAll(list: seq<int>, add: bool, uids: seq<int>): (r: ListOutcome)
    decreases |uids|
  {
    if uids == [] then ListOutcome(list, true)
    else
      match Listing(list, add, uids[0])
      case None => ListOutcome(list, false)
      case Some(next) => ListingAll(next, add, uids[1..])
  }

  lemma BoxEdit(list: seq<int>, add: bool, uid: int, target: Target, tail: seq<Rule>)
    requires Listing(list, add, uid).Some?
    requires forall i :: 0 <= i < |tail| ==> tail[i].when == Any
    ensures var next := Listing(list, add, uid).value;
            var box := AppRules(list, target) + tail;
            if add then [AppRule(uid, target)] + box == AppRules(next, target) + tail
            else AppRule(uid, target) in box && Without(box, AppRule(uid, target)) == AppRules(next, target) + tail
  {
    BoxInsert(list, uid, target, tail);
    BoxDelete(list, uid, target, tail);
  }

  lemma BoxesMirrored(t: Table, b: Books)
    requires Mirrors(t, b)
    ensures BoxesHold(t, b)
  {
  }

  /** A chain's rules after a -D that may be refused. */
  function Deleted(rules: seq<Rule>, r: Rule): seq<Rule> {
    if r in rules then Without(rules, r) else rules
  }

  lemma HappyEdits(naughty: seq<int>, happy: bool)
    ensures Deleted(PenaltyBox(naughty, happy), TO_HAPPY) == PenaltyBox(naughty, false)
    ensures Deleted(PenaltyBox(naughty, happy), TO_HAPPY) + [TO_HAPPY] == PenaltyBox(naughty, true)
    ensures HappyBox([], true) == [REJECT_ALL] && HappyBox([], false) == []
  {
    TailEdits(naughty, Reject, TO_HAPPY);
    assert AppRules([], Return) == [];
    hide AppRules, Without;
    assert AppRules(naughty, Reject) + [] == AppRules(naughty, Reject);
  }

  lemma HappyTables(t0: Table, t1: Table, t2: Table, t3: Table, t4: Table, t5: Table, t6: Table)
    requires BwPenaltyBox in t0
    requires t1 == Apply(t0, NewChain(BwHappyBox))
    requires t2 == Apply(t1, Flush(BwHappyBox))
    requires t3 == Apply(t2, Delete(BwPenaltyBox, TO_HAPPY))
    requires t4 == Apply(t3, Append(BwPenaltyBox, TO_HAPPY))
    requires t5 == Apply(t4, Delete(BwHappyBox, REJECT_ALL))
    requires t6 == Apply(t5, Append(BwHappyBox, REJECT_ALL))
    ensures !Refused(t1, Flush(BwHappyBox))
    ensures !Refused(t3, Append(BwPenaltyBox, TO_HAPPY)) && !Refused(t5, Append(BwHappyBox, REJECT_ALL))
    ensures t6 == t0[BwPenaltyBox := Deleted(t0[BwPenaltyBox], TO_HAPPY) + [TO_HAPPY]][BwHappyBox := [REJECT_ALL]]
  {
    hide Without;
    var box := Deleted(t0[BwPenaltyBox], TO_HAPPY);
    assert t2 == t0[BwHappyBox := []];
    assert t3 == t2[BwPenaltyBox := box];
    assert t4 == t3[BwPenaltyBox := box + [TO_HAPPY]];
    assert t5 == t4;
    assert [] + [REJECT_ALL] == [REJECT_ALL];
  }

  /** enableHappyBox(), table by table. */
  lemma HappyBoxOn(t0: Table, t1: Table, t2: Table, t3: Table, t4: Table, t5: Table, t6: Table, b: Books)
    requires Mirrors(t0, b)
    requires t1 == Apply(t0, NewChain(BwHappyBox))
    requires t2 == Apply(t1, Flush(BwHappyBox))
    requires t3 == Apply(t2, Delete(BwPenaltyBox, TO_HAPPY))
    requires t4 == Apply(t3, Append(BwPenaltyBox, TO_HAPPY))
    requires t5 == Apply(t4, Delete(BwHappyBox, REJECT_ALL))
    requires t6 == Apply(t5, Append(BwHappyBox, REJECT_ALL))
    ensures !Refused(t1, Flush(BwHappyBox))
    ensures !Refused(t3, Append(BwPenaltyBox, TO_HAPPY)) && !Refused(t5, Append(BwHappyBox, REJECT_ALL))
    ensures Mirrors(t6, b.(nice := [], happy := true))
  {
    hide PenaltyBox, HappyBox, Without, Mirrors, Apply, Refused;
    BoxesMirrored(t0, b);
    HappyEdits(b.naughty, b.happy);
    HappyTables(t0, t1, t2, t3, t4, t5, t6);
    BoxFrame(t0, t6, b, b.(nice := [], happy := true));
  }

  /** disableHappyBox(), table by table; the chain may survive if something else refers to it. */
  lemma HappyBoxOff(t0: Table, t1: Table, t2: Table, t3: Table, b: Books)
    requires Mirrors(t0, b)
    requires t1 == Apply(t0, Delete(BwPenaltyBox, TO_HAPPY))
    requires t2 == Apply(t1, Flush(BwHappyBox))
    requires t3 == Apply(t2, DeleteChain(BwHappyBox))
    ensures Mirrors(t3, b.(nice := [], happy := false))
  {
    hide PenaltyBox, HappyBox, Without, Mirrors, Referenced;
    BoxesMirrored(t0, b);
    HappyEdits(b.naughty, b.happy);
    assert BwPenaltyBox in t1 && t1[BwPenaltyBox] == PenaltyBox(b.naughty, false);
    assert BwHappyBox in t2 ==> t2[BwHappyBox] == [];
    BoxFrame(t0, t3, b, b.(nice := [], happy := false));
  }

  function BoxOf(naughty: bool): Chain {
    if naughty then BwPenaltyBox else BwHappyBox
  }

  function ListOf(b: Books, naughty: bool): seq<int> {
    if naughty then b.naughty else b.nice
  }

  function WithList(b: Books, naughty: bool, list: seq<int>): Books {
    if naughty then b.(naughty := list) else b.(nice := list)
  }

  function AppCommand(naughty: bool, add: bool, uid: int): Command {
    var rule := AppRule(uid, if naughty then Reject else Return);
    if add then Insert(BoxOf(naughty), 1, rule) else Delete(BoxOf(naughty), rule)
  }

  lemma AppEdited(t: Table, naughty: bool, add: bool, uid: int)
    requires BoxOf(naughty) in t && !add ==> AppRule(uid, if naughty then Reject else Return) in t[BoxOf(naughty)]
    ensures Refused(t, AppCommand(naughty, add, uid)) <==> BoxOf(naughty) !in t
    ensures BoxOf(naughty) !in t ==> Apply(t, AppCommand(naughty, add, uid)) == t
    ensures BoxOf(naughty) in t ==>
              var box, rule := t[BoxOf(naughty)], AppRule(uid, if naughty then Reject else Return);
              Apply(t, AppCommand(naughty, add, uid)) ==
                t[BoxOf(naughty) := if add then [rule] + box else Without(box, rule)]
  {
    hide Without;
    if BoxOf(naughty) in t {
      var box, rule := t[BoxOf(naughty)], AppRule(uid, if naughty then Reject else Return);
      assert box[..0] + [rule] + box[0..] == [rule] + box;
    }
  }

  function BoxRules(b: Books, naughty: bool): seq<Rule> {
    if naughty then PenaltyBox(b.naughty, b.happy) else HappyBox(b.nice, b.happy)
  }

  lemma BoxListed(b: Books, naughty: bool, add: bool, uid: int, list: seq<int>)
    requires Listing(ListOf(b, naughty), add, uid) == Some(list)
    ensures var box, rule := BoxRules(b, naughty), AppRule(uid, if naughty then Reject else Return);
            && (add ==> [rule] + box == BoxRules(WithList(b, naughty, list), naughty))
            && (!add ==> rule in box && Without(box, rule) == BoxRules(WithList(b, naughty, list), naughty))
  {
    hide AppRules, Without, AppRule, Listing;
    var tail := if !b.happy then [] else if naughty then [TO_HAPPY] else [REJECT_ALL];
    BoxEdit(ListOf(b, naughty), add, uid, if naughty then Reject else Return, tail);
  }

  lemma AppBoxed(t: Table, b: Books, naughty: bool, add: bool, uid: int, t': Table, list: seq<int>)
    requires BoxesHold(t, b) && Listing(ListOf(b, naughty), add, uid) == Some(list)
    requires t' == Apply(t, AppCommand(naughty, add, uid))
    ensures Refused(t, AppCommand(naughty, add, uid)) <==> BoxOf(naughty) !in t
    ensures BoxesHold(t', WithList(b, naughty, list))
    ensures SameExcept(t, t', {BwPenaltyBox, BwHappyBox})
    ensures BoxOf(naughty) in t' <==> BoxOf(naughty) in t
  {
    hide PenaltyBox, HappyBox, Without, AppRule, Listing, Apply, Refused, AppCommand;
    BoxListed(b, naughty, add, uid, list);
    AppEdited(t, naughty, add, uid);
  }

  /** One application listed: the box follows the list, unless there is no box. */
  lemma AppListed(t: Table, b: Books, naughty: bool, add: bool, uid: int, t': Table, list: seq<int>)
    requires Mirrors(t, b) && Listing(ListOf(b, naughty), add, uid) == Some(list)
    requires t' == Apply(t, AppCommand(naughty, add, uid))
    ensures Refused(t, AppCommand(naughty, add, uid)) <==> BoxOf(naughty) !in t
    ensures Mirrors(t', WithList(b, naughty, list))
    ensures BoxOf(naughty) in t' <==> BoxOf(naughty) in t
  {
    assert BoxesHold(t, b);
    hide Mirrors, BoxesHold, Apply, Refused, AppCommand, Listing, SameExcept;
    AppBoxed(t, b, naughty, add, uid, t', list);
    BoxFrame(t, t', b, WithList(b, naughty, list));
  }

  lemma NoBoxNoEdit(t: Table, naughty: bool, add: bool, uid: int)
    ensures BoxOf(naughty) !in t ==> Apply(t, AppCommand(naughty, add, uid)) == t
  {
  }

  // -------------------------------------------------------------- global alert

  lemma ForwardLeadsNowhere(t: Table, b: Books)
    requires ForwardHolds(t, b)
    ensures BwForward in t && LeadsNowhere(t[BwForward])
  {
  }

  lemma SharedLeadsNowhere(t: Table, b: Books)
    requires SharedHolds(t, b)
    ensures BwCostly(SHARED) in t && LeadsNowhere(t[BwCostly(SHARED)])
  {
  }

  /** Editing only bw_INPUT, bw_OUTPUT and bw_FORWARD for the global alert. */
  lemma AlertFrame(t: Table, t': Table, b: Books, b': Books)
    requires Mirrors(t, b) && SameExcept(t, t', {BwInput, BwOutput, BwForward})
    requires b' == b.(globalAlert := b'.globalAlert, tetherCount := b'.tetherCount)
    requires LedgersHold(t', b') && ForwardHolds(t', b')
    ensures Mirrors(t', b')
  {
    hide LedgersHold, ForwardHolds, BoxesHold, SharedHolds, OwnChainsHold, NoStrayJumps, ListsHold, SameExcept,
         LeadsNowhere;
    ForwardLeadsNowhere(t', b');
    AlertNeedsQuota(b);
    SameLists(b, b');
    var touched := {BwInput, BwOutput, BwForward};
    SameBoxes(t, t', b, b', touched);
    SameShared(t, t', b, b', touched);
    SameOwn(t, t', b, b', touched);
    SameStrays(t, t', touched);
  }

  lemma GlobalAlertOn(t0: Table, t1: Table, t2: Table, t3: Table, b: Books, bytes: int)
    requires Mirrors(t0, b) && b.globalAlert == 0 && bytes != 0
    requires t1 == Apply(t0, Insert(BwInput, 1, ALERT))
    requires t2 == Apply(t1, Insert(BwOutput, 1, ALERT))
    requires t3 == if b.tetherCount != 0 then Apply(t2, Insert(BwForward, 1, ALERT)) else t2
    ensures !Refused(t0, Insert(BwInput, 1, ALERT)) && !Refused(t1, Insert(BwOutput, 1, ALERT))
    ensures b.tetherCount != 0 ==> !Refused(t2, Insert(BwForward, 1, ALERT))
    ensures Mirrors(t3, b.(globalAlert := bytes))
  {
    LedgerAlert(false, b.jumps);
    LedgerAlert(true, b.jumps);
    hide Ledger, BoxesHold, SharedHolds, OwnChainsHold, NoStrayJumps, ListsHold;
    assert t1[BwInput] == [ALERT] + t0[BwInput];
    assert t2[BwOutput] == [ALERT] + t0[BwOutput];
    AlertFrame(t0, t3, b, b.(globalAlert := bytes));
  }

  /** Another value for an alert that is set changes no rule. */
  lemma AlertReset(t: Table, b: Books, bytes: int)
    requires Mirrors(t, b) && b.globalAlert != 0 && bytes != 0
    ensures Mirrors(t, b.(globalAlert := bytes))
  {
    hide Ledger, BoxesHold, SharedHolds, OwnChainsHold, NoStrayJumps, ListsHold;
    AlertFrame(t, t, b, b.(globalAlert := bytes));
  }

  lemma GlobalAlertOff(t0: Table, t1: Table, t2: Table, t3: Table, b: Books)
    requires Mirrors(t0, b) && b.globalAlert != 0
    requires t1 == Apply(t0, Delete(BwInput, ALERT))
    requires t2 == Apply(t1, Delete(BwOutput, ALERT))
    requires t3 == if b.tetherCount != 0 then Apply(t2, Delete(BwForward, ALERT)) else t2
    ensures !Refused(t0, Delete(BwInput, ALERT)) && !Refused(t1, Delete(BwOutput, ALERT))
    ensures b.tetherCount != 0 ==> !Refused(t2, Delete(BwForward, ALERT))
    ensures Mirrors(t3, b.(globalAlert := 0))
  {
    LedgerAlert(false, b.jumps);
    LedgerAlert(true, b.jumps);
    WithoutFirst(ALERT, []);
    assert [ALERT] + [] == [ALERT];
    assert LedgersHold(t0, b) && ForwardHolds(t0, b);
    hide Mirrors, Ledger, Without;
    assert LedgersHold(t3, b.(globalAlert := 0)) && ForwardHolds(t3, b.(globalAlert := 0));
    assert SameExcept(t0, t3, {BwInput, BwOutput, BwForward});
    hide LedgersHold, ForwardHolds, SameExcept;
    AlertFrame(t0, t3, b, b.(globalAlert := 0));
  }

  lemma TethersCounted(t: Table, b: Books)
    requires Mirrors(t, b)
    ensures b.tetherCount >= 0
  {
  }

  /** The first tethering brings the alert into bw_FORWARD, the last takes it out. */
  lemma TetherCounted(t: Table, b: Books, count: int, t': Table)
    requires Mirrors(t, b) && count >= 0 && (count == b.tetherCount + 1 || count == b.tetherCount - 1)
    requires t' == if b.globalAlert == 0 then t
                   else if count == 1 && b.tetherCount == 0 then Apply(t, Insert(BwForward, 1, ALERT))
                   else if count == 0 then Apply(t, Delete(BwForward, ALERT))
                   else t
    ensures b.globalAlert != 0 && count == 1 && b.tetherCount == 0 ==> !Refused(t, Insert(BwForward, 1, ALERT))
    ensures b.globalAlert != 0 && count == 0 ==> !Refused(t, Delete(BwForward, ALERT))
    ensures Mirrors(t', b.(tetherCount := count))
  {
    assert Without([ALERT], ALERT) == [];
    hide Ledger, Without, BoxesHold, SharedHolds, OwnChainsHold, NoStrayJumps, ListsHold;
    AlertFrame(t, t', b, b.(tetherCount := count));
  }

  // -------------------------------------------------------------- quota alerts

  predicate QuotaExists(t: Table, name: string) {
    exists c :: c in t && exists r :: r in t[c] && r.when == OverQuota(name)
  }

  /** Every tracked quota, and every alert that is set, has its counter. */
  lemma QuotasExist(t: Table, b: Books)
    requires Mirrors(t, b)
    ensures b.globalAlert != 0 ==> QuotaExists(t, GLOBAL_ALERT)
    ensures b.sharedQuota != 0 ==> QuotaExists(t, SHARED)
    ensures b.sharedAlert != 0 ==> QuotaExists(t, AlertName(SHARED))
    ensures forall i :: 0 <= i < |b.quotas| ==>
              && QuotaExists(t, b.quotas[i].iface)
              && (b.quotas[i].alert != 0 ==> QuotaExists(t, AlertName(b.quotas[i].iface)))
  {
    hide AlertName, Jumps, BoxesHold, NoStrayJumps, ListsHold;
    if b.globalAlert != 0 {
      assert ALERT in t[BwInput];
    }
    if b.sharedQuota != 0 {
      assert QuotaRule(SHARED) in t[BwCostly(SHARED)];
    }
    if b.sharedAlert != 0 {
      assert AlertRule(SHARED) in t[BwCostly(SHARED)];
    }
    forall i | 0 <= i < |b.quotas|
      ensures QuotaExists(t, b.quotas[i].iface)
      ensures b.quotas[i].alert != 0 ==> QuotaExists(t, AlertName(b.quotas[i].iface))
    {
      assert OwnHolds(t, b.quotas[i]);
      assert QuotaRule(b.quotas[i].iface) in t[BwCostly(b.quotas[i].iface)];
      if b.quotas[i].alert != 0 {
        assert AlertRule(b.quotas[i].iface) in t[BwCostly(b.quotas[i].iface)];
      }
    }
  }

  lemma NamesKnown()
    ensures IfaceName(SHARED) && IfaceName(GLOBAL_ALERT) && IfaceName(AlertName(SHARED))
  {
  }

  /** An alert's name is a valid name only if the interface's leaves room for the suffix. */
  lemma AlertNameFits(iface: string)
    requires IfaceName(iface)
    ensures IfaceName(AlertName(iface)) <==> |iface| <= MAX_NAME - 5
  {
    var name := AlertName(iface);
    assert forall i :: 0 <= i < |iface| ==> name[i] == iface[i];
    assert name[|iface|..] == "Alert";
    assert forall i :: |iface| <= i < |name| ==> name[i] == name[|iface|..][i - |iface|];
  }

  /** No interface has two quotas of its own, and none is called "shared". */
  lemma {:induction false} OwnDistinct(jumps: seq<Costly>)
    requires Tidy(jumps)
    ensures SHARED !in OwnOf(jumps)
    ensures forall i, k :: 0 <= i < k < |OwnOf(jumps)| ==> OwnOf(jumps)[i] != OwnOf(jumps)[k]
  {
    if jumps != [] {
      var rest := jumps[1..];
      OwnDistinct(rest);
      OwnMember(rest, jumps[0].iface);
      assert jumps[0] in jumps;
      assert jumps[0] !in rest;
    }
  }

  lemma QuotasDistinct(b: Books)
    requires ListsHold(b)
    ensures forall i :: 0 <= i < |b.quotas| ==> b.quotas[i].iface != SHARED
    ensures forall i, k :: 0 <= i < |b.quotas| && 0 <= k < |b.quotas| && i != k ==>
              b.quotas[i].iface != b.quotas[k].iface
  {
    OwnDistinct(b.jumps);
    var names := Names(b.quotas);
    assert forall i :: 0 <= i < |b.quotas| ==> names[i] == b.quotas[i].iface && names[i] in names;
  }

  /** Editing only bw_costly_shared for its alert. */
  lemma SharedFrame(t: Table, t': Table, b: Books, b': Books)
    requires Mirrors(t, b) && SameExcept(t, t', {BwCostly(SHARED)})
    requires b' == b.(sharedAlert := b'.sharedAlert) && (b'.sharedAlert != 0 ==> b.sharedQuota != 0)
    requires SharedHolds(t', b')
    ensures Mirrors(t', b')
  {
    hide LedgersHold, ForwardHolds, BoxesHold, SharedHolds, OwnChainsHold, NoStrayJumps, ListsHold, SameExcept,
         LeadsNowhere;
    QuotasDistinct(b);
    SameLists(b, b');
    SharedLeadsNowhere(t', b');
    var touched := {BwCostly(SHARED)};
    SameLedgers(t, t', b, b', touched);
    SameForward(t, t', b, b', touched);
    SameBoxes(t, t', b, b', touched);
    SameOwn(t, t', b, b', touched);
    SameStrays(t, t', touched);
  }

  lemma SharedAlertEdits(quota: bool)
    ensures SharedChain(quota, false) + [AlertRule(SHARED)] == SharedChain(quota, true)
    ensures AlertRule(SHARED) in SharedChain(quota, true)
    ensures Without(SharedChain(quota, true), AlertRule(SHARED)) == SharedChain(quota, false)
  {
    var front := SharedChain(quota, false);
    assert SharedChain(quota, true) == front + [AlertRule(SHARED)];
    assert AlertRule(SHARED) !in front;
    hide SharedChain, AlertRule;
    WithoutSkips(front, AlertRule(SHARED), [AlertRule(SHARED)]);
    WithoutFirst(AlertRule(SHARED), []);
    assert [AlertRule(SHARED)] + [] == [AlertRule(SHARED)];
    assert front + [] == front;
  }

  lemma SharedAlertEdited(t: Table, b: Books, bytes: int, t': Table)
    requires Mirrors(t, b) && (bytes != 0 ==> b.sharedQuota != 0)
    requires t' == if bytes == 0 && b.sharedAlert != 0 then Apply(t, Delete(BwCostly(SHARED), AlertRule(SHARED)))
                   else if bytes != 0 && b.sharedAlert == 0 then Apply(t, Append(BwCostly(SHARED), AlertRule(SHARED)))
                   else t
    ensures bytes == 0 && b.sharedAlert != 0 ==> !Refused(t, Delete(BwCostly(SHARED), AlertRule(SHARED)))
    ensures bytes != 0 && b.sharedAlert == 0 ==> !Refused(t, Append(BwCostly(SHARED), AlertRule(SHARED)))
    ensures Mirrors(t', b.(sharedAlert := bytes))
  {
    SharedAlertEdits(b.sharedQuota != 0);
    assert TargetKnown(t.Keys, AlertRule(SHARED));
    hide SharedChain, AlertRule, Without, LedgersHold, ForwardHolds, BoxesHold, OwnChainsHold, NoStrayJumps, ListsHold;
    SharedFrame(t, t', b, b.(sharedAlert := bytes));
  }

  function WithAlert(b: Books, k: nat, bytes: int): Books
    requires k < |b.quotas|
  {
    b.(quotas := b.quotas[k := b.quotas[k].(alert := bytes)])
  }

  lemma AlertKeepsNames(b: Books, k: nat, bytes: int)
    requires k < |b.quotas|
    ensures Names(WithAlert(b, k, bytes).quotas) == Names(b.quotas)
  {
  }

  lemma WithAlertHolds(t: Table, t': Table, b: Books, k: nat, bytes: int)
    requires ListsHold(b) && OwnChainsHold(t, b) && k < |b.quotas| && SameExcept(t, t', {BwCostly(b.quotas[k].iface)})
    requires OwnHolds(t', b.quotas[k].(alert := bytes))
    ensures ListsHold(WithAlert(b, k, bytes)) && OwnChainsHold(t', WithAlert(b, k, bytes))
    ensures LeadsNowhere(t'[BwCostly(b.quotas[k].iface)])
    ensures BwCostly(b.quotas[k].iface) != BwCostly(SHARED)
  {
    hide Names, OwnChain, LeadsNowhere;
    var b' := WithAlert(b, k, bytes);
    QuotasDistinct(b);
    AlertKeepsNames(b, k, bytes);
    OwnLeadsNowhere(b.quotas[k].iface, bytes != 0);
    forall i | 0 <= i < |b'.quotas|
      ensures OwnHolds(t', b'.quotas[i])
    {
      assert OwnHolds(t, b.quotas[i]);
    }
  }

  /** Editing only the chain of one interface for its alert. */
  lemma OwnFrame(t: Table, t': Table, b: Books, k: nat, bytes: int)
    requires Mirrors(t, b) && k < |b.quotas| && SameExcept(t, t', {BwCostly(b.quotas[k].iface)})
    requires OwnHolds(t', b.quotas[k].(alert := bytes))
    ensures Mirrors(t', WithAlert(b, k, bytes))
  {
    var b' := WithAlert(b, k, bytes);
    assert ListsHold(b) && OwnChainsHold(t, b) && BwCostly(b.quotas[k].iface) in t';
    hide LedgersHold, ForwardHolds, BoxesHold, SharedHolds, OwnChainsHold, NoStrayJumps, ListsHold, SameExcept,
         LeadsNowhere, OwnHolds;
    WithAlertHolds(t, t', b, k, bytes);
    var touched := {BwCostly(b.quotas[k].iface)};
    SameLedgers(t, t', b, b', touched);
    SameForward(t, t', b, b', touched);
    SameBoxes(t, t', b, b', touched);
    SameShared(t, t', b, b', touched);
    SameStrays(t, t', touched);
  }

  lemma OwnAlertEdits(iface: string)
    ensures OwnChain(iface, false) + [AlertRule(iface)] == OwnChain(iface, true)
    ensures AlertRule(iface) in OwnChain(iface, true)
    ensures Without(OwnChain(iface, true), AlertRule(iface)) == OwnChain(iface, false)
  {
    var front := OwnChain(iface, false);
    assert OwnChain(iface, true) == front + [AlertRule(iface)];
    assert AlertRule(iface) !in front;
    hide OwnChain, AlertRule;
    WithoutSkips(front, AlertRule(iface), [AlertRule(iface)]);
    WithoutFirst(AlertRule(iface), []);
    assert [AlertRule(iface)] + [] == [AlertRule(iface)];
    assert front + [] == front;
  }

  lemma OwnAlertEdited(t: Table, b: Books, k: nat, bytes: int, t': Table)
    requires Mirrors(t, b) && k < |b.quotas|
    requires var q := b.quotas[k];
             t' == if bytes == 0 && q.alert != 0 then Apply(t, Delete(BwCostly(q.iface), AlertRule(q.iface)))
                   else if bytes != 0 && q.alert == 0 then Apply(t, Append(BwCostly(q.iface), AlertRule(q.iface)))
                   else t
    ensures bytes == 0 && b.quotas[k].alert != 0 ==>
              !Refused(t, Delete(BwCostly(b.quotas[k].iface), AlertRule(b.quotas[k].iface)))
    ensures bytes != 0 && b.quotas[k].alert == 0 ==>
              !Refused(t, Append(BwCostly(b.quotas[k].iface), AlertRule(b.quotas[k].iface)))
    ensures Mirrors(t', WithAlert(b, k, bytes))
  {
    var q := b.quotas[k];
    OwnAlertEdits(q.iface);
    assert OwnHolds(t, q);
    assert TargetKnown(t.Keys, AlertRule(q.iface));
    hide OwnChain, AlertRule, Without, LedgersHold, ForwardHolds, BoxesHold, OwnChainsHold, SharedHolds, NoStrayJumps,
         ListsHold;
    OwnFrame(t, t', b, k, bytes);
  }

  // ------------------------------------------------------------------- quotas

  /** The tables with both ledgers rewritten for other jumps. */
  function Rejumped(t: Table, b: Books, jumps: seq<Costly>): (r: Table) {
    t[BwInput := Ledger(false, b.globalAlert != 0, jumps)][BwOutput := Ledger(true, b.globalAlert != 0, jumps)]
  }

  /** What prepCostlyIface() inserts: after the alert, if there is one. */
  function InsertJump(out: bool, b: Books, j: Costly): Command {
    Insert(if out then BwOutput else BwInput, if b.globalAlert != 0 then 2 else 1, JumpRule(out, j))
  }

  function DeleteJump(out: bool, j: Costly): Command {
    Delete(if out then BwOutput else BwInput, JumpRule(out, j))
  }

  lemma {:induction false} JumpPrepared(t0: Table, t1: Table, t2: Table, b: Books, out: bool, j: Costly)
    requires BwCostly(j.cost) in t0
    requires var c := if out then BwOutput else BwInput; c in t0 && t0[c] == Ledger(out, b.globalAlert != 0, b.jumps)
    requires t1 == Apply(t0, DeleteJump(out, j))
    requires t2 == Apply(t1, InsertJump(out, b, j))
    ensures !Refused(t1, InsertJump(out, b, j))
    ensures t2 == t0[(if out then BwOutput else BwInput) := Ledger(out, b.globalAlert != 0, [j] + Without(b.jumps, j))]
  {
    LedgerMember(out, b.globalAlert != 0, b.jumps, j);
    if j in b.jumps {
      LedgerDelete(out, b.globalAlert != 0, b.jumps, j);
    } else {
      WithoutAbsent(b.jumps, j);
    }
    LedgerInsert(out, b.globalAlert != 0, Without(b.jumps, j), j);
    hide Ledger, Without;
  }

  /** The tentative delete makes room: afterwards the jump is there once, in front of the others. */
  lemma {:induction false} JumpsPrepared(t0: Table, t1: Table, t2: Table, t3: Table, t4: Table, b: Books, j: Costly)
    requires LedgersHold(t0, b) && BwCostly(j.cost) in t0
    requires t1 == Apply(t0, DeleteJump(false, j))
    requires t2 == Apply(t1, InsertJump(false, b, j))
    requires t3 == Apply(t2, DeleteJump(true, j))
    requires t4 == Apply(t3, InsertJump(true, b, j))
    ensures !Refused(t1, InsertJump(false, b, j)) && !Refused(t3, InsertJump(true, b, j))
    ensures t4 == Rejumped(t0, b, [j] + Without(b.jumps, j))
  {
    hide Ledger, Without, Apply, Refused, DeleteJump, InsertJump;
    JumpPrepared(t0, t1, t2, b, false, j);
    JumpPrepared(t2, t3, t4, b, true, j);
  }

  lemma JumpsGone(t0: Table, t1: Table, t2: Table, j: Costly)
    requires t1 == Apply(t0, DeleteJump(false, j)) && t2 == Apply(t1, DeleteJump(true, j))
    ensures SameExcept(t0, t2, {BwInput, BwOutput})
  {
    hide Without;
  }

  lemma SharedRuleGone(t: Table, t1: Table, cmd: Command)
    requires cmd.Delete? && cmd.chain == BwCostly(SHARED)
    requires SameExcept(t, t1, {BwInput, BwOutput}) || SameExcept(t, t1, {BwInput, BwOutput, BwCostly(SHARED)})
    ensures SameExcept(t, Apply(t1, cmd), {BwInput, BwOutput, BwCostly(SHARED)})
    ensures SameExcept(t, t1, {BwInput, BwOutput, BwCostly(SHARED)})
  {
  }

  /** A ledger takes a jump unless it is missing, or is empty while the jump has to go second. */
  predicate TakesJump(t: Table, out: bool, alert: bool, j: Costly) {
    var c := if out then BwOutput else BwInput;
    c in t && (alert ==> Deleted(t[c], JumpRule(out, j)) != [])
  }

  /** When prepCostlyIface() works: an own chain starts with a jump to the penalty box, and both ledgers take the
      jump. */
  predicate CanPrepare(t: Table, alert: bool, j: Costly, shared: bool) {
    && (if shared then BwCostly(j.cost) in t else BwPenaltyBox in t)
    && TakesJump(t, false, alert, j) && TakesJump(t, true, alert, j)
  }

  /** How an own chain starts. */
  function Started(t: Table): seq<Rule> {
    if BwPenaltyBox in t then [TO_PENALTY] else []
  }

  /** What it makes of the costly chains. */
  function Prepared(t: Table, cost: string, shared: bool): Table {
    if shared then t else t[BwCostly(cost) := Started(t)]
  }

  lemma JumpPlaced(t0: Table, t1: Table, t2: Table, b: Books, out: bool, j: Costly)
    requires t1 == Apply(t0, DeleteJump(out, j))
    requires t2 == Apply(t1, InsertJump(out, b, j))
    ensures SameExcept(t0, t2, {if out then BwOutput else BwInput})
    ensures !Refused(t1, InsertJump(out, b, j)) <==> BwCostly(j.cost) in t0 && TakesJump(t0, out, b.globalAlert != 0, j)
  {
    hide Without;
    var c := if out then BwOutput else BwInput;
    assert t1 == if c in t0 then t0[c := Deleted(t0[c], JumpRule(out, j))] else t0;
  }

  /** The edits of the ledgers, whatever is in them. */
  lemma JumpsPlaced(t: Table, t0: Table, t1: Table, t2: Table, t3: Table, t4: Table, b: Books, j: Costly, shared: bool)
    requires t0 == Prepared(t, j.cost, shared)
    requires t1 == Apply(t0, DeleteJump(false, j))
    requires t2 == Apply(t1, InsertJump(false, b, j))
    requires t3 == Apply(t2, DeleteJump(true, j))
    requires t4 == Apply(t3, InsertJump(true, b, j))
    ensures SameExcept(Prepared(t, j.cost, shared), t4, {BwInput, BwOutput})
    ensures CanPrepare(t, b.globalAlert != 0, j, shared) <==>
            && (shared || BwPenaltyBox in t)
            && !Refused(t1, InsertJump(false, b, j)) && !Refused(t3, InsertJump(true, b, j))
  {
    hide Apply, Refused, DeleteJump, InsertJump, Deleted;
    JumpPlaced(t0, t1, t2, b, false, j);
    JumpPlaced(t2, t3, t4, b, true, j);
  }

  lemma JumpsCleared(t0: Table, t1: Table, t2: Table, b: Books, j: Costly)
    requires LedgersHold(t0, b) && j in b.jumps
    requires t1 == Apply(t0, DeleteJump(false, j))
    requires t2 == Apply(t1, DeleteJump(true, j))
    ensures !Refused(t0, DeleteJump(false, j)) && !Refused(t1, DeleteJump(true, j))
    ensures t2 == Rejumped(t0, b, Without(b.jumps, j))
  {
    LedgerMember(false, b.globalAlert != 0, b.jumps, j);
    LedgerMember(true, b.globalAlert != 0, b.jumps, j);
    LedgerDelete(false, b.globalAlert != 0, b.jumps, j);
    LedgerDelete(true, b.globalAlert != 0, b.jumps, j);
    hide Ledger, Without;
  }

  /** Editing the ledgers and the shared chain. */
  lemma SharedQuotaFrame(t: Table, t': Table, b: Books, b': Books)
    requires Mirrors(t, b) && SameExcept(t, t', {BwInput, BwOutput, BwCostly(SHARED)})
    requires b'.globalAlert == b.globalAlert && b'.tetherCount == b.tetherCount
    requires b'.naughty == b.naughty && b'.nice == b.nice && b'.happy == b.happy && b'.quotas == b.quotas
    requires LedgersHold(t', b') && ListsHold(b') && SharedHolds(t', b')
    requires BwCostly(SHARED) in t' && LeadsNowhere(t'[BwCostly(SHARED)])
    ensures Mirrors(t', b')
  {
    hide LedgersHold, ForwardHolds, BoxesHold, SharedHolds, OwnChainsHold, NoStrayJumps, ListsHold, SameExcept,
         LeadsNowhere;
    var touched := {BwInput, BwOutput, BwCostly(SHARED)};
    QuotasDistinct(b);
    SameForward(t, t', b, b', touched);
    SameBoxes(t, t', b, b', touched);
    SameStrays(t, t', touched);
    SameOwn(t, t', b, b', touched);
  }

  /** Editing the ledgers and the chain of one interface. */
  lemma OwnQuotaFrame(t: Table, t': Table, b: Books, b': Books, iface: string)
    requires Mirrors(t, b) && SameExcept(t, t', {BwInput, BwOutput, BwCostly(iface)}) && iface != SHARED
    requires b'.globalAlert == b.globalAlert && b'.tetherCount == b.tetherCount
    requires b'.naughty == b.naughty && b'.nice == b.nice && b'.happy == b.happy
    requires b'.sharedQuota == b.sharedQuota && b'.sharedAlert == b.sharedAlert
    requires LedgersHold(t', b') && ListsHold(b') && OwnChainsHold(t', b')
    requires BwCostly(iface) in t' ==> LeadsNowhere(t'[BwCostly(iface)])
    ensures Mirrors(t', b')
  {
    hide LedgersHold, ForwardHolds, BoxesHold, SharedHolds, OwnChainsHold, NoStrayJumps, ListsHold, SameExcept,
         LeadsNowhere;
    var touched := {BwInput, BwOutput, BwCostly(iface)};
    SameForward(t, t', b, b', touched);
    SameBoxes(t, t', b, b', touched);
    SameStrays(t, t', touched);
    SameShared(t, t', b, b', touched);
  }

  lemma LedgersRewritten(t: Table, b: Books, t1: Table, t': Table, b': Books, cost: string)
    requires t1 == Rejumped(t, b, b'.jumps) && SameExcept(t1, t', {BwCostly(cost)})
    requires b'.globalAlert == b.globalAlert
    ensures LedgersHold(t', b') && SameExcept(t, t', {BwInput, BwOutput, BwCostly(cost)})
  {
    hide Ledger;
  }

  function AddShared(b: Books, iface: string, bytes: int): Books {
    b.(shared := [iface] + b.shared, jumps := [Costly(iface, SHARED)] + b.jumps,
       sharedQuota := if b.shared == [] then bytes else b.sharedQuota)
  }

  lemma SharedQuotaEdits(alert: bool)
    ensures [QuotaRule(SHARED)] + SharedChain(false, alert) == SharedChain(true, alert)
    ensures QuotaRule(SHARED) in SharedChain(true, alert)
    ensures Without(SharedChain(true, alert), QuotaRule(SHARED)) == SharedChain(false, alert)
    ensures forall quota :: LeadsNowhere(SharedChain(quota, alert))
  {
    assert SharedChain(true, alert)[0] == QuotaRule(SHARED);
    assert SharedChain(true, alert)[1..] == SharedChain(false, alert);
  }

  lemma AddSharedLists(b: Books, iface: string, bytes: int)
    requires ListsHold(b) && iface !in b.shared && bytes != 0
    ensures ListsHold(AddShared(b, iface, bytes))
    ensures Costly(iface, SHARED) !in b.jumps
    ensures b.shared == [] ==> b.sharedQuota == 0 && b.sharedAlert == 0
  {
    SharedMember(b.jumps, iface);
    StaysTidy(b.jumps, Costly(iface, SHARED));
    assert ([Costly(iface, SHARED)] + b.jumps)[1..] == b.jumps;
  }

  lemma SharedChainAdded(t: Table, b: Books, iface: string, bytes: int, t1: Table, t2: Table)
    requires SharedHolds(t, b) && (b.shared == [] ==> b.sharedQuota == 0) && bytes != 0
    requires t1 == Rejumped(t, b, [Costly(iface, SHARED)] + b.jumps)
    requires t2 == if b.shared == [] then Apply(t1, Insert(BwCostly(SHARED), 1, QuotaRule(SHARED))) else t1
    ensures b.shared == [] ==> !Refused(t1, Insert(BwCostly(SHARED), 1, QuotaRule(SHARED)))
    ensures SharedHolds(t2, AddShared(b, iface, bytes)) && LeadsNowhere(t2[BwCostly(SHARED)])
    ensures SameExcept(t1, t2, {BwCostly(SHARED)})
  {
    SharedQuotaEdits(b.sharedAlert != 0);
    hide Ledger, SharedChain, LeadsNowhere;
  }

  /** The first interface on the shared quota also installs it. */
  lemma SharedAdded(t: Table, b: Books, iface: string, bytes: int, t1: Table, t2: Table)
    requires Mirrors(t, b) && iface !in b.shared && bytes != 0
    requires t1 == Rejumped(t, b, [Costly(iface, SHARED)] + b.jumps)
    requires t2 == if b.shared == [] then Apply(t1, Insert(BwCostly(SHARED), 1, QuotaRule(SHARED))) else t1
    ensures b.shared == [] ==> !Refused(t1, Insert(BwCostly(SHARED), 1, QuotaRule(SHARED)))
    ensures Mirrors(t2, AddShared(b, iface, bytes))
  {
    assert ListsHold(b) && SharedHolds(t, b);
    hide Mirrors, Ledger, ListsHold, LeadsNowhere, SharedHolds, SameExcept, Apply, Refused, Rejumped;
    AddSharedLists(b, iface, bytes);
    SharedChainAdded(t, b, iface, bytes, t1, t2);
    LedgersRewritten(t, b, t1, t2, AddShared(b, iface, bytes), SHARED);
    SharedQuotaFrame(t, t2, b, AddShared(b, iface, bytes));
  }

  /** The last interface on the shared quota takes the quota and its alert along. */
  function DropShared(b: Books, iface: string): Books {
    var rest := Without(b.shared, iface);
    b.(shared := rest, jumps := Without(b.jumps, Costly(iface, SHARED)),
       sharedQuota := if rest == [] then 0 else b.sharedQuota,
       sharedAlert := if rest == [] then 0 else b.sharedAlert)
  }

  lemma DropSharedLists(b: Books, iface: string)
    requires ListsHold(b) && iface in b.shared
    ensures ListsHold(DropShared(b, iface))
    ensures Costly(iface, SHARED) in b.jumps && b.sharedQuota != 0
  {
    SharedMember(b.jumps, iface);
    SharedRemoved(b.jumps, iface);
    StaysTidy(b.jumps, Costly(iface, SHARED));
  }

  lemma DropSharedFields(b: Books, iface: string)
    ensures DropShared(b, iface) == b.(shared := DropShared(b, iface).shared, jumps := DropShared(b, iface).jumps,
                                       sharedQuota := if DropShared(b, iface).shared == [] then 0 else b.sharedQuota,
                                       sharedAlert := if DropShared(b, iface).shared == [] then 0 else b.sharedAlert)
    ensures DropShared(b, iface).shared == Without(b.shared, iface)
    ensures DropShared(b, iface).jumps == Without(b.jumps, Costly(iface, SHARED))
  {
  }

  /** The shared chain once the last interface is gone, or unchanged. */
  lemma SharedChainDropped(t: Table, b: Books, b': Books, t1: Table, t2: Table, t3: Table)
    requires SharedHolds(t, b) && b.sharedQuota != 0
    requires b'.sharedQuota == (if b'.shared == [] then 0 else b.sharedQuota)
    requires b'.sharedAlert == (if b'.shared == [] then 0 else b.sharedAlert)
    requires t1 == Rejumped(t, b, b'.jumps)
    requires t2 == if b'.shared == [] then Apply(t1, Delete(BwCostly(SHARED), QuotaRule(SHARED))) else t1
    requires t3 == if b'.shared != [] || b.sharedAlert == 0 then t2
                   else Apply(t2, Delete(BwCostly(SHARED), AlertRule(SHARED)))
    ensures b'.shared == [] ==> !Refused(t1, Delete(BwCostly(SHARED), QuotaRule(SHARED)))
    ensures SharedHolds(t3, b') && LeadsNowhere(t3[BwCostly(SHARED)])
    ensures SameExcept(t1, t3, {BwCostly(SHARED)})
  {
    SharedQuotaEdits(b.sharedAlert != 0);
    SharedQuotaEdits(false);
    SharedAlertEdits(false);
    hide Ledger, SharedChain, AlertRule, QuotaRule, Without, LeadsNowhere;
  }

  lemma SharedDropped(t: Table, b: Books, iface: string, t1: Table, t2: Table, t3: Table)
    requires Mirrors(t, b) && iface in b.shared
    requires t1 == Rejumped(t, b, DropShared(b, iface).jumps)
    requires t2 == if DropShared(b, iface).shared != [] then t1
                   else Apply(t1, Delete(BwCostly(SHARED), QuotaRule(SHARED)))
    requires t3 == if DropShared(b, iface).shared == [] && b.sharedAlert != 0
                   then Apply(t2, Delete(BwCostly(SHARED), AlertRule(SHARED))) else t2
    ensures DropShared(b, iface).shared == [] ==> !Refused(t1, Delete(BwCostly(SHARED), QuotaRule(SHARED)))
    ensures Mirrors(t3, DropShared(b, iface))
  {
    assert ListsHold(b) && SharedHolds(t, b);
    hide Mirrors, Ledger, Apply, Refused, SharedHolds, ListsHold, LeadsNowhere, SameExcept, DropShared, QuotaRule,
         AlertRule;
    DropSharedLists(b, iface);
    SharedChainDropped(t, b, DropShared(b, iface), t1, t2, t3);
    DropSharedFields(b, iface);
    LedgersRewritten(t, b, t1, t3, DropShared(b, iface), SHARED);
    SharedQuotaFrame(t, t3, b, DropShared(b, iface));
  }

  function AddOwn(b: Books, iface: string, bytes: int): Books {
    b.(quotas := [QuotaInfo(iface, bytes, 0)] + b.quotas, jumps := [Costly(iface, iface)] + b.jumps)
  }

  /** A costly chain is flushed or created, whichever it needs, and starts with the penalty box, if there is one. */
  lemma ChainPrepared(t0: Table, t1: Table, t2: Table, t3: Table, cost: string)
    requires t1 == Apply(t0, Flush(BwCostly(cost)))
    requires t2 == Apply(t1, NewChain(BwCostly(cost)))
    requires t3 == Apply(t2, Append(BwCostly(cost), TO_PENALTY))
    ensures Refused(t0, Flush(BwCostly(cost))) != Refused(t1, NewChain(BwCostly(cost)))
    ensures Refused(t2, Append(BwCostly(cost), TO_PENALTY)) <==> BwPenaltyBox !in t0
    ensures t3 == Prepared(t0, cost, false)
  {
    assert t2 == t0[BwCostly(cost) := []];
    assert [] + [TO_PENALTY] == [TO_PENALTY];
  }

  lemma OwnLeadsNowhere(iface: string, alert: bool)
    ensures LeadsNowhere(OwnChain(iface, alert))
  {
  }

  lemma AddOwnLists(b: Books, iface: string, bytes: int)
    requires ListsHold(b) && iface !in Names(b.quotas) && iface != SHARED
    ensures ListsHold(AddOwn(b, iface, bytes))
    ensures Costly(iface, iface) !in b.jumps
  {
    OwnMember(b.jumps, iface);
    StaysTidy(b.jumps, Costly(iface, iface));
    assert ([Costly(iface, iface)] + b.jumps)[1..] == b.jumps;
    assert ([QuotaInfo(iface, bytes, 0)] + b.quotas)[1..] == b.quotas;
  }

  lemma AddOwnChains(t: Table, t': Table, b: Books, iface: string, bytes: int)
    requires OwnChainsHold(t, b) && iface !in Names(b.quotas)
    requires SameExcept(t, t', {BwInput, BwOutput, BwCostly(iface)})
    requires BwCostly(iface) in t' && t'[BwCostly(iface)] == OwnChain(iface, false)
    ensures OwnChainsHold(t', AddOwn(b, iface, bytes))
  {
    var b' := AddOwn(b, iface, bytes);
    forall i | 0 <= i < |b'.quotas|
      ensures OwnHolds(t', b'.quotas[i])
    {
      if i > 0 {
        assert Names(b.quotas)[i - 1] in Names(b.quotas);
        assert OwnHolds(t, b.quotas[i - 1]);
      }
    }
  }

  lemma OwnAdded(t: Table, b: Books, iface: string, bytes: int, t1: Table, t2: Table, t3: Table)
    requires Mirrors(t, b) && iface !in Names(b.quotas) && iface != SHARED
    requires t1 == t[BwCostly(iface) := [TO_PENALTY]]
    requires t2 == Rejumped(t1, b, [Costly(iface, iface)] + b.jumps)
    requires t3 == Apply(t2, Append(BwCostly(iface), QuotaRule(iface)))
    ensures !Refused(t2, Append(BwCostly(iface), QuotaRule(iface)))
    ensures Mirrors(t3, AddOwn(b, iface, bytes))
  {
    assert ListsHold(b) && OwnChainsHold(t, b);
    AddOwnLists(b, iface, bytes);
    OwnLeadsNowhere(iface, false);
    assert OwnChain(iface, false) == [TO_PENALTY] + [QuotaRule(iface)];
    assert TargetKnown(t2.Keys, QuotaRule(iface));
    hide Mirrors, Ledger, OwnChain, OwnChainsHold, ListsHold, LeadsNowhere, Names, QuotaRule, TargetKnown;
    AddOwnChains(t, t3, b, iface, bytes);
    OwnQuotaFrame(t, t3, b, AddOwn(b, iface, bytes), iface);
  }

  function DropOwn(b: Books, k: nat): Books
    requires k < |b.quotas|
  {
    b.(quotas := b.quotas[..k] + b.quotas[k + 1..],
       jumps := Without(b.jumps, Costly(b.quotas[k].iface, b.quotas[k].iface)))
  }

  lemma ErasedAt<T>(s: seq<T>, k: nat, i: nat)
    requires k < |s| && i < |s| - 1
    ensures (s[..k] + s[k + 1..])[i] == s[if i < k then i else i + 1]
  {
  }

  lemma ErasedIs<T>(s: seq<T>, k: nat, t: seq<T>)
    requires k < |s| && |t| == |s| - 1 && forall i :: 0 <= i < |t| ==> t[i] == s[if i < k then i else i + 1]
    ensures t == s[..k] + s[k + 1..]
  {
  }

  lemma NamesErased(quotas: seq<QuotaInfo>, k: nat)
    requires k < |quotas|
    ensures Names(quotas[..k] + quotas[k + 1..]) == Names(quotas)[..k] + Names(quotas)[k + 1..]
  {
    hide Names;
    var rest := quotas[..k] + quotas[k + 1..];
    forall i | 0 <= i < |rest|
      ensures Names(rest)[i] == Names(quotas)[if i < k then i else i + 1]
    {
      ErasedAt(quotas, k, i);
    }
    ErasedIs(Names(quotas), k, Names(rest));
  }

  lemma DropOwnLists(b: Books, k: nat)
    requires ListsHold(b) && k < |b.quotas|
    ensures ListsHold(DropOwn(b, k)) && b.quotas[k].iface != SHARED
    ensures Costly(b.quotas[k].iface, b.quotas[k].iface) in b.jumps
    ensures Costly(b.quotas[k].iface, b.quotas[k].iface) !in DropOwn(b, k).jumps
  {
    var iface := b.quotas[k].iface;
    var names := Names(b.quotas);
    OwnDistinct(b.jumps);
    hide Names, Without, SharedOf, OwnOf, Tidy;
    assert names[k] in names;
    OwnMember(b.jumps, iface);
    OwnRemoved(b.jumps, iface);
    StaysTidy(b.jumps, Costly(iface, iface));
    WithoutAt(names, iface, k);
    NamesErased(b.quotas, k);
  }

  lemma DropOwnChains(t: Table, t': Table, b: Books, k: nat)
    requires OwnChainsHold(t, b) && ListsHold(b) && k < |b.quotas|
    requires SameExcept(t, t', {BwInput, BwOutput, BwCostly(b.quotas[k].iface)})
    ensures OwnChainsHold(t', DropOwn(b, k))
  {
    var b' := DropOwn(b, k);
    QuotasDistinct(b);
    forall i | 0 <= i < |b'.quotas|
      ensures OwnHolds(t', b'.quotas[i])
    {
      var i' := if i < k then i else i + 1;
      assert b'.quotas[i] == b.quotas[i'];
      assert OwnHolds(t, b.quotas[i']);
    }
  }

  /** Once its jumps are gone, nothing refers to an interface's chain. */
  lemma ChainUnreferenced(t: Table, b: Books, iface: string)
    requires LedgersHold(t, b) && NoStrayJumps(t) && Tidy(b.jumps)
    requires iface != SHARED && Costly(iface, iface) !in b.jumps
    ensures !Referenced(t, BwCostly(iface))
  {
    JumpsOnly(false, b.jumps);
    JumpsOnly(true, b.jumps);
    hide Jumps;
    forall d, r | d in t && r in t[d]
      ensures !LeadsTo(r, BwCostly(iface))
    {
      if d == BwInput {
        assert r in Jumps(false, b.jumps) || r == ALERT || r == TRACK;
      } else if d == BwOutput {
        assert r in Jumps(true, b.jumps) || r == ALERT || r == TRACK;
      } else {
        assert !LeadsToCostly(r);
      }
    }
  }

  /** The interface's chain can be flushed and deleted. */
  lemma ChainDropped(t: Table, b: Books, b': Books, iface: string, t1: Table, t2: Table, t3: Table)
    requires NoStrayJumps(t) && BwCostly(iface) in t && Tidy(b'.jumps)
    requires iface != SHARED && Costly(iface, iface) !in b'.jumps && b'.globalAlert == b.globalAlert
    requires t1 == Rejumped(t, b, b'.jumps)
    requires t2 == Apply(t1, Flush(BwCostly(iface)))
    requires t3 == Apply(t2, DeleteChain(BwCostly(iface)))
    ensures !Refused(t1, Flush(BwCostly(iface))) && !Refused(t2, DeleteChain(BwCostly(iface)))
    ensures SameExcept(t1, t3, {BwCostly(iface)}) && BwCostly(iface) !in t3
  {
    hide Ledger, Referenced, Tidy;
    ChainUnreferenced(t2, b', iface);
  }

  lemma OwnDropped(t: Table, b: Books, k: nat, t1: Table, t2: Table, t3: Table)
    requires Mirrors(t, b) && k < |b.quotas|
    requires t1 == Rejumped(t, b, DropOwn(b, k).jumps)
    requires t2 == Apply(t1, Flush(BwCostly(b.quotas[k].iface)))
    requires t3 == Apply(t2, DeleteChain(BwCostly(b.quotas[k].iface)))
    ensures !Refused(t1, Flush(BwCostly(b.quotas[k].iface)))
    ensures !Refused(t2, DeleteChain(BwCostly(b.quotas[k].iface)))
    ensures Mirrors(t3, DropOwn(b, k))
  {
    var b' := DropOwn(b, k);
    DropOwnLists(b, k);
    assert OwnHolds(t, b.quotas[k]);
    assert ListsHold(b) && OwnChainsHold(t, b) && NoStrayJumps(t) && Tidy(b'.jumps);
    DropOwnFields(b, k);
    hide Mirrors, Ledger, Apply, Refused, LedgersHold, OwnChain, OwnChainsHold, ListsHold, Names, DropOwn, Tidy,
         SameExcept, NoStrayJumps, LeadsNowhere;
    ChainDropped(t, b, b', b.quotas[k].iface, t1, t2, t3);
    LedgersRewritten(t, b, t1, t3, b', b.quotas[k].iface);
    DropOwnChains(t, t3, b, k);
    OwnQuotaFrame(t, t3, b, b', b.quotas[k].iface);
  }

  lemma DropOwnFields(b: Books, k: nat)
    requires k < |b.quotas|
    ensures DropOwn(b, k) == b.(quotas := DropOwn(b, k).quotas, jumps := DropOwn(b, k).jumps)
  {
  }

  lemma MirrorsParts(t: Table, b: Books)
    requires Mirrors(t, b)
    ensures LedgersHold(t, b) && ListsHold(b) && BwPenaltyBox in t && BwCostly(SHARED) in t
  {
  }

  /** The quota rule goes into the chain just prepared, whatever became of the ledgers. */
  lemma QuotaAppends(t: Table, t2: Table, t3: Table, iface: string)
    requires SameExcept(Prepared(t, iface, false), t2, {BwInput, BwOutput})
    requires t3 == Apply(t2, Append(BwCostly(iface), QuotaRule(iface)))
    ensures !Refused(t2, Append(BwCostly(iface), QuotaRule(iface)))
    ensures BwCostly(iface) in t3 && t3[BwCostly(iface)] == Started(t) + [QuotaRule(iface)]
  {
  }

  lemma NotShared(t: Table, b: Books)
    requires Mirrors(t, b)
    ensures SHARED !in Names(b.quotas)
  {
    OwnDistinct(b.jumps);
  }

  lemma LedgersKept(t: Table, t': Table, b: Books, cost: string)
    requires LedgersHold(t, b) && (t' == t || t' == t[BwCostly(cost) := [TO_PENALTY]])
    ensures LedgersHold(t', b)
  {
  }

  /** The chain of a new quota is not what the shared quota's chain looks like, with or without a quota or an alert. */
  lemma SharedChainTaken(t: Table, b: Books)
    requires BwCostly(SHARED) in t && t[BwCostly(SHARED)] == [TO_PENALTY, QuotaRule(SHARED)]
    ensures !SharedHolds(t, b)
    ensures forall jumps, happy :: !Mirrors(t, b.(jumps := jumps, happy := happy))
  {
    var quota, alert := b.sharedQuota != 0, b.sharedAlert != 0;
    var chain := SharedChain(quota, alert);
    assert quota ==> chain[0] == QuotaRule(SHARED);
    assert !quota && alert ==> chain[1] == AlertRule(SHARED);
    forall jumps, happy
      ensures !Mirrors(t, b.(jumps := jumps, happy := happy))
    {
      assert !SharedHolds(t, b.(jumps := jumps, happy := happy));
    }
  }

  /** Another value for a quota changes no rule. */
  lemma SharedReset(t: Table, b: Books, bytes: int)
    requires Mirrors(t, b) && b.shared != [] && bytes != 0
    ensures Mirrors(t, b.(sharedQuota := bytes))
  {
    var b' := b.(sharedQuota := bytes);
    assert ListsHold(b');
    hide Ledger, BoxesHold, OwnHolds, NoStrayJumps, ListsHold;
    SameOwn(t, t, b, b', {});
  }

  lemma ResetKeepsNames(quotas: seq<QuotaInfo>, k: nat, bytes: int)
    requires k < |quotas|
    ensures Names(quotas[k := quotas[k].(quota := bytes)]) == Names(quotas)
  {
  }

  lemma ResetKeepsOwn(t: Table, b: Books, k: nat, bytes: int)
    requires OwnChainsHold(t, b) && k < |b.quotas|
    ensures OwnChainsHold(t, b.(quotas := b.quotas[k := b.quotas[k].(quota := bytes)]))
  {
    hide OwnChain;
    var quotas := b.quotas[k := b.quotas[k].(quota := bytes)];
    forall i | 0 <= i < |quotas|
      ensures OwnHolds(t, quotas[i])
    {
      assert OwnHolds(t, b.quotas[i]);
    }
  }

  lemma OwnReset(t: Table, b: Books, k: nat, bytes: int)
    requires Mirrors(t, b) && k < |b.quotas|
    ensures Mirrors(t, b.(quotas := b.quotas[k := b.quotas[k].(quota := bytes)]))
  {
    hide Ledger, PenaltyBox, HappyBox, SharedChain, OwnChainsHold, NoStrayJumps, SharedOf, OwnOf, Names, Tidy;
    ResetKeepsNames(b.quotas, k, bytes);
    ResetKeepsOwn(t, b, k, bytes);
  }

  // ----------------------------------------------------------- a fresh start

  const NOTHING := Books([], [], 0, 0, 0, 0, [], [], [], false)

  function FlushCommands(): seq<Command> {
    [Flush(BwInput), Flush(BwOutput), Flush(BwForward), Flush(BwHappyBox), Flush(BwPenaltyBox), Flush(BwCostly(SHARED)),
     Flush(BwRawPrerouting), Flush(BwManglePostrouting)]
  }

  function AccountingCommands(): seq<Command> {
    [Append(BwInput, TRACK), Append(BwOutput, TRACK), Append(BwCostly(SHARED), TO_PENALTY),
     Append(BwRawPrerouting, TRACK), Append(BwManglePostrouting, TRACK)]
  }

  function ApplyAll(t: Table, cmds: seq<Command>): (r: Table)
    decreases |cmds|
  {
    if cmds == [] then t else ApplyAll(Apply(t, cmds[0]), cmds[1..])
  }

  ghost predicate NoneRefused(t: Table, cmds: seq<Command>)
    decreases |cmds|
  {
    cmds == [] || (!Refused(t, cmds[0]) && NoneRefused(Apply(t, cmds[0]), cmds[1..]))
  }

  lemma {:induction false} FlushesAll(t: Table, cmds: seq<Command>)
    requires forall i :: 0 <= i < |cmds| ==> cmds[i].Flush?
    ensures ApplyAll(t, cmds).Keys == t.Keys
    ensures forall c :: c in t ==> ApplyAll(t, cmds)[c] == if Flush(c) in cmds then [] else t[c]
    decreases |cmds|
  {
    if cmds != [] {
      FlushesAll(Apply(t, cmds[0]), cmds[1..]);
      assert cmds == [cmds[0]] + cmds[1..];
    }
  }

  /** All chains of bandwidth control are empty, the others as they were. */
  ghost predicate Flushed(t: Table, t': Table) {
    && t'.Keys == t.Keys
    && forall c :: c in t ==> t'[c] == if IsBandwidthChain(c) then [] else t[c]
  }

  /** Appending once to each of several chains. */
  lemma {:induction false} AppendsAll(t: Table, cmds: seq<Command>)
    requires forall i :: 0 <= i < |cmds| ==> cmds[i].Append?
    requires forall i, k :: 0 <= i < k < |cmds| ==> cmds[i].chain != cmds[k].chain
    requires NoneRefused(t, cmds)
    ensures ApplyAll(t, cmds).Keys == t.Keys
    ensures forall i :: 0 <= i < |cmds| ==>
              && cmds[i].chain in t && TargetKnown(t.Keys, cmds[i].rule)
              && ApplyAll(t, cmds)[cmds[i].chain] == t[cmds[i].chain] + [cmds[i].rule]
    ensures forall c :: c in t && (forall i :: 0 <= i < |cmds| ==> cmds[i].chain != c) ==> ApplyAll(t, cmds)[c] == t[c]
    decreases |cmds|
  {
    if cmds != [] {
      var t' := Apply(t, cmds[0]);
      AppendsAll(t', cmds[1..]);
      assert t'.Keys == t.Keys;
      assert forall i :: 1 <= i < |cmds| ==> cmds[i] == cmds[1..][i - 1];
    }
  }

  lemma {:induction false} AppendsStray(t: Table, cmds: seq<Command>)
    requires forall i :: 0 <= i < |cmds| ==> cmds[i].Append? && !LeadsToCostly(cmds[i].rule)
    requires NoStrayJumps(t)
    ensures NoStrayJumps(ApplyAll(t, cmds))
    decreases |cmds|
  {
    if cmds != [] {
      assert NoStrayJumps(Apply(t, cmds[0]));
      AppendsStray(Apply(t, cmds[0]), cmds[1..]);
    }
  }

  /** What the accounting commands leave in flushed tables. */
  lemma Accounted(t: Table, t': Table)
    requires NoneRefused(t, AccountingCommands()) && t' == ApplyAll(t, AccountingCommands())
    ensures t'.Keys == t.Keys && BwInput in t && BwOutput in t && BwCostly(SHARED) in t && BwPenaltyBox in t
    ensures t'[BwInput] == t[BwInput] + [TRACK] && t'[BwOutput] == t[BwOutput] + [TRACK]
    ensures t'[BwCostly(SHARED)] == t[BwCostly(SHARED)] + [TO_PENALTY]
    ensures forall c :: c in t && c in {BwForward, BwHappyBox, BwPenaltyBox} ==> t'[c] == t[c]
  {
    hide ApplyAll, NoneRefused, AccountingCommands;
    AccountingShape();
    var cmds := AccountingCommands();
    AppendsAll(t, cmds);
    assert cmds[0].chain == BwInput && cmds[1].chain == BwOutput && cmds[2].chain == BwCostly(SHARED);
    assert TargetKnown(t.Keys, cmds[2].rule);
  }

  lemma AccountingShape()
    ensures var cmds := AccountingCommands();
            && |cmds| == 5 && (forall i :: 0 <= i < 5 ==> cmds[i].Append? && !LeadsToCostly(cmds[i].rule))
            && (forall i, k :: 0 <= i < k < 5 ==> cmds[i].chain != cmds[k].chain)
            && (forall i :: 0 <= i < 5 ==> cmds[i].chain !in {BwForward, BwHappyBox, BwPenaltyBox})
            && cmds[0] == Append(BwInput, TRACK) && cmds[1] == Append(BwOutput, TRACK)
            && cmds[2] == Append(BwCostly(SHARED), TO_PENALTY)
  {
  }

  /** The chains the flush empties. */
  predicate IsBandwidthChain(c: Chain) {
    c.BwCostly? || Flush(c) in FlushCommands()
  }

  /** No chain that is not bandwidth control's own leads to a costly chain. */
  ghost predicate NoStrayOutside(t: Table) {
    forall c, r :: c in t && !IsBandwidthChain(c) && r in t[c] ==> !LeadsToCostly(r)
  }

  lemma NothingToGoBehind(t: Table, t': Table, b: Books, j: Costly)
    requires LedgersHold(t, b) && BwPenaltyBox in t && Flushed(t, t')
    ensures !CanPrepare(t', true, j, false) && BwPenaltyBox in t'
  {
    assert Deleted([], JumpRule(false, j)) == [];
  }

  lemma FlushedChains(t: Table, t': Table)
    requires Flushed(t, t') && NoStrayOutside(t)
    ensures t'.Keys == t.Keys && NoStrayJumps(t')
    ensures forall c :: c in t && IsBandwidthChain(c) ==> t'[c] == []
  {
  }

  lemma NothingHolds(t: Table)
    requires BwInput in t && t[BwInput] == [TRACK] && BwOutput in t && t[BwOutput] == [TRACK]
    requires BwForward in t && t[BwForward] == [] && BwPenaltyBox in t && t[BwPenaltyBox] == []
    requires BwHappyBox in t ==> t[BwHappyBox] == []
    requires BwCostly(SHARED) in t && t[BwCostly(SHARED)] == [TO_PENALTY]
    requires NoStrayJumps(t)
    ensures Mirrors(t, NOTHING)
  {
    hide NoStrayJumps;
    assert [TRACK] == Ledger(false, false, []) == Ledger(true, false, []);
    assert [TO_PENALTY] == SharedChain(false, false);
  }

  lemma StartsEmpty(t0: Table, t1: Table, t2: Table)
    requires Flushed(t0, t1) && BwForward in t0 && NoStrayOutside(t0)
    requires NoneRefused(t1, AccountingCommands()) && t2 == ApplyAll(t1, AccountingCommands())
    ensures Mirrors(t2, NOTHING)
  {
    hide Mirrors, NoneRefused, ApplyAll, AccountingCommands, NoStrayJumps, NoStrayOutside, Flushed;
    FlushedChains(t0, t1);
    AccountingShape();
    AppendsStray(t1, AccountingCommands());
    Accounted(t1, t2);
    NothingHolds(t2);
  }

  // ----------------------------------------------------------------- verdicts

  lemma OwnChargesAll(t: Table, b: Books)
    requires Mirrors(t, b)
    ensures forall j :: j in b.jumps ==> BwCostly(j.cost) in t && Charges(t[BwCostly(j.cost)], j.cost)
  {
    forall j | j in b.jumps
      ensures BwCostly(j.cost) in t && Charges(t[BwCostly(j.cost)], j.cost)
    {
      assert j.cost == SHARED || j.cost == j.iface;
      hide BoxesHold, ForwardHolds, LedgersHold, NoStrayJumps, OwnChain, SharedChain, Tidy;
      if j.cost == SHARED {
        assert j == Costly(j.iface, SHARED);
        SharedMember(b.jumps, j.iface);
      } else {
        OwnMember(b.jumps, j.iface);
        var k :| 0 <= k < |Names(b.quotas)| && Names(b.quotas)[k] == j.iface;
        assert OwnHolds(t, b.quotas[k]);
      }
    }
  }

  /** Whether a packet may use an interface: the quotas charged for it and the boxes allow it. */
  predicate MayUse(b: Books, iface: string, p: Packet) {
    && (iface in b.shared || iface in Names(b.quotas) ==> BoxesPass(b.naughty, b.nice, b.happy, p.uid))
    && (iface in b.shared ==> SHARED !in p.over)
    && (iface in Names(b.quotas) ==> iface !in p.over)
  }

  lemma MayUseIsAffordable(b: Books, out: bool, p: Packet)
    requires ListsHold(b)
    ensures Affordable(out, b.jumps, BoxesPass(b.naughty, b.nice, b.happy, p.uid), p)
            <==> MayUse(b, if out then p.oif else p.iif, p)
  {
    var iface := if out then p.oif else p.iif;
    SharedMember(b.jumps, iface);
    OwnMember(b.jumps, iface);
    hide Names, SharedOf, OwnOf, BoxesPass;
    assert forall j :: j in b.jumps && Direction(out, j, p) ==> j == Costly(iface, SHARED) || j == Costly(iface, iface);
    assert Direction(out, Costly(iface, SHARED), p) && Direction(out, Costly(iface, iface), p);
  }

  /**
   * A packet passes bw_INPUT, or bw_OUTPUT, if and only if the quotas of its
   * interface are not used up and, when the interface is costly, the penalty
   * and happy boxes let its uid through; otherwise it is rejected.
   */
  lemma LedgerVerdict(t: Table, b: Books, out: bool, p: Packet)
    requires Mirrors(t, b)
    ensures (if out then BwOutput else BwInput) in t
    ensures VerdictIn(t, if out then BwOutput else BwInput, p)
         == if MayUse(b, if out then p.oif else p.iif, p) then Passes else Rejected
  {
    var ledger := if out then BwOutput else BwInput;
    var rest := t - {ledger};
    var boxes := BoxesPass(b.naughty, b.nice, b.happy, p.uid);
    OwnChargesAll(t, b);
    MayUseIsAffordable(b, out, p);
    forall j | j in b.jumps
      ensures Traverse(rest - {BwCostly(j.cost)} - {BwPenaltyBox}, rest[BwPenaltyBox], p) ==
              if boxes then Passes else Rejected
    {
      hide Traverse, Charges, MayUse, PenaltyBox, HappyBox;
      PenaltyVerdict(rest - {BwCostly(j.cost)} - {BwPenaltyBox}, b.naughty, b.nice, b.happy, p);
    }
    hide Traverse, Charges, MayUse, Affordable, PenaltyBox, HappyBox, Jumps;
    JumpsVerdict(rest, out, b.jumps, p, boxes);
    SkipInert(rest, AlertPart(b.globalAlert != 0), Jumps(out, b.jumps) + [TRACK], p);
    assert AlertPart(b.globalAlert != 0) + (Jumps(out, b.jumps) + [TRACK]) == Ledger(out, b.globalAlert != 0, b.jumps);
  }

  /** A packet passes bw_penalty_box if and only if its uid is not naughty and, while the happy box is on, is nice. */
  lemma BoxVerdict(t: Table, b: Books, p: Packet)
    requires Mirrors(t, b)
    ensures VerdictIn(t, BwPenaltyBox, p) == if BoxesPass(b.naughty, b.nice, b.happy, p.uid) then Passes else Rejected
  {
    PenaltyVerdict(t - {BwPenaltyBox}, b.naughty, b.nice, b.happy, p);
  }
}
