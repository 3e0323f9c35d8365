/**
 * The rule lists BandwidthController maintains, as values: the ledgers
 * bw_INPUT and bw_OUTPUT, the costly chains, the penalty and happy boxes, and
 * what they do to a packet.
 */
module Ledgers {
  import opened Iptables

  const SHARED := "shared"
  const GLOBAL_ALERT := "globalAlert"

  const TRACK := Rule(SocketExists, Count)
  const ALERT := Rule(OverQuota(GLOBAL_ALERT), Count)
  const TO_PENALTY := Rule(Any, Jump(BwPenaltyBox))
  const TO_HAPPY := Rule(Any, Jump(BwHappyBox))
  const REJECT_ALL := Rule(Any, Reject)

  function QuotaRule(cost: string): Rule {
    Rule(OverQuota(cost), Reject)
  }

  function AlertName(cost: string): string {
    cost + "Alert"
  }

  function AlertRule(cost: string): Rule {
    Rule(OverQuota(AlertName(cost)), Count)
  }

  function AppRule(uid: int, target: Target): Rule {
    Rule(OwnedBy(uid), target)
  }

  /** A costly interface and the quota it is charged to: its own or the shared one. */
  datatype Costly = Costly(iface: string, cost: string)

  function JumpRule(out: bool, j: Costly): Rule {
    Rule(if out then OutTo(j.iface) else InFrom(j.iface), Jump(BwCostly(j.cost)))
  }

  function Jumps(out: bool, jumps: seq<Costly>): (r: seq<Rule>) {
    if jumps == [] then [] else [JumpRule(out, jumps[0])] + Jumps(out, jumps[1..])
  }

  function AlertPart(alert: bool): seq<Rule> {
    if alert then [ALERT] else []
  }

  /** bw_INPUT or bw_OUTPUT: the global alert if set, the costly jumps, the tracking rule. */
  function Ledger(out: bool, alert: bool, jumps: seq<Costly>): (r: seq<Rule>) {
    AlertPart(alert) + Jumps(out, jumps) + [TRACK]
  }

  /** bw_costly_shared */
  function SharedChain(quota: bool, alert: bool): (r: seq<Rule>) {
    (if quota then [QuotaRule(SHARED)] else []) + [TO_PENALTY] + (if alert then [AlertRule(SHARED)] else [])
  }

  /** bw_costly_<iface> */
  function OwnChain(iface: string, alert: bool): (r: seq<Rule>) {
    [TO_PENALTY] + [QuotaRule(iface)] + (if alert then [AlertRule(iface)] else [])
  }

  /** One rule per uid, in the order of the list. */
  function AppRules(uids: seq<int>, target: Target): (r: seq<Rule>) {
    if uids == [] then [] else [AppRule(uids[0], target)] + AppRules(uids[1..], target)
  }

  /** bw_penalty_box */
  function PenaltyBox(naughty: seq<int>, happy: bool): (r: seq<Rule>) {
    AppRules(naughty, Reject) + if happy then [TO_HAPPY] else []
  }

  /** bw_happy_box */
  function HappyBox(nice: seq<int>, happy: bool): (r: seq<Rule>) {
    AppRules(nice, Return) + if happy then [REJECT_ALL] else []
  }

  // --------------------------------------------------- which quotas are charged

  /** The interfaces charged to the shared quota, newest first. */
  function SharedOf(jumps: seq<Costly>): (r: seq<string>) {
    if jumps == [] then []
    else if jumps[0].cost == SHARED then [jumps[0].iface] + SharedOf(jumps[1..])
    else SharedOf(jumps[1..])
  }

  /** The interfaces charged to a quota of their own, newest first. */
  function OwnOf(jumps: seq<Costly>): (r: seq<string>) {
    if jumps == [] then []
    else if jumps[0].cost == SHARED then OwnOf(jumps[1..])
    else [jumps[0].iface] + OwnOf(jumps[1..])
  }

  /** Every jump goes to the shared chain or to the interface's own, and none is there twice. */
  ghost predicate Tidy(jumps: seq<Costly>) {
    && (forall j :: j in jumps ==> j.cost == SHARED || j.cost == j.iface)
    && (forall i, k :: 0 <= i < k < |jumps| ==> jumps[i] != jumps[k])
  }

  lemma {:induction false} SharedMember(jumps: seq<Costly>, iface: string)
    ensures iface in SharedOf(jumps) <==> Costly(iface, SHARED) in jumps
  {
    if jumps != [] {
      SharedMember(jumps[1..], iface);
      assert jumps == [jumps[0]] + jumps[1..];
    }
  }

  lemma {:induction false} OwnMember(jumps: seq<Costly>, iface: string)
    requires Tidy(jumps)
    ensures iface in OwnOf(jumps) <==> iface != SHARED && Costly(iface, iface) in jumps
  {
    if jumps != [] {
      OwnMember(jumps[1..], iface);
      assert jumps == [jumps[0]] + jumps[1..];
      assert jumps[0] in jumps;
    }
  }

  lemma {:induction false} SharedRemoved(jumps: seq<Costly>, iface: string)
    ensures SharedOf(Without(jumps, Costly(iface, SHARED))) == Without(SharedOf(jumps), iface)
    ensures OwnOf(Without(jumps, Costly(iface, SHARED))) == OwnOf(jumps)
  {
    if jumps != [] {
      SharedRemoved(jumps[1..], iface);
    }
  }

  lemma {:induction false} OwnRemoved(jumps: seq<Costly>, iface: string)
    requires Tidy(jumps) && iface != SHARED
    ensures OwnOf(Without(jumps, Costly(iface, iface))) == Without(OwnOf(jumps), iface)
    ensures SharedOf(Without(jumps, Costly(iface, iface))) == SharedOf(jumps)
  {
    if jumps != [] {
      OwnRemoved(jumps[1..], iface);
      assert jumps[0] in jumps;
    }
  }

  lemma {:induction false} WithoutMembers<T>(s: seq<T>, x: T)
    ensures forall y :: y in Without(s, x) ==> y in s
    ensures forall y :: y in s && y != x ==> y in Without(s, x)
    ensures (forall i, k :: 0 <= i < k < |s| ==> s[i] != s[k]) ==>
              && x !in Without(s, x)
              && (forall i, k :: 0 <= i < k < |Without(s, x)| ==> Without(s, x)[i] != Without(s, x)[k])
  {
    if s != [] {
      WithoutMembers(s[1..], x);
      var rest := Without(s[1..], x);
      assert s == [s[0]] + s[1..];
      if (forall i, k :: 0 <= i < k < |s| ==> s[i] != s[k]) && s[0] != x {
        assert s[0] !in s[1..];
        assert s[0] !in rest;
        assert Without(s, x) == [s[0]] + rest;
      }
    }
  }

  lemma StaysTidy(jumps: seq<Costly>, j: Costly)
    requires Tidy(jumps)
    ensures Tidy(Without(jumps, j)) && j !in Without(jumps, j)
    ensures j !in jumps && (j.cost == SHARED || j.cost == j.iface) ==> Tidy([j] + jumps)
  {
    WithoutMembers(jumps, j);
  }

  /** Erasing the first occurrence by its index. */
  lemma {:induction false} WithoutAt<T>(s: seq<T>, x: T, k: nat)
    requires k < |s| && s[k] == x && x !in s[..k]
    ensures Without(s, x) == s[..k] + s[k + 1..]
  {
    if k > 0 {
      assert s[0] == s[..k][0];
      assert s[1..][..k - 1] == s[..k][1..];
      WithoutAt(s[1..], x, k - 1);
    }
  }

  // ------------------------------------------------------ editing the ledgers

  lemma {:induction false} JumpMember(out: bool, jumps: seq<Costly>, j: Costly)
    ensures JumpRule(out, j) in Jumps(out, jumps) <==> j in jumps
  {
    if jumps != [] {
      JumpMember(out, jumps[1..], j);
      assert jumps == [jumps[0]] + jumps[1..];
    }
  }

  lemma {:induction false} JumpsOnly(out: bool, jumps: seq<Costly>)
    ensures ALERT !in Jumps(out, jumps)
    ensures forall r :: r in Jumps(out, jumps) ==> exists j :: j in jumps && r == JumpRule(out, j)
  {
    if jumps != [] {
      JumpsOnly(out, jumps[1..]);
      assert jumps == [jumps[0]] + jumps[1..];
      assert jumps[0] in jumps;
    }
  }

  lemma {:induction false} JumpRemoved(out: bool, jumps: seq<Costly>, j: Costly)
    ensures Without(Jumps(out, jumps), JumpRule(out, j)) == Jumps(out, Without(jumps, j))
  {
    if jumps != [] {
      JumpRemoved(out, jumps[1..], j);
      var kept := Without(jumps[1..], j);
      assert ([jumps[0]] + kept)[1..] == kept;
    }
  }

  /** A new jump goes in front of the others, after the alert. */
  lemma LedgerInsert(out: bool, alert: bool, jumps: seq<Costly>, j: Costly)
    ensures var k := if alert then 1 else 0;
            var rules := Ledger(out, alert, jumps);
            k <= |rules| && rules[..k] + [JumpRule(out, j)] + rules[k..] == Ledger(out, alert, [j] + jumps)
  {
    assert ([j] + jumps)[1..] == jumps;
    hide JumpRule;
  }

  lemma LedgerMember(out: bool, alert: bool, jumps: seq<Costly>, j: Costly)
    ensures JumpRule(out, j) in Ledger(out, alert, jumps) <==> j in jumps
  {
    JumpMember(out, jumps, j);
    assert JumpRule(out, j) !in AlertPart(alert) && JumpRule(out, j) !in [TRACK];
  }

  lemma LedgerDelete(out: bool, alert: bool, jumps: seq<Costly>, j: Costly)
    requires j in jumps
    ensures Without(Ledger(out, alert, jumps), JumpRule(out, j)) == Ledger(out, alert, Without(jumps, j))
  {
    JumpMember(out, jumps, j);
    JumpRemoved(out, jumps, j);
    assert JumpRule(out, j) !in AlertPart(alert);
    hide Without, JumpRule, Jumps;
    WithoutSkips(AlertPart(alert), JumpRule(out, j), Jumps(out, jumps) + [TRACK]);
    WithoutStays(Jumps(out, jumps), JumpRule(out, j), [TRACK]);
    assert AlertPart(alert) + (Jumps(out, jumps) + [TRACK]) == Ledger(out, alert, jumps);
  }

  /** The global alert goes first. */
  lemma LedgerAlert(out: bool, jumps: seq<Costly>)
    ensures [ALERT] + Ledger(out, false, jumps) == Ledger(out, true, jumps)
    ensures ALERT in Ledger(out, true, jumps)
    ensures Without(Ledger(out, true, jumps), ALERT) == Ledger(out, false, jumps)
  {
    assert Ledger(out, true, jumps)[0] == ALERT;
    assert Ledger(out, true, jumps)[1..] == Ledger(out, false, jumps);
  }

  lemma {:induction false} AppRemoved(uids: seq<int>, uid: int, target: Target)
    ensures AppRule(uid, target) in AppRules(uids, target) <==> uid in uids
    ensures Without(AppRules(uids, target), AppRule(uid, target)) == AppRules(Without(uids, uid), target)
  {
    if uids != [] {
      AppRemoved(uids[1..], uid, target);
      var kept := Without(uids[1..], uid);
      assert ([uids[0]] + kept)[1..] == kept;
      assert uids == [uids[0]] + uids[1..];
    }
  }

  lemma {:induction false} AppRulesOnly(uids: seq<int>, target: Target)
    ensures forall r :: r in AppRules(uids, target) ==> r.when.OwnedBy? && r.target == target
  {
    if uids != [] {
      AppRulesOnly(uids[1..], target);
    }
  }

  /** Inserting into a box of application rules that ends in `tail`. */
  lemma BoxInsert(uids: seq<int>, uid: int, target: Target, tail: seq<Rule>)
    ensures [AppRule(uid, target)] + (AppRules(uids, target) + tail) == AppRules([uid] + uids, target) + tail
  {
    assert ([uid] + uids)[1..] == uids;
  }

  /** Deleting from a box of application rules that ends in `tail`. */
  lemma BoxDelete(uids: seq<int>, uid: int, target: Target, tail: seq<Rule>)
    requires forall i :: 0 <= i < |tail| ==> tail[i].when == Any
    ensures AppRule(uid, target) in AppRules(uids, target) + tail <==> uid in uids
    ensures Without(AppRules(uids, target) + tail, AppRule(uid, target)) == AppRules(Without(uids, uid), target) + tail
  {
    AppRemoved(uids, uid, target);
    assert AppRule(uid, target) !in tail;
    hide *;
    if uid in uids {
      WithoutStays(AppRules(uids, target), AppRule(uid, target), tail);
    } else {
      WithoutAbsent(uids, uid);
      WithoutAbsent(AppRules(uids, target) + tail, AppRule(uid, target));
    }
  }

  /** The closing rule of a box can be taken off and put back. */
  lemma TailEdits(uids: seq<int>, target: Target, tail: Rule)
    requires tail.when == Any
    ensures tail !in AppRules(uids, target)
    ensures Without(AppRules(uids, target) + [tail], tail) == AppRules(uids, target)
  {
    AppRulesOnly(uids, target);
    WithoutSkips(AppRules(uids, target), tail, [tail]);
    WithoutFirst(tail, []);
    assert [tail] + [] == [tail];
    assert AppRules(uids, target) + [] == AppRules(uids, target);
  }

  // ------------------------------------------------------------- the verdicts

  lemma {:induction false} AppVerdict(t: Table, uids: seq<int>, target: Target, tail: seq<Rule>, p: Packet)
    requires target == Reject || target == Return
    ensures Traverse(t, AppRules(uids, target) + tail, p)
         == if p.uid in uids then (if target == Reject then Rejected else Passes) else Traverse(t, tail, p)
  {
    if uids == [] {
      assert AppRules(uids, target) + tail == tail;
    } else {
      assert AppRules(uids, target) + tail == [AppRule(uids[0], target)] + (AppRules(uids[1..], target) + tail);
      TraverseStep(t, AppRule(uids[0], target), AppRules(uids[1..], target) + tail, p);
      AppVerdict(t, uids[1..], target, tail, p);
    }
  }

  /** Whether the boxes let a uid through. */
  predicate BoxesPass(naughty: seq<int>, nice: seq<int>, happy: bool, uid: int) {
    uid !in naughty && (happy ==> uid in nice)
  }

  /**
   * A packet passes the penalty box if and only if its uid is not naughty and,
   * while the happy box is on, is nice.
   */
  lemma PenaltyVerdict(t: Table, naughty: seq<int>, nice: seq<int>, happy: bool, p: Packet)
    requires happy ==> BwHappyBox in t && t[BwHappyBox] == HappyBox(nice, happy)
    ensures Traverse(t, PenaltyBox(naughty, happy), p)
         == if BoxesPass(naughty, nice, happy, p.uid) then Passes else Rejected
  {
    AppVerdict(t, naughty, Reject, if happy then [TO_HAPPY] else [], p);
    hide AppRules;
    if happy {
      assert [TO_HAPPY] == [TO_HAPPY] + [];
      TraverseStep(t, TO_HAPPY, [], p);
      AppVerdict(t - {BwHappyBox}, nice, Return, [REJECT_ALL], p);
      assert [REJECT_ALL] == [REJECT_ALL] + [];
      TraverseStep(t - {BwHappyBox}, REJECT_ALL, [], p);
    }
  }

  /** The chain a costly jump leads to: quota and penalty box, in either order. */
  ghost predicate Charges(rules: seq<Rule>, cost: string) {
    || (exists alert :: rules == OwnChain(cost, alert))
    || (cost == SHARED && exists alert :: rules == SharedChain(true, alert))
  }

  /** What one costly chain does: the boxes and the quota must both let the packet through. */
  lemma ChargeVerdict(t: Table, rules: seq<Rule>, cost: string, p: Packet, boxes: bool)
    requires Charges(rules, cost)
    requires BwPenaltyBox in t && Traverse(t - {BwPenaltyBox}, t[BwPenaltyBox], p) == if boxes then Passes else Rejected
    ensures Traverse(t, rules, p) == if boxes && cost !in p.over then Passes else Rejected
  {
    var tail := if AlertRule(cost) in rules then [AlertRule(cost)] else [];
    hide Traverse;
    SkipInert(t, tail, [], p);
    assert tail + [] == tail;
    TraverseNothing(t, p);
    TraverseStep(t, TO_PENALTY, tail, p);
    TraverseStep(t, TO_PENALTY, [QuotaRule(cost)] + tail, p);
    TraverseStep(t, QuotaRule(cost), tail, p);
    TraverseStep(t, QuotaRule(cost), [TO_PENALTY] + tail, p);
    ChargeShape(rules, cost, tail);
  }

  lemma TraverseNothing(t: Table, p: Packet)
    ensures Traverse(t, [], p) == Passes
  {
  }

  lemma ChargeShape(rules: seq<Rule>, cost: string, tail: seq<Rule>)
    requires Charges(rules, cost)
    requires tail == if AlertRule(cost) in rules then [AlertRule(cost)] else []
    ensures rules == [TO_PENALTY] + ([QuotaRule(cost)] + tail) || rules == [QuotaRule(cost)] + ([TO_PENALTY] + tail)
  {
    hide AlertName;
  }

  predicate Direction(out: bool, j: Costly, p: Packet) {
    j.iface == if out then p.oif else p.iif
  }

  /** Every costly jump the packet takes has quota left, and the boxes let it through if it takes any. */
  ghost predicate Affordable(out: bool, jumps: seq<Costly>, boxes: bool, p: Packet) {
    forall j :: j in jumps && Direction(out, j, p) ==> boxes && j.cost !in p.over
  }

  lemma JumpVerdict(t: Table, out: bool, j: Costly, rest: seq<Rule>, p: Packet, boxes: bool)
    requires BwCostly(j.cost) in t && Charges(t[BwCostly(j.cost)], j.cost)
    requires BwPenaltyBox in t
    requires Traverse(t - {BwCostly(j.cost)} - {BwPenaltyBox}, t[BwPenaltyBox], p) == if boxes then Passes else Rejected
    ensures Traverse(t, [JumpRule(out, j)] + rest, p)
         == if Direction(out, j, p) && !(boxes && j.cost !in p.over) then Rejected else Traverse(t, rest, p)
  {
    hide Traverse, Charges;
    ChargeVerdict(t - {BwCostly(j.cost)}, t[BwCostly(j.cost)], j.cost, p, boxes);
    TraverseStep(t, JumpRule(out, j), rest, p);
  }

  /** The fate of a packet in bw_INPUT or bw_OUTPUT. */
  lemma {:induction false} JumpsVerdict(t: Table, out: bool, jumps: seq<Costly>, p: Packet, boxes: bool)
    requires forall j :: j in jumps ==> BwCostly(j.cost) in t && Charges(t[BwCostly(j.cost)], j.cost)
    requires BwPenaltyBox in t
    requires forall j :: j in jumps ==>
               Traverse(t - {BwCostly(j.cost)} - {BwPenaltyBox}, t[BwPenaltyBox], p) ==
               if boxes then Passes else Rejected
    ensures Traverse(t, Jumps(out, jumps) + [TRACK], p) == if Affordable(out, jumps, boxes, p) then Passes else Rejected
  {
    if jumps == [] {
      TraverseStep(t, TRACK, [], p);
      assert Jumps(out, jumps) + [TRACK] == [TRACK] + [];
    } else {
      var j := jumps[0];
      assert jumps == [j] + jumps[1..];
      JumpsVerdict(t, out, jumps[1..], p, boxes);
      hide Traverse, Charges, Matches;
      JumpVerdict(t, out, j, Jumps(out, jumps[1..]) + [TRACK], p, boxes);
      assert Jumps(out, jumps) + [TRACK] == [JumpRule(out, j)] + (Jumps(out, jumps[1..]) + [TRACK]);
    }
  }
}
