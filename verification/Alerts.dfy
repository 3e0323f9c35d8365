/**
 * What the rules without a target see: which alerts a packet raises on its way
 * through a ledger, and which packets reach the rule that accounts for them.
 */
module Alerts {
  import opened Iptables
  import opened Ledgers
  import opened BandwidthBooks

  /** The matches of the rules without a target that a packet meets. */
  function Noted(t: Table, rules: seq<Rule>, p: Packet): (r: set<Match>)
    decreases t.Keys, |rules|
  {
    if rules == [] then {}
    else if !Matches(rules[0].when, p) then Noted(t, rules[1..], p)
    else
      match rules[0].target
      case Count => {rules[0].when} + Noted(t, rules[1..], p)
      case ClampMss => Noted(t, rules[1..], p)
      case Goto(c) => if c in t then Noted(t - {c}, t[c], p) else {}
      case Jump(c) =>
        if c !in t then Noted(t, rules[1..], p)
        else if Traverse(t - {c}, t[c], p) == Passes then Noted(t - {c}, t[c], p) + Noted(t, rules[1..], p)
        else Noted(t - {c}, t[c], p)
      case _ => {}
  }

  function NotedIn(t: Table, c: Chain, p: Packet): (r: set<Match>)
    requires c in t
  {
    Noted(t - {c}, t[c], p)
  }

  lemma NotedStep(t: Table, r: Rule, rest: seq<Rule>, p: Packet)
    ensures !Matches(r.when, p) ==> Noted(t, [r] + rest, p) == Noted(t, rest, p)
    ensures Matches(r.when, p) && r.target.Count? ==> Noted(t, [r] + rest, p) == {r.when} + Noted(t, rest, p)
    ensures Matches(r.when, p) && (r.target.Reject? || r.target.Return?) ==> Noted(t, [r] + rest, p) == {}
    ensures Matches(r.when, p) && r.target.Jump? && r.target.to in t ==>
              var inner, c := Noted(t - {r.target.to}, t[r.target.to], p), r.target.to;
              Noted(t, [r] + rest, p) == if Traverse(t - {c}, t[c], p) == Passes then inner + Noted(t, rest, p)
              else inner
  {
    assert ([r] + rest)[1..] == rest;
  }

  lemma NothingNoted(t: Table, p: Packet)
    ensures Noted(t, [], p) == {}
  {
  }

  lemma {:induction false} AppsNoteNothing(t: Table, uids: seq<int>, target: Target, tail: seq<Rule>, p: Packet)
    requires (target == Reject || target == Return) && Noted(t, tail, p) == {}
    ensures Noted(t, AppRules(uids, target) + tail, p) == {}
  {
    if uids == [] {
      assert AppRules(uids, target) + tail == tail;
    } else {
      var rest := AppRules(uids[1..], target) + tail;
      assert AppRules(uids, target) + tail == [AppRule(uids[0], target)] + rest;
      NotedStep(t, AppRule(uids[0], target), rest, p);
      AppsNoteNothing(t, uids[1..], target, tail, p);
    }
  }

  /** The boxes only decide. */
  lemma BoxesNoteNothing(t: Table, naughty: seq<int>, nice: seq<int>, happy: bool, p: Packet)
    requires happy ==> BwHappyBox in t && t[BwHappyBox] == HappyBox(nice, happy)
    ensures Noted(t, PenaltyBox(naughty, happy), p) == {}
  {
    NothingNoted(t, p);
    if happy {
      var inner := t - {BwHappyBox};
      NothingNoted(inner, p);
      assert [REJECT_ALL] == [REJECT_ALL] + [] && [TO_HAPPY] == [TO_HAPPY] + [];
      NotedStep(inner, REJECT_ALL, [], p);
      AppsNoteNothing(inner, nice, Return, [REJECT_ALL], p);
      hide AppRules;
      NotedStep(t, TO_HAPPY, [], p);
    }
    AppsNoteNothing(t, naughty, Reject, if happy then [TO_HAPPY] else [], p);
  }

  /** The alert of a costly chain, if the chain has one and its quota is used up. */
  function OwnNote(rules: seq<Rule>, cost: string, p: Packet): set<Match> {
    if AlertRule(cost) in rules && AlertName(cost) in p.over then {OverQuota(AlertName(cost))} else {}
  }

  /** Whether the boxes decide `boxes` for the packet, and note nothing. */
  ghost predicate BoxesDecide(t: Table, p: Packet, boxes: bool) {
    && BwPenaltyBox in t
    && Traverse(t - {BwPenaltyBox}, t[BwPenaltyBox], p) == (if boxes then Passes else Rejected)
    && Noted(t - {BwPenaltyBox}, t[BwPenaltyBox], p) == {}
  }

  /** A costly chain notes its alert on a packet it lets through, and nothing on the others. */
  lemma ChargeNotes(t: Table, rules: seq<Rule>, cost: string, p: Packet, boxes: bool)
    requires Charges(rules, cost) && BoxesDecide(t, p, boxes)
    ensures Noted(t, rules, p) == if boxes && cost !in p.over then OwnNote(rules, cost, p) else {}
  {
    var tail := if AlertRule(cost) in rules then [AlertRule(cost)] else [];
    ChargeShape(rules, cost, tail);
    hide Noted, Traverse, Charges, AlertName;
    NothingNoted(t, p);
    assert tail != [] ==> tail == [AlertRule(cost)] + [];
    NotedStep(t, AlertRule(cost), [], p);
    NotedStep(t, TO_PENALTY, tail, p);
    NotedStep(t, TO_PENALTY, [QuotaRule(cost)] + tail, p);
    NotedStep(t, QuotaRule(cost), tail, p);
    NotedStep(t, QuotaRule(cost), [TO_PENALTY] + tail, p);
  }

  lemma JumpNotes(t: Table, out: bool, j: Costly, rest: seq<Rule>, p: Packet, boxes: bool)
    requires BwCostly(j.cost) in t && Charges(t[BwCostly(j.cost)], j.cost)
    requires BoxesDecide(t - {BwCostly(j.cost)}, p, boxes)
    ensures Noted(t, [JumpRule(out, j)] + rest, p)
         == if !Direction(out, j, p) then Noted(t, rest, p)
            else if boxes && j.cost !in p.over then OwnNote(t[BwCostly(j.cost)], j.cost, p) + Noted(t, rest, p)
            else {}
  {
    hide Noted, Traverse, Charges, OwnNote;
    NotedStep(t, JumpRule(out, j), rest, p);
    assert BoxesDecide(t - {BwCostly(j.cost)}, p, boxes);
    ChargeVerdict(t - {BwCostly(j.cost)}, t[BwCostly(j.cost)], j.cost, p, boxes);
    ChargeNotes(t - {BwCostly(j.cost)}, t[BwCostly(j.cost)], j.cost, p, boxes);
  }

  /** Some costly jump that the packet takes has the alert. */
  ghost predicate JumpNote(t: Table, out: bool, jumps: seq<Costly>, p: Packet, m: Match) {
    exists j :: j in jumps && Direction(out, j, p)
                && BwCostly(j.cost) in t && m in OwnNote(t[BwCostly(j.cost)], j.cost, p)
  }

  /** The jumps of a ledger and the tracking rule behind them. */
  lemma {:induction false} JumpsNote(t: Table, out: bool, jumps: seq<Costly>, p: Packet, boxes: bool)
    requires forall j :: j in jumps ==> BwCostly(j.cost) in t && Charges(t[BwCostly(j.cost)], j.cost)
    requires forall j :: j in jumps ==> BoxesDecide(t - {BwCostly(j.cost)}, p, boxes)
    ensures SocketExists in Noted(t, Jumps(out, jumps) + [TRACK], p) <==> Affordable(out, jumps, boxes, p)
    ensures Affordable(out, jumps, boxes, p) ==>
              forall m :: m in Noted(t, Jumps(out, jumps) + [TRACK], p)
                          <==> m == SocketExists || JumpNote(t, out, jumps, p, m)
  {
    if jumps == [] {
      NothingNoted(t, p);
      NotedStep(t, TRACK, [], p);
      assert Jumps(out, jumps) + [TRACK] == [TRACK] + [];
    } else {
      var j := jumps[0];
      assert jumps == [j] + jumps[1..];
      JumpsNote(t, out, jumps[1..], p, boxes);
      hide Noted, Charges, Matches, BoxesDecide, Jumps;
      JumpNotes(t, out, j, Jumps(out, jumps[1..]) + [TRACK], p, boxes);
      JumpsShape(out, jumps);
      assert SocketExists !in OwnNote(t[BwCostly(j.cost)], j.cost, p);
    }
  }

  lemma JumpsShape(out: bool, jumps: seq<Costly>)
    requires jumps != []
    ensures Jumps(out, jumps) + [TRACK] == [JumpRule(out, jumps[0])] + (Jumps(out, jumps[1..]) + [TRACK])
  {
  }

  /** The alerts that watch an interface's traffic. */
  ghost predicate Watched(b: Books, iface: string, name: string) {
    || (name == "globalAlert" && b.globalAlert != 0)
    || (name == "sharedAlert" && b.sharedAlert != 0 && iface in b.shared)
    || (exists q :: q in b.quotas && q.iface == iface && q.alert != 0 && name == iface + "Alert")
  }

  /** Whether the alert of the chain for a jump was set, by the records. */
  ghost predicate Alarmed(b: Books, j: Costly) {
    if j.cost == SHARED then b.sharedAlert != 0
    else exists q :: q in b.quotas && q.iface == j.iface && q.alert != 0
  }

  lemma SharedAlarm(t: Table, b: Books)
    requires SharedHolds(t, b)
    ensures AlertRule(SHARED) in t[BwCostly(SHARED)] <==> b.sharedAlert != 0
  {
    hide AlertName;
  }

  lemma OwnAlarm(t: Table, b: Books, q: QuotaInfo)
    requires OwnHolds(t, q)
    ensures AlertRule(q.iface) in t[BwCostly(q.iface)] <==> q.alert != 0
  {
    hide AlertName;
  }

  lemma {:induction false} NamesDiffer(quotas: seq<QuotaInfo>, q: QuotaInfo, i: nat)
    requires i < |quotas| && q in quotas && quotas[i].iface == q.iface
    requires forall k, l :: 0 <= k < l < |quotas| ==> quotas[k].iface != quotas[l].iface
    ensures quotas[i] == q
  {
  }

  lemma {:induction false} OwnDiffer(jumps: seq<Costly>)
    requires Tidy(jumps)
    ensures forall k, l :: 0 <= k < l < |OwnOf(jumps)| ==> OwnOf(jumps)[k] != OwnOf(jumps)[l]
  {
    if jumps != [] {
      assert jumps[0] in jumps && forall j :: j in jumps[1..] ==> j in jumps;
      OwnDiffer(jumps[1..]);
      OwnMember(jumps[1..], jumps[0].iface);
      assert jumps[0] !in jumps[1..];
    }
  }

  /** A costly chain has its alert if and only if the records say so. */
  lemma AlarmsMirrored(t: Table, b: Books, j: Costly)
    requires Mirrors(t, b) && j in b.jumps
    ensures BwCostly(j.cost) in t && (AlertRule(j.cost) in t[BwCostly(j.cost)] <==> Alarmed(b, j))
  {
    assert j.cost == SHARED || j.cost == j.iface;
    hide LedgersHold, ForwardHolds, BoxesHold, NoStrayJumps, OwnHolds, AlertRule, Jumps;
    if j.cost == SHARED {
      SharedAlarm(t, b);
    } else {
      OwnMember(b.jumps, j.iface);
      OwnDiffer(b.jumps);
      hide Tidy, OwnOf, SharedOf, SharedHolds;
      var i :| 0 <= i < |Names(b.quotas)| && Names(b.quotas)[i] == j.iface;
      OwnAlarm(t, b, b.quotas[i]);
      forall q | q in b.quotas && q.iface == j.iface
        ensures q == b.quotas[i]
      {
        NamesDiffer(b.quotas, q, i);
      }
    }
  }

  /** What the jumps note is what watches the packet's interface. */
  lemma JumpNotesAreWatched(t: Table, b: Books, out: bool, p: Packet, m: Match)
    requires Mirrors(t, b)
    ensures JumpNote(t, out, b.jumps, p, m)
            <==> exists j :: j in b.jumps && Direction(out, j, p) && Alarmed(b, j)
                             && m == OverQuota(AlertName(j.cost)) && m.name in p.over
  {
    forall j | j in b.jumps
      ensures BwCostly(j.cost) in t && (AlertRule(j.cost) in t[BwCostly(j.cost)] <==> Alarmed(b, j))
    {
      AlarmsMirrored(t, b, j);
    }
    hide Mirrors, Alarmed, AlertName, AlertRule;
  }

  lemma WatchedJumps(b: Books, out: bool, p: Packet, name: string)
    requires ListsHold(b)
    ensures (exists j :: j in b.jumps && Direction(out, j, p) && Alarmed(b, j) && name == AlertName(j.cost))
            <==> Watched(b.(globalAlert := 0), if out then p.oif else p.iif, name)
  {
    var iface := if out then p.oif else p.iif;
    SharedMember(b.jumps, iface);
    OwnMember(b.jumps, iface);
    assert forall j :: j in b.jumps && Direction(out, j, p) ==> j == Costly(iface, SHARED) || j == Costly(iface, iface);
    assert Direction(out, Costly(iface, SHARED), p) && Direction(out, Costly(iface, iface), p);
    assert AlertName(SHARED) == "sharedAlert";
    forall q | q in b.quotas && q.iface == iface
      ensures iface in Names(b.quotas)
    {
      var i :| 0 <= i < |b.quotas| && b.quotas[i] == q;
      assert Names(b.quotas)[i] == iface;
    }
    hide Names, SharedOf, OwnOf;
  }

  /** The boxes decide and note nothing wherever a costly chain consults them. */
  lemma BoxesDecideBelow(t: Table, b: Books, below: Table, p: Packet)
    requires BoxesHold(t, b) && BwPenaltyBox in below && below[BwPenaltyBox] == t[BwPenaltyBox]
    requires BwHappyBox in t ==> BwHappyBox in below && below[BwHappyBox] == t[BwHappyBox]
    ensures BoxesDecide(below, p, BoxesPass(b.naughty, b.nice, b.happy, p.uid))
  {
    hide Traverse, Noted, PenaltyBox, HappyBox;
    PenaltyVerdict(below - {BwPenaltyBox}, b.naughty, b.nice, b.happy, p);
    BoxesNoteNothing(below - {BwPenaltyBox}, b.naughty, b.nice, b.happy, p);
  }

  /** The ledger without its first rule. */
  lemma LedgerNotes(t: Table, b: Books, out: bool, p: Packet)
    requires Mirrors(t, b)
    ensures var iface := if out then p.oif else p.iif;
            var notes := Noted(t - {if out then BwOutput else BwInput}, Jumps(out, b.jumps) + [TRACK], p);
            && (SocketExists in notes <==> MayUse(b, iface, p))
            && (MayUse(b, iface, p) ==>
                  forall m :: m in notes <==> m == SocketExists || JumpNote(t, out, b.jumps, p, m))
  {
    var below := t - {if out then BwOutput else BwInput};
    var boxes := BoxesPass(b.naughty, b.nice, b.happy, p.uid);
    OwnChargesAll(t, b);
    MayUseIsAffordable(b, out, p);
    forall j | j in b.jumps
      ensures BoxesDecide(below - {BwCostly(j.cost)}, p, boxes)
    {
      hide BoxesDecide, MayUse, Charges;
      BoxesDecideBelow(t, b, below - {BwCostly(j.cost)}, p);
    }
    hide Noted, Charges, MayUse, Affordable, BoxesDecide, Jumps, Mirrors, OwnNote;
    JumpsNote(below, out, b.jumps, p, boxes);
    assert forall m :: JumpNote(below, out, b.jumps, p, m) <==> JumpNote(t, out, b.jumps, p, m);
  }

  lemma AlertFirst(t: Table, alert: bool, rest: seq<Rule>, p: Packet)
    ensures Noted(t, AlertPart(alert) + rest, p)
         == (if alert && GLOBAL_ALERT in p.over then {OverQuota(GLOBAL_ALERT)} else {}) + Noted(t, rest, p)
  {
    hide Noted;
    NotedStep(t, ALERT, rest, p);
    if !alert {
      assert AlertPart(alert) + rest == rest;
    }
  }

  /**
   * A packet is accounted for if and only if the ledger lets it through. One
   * that is let through raises exactly the alerts that watch its interface and
   * are due; the global alert is raised by rejected packets too.
   */
  lemma AlertsAreRaised(t: Table, b: Books, out: bool, p: Packet)
    requires Mirrors(t, b)
    ensures (if out then BwOutput else BwInput) in t
    ensures var iface := if out then p.oif else p.iif;
            var notes := NotedIn(t, if out then BwOutput else BwInput, p);
            && (SocketExists in notes <==> MayUse(b, iface, p))
            && (b.globalAlert != 0 && "globalAlert" in p.over ==> OverQuota("globalAlert") in notes)
            && (MayUse(b, iface, p) ==>
                  forall name :: OverQuota(name) in notes <==> name in p.over && Watched(b, iface, name))
  {
    var ledger := if out then BwOutput else BwInput;
    var iface := if out then p.oif else p.iif;
    var rest := Jumps(out, b.jumps) + [TRACK];
    LedgerNotes(t, b, out, p);
    AlertFirst(t - {ledger}, b.globalAlert != 0, rest, p);
    assert AlertPart(b.globalAlert != 0) + rest == Ledger(out, b.globalAlert != 0, b.jumps);
    forall name
      ensures JumpNote(t, out, b.jumps, p, OverQuota(name))
              <==> name in p.over && Watched(b.(globalAlert := 0), iface, name)
    {
      hide JumpNote, Noted, MayUse, Watched, Alarmed;
      JumpNotesAreWatched(t, b, out, p, OverQuota(name));
      WatchedJumps(b, out, p, name);
    }
    hide JumpNote, Noted, MayUse, Jumps;
  }
}
