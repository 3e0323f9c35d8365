/**
 * NatController: tethering between an internal and an external interface, as
 * rules of natctrl_FORWARD, natctrl_nat_POSTROUTING and the counter chain.
 */
module Nat {
  import opened Iptables

  datatype Pair = Pair(inner: string, outer: string)

  function Swap(p: Pair): Pair {
    Pair(p.outer, p.inner)
  }

  const DROP_ALL := Rule(Any, Drop)

  function ReplyRule(p: Pair): Rule {
    Rule(BetweenIn(p.outer, p.inner, {Established, Related}), Goto(TetherCounters))
  }

  function InvalidRule(p: Pair): Rule {
    Rule(BetweenIn(p.inner, p.outer, {Invalid}), Drop)
  }

  function OutboundRule(p: Pair): Rule {
    Rule(Between(p.inner, p.outer), Goto(TetherCounters))
  }

  function CounterRule(p: Pair): Rule {
    Rule(Between(p.inner, p.outer), Return)
  }

  function MasqueradeRule(ext: string): Rule {
    Rule(OutTo(ext), Masquerade)
  }

  // ----------------------------------------------------- what the chains hold

  /** The forwarding rules of the enabled pairs, oldest first. */
  function ForwardRules(pairs: seq<Pair>): (r: seq<Rule>) {
    if pairs == [] then []
    else [ReplyRule(pairs[0]), InvalidRule(pairs[0]), OutboundRule(pairs[0])] + ForwardRules(pairs[1..])
  }

  function CounterRules(pairs: seq<Pair>): (r: seq<Rule>) {
    seq(|pairs|, i requires 0 <= i < |pairs| => CounterRule(pairs[i]))
  }

  function PairName(p: Pair): string {
    p.inner + "_" + p.outer
  }

  /** The names of the counted pairs, newest first, as ifacePairList keeps them. */
  function PairNames(pairs: seq<Pair>): (r: seq<string>) {
    if pairs == [] then []
    else [PairName(pairs[|pairs| - 1])] + PairNames(pairs[..|pairs| - 1])
  }

  /**
   * What a run has set up: the enabled pairs in the order of their enabling,
   * the counter rules in order, and the interface that is masqueraded.
   */
  datatype Tethering = Tethering(enabled: seq<Pair>, counted: seq<Pair>, upstream: string)

  /** The counter rules once `p` is to be counted. */
  function Counted(counted: seq<Pair>, p: Pair): (r: seq<Pair>) {
    if PairName(p) in PairNames(counted) then counted
    else if PairName(Swap(p)) in PairNames(counted + [p]) then counted + [p]
    else counted + [p] + [Swap(p)]
  }

  function Enable(t: Tethering, p: Pair): Tethering {
    Tethering(t.enabled + [p], Counted(t.counted, p), if t.enabled == [] then p.outer else t.upstream)
  }

  function Disable(t: Tethering, p: Pair): Tethering {
    t.(enabled := Without(t.enabled, p))
  }

  /** The chains, the list and the counter hold exactly this tethering. */
  ghost predicate Holds(chains: Table, names: seq<string>, natCount: int, t: Tethering) {
    && NatForward in chains && chains[NatForward] == ForwardRules(t.enabled) + [DROP_ALL]
    && Counts(chains, names, t.counted)
    && NatPostrouting in chains
    && chains[NatPostrouting] == (if t.enabled == [] then [] else [MasqueradeRule(t.upstream)])
    && natCount == |t.enabled|
  }

  ghost predicate Counts(chains: Table, names: seq<string>, counted: seq<Pair>) {
    && TetherCounters in chains && chains[TetherCounters] == CounterRules(counted)
    && names == PairNames(counted)
  }

  /** The chains setDefaults() leaves. */
  function Reset(chains: Table): (r: Table) {
    chains[NatForward := [DROP_ALL]][NatPostrouting := []]
  }

  lemma ResetHolds(chains: Table, names: seq<string>, counted: seq<Pair>, upstream: string)
    requires Counts(chains, names, counted)
    ensures Holds(Reset(chains), names, 0, Tethering([], counted, upstream))
  {
    NoForwardRules();
  }

  // --------------------------------------------------------- rule sequences

  lemma {:induction false} ForwardRulesAppend(pairs: seq<Pair>, p: Pair)
    ensures ForwardRules(pairs + [p]) == ForwardRules(pairs) + [ReplyRule(p), InvalidRule(p), OutboundRule(p)]
  {
    if pairs == [] {
      assert pairs + [p] == [p];
      assert ForwardRules([p][1..]) == [];
    } else {
      assert (pairs + [p])[1..] == pairs[1..] + [p];
      ForwardRulesAppend(pairs[1..], p);
    }
  }

  lemma NoForwardRules()
    ensures ForwardRules([]) + [DROP_ALL] == [DROP_ALL]
  {
  }

  lemma ForwardRulesFirst(q: Pair, pairs: seq<Pair>)
    ensures ForwardRules([q] + pairs) == [ReplyRule(q), InvalidRule(q), OutboundRule(q)] + ForwardRules(pairs)
  {
    assert ([q] + pairs)[1..] == pairs;
  }

  lemma {:induction false} NoBareDrop(pairs: seq<Pair>)
    ensures DROP_ALL !in ForwardRules(pairs)
  {
    if pairs != [] {
      NoBareDrop(pairs[1..]);
    }
  }

  /** The three rules of an enabled pair are there. */
  lemma {:induction false} RulesPresent(pairs: seq<Pair>, p: Pair)
    requires p in pairs
    ensures ReplyRule(p) in ForwardRules(pairs)
    ensures InvalidRule(p) in ForwardRules(pairs)
    ensures OutboundRule(p) in ForwardRules(pairs)
  {
    if pairs[0] != p {
      RulesPresent(pairs[1..], p);
    }
  }

  function DeleteRules(rules: seq<Rule>, p: Pair): seq<Rule> {
    Without(Without(Without(rules, ReplyRule(p)), InvalidRule(p)), OutboundRule(p))
  }

  /** Deleting the first copy of each of its rules takes out the oldest enabling of a pair. */
  lemma {:induction false} DeletePair(pairs: seq<Pair>, p: Pair, rest: seq<Rule>)
    requires p in pairs
    ensures DeleteRules(ForwardRules(pairs) + rest, p) == ForwardRules(Without(pairs, p)) + rest
  {
    hide *;
    var q := pairs[0];
    assert pairs == [q] + pairs[1..];
    if q == p {
      DeleteHead(p, pairs[1..], rest);
      WithoutFirst(p, pairs[1..]);
    } else {
      DeletePair(pairs[1..], p, rest);
      KeepHead(q, pairs[1..], p, rest);
      var kept := Without(pairs[1..], p);
      WithoutSkips([q], p, pairs[1..]);
      ForwardRulesFirst(q, kept);
    }
  }

  lemma DeleteHead(p: Pair, pairs: seq<Pair>, rest: seq<Rule>)
    ensures DeleteRules(ForwardRules([p] + pairs) + rest, p) == ForwardRules(pairs) + rest
  {
    var tail := ForwardRules(pairs) + rest;
    ForwardRulesFirst(p, pairs);
    hide Without, ForwardRules, ReplyRule, InvalidRule, OutboundRule;
    assert ForwardRules([p] + pairs) + rest == [ReplyRule(p)] + ([InvalidRule(p)] + ([OutboundRule(p)] + tail));
    WithoutFirst(ReplyRule(p), [InvalidRule(p)] + ([OutboundRule(p)] + tail));
    WithoutFirst(InvalidRule(p), [OutboundRule(p)] + tail);
    WithoutFirst(OutboundRule(p), tail);
  }

  /** Deleting the rules of one pair leaves the rules of another pair in front alone. */
  lemma KeepHead(q: Pair, pairs: seq<Pair>, p: Pair, rest: seq<Rule>)
    requires q != p
    ensures DeleteRules(ForwardRules([q] + pairs) + rest, p)
         == [ReplyRule(q), InvalidRule(q), OutboundRule(q)] + DeleteRules(ForwardRules(pairs) + rest, p)
  {
    var head := [ReplyRule(q), InvalidRule(q), OutboundRule(q)];
    var tail := ForwardRules(pairs) + rest;
    assert ([q] + pairs)[1..] == pairs;
    assert ForwardRules([q] + pairs) + rest == head + tail;
    assert ReplyRule(p) !in head && InvalidRule(p) !in head && OutboundRule(p) !in head;
    hide Without, ForwardRules, ReplyRule, InvalidRule, OutboundRule;
    var t1 := Without(tail, ReplyRule(p));
    WithoutSkips(head, ReplyRule(p), tail);
    WithoutSkips(head, InvalidRule(p), t1);
    WithoutSkips(head, OutboundRule(p), Without(t1, InvalidRule(p)));
  }

  /** Re-appending the bare DROP leaves it last and alone. */
  lemma MoveDropLast(pairs: seq<Pair>, p: Pair)
    ensures Without(ForwardRules(pairs) + [DROP_ALL] + [ReplyRule(p)] + [InvalidRule(p)] + [OutboundRule(p)],
                    DROP_ALL) + [DROP_ALL]
         == ForwardRules(pairs + [p]) + [DROP_ALL]
  {
    var added := [ReplyRule(p), InvalidRule(p), OutboundRule(p)];
    NoBareDrop(pairs);
    ForwardRulesAppend(pairs, p);
    assert ForwardRules(pairs) + [DROP_ALL] + [ReplyRule(p)] + [InvalidRule(p)] + [OutboundRule(p)]
        == ForwardRules(pairs) + ([DROP_ALL] + added);
    WithoutSkips(ForwardRules(pairs), DROP_ALL, [DROP_ALL] + added);
    assert ([DROP_ALL] + added)[1..] == added;
  }

  lemma CounterAppended(counted: seq<Pair>, p: Pair)
    ensures CounterRules(counted + [p]) == CounterRules(counted) + [CounterRule(p)]
    ensures PairNames(counted + [p]) == [PairName(p)] + PairNames(counted)
  {
    assert (counted + [p])[..|counted|] == counted;
  }

  lemma HoldsChains(chains: Table, names: seq<string>, natCount: int, t: Tethering)
    requires Holds(chains, names, natCount, t)
    ensures NatForward in chains && NatPostrouting in chains && TetherCounters in chains
    ensures Counts(chains, names, t.counted) && natCount == |t.enabled|
  {
  }

  lemma CountsChains(chains: Table, names: seq<string>, counted: seq<Pair>, after: Table)
    requires Counts(chains, names, counted)
    requires TetherCounters in chains && TetherCounters in after && after[TetherCounters] == chains[TetherCounters]
    ensures Counts(after, names, counted)
  {
  }

  lemma CountersThere(chains: Table, names: seq<string>, counted: seq<Pair>)
    requires Counts(chains, names, counted)
    ensures TetherCounters in chains
  {
  }

  lemma {:induction false} ForwardRulesLength(pairs: seq<Pair>)
    ensures |ForwardRules(pairs)| == 3 * |pairs|
  {
    if pairs != [] {
      ForwardRulesLength(pairs[1..]);
    }
  }

  /** Forwarding rules of a pair that is not recorded. */
  lemma NotHeld(chains: Table, names: seq<string>, natCount: int, t: Tethering, t': Tethering, p: Pair)
    requires NatForward in chains && chains[NatForward] == ForwardRules(t.enabled + [p]) + [DROP_ALL]
    requires t'.enabled == t.enabled
    ensures !Holds(chains, names, natCount, t')
  {
    hide Counts, ForwardRules;
    ForwardRulesLength(t.enabled + [p]);
    ForwardRulesLength(t.enabled);
  }

  lemma EnabledFields(t: Tethering, p: Pair)
    ensures var t' := Enable(t, p);
            && t'.enabled == t.enabled + [p] && multiset(t'.enabled) == multiset(t.enabled) + multiset{p}
            && t'.counted == Counted(t.counted, p)
  {
  }

  lemma DisabledFields(t: Tethering, p: Pair)
    ensures Disable(t, p).counted == t.counted
  {
  }

  lemma SetUpHolds(t: Table, t1: Table, t2: Table)
    requires NatForward in t && NatPostrouting in t && t1 == Reset(t)[TetherCounters := []]
    requires t2 == t1 || t2 == Apply(t1, Append(NatMangleForward, Rule(TcpSyn, ClampMss)))
    ensures Holds(t2, [], 0, Tethering([], [], ""))
  {
    assert ForwardRules([]) + [DROP_ALL] == [DROP_ALL];
  }

  /** No rule is lost, and none is left but the pair's own. */
  ghost predicate Residue(was: seq<Rule>, now: seq<Rule>, p: Pair) {
    && multiset(was) <= multiset(now)
    && multiset(now) <= multiset(was) + multiset{ReplyRule(p), InvalidRule(p), OutboundRule(p)}
  }

  /** A -D that may be refused for no reason. */
  ghost predicate MaybeDeleted(was: seq<Rule>, now: seq<Rule>, r: Rule) {
    now == was || (r in was && now == Without(was, r))
  }

  lemma NoResidue(was: seq<Rule>, p: Pair)
    ensures Residue(was, was, p)
  {
  }

  lemma MaybeOneLess(was: seq<Rule>, now: seq<Rule>, r: Rule)
    requires MaybeDeleted(was, now, r)
    ensures multiset(now) == multiset(was) || multiset(was) == multiset(now) + multiset{r}
  {
    WithoutRemovesOne(was, r);
  }

  /** At most what was put in is taken out. */
  lemma Sandwiched<T>(b: multiset<T>, x: multiset<T>, y: multiset<T>, z: multiset<T>, i: multiset<T>, r: multiset<T>,
                      o: multiset<T>)
    requires x == b + r + i + o && (y == x || y + i == x) && (z == y || z + r == y)
    ensures b <= z <= b + (r + i + o)
  {
    forall t
      ensures b[t] <= z[t] <= (b + (r + i + o))[t]
    {
      assert x[t] == b[t] + r[t] + i[t] + o[t] && (b + (r + i + o))[t] == x[t];
      assert (y + i)[t] == y[t] + i[t] && (z + r)[t] == z[t] + r[t];
    }
  }

  lemma ResidueIsBetween(was: seq<Rule>, now: seq<Rule>, p: Pair)
    requires var own := multiset{ReplyRule(p)} + multiset{InvalidRule(p)} + multiset{OutboundRule(p)};
             multiset(was) <= multiset(now) <= multiset(was) + own
    ensures Residue(was, now, p)
  {
    hide ReplyRule, InvalidRule, OutboundRule;
    assert multiset{ReplyRule(p), InvalidRule(p), OutboundRule(p)} ==
           multiset{ReplyRule(p)} + multiset{InvalidRule(p)} + multiset{OutboundRule(p)};
  }

  lemma Laid<T>(before: seq<T>, r: T, i: T, own: seq<T>)
    ensures multiset(before + [r] + [i] + own) == multiset(before) + multiset{r} + multiset{i} + multiset(own)
  {
  }

  /** The unwinding in setForwardRules(), as far as it gets; the outbound rule may have been added or not. */
  lemma TakenBack(before: seq<Rule>, invalid: seq<Rule>, reply: seq<Rule>, now: seq<Rule>, p: Pair, out: bool)
    requires invalid == before + [ReplyRule(p)] + [InvalidRule(p)] + if out then [OutboundRule(p)] else []
    requires MaybeDeleted(invalid, reply, InvalidRule(p)) && MaybeDeleted(reply, now, ReplyRule(p))
    ensures Residue(before, now, p)
  {
    hide MaybeDeleted, ReplyRule, InvalidRule, OutboundRule, Residue;
    MaybeOneLess(invalid, reply, InvalidRule(p));
    MaybeOneLess(reply, now, ReplyRule(p));
    var own := if out then [OutboundRule(p)] else [];
    Laid(before, ReplyRule(p), InvalidRule(p), own);
    Sandwiched(multiset(before), multiset(invalid), multiset(reply), multiset(now), multiset{InvalidRule(p)},
            multiset{ReplyRule(p)}, multiset(own));
    ResidueIsBetween(before, now, p);
  }

  lemma TakenBackOne(before: seq<Rule>, reply: seq<Rule>, now: seq<Rule>, p: Pair)
    requires reply == before + [ReplyRule(p)] && MaybeDeleted(reply, now, ReplyRule(p))
    ensures Residue(before, now, p)
  {
    hide MaybeDeleted, ReplyRule, InvalidRule, OutboundRule, Residue;
    MaybeOneLess(reply, now, ReplyRule(p));
    assert multiset(reply) == multiset(before) + multiset{ReplyRule(p)};
    Sandwiched(multiset(before), multiset(reply), multiset(reply), multiset(now), multiset{}, multiset{ReplyRule(p)},
               multiset{});
    ResidueIsBetween(before, now, p);
  }

  /** What is left when the rules of a pair are deleted. */
  lemma DisabledHolds(chains: Table, names: seq<string>, natCount: int, t: Tethering, p: Pair, after: Table)
    requires Holds(chains, names, natCount, t) && p in t.enabled
    requires after.Keys == chains.Keys
    requires after[NatForward] == DeleteRules(chains[NatForward], p)
    requires Counts(after, names, t.counted)
    requires after[NatPostrouting] == chains[NatPostrouting]
    ensures multiset(t.enabled) - multiset{p} == multiset(Disable(t, p).enabled)
    ensures natCount > 1 ==> Holds(after, names, natCount - 1, Disable(t, p))
    ensures natCount <= 1 ==> Holds(Reset(after), names, 0, Disable(t, p))
  {
    hide Counts, DeleteRules, Without, ForwardRules;
    DeletePair(t.enabled, p, [DROP_ALL]);
    WithoutRemovesOne(t.enabled, p);
    ResetHolds(after, names, t.counted, t.upstream);
  }

  /** What is there when the rules of a pair are appended. */
  lemma EnabledHolds(chains: Table, names: seq<string>, natCount: int, t: Tethering, p: Pair, after: Table,
                     namesAfter: seq<string>)
    requires Holds(chains, names, natCount, t)
    requires after.Keys == chains.Keys
    requires after[NatForward] ==
               Without(chains[NatForward] + [ReplyRule(p)] + [InvalidRule(p)] + [OutboundRule(p)], DROP_ALL) +
                 [DROP_ALL]
    requires Counts(after, namesAfter, Counted(t.counted, p))
    requires natCount == 0 ==> after[NatPostrouting] == chains[NatPostrouting] + [MasqueradeRule(p.outer)]
    requires natCount != 0 ==> after[NatPostrouting] == chains[NatPostrouting]
    ensures after[NatForward] == ForwardRules(t.enabled + [p]) + [DROP_ALL]
    ensures Holds(after, namesAfter, natCount + 1, Enable(t, p))
    ensures natCount == 0 ==> Holds(Reset(after), namesAfter, 0, t.(counted := Counted(t.counted, p)))
  {
    hide Counts, Counted, Without, ForwardRules, ReplyRule, InvalidRule, OutboundRule;
    MoveDropLast(t.enabled, p);
    ResetHolds(after, namesAfter, Counted(t.counted, p), t.upstream);
  }

  // ------------------------------------------------------------ the verdict

  /** Forwarding is allowed outward unless invalid, inward only as a reply. */
  ghost predicate Allows(q: Pair, p: Packet) {
    || (p.iif == q.inner && p.oif == q.outer && p.state != Invalid)
    || (p.iif == q.outer && p.oif == q.inner && p.state in {Established, Related})
  }

  lemma {:induction false} CountersPass(t: Table, counted: seq<Pair>, p: Packet)
    ensures Traverse(t, CounterRules(counted), p) == Passes
  {
    if counted != [] {
      assert CounterRules(counted)[1..] == CounterRules(counted[1..]);
      CountersPass(t, counted[1..], p);
    }
  }

  /** What the rules of one pair do. */
  lemma TraversePair(t: Table, q: Pair, tail: seq<Rule>, counted: seq<Pair>, p: Packet)
    requires TetherCounters in t && t[TetherCounters] == CounterRules(counted)
    ensures Traverse(t, [ReplyRule(q), InvalidRule(q), OutboundRule(q)] + tail, p)
         == if Allows(q, p) then Passes
            else if p.iif == q.inner && p.oif == q.outer then Dropped
            else Traverse(t, tail, p)
  {
    CountersPass(t - {TetherCounters}, counted, p);
    hide Traverse, CounterRules;
    var last := [OutboundRule(q)] + tail;
    assert [ReplyRule(q), InvalidRule(q), OutboundRule(q)] + tail == [ReplyRule(q)] + ([InvalidRule(q)] + last);
    TraverseStep(t, ReplyRule(q), [InvalidRule(q)] + last, p);
    TraverseStep(t, InvalidRule(q), last, p);
    TraverseStep(t, OutboundRule(q), tail, p);
  }

  lemma {:induction false} TraverseForward(t: Table, enabled: seq<Pair>, counted: seq<Pair>, p: Packet)
    requires TetherCounters in t && t[TetherCounters] == CounterRules(counted)
    ensures Traverse(t, ForwardRules(enabled) + [DROP_ALL], p)
         == if exists q :: q in enabled && Allows(q, p) then Passes else Dropped
  {
    if enabled == [] {
      assert ForwardRules(enabled) + [DROP_ALL] == [DROP_ALL];
    } else {
      var q := enabled[0];
      TraverseForward(t, enabled[1..], counted, p);
      TraversePair(t, q, ForwardRules(enabled[1..]) + [DROP_ALL], counted, p);
      assert ForwardRules(enabled) + [DROP_ALL]
          == [ReplyRule(q), InvalidRule(q), OutboundRule(q)] + (ForwardRules(enabled[1..]) + [DROP_ALL]);
      hide Traverse, ForwardRules, CounterRules, ReplyRule, InvalidRule, OutboundRule;
      if !Allows(q, p) && p.iif == q.inner && p.oif == q.outer {
        assert !exists r :: r in enabled && Allows(r, p);
      } else if !Allows(q, p) {
        assert forall r :: r in enabled <==> r == q || r in enabled[1..];
      }
    }
  }

  /**
   * A forwarded packet passes natctrl_FORWARD if and only if some enabled pair
   * allows it; every other packet is dropped.
   */
  lemma ForwardVerdict(chains: Table, names: seq<string>, natCount: int, t: Tethering, p: Packet)
    requires Holds(chains, names, natCount, t)
    ensures VerdictIn(chains, NatForward, p) == if exists q :: q in t.enabled && Allows(q, p) then Passes else Dropped
  {
    TraverseForward(chains - {NatForward}, t.enabled, t.counted, p);
  }

  /** A packet on its way out has its source rewritten. */
  ghost predicate Masqueraded(chains: Table, p: Packet) {
    NatPostrouting in chains && exists r :: r in chains[NatPostrouting] && r.target.Masquerade? && Matches(r.when, p)
  }

  /** Exactly what leaves by the upstream interface is masqueraded, while something is enabled. */
  lemma MasqueradeVerdict(chains: Table, names: seq<string>, natCount: int, t: Tethering, p: Packet)
    requires Holds(chains, names, natCount, t)
    ensures Masqueraded(chains, p) <==> t.enabled != [] && p.oif == t.upstream
  {
    hide ForwardRules, Counts;
    if t.enabled != [] {
      assert chains[NatPostrouting][0] in chains[NatPostrouting];
    }
  }

  /** A counter takes exactly the packets that go from its first interface to its second. */
  lemma CountersTake(chains: Table, names: seq<string>, natCount: int, t: Tethering, p: Packet, k: nat)
    requires Holds(chains, names, natCount, t) && k < |t.counted|
    ensures |chains[TetherCounters]| == |t.counted|
    ensures Matches(chains[TetherCounters][k].when, p) <==> t.counted[k].inner == p.iif && t.counted[k].outer == p.oif
    ensures chains[TetherCounters][k].target == Return
  {
  }

  // ------------------------------------------------------------------- runs

  datatype NatCommand = Enabling(pair: Pair) | Disabling(pair: Pair)

  function After(t: Tethering, cmd: NatCommand): Tethering {
    match cmd
    case Enabling(p) => Enable(t, p)
    case Disabling(p) => Disable(t, p)
  }

  function AfterAll(t: Tethering, cmds: seq<NatCommand>): Tethering
    decreases |cmds|
  {
    if cmds == [] then t else AfterAll(After(t, cmds[0]), cmds[1..])
  }

  /** The upstream is that of the pair enabled when nothing was, for as long as something stays enabled. */
  lemma {:induction false} UpstreamStays(t: Tethering, cmds: seq<NatCommand>)
    requires forall k :: 0 <= k <= |cmds| ==> AfterAll(t, cmds[..k]).enabled != []
    ensures AfterAll(t, cmds).upstream == t.upstream
    decreases |cmds|
  {
    assert cmds[..0] == [];
    if cmds != [] {
      forall k | 0 <= k <= |cmds| - 1
        ensures AfterAll(After(t, cmds[0]), cmds[1..][..k]).enabled != []
      {
        assert cmds[..k + 1][1..] == cmds[1..][..k];
        assert AfterAll(t, cmds[..k + 1]).enabled != [];
      }
      UpstreamStays(After(t, cmds[0]), cmds[1..]);
    }
  }

  lemma UpstreamIsFirst(t: Tethering, p: Pair, cmds: seq<NatCommand>)
    requires t.enabled == []
    requires forall k :: 0 <= k <= |cmds| ==> AfterAll(Enable(t, p), cmds[..k]).enabled != []
    ensures AfterAll(t, [Enabling(p)] + cmds).upstream == p.outer
  {
    assert ([Enabling(p)] + cmds)[1..] == cmds;
    UpstreamStays(Enable(t, p), cmds);
  }

  /** Every command can succeed: names that can be used, and only enabled pairs are disabled. */
  ghost predicate Succeeds(t: Tethering, cmds: seq<NatCommand>)
    decreases |cmds|
  {
    cmds == [] ||
    ((if cmds[0].Enabling? then Nameable(cmds[0].pair) else cmds[0].pair in t.enabled)
     && Succeeds(After(t, cmds[0]), cmds[1..]))
  }

  /** The pairs the commands enable, or disable. */
  function Pairs(cmds: seq<NatCommand>, enabling: bool): multiset<Pair> {
    if cmds == [] then multiset{}
    else (if cmds[0].Enabling? == enabling then multiset{cmds[0].pair} else multiset{}) + Pairs(cmds[1..], enabling)
  }

  /** What is enabled after a run is what was enabled and not disabled, each pair as often as the difference. */
  lemma {:induction false} RunBalances(t: Tethering, cmds: seq<NatCommand>)
    requires Succeeds(t, cmds)
    ensures multiset(AfterAll(t, cmds).enabled) + Pairs(cmds, false) == multiset(t.enabled) + Pairs(cmds, true)
    decreases |cmds|
  {
    if cmds != [] {
      var p := cmds[0].pair;
      var t' := After(t, cmds[0]);
      RunBalances(t', cmds[1..]);
      OneStepBalances(t, cmds[0]);
      var last, was, now := multiset(AfterAll(t, cmds).enabled), multiset(t.enabled), multiset(t'.enabled);
      var out, inn := Pairs(cmds[1..], false), Pairs(cmds[1..], true);
      assert last + out == now + inn;
      PairsCons(cmds);
      hide *;
      if cmds[0].Enabling? {
        OneIn(last, out, inn, was, p);
      } else {
        OneOut(last, out, inn, now, p);
      }
    }
  }

  lemma OneIn(last: multiset<Pair>, out: multiset<Pair>, inn: multiset<Pair>, was: multiset<Pair>, p: Pair)
    ensures last + out == was + multiset{p} + inn <==> last + (multiset{} + out) == was + (multiset{p} + inn)
  {
    assert multiset{} + out == out;
    assert was + multiset{p} + inn == was + (multiset{p} + inn);
  }

  lemma OneOut(last: multiset<Pair>, out: multiset<Pair>, inn: multiset<Pair>, now: multiset<Pair>, p: Pair)
    requires last + out == now + inn
    ensures last + (multiset{p} + out) == now + multiset{p} + (multiset{} + inn)
  {
    assert last + (multiset{p} + out) == last + out + multiset{p};
    assert now + multiset{p} + (multiset{} + inn) == now + inn + multiset{p};
  }

  lemma OneStepBalances(t: Tethering, cmd: NatCommand)
    requires cmd.Disabling? ==> cmd.pair in t.enabled
    ensures cmd.Enabling? ==> multiset(After(t, cmd).enabled) == multiset(t.enabled) + multiset{cmd.pair}
    ensures cmd.Disabling? ==> multiset(t.enabled) == multiset(After(t, cmd).enabled) + multiset{cmd.pair}
  {
    WithoutRemovesOne(t.enabled, cmd.pair);
  }

  lemma PairsCons(cmds: seq<NatCommand>)
    requires cmds != []
    ensures forall enabling :: Pairs(cmds, enabling) ==
              (if cmds[0].Enabling? == enabling then multiset{cmds[0].pair} else multiset{}) +
                Pairs(cmds[1..], enabling)
  {
  }

  // ---------------------------------------------------------- the controller

  lemma PairTargets(known: set<Chain>, p: Pair)
    requires TetherCounters in known
    ensures TargetKnown(known, ReplyRule(p)) && TargetKnown(known, InvalidRule(p))
            && TargetKnown(known, OutboundRule(p))
  {
  }

  predicate Nameable(p: Pair) {
    IfaceName(p.inner) && IfaceName(p.outer) && p.inner != p.outer
  }

  class NatController {
    /** The IPv4 tables. */
    var chains: Table
    var ifacePairList: seq<string>
    var natCount: int
    /** The tethering rules RouteController holds for these pairs. */
    var tethers: multiset<Pair>
    /** Whether iptables fails only when the table gives it a reason to. */
    const reliable: bool
    ghost var view: Tethering

    /** natCount is left as the allocation found it. */
    constructor (chains: Table, garbage: int, reliable: bool)
      ensures this.chains == chains && ifacePairList == [] && tethers == multiset{} && this.reliable == reliable
    {
      this.chains := chains;
      this.reliable := reliable;
      ifacePairList := [];
      natCount := garbage;
      tethers := multiset{};
      view := Tethering([], [], "");
    }

    ghost predicate Settled()
      reads this
    {
      && Holds(chains, ifacePairList, natCount, view)
      && tethers == multiset(view.enabled)
    }

    /** What iptables and RouteController cannot upset: the count, the tethering rules, and the names counted. */
    ghost predicate Steady()
      reads this
    {
      && NatForward in chains && NatPostrouting in chains
      && Counts(chains, ifacePairList, view.counted)
      && tethers == multiset(view.enabled) && natCount == |tethers|
    }

    lemma SettledIsSteady()
      requires Settled()
      ensures Steady()
    {
      HoldsChains(chains, ifacePairList, natCount, view);
    }

    method RunCmd(cmd: Command) returns (res: int)
      modifies this`chains
      ensures res == 0 ==> !Refused(old(chains), cmd)
      ensures reliable && res != 0 ==> Refused(old(chains), cmd)
      ensures chains == if res == 0 then Apply(old(chains), cmd) else old(chains)
    {
      if !reliable {
        if * {
          return 1;
        }
      }
      res := if Refused(chains, cmd) then 1 else 0;
      chains := Apply(chains, cmd);
    }

    method SetDefaults() returns (ret: int)
      modifies this`chains, this`natCount
      ensures ret == 0 || ret == -1
      ensures reliable && NatForward in old(chains) && NatPostrouting in old(chains) ==> ret == 0
      ensures ret == 0 ==> NatForward in old(chains) && NatPostrouting in old(chains)
      ensures ret == 0 ==> chains == Reset(old(chains)) && natCount == 0
      ensures natCount == 0 || natCount == old(natCount)
      ensures chains.Keys == old(chains).Keys
      ensures forall c :: c in chains && c != NatForward && c != NatPostrouting ==> chains[c] == old(chains)[c]
    {
      var res := RunCmd(Flush(NatForward));
      if res != 0 {
        return -1;
      }
      res := RunCmd(Append(NatForward, DROP_ALL));
      if res != 0 {
        return -1;
      }
      res := RunCmd(Flush(NatPostrouting));
      if res != 0 {
        return -1;
      }
      natCount := 0;
      assert chains[NatForward] == [DROP_ALL];
      return 0;
    }

    /** The counter chain is made anew. */
    method RenewCounters() returns (res: int)
      modifies this`chains
      ensures res == 0 ==> chains == old(chains)[TetherCounters := []]
    {
      res := RunCmd(Flush(TetherCounters));
      res := RunCmd(DeleteChain(TetherCounters));
      res := RunCmd(NewChain(TetherCounters));
    }

    /** Success leaves nothing enabled and nothing counted. */
    method SetupIptablesHooks() returns (ret: int)
      modifies this
      ensures tethers == old(tethers)
      ensures ret == 0 ==> view == Tethering([], [], "") && Holds(chains, ifacePairList, natCount, view)
      ensures NatForward !in old(chains) || NatPostrouting !in old(chains) ==> ret != 0
    {
      hide Reset, Apply, Refused, Holds;
      ghost var before := chains;
      ret := SetDefaults();
      if ret < 0 {
        return;
      }
      var res := RenewCounters();
      if res != 0 {
        return -1;
      }
      ghost var renewed := chains;
      res := RunCmd(Append(NatMangleForward, Rule(TcpSyn, ClampMss)));
      SetUpHolds(before, renewed, chains);
      ifacePairList := [];
      view := Tethering([], [], "");
      ret := 0;
    }

    method CheckTetherCountingRuleExist(pairName: string) returns (found: bool)
      ensures found == (pairName in ifacePairList)
    {
      for i := 0 to |ifacePairList|
        invariant pairName !in ifacePairList[..i]
      {
        if ifacePairList[i] == pairName {
          return true;
        }
        assert ifacePairList[..i + 1] == ifacePairList[..i] + [ifacePairList[i]];
      }
      assert ifacePairList[..|ifacePairList|] == ifacePairList;
      return false;
    }

    /** `after` is what is counted then; a failure leaves it at most one direction ahead. */
    method SetTetherCountingRules(add: bool, p: Pair, ghost counted: seq<Pair>)
      returns (ret: int, ghost after: seq<Pair>)
      requires Counts(chains, ifacePairList, counted)
      modifies this`chains, this`ifacePairList
      ensures reliable || !add ==> ret == 0
      ensures Counts(chains, ifacePairList, after)
      ensures ret == 0 ==> after == if add then Counted(counted, p) else counted
      ensures ret != 0 ==> after == counted || after == counted + [p]
      ensures !add ==> ifacePairList == old(ifacePairList)
      ensures chains.Keys == old(chains).Keys
      ensures forall c :: c in chains && c != TetherCounters ==> chains[c] == old(chains)[c]
    {
      if !add {
        return 0, counted;
      }
      hide Counts, CounterRules, PairNames, PairName;
      CounterAppended(counted, p);
      var known;
      known, ret := CountPair(p, counted);
      if known || ret != 0 {
        return ret, counted;
      }
      known, ret := CountPair(Swap(p), counted + [p]);
      after := if known || ret != 0 then counted + [p] else counted + [p] + [Swap(p)];
    }

    /** Appends the counter rule of one direction, unless it is counted already. */
    method CountPair(p: Pair, ghost counted: seq<Pair>) returns (known: bool, ret: int)
      requires Counts(chains, ifacePairList, counted)
      modifies this`chains, this`ifacePairList
      ensures known == (PairName(p) in PairNames(counted))
      ensures reliable || known ==> ret == 0
      ensures Counts(chains, ifacePairList, if known || ret != 0 then counted else counted + [p])
      ensures chains.Keys == old(chains).Keys
      ensures forall c :: c in chains && c != TetherCounters ==> chains[c] == old(chains)[c]
    {
      known := CheckTetherCountingRuleExist(PairName(p));
      if known {
        return true, 0;
      }
      ret := RunCmd(Append(TetherCounters, CounterRule(p)));
      if ret != 0 {
        return false, -1;
      }
      ifacePairList := [PairName(p)] + ifacePairList;
      CounterAppended(counted, p);
    }

    /** Appends a rule to a chain or deletes its first copy. */
    method Edit(add: bool, chain: Chain, rule: Rule) returns (res: int)
      requires chain in chains && TargetKnown(chains.Keys, rule)
      modifies this`chains
      ensures reliable && add ==> res == 0
      ensures chains.Keys == old(chains).Keys
      ensures forall c :: c in chains && c != chain ==> chains[c] == old(chains)[c]
      ensures res != 0 ==> chains == old(chains)
      ensures res == 0 && !add ==> rule in old(chains)[chain]
      ensures reliable || res == 0 ==>
                chains[chain] == if add then old(chains)[chain] + [rule] else Without(old(chains)[chain], rule)
    {
      WithoutRemovesOne(chains[chain], rule);
      res := RunCmd(if add then Append(chain, rule) else Delete(chain, rule));
    }

    /**
     * Adding appends the three rules of the pair; removing deletes the first
     * copy of each. When adding fails, what was added is taken back as far as
     * iptables lets it, and nothing else is lost.
     */
    method SetForwardRules(add: bool, p: Pair, ghost counted: seq<Pair>) returns (ret: int, ghost after: seq<Pair>)
      requires NatForward in chains && Counts(chains, ifacePairList, counted)
      modifies this`chains, this`ifacePairList
      ensures reliable || !add ==> ret == 0
      ensures Counts(chains, ifacePairList, after)
      ensures ret == 0 ==> after == if add then Counted(counted, p) else counted
      ensures ret != 0 ==> after == counted || after == counted + [p]
      ensures !add ==> ifacePairList == old(ifacePairList)
      ensures chains.Keys == old(chains).Keys
      ensures reliable ==> chains[NatForward] == if add
                then old(chains)[NatForward] + [ReplyRule(p)] + [InvalidRule(p)] + [OutboundRule(p)]
                else DeleteRules(old(chains)[NatForward], p)
      ensures ret == 0 && add ==>
                chains[NatForward] == old(chains)[NatForward] + [ReplyRule(p)] + [InvalidRule(p)] + [OutboundRule(p)]
      ensures ret != 0 ==> Residue(old(chains)[NatForward], chains[NatForward], p)
      ensures forall c :: c in chains && c != NatForward && c != TetherCounters ==> chains[c] == old(chains)[c]
    {
      hide Without, Apply, Refused, CounterRules, PairNames, Counted, TargetKnown, ReplyRule, InvalidRule, OutboundRule;
      hide DeleteRules, Residue;
      ghost var before := chains;
      after := counted;
      ret := EditPairRules(add, p);
      CountsChains(before, ifacePairList, counted, chains);
      if ret != 0 {
        return;
      }
      PairTargets(chains.Keys, p);
      var res;
      res, after := SetTetherCountingRules(add, p, counted);
      if res != 0 && add {
        ghost var counting := chains;
        ghost var invalid := chains[NatForward];
        res := Edit(false, NatForward, InvalidRule(p));
        ghost var reply := chains[NatForward];
        res := Edit(false, NatForward, ReplyRule(p));
        CountsChains(counting, ifacePairList, after, chains);
        TakenBack(before[NatForward], invalid, reply, chains[NatForward], p, true);
        ret := -1;
      }
    }

    /** The three rules themselves; a failure to add one takes the earlier ones back. */
    method EditPairRules(add: bool, p: Pair) returns (ret: int)
      requires NatForward in chains && TetherCounters in chains
      modifies this`chains
      ensures reliable || !add ==> ret == 0
      ensures chains.Keys == old(chains).Keys
      ensures reliable || (add && ret == 0) ==> chains[NatForward] == if add
                then old(chains)[NatForward] + [ReplyRule(p)] + [InvalidRule(p)] + [OutboundRule(p)]
                else DeleteRules(old(chains)[NatForward], p)
      ensures ret != 0 ==> Residue(old(chains)[NatForward], chains[NatForward], p)
      ensures forall c :: c in chains && c != NatForward ==> chains[c] == old(chains)[c]
    {
      PairTargets(chains.Keys, p);
      ghost var before := chains[NatForward];
      hide Without, Apply, Refused, TargetKnown, ReplyRule, InvalidRule, OutboundRule, Residue;
      var res := Edit(add, NatForward, ReplyRule(p));
      if res != 0 && add {
        NoResidue(before, p);
        return -1;
      }
      res := Edit(add, NatForward, InvalidRule(p));
      if res != 0 && add {
        ghost var reply := chains[NatForward];
        res := Edit(false, NatForward, ReplyRule(p));
        TakenBackOne(before, reply, chains[NatForward], p);
        return -1;
      }
      res := Edit(add, NatForward, OutboundRule(p));
      if res != 0 && add {
        ghost var invalid := chains[NatForward];
        res := Edit(false, NatForward, InvalidRule(p));
        ghost var reply := chains[NatForward];
        res := Edit(false, NatForward, ReplyRule(p));
        TakenBack(before, invalid, reply, chains[NatForward], p, false);
        return -1;
      }
      return 0;
    }

    /** Always make sure the bare DROP is at the end. */
    method RenewDrop()
      requires NatForward in chains
      modifies this`chains
      ensures chains.Keys == old(chains).Keys
      ensures reliable ==> chains[NatForward] == Without(old(chains)[NatForward], DROP_ALL) + [DROP_ALL]
      ensures forall c :: c in chains && c != NatForward ==> chains[c] == old(chains)[c]
    {
      hide Without, Apply, Refused;
      var res := Edit(false, NatForward, DROP_ALL);
      res := Edit(true, NatForward, DROP_ALL);
    }

    /** setDefaults() if nothing is enabled. */
    method ResetIfIdle(ghost counted: seq<Pair>)
      requires Counts(chains, ifacePairList, counted)
      modifies this`chains, this`natCount
      ensures natCount == old(natCount) && chains.Keys == old(chains).Keys
      ensures Counts(chains, ifacePairList, counted)
      ensures natCount != 0 ==> chains == old(chains)
      ensures reliable && natCount == 0 && NatForward in chains && NatPostrouting in chains ==>
                chains == Reset(old(chains))
    {
      CountersThere(chains, ifacePairList, counted);
      hide Counts, Reset;
      ghost var before := chains;
      if natCount == 0 {
        var res := SetDefaults();
        CountsChains(before, ifacePairList, counted, chains);
      }
    }

    /** Forwarding rules and counters of a pair, with the bare DROP moved behind them. */
    method LayPair(p: Pair, ghost counted: seq<Pair>) returns (ret: int, ghost after: seq<Pair>)
      requires NatForward in chains && Counts(chains, ifacePairList, counted)
      modifies this`chains, this`ifacePairList, this`natCount
      ensures reliable ==> ret == 0
      ensures natCount == old(natCount) && chains.Keys == old(chains).Keys
      ensures Counts(chains, ifacePairList, after)
      ensures ret == 0 ==> after == Counted(counted, p)
      ensures ret != 0 ==> after == counted || after == counted + [p]
      ensures ret != 0 && natCount != 0 ==> Residue(old(chains)[NatForward], chains[NatForward], p)
      ensures reliable ==>
                chains[NatForward] ==
                Without(old(chains)[NatForward] + [ReplyRule(p)] + [InvalidRule(p)] + [OutboundRule(p)], DROP_ALL) +
                  [DROP_ALL]
      ensures reliable ==> forall c :: c in chains && c != NatForward && c != TetherCounters ==>
                chains[c] == old(chains)[c]
    {
      CountersThere(chains, ifacePairList, counted);
      hide Counts, Reset, Without, Counted, ReplyRule, InvalidRule, OutboundRule, Residue;
      ret, after := SetForwardRules(true, p, counted);
      ghost var counting := chains;
      if ret != 0 {
        ResetIfIdle(after);
        return -1, after;
      }
      RenewDrop();
      CountsChains(counting, ifacePairList, after, chains);
    }

    /** The part of enableNat() that edits the tables; reset when nothing was enabled before. */
    method LayRules(p: Pair) returns (ret: int, ghost after: seq<Pair>)
      requires NatForward in chains && NatPostrouting in chains && Counts(chains, ifacePairList, view.counted)
      modifies this`chains, this`ifacePairList, this`natCount
      ensures reliable ==> ret == 0
      ensures natCount == old(natCount) && chains.Keys == old(chains).Keys
      ensures Counts(chains, ifacePairList, after)
      ensures ret == 0 ==> after == Counted(view.counted, p)
      ensures ret != 0 && natCount != 0 ==> Residue(old(chains)[NatForward], chains[NatForward], p)
      ensures reliable && old(Holds(chains, ifacePairList, natCount, view)) ==>
                && Holds(chains, ifacePairList, natCount + 1, Enable(view, p))
                && (natCount == 0 ==>
                      Holds(Reset(chains), ifacePairList, 0, view.(counted := Counted(view.counted, p))))
                && chains[NatForward] == ForwardRules(view.enabled + [p]) + [DROP_ALL]
    {
      ghost var before := chains;
      ghost var names := ifacePairList;
      CountersThere(chains, names, view.counted);
      ghost var held := Holds(chains, names, natCount, view);
      hide Holds, Counts, Reset, Without, Counted, Apply, Refused, IfaceName, ReplyRule, InvalidRule, OutboundRule,
           ForwardRules, Residue;
      if natCount == 0 {
        var res := Edit(true, NatPostrouting, MasqueradeRule(p.outer));
        if res != 0 {
          ResetIfIdle(view.counted);
          return -1, view.counted;
        }
      }
      CountsChains(before, names, view.counted, chains);
      ret, after := LayPair(p, view.counted);
      if ret == 0 && reliable && held {
        EnabledHolds(before, names, natCount, view, p, chains, ifacePairList);
      }
    }

    /**
     * `refusal` is what RouteController::enableTethering returns. A call that
     * is refused after pairs were enabled leaves its forwarding rules behind.
     * Whatever fails, the count is that of the tethering rules.
     */
    method EnableNat(p: Pair, refusal: int) returns (ret: int)
      requires Steady()
      modifies this
      ensures Steady() && view.enabled == old(view).enabled + if ret == 0 then [p] else []
      ensures ret == 0 || ret == -1
      ensures ret == 0 ==> Nameable(p) && refusal == 0 && view == Enable(old(view), p)
      ensures reliable && Nameable(p) && refusal == 0 ==> ret == 0
      ensures !Nameable(p) ==> view == old(view) && chains == old(chains) && ifacePairList == old(ifacePairList)
      ensures old(Settled()) && reliable && ret == 0 ==> Settled()
      ensures old(Settled()) && reliable && ret != 0 && Nameable(p) && old(view).enabled == [] ==>
                Settled() && view == old(view).(counted := Counted(old(view).counted, p))
      ensures old(Settled()) && reliable && ret != 0 && Nameable(p) && old(view).enabled != [] ==>
                && NatForward in chains && chains[NatForward] == ForwardRules(old(view).enabled + [p]) + [DROP_ALL]
                && !Settled()
    {
      hide Holds, Counts, Reset, ForwardRules, Counted, IfaceName;
      var okInner := IsIfaceName(p.inner);
      var okOuter := IsIfaceName(p.outer);
      if !okInner || !okOuter {
        return -1;
      }
      if p.inner == p.outer {
        return -1;
      }
      ret := EnablePair(p, refusal);
    }

    /** The rest of enableNat(), for names that can be used. */
    method EnablePair(p: Pair, refusal: int) returns (ret: int)
      requires Steady()
      modifies this
      ensures Steady() && view.enabled == old(view).enabled + if ret == 0 then [p] else []
      ensures ret == 0 || ret == -1
      ensures ret == 0 ==> refusal == 0 && view == Enable(old(view), p)
      ensures reliable && refusal == 0 ==> ret == 0
      ensures old(Settled()) && reliable && ret == 0 ==> Settled()
      ensures old(Settled()) && reliable && ret != 0 && old(view).enabled == [] ==>
                Settled() && view == old(view).(counted := Counted(old(view).counted, p))
      ensures old(Settled()) && reliable && ret != 0 && old(view).enabled != [] ==>
                && NatForward in chains && chains[NatForward] == ForwardRules(old(view).enabled + [p]) + [DROP_ALL]
                && !Settled()
    {
      ghost var before := view;
      ghost var held := Settled();
      EnabledFields(before, p);
      hide Holds, Counts, Reset, ForwardRules, Counted, Residue, Enable;
      ghost var after;
      ret, after := LayRules(p);
      view := before.(counted := after);
      if ret != 0 {
        return -1;
      }
      if refusal != 0 {
        if reliable && held && before.enabled != [] {
          NotHeld(chains, ifacePairList, natCount, before, view, p);
        }
        ResetIfIdle(after);
        return -1;
      }
      tethers := tethers + multiset{p};
      natCount := natCount + 1;
      view := Enable(before, p);
    }

    /** The part of disableNat() that edits the tables; the last pair resets them. */
    method LiftRules(p: Pair)
      requires NatForward in chains && NatPostrouting in chains && Counts(chains, ifacePairList, view.counted)
      requires natCount == |view.enabled| && p in view.enabled
      modifies this`chains, this`ifacePairList, this`natCount
      ensures reliable && old(Holds(chains, ifacePairList, natCount, view)) ==>
                Holds(chains, ifacePairList, natCount, Disable(view, p))
      ensures natCount == old(natCount) - 1 && chains.Keys == old(chains).Keys
      ensures Counts(chains, ifacePairList, view.counted)
      ensures multiset(view.enabled) - multiset{p} == multiset(Disable(view, p).enabled)
    {
      WithoutRemovesOne(view.enabled, p);
      CountersThere(chains, ifacePairList, view.counted);
      ghost var held := Holds(chains, ifacePairList, natCount, view);
      hide Holds, Counts, Reset, Without, DeleteRules;
      ghost var before := chains;
      var res;
      ghost var after;
      res, after := SetForwardRules(false, p, view.counted);
      ghost var lifted := chains;
      if reliable && held {
        DisabledHolds(before, ifacePairList, natCount, view, p, chains);
      }
      natCount := natCount - 1;
      if natCount <= 0 {
        res := SetDefaults();
        CountsChains(lifted, ifacePairList, view.counted, chains);
      }
    }

    /**
     * Only a pair that is enabled can be disabled. The kernel may also refuse
     * for reasons of its own, in which case nothing changes.
     */
    method DisableNat(p: Pair, refusal: int) returns (ret: int)
      requires Steady()
      modifies this
      ensures Steady()
      ensures ret == 0 || ret == -1
      ensures ret == 0 <==> IfaceName(p.inner) && IfaceName(p.outer) && refusal == 0 && p in old(view).enabled
      ensures view == if ret == 0 then Disable(old(view), p) else old(view)
      ensures old(Settled()) && reliable ==> Settled()
    {
      var okInner := IsIfaceName(p.inner);
      var okOuter := IsIfaceName(p.outer);
      if !okInner || !okOuter {
        return -1;
      }
      if refusal != 0 || p !in tethers {
        return -1;
      }
      DisabledFields(view, p);
      hide Holds, Counts, Reset, Without, DeleteRules, IfaceName, ForwardRules, Disable;
      tethers := tethers - multiset{p};
      LiftRules(p);
      view := Disable(view, p);
      return 0;
    }
  }

  /** The command returns 0 if every request it makes is granted. */
  predicate Runs(t: Tethering, cmd: NatCommand) {
    match cmd
    case Enabling(p) => Nameable(p)
    case Disabling(p) => IfaceName(p.inner) && IfaceName(p.outer) && p in t.enabled
  }

  /** The commands that return 0, each judged after the ones before it. */
  function Accepted(t: Tethering, cmds: seq<NatCommand>): (r: seq<NatCommand>)
    decreases |cmds|
  {
    if cmds == [] then []
    else if Runs(t, cmds[0]) then [cmds[0]] + Accepted(After(t, cmds[0]), cmds[1..])
    else Accepted(t, cmds[1..])
  }

  lemma {:induction false} AcceptedSucceed(t: Tethering, cmds: seq<NatCommand>)
    ensures Succeeds(t, Accepted(t, cmds))
    decreases |cmds|
  {
    if cmds != [] {
      if Runs(t, cmds[0]) {
        var rest := Accepted(After(t, cmds[0]), cmds[1..]);
        AcceptedSucceed(After(t, cmds[0]), cmds[1..]);
        assert ([cmds[0]] + rest)[1..] == rest;
      } else {
        AcceptedSucceed(t, cmds[1..]);
      }
    }
  }

  lemma {:induction false} AfterConcat(t: Tethering, a: seq<NatCommand>, b: seq<NatCommand>)
    ensures AfterAll(t, a + b) == AfterAll(AfterAll(t, a), b)
    decreases |a|
  {
    if a == [] {
      assert a + b == b;
    } else {
      assert (a + b)[1..] == a[1..] + b;
      AfterConcat(After(t, a[0]), a[1..], b);
    }
  }

  lemma RunStep(start: Tethering, done: seq<NatCommand>, t: Tethering, cmds: seq<NatCommand>, i: nat)
    requires i < |cmds| && t == AfterAll(start, done)
    ensures Runs(t, cmds[i]) ==>
              && After(t, cmds[i]) == AfterAll(start, done + [cmds[i]])
              && done + Accepted(t, cmds[i..]) == done + [cmds[i]] + Accepted(After(t, cmds[i]), cmds[i + 1..])
    ensures !Runs(t, cmds[i]) ==> Accepted(t, cmds[i..]) == Accepted(t, cmds[i + 1..])
  {
    hide After, Runs;
    assert cmds[i..][0] == cmds[i] && cmds[i..][1..] == cmds[i + 1..];
    AfterConcat(start, done, [cmds[i]]);
    assert [cmds[i]][1..] == [];
    var rest := Accepted(After(t, cmds[i]), cmds[i + 1..]);
    assert done + ([cmds[i]] + rest) == done + [cmds[i]] + rest;
  }

  /** One `nat enable` or `nat disable` while iptables and RouteController cooperate. */
  method RunCommand(control: NatController, cmd: NatCommand) returns (ret: int)
    requires control.reliable && control.Settled()
    modifies control
    ensures control.Settled() && (ret == 0 <==> Runs(old(control.view), cmd))
    ensures control.view == if ret == 0 then After(old(control.view), cmd) else old(control.view)
  {
    hide Holds, IfaceName, Counted, Without, Enable, Disable;
    control.SettledIsSteady();
    match cmd {
      case Enabling(p) => ret := control.EnableNat(p, 0);
      case Disabling(p) => ret := control.DisableNat(p, 0);
    }
  }

  /** A sequence of these commands, as the listener passes them on. */
  method RunCommands(control: NatController, cmds: seq<NatCommand>) returns (done: seq<NatCommand>)
    requires control.reliable && control.Settled()
    modifies control
    ensures done == Accepted(old(control.view), cmds) && Succeeds(old(control.view), done)
    ensures control.Settled() && control.view == AfterAll(old(control.view), done)
  {
    hide Holds, After, AfterAll, Accepted, Runs, Succeeds;
    AcceptedSucceed(control.view, cmds);
    ghost var start := control.view;
    NothingRun(start, cmds);
    done := [];
    for i := 0 to |cmds|
      invariant control.Settled() && control.view == AfterAll(start, done)
      invariant done + Accepted(control.view, cmds[i..]) == Accepted(start, cmds)
    {
      RunStep(start, done, control.view, cmds, i);
      var ret := RunCommand(control, cmds[i]);
      if ret == 0 {
        done := done + [cmds[i]];
      }
    }
    NothingToRun(control.view, cmds, done);
  }

  /** Any commands while iptables and RouteController may refuse what they like: the k-th refusal goes with the k-th
      command. The record is that of the commands that returned 0, and the count and the counted names stay right. */
  method RunAnyCommands(control: NatController, cmds: seq<NatCommand>, refusals: seq<int>)
    returns (done: seq<NatCommand>)
    requires control.Steady() && |refusals| == |cmds|
    modifies control
    ensures control.Steady() && Succeeds(old(control.view), done)
    ensures control.view.enabled == AfterAll(old(control.view), done).enabled
  {
    hide Holds, Counts, AfterAll, Succeeds, IfaceName, Counted;
    ghost var start := control.view;
    done := [];
    NothingDone(start);
    for i := 0 to |cmds|
      invariant control.Steady() && Succeeds(start, done)
      invariant control.view.enabled == AfterAll(start, done).enabled
    {
      var ret;
      match cmds[i] {
        case Enabling(p) => ret := control.EnableNat(p, refusals[i]);
        case Disabling(p) => ret := control.DisableNat(p, refusals[i]);
      }
      if ret == 0 {
        OneMoreDone(start, done, cmds[i]);
        done := done + [cmds[i]];
      }
    }
  }

  lemma NothingDone(t: Tethering)
    ensures AfterAll(t, []) == t && Succeeds(t, [])
  {
  }

  lemma {:induction false} OneMoreDone(t: Tethering, done: seq<NatCommand>, cmd: NatCommand)
    requires Succeeds(t, done)
    ensures AfterAll(t, done + [cmd]) == After(AfterAll(t, done), cmd)
    ensures (if cmd.Enabling? then Nameable(cmd.pair) else cmd.pair in AfterAll(t, done).enabled) ==>
              Succeeds(t, done + [cmd])
    decreases |done|
  {
    hide After, Nameable;
    if done == [] {
      assert [] + [cmd] == [cmd] && [cmd][1..] == [];
    } else {
      assert (done + [cmd])[1..] == done[1..] + [cmd];
      OneMoreDone(After(t, done[0]), done[1..], cmd);
    }
  }

  lemma NothingRun(t: Tethering, cmds: seq<NatCommand>)
    ensures AfterAll(t, []) == t && [] + Accepted(t, cmds[0..]) == Accepted(t, cmds)
  {
    assert cmds[0..] == cmds;
  }

  lemma NothingToRun(t: Tethering, cmds: seq<NatCommand>, done: seq<NatCommand>)
    ensures done + Accepted(t, cmds[|cmds|..]) == done
  {
  }
}
