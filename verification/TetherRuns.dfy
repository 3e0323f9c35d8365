/**
 * Runs of tethering: which counter rules NatController lays out, exactly when
 * they are the adjacent pairs the parser relies on, and what the parser
 * reports then and otherwise.
 */
module TetherRuns {
  import opened Wrappers
  import opened Iptables
  import opened Nat
  import opened TetherStats

  // ---------------------------------------------------------- names of pairs

  /** No two of the pairs have the same name in ifacePairList. */
  ghost predicate NamesDiffer(pairs: seq<Pair>) {
    forall i, j :: 0 <= i < j < |pairs| ==> PairName(pairs[i]) != PairName(pairs[j])
  }

  /** An interface name that cannot blur the border inside a pair's name. */
  predicate Plain(p: Pair) {
    Nameable(p) && '_' !in p.inner && '_' !in p.outer
  }

  /** Names without underscores identify their pair. */
  lemma PairNameIsInjective(p: Pair, q: Pair)
    requires '_' !in p.inner && '_' !in q.inner
    requires PairName(p) == PairName(q)
    ensures p == q
  {
    var n := PairName(p);
    assert n[|p.inner|] == '_' && n[|q.inner|] == '_';
    assert |p.inner| == |q.inner|;
    assert p.inner == n[..|p.inner|] == q.inner;
    assert p.outer == n[|p.inner| + 1..] == q.outer;
  }

  /** So without underscores all directions of all pairs have different names. */
  lemma PlainNamesDiffer(pairs: seq<Pair>)
    requires WellPaired(pairs) && forall i :: 0 <= i < |pairs| ==> Plain(pairs[i])
    ensures NamesDiffer(Doubled(pairs))
  {
    var d := Doubled(pairs);
    DoubledDiffer(pairs);
    forall i, j | 0 <= i < j < |d|
      ensures PairName(d[i]) != PairName(d[j])
    {
      DoubledAt(pairs, i);
      DoubledAt(pairs, j);
      assert Plain(pairs[i / 2]) && Plain(pairs[j / 2]);
      if PairName(d[i]) == PairName(d[j]) {
        PairNameIsInjective(d[i], d[j]);
      }
    }
  }

  /** With underscores, a pair can pass for one already counted and get no counters at all. */
  lemma UnderscoresCollide()
    ensures Nameable(Pair("a", "b_c")) && Nameable(Pair("a_b", "c"))
    ensures var counted := Counted([], Pair("a", "b_c")); Counted(counted, Pair("a_b", "c")) == counted
    ensures Pair("a_b", "c") !in Counted([], Pair("a", "b_c"))
  {
    assert PairName(Pair("a", "b_c")) == "a_b_c" == PairName(Pair("a_b", "c"));
    NamesAre(Counted([], Pair("a", "b_c")), Pair("a_b", "c"));
    assert Pair("a", "b_c") in Counted([], Pair("a", "b_c"));
  }

  /** Or a pair can pass for its own reverse: one counter is laid out, and the parser finds half an entry. */
  lemma SelfCollides(r: Reading)
    ensures Nameable(Pair("a", "a_a"))
    ensures Counted([], Pair("a", "a_a")) == [Pair("a", "a_a")]
    ensures Parse(true, Filter("", ""), Filter("", ""), 0, [Listed(Pair("a", "a_a"), r)]) == Answer([], -1)
  {
    var p := Pair("a", "a_a");
    assert PairName(p) == "a_a_a" == PairName(Swap(p));
    NamesAre([p], Swap(p));
    NamesAre([], p);
    assert p in [p] && [] + [p] == [p];
    assert [Listed(p, r)][1..] == [];
  }

  lemma {:induction false} NamesAre(counted: seq<Pair>, p: Pair)
    ensures PairName(p) in PairNames(counted) <==> exists q :: q in counted && PairName(q) == PairName(p)
  {
    if counted != [] {
      var init := counted[..|counted| - 1];
      NamesAre(init, p);
      assert counted == init + [counted[|counted| - 1]];
    }
  }

  // ------------------------------------------------------------ doubled pairs

  lemma {:induction false} DoubledLength(pairs: seq<Pair>)
    ensures |Doubled(pairs)| == 2 * |pairs|
  {
    if pairs != [] {
      DoubledLength(pairs[1..]);
    }
  }

  lemma {:induction false} DoubledAt(pairs: seq<Pair>, k: nat)
    requires k < |Doubled(pairs)|
    ensures k / 2 < |pairs| && Doubled(pairs)[k] == if k % 2 == 0 then pairs[k / 2] else Swap(pairs[k / 2])
  {
    if k >= 2 {
      DoubledAt(pairs[1..], k - 2);
    }
  }

  lemma {:induction false} DoubledHas(pairs: seq<Pair>, p: Pair)
    ensures p in Doubled(pairs) <==> p in pairs || Swap(p) in pairs
  {
    if pairs != [] {
      DoubledHas(pairs[1..], p);
      assert Swap(Swap(p)) == p;
      assert pairs == [pairs[0]] + pairs[1..];
      assert Swap(p) == pairs[0] <==> p == Swap(pairs[0]);
    }
  }

  lemma {:induction false} DoubledAppend(pairs: seq<Pair>, p: Pair)
    ensures Doubled(pairs + [p]) == Doubled(pairs) + [p] + [Swap(p)]
  {
    if pairs == [] {
      assert pairs + [p] == [p];
      assert Doubled([p][1..]) == [];
    } else {
      assert (pairs + [p])[1..] == pairs[1..] + [p];
      DoubledAppend(pairs[1..], p);
    }
  }

  lemma DoubledDiffer(pairs: seq<Pair>)
    requires WellPaired(pairs)
    ensures forall i, j :: 0 <= i < j < |Doubled(pairs)| ==> Doubled(pairs)[i] != Doubled(pairs)[j]
  {
    var d := Doubled(pairs);
    forall i, j | 0 <= i < j < |d|
      ensures d[i] != d[j]
    {
      DoubledAt(pairs, i);
      DoubledAt(pairs, j);
      assert Nameable(pairs[i / 2]) && Nameable(pairs[j / 2]);
      assert Swap(Swap(pairs[j / 2])) == pairs[j / 2] && Swap(Swap(pairs[i / 2])) == pairs[i / 2];
    }
  }

  // ---------------------------------------------------------- what is counted

  /** The pairs that are to be counted once `p` was enabled. */
  function CountedPairs(pairs: seq<Pair>, p: Pair): seq<Pair> {
    if p in pairs || Swap(p) in pairs then pairs else pairs + [p]
  }

  function PairsAfter(pairs: seq<Pair>, cmds: seq<NatCommand>): seq<Pair>
    decreases |cmds|
  {
    if cmds == [] then pairs
    else PairsAfter(if cmds[0].Enabling? then CountedPairs(pairs, cmds[0].pair) else pairs, cmds[1..])
  }

  ghost predicate AllNameable(cmds: seq<NatCommand>) {
    forall i :: 0 <= i < |cmds| && cmds[i].Enabling? ==> Nameable(cmds[i].pair)
  }

  lemma {:induction false} PairsStayWell(pairs: seq<Pair>, cmds: seq<NatCommand>)
    requires WellPaired(pairs) && AllNameable(cmds)
    ensures WellPaired(PairsAfter(pairs, cmds))
    ensures Doubled(pairs) <= Doubled(PairsAfter(pairs, cmds))
    decreases |cmds|
  {
    if cmds != [] {
      var p := cmds[0].pair;
      var next := if cmds[0].Enabling? then CountedPairs(pairs, p) else pairs;
      assert Swap(Swap(p)) == p;
      PairsStayWell(next, cmds[1..]);
      DoubledAppend(pairs, p);
    }
  }

  /** Counting never gives two rules the same name. */
  lemma CountingKeepsNames(counted: seq<Pair>, p: Pair)
    requires NamesDiffer(counted)
    ensures NamesDiffer(Counted(counted, p))
  {
    NamesAre(counted, p);
    NamesAre(counted + [p], Swap(p));
  }

  lemma {:induction false} RunKeepsNames(t: Tethering, cmds: seq<NatCommand>)
    requires NamesDiffer(t.counted)
    ensures NamesDiffer(AfterAll(t, cmds).counted)
    decreases |cmds|
  {
    hide NamesDiffer, Counted;
    if cmds != [] {
      CountingKeepsNames(t.counted, cmds[0].pair);
      RunKeepsNames(After(t, cmds[0]), cmds[1..]);
    }
  }

  /** Counting one more pair keeps each rule next to its reverse, as long as no name comes twice. */
  lemma CountingKeepsPairs(pairs: seq<Pair>, p: Pair)
    requires NamesDiffer(Doubled(CountedPairs(pairs, p)))
    ensures Counted(Doubled(pairs), p) == Doubled(CountedPairs(pairs, p))
  {
    var counted := Doubled(pairs);
    NamesAre(counted, p);
    DoubledHas(pairs, p);
    if p !in pairs && Swap(p) !in pairs {
      DoubledAppend(pairs, p);
      NamesAre(counted + [p], Swap(p));
      LastTwoDiffer(counted, p, Swap(p));
    }
  }

  lemma LastTwoDiffer(counted: seq<Pair>, p: Pair, q: Pair)
    requires NamesDiffer(counted + [p] + [q])
    ensures forall r :: r in counted ==> PairName(r) != PairName(p)
    ensures forall r :: r in counted + [p] ==> PairName(r) != PairName(q)
  {
    var all := counted + [p] + [q];
    assert all[|counted|] == p && all[|counted| + 1] == q;
    assert forall i :: 0 <= i < |counted| ==> all[i] == counted[i];
  }

  lemma {:induction false} RunKeepsPairs(t: Tethering, pairs: seq<Pair>, cmds: seq<NatCommand>)
    requires t.counted == Doubled(pairs) && WellPaired(pairs) && AllNameable(cmds)
    requires NamesDiffer(Doubled(PairsAfter(pairs, cmds)))
    ensures AfterAll(t, cmds).counted == Doubled(PairsAfter(pairs, cmds))
    decreases |cmds|
  {
    if cmds != [] {
      var next := if cmds[0].Enabling? then CountedPairs(pairs, cmds[0].pair) else pairs;
      assert Swap(Swap(cmds[0].pair)) == cmds[0].pair;
      assert WellPaired(next);
      PairsStayWell(next, cmds[1..]);
      hide Doubled, WellPaired, PairNames;
      if cmds[0].Enabling? {
        CountingKeepsPairs(pairs, cmds[0].pair);
      }
      RunKeepsPairs(After(t, cmds[0]), next, cmds[1..]);
    }
  }

  /** Only directions of the pairs are counted. */
  lemma {:induction false} RunCountsPairs(t: Tethering, pairs: seq<Pair>, cmds: seq<NatCommand>)
    requires forall q :: q in t.counted ==> q in pairs || Swap(q) in pairs
    ensures forall q :: q in AfterAll(t, cmds).counted ==>
              q in PairsAfter(pairs, cmds) || Swap(q) in PairsAfter(pairs, cmds)
    decreases |cmds|
  {
    if cmds != [] {
      var next := if cmds[0].Enabling? then CountedPairs(pairs, cmds[0].pair) else pairs;
      assert Swap(Swap(cmds[0].pair)) == cmds[0].pair;
      RunCountsPairs(After(t, cmds[0]), next, cmds[1..]);
    }
  }

  /**
   * From the hooks on, the counter rules are adjacent pairs, one for every
   * pair enabled so far, if and only if the directions of those pairs all
   * have different names.
   */
  lemma LayoutIsPaired(upstream: string, cmds: seq<NatCommand>)
    requires AllNameable(cmds)
    ensures WellPaired(PairsAfter([], cmds))
    ensures AfterAll(Tethering([], [], upstream), cmds).counted == Doubled(PairsAfter([], cmds)) <==>
              NamesDiffer(Doubled(PairsAfter([], cmds)))
  {
    PairsStayWell([], cmds);
    RunKeepsNames(Tethering([], [], upstream), cmds);
    if NamesDiffer(Doubled(PairsAfter([], cmds))) {
      RunKeepsPairs(Tethering([], [], upstream), [], cmds);
    }
  }

  // ------------------------------------------------------------ too few rules

  lemma {:induction false} SizeOfDistinct(s: seq<Pair>, all: set<Pair>)
    requires forall i, j :: 0 <= i < j < |s| ==> s[i] != s[j]
    requires forall x :: x in s ==> x in all
    ensures |s| <= |all|
    ensures |s| == |all| ==> forall x :: x in all ==> x in s
  {
    if s == [] {
      assert all != {} ==> |all| > 0;
    } else {
      assert s == [s[0]] + s[1..];
      SizeOfDistinct(s[1..], all - {s[0]});
    }
  }

  lemma {:induction false} SizeOfSet(s: seq<Pair>)
    ensures |set x | x in s| <= |s|
  {
    if s != [] {
      SizeOfSet(s[1..]);
      assert s == [s[0]] + s[1..];
      assert (set x | x in s) == {s[0]} + set x | x in s[1..];
    }
  }

  /** When two directions share a name, some direction has no rule. */
  lemma TooFewRules(counted: seq<Pair>, pairs: seq<Pair>)
    requires NamesDiffer(counted) && WellPaired(pairs) && !NamesDiffer(Doubled(pairs))
    requires forall q :: q in counted ==> q in pairs || Swap(q) in pairs
    ensures |counted| < 2 * |pairs|
  {
    var d := Doubled(pairs);
    var all := set x | x in d;
    DoubledLength(pairs);
    DoubledDiffer(pairs);
    forall q | q in counted
      ensures q in all
    {
      DoubledHas(pairs, q);
    }
    hide Doubled, WellPaired, PairName;
    SizeOfSet(d);
    SizeOfDistinct(counted, all);
    var i, j :| 0 <= i < j < |d| && PairName(d[i]) == PairName(d[j]);
    assert d[i] in all && d[j] in all;
    OneOfEachName(counted, d[i], d[j]);
  }

  lemma OneOfEachName(counted: seq<Pair>, p: Pair, q: Pair)
    requires NamesDiffer(counted) && PairName(p) == PairName(q)
    ensures p in counted && q in counted ==> p == q
  {
    hide PairName;
  }

  // ------------------------------------------------------------- what is listed

  /** `iptables -L` on the counter chain: one line per rule, with its reading. */
  function ListChain(rules: seq<Rule>, readings: seq<Reading>): (lines: seq<Option<Line>>)
    requires |readings| == |rules|
  {
    if rules == [] then []
    else
      [if rules[0].when.Between? && rules[0].target.Return?
       then Some(Line(readings[0].packets, readings[0].bytes, rules[0].when.iif, rules[0].when.oif))
       else None] + ListChain(rules[1..], readings[1..])
  }

  function Interleave(rx: seq<Reading>, tx: seq<Reading>): (r: seq<Reading>)
    requires |rx| == |tx|
    ensures |r| == 2 * |rx|
  {
    if rx == [] then [] else [rx[0], tx[0]] + Interleave(rx[1..], tx[1..])
  }

  lemma {:induction false} ListingMatches(pairs: seq<Pair>, rx: seq<Reading>, tx: seq<Reading>)
    requires |rx| == |tx| == |pairs|
    ensures |Doubled(pairs)| == 2 * |pairs|
    ensures ListChain(CounterRules(Doubled(pairs)), Interleave(rx, tx)) == Listing(pairs, rx, tx)
  {
    DoubledLength(pairs);
    if pairs != [] {
      ListingMatches(pairs[1..], rx[1..], tx[1..]);
      var rules := CounterRules(Doubled(pairs));
      var readings := Interleave(rx, tx);
      assert rules[1..][1..] == CounterRules(Doubled(pairs[1..]));
      assert readings[1..][1..] == Interleave(rx[1..], tx[1..]);
    }
  }

  lemma {:induction false} ListLength(rules: seq<Rule>, readings: seq<Reading>)
    requires |readings| == |rules|
    ensures |ListChain(rules, readings)| == |rules|
  {
    if rules != [] {
      ListLength(rules[1..], readings[1..]);
    }
  }

  lemma {:induction false} InterleaveAt(rx: seq<Reading>, tx: seq<Reading>, k: nat)
    requires |rx| == |tx| && k < 2 * |rx|
    ensures Interleave(rx, tx)[k] == if k % 2 == 0 then rx[k / 2] else tx[k / 2]
  {
    if k >= 2 {
      InterleaveAt(rx[1..], tx[1..], k - 2);
    }
  }

  /** Both readings of every pair, out of the readings of its two rules. */
  lemma ReadingsOf(readings: seq<Reading>, n: nat) returns (rx: seq<Reading>, tx: seq<Reading>)
    requires |readings| == 2 * n
    ensures |rx| == |tx| == n && Interleave(rx, tx) == readings
    ensures forall i :: 0 <= i < n ==> rx[i] == readings[2 * i] && tx[i] == readings[2 * i + 1]
  {
    rx := seq(n, i requires 0 <= i < n => readings[2 * i]);
    tx := seq(n, i requires 0 <= i < n => readings[2 * i + 1]);
    forall k | 0 <= k < 2 * n
      ensures Interleave(rx, tx)[k] == readings[k]
    {
      InterleaveAt(rx, tx, k);
    }
  }

  /** One entry per pair, with the readings of its two rules. */
  function Reports(pairs: seq<Pair>, readings: seq<Reading>): (sent: seq<Stats>)
    requires |readings| == 2 * |pairs|
  {
    seq(|pairs|, i requires 0 <= i < |pairs| => Report(pairs[i], readings[2 * i], readings[2 * i + 1]))
  }

  /**
   * Whatever pairs a run has enabled and disabled since the hooks were set up:
   * if their directions have different names, listing and parsing the counter
   * chain reports every pair once, in the order of first enabling, with the
   * readings of its two rules; otherwise fewer entries come out than pairs.
   */
  lemma StatsAfterRun(chains: Table, names: seq<string>, natCount: int, cmds: seq<NatCommand>, upstream: string,
                      header: seq<Option<Line>>, readings: seq<Reading>)
    requires AllNameable(cmds)
    requires Holds(chains, names, natCount, AfterAll(Tethering([], [], upstream), cmds))
    requires forall i :: 0 <= i < |header| ==> header[i].None?
    requires |readings| == |chains[TetherCounters]|
    ensures var pairs := PairsAfter([], cmds);
            var lines := header + ListChain(chains[TetherCounters], readings);
            var a := Parse(true, Filter("", ""), Filter("", ""), 0, lines);
            if NamesDiffer(Doubled(pairs)) then
              |readings| == 2 * |pairs| && a == Answer(Reports(pairs, readings), if pairs == [] then -1 else 0)
            else |a.sent| < |pairs|
  {
    var counted := AfterAll(Tethering([], [], upstream), cmds).counted;
    var pairs := PairsAfter([], cmds);
    assert chains[TetherCounters] == CounterRules(counted);
    LayoutIsPaired(upstream, cmds);
    hide *;
    if NamesDiffer(Doubled(pairs)) {
      PairedStats(pairs, header, readings);
    } else {
      RunKeepsNames(Tethering([], [], upstream), cmds);
      RunCountsPairs(Tethering([], [], upstream), [], cmds);
      ShortStats(counted, pairs, header, readings);
    }
  }

  lemma PairedStats(pairs: seq<Pair>, header: seq<Option<Line>>, readings: seq<Reading>)
    requires WellPaired(pairs) && forall i :: 0 <= i < |header| ==> header[i].None?
    requires |readings| == |CounterRules(Doubled(pairs))|
    ensures |readings| == 2 * |pairs|
    ensures Parse(true, Filter("", ""), Filter("", ""), 0, header + ListChain(CounterRules(Doubled(pairs)), readings))
         == Answer(Reports(pairs, readings), if pairs == [] then -1 else 0)
  {
    DoubledLength(pairs);
    hide Doubled, Listing, Parse, Interleave, ListChain, WellPaired;
    var rx, tx := ReadingsOf(readings, |pairs|);
    ListingMatches(pairs, rx, tx);
    SkipHeader(true, Filter("", ""), header, Listing(pairs, rx, tx));
    UnfilteredRoundTrip(true, 0, pairs, rx, tx);
  }

  lemma ShortStats(counted: seq<Pair>, pairs: seq<Pair>, header: seq<Option<Line>>, readings: seq<Reading>)
    requires NamesDiffer(counted) && WellPaired(pairs) && !NamesDiffer(Doubled(pairs))
    requires forall q :: q in counted ==> q in pairs || Swap(q) in pairs
    requires |readings| == |CounterRules(counted)| && forall i :: 0 <= i < |header| ==> header[i].None?
    ensures var lines := header + ListChain(CounterRules(counted), readings);
            |Parse(true, Filter("", ""), Filter("", ""), 0, lines).sent| < |pairs|
  {
    hide Doubled, Parse, ListChain, WellPaired, NamesDiffer;
    var listed := ListChain(CounterRules(counted), readings);
    ListLength(CounterRules(counted), readings);
    TooFewRules(counted, pairs);
    SkipHeader(true, Filter("", ""), header, listed);
    TwoLinesPerEntry(true, Filter("", ""), Filter("", ""), 0, listed);
  }
}
