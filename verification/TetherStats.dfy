/**
 * Tethering statistics: the parser of BandwidthController reads back the
 * counter rules NatController laid out, relying on their order alone.
 */
module TetherStats {
  import opened Wrappers
  import opened Nat

  /** A listed counter rule, scanned; lines that do not scan are `None`. */
  datatype Line = Line(packets: int, bytes: int, iface0: string, iface1: string)

  /** -1 marks a counter not yet seen; as a filter, an empty name matches anything. */
  datatype Stats = Stats(inner: string, outer: string, rxBytes: int, rxPackets: int, txBytes: int, txPackets: int)

  predicate FiltersPair(filter: Stats) {
    filter.inner != "" && filter.outer != ""
  }

  predicate Complete(s: Stats) {
    s.rxBytes != -1 && s.txBytes != -1
  }

  predicate Half(s: Stats) {
    (s.rxBytes == -1) != (s.txBytes == -1)
  }

  function Rx(s: Stats, l: Line): Stats {
    s.(rxPackets := l.packets, rxBytes := l.bytes)
  }

  function Tx(s: Stats, l: Line): Stats {
    s.(txPackets := l.packets, txBytes := l.bytes)
  }

  /** What one counter line adds to the statistics being collected. */
  function Absorb(filter: Stats, s: Stats, l: Line): Stats {
    if FiltersPair(filter) then
      if filter.inner == l.iface0 && filter.outer == l.iface1 then Rx(s, l)
      else if filter.inner == l.iface1 && filter.outer == l.iface0 then Tx(s, l)
      else s
    else if filter.inner != "" || filter.outer != "" then
      if filter.inner == l.iface0 || filter.outer == l.iface1 then Rx(s.(inner := l.iface0, outer := l.iface1), l)
      else if filter.inner == l.iface1 || filter.outer == l.iface0 then Tx(s.(inner := l.iface1, outer := l.iface0), l)
      else s
    else if s.inner == "" then Rx(s.(inner := l.iface0, outer := l.iface1), l)
    else if s.inner == l.iface1 && s.outer == l.iface0 then Tx(s, l)
    else s
  }

  datatype Answer = Answer(sent: seq<Stats>, ret: int)

  function Prepend(s: Stats, a: Answer): Answer {
    a.(sent := [s] + a.sent)
  }

  /**
   * The answer to the remaining lines when `s` has been collected and `found`
   * entries were sent. When `strict`, finding nothing unfiltered is an error.
   */
  function Parse(strict: bool, filter: Stats, s: Stats, found: nat, lines: seq<Option<Line>>): (a: Answer)
    decreases |lines|
  {
    if lines == [] then
      Answer([], if Half(s) || (strict && found == 0 && !FiltersPair(filter)) then -1 else 0)
    else if lines[0].None? then Parse(strict, filter, s, found, lines[1..])
    else
      var s' := Absorb(filter, s, lines[0].value);
      if !Complete(s') then Parse(strict, filter, s', found, lines[1..])
      else if FiltersPair(filter) then Answer([s'], 0)
      else Prepend(s', Parse(strict, filter, filter, found + 1, lines[1..]))
  }

  method ParseForwardChainStats(strict: bool, filter: Stats, lines: seq<Option<Line>>)
    returns (sent: seq<Stats>, ret: int)
    ensures Answer(sent, ret) == Parse(strict, filter, filter, 0, lines)
  {
    var stats := filter;
    var found: nat := 0;
    sent := [];
    var i := 0;
    while i < |lines|
      invariant 0 <= i <= |lines|
      invariant var rest := Parse(strict, filter, stats, found, lines[i..]);
                Parse(strict, filter, filter, 0, lines) == rest.(sent := sent + rest.sent)
    {
      assert lines[i..][1..] == lines[i + 1..];
      if lines[i].Some? {
        stats := Absorb(filter, stats, lines[i].value);
        if Complete(stats) {
          sent := sent + [stats];
          if FiltersPair(filter) {
            return sent, 0;
          }
          stats := filter;
          found := found + 1;
        }
      }
      i := i + 1;
    }
    ret := if Half(stats) || (strict && found == 0 && !FiltersPair(filter)) then -1 else 0;
  }

  // ----------------------------------------------------- the layout to invert

  /** Each pair, directly followed by its reverse. */
  function Doubled(pairs: seq<Pair>): (r: seq<Pair>)
  {
    if pairs == [] then [] else [pairs[0], Swap(pairs[0])] + Doubled(pairs[1..])
  }

  /** A counter's reading. */
  datatype Reading = Reading(packets: nat, bytes: nat)

  function Listed(p: Pair, r: Reading): Option<Line> {
    Some(Line(r.packets, r.bytes, p.inner, p.outer))
  }

  /** The listing of the counter rules of `Doubled(pairs)`, with both readings of each pair. */
  function Listing(pairs: seq<Pair>, rx: seq<Reading>, tx: seq<Reading>): (r: seq<Option<Line>>)
    requires |rx| == |tx| == |pairs|
  {
    if pairs == [] then []
    else [Listed(pairs[0], rx[0]), Listed(Swap(pairs[0]), tx[0])] + Listing(pairs[1..], rx[1..], tx[1..])
  }

  function Report(p: Pair, rx: Reading, tx: Reading): Stats {
    Stats(p.inner, p.outer, rx.bytes, rx.packets, tx.bytes, tx.packets)
  }

  function Filter(inner: string, outer: string): Stats {
    Stats(inner, outer, -1, -1, -1, -1)
  }

  /** The pairs are interfaces, never twice in either direction. */
  ghost predicate WellPaired(pairs: seq<Pair>) {
    && (forall i :: 0 <= i < |pairs| ==> Nameable(pairs[i]))
    && (forall i, j :: 0 <= i < j < |pairs| ==> pairs[i] != pairs[j] && pairs[i] != Swap(pairs[j]))
  }

  // ------------------------------------------------------------- round trips

  /** Two lines of one pair, read when nothing is pending. */
  lemma ParseTwo(strict: bool, filter: Stats, found: nat, l0: Line, l1: Line, rest: seq<Option<Line>>)
    ensures var s := Absorb(filter, filter, l0);
            var lines := [Some(l0), Some(l1)] + rest;
            !Complete(s) ==>
              var s' := Absorb(filter, s, l1);
              Parse(strict, filter, filter, found, lines)
              == if !Complete(s') then Parse(strict, filter, s', found, rest)
                 else if FiltersPair(filter) then Answer([s'], 0)
                 else Prepend(s', Parse(strict, filter, filter, found + 1, rest))
  {
    var lines := [Some(l0), Some(l1)] + rest;
    assert lines[1..] == [Some(l1)] + rest;
    assert lines[1..][1..] == rest;
  }

  /** Header lines are skipped. */
  lemma {:induction false} SkipHeader(strict: bool, filter: Stats, header: seq<Option<Line>>, rest: seq<Option<Line>>)
    requires forall i :: 0 <= i < |header| ==> header[i].None?
    ensures Parse(strict, filter, filter, 0, header + rest) == Parse(strict, filter, filter, 0, rest)
  {
    if header == [] {
      assert header + rest == rest;
    } else {
      assert (header + rest)[1..] == header[1..] + rest;
      SkipHeader(strict, filter, header[1..], rest);
    }
  }

  /**
   * Without a filter, one entry per pair, in order, received bytes from its
   * first rule and sent bytes from its second.
   */
  lemma {:induction false} UnfilteredRoundTrip(strict: bool, found: nat, pairs: seq<Pair>, rx: seq<Reading>,
                                               tx: seq<Reading>)
    requires |rx| == |tx| == |pairs| && WellPaired(pairs)
    ensures Parse(strict, Filter("", ""), Filter("", ""), found, Listing(pairs, rx, tx))
         == Answer(seq(|pairs|, i requires 0 <= i < |pairs| => Report(pairs[i], rx[i], tx[i])),
                   if strict && found == 0 && pairs == [] then -1 else 0)
    decreases |pairs|
  {
    if pairs != [] {
      UnfilteredRoundTrip(strict, found + 1, pairs[1..], rx[1..], tx[1..]);
      assert Nameable(pairs[0]);
      ParseTwo(strict, Filter("", ""), found, Listed(pairs[0], rx[0]).value, Listed(Swap(pairs[0]), tx[0]).value,
               Listing(pairs[1..], rx[1..], tx[1..]));
    }
  }

  /** The entry of one pair, whichever way round it is asked for. */
  function Oriented(f: Pair, p: Pair, rx: Reading, tx: Reading): Stats {
    if p == f then Report(p, rx, tx) else Report(Swap(p), tx, rx)
  }

  /**
   * Filtered by a pair, exactly its entry is sent, in the orientation asked
   * for; a pair that is not counted gives an empty answer and no error.
   */
  lemma {:induction false} FilteredRoundTrip(strict: bool, f: Pair, pairs: seq<Pair>, rx: seq<Reading>,
                                             tx: seq<Reading>)
    requires |rx| == |tx| == |pairs| && WellPaired(pairs) && Nameable(f)
    ensures var a := Parse(strict, Filter(f.inner, f.outer), Filter(f.inner, f.outer), 0, Listing(pairs, rx, tx));
            && a.ret == 0
            && (f !in pairs && Swap(f) !in pairs ==> a.sent == [])
            && (forall i :: 0 <= i < |pairs| && (pairs[i] == f || pairs[i] == Swap(f)) ==>
                  a.sent == [Oriented(f, pairs[i], rx[i], tx[i])])
  {
    if pairs != [] {
      FilteredRoundTrip(strict, f, pairs[1..], rx[1..], tx[1..]);
      FilteredHead(strict, f, pairs[0], rx[0], tx[0], Listing(pairs[1..], rx[1..], tx[1..]));
      assert pairs == [pairs[0]] + pairs[1..];
      hide Parse, Listing, Nameable;
      forall i | 0 <= i < |pairs| && (pairs[i] == f || pairs[i] == Swap(f))
        ensures (pairs[0] == f || pairs[0] == Swap(f)) ==> i == 0
        ensures i > 0 ==> pairs[i] == pairs[1..][i - 1] && rx[i] == rx[1..][i - 1] && tx[i] == tx[1..][i - 1]
      {
        assert Swap(Swap(f)) == f;
      }
    }
  }

  /** The two lines of one pair either answer a filter for it or change nothing. */
  lemma FilteredHead(strict: bool, f: Pair, p: Pair, rx: Reading, tx: Reading, rest: seq<Option<Line>>)
    requires Nameable(f) && Nameable(p)
    ensures var filter := Filter(f.inner, f.outer);
            Parse(strict, filter, filter, 0, [Listed(p, rx), Listed(Swap(p), tx)] + rest)
            == if p == f || p == Swap(f) then Answer([Oriented(f, p, rx, tx)], 0)
            else Parse(strict, filter, filter, 0, rest)
  {
    ParseTwo(strict, Filter(f.inner, f.outer), 0, Listed(p, rx).value, Listed(Swap(p), tx).value, rest);
    hide Parse;
  }

  /** The entries of the pairs that involve `outer`, with it as the external side. */
  function Involving(outer: string, pairs: seq<Pair>, rx: seq<Reading>, tx: seq<Reading>): (r: seq<Stats>)
    requires |rx| == |tx| == |pairs|
  {
    if pairs == [] then []
    else
      var rest := Involving(outer, pairs[1..], rx[1..], tx[1..]);
      if pairs[0].outer == outer then [Report(pairs[0], rx[0], tx[0])] + rest
      else if pairs[0].inner == outer then [Report(Swap(pairs[0]), tx[0], rx[0])] + rest
      else rest
  }

  /** Filtered by the external interface, one entry per pair that involves it. */
  lemma {:induction false} OuterRoundTrip(strict: bool, outer: string, found: nat, pairs: seq<Pair>, rx: seq<Reading>,
                                          tx: seq<Reading>)
    requires |rx| == |tx| == |pairs| && WellPaired(pairs) && outer != ""
    ensures Parse(strict, Filter("", outer), Filter("", outer), found, Listing(pairs, rx, tx))
         == var sent := Involving(outer, pairs, rx, tx);
            Answer(sent, if strict && found == 0 && sent == [] then -1 else 0)
    decreases |pairs|
  {
    if pairs != [] {
      var hit := pairs[0].outer == outer || pairs[0].inner == outer;
      OuterRoundTrip(strict, outer, if hit then found + 1 else found, pairs[1..], rx[1..], tx[1..]);
      assert Nameable(pairs[0]);
      ParseTwo(strict, Filter("", outer), found, Listed(pairs[0], rx[0]).value, Listed(Swap(pairs[0]), tx[0]).value,
               Listing(pairs[1..], rx[1..], tx[1..]));
    }
  }

  /** The entries of the pairs that involve `inner`, with it as the internal side. */
  function InvolvingInner(inner: string, pairs: seq<Pair>, rx: seq<Reading>, tx: seq<Reading>): (r: seq<Stats>)
    requires |rx| == |tx| == |pairs|
  {
    if pairs == [] then []
    else
      var rest := InvolvingInner(inner, pairs[1..], rx[1..], tx[1..]);
      if pairs[0].inner == inner then [Report(pairs[0], rx[0], tx[0])] + rest
      else if pairs[0].outer == inner then [Report(Swap(pairs[0]), tx[0], rx[0])] + rest
      else rest
  }

  /** Filtered by the internal interface, one entry per pair that involves it. */
  lemma {:induction false} InnerRoundTrip(strict: bool, inner: string, found: nat, pairs: seq<Pair>,
                                          rx: seq<Reading>, tx: seq<Reading>)
    requires |rx| == |tx| == |pairs| && WellPaired(pairs) && inner != ""
    ensures Parse(strict, Filter(inner, ""), Filter(inner, ""), found, Listing(pairs, rx, tx))
         == var sent := InvolvingInner(inner, pairs, rx, tx);
            Answer(sent, if strict && found == 0 && sent == [] then -1 else 0)
    decreases |pairs|
  {
    if pairs != [] {
      var hit := pairs[0].outer == inner || pairs[0].inner == inner;
      InnerRoundTrip(strict, inner, if hit then found + 1 else found, pairs[1..], rx[1..], tx[1..]);
      assert Nameable(pairs[0]);
      ParseTwo(strict, Filter(inner, ""), found, Listed(pairs[0], rx[0]).value, Listed(Swap(pairs[0]), tx[0]).value,
               Listing(pairs[1..], rx[1..], tx[1..]));
    }
  }

  // ------------------------------------------------------- how much can be sent

  function Sides(s: Stats): nat {
    (if s.rxBytes != -1 then 1 else 0) + (if s.txBytes != -1 then 1 else 0)
  }

  /** Without a pair as filter, every entry takes two lines. */
  lemma {:induction false} TwoLinesPerEntry(strict: bool, filter: Stats, s: Stats, found: nat, lines: seq<Option<Line>>)
    requires Sides(filter) == 0
    ensures 2 * |Parse(strict, filter, s, found, lines).sent| <= |lines| + Sides(s) || FiltersPair(filter)
    decreases |lines|
  {
    if lines != [] {
      if lines[0].None? {
        TwoLinesPerEntry(strict, filter, s, found, lines[1..]);
      } else {
        var s' := Absorb(filter, s, lines[0].value);
        if Complete(s') {
          TwoLinesPerEntry(strict, filter, filter, found + 1, lines[1..]);
        } else {
          TwoLinesPerEntry(strict, filter, s', found, lines[1..]);
        }
      }
    }
  }
}
