/**
 * The packet filter as the controllers see it: named chains of rules, edited
 * by -N, -F, -X, -A, -I and -D, and traversed with jump, goto and return.
 */
module Iptables {
  /** The chains netd owns. `BwCostly("shared")` is bw_costly_shared. */
  datatype Chain =
    | BwInput | BwOutput | BwForward | BwRawPrerouting | BwManglePostrouting
    | BwHappyBox | BwPenaltyBox | BwCostly(cost: string)
    | NatForward | NatMangleForward | NatPostrouting | TetherCounters

  datatype ConnState = New | Established | Related | Invalid

  datatype Match =
    | Any
    | SocketExists
    | TcpSyn
    | OwnedBy(uid: int)
    | OverQuota(name: string)
    | InFrom(iif: string)
    | OutTo(oif: string)
    | Between(iif: string, oif: string)
    | BetweenIn(iif: string, oif: string, states: set<ConnState>)

  /** `Count` is a rule without a target: it only updates counters. */
  datatype Target = Count | Drop | Reject | Return | Masquerade | ClampMss | Jump(to: Chain) | Goto(to: Chain)

  datatype Rule = Rule(when: Match, target: Target)

  type Table = map<Chain, seq<Rule>>

  /** A packet, with the names of the quotas that are used up when it arrives. */
  datatype Packet = Packet(iif: string, oif: string, state: ConnState, uid: int, tcpSyn: bool, over: set<string>)

  predicate Matches(m: Match, p: Packet) {
    match m
    case Any => true
    case SocketExists => true
    case TcpSyn => p.tcpSyn
    case OwnedBy(uid) => p.uid == uid
    case OverQuota(name) => name in p.over
    case InFrom(iif) => p.iif == iif
    case OutTo(oif) => p.oif == oif
    case Between(iif, oif) => p.iif == iif && p.oif == oif
    case BetweenIn(iif, oif, states) => p.iif == iif && p.oif == oif && p.state in states
  }

  // ------------------------------------------------------- interface names

  predicate IsAlnum(c: char) {
    '0' <= c <= '9' || 'A' <= c <= 'Z' || 'a' <= c <= 'z'
  }

  /** IFNAMSIZ */
  const MAX_NAME := 16

  predicate IfaceName(name: string) {
    && 0 < |name| <= MAX_NAME
    && IsAlnum(name[0])
    && forall i :: 1 <= i < |name| ==> IsAlnum(name[i]) || name[i] in {'_', '-', ':'}
  }

  method IsIfaceName(name: string) returns (ok: bool)
    ensures ok == IfaceName(name)
  {
    if |name| == 0 || |name| > MAX_NAME {
      return false;
    }
    if !IsAlnum(name[0]) {
      return false;
    }
    for i := 1 to |name|
      invariant forall j :: 1 <= j < i ==> IsAlnum(name[j]) || name[j] in {'_', '-', ':'}
    {
      if !IsAlnum(name[i]) && name[i] != '_' && name[i] != '-' && name[i] != ':' {
        return false;
      }
    }
    return true;
  }

  // ------------------------------------------------------------- traversal

  /** `Passes` means that the end of the chain, or a return, was reached. */
  datatype Verdict = Passes | Dropped | Rejected

  /**
   * The fate of a packet in a chain whose remaining rules are `rules`. A chain
   * being traversed is taken out of the table: the kernel refuses loops.
   */
  function Traverse(t: Table, rules: seq<Rule>, p: Packet): (v: Verdict)
    decreases t.Keys, |rules|
  {
    if rules == [] then Passes
    else if !Matches(rules[0].when, p) then Traverse(t, rules[1..], p)
    else
      match rules[0].target
      case Drop => Dropped
      case Reject => Rejected
      case Return => Passes
      case Goto(c) => if c in t then Traverse(t - {c}, t[c], p) else Passes
      case Jump(c) =>
        var inner := if c in t then Traverse(t - {c}, t[c], p) else Passes;
        if inner == Passes then Traverse(t, rules[1..], p) else inner
      case Count => Traverse(t, rules[1..], p)
      case Masquerade => Passes
      case ClampMss => Traverse(t, rules[1..], p)
  }

  /** The fate of a packet that enters chain `c`. */
  function VerdictIn(t: Table, c: Chain, p: Packet): (v: Verdict)
    requires c in t
  {
    Traverse(t - {c}, t[c], p)
  }

  /** One rule at a time. */
  lemma TraverseStep(t: Table, r: Rule, rest: seq<Rule>, p: Packet)
    ensures !Matches(r.when, p) ==> Traverse(t, [r] + rest, p) == Traverse(t, rest, p)
    ensures Matches(r.when, p) && r.target.Goto? && r.target.to in t ==>
              Traverse(t, [r] + rest, p) == Traverse(t - {r.target.to}, t[r.target.to], p)
    ensures Matches(r.when, p) && r.target.Jump? && r.target.to in t ==>
              var inner := Traverse(t - {r.target.to}, t[r.target.to], p);
              Traverse(t, [r] + rest, p) == if inner == Passes then Traverse(t, rest, p) else inner
    ensures Matches(r.when, p) && r.target.Drop? ==> Traverse(t, [r] + rest, p) == Dropped
    ensures Matches(r.when, p) && r.target.Reject? ==> Traverse(t, [r] + rest, p) == Rejected
    ensures Matches(r.when, p) && r.target.Return? ==> Traverse(t, [r] + rest, p) == Passes
    ensures Matches(r.when, p) && r.target.Count? ==> Traverse(t, [r] + rest, p) == Traverse(t, rest, p)
  {
    assert ([r] + rest)[1..] == rest;
  }

  /** Whether the rule decides nothing for the packet. */
  predicate Inert(r: Rule, p: Packet) {
    !Matches(r.when, p) || r.target.Count? || r.target.ClampMss?
  }

  /** Rules that decide nothing can be skipped. */
  lemma {:induction false} SkipInert(t: Table, rules: seq<Rule>, rest: seq<Rule>, p: Packet)
    requires forall i :: 0 <= i < |rules| ==> Inert(rules[i], p)
    ensures Traverse(t, rules + rest, p) == Traverse(t, rest, p)
  {
    if rules == [] {
      assert rules + rest == rest;
    } else {
      assert (rules + rest)[1..] == rules[1..] + rest;
      assert Inert(rules[0], p);
      SkipInert(t, rules[1..], rest, p);
    }
  }

  // --------------------------------------------------------------- editing

  datatype Command =
    | NewChain(chain: Chain)
    | Flush(chain: Chain)
    | DeleteChain(chain: Chain)
    | Append(chain: Chain, rule: Rule)
    | Insert(chain: Chain, position: nat, rule: Rule)
    | Delete(chain: Chain, rule: Rule)

  /** Whether some rule of the table leads to chain `c`. */
  predicate Referenced(t: Table, c: Chain) {
    exists d :: d in t && exists r :: r in t[d] && LeadsTo(r, c)
  }

  predicate LeadsTo(r: Rule, c: Chain) {
    r.target == Jump(c) || r.target == Goto(c)
  }

  predicate TargetKnown(known: set<Chain>, r: Rule) {
    match r.target
    case Jump(c) => c in known
    case Goto(c) => c in known
    case _ => true
  }

  /** Whether the kernel refuses the command. */
  predicate Refused(t: Table, cmd: Command) {
    match cmd
    case NewChain(c) => c in t
    case Flush(c) => c !in t
    case DeleteChain(c) => c !in t || t[c] != [] || Referenced(t, c)
    case Append(c, r) => c !in t || !TargetKnown(t.Keys, r)
    case Insert(c, k, r) => c !in t || !TargetKnown(t.Keys, r) || !(1 <= k <= |t[c]| + 1)
    case Delete(c, r) => c !in t || r !in t[c]
  }

  /** The table after the command; a refused command changes nothing. */
  function Apply(t: Table, cmd: Command): (r: Table) {
    if Refused(t, cmd) then t
    else
      match cmd
      case NewChain(c) => t[c := []]
      case Flush(c) => t[c := []]
      case DeleteChain(c) => t - {c}
      case Append(c, r) => t[c := t[c] + [r]]
      case Insert(c, k, r) => t[c := t[c][..k - 1] + [r] + t[c][k - 1..]]
      case Delete(c, r) => t[c := Without(t[c], r)]
  }

  /** The elements with the first copy of `x` removed. */
  function Without<T(==)>(s: seq<T>, x: T): (r: seq<T>) {
    if s == [] then [] else if s[0] == x then s[1..] else [s[0]] + Without(s[1..], x)
  }

  lemma {:induction false} WithoutRemovesOne<T>(s: seq<T>, x: T)
    ensures x !in s ==> Without(s, x) == s
    ensures x in s ==> multiset(s) == multiset(Without(s, x)) + multiset{x} && |Without(s, x)| == |s| - 1
  {
    if s != [] {
      assert s == [s[0]] + s[1..];
      if s[0] != x {
        WithoutRemovesOne(s[1..], x);
      }
    }
  }

  lemma {:induction false} WithoutAbsent<T>(s: seq<T>, x: T)
    requires x !in s
    ensures Without(s, x) == s
  {
    if s != [] {
      WithoutAbsent(s[1..], x);
    }
  }

  lemma WithoutFirst<T>(x: T, rest: seq<T>)
    ensures Without([x] + rest, x) == rest
  {
    assert ([x] + rest)[1..] == rest;
  }

  /** Removal skips a prefix that lacks the element. */
  lemma {:induction false} WithoutSkips<T>(a: seq<T>, x: T, b: seq<T>)
    requires x !in a
    ensures Without(a + b, x) == a + Without(b, x)
  {
    if a == [] {
      assert a + b == b;
      assert a + Without(b, x) == Without(b, x);
    } else {
      assert (a + b)[1..] == a[1..] + b;
      WithoutSkips(a[1..], x, b);
      assert [a[0]] + (a[1..] + Without(b, x)) == a + Without(b, x);
    }
  }

  /** Removal inside a prefix that has the element leaves the rest alone. */
  lemma {:induction false} WithoutStays<T>(a: seq<T>, x: T, b: seq<T>)
    requires x in a
    ensures Without(a + b, x) == Without(a, x) + b
  {
    assert (a + b)[1..] == a[1..] + b;
    if a[0] != x {
      WithoutStays(a[1..], x, b);
      assert [a[0]] + (Without(a[1..], x) + b) == [a[0]] + Without(a[1..], x) + b;
    }
  }
}
