/** The kernel side: policy rules, incoming-mark rules, and the requests that change them. */
module Kernels {
  import opened Wrappers
  import opened Fwmarks

  const ENOENT := 2
  const ESRCH := 3
  const ERANGE := 34
  const ENAMETOOLONG := 36
  const EUSERS := 87
  const EREMOTEIO := 121

  const IFNAMSIZ: nat := 16
  const RT_TABLE_UNSPEC: nat := 0
  const RT_TABLE_MAIN: nat := 254
  const ROUTE_TABLE_OFFSET_FROM_INDEX: nat := 1000

  /** A policy rule as modifyIpRule() is asked to add or delete it. */
  datatype Rule = Rule(priority: nat, table: nat, fwmark: Mark, mask: Mark,
                       iif: Option<string>, oif: Option<string>, uidStart: nat, uidEnd: nat)

  /** Everything RouteController installs: routing rules and iptables rules that mark incoming packets. */
  datatype Item = IpRule(rule: Rule) | IncomingMark(interface: string, mark: Mark)

  /** What netd does not control: interface indices, whether an interface is there at a given moment, and
      the reply to each request. Every run is a run under some environment. */
  datatype Env = Env(index: string -> nat, present: nat -> bool, reply: nat -> int)

  ghost predicate ValidEnv(env: Env) {
    && (forall i: string :: env.index(i) > 0)
    && (forall i: string, j: string :: env.index(i) == env.index(j) ==> i == j)
  }

  function TableOf(env: Env, interface: string): nat {
    env.index(interface) + ROUTE_TABLE_OFFSET_FROM_INDEX
  }

  /** The rules of both address families, RouteController's interfaceToTable, and the number of requests so far. */
  datatype Kernel = Kernel(v4: multiset<Item>, v6: multiset<Item>, cache: map<string, nat>, clock: nat)

  datatype Request =
    | Lookup(interface: string)          // getRouteTableForInterface()
    | Change(add: bool, item: Item)      // modifyIpRule() or modifyIncomingPacketMark()
    | Flush(interface: string)           // flushRoutes()

  datatype Done = Done(kernel: Kernel, ret: int)

  datatype Applied = Applied(items: multiset<Item>, ret: int)

  /** One family's answer: an add inserts one copy, a delete takes one equal copy away or fails. */
  function Apply(items: multiset<Item>, add: bool, item: Item, reply: int): Applied {
    if reply != 0 then Applied(items, reply)
    else if add then Applied(items + multiset{item}, 0)
    else if item in items then Applied(items - multiset{item}, 0)
    else Applied(items, -ENOENT)
  }

  predicate NameFits(name: Option<string>) {
    name.Some? ==> |name.value| + 1 <= IFNAMSIZ
  }

  /** The checks modifyIpRule() makes before it talks to the kernel. */
  function RuleError(r: Rule): int {
    if !ConjunctionIs(r.fwmark.IntValue(), r.mask.IntValue(), r.fwmark.IntValue()) then -ERANGE
    else if !NameFits(r.iif) then -ENAMETOOLONG
    else if !NameFits(r.oif) then -ENAMETOOLONG
    else if (r.uidStart == INVALID_UID) != (r.uidEnd == INVALID_UID) then -EUSERS
    else 0
  }

  /** A table is known while the interface is there, and afterwards as long as it is cached. */
  function ExecLookup(env: Env, k: Kernel, interface: string): Done {
    if env.present(k.clock) then
      Done(k.(cache := k.cache[interface := TableOf(env, interface)], clock := k.clock + 1), 0)
    else
      Done(k.(clock := k.clock + 1), if interface in k.cache then 0 else -ESRCH)
  }

  /** Netlink requests go to IPv4 and then IPv6, stopping at the first failure; iptables always runs both. */
  function ExecChange(env: Env, k: Kernel, add: bool, item: Item): Done {
    if item.IpRule? && RuleError(item.rule) != 0 then Done(k, RuleError(item.rule))
    else
      var a4 := Apply(k.v4, add, item, env.reply(k.clock));
      if item.IpRule? && a4.ret != 0 then Done(k.(v4 := a4.items, clock := k.clock + 1), a4.ret)
      else
        var a6 := Apply(k.v6, add, item, env.reply(k.clock + 1));
        var ret := if item.IpRule? then a6.ret else if a4.ret == 0 && a6.ret == 0 then 0 else -EREMOTEIO;
        Done(k.(v4 := a4.items, v6 := a6.items, clock := k.clock + 2), ret)
  }

  /** At most ROUTE_FLUSH_ATTEMPTS (two) runs of `ip route flush` for one family: did the last one work, and the
      clock. */
  function FlushFamily(env: Env, clock: nat): (bool, nat) {
    if env.reply(clock) == 0 then (true, clock + 1) else (env.reply(clock + 1) == 0, clock + 2)
  }

  function ExecFlush(env: Env, k: Kernel, interface: string): Done {
    var d := ExecLookup(env, k, interface);
    if d.ret != 0 then d
    else
      var (ok4, clock4) := FlushFamily(env, d.kernel.clock);
      var (ok6, clock6) := FlushFamily(env, clock4);
      var cache := d.kernel.cache;
      if ok4 && ok6 then Done(d.kernel.(cache := cache - {interface}, clock := clock6), 0)
      else Done(d.kernel.(clock := clock6), -EREMOTEIO)
  }

  /** What `ip rule flush` leaves of one family: everything that is no policy rule. */
  ghost function Marks(items: multiset<Item>): (r: multiset<Item>)
    ensures forall x :: r[x] == if x.IpRule? then 0 else items[x]
    decreases |items|
  {
    if items == multiset{} then multiset{}
    else
      var x :| x in items;
      (if x.IpRule? then multiset{} else multiset{x}) + Marks(items - multiset{x})
  }

  /** flushRules(): IPv4, then IPv6, stopping at the first failure. */
  ghost function ExecFlushRules(env: Env, k: Kernel): Done {
    if env.reply(k.clock) != 0 then Done(k.(clock := k.clock + 1), -EREMOTEIO)
    else if env.reply(k.clock + 1) != 0 then Done(k.(v4 := Marks(k.v4), clock := k.clock + 2), -EREMOTEIO)
    else Done(k.(v4 := Marks(k.v4), v6 := Marks(k.v6), clock := k.clock + 2), 0)
  }

  function ExecOne(env: Env, k: Kernel, request: Request): Done {
    match request
    case Lookup(i) => ExecLookup(env, k, i)
    case Change(add, item) => ExecChange(env, k, add, item)
    case Flush(i) => ExecFlush(env, k, i)
  }

  /** Requests run in order until the first failure, whose code is returned. */
  function Exec(env: Env, k: Kernel, requests: seq<Request>): Done
    decreases |requests|
  {
    if requests == [] then Done(k, 0)
    else
      var d := ExecOne(env, k, requests[0]);
      if d.ret != 0 then d else Exec(env, d.kernel, requests[1..])
  }

  lemma {:induction false} ExecConcat(env: Env, k: Kernel, a: seq<Request>, b: seq<Request>)
    ensures var d := Exec(env, k, a);
            Exec(env, k, a + b) == if d.ret != 0 then d else Exec(env, d.kernel, b)
    decreases |a|
  {
    if a == [] {
      assert a + b == b;
    } else {
      assert (a + b)[0] == a[0] && (a + b)[1..] == a[1..] + b;
      var d := ExecOne(env, k, a[0]);
      if d.ret == 0 {
        ExecConcat(env, d.kernel, a[1..], b);
      }
    }
  }

  /** The items a list of requests adds (or deletes). */
  function Changed(requests: seq<Request>, add: bool): multiset<Item> {
    if requests == [] then multiset{}
    else
      (if requests[0].Change? && requests[0].add == add then multiset{requests[0].item} else multiset{}) +
      Changed(requests[1..], add)
  }

  lemma {:induction false} ChangedConcat(a: seq<Request>, b: seq<Request>, add: bool)
    ensures Changed(a + b, add) == Changed(a, add) + Changed(b, add)
  {
    if a == [] {
      assert a + b == b;
    } else {
      assert (a + b)[0] == a[0] && (a + b)[1..] == a[1..] + b;
      ChangedConcat(a[1..], b, add);
    }
  }

  /** When every request succeeds, exactly the added items appear and exactly the deleted ones disappear. */
  lemma {:induction false} ExecBalance(env: Env, k: Kernel, requests: seq<Request>)
    requires Exec(env, k, requests).ret == 0
    ensures var k' := Exec(env, k, requests).kernel;
            k'.v4 + Changed(requests, false) == k.v4 + Changed(requests, true) &&
            k'.v6 + Changed(requests, false) == k.v6 + Changed(requests, true)
    decreases |requests|
  {
    if requests != [] {
      var d := ExecOne(env, k, requests[0]);
      ExecBalance(env, d.kernel, requests[1..]);
      StepBalance(env, k, requests[0]);
      var k' := Exec(env, k, requests).kernel;
      var request, rest := requests[0], requests[1..];
      var out := if request.Change? && !request.add then multiset{request.item} else multiset{};
      var inn := if request.Change? && request.add then multiset{request.item} else multiset{};
      Balances(k.v4, d.kernel.v4, k'.v4, inn, out, Changed(rest, true), Changed(rest, false));
      Balances(k.v6, d.kernel.v6, k'.v6, inn, out, Changed(rest, true), Changed(rest, false));
    }
  }

  /** Two balanced changes in a row balance together. */
  lemma Balances<T>(a: multiset<T>, b: multiset<T>, c: multiset<T>,
                    inn: multiset<T>, out: multiset<T>, inn': multiset<T>, out': multiset<T>)
    requires b + out == a + inn && c + out' == b + inn'
    ensures c + (out + out') == a + (inn + inn')
  {
    assert c + (out + out') == (c + out') + out;
    assert (b + inn') + out == (b + out) + inn';
    assert (a + inn) + inn' == a + (inn + inn');
  }

  lemma StepBalance(env: Env, k: Kernel, request: Request)
    requires ExecOne(env, k, request).ret == 0
    ensures
      var k' := ExecOne(env, k, request).kernel;
      var out := if request.Change? && !request.add then multiset{request.item} else multiset{};
      var inn := if request.Change? && request.add then multiset{request.item} else multiset{};
      k'.v4 + out == k.v4 + inn && k'.v6 + out == k.v6 + inn
  {
    if request.Change? {
      ApplyBalance(k.v4, request.add, request.item, env.reply(k.clock));
      ApplyBalance(k.v6, request.add, request.item, env.reply(k.clock + 1));
      hide Apply, RuleError;
    }
  }

  lemma ApplyBalance(items: multiset<Item>, add: bool, item: Item, reply: int)
    ensures var a := Apply(items, add, item, reply);
            a.ret == 0 ==>
              a.items + (if add then multiset{} else multiset{item})
              == items + (if add then multiset{item} else multiset{})
  {
  }

  /** One family has seen exactly these requests succeed. */
  ghost predicate BalancedBy(before: multiset<Item>, after: multiset<Item>, requests: seq<Request>) {
    after + Changed(requests, false) == before + Changed(requests, true)
  }

  /** One family has seen exactly this request succeed. */
  ghost predicate BalancedByOne(before: multiset<Item>, after: multiset<Item>, request: Request) {
    after + (if request.Change? && !request.add then multiset{request.item} else multiset{}) ==
    before + (if request.Change? && request.add then multiset{request.item} else multiset{})
  }

  /** Wherever a list of requests stops, and even if a request reached one family only: each family has seen some first
      part of the list. */
  lemma {:induction false} PrefixBalances(env: Env, k: Kernel, requests: seq<Request>) returns (m4: nat, m6: nat)
    ensures m4 <= |requests| && m6 <= |requests|
    ensures BalancedBy(k.v4, Exec(env, k, requests).kernel.v4, requests[..m4])
    ensures BalancedBy(k.v6, Exec(env, k, requests).kernel.v6, requests[..m6])
    decreases |requests|
  {
    hide BalancedBy, BalancedByOne, ExecOne;
    m4, m6 := 0, 0;
    NoneYet(k.v4, requests);
    NoneYet(k.v6, requests);
    if requests != [] {
      var d := ExecOne(env, k, requests[0]);
      var k' := Exec(env, k, requests).kernel;
      if d.ret == 0 {
        var n4, n6 := PrefixBalances(env, d.kernel, requests[1..]);
        StepBalances(env, k, requests[0]);
        m4, m6 := n4 + 1, n6 + 1;
        OneMore(k.v4, d.kernel.v4, k'.v4, requests, n4);
        OneMore(k.v6, d.kernel.v6, k'.v6, requests, n6);
      } else {
        FailedStep(env, k, requests[0]);
        if k'.v4 != k.v4 {
          m4 := 1;
          NoneYet(k'.v4, requests[1..]);
          OneMore(k.v4, k'.v4, k'.v4, requests, 0);
        }
        if k'.v6 != k.v6 {
          m6 := 1;
          NoneYet(k'.v6, requests[1..]);
          OneMore(k.v6, k'.v6, k'.v6, requests, 0);
        }
      }
    }
  }

  lemma NoneYet(items: multiset<Item>, requests: seq<Request>)
    ensures BalancedBy(items, items, requests[..0])
  {
  }

  lemma OneMore(a: multiset<Item>, b: multiset<Item>, c: multiset<Item>, requests: seq<Request>, n: nat)
    requires requests != [] && n <= |requests| - 1
    requires BalancedByOne(a, b, requests[0]) && BalancedBy(b, c, requests[1..][..n])
    ensures BalancedBy(a, c, requests[..n + 1])
  {
    var request := requests[0];
    var rest := requests[1..][..n];
    assert requests[..n + 1] == [request] + rest && ([request] + rest)[1..] == rest;
    var out := if request.Change? && !request.add then multiset{request.item} else multiset{};
    var inn := if request.Change? && request.add then multiset{request.item} else multiset{};
    Balances(a, b, c, inn, out, Changed(rest, true), Changed(rest, false));
  }

  lemma StepBalances(env: Env, k: Kernel, request: Request)
    requires ExecOne(env, k, request).ret == 0
    ensures var k' := ExecOne(env, k, request).kernel;
            BalancedByOne(k.v4, k'.v4, request) && BalancedByOne(k.v6, k'.v6, request)
  {
    StepBalance(env, k, request);
  }

  /** A request that fails may still have reached one family. */
  lemma FailedStep(env: Env, k: Kernel, request: Request)
    requires ExecOne(env, k, request).ret != 0
    ensures var k' := ExecOne(env, k, request).kernel;
            && (k'.v4 == k.v4 || BalancedByOne(k.v4, k'.v4, request))
            && (k'.v6 == k.v6 || BalancedByOne(k.v6, k'.v6, request))
  {
    if request.Change? {
      ApplyBalance(k.v4, request.add, request.item, env.reply(k.clock));
      ApplyFails(k.v4, request.add, request.item, env.reply(k.clock));
      ApplyBalance(k.v6, request.add, request.item, env.reply(k.clock + 1));
      ApplyFails(k.v6, request.add, request.item, env.reply(k.clock + 1));
      hide Apply, RuleError;
    }
  }

  lemma ApplyFails(items: multiset<Item>, add: bool, item: Item, reply: int)
    ensures Apply(items, add, item, reply).ret != 0 ==> Apply(items, add, item, reply).items == items
  {
  }

  // ----- Route lookup -----

  /** A packet: its mark, its sender, the interface it came in by (loopback if it was sent from here), and the
      interface it is bound to leave by, if any. */
  datatype Packet = Packet(mark: Mark, uid: nat, iif: string, oif: Option<string>)

  const LOOPBACK := "lo"

  predicate Matches(r: Rule, p: Packet) {
    && MaskedMatch(p.mark, r.fwmark, r.mask)
    && (r.iif.Some? ==> r.iif.value == p.iif)
    && (r.oif.Some? ==> r.oif == p.oif)
    && (r.uidStart != INVALID_UID ==> r.uidStart <= p.uid <= r.uidEnd)
  }

  /** The rules a lookup goes through: all matching ones, by priority. Rules of equal priority may come in any order. */
  ghost predicate IsWalk(items: multiset<Item>, p: Packet, walk: seq<Rule>) {
    && (forall r: Rule {:trigger multiset(walk)[r]} ::
          multiset(walk)[r] == if Matches(r, p) then items[IpRule(r)] else 0)
    && ByPriority(walk)
  }

  ghost predicate ByPriority(walk: seq<Rule>) {
    forall i, j :: 0 <= i < j < |walk| ==> walk[i].priority <= walk[j].priority
  }

  lemma WalkMember(items: multiset<Item>, p: Packet, walk: seq<Rule>, r: Rule)
    requires IsWalk(items, p, walk)
    ensures r in walk <==> IpRule(r) in items && Matches(r, p)
  {
    assert r in walk <==> r in multiset(walk);
  }

  /** Every packet has a lookup. */
  lemma {:induction false} WalkExists(items: multiset<Item>, p: Packet) returns (walk: seq<Rule>)
    ensures IsWalk(items, p, walk)
    decreases |items|
  {
    if items == multiset{} {
      walk := [];
    } else {
      var x :| x in items;
      walk := WalkExists(items - multiset{x}, p);
      if x.IpRule? && Matches(x.rule, p) {
        walk := WalkInsert(items - multiset{x}, p, walk, x.rule);
        assert items == items - multiset{x} + multiset{x};
      }
    }
  }

  lemma {:induction false} WalkInsert(items: multiset<Item>, p: Packet, walk: seq<Rule>,
                                      r: Rule) returns (walk': seq<Rule>)
    requires IsWalk(items, p, walk) && Matches(r, p)
    ensures IsWalk(items + multiset{IpRule(r)}, p, walk')
  {
    hide Matches, ByPriority;
    var k := |walk|;
    while k > 0 && walk[k - 1].priority > r.priority
      invariant 0 <= k <= |walk|
      invariant forall j :: k <= j < |walk| ==> walk[j].priority > r.priority
    {
      k := k - 1;
    }
    walk' := walk[..k] + [r] + walk[k..];
    InsertedOnce(walk, k, r);
    InsertedInOrder(walk, k, r);
    CountsMatch(items, p, walk, r, walk');
  }

  lemma CountsMatch(items: multiset<Item>, p: Packet, walk: seq<Rule>, r: Rule, walk': seq<Rule>)
    requires IsWalk(items, p, walk) && Matches(r, p) && multiset(walk') == multiset(walk) + multiset{r}
             && ByPriority(walk')
    ensures IsWalk(items + multiset{IpRule(r)}, p, walk')
  {
    hide Matches, ByPriority;
  }

  lemma InsertedInOrder(walk: seq<Rule>, k: nat, r: Rule)
    requires ByPriority(walk) && k <= |walk| && (forall j :: k <= j < |walk| ==> walk[j].priority > r.priority)
    requires k > 0 ==> walk[k - 1].priority <= r.priority
    ensures ByPriority(walk[..k] + [r] + walk[k..])
  {
  }

  lemma InsertedOnce(walk: seq<Rule>, k: nat, r: Rule)
    requires k <= |walk|
    ensures multiset(walk[..k] + [r] + walk[k..]) == multiset(walk) + multiset{r}
  {
    assert walk == walk[..k] + walk[k..];
  }
}
