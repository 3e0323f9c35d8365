/** The netlink message a policy rule is sent as (modifyIpRule() and sendNetlinkRequest() in server/RouteController.cpp;
    message layout as in section 2.3.2 of RFC 3549), and a decoder that recovers the rule. */
module Netlink {
  import opened Wrappers
  import opened Fwmarks
  import opened Kernels

  type byte = n: nat | n < 256

  const RTM_NEWRULE: nat := 32
  const RTM_DELRULE: nat := 33
  const NETLINK_REQUEST_FLAGS: nat := 0x5          // NLM_F_REQUEST | NLM_F_ACK
  const NETLINK_CREATE_REQUEST_FLAGS: nat := 0x605  // ... | NLM_F_CREATE | NLM_F_EXCL
  const FR_ACT_TO_TBL: byte := 1
  const FR_ACT_UNREACHABLE: byte := 7

  const FRA_IIFNAME: nat := 3
  const FRA_PRIORITY: nat := 6
  const FRA_FWMARK: nat := 10
  const FRA_TABLE: nat := 15
  const FRA_FWMASK: nat := 16
  const FRA_OIFNAME: nat := 17
  const FRA_UID_START: nat := 18
  const FRA_UID_END: nat := 19

  const NLMSG_HEADER: nat := 16
  const RULE_HEADER: nat := 12

  // ----- Integers, least significant byte first -----

  function U16(n: nat): (b: seq<byte>)
    requires n < 0x1_0000
    ensures |b| == 2
  {
    [n % 256, n / 256]
  }

  function U32(n: nat): (b: seq<byte>)
    requires n < 0x1_0000_0000
    ensures |b| == 4
  {
    U16(n % 0x1_0000) + U16(n / 0x1_0000)
  }

  function FromU16(b: seq<byte>): (n: nat)
    requires |b| >= 2
    ensures n < 0x1_0000
  {
    var low: nat, high: nat := b[0], b[1];
    low + 256 * high
  }

  function FromU32(b: seq<byte>): (n: nat)
    requires |b| >= 4
    ensures n < 0x1_0000_0000
  {
    FromU16(b) + 0x1_0000 * FromU16(b[2..])
  }

  lemma U32RoundTrip(n: nat, rest: seq<byte>)
    requires n < 0x1_0000_0000
    ensures FromU32(U32(n) + rest) == n
  {
    var b := U32(n) + rest;
    assert b[2..][0] == b[2] && b[2..][1] == b[3];
  }

  // ----- Attributes -----

  datatype Attr = Attr(kind: nat, payload: seq<byte>)

  /** Lengths are counted in a 16-bit field that includes the 4 bytes of the attribute's own header. */
  predicate ValidAttr(a: Attr) {
    a.kind < 0x1_0000 && 4 + |a.payload| < 0x1_0000 - 3
  }

  function Align4(n: nat): (m: nat)
    ensures m % 4 == 0 && n <= m < n + 4
  {
    (n + 3) / 4 * 4
  }

  function Zeros(n: nat): (z: seq<byte>)
    ensures |z| == n
  {
    if n == 0 then [] else [0] + Zeros(n - 1)
  }

  function EncodeAttr(a: Attr): (b: seq<byte>)
    requires ValidAttr(a)
    ensures |b| == Align4(4 + |a.payload|)
  {
    U16(4 + |a.payload|) + U16(a.kind) + a.payload + Zeros(Align4(4 + |a.payload|) - (4 + |a.payload|))
  }

  function EncodeAttrs(attrs: seq<Attr>): (b: seq<byte>)
    requires forall i :: 0 <= i < |attrs| ==> ValidAttr(attrs[i])
    ensures |b| % 4 == 0
  {
    if attrs == [] then [] else EncodeAttr(attrs[0]) + EncodeAttrs(attrs[1..])
  }

  /** Walks an attribute stream the way the kernel does: RTA_OK and RTA_NEXT. */
  function DecodeAttrs(b: seq<byte>): Option<seq<Attr>>
    decreases |b|
  {
    if b == [] then Some([])
    else if |b| < 4 then None
    else
      var len := FromU16(b);
      if len < 4 || Align4(len) > |b| then None
      else
        var rest := DecodeAttrs(b[Align4(len)..]);
        if rest.None? then None else Some([Attr(FromU16(b[2..]), b[4..len])] + rest.value)
  }

  lemma {:induction false} AttrsRoundTrip(attrs: seq<Attr>)
    requires forall i :: 0 <= i < |attrs| ==> ValidAttr(attrs[i])
    ensures DecodeAttrs(EncodeAttrs(attrs)) == Some(attrs)
  {
    if attrs != [] {
      AttrsRoundTrip(attrs[1..]);
      OneAttr(attrs[0], EncodeAttrs(attrs[1..]));
      assert attrs == [attrs[0]] + attrs[1..];
    }
  }

  lemma OneAttr(a: Attr, rest: seq<byte>)
    requires ValidAttr(a)
    ensures var b := EncodeAttr(a) + rest;
            var len := 4 + |a.payload|;
            && |b| >= Align4(len) && FromU16(b) == len && b[4..len] == a.payload && FromU16(b[2..]) == a.kind
            && b[Align4(len)..] == rest
  {
    hide Zeros;
    var b := EncodeAttr(a) + rest;
    assert b[2..][0] == b[2] && b[2..][1] == b[3];
    assert b[..2] == U16(4 + |a.payload|) && b[2..4] == U16(a.kind);
  }

  // ----- Rules -----

  /** A name and its terminating NUL, one byte per character. */
  function NameBytes(name: string): (b: seq<byte>)
    requires IsCString(name)
    ensures |b| == |name| + 1
  {
    if name == [] then [0] else [name[0] as nat] + NameBytes(name[1..])
  }

  predicate IsCString(name: string) {
    forall i :: 0 <= i < |name| ==> 0 < name[i] as int < 256
  }

  function FromNameBytes(b: seq<byte>): string {
    if b == [] || b[0] == 0 then [] else [b[0] as char] + FromNameBytes(b[1..])
  }

  lemma {:induction false} NameRoundTrip(name: string)
    requires IsCString(name)
    ensures FromNameBytes(NameBytes(name)) == name
  {
    if name != [] {
      NameRoundTrip(name[1..]);
      assert name == [name[0]] + name[1..];
    }
  }

  function U32Attr(kind: nat, n: nat): Attr
    requires n < 0x1_0000_0000
  {
    Attr(kind, U32(n))
  }

  /** Fields that fit the message: 32-bit numbers and C strings. */
  predicate Encodable(r: Rule) {
    && r.priority < 0x1_0000_0000 && r.table < 0x1_0000_0000 && r.uidStart < 0x1_0000_0000 && r.uidEnd < 0x1_0000_0000
    && (r.iif.Some? ==> IsCString(r.iif.value)) && (r.oif.Some? ==> IsCString(r.oif.value))
  }

  function MaskAttrs(r: Rule): seq<Attr> {
    if r.mask.IntValue() == 0 then []
    else [U32Attr(FRA_FWMARK, r.fwmark.IntValue()), U32Attr(FRA_FWMASK, r.mask.IntValue())]
  }

  function UidAttrs(r: Rule): seq<Attr>
    requires Encodable(r)
  {
    if r.uidStart == INVALID_UID then []
    else [U32Attr(FRA_UID_START, r.uidStart), U32Attr(FRA_UID_END, r.uidEnd)]
  }

  function NameAttr(kind: nat, name: Option<string>): seq<Attr>
    requires name.Some? ==> IsCString(name.value)
  {
    if name.None? then [] else [Attr(kind, NameBytes(name.value))]
  }

  function RuleAttrs(r: Rule): seq<Attr>
    requires Encodable(r)
  {
    [U32Attr(FRA_PRIORITY, r.priority)] +
    (if r.table == RT_TABLE_UNSPEC then [] else [U32Attr(FRA_TABLE, r.table)]) +
    MaskAttrs(r) + UidAttrs(r) + NameAttr(FRA_IIFNAME, r.iif) + NameAttr(FRA_OIFNAME, r.oif)
  }

  /** fib_rule_hdr: only the family and the action are set. */
  function RuleHeader(family: byte, r: Rule): (h: seq<byte>)
    ensures |h| == RULE_HEADER
  {
    [family, 0, 0, 0, 0, 0, 0, if r.table != RT_TABLE_UNSPEC then FR_ACT_TO_TBL else FR_ACT_UNREACHABLE, 0, 0, 0, 0]
  }

  function MessageHeader(length: nat, action: nat, flags: nat): (h: seq<byte>)
    requires length < 0x1_0000_0000 && action < 0x1_0000 && flags < 0x1_0000
    ensures |h| == NLMSG_HEADER
  {
    U32(length) + U16(action) + U16(flags) + Zeros(8)
  }

  ghost predicate Small(attrs: seq<Attr>, count: nat) {
    |attrs| <= count && forall i :: 0 <= i < |attrs| ==> ValidAttr(attrs[i]) && |attrs[i].payload| <= 16
  }

  lemma SmallConcat(a: seq<Attr>, m: nat, b: seq<Attr>, n: nat)
    requires Small(a, m) && Small(b, n)
    ensures Small(a + b, m + n)
  {
  }

  lemma RuleAttrsValid(r: Rule)
    requires Encodable(r) && NameFits(r.iif) && NameFits(r.oif)
    ensures var attrs := RuleAttrs(r);
            (forall i :: 0 <= i < |attrs| ==> ValidAttr(attrs[i])) && |EncodeAttrs(attrs)| <= 160
  {
    hide EncodeAttrs, U32, NameBytes, IsCString;
    var a := [U32Attr(FRA_PRIORITY, r.priority)];
    var b := if r.table == RT_TABLE_UNSPEC then [] else [U32Attr(FRA_TABLE, r.table)];
    SmallConcat(a, 1, b, 1);
    SmallConcat(a + b, 2, MaskAttrs(r), 2);
    SmallConcat(a + b + MaskAttrs(r), 4, UidAttrs(r), 2);
    SmallConcat(a + b + MaskAttrs(r) + UidAttrs(r), 6, NameAttr(FRA_IIFNAME, r.iif), 1);
    SmallConcat(a + b + MaskAttrs(r) + UidAttrs(r) + NameAttr(FRA_IIFNAME, r.iif), 7, NameAttr(FRA_OIFNAME, r.oif), 1);
    AttrsBounded(RuleAttrs(r));
  }

  lemma {:induction false} AttrsBounded(attrs: seq<Attr>)
    requires forall i :: 0 <= i < |attrs| ==> ValidAttr(attrs[i]) && |attrs[i].payload| <= 16
    ensures |EncodeAttrs(attrs)| <= 20 * |attrs|
  {
    if attrs != [] {
      AttrsBounded(attrs[1..]);
    }
  }

  lemma AlignedSum(a: nat, b: nat)
    ensures a % 4 == 0 && b % 4 == 0 ==> (a + b) % 4 == 0
  {
    var i, j := a / 4, b / 4;
    assert a == 4 * i + a % 4 && b == 4 * j + b % 4;
    assert a % 4 == 0 && b % 4 == 0 ==> a + b == 4 * (i + j);
  }

  /** What a 32-bit field keeps of a number. */
  function Wrapped(n: nat): (r: nat)
    ensures r < 0x1_0000_0000 && (n < 0x1_0000_0000 ==> r == n)
  {
    n % 0x1_0000_0000
  }

  /** A netlink message: a header that holds the total length, then the payload. */
  function Message(add: bool, payload: seq<byte>): (b: seq<byte>)
    ensures |b| == NLMSG_HEADER + |payload|
    ensures |payload| % 4 == 0 ==> |b| % 4 == 0
  {
    hide MessageHeader;
    AlignedSum(NLMSG_HEADER, |payload|);
    MessageHeader(Wrapped(NLMSG_HEADER + |payload|), if add then RTM_NEWRULE else RTM_DELRULE,
                  if add then NETLINK_CREATE_REQUEST_FLAGS else NETLINK_REQUEST_FLAGS) + payload
  }

  function RulePayload(family: byte, r: Rule): (b: seq<byte>)
    requires Encodable(r) && NameFits(r.iif) && NameFits(r.oif)
    ensures |b| <= 200 && |b| % 4 == 0
  {
    hide RuleAttrs, Encodable, NameFits, EncodeAttrs, RuleHeader;
    RuleAttrsValid(r);
    AlignedSum(RULE_HEADER, |EncodeAttrs(RuleAttrs(r))|);
    RuleHeader(family, r) + EncodeAttrs(RuleAttrs(r))
  }

  function EncodeRule(add: bool, family: byte, r: Rule): (b: seq<byte>)
    requires Encodable(r) && NameFits(r.iif) && NameFits(r.oif)
    ensures |b| % 4 == 0
  {
    hide Message, RulePayload, Encodable, NameFits;
    Message(add, RulePayload(family, r))
  }

  // ----- Decoding -----

  datatype RuleMessage = RuleMessage(add: bool, family: byte, rule: Rule)

  /** The payload of the first attribute of a kind. */
  function Find(attrs: seq<Attr>, kind: nat): Option<seq<byte>> {
    if attrs == [] then None else if attrs[0].kind == kind then Some(attrs[0].payload) else Find(attrs[1..], kind)
  }

  function FindU32(attrs: seq<Attr>, kind: nat, otherwise: nat): nat {
    var p := Find(attrs, kind);
    if p.Some? && |p.value| >= 4 then FromU32(p.value) else otherwise
  }

  function FindName(attrs: seq<Attr>, kind: nat): Option<string> {
    var p := Find(attrs, kind);
    if p.Some? then Some(FromNameBytes(p.value)) else None
  }

  function RuleFrom(attrs: seq<Attr>): Rule {
    var mark, mask := FindU32(attrs, FRA_FWMARK, 0), FindU32(attrs, FRA_FWMASK, 0);
    Rule(FindU32(attrs, FRA_PRIORITY, 0), FindU32(attrs, FRA_TABLE, RT_TABLE_UNSPEC),
         FromInt(if mark < 0x1_0000_0000 then mark else 0), FromInt(if mask < 0x1_0000_0000 then mask else 0),
         FindName(attrs, FRA_IIFNAME), FindName(attrs, FRA_OIFNAME),
         FindU32(attrs, FRA_UID_START, INVALID_UID), FindU32(attrs, FRA_UID_END, INVALID_UID))
  }

  /** Accepts a message only if its length field is its size and its attributes are well formed. */
  function DecodeRule(b: seq<byte>): Option<RuleMessage> {
    if |b| < NLMSG_HEADER + RULE_HEADER || FromU32(b) != |b| then None
    else
      var action := FromU16(b[4..]);
      if action != RTM_NEWRULE && action != RTM_DELRULE then None
      else
        var attrs := DecodeAttrs(b[NLMSG_HEADER + RULE_HEADER..]);
        if attrs.None? then None
        else Some(RuleMessage(action == RTM_NEWRULE, b[NLMSG_HEADER], RuleFrom(attrs.value)))
  }

  lemma {:induction false} FindConcat(a: seq<Attr>, b: seq<Attr>, kind: nat)
    ensures Find(a + b, kind) == if Find(a, kind).Some? then Find(a, kind) else Find(b, kind)
  {
    if a == [] {
      assert a + b == b;
    } else {
      assert (a + b)[0] == a[0] && (a + b)[1..] == a[1..] + b;
      FindConcat(a[1..], b, kind);
    }
  }

  /** Looking through the six groups of attributes of a rule. */
  lemma FindInGroups(a: seq<Attr>, b: seq<Attr>, c: seq<Attr>, d: seq<Attr>, e: seq<Attr>, f: seq<Attr>, kind: nat)
    ensures Find(a + b + c + d + e + f, kind) ==
            if Find(a, kind).Some? then Find(a, kind)
            else if Find(b, kind).Some? then Find(b, kind)
            else if Find(c, kind).Some? then Find(c, kind)
            else if Find(d, kind).Some? then Find(d, kind)
            else if Find(e, kind).Some? then Find(e, kind)
            else Find(f, kind)
  {
    hide Find;
    FindConcat(a + b + c + d + e, f, kind);
    FindConcat(a + b + c + d, e, kind);
    FindConcat(a + b + c, d, kind);
    FindConcat(a + b, c, kind);
    FindConcat(a, b, kind);
  }

  lemma FindFew(attrs: seq<Attr>, kind: nat)
    ensures attrs == [] ==> Find(attrs, kind).None?
    ensures |attrs| == 1 ==> Find(attrs, kind) == if attrs[0].kind == kind then Some(attrs[0].payload) else None
    ensures |attrs| == 2 ==> Find(attrs, kind) == if attrs[0].kind == kind then Some(attrs[0].payload)
                                                  else if attrs[1].kind == kind then Some(attrs[1].payload) else None
  {
    if |attrs| > 0 {
      assert |attrs| == 1 ==> attrs[1..] == [];
      assert |attrs| == 2 ==> attrs[1..] == [attrs[1]] && attrs[1..][1..] == [];
    }
  }

  /** The payload each kind of attribute has in a rule's message. */
  lemma FindInRule(r: Rule, kind: nat)
    requires Encodable(r)
    ensures var attrs := RuleAttrs(r);
            && (kind == FRA_PRIORITY ==> Find(attrs, kind) == Some(U32(r.priority)))
            && (kind == FRA_TABLE ==>
                  Find(attrs, kind) == if r.table == RT_TABLE_UNSPEC then None else Some(U32(r.table)))
            && (kind == FRA_FWMARK ==>
                  Find(attrs, kind) == if r.mask.IntValue() == 0 then None else Some(U32(r.fwmark.IntValue())))
            && (kind == FRA_FWMASK ==>
                  Find(attrs, kind) == if r.mask.IntValue() == 0 then None else Some(U32(r.mask.IntValue())))
            && (kind == FRA_UID_START ==>
                  Find(attrs, kind) == if r.uidStart == INVALID_UID then None else Some(U32(r.uidStart)))
            && (kind == FRA_UID_END ==>
                  Find(attrs, kind) == if r.uidStart == INVALID_UID then None else Some(U32(r.uidEnd)))
            && (kind == FRA_IIFNAME ==> Find(attrs, kind) == if r.iif.None? then None else Some(NameBytes(r.iif.value)))
            && (kind == FRA_OIFNAME ==> Find(attrs, kind) == if r.oif.None? then None else Some(NameBytes(r.oif.value)))
  {
    hide Find, U32, NameBytes;
    var a := [U32Attr(FRA_PRIORITY, r.priority)];
    var b := if r.table == RT_TABLE_UNSPEC then [] else [U32Attr(FRA_TABLE, r.table)];
    var e, f := NameAttr(FRA_IIFNAME, r.iif), NameAttr(FRA_OIFNAME, r.oif);
    FindInGroups(a, b, MaskAttrs(r), UidAttrs(r), e, f, kind);
    FindFew(a, kind);
    FindFew(b, kind);
    FindFew(MaskAttrs(r), kind);
    FindFew(UidAttrs(r), kind);
    FindFew(e, kind);
    FindFew(f, kind);
  }

  lemma NumberFound(attrs: seq<Attr>, kind: nat, n: nat, otherwise: nat)
    requires n < 0x1_0000_0000
    ensures Find(attrs, kind) == Some(U32(n)) ==> FindU32(attrs, kind, otherwise) == n
    ensures Find(attrs, kind) == None ==> FindU32(attrs, kind, otherwise) == otherwise
  {
    U32RoundTrip(n, []);
    assert U32(n) + [] == U32(n);
  }

  lemma NameFound(attrs: seq<Attr>, kind: nat, name: Option<string>)
    requires name.Some? ==> IsCString(name.value)
    requires Find(attrs, kind) == if name.None? then None else Some(NameBytes(name.value))
    ensures FindName(attrs, kind) == name
  {
    if name.Some? {
      NameRoundTrip(name.value);
    }
  }

  lemma RuleRecovered(r: Rule)
    requires Encodable(r) && RuleError(r) == 0
    ensures RuleFrom(RuleAttrs(r)) == r
  {
    hide Find, FindU32, FindName, RuleAttrs, FromInt, ConjunctionIs;
    var attrs := RuleAttrs(r);
    FindInRule(r, FRA_PRIORITY);
    NumberFound(attrs, FRA_PRIORITY, r.priority, 0);
    FindInRule(r, FRA_TABLE);
    NumberFound(attrs, FRA_TABLE, r.table, RT_TABLE_UNSPEC);
    FindInRule(r, FRA_UID_START);
    NumberFound(attrs, FRA_UID_START, r.uidStart, INVALID_UID);
    FindInRule(r, FRA_UID_END);
    NumberFound(attrs, FRA_UID_END, r.uidEnd, INVALID_UID);
    FindInRule(r, FRA_IIFNAME);
    NameFound(attrs, FRA_IIFNAME, r.iif);
    FindInRule(r, FRA_OIFNAME);
    NameFound(attrs, FRA_OIFNAME, r.oif);
    MarksRecovered(r);
  }

  lemma MarksRecovered(r: Rule)
    requires Encodable(r) && ConjunctionIs(r.fwmark.IntValue(), r.mask.IntValue(), r.fwmark.IntValue())
    ensures var attrs := RuleAttrs(r);
            FindU32(attrs, FRA_FWMARK, 0) == r.fwmark.IntValue() && FindU32(attrs, FRA_FWMASK, 0) == r.mask.IntValue()
    ensures FromInt(r.fwmark.IntValue()) == r.fwmark && FromInt(r.mask.IntValue()) == r.mask
  {
    ConjunctionIsAnd(r.fwmark.IntValue(), r.mask.IntValue(), r.fwmark.IntValue());
    hide Find, FindU32, RuleAttrs, FromInt, ConjunctionIs;
    var attrs := RuleAttrs(r);
    FindInRule(r, FRA_FWMARK);
    NumberFound(attrs, FRA_FWMARK, r.fwmark.IntValue(), 0);
    FindInRule(r, FRA_FWMASK);
    NumberFound(attrs, FRA_FWMASK, r.mask.IntValue(), 0);
    ViewsAreInverse(0, r.fwmark);
    ViewsAreInverse(0, r.mask);
  }

  lemma HeaderFields(length: nat, action: nat, flags: nat, rest: seq<byte>)
    requires length < 0x1_0000_0000 && action < 0x1_0000 && flags < 0x1_0000
    ensures var b := MessageHeader(length, action, flags) + rest;
            FromU32(b) == length && FromU16(b[4..]) == action && b[NLMSG_HEADER..] == rest
  {
    hide Zeros, FromU32;
    var b := MessageHeader(length, action, flags) + rest;
    U32RoundTrip(length, U16(action) + U16(flags) + Zeros(8) + rest);
    assert b == U32(length) + (U16(action) + U16(flags) + Zeros(8) + rest);
    assert b[4..][0] == U16(action)[0] && b[4..][1] == U16(action)[1];
  }

  /** Every rule modifyIpRule() accepts is recovered from its message, which is 4-byte aligned and whose length field is
      its size. */
  lemma RuleRoundTrip(add: bool, family: byte, r: Rule)
    requires Encodable(r) && RuleError(r) == 0
    ensures var b := EncodeRule(add, family, r);
            DecodeRule(b) == Some(RuleMessage(add, family, r)) && FromU32(b) == |b| && |b| % 4 == 0
  {
    hide EncodeAttrs, DecodeAttrs, MessageHeader, FromU32, RuleAttrs, RuleFrom, FromU16, RuleHeader;
    RuleAttrsValid(r);
    var attrs := RuleAttrs(r);
    var payload := RulePayload(family, r);
    var b := EncodeRule(add, family, r);
    HeaderFields(NLMSG_HEADER + |payload|, if add then RTM_NEWRULE else RTM_DELRULE,
                 if add then NETLINK_CREATE_REQUEST_FLAGS else NETLINK_REQUEST_FLAGS, payload);
    assert b[NLMSG_HEADER + RULE_HEADER..] == b[NLMSG_HEADER..][RULE_HEADER..] == EncodeAttrs(attrs);
    assert b[NLMSG_HEADER] == b[NLMSG_HEADER..][0];
    FamilyByte(family, r);
    AttrsRoundTrip(attrs);
    RuleRecovered(r);
  }

  lemma FamilyByte(family: byte, r: Rule)
    ensures RuleHeader(family, r)[0] == family
  {
  }

  /** So messages are as good as rules: different rules have different messages. */
  lemma MessagesIdentifyRules(add: bool, family: byte, r: Rule, add': bool, family': byte, r': Rule)
    requires Encodable(r) && RuleError(r) == 0 && Encodable(r') && RuleError(r') == 0
    requires EncodeRule(add, family, r) == EncodeRule(add', family', r')
    ensures add == add' && family == family' && r == r'
  {
    hide EncodeRule, DecodeRule, RuleError;
    Accepted(r);
    Accepted(r');
    RuleRoundTrip(add, family, r);
    RuleRoundTrip(add', family', r');
  }

  lemma Accepted(r: Rule)
    requires RuleError(r) == 0
    ensures NameFits(r.iif) && NameFits(r.oif)
  {
  }

  // ----- Assembling the message -----

  function AttrHeader(kind: nat, payload: nat): seq<byte>
    requires kind < 0x1_0000 && 4 + payload < 0x1_0000
  {
    U16(4 + payload) + U16(kind)
  }

  function Flatten(iov: seq<seq<byte>>): seq<byte> {
    if iov == [] then [] else Flatten(iov[..|iov| - 1]) + iov[|iov| - 1]
  }

  /** padInterfaceName(): the length of the name with its NUL, and the padding that follows it. */
  method PadInterfaceName(name: Option<string>) returns (ret: int, length: nat, padding: nat)
    ensures ret == 0 <==> NameFits(name)
    ensures ret != 0 ==> ret == -ENAMETOOLONG
    ensures ret == 0 && name.Some? ==> length == |name.value| + 1 && padding == Align4(4 + length) - (4 + length)
    ensures ret == 0 && name.None? ==> length == 0 && padding == 0
  {
    if name.None? {
      return 0, 0, 0;
    }
    length := |name.value| + 1;
    if length > IFNAMSIZ {
      return -ENAMETOOLONG, length, 0;
    }
    padding := Align4(4 + length) - (4 + length);
    ret := 0;
  }

  /** modifyIpRule() and sendNetlinkRequest() up to the writev(): the checks, the io vector, the length summed over
      it. */
  method AssembleRule(add: bool, family: byte, r: Rule) returns (ret: int, message: seq<byte>)
    requires Encodable(r)
    ensures ret == RuleError(r)
    ensures ret == 0 ==> message == EncodeRule(add, family, r)
  {
    hide ConjunctionIs, RuleAttrs, EncodeAttrs, RuleHeader, RulePieces, Flatten, Message, IsCString;
    if !ConjunctionIs(r.fwmark.IntValue(), r.mask.IntValue(), r.fwmark.IntValue()) {
      return -ERANGE, [];
    }
    var iifLength, iifPadding, oifLength, oifPadding;
    ret, iifLength, iifPadding := PadInterfaceName(r.iif);
    if ret != 0 { return ret, []; }
    ret, oifLength, oifPadding := PadInterfaceName(r.oif);
    if ret != 0 { return ret, []; }
    if (r.uidStart == INVALID_UID) != (r.uidEnd == INVALID_UID) {
      return -EUSERS, [];
    }
    var table, mask, uid := r.table != RT_TABLE_UNSPEC, r.mask.IntValue() != 0, r.uidStart != INVALID_UID;
    var iov := RulePieces(family, r, table, mask, uid, iifLength, iifPadding, oifLength, oifPadding);
    PiecesAreMessage(family, r, table, mask, uid, iifLength, iifPadding, oifLength, oifPadding);
    message := Send(add, iov);
    ret := 0;
  }

  /** sendNetlinkRequest(): the 32-bit length field is the sum over the io vector, which starts with the header
      itself. */
  method Send(add: bool, iov: seq<seq<byte>>) returns (message: seq<byte>)
    ensures message == Message(add, Flatten(iov))
  {
    var length := NLMSG_HEADER;
    for i := 0 to |iov|
      invariant length == NLMSG_HEADER + |Flatten(iov[..i])|
    {
      assert iov[..i + 1][..i] == iov[..i];
      length := length + |iov[i]|;
    }
    assert iov[..|iov|] == iov;
    message := MessageHeader(Wrapped(length), if add then RTM_NEWRULE else RTM_DELRULE,
                             if add then NETLINK_CREATE_REQUEST_FLAGS else NETLINK_REQUEST_FLAGS) + Flatten(iov);
  }

  /** Two pieces for a number: its attribute header and its bytes, both of length 0 if the attribute is absent. */
  function NumberPieces(kind: nat, present: bool, n: nat): seq<seq<byte>>
    requires kind < 0x1_0000 && n < 0x1_0000_0000
  {
    [if present then AttrHeader(kind, 4) else [], if present then U32(n) else []]
  }

  /** Three pieces for a name: header, name with NUL, padding. */
  function NamePieces(kind: nat, name: Option<string>, length: nat, padding: nat): seq<seq<byte>>
    requires kind < 0x1_0000 && length <= IFNAMSIZ && (name.Some? ==> IsCString(name.value))
  {
    [ if name.Some? then AttrHeader(kind, length) else [],
      if name.Some? then NameBytes(name.value) else [],
      Zeros(padding) ]
  }

  /** The io vector of modifyIpRule() after the netlink header. */
  function RulePieces(family: byte, r: Rule, table: bool, mask: bool, uid: bool,
                      iifLength: nat, iifPadding: nat, oifLength: nat, oifPadding: nat): seq<seq<byte>>
    requires Encodable(r) && iifLength <= IFNAMSIZ && oifLength <= IFNAMSIZ
  {
    [RuleHeader(family, r)] +
    NumberPieces(FRA_PRIORITY, true, r.priority) +
    NumberPieces(FRA_TABLE, table, r.table) +
    (NumberPieces(FRA_FWMARK, mask, r.fwmark.IntValue()) + NumberPieces(FRA_FWMASK, mask, r.mask.IntValue())) +
    (NumberPieces(FRA_UID_START, uid, r.uidStart) + NumberPieces(FRA_UID_END, uid, r.uidEnd)) +
    NamePieces(FRA_IIFNAME, r.iif, iifLength, iifPadding) +
    NamePieces(FRA_OIFNAME, r.oif, oifLength, oifPadding)
  }

  lemma {:induction false} FlattenConcat(a: seq<seq<byte>>, b: seq<seq<byte>>)
    ensures Flatten(a + b) == Flatten(a) + Flatten(b)
  {
    if b == [] {
      assert a + b == a;
    } else {
      var last := |b| - 1;
      assert (a + b)[..|a + b| - 1] == a + b[..last];
      FlattenConcat(a, b[..last]);
    }
  }

  lemma {:induction false} EncodeConcat(a: seq<Attr>, b: seq<Attr>)
    requires forall i :: 0 <= i < |a| ==> ValidAttr(a[i])
    requires forall i :: 0 <= i < |b| ==> ValidAttr(b[i])
    ensures EncodeAttrs(a + b) == EncodeAttrs(a) + EncodeAttrs(b)
  {
    if a == [] {
      assert a + b == b;
    } else {
      assert (a + b)[0] == a[0] && (a + b)[1..] == a[1..] + b;
      EncodeConcat(a[1..], b);
    }
  }

  ghost predicate Encodes(pieces: seq<seq<byte>>, attrs: seq<Attr>) {
    (forall i :: 0 <= i < |attrs| ==> ValidAttr(attrs[i])) && Flatten(pieces) == EncodeAttrs(attrs)
  }

  lemma EncodesConcat(p: seq<seq<byte>>, a: seq<Attr>, q: seq<seq<byte>>, b: seq<Attr>)
    requires Encodes(p, a) && Encodes(q, b)
    ensures Encodes(p + q, a + b)
  {
    hide Flatten, EncodeAttrs;
    FlattenConcat(p, q);
    EncodeConcat(a, b);
  }

  lemma NumberEncodes(kind: nat, present: bool, n: nat)
    requires kind < 0x1_0000 && n < 0x1_0000_0000
    ensures Encodes(NumberPieces(kind, present, n), if present then [U32Attr(kind, n)] else [])
  {
    hide U16, U32;
    var x, y := if present then AttrHeader(kind, 4) else [], if present then U32(n) else [];
    FlattenTwo(x, y);
    if present {
      EncodeOne(U32Attr(kind, n));
      assert Zeros(0) == [];
    }
  }

  lemma FlattenTwo(x: seq<byte>, y: seq<byte>)
    ensures Flatten([x, y]) == x + y
  {
    assert [x, y][..1] == [x] && [x][..0] == [];
    assert Flatten([x]) == [] + x;
  }

  lemma EncodeOne(a: Attr)
    requires ValidAttr(a)
    ensures EncodeAttrs([a]) == EncodeAttr(a)
  {
    assert [a][1..] == [];
    assert EncodeAttr(a) + EncodeAttrs([]) == EncodeAttr(a);
  }

  lemma NameEncodes(kind: nat, name: Option<string>, length: nat, padding: nat)
    requires kind < 0x1_0000 && length <= IFNAMSIZ && (name.Some? ==> IsCString(name.value))
    requires name.Some? ==> length == |name.value| + 1 && padding == Align4(4 + length) - (4 + length)
    requires name.None? ==> length == 0 && padding == 0
    ensures Encodes(NamePieces(kind, name, length, padding), NameAttr(kind, name))
  {
    hide U16, NameBytes;
    var x, y := if name.Some? then AttrHeader(kind, length) else [], if name.Some? then NameBytes(name.value) else [];
    FlattenTwo(x, y);
    assert [x, y, Zeros(padding)][..2] == [x, y];
    if name.Some? {
      EncodeOne(Attr(kind, NameBytes(name.value)));
    }
  }

  /** The pieces, one after the other, are the rest of the message. */
  lemma PiecesAreMessage(family: byte, r: Rule, table: bool, mask: bool, uid: bool,
                         iifLength: nat, iifPadding: nat, oifLength: nat, oifPadding: nat)
    requires Encodable(r) && NameFits(r.iif) && NameFits(r.oif)
    requires table == (r.table != RT_TABLE_UNSPEC) && mask == (r.mask.IntValue() != 0)
             && uid == (r.uidStart != INVALID_UID)
    requires iifLength <= IFNAMSIZ && oifLength <= IFNAMSIZ
    requires if r.iif.Some? then iifLength == |r.iif.value| + 1 && iifPadding == Align4(4 + iifLength) - (4 + iifLength)
             else iifLength == 0 && iifPadding == 0
    requires if r.oif.Some? then oifLength == |r.oif.value| + 1 && oifPadding == Align4(4 + oifLength) - (4 + oifLength)
             else oifLength == 0 && oifPadding == 0
    ensures Flatten(RulePieces(family, r, table, mask, uid, iifLength, iifPadding, oifLength, oifPadding)) ==
              RulePayload(family, r)
  {
    hide Flatten, EncodeAttrs, NumberPieces, NamePieces, NameBytes, RuleHeader, ValidAttr, U32;
    var p1, p2 := NumberPieces(FRA_PRIORITY, true, r.priority), NumberPieces(FRA_TABLE, table, r.table);
    var m1 := NumberPieces(FRA_FWMARK, mask, r.fwmark.IntValue());
    var m2 := NumberPieces(FRA_FWMASK, mask, r.mask.IntValue());
    var u1, u2 := NumberPieces(FRA_UID_START, uid, r.uidStart), NumberPieces(FRA_UID_END, uid, r.uidEnd);
    var n1 := NamePieces(FRA_IIFNAME, r.iif, iifLength, iifPadding);
    var n2 := NamePieces(FRA_OIFNAME, r.oif, oifLength, oifPadding);
    var a1 := [U32Attr(FRA_PRIORITY, r.priority)];
    var a2 := if r.table == RT_TABLE_UNSPEC then [] else [U32Attr(FRA_TABLE, r.table)];
    NumberEncodes(FRA_PRIORITY, true, r.priority);
    NumberEncodes(FRA_TABLE, table, r.table);
    GroupsEncode(r, mask, uid);
    NameEncodes(FRA_IIFNAME, r.iif, iifLength, iifPadding);
    NameEncodes(FRA_OIFNAME, r.oif, oifLength, oifPadding);
    EncodesConcat(p1, a1, p2, a2);
    EncodesConcat(p1 + p2, a1 + a2, m1 + m2, MaskAttrs(r));
    EncodesConcat(p1 + p2 + (m1 + m2), a1 + a2 + MaskAttrs(r), u1 + u2, UidAttrs(r));
    EncodesConcat(p1 + p2 + (m1 + m2) + (u1 + u2), a1 + a2 + MaskAttrs(r) + UidAttrs(r), n1,
                  NameAttr(FRA_IIFNAME, r.iif));
    EncodesConcat(p1 + p2 + (m1 + m2) + (u1 + u2) + n1,
                  a1 + a2 + MaskAttrs(r) + UidAttrs(r) + NameAttr(FRA_IIFNAME, r.iif),
                  n2, NameAttr(FRA_OIFNAME, r.oif));
    HeaderFirst(RuleHeader(family, r), p1, p2, m1 + m2, u1 + u2, n1, n2);
  }

  lemma HeaderFirst(h: seq<byte>, a: seq<seq<byte>>, b: seq<seq<byte>>, c: seq<seq<byte>>, d: seq<seq<byte>>,
                    e: seq<seq<byte>>,
                    f: seq<seq<byte>>)
    ensures Flatten([h] + a + b + c + d + e + f) == h + Flatten(a + b + c + d + e + f)
  {
    FlattenConcat([h], a + b + c + d + e + f);
    assert [h] + a + b + c + d + e + f == [h] + (a + b + c + d + e + f);
    assert [h][..0] == [];
    assert Flatten([h]) == [] + h;
  }

  lemma GroupsEncode(r: Rule, mask: bool, uid: bool)
    requires Encodable(r) && mask == (r.mask.IntValue() != 0) && uid == (r.uidStart != INVALID_UID)
    ensures Encodes(NumberPieces(FRA_FWMARK, mask, r.fwmark.IntValue()) +
                    NumberPieces(FRA_FWMASK, mask, r.mask.IntValue()), MaskAttrs(r))
    ensures Encodes(NumberPieces(FRA_UID_START, uid, r.uidStart) + NumberPieces(FRA_UID_END, uid, r.uidEnd),
                    UidAttrs(r))
  {
    hide Flatten, EncodeAttrs, NumberPieces, Encodes, U32;
    NumberEncodes(FRA_FWMARK, mask, r.fwmark.IntValue());
    NumberEncodes(FRA_FWMASK, mask, r.mask.IntValue());
    NumberEncodes(FRA_UID_START, uid, r.uidStart);
    NumberEncodes(FRA_UID_END, uid, r.uidEnd);
    EncodesConcat(NumberPieces(FRA_FWMARK, mask, r.fwmark.IntValue()),
                  if mask then [U32Attr(FRA_FWMARK, r.fwmark.IntValue())] else [],
                  NumberPieces(FRA_FWMASK, mask, r.mask.IntValue()),
                  if mask then [U32Attr(FRA_FWMASK, r.mask.IntValue())] else []);
    EncodesConcat(NumberPieces(FRA_UID_START, uid, r.uidStart),
                  if uid then [U32Attr(FRA_UID_START, r.uidStart)] else [],
                  NumberPieces(FRA_UID_END, uid, r.uidEnd), if uid then [U32Attr(FRA_UID_END, r.uidEnd)] else []);
    assert (if mask then [U32Attr(FRA_FWMARK, r.fwmark.IntValue())] else []) +
           (if mask then [U32Attr(FRA_FWMASK, r.mask.IntValue())] else []) == MaskAttrs(r);
    assert (if uid then [U32Attr(FRA_UID_START, r.uidStart)] else []) +
           (if uid then [U32Attr(FRA_UID_END, r.uidEnd)] else []) == UidAttrs(r);
  }
}
