/** Permission bits (include/Permission.h) and the 32-bit socket mark (include/Fwmark.h). */
module Fwmarks {

  const INVALID_UID: nat := 0xffff_ffff
  const FWMARK_NET_ID_MASK: nat := 0xffff
  const NETID_UNSET: nat := 0

  type uint32 = n: nat | n < 0x1_0000_0000

  /** A permission is a set of flags; bit 0 is `network`, bit 1 is the extra bit of SYSTEM. */
  datatype Permission = Permission(network: bool, system: bool) {

    function Or(other: Permission): Permission {
      Permission(network || other.network, system || other.system)
    }

    /** (this & required) == required */
    predicate Includes(required: Permission) {
      (required.network ==> network) && (required.system ==> system)
    }
  }

  const PERMISSION_NONE := Permission(false, false)
  const PERMISSION_NETWORK := Permission(true, false)
  const PERMISSION_SYSTEM := Permission(true, true)

  /** The struct view of the mark; `unused` are the 12 bits no field covers. */
  datatype Fwmark = Fwmark(netId: nat, explicitlySelected: bool, protectedFromVpn: bool, permission: Permission,
                           unused: nat := 0)
  {
    predicate Valid() {
      netId < 0x1_0000 && unused < 0x1000
    }

    /** The bits above the network id, as a number. */
    function High(): nat {
      Flag(explicitlySelected) + 2 * (Flag(protectedFromVpn) + 2 * (Flag(permission.network) +
      2 * (Flag(permission.system) + 2 * unused)))
    }

    /** The integer view of the union. */
    function IntValue(): (v: uint32)
      requires Valid()
    {
      netId + 0x1_0000 * High()
    }
  }

  function Flag(b: bool): nat { if b then 1 else 0 }

  type Mark = m: Fwmark | m.Valid() witness Fwmark(0, false, false, Permission(false, false))

  const NO_MARK: Mark := Fwmark(NETID_UNSET, false, false, PERMISSION_NONE)

  /** The struct view of an integer mark. */
  function FromInt(v: uint32): (m: Fwmark)
    ensures m.Valid()
  {
    var h := v / 0x1_0000;
    Fwmark(v % 0x1_0000, h % 2 == 1, h / 2 % 2 == 1, Permission(h / 4 % 2 == 1, h / 8 % 2 == 1), h / 16)
  }

  /** The two views of the union are inverse to each other. */
  lemma ViewsAreInverse(v: uint32, m: Fwmark)
    requires m.Valid()
    ensures FromInt(v).IntValue() == v
    ensures FromInt(m.IntValue()) == m
  {
    var h := v / 0x1_0000;
    BitsOf(h);
    var bits := m.High();
    FieldsOf(m.explicitlySelected, m.protectedFromVpn, m.permission.network, m.permission.system, m.unused);
    assert m.IntValue() / 0x1_0000 == bits;
  }

  lemma BitsOf(h: nat)
    ensures h % 2 + 2 * (h / 2 % 2 + 2 * (h / 4 % 2 + 2 * (h / 8 % 2 + 2 * (h / 16)))) == h
  {
    Halves(h);
    Recompose(h, h / 2, h / 4, h / 8, h / 16);
  }

  lemma Halves(h: nat)
    ensures h / 4 == h / 2 / 2 && h / 8 == h / 4 / 2 && h / 16 == h / 8 / 2
  {
  }

  lemma Recompose(h: nat, a: nat, b: nat, c: nat, d: nat)
    requires a == h / 2 && b == a / 2 && c == b / 2 && d == c / 2
    ensures h % 2 + 2 * (a % 2 + 2 * (b % 2 + 2 * (c % 2 + 2 * d))) == h
  {
    LowBit(c);
    LowBit(b);
    LowBit(a);
    LowBit(h);
  }

  lemma LowBit(h: nat)
    ensures h % 2 + 2 * (h / 2) == h
  {
  }

  lemma OneFlag(f: bool, g: nat)
    ensures ((Flag(f) + 2 * g) % 2 == 1) == f && (Flag(f) + 2 * g) / 2 == g
  {
  }

  lemma FieldsOf(a: bool, b: bool, c: bool, d: bool, u: nat)
    ensures
      var h := Flag(a) + 2 * (Flag(b) + 2 * (Flag(c) + 2 * (Flag(d) + 2 * u)));
      (h % 2 == 1) == a && (h / 2 % 2 == 1) == b && (h / 4 % 2 == 1) == c && (h / 8 % 2 == 1) == d && h / 16 == u
  {
    hide Flag;
    var g3 := Flag(d) + 2 * u;
    var g2 := Flag(c) + 2 * g3;
    var g1 := Flag(b) + 2 * g2;
    var h := Flag(a) + 2 * g1;
    OneFlag(a, g1);
    OneFlag(b, g2);
    OneFlag(c, g3);
    OneFlag(d, u);
    Halves(h);
  }

  // ----- Bitwise conjunction of naturals, bit by bit -----

  function And(a: nat, b: nat): (r: nat)
    ensures r <= a && r <= b
  {
    if a == 0 || b == 0 then 0 else Flag(a % 2 == 1 && b % 2 == 1) + 2 * And(a / 2, b / 2)
  }

  function Pow2(k: nat): (p: nat)
    ensures p > 0
  {
    if k == 0 then 1 else 2 * Pow2(k - 1)
  }

  lemma FieldWidths()
    ensures Pow2(12) == 0x1000 && Pow2(16) == 0x1_0000 && Pow2(32) == 0x1_0000_0000
  {
    assert Pow2(4) == 16;
    assert Pow2(8) == 256;
    assert Pow2(12) == 4096;
    assert Pow2(16) == 65536;
    assert Pow2(20) == 0x10_0000;
    assert Pow2(24) == 0x100_0000;
    assert Pow2(28) == 0x1000_0000;
  }

  /** One bit of And, also when an operand is 0. */
  lemma AndStep(a: nat, b: nat)
    ensures And(a, b) == Flag(a % 2 == 1 && b % 2 == 1) + 2 * And(a / 2, b / 2)
  {
  }

  lemma {:induction false} AndSplit(a: nat, b: nat, x: nat, y: nat, k: nat)
    requires x < Pow2(k) && y < Pow2(k)
    ensures And(x + Pow2(k) * a, y + Pow2(k) * b) == And(x, y) + Pow2(k) * And(a, b)
  {
    hide And;
    if k > 0 {
      var p := Pow2(k - 1);
      HalfBelow(x, p);
      HalfBelow(y, p);
      AndSplit(a, b, x / 2, y / 2, k - 1);
      AndDouble(x, y, p * a, p * b, p * And(a, b));
      DoubleProduct(p, a);
      DoubleProduct(p, b);
      DoubleProduct(p, And(a, b));
    } else {
      AndZero(x, y);
    }
  }

  lemma HalfBelow(x: nat, p: nat)
    ensures x < 2 * p ==> x / 2 < p
  {
  }

  lemma AndZero(x: nat, y: nat)
    requires x == 0 && y == 0
    ensures And(x, y) == 0
  {
  }

  /** One more low bit on both sides. */
  lemma AndDouble(x: nat, y: nat, u: nat, w: nat, t: nat)
    requires And(x / 2 + u, y / 2 + w) == And(x / 2, y / 2) + t
    ensures And(x + 2 * u, y + 2 * w) == And(x, y) + 2 * t
  {
    hide And;
    AndStep(x + 2 * u, y + 2 * w);
    AndStep(x, y);
    ShiftIn(x, u);
    ShiftIn(y, w);
  }

  lemma ShiftIn(x: nat, u: nat)
    ensures (x + 2 * u) % 2 == x % 2 && (x + 2 * u) / 2 == x / 2 + u
  {
  }

  lemma DoubleProduct(p: nat, a: nat)
    ensures (2 * p) * a == 2 * (p * a)
  {
  }

  lemma {:induction false} AndAllOnes(x: nat, k: nat)
    requires x < Pow2(k)
    ensures And(x, Pow2(k) - 1) == x && And(x, 0) == 0
  {
    AndNone(x);
    hide And;
    if k > 0 {
      var p := Pow2(k - 1);
      HalfBelow(x, p);
      AndAllOnes(x / 2, k - 1);
      AndStep(x, 2 * p - 1);
      OneFlag(true, p - 1);
      LowBit(x);
    }
  }

  lemma AndNone(x: nat)
    ensures And(x, 0) == 0 && And(0, x) == 0
  {
  }

  // ----- The kernel's masked match against the fields -----

  /** How fib_rule_match compares a packet's mark with a rule. */
  predicate MaskedMatch(mark: Fwmark, value: Fwmark, mask: Fwmark)
    requires mark.Valid() && value.Valid() && mask.Valid()
  {
    ConjunctionIs(mark.IntValue(), mask.IntValue(), value.IntValue())
  }

  /** The k-th bit of a number. */
  predicate Bit(v: nat, k: nat)
    decreases k
  {
    if k == 0 then v % 2 == 1 else Bit(v / 2, k - 1)
  }

  const MARK_BITS: nat := 32

  /** a & b == c, bit by bit. */
  predicate ConjunctionIs(a: uint32, b: uint32, c: uint32) {
    forall k :: 0 <= k < MARK_BITS ==> (Bit(c, k) <==> Bit(a, k) && Bit(b, k))
  }

  ghost predicate LowBitsAgree(a: nat, b: nat, c: nat, n: nat) {
    forall k :: 0 <= k < n ==> (Bit(c, k) <==> Bit(a, k) && Bit(b, k))
  }

  lemma LowBitsStep(a: nat, b: nat, c: nat, n: nat)
    requires n > 0
    ensures LowBitsAgree(a, b, c, n) <==>
              (c % 2 == 1 <==> a % 2 == 1 && b % 2 == 1) && LowBitsAgree(a / 2, b / 2, c / 2, n - 1)
  {
    if LowBitsAgree(a, b, c, n) {
      assert Bit(c, 0) <==> Bit(a, 0) && Bit(b, 0);
      forall k | 0 <= k < n - 1
        ensures Bit(c / 2, k) <==> Bit(a / 2, k) && Bit(b / 2, k)
      {
        assert Bit(c, k + 1) <==> Bit(a, k + 1) && Bit(b, k + 1);
      }
    }
    if (c % 2 == 1 <==> a % 2 == 1 && b % 2 == 1) && LowBitsAgree(a / 2, b / 2, c / 2, n - 1) {
      forall k | 0 <= k < n
        ensures Bit(c, k) <==> Bit(a, k) && Bit(b, k)
      {
        assert k == 0 || (Bit(c / 2, k - 1) <==> Bit(a / 2, k - 1) && Bit(b / 2, k - 1));
      }
    }
  }

  /** The recursive conjunction is the bitwise one. */
  lemma {:induction false} AndIsBitwise(a: nat, b: nat, c: nat, n: nat)
    requires a < Pow2(n) && b < Pow2(n) && c < Pow2(n)
    ensures LowBitsAgree(a, b, c, n) <==> And(a, b) == c
  {
    if n == 0 {
      AndZero(a, b);
    } else {
      var p := Pow2(n - 1);
      HalfBelow(a, p);
      HalfBelow(b, p);
      HalfBelow(c, p);
      AndIsBitwise(a / 2, b / 2, c / 2, n - 1);
      LowBitsStep(a, b, c, n);
      hide And, LowBitsAgree, Bit;
      AndStep(a, b);
      LowBit(c);
    }
  }

  lemma ConjunctionIsAnd(a: uint32, b: uint32, c: uint32)
    ensures ConjunctionIs(a, b, c) <==> And(a, b) == c
  {
    hide And, Bit;
    FieldWidths();
    assert LowBitsAgree(a, b, c, 32) == ConjunctionIs(a, b, c);
    AndIsBitwise(a, b, c, 32);
  }

  /** A mask as the rule builders write it: the network id is selected entirely or not at all. */
  predicate IsSelector(value: Fwmark, mask: Fwmark) {
    && value.Valid() && mask.Valid()
    && mask.netId in {0, FWMARK_NET_ID_MASK}
    && mask.unused == 0 && Within(value, mask)
  }

  /** (value & ~mask) == 0, field by field. */
  predicate Within(value: Fwmark, mask: Fwmark) {
    && (mask.netId == 0 ==> value.netId == 0)
    && (value.explicitlySelected ==> mask.explicitlySelected)
    && (value.protectedFromVpn ==> mask.protectedFromVpn)
    && mask.permission.Includes(value.permission)
    && value.unused == 0
  }

  predicate FieldMatch(mark: Fwmark, value: Fwmark, mask: Fwmark) {
    && (mask.netId != 0 ==> mark.netId == value.netId)
    && (mask.explicitlySelected ==> mark.explicitlySelected == value.explicitlySelected)
    && (mask.protectedFromVpn ==> mark.protectedFromVpn == value.protectedFromVpn)
    && (mask.permission.network ==> mark.permission.network == value.permission.network)
    && (mask.permission.system ==> mark.permission.system == value.permission.system)
  }

  lemma AndFlag(x: bool, y: bool, a: nat, b: nat)
    ensures And(Flag(x) + 2 * a, Flag(y) + 2 * b) == Flag(x && y) + 2 * And(a, b)
  {
    hide And;
    AndStep(Flag(x) + 2 * a, Flag(y) + 2 * b);
    OneFlag(x, a);
    OneFlag(y, b);
  }

  /** The conjunction of two marks, field by field. */
  function Masked(m: Fwmark, k: Fwmark): (r: Fwmark)
    requires m.Valid() && k.Valid()
    ensures r.Valid()
  {
    Fwmark(And(m.netId, k.netId), m.explicitlySelected && k.explicitlySelected,
           m.protectedFromVpn && k.protectedFromVpn,
           Permission(m.permission.network && k.permission.network, m.permission.system && k.permission.system),
           And(m.unused, k.unused))
  }

  lemma AndSplit16(a: nat, b: nat, x: nat, y: nat)
    requires x < 0x1_0000 && y < 0x1_0000
    ensures And(x + 0x1_0000 * a, y + 0x1_0000 * b) == And(x, y) + 0x1_0000 * And(a, b)
  {
    FieldWidths();
    AndSplit(a, b, x, y, 16);
  }

  lemma AndHigh(m: Fwmark, k: Fwmark)
    requires m.Valid() && k.Valid()
    ensures And(m.High(), k.High()) == Masked(m, k).High()
  {
    hide And;
    var p, q := m.permission, k.permission;
    AndFlags(p.network, p.system, m.unused, q.network, q.system, k.unused);
    AndFlags(m.explicitlySelected, m.protectedFromVpn, Flag(p.network) + 2 * (Flag(p.system) + 2 * m.unused),
             k.explicitlySelected, k.protectedFromVpn, Flag(q.network) + 2 * (Flag(q.system) + 2 * k.unused));
  }

  lemma AndFlags(x: bool, x': bool, a: nat, y: bool, y': bool, b: nat)
    ensures And(Flag(x) + 2 * (Flag(x') + 2 * a), Flag(y) + 2 * (Flag(y') + 2 * b)) ==
            Flag(x && y) + 2 * (Flag(x' && y') + 2 * And(a, b))
  {
    hide And;
    AndFlag(x, y, Flag(x') + 2 * a, Flag(y') + 2 * b);
    AndFlag(x', y', a, b);
  }

  lemma AndNetId(netId: nat, mask: nat)
    requires netId < 0x1_0000 && mask in {0, FWMARK_NET_ID_MASK}
    ensures And(netId, mask) == if mask == 0 then 0 else netId
  {
    hide And;
    FieldWidths();
    AndAllOnes(netId, 16);
  }

  /** Masked 32-bit matching agrees with field-wise matching, for every mark and every selector. */
  lemma MatchAgrees(mark: Fwmark, value: Fwmark, mask: Fwmark)
    requires mark.Valid() && IsSelector(value, mask)
    ensures MaskedMatch(mark, value, mask) <==> FieldMatch(mark, value, mask)
  {
    hide And;
    MaskedIsAnd(mark, mask);
    ConjunctionIsAnd(mark.IntValue(), mask.IntValue(), value.IntValue());
    hide ConjunctionIs;
    ValuesIdentify(Masked(mark, mask), value);
    AndNetId(mark.netId, mask.netId);
    AndNone(mark.unused);
  }

  lemma MaskedIsAnd(mark: Fwmark, mask: Fwmark)
    requires mark.Valid() && mask.Valid()
    ensures And(mark.IntValue(), mask.IntValue()) == Masked(mark, mask).IntValue()
  {
    hide And;
    AndSplit16(mark.High(), mask.High(), mark.netId, mask.netId);
    AndHigh(mark, mask);
  }

  lemma ValuesIdentify(a: Fwmark, b: Fwmark)
    requires a.Valid() && b.Valid()
    ensures a.IntValue() == b.IntValue() <==> a == b
  {
    hide FromInt;
    ViewsAreInverse(0, a);
    ViewsAreInverse(0, b);
  }
}
