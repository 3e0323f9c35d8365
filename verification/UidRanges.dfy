/** Sorted lists of user id ranges (server/UidRanges.cpp). */
module Uids {
  import opened Fwmarks

  datatype Range = Range(first: nat, last: nat)

  /** operator< of std::pair. */
  predicate Less(a: Range, b: Range) {
    a.first < b.first || (a.first == b.first && a.last < b.last)
  }

  ghost predicate Sorted(s: seq<Range>) {
    forall i, j :: 0 <= i < j < |s| ==> !Less(s[j], s[i])
  }

  /** What parseFrom() lets through: nonempty ranges that do not mention INVALID_UID. */
  predicate Proper(r: Range) {
    r.first <= r.last && r.first != INVALID_UID && r.last != INVALID_UID
  }

  ghost predicate Wellformed(s: seq<Range>) {
    Sorted(s) && forall r :: r in s ==> Proper(r)
  }

  /** Plain membership: some range of the list contains the user. */
  ghost predicate Covers(s: seq<Range>, uid: nat) {
    exists r :: r in s && r.first <= uid <= r.last
  }

  // ----- Merging and multiset difference -----

  /** std::inplace_merge of two runs: on equal elements the left run comes first. */
  function Merge(a: seq<Range>, b: seq<Range>): seq<Range> {
    if a == [] then b
    else if b == [] then a
    else if Less(b[0], a[0]) then [b[0]] + Merge(a, b[1..])
    else [a[0]] + Merge(a[1..], b)
  }

  lemma {:induction false} MergeIsUnion(a: seq<Range>, b: seq<Range>)
    ensures multiset(Merge(a, b)) == multiset(a) + multiset(b)
    ensures forall r :: r in Merge(a, b) <==> r in a || r in b
    decreases |a| + |b|
  {
    if a != [] && b != [] {
      if Less(b[0], a[0]) {
        MergeIsUnion(a, b[1..]);
        FrontOfMultiset(b);
      } else {
        MergeIsUnion(a[1..], b);
        FrontOfMultiset(a);
      }
    }
  }

  lemma FrontOfMultiset(s: seq<Range>)
    requires s != []
    ensures multiset(s) == multiset{s[0]} + multiset(s[1..]) && forall r :: r in s <==> r == s[0] || r in s[1..]
  {
    assert s == [s[0]] + s[1..];
  }

  /** A sorted list may grow at the front by an element nothing in it is below. */
  lemma SortedCons(x: Range, s: seq<Range>)
    requires Sorted(s) && forall r :: r in s ==> !Less(r, x)
    ensures Sorted([x] + s)
  {
  }

  lemma SortedTail(s: seq<Range>)
    requires Sorted(s) && s != []
    ensures Sorted(s[1..]) && forall r :: r in s ==> !Less(r, s[0])
  {
  }

  lemma {:induction false} MergeIsSorted(a: seq<Range>, b: seq<Range>)
    requires Sorted(a) && Sorted(b)
    ensures Sorted(Merge(a, b))
    decreases |a| + |b|
  {
    if a != [] && b != [] {
      SortedTail(a);
      SortedTail(b);
      if Less(b[0], a[0]) {
        MergeIsSorted(a, b[1..]);
        MergeIsUnion(a, b[1..]);
        SortedCons(b[0], Merge(a, b[1..]));
      } else {
        MergeIsSorted(a[1..], b);
        MergeIsUnion(a[1..], b);
        SortedCons(a[0], Merge(a[1..], b));
      }
    }
  }

  /** std::set_difference, which pairs off equal elements one by one. */
  function Difference(a: seq<Range>, b: seq<Range>): seq<Range> {
    if a == [] || b == [] then a
    else if Less(a[0], b[0]) then [a[0]] + Difference(a[1..], b)
    else if Less(b[0], a[0]) then Difference(a, b[1..])
    else Difference(a[1..], b[1..])
  }

  lemma {:induction false} DifferenceIsSorted(a: seq<Range>, b: seq<Range>)
    requires Sorted(a)
    ensures Sorted(Difference(a, b)) && forall r :: r in Difference(a, b) ==> r in a
    decreases |a| + |b|
  {
    if a != [] && b != [] {
      SortedTail(a);
      if Less(a[0], b[0]) {
        DifferenceIsSorted(a[1..], b);
        SortedCons(a[0], Difference(a[1..], b));
      } else if Less(b[0], a[0]) {
        DifferenceIsSorted(a, b[1..]);
      } else {
        DifferenceIsSorted(a[1..], b[1..]);
      }
    }
  }

  lemma {:induction false} DifferenceIsMultisetDifference(a: seq<Range>, b: seq<Range>)
    requires Sorted(a) && Sorted(b)
    ensures multiset(Difference(a, b)) == multiset(a) - multiset(b)
    decreases |a| + |b|
  {
    if a != [] && b != [] {
      SortedTail(a);
      SortedTail(b);
      FrontOfMultiset(a);
      FrontOfMultiset(b);
      if Less(a[0], b[0]) {
        DifferenceIsMultisetDifference(a[1..], b);
        assert a[0] !in b;
        var rest := Difference(a[1..], b);
        assert Difference(a, b) == [a[0]] + rest;
        hide Difference, Sorted;
        FrontOfMultiset([a[0]] + rest);
        assert ([a[0]] + rest)[1..] == rest;
        KeepFront(multiset(a[1..]), multiset(b), a[0]);
      } else if Less(b[0], a[0]) {
        DifferenceIsMultisetDifference(a, b[1..]);
        assert b[0] !in a;
        assert Difference(a, b) == Difference(a, b[1..]);
        hide Difference, Sorted;
        DropAbsent(multiset(a), multiset(b[1..]), b[0]);
      } else {
        DifferenceIsMultisetDifference(a[1..], b[1..]);
        assert Difference(a, b) == Difference(a[1..], b[1..]) && a[0] == b[0];
        hide Difference, Sorted;
        DropBoth(multiset(a[1..]), multiset(b[1..]), a[0]);
      }
    }
  }

  lemma KeepFront(a: multiset<Range>, b: multiset<Range>, x: Range)
    requires x !in b
    ensures multiset{x} + (a - b) == multiset{x} + a - b
  {
  }

  lemma DropAbsent(a: multiset<Range>, b: multiset<Range>, x: Range)
    requires x !in a
    ensures a - (multiset{x} + b) == a - b
  {
  }

  lemma DropBoth(a: multiset<Range>, b: multiset<Range>, x: Range)
    ensures multiset{x} + a - (multiset{x} + b) == a - b
  {
  }

  /** std::sort, as repeated merging of single elements. */
  function Sort(s: seq<Range>): seq<Range> {
    if s == [] then [] else Merge([s[0]], Sort(s[1..]))
  }

  lemma {:induction false} SortIsSorted(s: seq<Range>)
    ensures Sorted(Sort(s)) && multiset(Sort(s)) == multiset(s)
  {
    if s != [] {
      SortIsSorted(s[1..]);
      MergeIsUnion([s[0]], Sort(s[1..]));
      MergeIsSorted([s[0]], Sort(s[1..]));
      assert s == [s[0]] + s[1..];
    }
  }

  /** Adding ranges and then removing them leaves the list as it was. */
  lemma RemoveUndoesAdd(a: seq<Range>, b: seq<Range>)
    requires Sorted(a) && Sorted(b)
    ensures Difference(Merge(a, b), b) == a
  {
    MergeIsUnion(a, b);
    MergeIsSorted(a, b);
    DifferenceIsSorted(Merge(a, b), b);
    DifferenceIsMultisetDifference(Merge(a, b), b);
    SortedIsUnique(Difference(Merge(a, b), b), a);
  }

  lemma {:induction false} SortedIsUnique(a: seq<Range>, b: seq<Range>)
    requires Sorted(a) && Sorted(b) && multiset(a) == multiset(b)
    ensures a == b
  {
    if a == [] || b == [] {
      assert |a| == |multiset(a)| && |b| == |multiset(b)|;
    } else {
      assert a[0] in multiset(b) && b[0] in multiset(a);
      SortedTail(a);
      SortedTail(b);
      assert a[0] == b[0];
      FrontOfMultiset(a);
      FrontOfMultiset(b);
      assert multiset(a[1..]) == multiset(a) - multiset{a[0]} == multiset(b[1..]);
      SortedIsUnique(a[1..], b[1..]);
    }
  }

  // ----- Membership by binary search -----

  /** std::lower_bound: how many elements at the front are below `x`. */
  function LowerBound(s: seq<Range>, x: Range): (k: nat)
    ensures k <= |s|
  {
    if s == [] || !Less(s[0], x) then 0 else 1 + LowerBound(s[1..], x)
  }

  lemma {:induction false} LowerBoundSplits(s: seq<Range>, x: Range)
    requires Sorted(s)
    ensures var k := LowerBound(s, x);
            (forall i :: 0 <= i < k ==> Less(s[i], x)) && (forall i :: k <= i < |s| ==> !Less(s[i], x))
  {
    if s != [] && Less(s[0], x) {
      LowerBoundSplits(s[1..], x);
      assert forall i :: 1 <= i < |s| ==> s[i] == s[1..][i - 1];
    }
  }

  /** hasUid(): looks only at the range found and at the one before it. */
  predicate HasUid(s: seq<Range>, uid: nat) {
    var k := LowerBound(s, Range(uid, uid));
    (k < |s| && s[k].first == uid) || (k > 0 && s[k - 1].last >= uid)
  }

  /** hasUid() never claims a user no range contains. */
  lemma HasUidIsSound(s: seq<Range>, uid: nat)
    requires Wellformed(s)
    ensures HasUid(s, uid) ==> Covers(s, uid)
  {
    LowerBoundSplits(s, Range(uid, uid));
    var k := LowerBound(s, Range(uid, uid));
    if k < |s| && s[k].first == uid {
      assert s[k] in s && Proper(s[k]);
    } else if k > 0 && s[k - 1].last >= uid {
      assert s[k - 1] in s;
    }
  }

  /** Range `i` hides nothing: no earlier range reaches past its end into a gap before the next range. */
  predicate HidesNothing(s: seq<Range>, i: nat)
    requires i < |s|
  {
    (i + 1 < |s| && s[i + 1].first <= s[i].last + 1) || (forall j :: 0 <= j < i ==> s[j].last <= s[i].last)
  }

  /** hasUid() is plain membership for every user if and only if no range hides the tail of an earlier one. */
  lemma HasUidIsMembership(s: seq<Range>)
    requires Wellformed(s)
    ensures (forall uid: nat :: HasUid(s, uid) <==> Covers(s, uid)) <==>
              (forall i :: 0 <= i < |s| ==> HidesNothing(s, i))
  {
    if forall i :: 0 <= i < |s| ==> HidesNothing(s, i) {
      forall uid: nat ensures HasUid(s, uid) <==> Covers(s, uid) {
        HasUidIsSound(s, uid);
        if Covers(s, uid) { NothingHidden(s, uid); }
      }
    } else {
      var i :| 0 <= i < |s| && !HidesNothing(s, i);
      var j :| 0 <= j < i && s[j].last > s[i].last;
      HiddenTail(s, j, i);
    }
  }

  /** The nested range 12-13 hides uid 15 of 10-20. */
  lemma HasUidMisses()
    ensures var s := [Range(10, 20), Range(12, 13)];
            Wellformed(s) && Covers(s, 15) && !HasUid(s, 15)
  {
    var s := [Range(10, 20), Range(12, 13)];
    assert s[0] in s;
    assert LowerBound(s[2..], Range(15, 15)) == 0;
    assert s[1..][1..] == s[2..];
  }

  lemma NothingHidden(s: seq<Range>, uid: nat)
    requires Wellformed(s) && Covers(s, uid)
    requires forall i :: 0 <= i < |s| ==> HidesNothing(s, i)
    ensures HasUid(s, uid)
  {
    var x := Range(uid, uid);
    LowerBoundSplits(s, x);
    var k := LowerBound(s, x);
    var r :| r in s && r.first <= uid <= r.last;
    var j :| 0 <= j < |s| && s[j] == r;
    if j < k {
      assert HidesNothing(s, k - 1);
      assert Less(s[k - 1], x) && Proper(s[k - 1]);
    } else {
      assert !Less(s[k], x) && !Less(s[j], s[k]);
    }
  }

  lemma HiddenTail(s: seq<Range>, j: nat, i: nat)
    requires Wellformed(s) && j < i < |s| && s[j].last > s[i].last
    requires i + 1 < |s| ==> s[i + 1].first > s[i].last + 1
    ensures Covers(s, s[i].last + 1) && !HasUid(s, s[i].last + 1)
  {
    var uid := s[i].last + 1;
    var x := Range(uid, uid);
    LowerBoundSplits(s, x);
    assert s[j] in s && Proper(s[i]) && !Less(s[i], s[j]);
    assert LowerBound(s, x) == i + 1;
  }

  /** The usual case: range ends that never decrease, as with disjoint ranges. */
  lemma NonDecreasingEndsSuffice(s: seq<Range>, uid: nat)
    requires Wellformed(s)
    requires forall i, j :: 0 <= j < i < |s| ==> s[j].last <= s[i].last
    ensures HasUid(s, uid) <==> Covers(s, uid)
  {
    HasUidIsMembership(s);
  }

  // ----- The class -----

  /** One argument of parseFrom() once its numbers have been read. */
  datatype Argument = Malformed | Single(uid: uint32) | Interval(start: uint32, end: uint32) {
    function AsRange(): Range
      requires !Malformed?
    {
      if Single? then Range(uid, uid) else Range(start, end)
    }

    predicate Accepted() {
      !Malformed? && Proper(AsRange())
    }
  }

  ghost predicate AllAccepted(args: seq<Argument>) {
    forall i :: 0 <= i < |args| ==> args[i].Accepted()
  }

  function Parsed(args: seq<Argument>): (s: seq<Range>)
    requires AllAccepted(args)
    ensures |s| == |args| && forall i :: 0 <= i < |s| ==> s[i] == args[i].AsRange()
  {
    if args == [] then [] else Parsed(args[..|args| - 1]) + [args[|args| - 1].AsRange()]
  }

  class UidRanges {
    var ranges: seq<Range>

    constructor ()
      ensures ranges == []
    {
      ranges := [];
    }

    method LowerBoundOf(x: Range) returns (k: nat)
      requires Sorted(ranges)
      ensures k == LowerBound(ranges, x)
    {
      LowerBoundSplits(ranges, x);
      var count := |ranges|;
      k := 0;
      while count > 0
        invariant k <= LowerBound(ranges, x) <= k + count <= |ranges|
      {
        var step := count / 2;
        if Less(ranges[k + step], x) {
          k, count := k + step + 1, count - step - 1;
        } else {
          count := step;
        }
      }
    }

    method Has(uid: nat) returns (found: bool)
      requires Wellformed(ranges)
      ensures found == HasUid(ranges, uid)
      ensures found ==> Covers(ranges, uid)
    {
      var k := LowerBoundOf(Range(uid, uid));
      found := (k < |ranges| && ranges[k].first == uid) || (k > 0 && ranges[k - 1].last >= uid);
      HasUidIsSound(ranges, uid);
    }

    /** On failure the ranges read so far stay behind, unsorted, as in the source. */
    method ParseFrom(args: seq<Argument>) returns (ok: bool)
      modifies this
      ensures ok <==> AllAccepted(args)
      ensures ok ==> ranges == Sort(Parsed(args)) && Wellformed(ranges)
      ensures ok ==> multiset(ranges) == multiset(Parsed(args))
    {
      ranges := [];
      for i := 0 to |args|
        invariant AllAccepted(args[..i])
        invariant ranges == Parsed(args[..i])
      {
        assert args[..i + 1] == args[..i] + [args[i]];
        if args[i].Malformed? {
          return false;
        }
        var r := args[i].AsRange();
        if r.last < r.first {
          return false;
        }
        if r.first == INVALID_UID || r.last == INVALID_UID {
          return false;
        }
        ranges := ranges + [r];
        assert args[..i + 1][..i] == args[..i];
      }
      assert args[..|args|] == args;
      SortIsSorted(ranges);
      assert forall r :: r in Sort(ranges) ==> r in multiset(ranges);
      ranges := Sort(ranges);
      return true;
    }

    method Add(other: UidRanges)
      requires other != this && Wellformed(ranges) && Wellformed(other.ranges)
      modifies this
      ensures ranges == Merge(old(ranges), other.ranges) && Wellformed(ranges)
      ensures multiset(ranges) == multiset(old(ranges)) + multiset(other.ranges)
    {
      MergeIsUnion(ranges, other.ranges);
      MergeIsSorted(ranges, other.ranges);
      var middle := |ranges|;
      ranges := ranges + other.ranges;
      ranges := Merge(ranges[..middle], ranges[middle..]);
    }

    method Remove(other: UidRanges)
      requires other != this && Wellformed(ranges) && Wellformed(other.ranges)
      modifies this
      ensures ranges == Difference(old(ranges), other.ranges) && Wellformed(ranges)
      ensures multiset(ranges) == multiset(old(ranges)) - multiset(other.ranges)
    {
      DifferenceIsMultisetDifference(ranges, other.ranges);
      DifferenceIsSorted(ranges, other.ranges);
      RemoveInPlace(other);
    }

    /** std::set_difference writing over its own first input: `out` never overtakes `i`. */
    method RemoveInPlace(other: UidRanges)
      requires other != this
      modifies this
      ensures ranges == Difference(old(ranges), other.ranges)
    {
      var b := other.ranges;
      ghost var was := ranges;
      var i, j, out := 0, 0, 0;
      while i < |ranges| && j < |b|
        invariant out <= i <= |ranges| == |was| && j <= |b|
        invariant forall k :: i <= k < |was| ==> ranges[k] == was[k]
        invariant ranges[..out] + Difference(was[i..], b[j..]) == Difference(was, b)
        decreases |was| - i + |b| - j
      {
        DifferenceStep(was, b, i, j);
        if Less(ranges[i], b[j]) {
          AppendFront(ranges[..out], was[i], Difference(was[i + 1..], b[j..]));
          ranges := ranges[out := ranges[i]];
          assert ranges[..out + 1] == ranges[..out] + [was[i]];
          i, out := i + 1, out + 1;
        } else if Less(b[j], ranges[i]) {
          j := j + 1;
        } else {
          i, j := i + 1, j + 1;
        }
      }
      assert Difference(was[i..], b[j..]) == was[i..] == ranges[i..];
      CopyDown(i, out);
    }

    /** The final std::copy of what is left of the first input, and the erase() of the tail. */
    method CopyDown(from: nat, to: nat)
      requires to <= from <= |ranges|
      modifies this
      ensures ranges == old(ranges[..to] + ranges[from..])
    {
      ghost var was := ranges;
      var i, out := from, to;
      while i < |ranges|
        invariant from <= i <= |ranges| == |was| && out == to + i - from
        invariant forall k :: i <= k < |was| ==> ranges[k] == was[k]
        invariant forall k :: 0 <= k < to ==> ranges[k] == was[k]
        invariant forall k :: to <= k < out ==> ranges[k] == was[k + from - to]
      {
        ranges := ranges[out := ranges[i]];
        i, out := i + 1, out + 1;
      }
      ranges := ranges[..out];
    }
  }

  lemma DifferenceStep(a: seq<Range>, b: seq<Range>, i: nat, j: nat)
    requires i < |a| && j < |b|
    ensures Difference(a[i..], b[j..]) ==
            if Less(a[i], b[j]) then [a[i]] + Difference(a[i + 1..], b[j..])
            else if Less(b[j], a[i]) then Difference(a[i..], b[j + 1..])
            else Difference(a[i + 1..], b[j + 1..])
  {
    assert a[i..][1..] == a[i + 1..] && b[j..][1..] == b[j + 1..];
  }

  lemma AppendFront(a: seq<Range>, x: Range, b: seq<Range>)
    ensures a + ([x] + b) == (a + [x]) + b
  {
  }
}
