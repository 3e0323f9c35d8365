/** A circular doubly linked list around a sentinel node (server/List.h). Iterators are nodes; the ghost sequence
    `nodes` is the ring from the sentinel on. */
module Lists {

  class Node<T(0)> {
    var val: T
    var prev: Node<T>
    var next: Node<T>

    constructor Sentinel()
      ensures prev == this && next == this
    {
      prev, next := this, this;
    }

    constructor (val: T, prev: Node<T>, next: Node<T>)
      ensures this.val == val && this.prev == prev && this.next == next
    {
      this.val, this.prev, this.next := val, prev, next;
    }
  }

  /** The k-th node around the ring: the sentinel, the elements, the sentinel again. */
  ghost function At<T(0)>(middle: Node<T>, nodes: seq<Node<T>>, k: nat): Node<T>
    requires k <= |nodes| + 1
  {
    if 1 <= k <= |nodes| then nodes[k - 1] else middle
  }

  /** next leads from position k to the one after it, and prev leads back. */
  ghost predicate Linked<T(0)>(middle: Node<T>, nodes: seq<Node<T>>, k: nat)
    requires k <= |nodes|
    reads middle, nodes
  {
    At(middle, nodes, k).next == At(middle, nodes, k + 1) && At(middle, nodes, k + 1).prev == At(middle, nodes, k)
  }

  ghost predicate Ring<T(0)>(middle: Node<T>, nodes: seq<Node<T>>)
    reads middle, nodes
  {
    forall k :: 0 <= k <= |nodes| ==> Linked(middle, nodes, k)
  }

  ghost predicate NoRepeats<T(0)>(middle: Node<T>, nodes: seq<Node<T>>) {
    middle !in nodes && forall j, k :: 0 <= j < k < |nodes| ==> nodes[j] != nodes[k]
  }

  ghost function Values<T(0)>(nodes: seq<Node<T>>): (s: seq<T>)
    reads nodes
    ensures |s| == |nodes| && forall k :: 0 <= k < |nodes| ==> s[k] == nodes[k].val
  {
    seq(|nodes|, k requires 0 <= k < |nodes| reads nodes => nodes[k].val)
  }

  /** The ring with one more node, and with one less. */
  lemma AtInserted<T(0)>(middle: Node<T>, was: seq<Node<T>>, node: Node<T>, k: nat, j: nat)
    requires k <= |was| && j <= |was| + 2
    ensures At(middle, Splice(was, k, [node]), j) ==
            if j <= k then At(middle, was, j) else if j == k + 1 then node else At(middle, was, j - 1)
  {
  }

  lemma AtErased<T(0)>(middle: Node<T>, was: seq<Node<T>>, k: nat, j: nat)
    requires k < |was| && j <= |was|
    ensures At(middle, was[..k] + was[k + 1..], j) == if j <= k then At(middle, was, j) else At(middle, was, j + 1)
  {
  }

  lemma InsertKeepsDistinct<T(0)>(middle: Node<T>, was: seq<Node<T>>, node: Node<T>, k: nat)
    requires NoRepeats(middle, was) && k <= |was| && node != middle && node !in was
    ensures NoRepeats(middle, Splice(was, k, [node]))
  {
  }

  lemma EraseKeepsDistinct<T(0)>(middle: Node<T>, was: seq<Node<T>>, k: nat)
    requires NoRepeats(middle, was) && k < |was|
    ensures NoRepeats(middle, was[..k] + was[k + 1..])
  {
  }

  /** Positions around the ring determine the node. */
  lemma AtDistinct<T(0)>(middle: Node<T>, nodes: seq<Node<T>>, k: nat)
    requires NoRepeats(middle, nodes) && k <= |nodes|
    ensures forall j :: 0 <= j <= |nodes| && j != k ==> At(middle, nodes, j) != At(middle, nodes, k)
    ensures forall j :: 1 <= j <= |nodes| + 1 && j != k + 1 ==> At(middle, nodes, j) != At(middle, nodes, k + 1)
  {
  }

  lemma RingAfterErase<T(0)>(middle: Node<T>, was: seq<Node<T>>, k: nat)
    requires k < |was| && forall j :: 0 <= j <= |was| && j != k && j != k + 1 ==> Linked(middle, was, j)
    requires At(middle, was, k).next == At(middle, was, k + 2) && At(middle, was, k + 2).prev == At(middle, was, k)
    ensures Ring(middle, was[..k] + was[k + 1..])
  {
    var now := was[..k] + was[k + 1..];
    forall j | 0 <= j <= |now| ensures Linked(middle, now, j) {
      AtErased(middle, was, k, j);
      AtErased(middle, was, k, j + 1);
      assert j == k || Linked(middle, was, if j < k then j else j + 1);
    }
  }

  lemma RingAfterInsert<T(0)>(middle: Node<T>, was: seq<Node<T>>, node: Node<T>, k: nat)
    requires k <= |was| && forall j :: 0 <= j <= |was| && j != k ==> Linked(middle, was, j)
    requires At(middle, was, k).next == node && node.prev == At(middle, was, k)
    requires node.next == At(middle, was, k + 1) && At(middle, was, k + 1).prev == node
    ensures Ring(middle, Splice(was, k, [node]))
  {
    var now := Splice(was, k, [node]);
    forall j | 0 <= j <= |now| ensures Linked(middle, now, j) {
      AtInserted(middle, was, node, k, j);
      AtInserted(middle, was, node, k, j + 1);
      assert k <= j <= k + 1 || Linked(middle, was, if j < k then j else j - 1);
    }
  }

  lemma ValuesSpliced<T(0)>(was: seq<Node<T>>, values: seq<T>, k: nat, node: Node<T>)
    requires k <= |was| && |values| == |was| && forall j :: 0 <= j < |was| ==> was[j].val == values[j]
    ensures Values(Splice(was, k, [node])) == Splice(values, k, [node.val])
  {
  }

  class List<T(0)> {
    const middle: Node<T>
    ghost var nodes: seq<Node<T>>

    ghost predicate Valid()
      reads this, middle, nodes
    {
      NoRepeats(middle, nodes) && Ring(middle, nodes)
    }

    /** What an operation on the list may change. */
    ghost function Objects(): set<object>
      reads this
    {
      {this, middle} + set x | x in nodes
    }

    ghost function Contents(): seq<T>
      reads this, nodes
    {
      Values(nodes)
    }

    constructor ()
      ensures Valid() && fresh(middle) && nodes == []
    {
      var m := new Node<T>.Sentinel();
      middle := m;
      nodes := [];
    }

    /** insert(): before `posn`, the k-th element or the sentinel. */
    method Insert(posn: Node<T>, val: T, ghost k: nat) returns (node: Node<T>)
      requires Valid() && k <= |nodes| && posn == At(middle, nodes, k + 1)
      modifies this, middle, nodes
      ensures Valid() && fresh(node) && nodes == Splice(old(nodes), k, [node])
      ensures Contents() == Splice(old(Contents()), k, [val])
    {
      ghost var was, values := nodes, Contents();
      assert Linked(middle, was, k);
      node := new Node<T>(val, posn.prev, posn);
      InsertKeepsDistinct(middle, was, node, k);
      AtDistinct(middle, was, k);
      posn.prev.next := node;
      posn.prev := node;
      nodes := Splice(was, k, [node]);
      forall j | 0 <= j <= |was| && j != k ensures Linked(middle, was, j) { assert old(Linked(middle, nodes, j)); }
      RingAfterInsert(middle, was, node, k);
      ValuesSpliced(was, values, k, node);
    }

    /** erase(): unlinks the k-th element and returns the node after it. */
    method Erase(posn: Node<T>, ghost k: nat) returns (after: Node<T>)
      requires Valid() && k < |nodes| && posn == nodes[k]
      modifies this, middle, nodes
      ensures Valid() && nodes == old(nodes[..k]) + old(nodes[k + 1..]) && after == At(middle, nodes, k + 1)
      ensures Contents() == old(Contents()[..k]) + old(Contents()[k + 1..])
    {
      ghost var was := nodes;
      assert Linked(middle, was, k) && Linked(middle, was, k + 1);
      var pNext, pPrev := posn.next, posn.prev;
      EraseKeepsDistinct(middle, was, k);
      AtDistinct(middle, was, k);
      AtDistinct(middle, was, k + 1);
      pPrev.next := pNext;
      pNext.prev := pPrev;
      nodes := was[..k] + was[k + 1..];
      forall j | 0 <= j <= |was| && j != k && j != k + 1
        ensures Linked(middle, was, j)
      {
        assert old(Linked(middle, nodes, j));
      }
      RingAfterErase(middle, was, k);
      after := pNext;
      AtErased(middle, was, k, k + 1);
    }

    /** Two lists that share no node. */
    ghost predicate Apart(other: List<T>)
      reads this, other
    {
      && middle != other.middle
      && (forall j :: 0 <= j < |nodes| ==> nodes[j] != other.middle)
      && (forall k :: 0 <= k < |other.nodes| ==> other.nodes[k] != middle)
      && (forall j, k :: 0 <= j < |nodes| && 0 <= k < |other.nodes| ==> nodes[j] != other.nodes[k])
    }

    predicate Empty()
      requires Valid()
      reads this, middle, nodes
      ensures Empty() <==> Contents() == []
    {
      assert Linked(middle, nodes, 0);
      middle.next == middle
    }

    method PushFront(val: T)
      requires Valid()
      modifies this, middle, nodes
      ensures Valid() && Contents() == [val] + old(Contents())
    {
      assert Linked(middle, nodes, 0);
      var _ := Insert(middle.next, val, 0);
    }

    method PushBack(val: T)
      requires Valid()
      modifies this, middle, nodes
      ensures Valid() && Contents() == old(Contents()) + [val]
    {
      assert Linked(middle, nodes, |nodes|);
      var _ := Insert(middle, val, |nodes|);
    }

    /** distance() from the i-th to the j-th position. */
    method Distance(first: Node<T>, last: Node<T>, ghost i: nat, ghost j: nat) returns (count: nat)
      requires Valid() && i <= j <= |nodes| && first == At(middle, nodes, i + 1) && last == At(middle, nodes, j + 1)
      ensures count == j - i
    {
      count := 0;
      var node := first;
      while node != last
        invariant i + count <= j && node == At(middle, nodes, i + count + 1)
        decreases j - i - count
      {
        AtDistinct(middle, nodes, j);
        assert Linked(middle, nodes, i + count + 1);
        node := node.next;
        count := count + 1;
      }
      AtDistinct(middle, nodes, j);
    }

    method Size() returns (count: nat)
      requires Valid()
      ensures count == |Contents()|
    {
      assert Linked(middle, nodes, 0);
      count := Distance(middle.next, middle, 0, |nodes|);
    }

    /** clear(): walks the ring, then links the sentinel to itself. */
    method Clear()
      requires Valid()
      modifies this, middle
      ensures Valid() && nodes == [] && Contents() == []
    {
      assert Linked(middle, nodes, 0);
      var current := middle.next;
      ghost var k := 0;
      while current != middle
        invariant k <= |nodes| && current == At(middle, nodes, k + 1)
        decreases |nodes| - k
      {
        assert k < |nodes|;
        assert Linked(middle, nodes, k + 1);
        current := current.next;
        k := k + 1;
      }
      middle.prev := middle;
      middle.next := middle;
      nodes := [];
    }

    /** erase() of a range: everything from the i-th element up to the j-th position. */
    method EraseRange(first: Node<T>, last: Node<T>, ghost i: nat, ghost j: nat) returns (next: Node<T>)
      requires Valid() && i <= j <= |nodes| && first == At(middle, nodes, i + 1) && last == At(middle, nodes, j + 1)
      modifies Objects()
      ensures Valid() && nodes == Cut(old(nodes), i, j) && Contents() == Cut(old(Contents()), i, j)
      ensures next == last && next == At(middle, nodes, i + 1)
    {
      StartsErasing(i, j, first, last);
      hide Ring, Values, NoRepeats, Valid, At, Erasing, Objects, Cut;
      ghost var was, values, k := nodes, Contents(), i;
      next := first;
      while next != last
        invariant Erasing(was, values, i, j, k, next, last)
        invariant Objects() <= old(Objects())
        decreases j - k
      {
        next := EraseOne(next, last, was, values, i, j, k);
        k := k + 1;
      }
      ErasedAll(was, values, i, j, k, next, last);
    }

    /** Where erase() of a range is when the elements from the i-th up to the k-th are gone. */
    ghost predicate Erasing(was: seq<Node<T>>, values: seq<T>, i: nat, j: nat, k: nat, node: Node<T>, last: Node<T>)
      reads this, middle, nodes
    {
      && Valid() && i <= k <= j <= |was| == |values|
      && nodes == Cut(was, i, k) && Contents() == Cut(values, i, k)
      && node == At(middle, nodes, i + 1) && last == At(middle, nodes, i + 1 + j - k)
    }

    lemma StartsErasing(i: nat, j: nat, first: Node<T>, last: Node<T>)
      requires Valid() && i <= j <= |nodes| && first == At(middle, nodes, i + 1) && last == At(middle, nodes, j + 1)
      ensures |Contents()| == |nodes| && Erasing(nodes, Contents(), i, j, i, first, last)
    {
      ContentsLength(this);
      ErasedSoFar(nodes, i, i);
      ErasedSoFar(Contents(), i, i);
    }

    lemma ErasedAll(was: seq<Node<T>>, values: seq<T>, i: nat, j: nat, k: nat, node: Node<T>, last: Node<T>)
      requires Erasing(was, values, i, j, k, node, last) && node == last
      ensures Valid() && j <= |was| == |values| && nodes == Cut(was, i, j) && Contents() == Cut(values, i, j)
      ensures node == At(middle, nodes, i + 1)
    {
      assert |nodes| == i + |was| - k;
      hide Ring, Values, NoRepeats, At, Cut;
      AtDistinct(middle, nodes, i);
    }

    method EraseOne(node: Node<T>, last: Node<T>, ghost was: seq<Node<T>>, ghost values: seq<T>,
                    ghost i: nat, ghost j: nat, ghost k: nat) returns (next: Node<T>)
      requires Erasing(was, values, i, j, k, node, last) && node != last
      modifies Objects()
      ensures k < j && Erasing(was, values, i, j, k + 1, next, last)
      ensures Objects() <= old(Objects())
    {
      hide Ring, Values, NoRepeats;
      EraseStep(was, i, k);
      EraseStep(values, i, k);
      AtErased(middle, nodes, i, i + j - k);
      next := Erase(node, i);
    }

    /** Where insert() of a range is after n elements: at `node` of the source. */
    ghost predicate Inserting(src: List<T>, values: seq<T>, copied: seq<T>, k: nat, i: nat, n: nat, posn: Node<T>,
                              node: Node<T>)
      reads this, middle, nodes, src, src.middle, src.nodes
    {
      && Valid() && src.Valid() && src != this && Apart(src) && src.Contents() == copied
      && k + n <= |nodes| && posn == At(middle, nodes, k + n + 1)
      && i + n <= |src.nodes| && node == At(src.middle, src.nodes, i + n + 1)
      && k <= |values| && i + n <= |copied| && Contents() == Splice(values, k, Slice(copied, i, i + n))
    }

    lemma StartsInserting(posn: Node<T>, src: List<T>, first: Node<T>, k: nat, i: nat)
      requires Valid() && src.Valid() && src != this && Apart(src)
      requires k <= |nodes| && posn == At(middle, nodes, k + 1)
      requires i <= |src.nodes| && first == At(src.middle, src.nodes, i + 1)
      ensures Inserting(src, Contents(), src.Contents(), k, i, 0, posn, first)
    {
      ContentsLength(this);
      ContentsLength(src);
    }

    /** The position in the source is the node's. */
    lemma Reached(src: List<T>, values: seq<T>, copied: seq<T>, k: nat, i: nat, n: nat, posn: Node<T>, node: Node<T>,
                  j: nat)
      requires Inserting(src, values, copied, k, i, n, posn, node) && i + n <= j <= |src.nodes|
      ensures node == At(src.middle, src.nodes, j + 1) <==> i + n == j
    {
      hide Ring, Values, Splice, Slice, Apart;
      AtDistinct(src.middle, src.nodes, j);
    }

    lemma InsertedAll(src: List<T>, values: seq<T>, copied: seq<T>, k: nat, i: nat, n: nat, posn: Node<T>,
                      node: Node<T>, j: nat)
      requires Inserting(src, values, copied, k, i, n, posn, node) && i + n <= j <= |src.nodes|
      requires node == At(src.middle, src.nodes, j + 1)
      ensures Valid() && src.Valid() && src.Contents() == copied && Contents() == Splice(values, k, Slice(copied, i, j))
    {
      hide Ring, Values, NoRepeats, Apart, Splice, Slice;
      Reached(src, values, copied, k, i, n, posn, node, j);
    }

    /** insert() of a range: copies the i-th to the j-th element of `src` before `posn`. */
    method InsertRange(posn: Node<T>, src: List<T>, first: Node<T>, last: Node<T>, ghost k: nat, ghost i: nat,
                       ghost j: nat)
      requires Valid() && src.Valid() && src != this && Apart(src)
      requires k <= |nodes| && posn == At(middle, nodes, k + 1)
      requires i <= j <= |src.nodes| && first == At(src.middle, src.nodes, i + 1)
               && last == At(src.middle, src.nodes, j + 1)
      modifies Objects()
      ensures Valid() && Contents() == Splice(old(Contents()), k, Slice(src.Contents(), i, j))
      ensures src.Valid() && src.nodes == old(src.nodes) && src.Contents() == old(src.Contents())
      ensures fresh(Objects() - old(Objects()))
    {
      StartsInserting(posn, src, first, k, i);
      hide Ring, Contents, NoRepeats, Apart, Valid, At, Inserting, Splice, Slice, Objects;
      var node := first;
      ghost var n := 0;
      ghost var values, copied, others := Contents(), src.Contents(), src.nodes;
      while node != last
        invariant src.nodes == others && i + n <= j
        invariant Inserting(src, values, copied, k, i, n, posn, node)
        invariant fresh(Objects() - old(Objects()))
        decreases j - i - n
      {
        Reached(src, values, copied, k, i, n, posn, node, j);
        node := InsertOne(posn, src, node, values, copied, k, i, n);
        n := n + 1;
      }
      InsertedAll(src, values, copied, k, i, n, posn, node, j);
    }

    lemma InsertsNext(src: List<T>, values: seq<T>, copied: seq<T>, k: nat, i: nat, n: nat, posn: Node<T>,
                      next: Node<T>,
                      was: seq<T>)
      requires Valid() && src.Valid() && src != this && Apart(src) && src.Contents() == copied
      requires k + n < |nodes| && posn == At(middle, nodes, k + n + 2)
      requires i + n < |src.nodes| == |copied| && next == At(src.middle, src.nodes, i + n + 2) && k <= |values|
      requires was == Splice(values, k, Slice(copied, i, i + n)) && Contents() == Splice(was, k + n, [copied[i + n]])
      ensures Inserting(src, values, copied, k, i, n + 1, posn, next)
    {
      hide Ring, Values, NoRepeats, Apart, Splice, Slice;
      SpliceStep(values, copied, k, i, n);
    }

    /** One step of the copy: returns the next node of `src`. */
    method InsertOne(posn: Node<T>, src: List<T>, node: Node<T>, ghost values: seq<T>, ghost copied: seq<T>,
                     ghost k: nat, ghost i: nat, ghost n: nat) returns (next: Node<T>)
      requires Inserting(src, values, copied, k, i, n, posn, node) && i + n < |src.nodes|
      modifies Objects()
      ensures Inserting(src, values, copied, k, i, n + 1, posn, next) && src.nodes == old(src.nodes)
      ensures fresh(Objects() - old(Objects()))
    {
      ContentsLength(src);
      hide Ring, Values, NoRepeats, Apart, Valid, At, Splice, Slice, Objects;
      ghost var was := Contents();
      next := CopyOne(posn, src, node, k + n, i + n);
      InsertsNext(src, values, copied, k, i, n, posn, next, was);
    }

    method CopyOne(posn: Node<T>, src: List<T>, node: Node<T>, ghost k: nat, ghost i: nat) returns (next: Node<T>)
      requires Valid() && src.Valid() && src != this && Apart(src)
      requires k <= |nodes| && posn == At(middle, nodes, k + 1) && i < |src.nodes|
               && node == At(src.middle, src.nodes, i + 1)
      modifies Objects()
      ensures Valid() && |nodes| == old(|nodes|) + 1 && posn == At(middle, nodes, k + 2)
      ensures |src.Contents()| == |src.nodes| && |old(Contents())| == old(|nodes|)
      ensures Contents() == Splice(old(Contents()), k, [old(src.Contents())[i]])
      ensures src.Valid() && src.nodes == old(src.nodes) && src.Contents() == old(src.Contents()) && Apart(src)
      ensures fresh(Objects() - old(Objects())) && next == At(src.middle, src.nodes, i + 2)
    {
      hide Ring, Values, Splice;
      NextOf(src, i + 1);
      ContentsLength(this);
      ContentsLength(src);
      ghost var was := nodes;
      ghost var added := Insert(posn, node.val, k);
      AtInserted(middle, was, added, k, k + 2);
      SpliceMember(was, k, added);
      next := node.next;
    }

    /** The copy constructor. */
    constructor CopyOf(src: List<T>)
      requires src.Valid()
      ensures Valid() && Contents() == old(src.Contents()) && fresh(middle)
      ensures src.Valid() && src.nodes == old(src.nodes) && src.Contents() == old(src.Contents())
    {
      var m := new Node<T>.Sentinel();
      middle := m;
      nodes := [];
      new;
      assert Linked(src.middle, src.nodes, 0);
      ContentsLength(src);
      InsertRange(middle, src, src.middle.next, src.middle, 0, 0, |src.nodes|);
    }

    /** operator=: overwrites the elements both lists have, then erases the surplus or copies the rest. */
    method Assign(right: List<T>)
      requires Valid() && right.Valid() && (right == this || Apart(right))
      modifies this, middle, nodes
      ensures Valid() && Contents() == old(right.Contents())
      ensures right.Valid() && right.nodes == old(right.nodes) && right.Contents() == old(right.Contents())
    {
      if this == right {
        return;
      }
      hide Ring, Values, NoRepeats, Apart, Cut, Splice, Slice, Overwritten;
      ghost var values, copied := Contents(), right.Contents();
      var dst, src, n := Overwrite(right);
      ContentsLength(this);
      ContentsLength(right);
      if src == right.middle {
        AtEnd(right, n);
        SurplusCut(Contents(), copied, values, n);
        ApartSets(right);
        label Overwritten:
        dst := EraseRange(dst, middle, n, |nodes|);
        assert unchanged@Overwritten(right.Objects());
      } else {
        AtEnd(this, n);
        RestSpliced(Contents(), copied, values, n);
        InsertRange(middle, right, src, right.middle, |nodes|, n, |right.nodes|);
      }
    }

    lemma ApartSets(other: List<T>)
      requires Apart(other) && other != this
      ensures forall o: object :: o in other.Objects() ==> o !in Objects()
    {
    }

    /** Where the first loop of operator= is after n elements. */
    ghost predicate Copying(right: List<T>, copied: seq<T>, values: seq<T>, n: nat, dst: Node<T>, src: Node<T>)
      reads this, middle, nodes, right, right.middle, right.nodes
    {
      && Valid() && right.Valid() && right != this && Apart(right) && n <= |nodes| && n <= |right.nodes|
      && dst == At(middle, nodes, n + 1) && src == At(right.middle, right.nodes, n + 1)
      && right.Contents() == copied && Overwritten(Contents(), copied, values, n)
    }

    lemma StartsCopying(right: List<T>)
      requires Valid() && right.Valid() && right != this && Apart(right)
      ensures Copying(right, right.Contents(), Contents(), 0, middle.next, right.middle.next)
    {
      FirstOf(this);
      FirstOf(right);
      NothingOverwritten(right.Contents(), Contents());
    }

    /** The first loop of operator=: the values of the elements both lists have, and where it stopped. */
    method Overwrite(right: List<T>) returns (dst: Node<T>, src: Node<T>, ghost n: nat)
      requires Valid() && right.Valid() && right != this && Apart(right)
      modifies this, middle, nodes
      ensures Copying(right, old(right.Contents()), old(Contents()), n, dst, src)
              && (src == right.middle || dst == middle)
      ensures nodes == old(nodes) && right.nodes == old(right.nodes)
    {
      StartsCopying(right);
      hide Ring, Values, NoRepeats, Apart, At, Overwritten, Copying, Valid;
      dst, src := middle.next, right.middle.next;
      n := 0;
      ghost var values, copied := Contents(), right.Contents();
      while src != right.middle && dst != middle
        invariant nodes == old(nodes) && right.nodes == old(right.nodes) && n <= |nodes|
        invariant Copying(right, copied, values, n, dst, src)
        decreases |nodes| - n
      {
        dst, src := OverwriteOne(right, copied, values, n, dst, src);
        n := n + 1;
      }
    }

    method OverwriteOne(right: List<T>, ghost copied: seq<T>, ghost values: seq<T>, ghost n: nat, dst: Node<T>,
                        src: Node<T>)
      returns (dst': Node<T>, src': Node<T>)
      requires Copying(right, copied, values, n, dst, src) && src != right.middle && dst != middle
      modifies this, middle, nodes
      ensures Copying(right, copied, values, n + 1, dst', src') && n < |nodes|
      ensures nodes == old(nodes) && right.nodes == old(right.nodes)
    {
      IsElement(this, n);
      IsElement(right, n);
      OverwriteStep(Contents(), copied, values, n);
      hide Ring, Values, Overwritten;
      ContentsLength(right);
      NextOf(right, n + 1);
      SetValue(dst, src.val, n);
      NextOf(this, n + 1);
      dst', src' := dst.next, src.next;
    }

    method SetValue(node: Node<T>, val: T, ghost k: nat)
      requires Valid() && k < |nodes| && node == nodes[k]
      modifies node
      ensures Valid() && |old(Contents())| == |nodes| && Contents() == old(Contents())[k := val]
    {
      node.val := val;
      forall j | 0 <= j <= |nodes| ensures Linked(middle, nodes, j) { assert old(Linked(middle, nodes, j)); }
    }
  }

  lemma FirstOf<T(0)>(list: List<T>)
    requires list.Valid()
    ensures list.middle.next == At(list.middle, list.nodes, 1)
  {
    assert Linked(list.middle, list.nodes, 0);
  }

  lemma IsElement<T(0)>(list: List<T>, k: nat)
    requires k <= |list.nodes| && At(list.middle, list.nodes, k + 1) != list.middle
    ensures k < |list.nodes|
  {
  }

  /** Only the position after the last element is the sentinel's. */
  lemma AtEnd<T(0)>(list: List<T>, k: nat)
    requires list.Valid() && k <= |list.nodes| && At(list.middle, list.nodes, k + 1) == list.middle
    ensures k == |list.nodes|
  {
  }

  lemma ContentsLength<T(0)>(list: List<T>)
    ensures |list.Contents()| == |list.nodes|
  {
  }

  lemma NextOf<T(0)>(list: List<T>, k: nat)
    requires list.Valid() && 1 <= k <= |list.nodes|
    ensures At(list.middle, list.nodes, k).next == At(list.middle, list.nodes, k + 1)
    ensures At(list.middle, list.nodes, k).val == list.Contents()[k - 1]
  {
    assert Linked(list.middle, list.nodes, k);
  }

  /** The sequence with `part` put before the k-th element. */
  function Splice<X>(s: seq<X>, k: nat, part: seq<X>): (r: seq<X>) {
    if k <= |s| then s[..k] + part + s[k..] else s
  }

  function Slice<X>(s: seq<X>, i: nat, j: nat): (r: seq<X>) {
    if i <= j <= |s| then s[i..j] else []
  }

  lemma SpliceMember<X>(s: seq<X>, k: nat, x: X)
    requires k <= |s|
    ensures |Splice(s, k, [x])| == |s| + 1
    ensures forall i :: 0 <= i <= |s| ==> Splice(s, k, [x])[i] in s || Splice(s, k, [x])[i] == x
  {
  }

  lemma SpliceStep<X>(values: seq<X>, copied: seq<X>, k: nat, i: nat, n: nat)
    requires k <= |values| && i + n < |copied|
    ensures Splice(Splice(values, k, Slice(copied, i, i + n)), k + n, [copied[i + n]]) ==
            Splice(values, k, Slice(copied, i, i + n + 1))
  {
    var part, next := Slice(copied, i, i + n), Slice(copied, i, i + n + 1);
    assert next == part + [copied[i + n]];
    var s := Splice(values, k, part);
    assert s[..k + n] == values[..k] + part && s[k + n..] == values[k..];
  }

  /** `s` is `values` with its first n elements taken from `copied`. */
  ghost predicate Overwritten<X>(s: seq<X>, copied: seq<X>, values: seq<X>, n: nat) {
    n <= |copied| && n <= |values| == |s| && s == copied[..n] + values[n..]
  }

  lemma SurplusCut<X>(s: seq<X>, copied: seq<X>, values: seq<X>, n: nat)
    requires Overwritten(s, copied, values, n) && n == |copied|
    ensures Cut(s, n, |s|) == copied
  {
  }

  lemma RestSpliced<X>(s: seq<X>, copied: seq<X>, values: seq<X>, n: nat)
    requires Overwritten(s, copied, values, n) && n == |s|
    ensures Splice(s, n, Slice(copied, n, |copied|)) == copied
  {
  }

  lemma NothingOverwritten<X>(copied: seq<X>, values: seq<X>)
    ensures Overwritten(values, copied, values, 0)
  {
  }

  lemma OverwriteStep<X>(s: seq<X>, copied: seq<X>, values: seq<X>, n: nat)
    requires Overwritten(s, copied, values, n) && n < |copied| && n < |values|
    ensures n < |s| && Overwritten(s[n := copied[n]], copied, values, n + 1)
  {
  }

  /** The sequence without its elements from the i-th up to the k-th. */
  function Cut<X>(s: seq<X>, i: nat, k: nat): (r: seq<X>) {
    if i <= k <= |s| then s[..i] + s[k..] else s
  }

  lemma ErasedSoFar<X>(s: seq<X>, i: nat, k: nat)
    requires i == k <= |s|
    ensures Cut(s, i, k) == s
  {
  }

  lemma EraseStep<X>(s: seq<X>, i: nat, k: nat)
    requires i <= k < |s|
    ensures var t := Cut(s, i, k);
            |t| > i && t[i] == s[k] && t[..i] + t[i + 1..] == Cut(s, i, k + 1)
  {
  }
}
