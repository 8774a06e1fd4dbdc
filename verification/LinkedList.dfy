/** The intrusive doubly-linked list. The C functions receive bare node pointers; the ghost
    parameter `s` names the list the pointer belongs to and `i` the position of the node in it. */
module LinkedList {
  import opened Basics

  newtype int32 = x: int | -0x8000_0000 <= x < 0x8000_0000

  /** `node_t`, embedded in a record; `container` is what LIST_CONTAINER computes from its address. */
  class Node<T> {
    var prev: Node?<T>
    var next: Node?<T>
    const container: T

    constructor (container: T)
      ensures this.container == container
    {
      this.container := container;
    }
  }

  /** The node at position `j`, or NULL outside the list. */
  function At<T>(s: seq<Node<T>>, j: int): (n: Node?<T>) {
    if 0 <= j < |s| then s[j] else null
  }

  /** A pointer as the set of nodes it may write to. */
  ghost function Target<T>(n: Node?<T>): (r: set<Node<T>>) {
    if n == null then {} else {n}
  }

  /** `prev` of every node in `s` is the node before it, NULL at the front. */
  ghost predicate BackLinked<T>(s: seq<Node<T>>)
    reads s
  {
    && (s != [] ==> s[0].prev == null)
    && (forall i :: 0 < i < |s| ==> s[i].prev == s[i - 1])
  }

  ghost predicate ForwardLinked<T>(s: seq<Node<T>>)
    reads s
  {
    && (s != [] ==> s[|s| - 1].next == null)
    && (forall i :: 0 <= i < |s| - 1 ==> s[i].next == s[i + 1])
  }

  /** `s` lists, from head to tail, a well-formed doubly-linked list. */
  ghost predicate IsList<T>(s: seq<Node<T>>)
    reads s
  {
    BackLinked(s) && ForwardLinked(s)
  }

  ghost predicate Distinct<T>(s: seq<Node<T>>) {
    forall i, j :: 0 <= i < j < |s| ==> s[i] != s[j]
  }

  /** The links alone rule out cycles: walking back from equal nodes would reach the head twice. */
  lemma {:induction false} PositionsDiffer<T>(s: seq<Node<T>>, i: nat, j: nat)
    requires BackLinked(s) && i < j < |s|
    ensures s[i] != s[j]
  {
    assert s[j].prev == s[j - 1];
    if i > 0 {
      assert s[i].prev == s[i - 1];
      PositionsDiffer(s, i - 1, j - 1);
    }
  }

  lemma Acyclic<T>(s: seq<Node<T>>)
    requires BackLinked(s)
    ensures Distinct(s)
  {
    forall i, j | 0 <= i < j < |s| ensures s[i] != s[j] {
      PositionsDiffer(s, i, j);
    }
  }

  /** A node belongs to at most one list, at one position: the head and everything after it is determined. */
  lemma {:induction false} SameNodeSameList<T>(s: seq<Node<T>>, i: nat, t: seq<Node<T>>, j: nat)
    requires IsList(s) && IsList(t) && i < |s| && j < |t| && s[i] == t[j]
    ensures i == j && s == t
  {
    SamePosition(s, i, t, j);
    SameLists(s, t, 0);
  }

  lemma {:induction false} SamePosition<T>(s: seq<Node<T>>, i: nat, t: seq<Node<T>>, j: nat)
    requires BackLinked(s) && BackLinked(t) && i < |s| && j < |t| && s[i] == t[j]
    ensures i == j && s[0] == t[0]
  {
    assert i > 0 ==> s[i].prev == s[i - 1];
    assert j > 0 ==> t[j].prev == t[j - 1];
    if i > 0 && j > 0 {
      SamePosition(s, i - 1, t, j - 1);
    }
  }

  lemma {:induction false} SameLists<T>(s: seq<Node<T>>, t: seq<Node<T>>, k: nat)
    requires ForwardLinked(s) && ForwardLinked(t)
    requires k < |s| && k < |t| && s[..k + 1] == t[..k + 1]
    ensures s == t
    decreases |s| - k
  {
    assert s[k] == s[..k + 1][k] == t[k];
    assert s[k].next == At(s, k + 1) && t[k].next == At(t, k + 1);
    if k + 1 < |s| {
      assert s[..k + 2] == s[..k + 1] + [s[k + 1]] && t[..k + 2] == t[..k + 1] + [t[k + 1]];
      SameLists(s, t, k + 1);
    } else {
      assert s == s[..k + 1] && t == t[..k + 1];
    }
  }

  // ---------- navigation ----------

  /** Walks back to the front; only the `prev` links matter, so a just-detached tail will do. */
  method GetHead<T>(node: Node?<T>, ghost s: seq<Node<T>>, ghost i: nat) returns (head: Node?<T>)
    requires BackLinked(s)
    requires node == At(s, i)
    ensures head == if node == null then null else s[0]
    ensures BackLinked(s) && (old(ForwardLinked(s)) ==> ForwardLinked(s))
  {
    head := node;
    var n := node;
    ghost var k: int := i;
    while n != null
      invariant -1 <= k <= i && n == At(s, k)
      invariant if node == null then n == null && head == null else head == At(s, if k == i then i else k + 1)
      decreases k
    {
      head := n;
      n := n.prev;
      k := k - 1;
    }
  }

  method GetTail<T>(node: Node?<T>, ghost s: seq<Node<T>>, ghost i: nat) returns (tail: Node?<T>)
    requires ForwardLinked(s)
    requires node == At(s, i)
    ensures tail == if node == null then null else s[|s| - 1]
  {
    tail := node;
    var n := node;
    ghost var k: int := i;
    while n != null
      invariant node != null ==> i <= k <= |s|
      invariant n == At(s, k)
      invariant tail == if k == i then node else At(s, k - 1)
      decreases |s| - k
    {
      tail := n;
      n := n.next;
      k := k + 1;
    }
  }

  /** Any member gives access to every other by its signed distance; outside the list the answer is NULL. */
  method GetOffset<T>(node: Node?<T>, offset: int32, ghost s: seq<Node<T>>, ghost i: nat) returns (r: Node?<T>)
    requires IsList(s)
    requires node == At(s, i)
    ensures r == if node == null then null else At(s, i + offset as int)
    ensures IsList(s)
  {
    if offset == 0 {
      return node;
    }
    r := node;
    var left := offset;
    ghost var k: int := i;
    while r != null && left > 0
      invariant r == At(s, k) && k + left as int == i + offset as int
      invariant left == offset || 0 <= left < offset
      invariant k == i || i < k <= |s|
      decreases left
    {
      r := r.next;
      k := k + 1;
      left := left - 1;
    }
    while r != null && left < 0
      invariant r == At(s, k) && k + left as int == i + offset as int
      invariant if offset > 0 then 0 <= left && i <= k && (r == null || left == 0) else offset <= left <= 0
      invariant offset < 0 ==> -1 <= k <= i
      invariant node == null ==> r == null
      decreases -(left as int)
    {
      r := r.prev;
      k := k - 1;
      left := left + 1;
    }
  }

  /** The number of nodes, asked of any of them; `size_t` wraps. */
  method Size<T>(node: Node?<T>, ghost s: seq<Node<T>>, ghost i: nat) returns (count: nat)
    requires IsList(s)
    requires node == At(s, i)
    ensures count == if node == null then 0 else |s| % 0x1_0000_0000_0000_0000
  {
    count := 0;
    var n := GetHead(node, s, i);
    ghost var k := 0;
    while n != null
      invariant node == null ==> n == null && k == 0
      invariant node != null ==> 0 <= k <= |s| && n == At(s, k)
      invariant count == k % SIZE_LIMIT
      decreases |s| - k
    {
      n := n.next;
      assert (k % SIZE_LIMIT + 1) % SIZE_LIMIT == (k + 1) % SIZE_LIMIT;
      count := (count + 1) % SIZE_LIMIT;
      k := k + 1;
    }
  }

  /** Two signed moves compose: through any node of the list they reach what one move of the sum reaches. */
  method OffsetsCompose<T>(node: Node<T>, a: int32, b: int32, ghost s: seq<Node<T>>, ghost i: nat)
    returns (two: Node?<T>, one: Node?<T>)
    requires IsList(s) && i < |s| && node == s[i]
    requires -0x8000_0000 <= a as int + b as int < 0x8000_0000
    ensures 0 <= i + a as int < |s| ==> two == one
    ensures !(0 <= i + a as int < |s|) ==> two == null
  {
    var mid := GetOffset(node, a, s, i);
    two := GetOffset(mid, b, s, if mid == null then |s| else i + a as int);
    one := GetOffset(node, a + b, s, i);
  }

  // ---------- insertion ----------

  function InsertAt<T>(s: seq<T>, j: nat, x: T): (r: seq<T>)
    requires j <= |s|
    ensures |r| == |s| + 1
  {
    s[..j] + [x] + s[j..]
  }

  function RemoveAt<T>(s: seq<T>, j: nat): (r: seq<T>)
    requires j < |s|
    ensures |r| == |s| - 1
  {
    s[..j] + s[j + 1..]
  }

  lemma InsertThenRemove<T>(s: seq<Node<T>>, j: nat, x: Node<T>)
    requires j < |s|
    ensures var t := InsertAt(s, j, x);
      RemoveAt(t, j) == s && t[j] == x && At(t, j - 1) == At(s, j - 1) && t[j + 1] == s[j]
  {}

  lemma RemoveThenInsert<T>(s: seq<Node<T>>, j: nat)
    requires j < |s| && Distinct(s)
    ensures var t := RemoveAt(s, j);
      InsertAt(t, j, s[j]) == s && s[j] !in t && At(t, j - 1) == At(s, j - 1) && At(t, j) == At(s, j + 1)
  {}

  /** `head` must be the true head: its `prev` is overwritten without looking. */
  method InsertAtBeginning<T>(head: Node?<T>, added: Node<T>, ghost s: seq<Node<T>>) returns (r: Node?<T>)
    requires IsList(s) && head == At(s, 0) && added !in s
    modifies added, Target(head)
    ensures IsList([added] + s) && r == added
  {
    Acyclic(s);
    added.prev := null;
    added.next := head;
    if added.next != null {
      added.next.prev := added;
    }
    r := added;
  }

  /** Appends through any member. */
  method InsertAtEnd<T>(member: Node?<T>, added: Node<T>, ghost s: seq<Node<T>>, ghost i: nat) returns (r: Node?<T>)
    requires IsList(s) && member == At(s, i) && added !in s
    requires member == null ==> s == []
    modifies added, Target(At(s, |s| - 1))
    ensures IsList(s + [added]) && r == (s + [added])[0]
  {
    Acyclic(s);
    added.next := null;
    var last := GetTail(member, s, i);
    added.prev := last;
    if added.prev != null {
      added.prev.next := added;
    }
    r := GetHead(added, s + [added], |s|);
  }

  /** The four writes of an insertion in front of `s[j]`, and no others, give the longer list. */
  twostate lemma Spliced<T>(s: seq<Node<T>>, new j: nat, new added: Node<T>)
    requires old(IsList(s)) && Distinct(s) && j < |s|
    requires added.next == s[j] && added.prev == At(s, j - 1)
    requires s[j].prev == added && (j > 0 ==> s[j - 1].next == added)
    requires forall n :: n in s && n != s[j] ==> n.prev == old(n.prev)
    requires forall n :: n in s && (j > 0 ==> n != s[j - 1]) ==> n.next == old(n.next)
    ensures IsList(InsertAt(s, j, added))
  {
    var t := InsertAt(s, j, added);
    forall k | 0 < k < |t| ensures t[k].prev == t[k - 1] {
      assert t[k] == if k < j then s[k] else if k == j then added else s[k - 1];
    }
    forall k | 0 <= k < |t| - 1 ensures t[k].next == t[k + 1] {
      assert t[k] == if k < j then s[k] else if k == j then added else s[k - 1];
    }
  }

  /** The two writes of a removal of `s[j]`, and no others, give the shorter list. */
  twostate lemma Unlinked<T>(s: seq<Node<T>>, new j: nat)
    requires old(IsList(s)) && Distinct(s) && j < |s|
    requires j > 0 ==> s[j - 1].next == At(s, j + 1)
    requires j < |s| - 1 ==> s[j + 1].prev == At(s, j - 1)
    requires forall n :: n in s && (j < |s| - 1 ==> n != s[j + 1]) ==> n.prev == old(n.prev)
    requires forall n :: n in s && (j > 0 ==> n != s[j - 1]) ==> n.next == old(n.next)
    ensures IsList(RemoveAt(s, j))
  {
    var t := RemoveAt(s, j);
    forall k | 0 < k < |t| ensures t[k].prev == t[k - 1] {
      assert t[k] == if k < j then s[k] else s[k + 1];
    }
    forall k | 0 <= k < |t| - 1 ensures t[k].next == t[k + 1] {
      assert t[k] == if k < j then s[k] else s[k + 1];
    }
  }

  /** Splices `added` in front of `node` and finds the head of the longer list. */
  method LinkBefore<T>(node: Node<T>, added: Node<T>, ghost s: seq<Node<T>>, ghost j: nat) returns (r: Node?<T>)
    requires IsList(s) && j < |s| && node == s[j] && added !in s
    modifies node, added, Target(At(s, j - 1))
    ensures IsList(InsertAt(s, j, added)) && r == InsertAt(s, j, added)[0]
  {
    Acyclic(s);
    added.next := node;
    added.prev := node.prev;
    if added.prev != null {
      added.prev.next := added;
    }
    node.prev := added;
    Spliced(s, j, added);
    r := GetHead(added, InsertAt(s, j, added), j);
  }

  /** Inserts in front of the node `offset` away from `base`. A NULL base starts a new list; an offset that
      leaves the list changes nothing and still returns the head. */
  method InsertAtPosition<T>(base: Node?<T>, added: Node<T>, offset: int32, ghost s: seq<Node<T>>, ghost i: nat)
    returns (r: Node?<T>)
    requires IsList(s) && base == At(s, i) && added !in s
    requires base == null ==> s == []
    modifies added, Target(At(s, i + offset as int)), Target(At(s, i + offset as int - 1))
    ensures base == null ==> IsList([added]) && r == added
    ensures base != null && 0 <= i + offset as int < |s| ==>
      var t := InsertAt(s, i + offset as int, added); IsList(t) && r == t[0]
    ensures base != null && !(0 <= i + offset as int < |s|) ==>
      IsList(s) && r == s[0] && unchanged(added) && forall n :: n in s ==> unchanged(n)
  {
    if base == null {
      added.next := null;
      added.prev := null;
      r := added;
    } else {
      var node := GetOffset(base, offset, s, i);
      if node == null {
        r := GetHead(base, s, i);
      } else {
        r := LinkBefore(node, added, s, i + offset as int);
      }
    }
  }

  // ---------- deletion ----------

  /** `head` must be the true head. The removed node keeps its own fields. */
  method DeleteFromBeginning<T>(head: Node?<T>, ghost s: seq<Node<T>>) returns (r: Node?<T>)
    requires IsList(s) && head == At(s, 0)
    modifies Target(At(s, 1))
    ensures r == At(s, 1)
    ensures s != [] ==> IsList(s[1..])
  {
    Acyclic(s);
    r := head;
    if head != null {
      if head.next != null {
        head.next.prev := null;
      }
      r := head.next;
    }
  }

  /** Removes the tail, found from any member; the new head is reached from the detached tail. */
  method DeleteFromEnd<T>(member: Node?<T>, ghost s: seq<Node<T>>, ghost i: nat) returns (r: Node?<T>)
    requires IsList(s) && member == At(s, i)
    modifies Target(At(s, |s| - 2))
    ensures member == null ==> IsList(s) && r == null && forall n :: n in s ==> unchanged(n)
    ensures member != null ==> IsList(s[..|s| - 1]) && r == At(s[..|s| - 1], 0)
  {
    Acyclic(s);
    r := member;
    var tail := GetTail(member, s, i);
    if tail != null {
      if tail.prev != null {
        tail.prev.next := null;
        r := GetHead(tail, s, |s| - 1);
      } else {
        r := null;
      }
    }
  }

  /** Takes `node` out of its list and returns a surviving neighbour, the next one if there is one;
      alone in its list, it stays and `base` is returned. */
  method Unlink<T>(base: Node<T>, node: Node<T>, ghost s: seq<Node<T>>, ghost j: nat) returns (from: Node<T>)
    requires IsList(s) && j < |s| && node == s[j]
    modifies Target(At(s, j - 1)), Target(At(s, j + 1))
    ensures |s| > 1 ==> IsList(RemoveAt(s, j))
    ensures from == if j < |s| - 1 then s[j + 1] else if j > 0 then s[j - 1] else base
    ensures unchanged(node)
  {
    Acyclic(s);
    from := base;
    if node.prev != null {
      node.prev.next := node.next;
      from := node.prev;
    }
    if node.next != null {
      node.next.prev := node.prev;
      from := node.next;
    }
    if |s| > 1 {
      Unlinked(s, j);
    }
  }

  /** Removes the node `offset` away from `base`. The only node of a list is never removed: its list is
      left as it was and the node itself is returned. */
  method DeleteFromPosition<T>(base: Node?<T>, offset: int32, ghost s: seq<Node<T>>, ghost i: nat)
    returns (r: Node?<T>)
    requires IsList(s) && base == At(s, i)
    modifies Target(At(s, i + offset as int - 1)), Target(At(s, i + offset as int + 1))
    ensures base != null && 0 <= i + offset as int < |s| && |s| > 1 ==>
      var t := RemoveAt(s, i + offset as int); IsList(t) && r == t[0] && unchanged(s[i + offset as int])
    ensures base == null || !(0 <= i + offset as int < |s|) || |s| == 1 ==>
      IsList(s) && r == (if base == null then null else s[0]) && forall n :: n in s ==> unchanged(n)
  {
    hide ForwardLinked;
    var node := GetOffset(base, offset, s, i);
    if node == null {
      r := GetHead(base, s, i);
    } else {
      ghost var j := i + offset as int;
      var from := Unlink(base, node, s, j);
      ghost var t := if |s| > 1 then RemoveAt(s, j) else s;
      r := GetHead(from, t, if j < |t| then j else j - 1);
    }
  }

  // ---------- round trips ----------

  /** The links of the listed nodes are determined by the sequence, so two lists of one sequence agree on them. */
  twostate lemma LinksDetermined<T>(s: seq<Node<T>>)
    requires old(IsList(s)) && IsList(s)
    ensures forall n :: n in s ==> n.prev == old(n.prev) && n.next == old(n.next)
  {
    forall n | n in s ensures n.prev == old(n.prev) && n.next == old(n.next) {
      var k :| 0 <= k < |s| && s[k] == n;
      assert k > 0 ==> s[k].prev == s[k - 1] && old(s[k].prev) == s[k - 1];
      assert k < |s| - 1 ==> s[k].next == s[k + 1] && old(s[k].next) == s[k + 1];
    }
  }

  lemma SameList<T>(t: seq<Node<T>>, s: seq<Node<T>>)
    requires IsList(t) && t == s
    ensures IsList(s)
  {}

  /** A successful positional insertion, undone by deleting at the new node. */
  method InsertThenDelete<T>(base: Node<T>, added: Node<T>, offset: int32, ghost s: seq<Node<T>>, ghost i: nat)
    returns (r: Node?<T>)
    requires IsList(s) && base == At(s, i) && added !in s
    requires 0 <= i + offset as int < |s|
    modifies s, added
    ensures IsList(s) && r == s[0]
    ensures forall n :: n in s ==> n.prev == old(n.prev) && n.next == old(n.next)
  {
    hide InsertAt, RemoveAt;
    ghost var j := i + offset as int;
    ghost var t := InsertAt(s, j, added);
    r := InsertAtPosition(base, added, offset, s, i);
    InsertThenRemove(s, j, added);
    r := DeleteFromPosition(added, 0, t, j);
    SameList(RemoveAt(t, j), s);
    LinksDetermined(s);
  }

  /** Any node but the tail, deleted and then put back in front of its old successor. */
  method DeleteThenReinsert<T>(base: Node<T>, offset: int32, ghost s: seq<Node<T>>, ghost i: nat)
    returns (r: Node?<T>)
    requires IsList(s) && base == At(s, i)
    requires 0 <= i + offset as int < |s| - 1
    modifies s
    ensures IsList(s) && r == s[0]
    ensures forall n :: n in s ==> n.prev == old(n.prev) && n.next == old(n.next)
  {
    hide InsertAt, RemoveAt;
    ghost var j := i + offset as int;
    ghost var t := RemoveAt(s, j);
    Acyclic(s);
    RemoveThenInsert(s, j);
    var node := GetOffset(base, offset, s, i);
    r := DeleteFromPosition(base, offset, s, i);
    r := InsertAtPosition(node.next, node, 0, t, j);
    SameList(InsertAt(t, j, s[j]), s);
    LinksDetermined(s);
  }

  /** An append undone by removing the tail; the head search of the removal starts at the detached node. */
  method AppendThenDeleteEnd<T>(member: Node?<T>, added: Node<T>, ghost s: seq<Node<T>>, ghost i: nat)
    returns (r: Node?<T>)
    requires IsList(s) && member == At(s, i) && added !in s
    requires member == null ==> s == []
    modifies s, added
    ensures IsList(s) && r == At(s, 0)
    ensures forall n :: n in s ==> n.prev == old(n.prev) && n.next == old(n.next)
  {
    r := InsertAtEnd(member, added, s, i);
    ghost var t := s + [added];
    assert At(t, |t| - 2) == At(s, |s| - 1) && t[..|t| - 1] == s;
    r := DeleteFromEnd(r, t, 0);
    SameList(t[..|t| - 1], s);
    LinksDetermined(s);
  }

  /** A push undone by a pop at the true head. */
  method PushThenPop<T>(head: Node?<T>, added: Node<T>, ghost s: seq<Node<T>>)
    returns (r: Node?<T>)
    requires IsList(s) && head == At(s, 0) && added !in s
    modifies s, added
    ensures IsList(s) && r == head
    ensures forall n :: n in s ==> n.prev == old(n.prev) && n.next == old(n.next)
  {
    r := InsertAtBeginning(head, added, s);
    ghost var t := [added] + s;
    assert At(t, 1) == At(s, 0) && t[1..] == s;
    r := DeleteFromBeginning(r, t);
    SameList(t[1..], s);
    LinksDetermined(s);
  }
}
