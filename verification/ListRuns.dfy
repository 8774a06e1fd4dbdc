/** Runs of list operations by a client that keeps the returned head, against the same run on a sequence. */
module ListRuns {
  import opened LinkedList

  /** One call. `member` and `base` are any node of the current list, NULL when it is empty. */
  datatype Op<T> =
    | InsertFirst(added: Node<T>)
    | InsertLast(member: Node?<T>, added: Node<T>)
    | InsertNear(base: Node?<T>, offset: int32, added: Node<T>)
    | DeleteFirst
    | DeleteLast(member: Node?<T>)
    | DeleteNear(base: Node?<T>, offset: int32)

  ghost function IndexOf<T>(s: seq<Node<T>>, n: Node<T>): (k: nat)
    requires n in s
    ensures k < |s| && s[k] == n
  {
    var k :| 0 <= k < |s| && s[k] == n;
    k
  }

  ghost predicate Handle<T>(s: seq<Node<T>>, n: Node?<T>) {
    if s == [] then n == null else n != null && n in s
  }

  /** Where a positional call lands, counted from the front; -1 stands for "outside". */
  ghost function Landing<T>(s: seq<Node<T>>, base: Node?<T>, offset: int32): (j: int)
    requires Handle(s, base)
    ensures -1 <= j < |s|
  {
    if base == null then -1
    else
      var j := IndexOf(s, base) + offset as int;
      if 0 <= j < |s| then j else -1
  }

  ghost function Incoming<T>(op: Op<T>): (r: set<Node<T>>) {
    if op.InsertFirst? || op.InsertLast? || op.InsertNear? then {op.added} else {}
  }

  /** What the library asks of a caller: pointers into the list, and new nodes not yet in it. */
  ghost predicate Legal<T>(s: seq<Node<T>>, op: Op<T>) {
    && (forall n :: n in Incoming(op) ==> n !in s)
    && match op
       case InsertFirst(_) => true
       case InsertLast(m, _) => Handle(s, m)
       case InsertNear(b, _, _) => Handle(s, b)
       case DeleteFirst => true
       case DeleteLast(m) => Handle(s, m)
       case DeleteNear(b, _) => Handle(s, b)
  }

  /** The nodes an operation puts in, in a list of at most one. */
  ghost function Entering<T>(s: seq<Node<T>>, op: Op<T>): (r: seq<Node<T>>)
    requires Legal(s, op)
  {
    match op
    case InsertFirst(x) => [x]
    case InsertLast(_, x) => [x]
    case InsertNear(b, k, x) => if b == null || Landing(s, b, k) >= 0 then [x] else []
    case _ => []
  }

  /** A positional deletion happens inside the list, and never to its only node. */
  ghost predicate Deletes<T>(s: seq<Node<T>>, base: Node?<T>, offset: int32)
    requires Handle(s, base)
  {
    Landing(s, base, offset) >= 0 && |s| > 1
  }

  /** The nodes an operation takes out. */
  ghost function Leaving<T>(s: seq<Node<T>>, op: Op<T>): (r: seq<Node<T>>)
    requires Legal(s, op)
  {
    match op
    case DeleteFirst => if s == [] then [] else [s[0]]
    case DeleteLast(_) => if s == [] then [] else [s[|s| - 1]]
    case DeleteNear(b, k) => if Deletes(s, b, k) then [s[Landing(s, b, k)]] else []
    case _ => []
  }

  /** The operation on the sequence. */
  ghost function Apply<T>(s: seq<Node<T>>, op: Op<T>): (r: seq<Node<T>>)
    requires Legal(s, op)
  {
    match op
    case InsertFirst(x) => [x] + s
    case InsertLast(_, x) => s + [x]
    case InsertNear(b, k, x) =>
      if b == null then [x]
      else if Landing(s, b, k) >= 0 then InsertAt(s, Landing(s, b, k), x) else s
    case DeleteFirst => if s == [] then [] else s[1..]
    case DeleteLast(_) => if s == [] then [] else s[..|s| - 1]
    case DeleteNear(b, k) => if Deletes(s, b, k) then RemoveAt(s, Landing(s, b, k)) else s
  }

  ghost predicate LegalRun<T>(s: seq<Node<T>>, ops: seq<Op<T>>)
    decreases |ops|
  {
    ops == [] || (Legal(s, ops[0]) && LegalRun(Apply(s, ops[0]), ops[1..]))
  }

  ghost function ApplyAll<T>(s: seq<Node<T>>, ops: seq<Op<T>>): (r: seq<Node<T>>)
    requires LegalRun(s, ops)
    decreases |ops|
  {
    if ops == [] then s else ApplyAll(Apply(s, ops[0]), ops[1..])
  }

  ghost function AllEntering<T>(s: seq<Node<T>>, ops: seq<Op<T>>): (r: seq<Node<T>>)
    requires LegalRun(s, ops)
    decreases |ops|
  {
    if ops == [] then [] else Entering(s, ops[0]) + AllEntering(Apply(s, ops[0]), ops[1..])
  }

  ghost function AllLeaving<T>(s: seq<Node<T>>, ops: seq<Op<T>>): (r: seq<Node<T>>)
    requires LegalRun(s, ops)
    decreases |ops|
  {
    if ops == [] then [] else Leaving(s, ops[0]) + AllLeaving(Apply(s, ops[0]), ops[1..])
  }

  ghost function AllIncoming<T>(ops: seq<Op<T>>): (r: set<Node<T>>) {
    set k, n | 0 <= k < |ops| && n in Incoming(ops[k]) :: n
  }

  lemma InsertAtBalances<T>(s: seq<T>, j: nat, x: T)
    requires j <= |s|
    ensures multiset(InsertAt(s, j, x)) == multiset(s) + multiset{x}
  {
    assert s == s[..j] + s[j..];
  }

  lemma RemoveAtBalances<T>(s: seq<T>, j: nat)
    requires j < |s|
    ensures multiset(RemoveAt(s, j)) + multiset{s[j]} == multiset(s)
  {
    assert s == s[..j] + [s[j]] + s[j + 1..];
  }

  lemma ApplyBalances<T>(s: seq<Node<T>>, op: Op<T>)
    requires Legal(s, op)
    ensures multiset(Apply(s, op)) + multiset(Leaving(s, op)) == multiset(s) + multiset(Entering(s, op))
  {
    match op
    case InsertNear(b, k, x) =>
      if b != null && Landing(s, b, k) >= 0 {
        InsertAtBalances(s, Landing(s, b, k), x);
      }
    case DeleteFirst =>
      if s != [] {
        RemoveAtBalances(s, 0);
        assert RemoveAt(s, 0) == s[1..];
      }
    case DeleteLast(_) =>
      if s != [] {
        RemoveAtBalances(s, |s| - 1);
        assert RemoveAt(s, |s| - 1) == s[..|s| - 1];
      }
    case DeleteNear(b, k) =>
      if Deletes(s, b, k) {
        RemoveAtBalances(s, Landing(s, b, k));
      }
    case _ =>
  }

  lemma Balance<T>(s: multiset<T>, e: multiset<T>, l: multiset<T>, t: multiset<T>,
                   es: multiset<T>, ls: multiset<T>, u: multiset<T>)
    requires t + l == s + e && u + ls == t + es
    ensures u + (l + ls) == s + (e + es)
  {
    assert u + (l + ls) == (u + ls) + l == (t + es) + l == (t + l) + es == (s + e) + es;
  }

  /** Over any run, what is in the list at the end is what went in less what came out, node for node. */
  lemma {:induction false} RunBalances<T>(s: seq<Node<T>>, ops: seq<Op<T>>)
    requires LegalRun(s, ops)
    ensures multiset(ApplyAll(s, ops)) + multiset(AllLeaving(s, ops)) == multiset(s) + multiset(AllEntering(s, ops))
    decreases |ops|
  {
    if ops != [] {
      var t, rest := Apply(s, ops[0]), ops[1..];
      ApplyBalances(s, ops[0]);
      RunBalances(t, rest);
      Balance(multiset(s), multiset(Entering(s, ops[0])), multiset(Leaving(s, ops[0])), multiset(t),
              multiset(AllEntering(t, rest)), multiset(AllLeaving(t, rest)), multiset(ApplyAll(t, rest)));
    }
  }

  lemma ApplyMembers<T>(s: seq<Node<T>>, op: Op<T>)
    requires Legal(s, op)
    ensures forall n :: n in Apply(s, op) ==> n in s || n in Incoming(op)
  {
    ApplyBalances(s, op);
    forall n | n in Apply(s, op) ensures n in s || n in Incoming(op) {
      assert n in multiset(Apply(s, op)) + multiset(Leaving(s, op));
    }
  }

  lemma ApplyDistinct<T>(s: seq<Node<T>>, op: Op<T>)
    requires Legal(s, op) && Distinct(s)
    ensures Distinct(Apply(s, op))
  {
    match op
    case InsertFirst(x) =>
      InsertAtDistinct(s, 0, x);
      assert InsertAt(s, 0, x) == [x] + s;
    case InsertLast(_, x) =>
      InsertAtDistinct(s, |s|, x);
      assert InsertAt(s, |s|, x) == s + [x];
    case InsertNear(b, k, x) =>
      if b != null && Landing(s, b, k) >= 0 {
        InsertAtDistinct(s, Landing(s, b, k), x);
      }
    case DeleteNear(b, k) =>
      if Deletes(s, b, k) {
        RemoveAtDistinct(s, Landing(s, b, k));
      }
    case _ =>
  }

  lemma RemoveAtDistinct<T>(s: seq<Node<T>>, j: nat)
    requires Distinct(s) && j < |s|
    ensures Distinct(RemoveAt(s, j))
  {
    var t := RemoveAt(s, j);
    forall a, b | 0 <= a < b < |t| ensures t[a] != t[b] {
      assert t[a] == s[if a < j then a else a + 1] && t[b] == s[if b < j then b else b + 1];
    }
  }

  lemma InsertAtDistinct<T>(s: seq<Node<T>>, j: nat, x: Node<T>)
    requires Distinct(s) && x !in s && j <= |s|
    ensures Distinct(InsertAt(s, j, x))
  {
    var t := InsertAt(s, j, x);
    forall a, b | 0 <= a < b < |t| ensures t[a] != t[b] {
      assert t[a] == if a < j then s[a] else if a == j then x else s[a - 1];
      assert t[b] == if b < j then s[b] else if b == j then x else s[b - 1];
    }
  }

  /** No run ever lists a node twice. */
  lemma {:induction false} RunDistinct<T>(s: seq<Node<T>>, ops: seq<Op<T>>)
    requires LegalRun(s, ops) && Distinct(s)
    ensures Distinct(ApplyAll(s, ops))
    decreases |ops|
  {
    if ops != [] {
      ApplyDistinct(s, ops[0]);
      RunDistinct(Apply(s, ops[0]), ops[1..]);
    }
  }

  lemma {:induction false} RunSnoc<T>(s: seq<Node<T>>, ops: seq<Op<T>>, op: Op<T>)
    requires LegalRun(s, ops + [op])
    ensures LegalRun(s, ops) && Legal(ApplyAll(s, ops), op)
    ensures ApplyAll(s, ops + [op]) == Apply(ApplyAll(s, ops), op)
    decreases |ops|
  {
    if ops == [] {
      assert (ops + [op])[1..] == [];
    } else {
      assert (ops + [op])[1..] == ops[1..] + [op];
      RunSnoc(Apply(s, ops[0]), ops[1..], op);
    }
  }

  lemma {:induction false} RunPrefix<T>(s: seq<Node<T>>, ops: seq<Op<T>>, k: nat)
    requires LegalRun(s, ops) && k <= |ops|
    ensures LegalRun(s, ops[..k])
    decreases |ops| - k
  {
    if k < |ops| {
      RunPrefix(s, ops, k + 1);
      assert ops[..k + 1] == ops[..k] + [ops[k]];
      RunSnoc(s, ops[..k], ops[k]);
    } else {
      assert ops[..k] == ops;
    }
  }

  /** The call for an operation. */
  method Perform<T>(op: Op<T>, head: Node?<T>, ghost s: seq<Node<T>>) returns (r: Node?<T>)
    requires IsList(s) && head == At(s, 0) && Legal(s, op)
    modifies s, Incoming(op)
    ensures IsList(Apply(s, op)) && r == At(Apply(s, op), 0)
  {
    match op
    case InsertFirst(x) =>
      r := InsertAtBeginning(head, x, s);
    case InsertLast(m, x) =>
      r := InsertAtEnd(m, x, s, if m == null then 0 else IndexOf(s, m));
    case InsertNear(b, k, x) =>
      r := InsertAtPosition(b, x, k, s, if b == null then 0 else IndexOf(s, b));
    case DeleteFirst =>
      r := DeleteFromBeginning(head, s);
    case DeleteLast(m) =>
      r := DeleteFromEnd(m, s, if m == null then 0 else IndexOf(s, m));
    case DeleteNear(b, k) =>
      r := DeleteFromPosition(b, k, s, if b == null then 0 else IndexOf(s, b));
  }

  /** One call on the heap does to the list what the operation does to the sequence, and writes nowhere else;
      operation by operation, with `k` the position of the base node. */
  method Execute<T>(op: Op<T>, head: Node?<T>, ghost s: seq<Node<T>>) returns (r: Node?<T>)
    requires IsList(s) && head == At(s, 0) && Legal(s, op)
    modifies s, Incoming(op)
    ensures IsList(Apply(s, op)) && r == At(Apply(s, op), 0)
    ensures op.InsertFirst? ==> IsList([op.added] + s) && r == op.added
    ensures op.InsertLast? ==> IsList(s + [op.added]) && r == if s == [] then op.added else s[0]
    ensures op.InsertNear? && s == [] ==> IsList([op.added]) && r == op.added
    ensures op.InsertNear? ==> forall k :: 0 <= k < |s| && s[k] == op.base ==>
      var j := k + op.offset as int;
      if 0 <= j < |s| then IsList(s[..j] + [op.added] + s[j..]) && r == (if j == 0 then op.added else s[0])
      else IsList(s) && r == s[0]
    ensures op.DeleteFirst? ==> if s == [] then r == null else IsList(s[1..]) && r == At(s, 1)
    ensures op.DeleteLast? ==> if |s| <= 1 then r == null else IsList(s[..|s| - 1]) && r == s[0]
    ensures op.DeleteNear? && s == [] ==> r == null
    ensures op.DeleteNear? ==> forall k :: 0 <= k < |s| && s[k] == op.base ==>
      var j := k + op.offset as int;
      if 0 <= j < |s| && |s| > 1 then IsList(s[..j] + s[j + 1..]) && r == (if j == 0 then s[1] else s[0])
      else IsList(s) && r == s[0]
  {
    Acyclic(s);
    hide Apply, IsList, Legal;
    r := Perform(op, head, s);
    if op.InsertNear? {
      InsertedNear(s, op, r);
    } else if op.DeleteNear? {
      DeletedNear(s, op, r);
    } else {
      ApplyMeans(s, op);
    }
  }

  lemma InsertedNear<T>(s: seq<Node<T>>, op: Op<T>, r: Node?<T>)
    requires Distinct(s) && Legal(s, op) && op.InsertNear? && IsList(Apply(s, op)) && r == At(Apply(s, op), 0)
    ensures s == [] ==> IsList([op.added]) && r == op.added
    ensures forall k :: 0 <= k < |s| && s[k] == op.base ==>
      var j := k + op.offset as int;
      if 0 <= j < |s| then IsList(s[..j] + [op.added] + s[j..]) && r == (if j == 0 then op.added else s[0])
      else IsList(s) && r == s[0]
  {
    ApplyMeans(s, op);
    hide Apply, IsList, Legal, Distinct;
    var t := Apply(s, op);
    forall k | 0 <= k < |s| && s[k] == op.base
      ensures var j := k + op.offset as int;
        if 0 <= j < |s| then IsList(s[..j] + [op.added] + s[j..]) && r == (if j == 0 then op.added else s[0])
        else IsList(s) && r == s[0]
    {
      var j := k + op.offset as int;
      if 0 <= j < |s| {
        assert t == s[..j] + [op.added] + s[j..];
      }
    }
  }

  lemma DeletedNear<T>(s: seq<Node<T>>, op: Op<T>, r: Node?<T>)
    requires Distinct(s) && Legal(s, op) && op.DeleteNear? && IsList(Apply(s, op)) && r == At(Apply(s, op), 0)
    ensures s == [] ==> r == null
    ensures forall k :: 0 <= k < |s| && s[k] == op.base ==>
      var j := k + op.offset as int;
      if 0 <= j < |s| && |s| > 1 then IsList(s[..j] + s[j + 1..]) && r == (if j == 0 then s[1] else s[0])
      else IsList(s) && r == s[0]
  {
    ApplyMeans(s, op);
    hide Apply, IsList, Legal, Distinct;
    var t := Apply(s, op);
    forall k | 0 <= k < |s| && s[k] == op.base
      ensures var j := k + op.offset as int;
        if 0 <= j < |s| && |s| > 1 then IsList(s[..j] + s[j + 1..]) && r == (if j == 0 then s[1] else s[0])
        else IsList(s) && r == s[0]
    {
      var j := k + op.offset as int;
      if 0 <= j < |s| && |s| > 1 {
        assert t == s[..j] + s[j + 1..];
      }
    }
  }

  /** The six operations on a sequence, written out. */
  lemma ApplyMeans<T>(s: seq<Node<T>>, op: Op<T>)
    requires Distinct(s) && Legal(s, op)
    ensures op.InsertFirst? ==> Apply(s, op) == [op.added] + s
    ensures op.InsertLast? ==> Apply(s, op) == s + [op.added]
    ensures op.InsertNear? && s == [] ==> Apply(s, op) == [op.added]
    ensures op.InsertNear? ==> forall k :: 0 <= k < |s| && s[k] == op.base ==>
      var j := k + op.offset as int;
      Apply(s, op) == if 0 <= j < |s| then s[..j] + [op.added] + s[j..] else s
    ensures op.DeleteFirst? ==> Apply(s, op) == if s == [] then [] else s[1..]
    ensures op.DeleteLast? ==> Apply(s, op) == if s == [] then [] else s[..|s| - 1]
    ensures op.DeleteNear? && s == [] ==> Apply(s, op) == []
    ensures op.DeleteNear? ==> forall k :: 0 <= k < |s| && s[k] == op.base ==>
      var j := k + op.offset as int;
      Apply(s, op) == if 0 <= j < |s| && |s| > 1 then s[..j] + s[j + 1..] else s
  {
    if (op.InsertNear? || op.DeleteNear?) && op.base != null {
      var k := IndexOf(s, op.base);
      assert forall i :: 0 <= i < |s| && s[i] == op.base ==> i == k;
    }
  }

  // ---------- what runs of one kind do ----------

  /** Insertions at the beginning alone turn the order round. */
  lemma {:induction false} PushesReverse<T>(s: seq<Node<T>>, ops: seq<Op<T>>)
    requires LegalRun(s, ops) && forall k :: 0 <= k < |ops| ==> ops[k].InsertFirst?
    ensures var t := ApplyAll(s, ops);
      && |t| == |ops| + |s| && t[|ops|..] == s
      && forall k :: 0 <= k < |ops| ==> t[k] == ops[|ops| - 1 - k].added
    decreases |ops|
  {
    if ops != [] {
      PushesReverse([ops[0].added] + s, ops[1..]);
      var t := ApplyAll(s, ops);
      assert t[|ops| - 1..] == [ops[0].added] + s;
      assert t[|ops|..] == t[|ops| - 1..][1..];
      assert t[|ops| - 1] == t[|ops| - 1..][0];
    }
  }

  /** Any mixture of insertions at the end and deletions at the beginning is first in, first out. */
  lemma {:induction false} FirstInFirstOut<T>(s: seq<Node<T>>, ops: seq<Op<T>>)
    requires LegalRun(s, ops) && forall k :: 0 <= k < |ops| ==> ops[k].InsertLast? || ops[k].DeleteFirst?
    ensures AllLeaving(s, ops) + ApplyAll(s, ops) == s + Appended(ops)
    decreases |ops|
  {
    if ops != [] {
      var t, rest := Apply(s, ops[0]), ops[1..];
      FirstInFirstOut(t, rest);
      var out, leaving, left := Leaving(s, ops[0]), AllLeaving(t, rest), ApplyAll(t, rest);
      assert (out + leaving) + left == out + (leaving + left) == out + (t + Appended(rest));
      if ops[0].InsertLast? {
        assert out == [] && [] + (t + Appended(rest)) == s + ([ops[0].added] + Appended(rest));
      } else {
        assert out + t == s;
        assert out + (t + Appended(rest)) == s + ([] + Appended(rest));
      }
    }
  }

  /** The nodes that a run appends, in the order given. */
  function Appended<T>(ops: seq<Op<T>>): (r: seq<Node<T>>) {
    if ops == [] then [] else (if ops[0].InsertLast? then [ops[0].added] else []) + Appended(ops[1..])
  }

  /** Insertions at the end alone keep the order. */
  lemma {:induction false} AppendsKeepOrder<T>(s: seq<Node<T>>, ops: seq<Op<T>>)
    requires LegalRun(s, ops) && forall k :: 0 <= k < |ops| ==> ops[k].InsertLast?
    ensures var t := ApplyAll(s, ops);
      && |t| == |s| + |ops| && t[..|s|] == s
      && forall k :: 0 <= k < |ops| ==> t[|s| + k] == ops[k].added
    decreases |ops|
  {
    if ops != [] {
      var u, rest := s + [ops[0].added], ops[1..];
      AppendsKeepOrder(u, rest);
      var t := ApplyAll(s, ops);
      assert t[..|u|] == u;
      assert t[..|s|] == t[..|u|][..|s|];
      assert t[|s|] == t[..|u|][|s|];
      forall k | 0 <= k < |ops| ensures t[|s| + k] == ops[k].added {
        if k > 0 {
          assert t[|u| + (k - 1)] == rest[k - 1].added;
        }
      }
    }
  }

  /** Every legal run from NULL ends in the well-formed list that the run on sequences predicts; only
      nodes handed to the run are written. */
  method Run<T>(ops: seq<Op<T>>) returns (head: Node?<T>)
    requires LegalRun([], ops)
    modifies AllIncoming(ops)
    ensures IsList(ApplyAll([], ops)) && head == At(ApplyAll([], ops), 0)
  {
    head := null;
    ghost var s: seq<Node<T>> := [];
    RunPrefix([], ops, 0);
    for k := 0 to |ops|
      invariant LegalRun([], ops[..k]) && s == ApplyAll([], ops[..k])
      invariant IsList(s) && head == At(s, 0)
      invariant forall n :: n in s ==> n in AllIncoming(ops)
    {
      RunPrefix([], ops, k + 1);
      assert ops[..k + 1] == ops[..k] + [ops[k]];
      RunSnoc([], ops[..k], ops[k]);
      ApplyMembers(s, ops[k]);
      head := Execute(ops[k], head, s);
      s := Apply(s, ops[k]);
    }
    assert ops[..|ops|] == ops;
  }
}
