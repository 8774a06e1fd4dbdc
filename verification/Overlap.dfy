/** A new exchange that starts while the child of the previous one may still be at its unlinks: the parent
    returns, and the program with it, without waiting for its child. */
module Overlap {
  import opened Basics
  import opened Codec
  import S = Shmem

  /** The new pair and the old child on one kernel. */
  datatype State = State(pair: S.State, leftover: S.Proc)

  datatype Turn = New(w: Who) | Old

  /** The kernel as the old child sees it. */
  function OldView(o: State): (r: S.State) {
    S.State(o.pair.names, o.pair.objs, o.pair.parent, o.leftover)
  }

  /** One step; a process that cannot move, or has faulted, changes nothing. */
  function Step(o: State, turn: Turn): (r: State) {
    match turn
    case New(w) =>
      var e := S.Step(o.pair, w);
      if e.Next? then o.(pair := e.s) else o
    case Old =>
      var e := S.Step(OldView(o), Child);
      if e.Next? then State(e.s.(child := o.pair.child), e.s.child) else o
  }

  function Exec(o: State, schedule: seq<Turn>): (r: State)
    decreases |schedule|
  {
    if schedule == [] then o else Exec(Step(o, schedule[0]), schedule[1..])
  }

  /** The next exchange starts on the kernel state `e` with `e`'s child still around. */
  function Next(e: S.State, x: S.Exchange): (r: State) {
    State(S.Start(e, x), e.child)
  }

  predicate Delivered(o: State, x: S.Exchange) {
    o.pair.parent.got == Some(x.toParent) && o.pair.child.got == Some(x.toChild)
  }

  /** Whatever has happened, the exchange can still be completed, and if it is complete it is right. */
  ghost predicate Delivers(o: State, x: S.Exchange) {
    forall schedule :: var t := Exec(o, schedule);
      (S.BothDone(t.pair) ==> Delivered(t, x)) && exists more :: S.BothDone(Exec(t, more).pair)
  }

  lemma {:induction false} ExecConcat(o: State, a: seq<Turn>, b: seq<Turn>)
    ensures Exec(o, a + b) == Exec(Exec(o, a), b)
    decreases |a|
  {
    hide Step;
    if a == [] {
      assert a + b == b;
    } else {
      assert (a + b)[1..] == a[1..] + b;
      ExecConcat(Step(o, a[0]), a[1..], b);
    }
  }

  /** When the parent has returned, no name is left, and the child is past its post. */
  lemma ParentGone(e: S.State)
    requires S.Inv(e) && e.parent.pc == S.DONE
    ensures e.names == map[] && 14 <= e.child.pc <= S.DONE
  {
    forall n ensures n !in e.names {
      assert S.NameInv(e, n);
    }
    assert S.SemInv(e, Parent);
  }

  /** Such a leftover is real: every exchange of messages that fit has a schedule in which the parent has returned
      and the child is still before its first unlink. */
  lemma LeftoverHappens(s: S.State) returns (schedule: seq<Who>)
    requires S.Init(s) && S.Fits(s.parent) && S.Fits(s.child)
    ensures S.Exec(s, schedule).Next?
    ensures var e := S.Exec(s, schedule).s; S.Inv(e) && e.parent.pc == S.DONE && e.child.pc == 14
  {
    S.InitInv(s);
    hide S.Inv, S.Init, S.Fits;
    schedule := ParentFirst(s);
  }

  /** The parent runs to its end; the child only moves while the parent waits for it. */
  lemma {:induction false} ParentFirst(s: S.State) returns (schedule: seq<Who>)
    requires S.Inv(s) && S.Fits(s.parent) && S.Fits(s.child) && s.child.pc <= 14
    ensures S.Exec(s, schedule).Next?
    ensures var e := S.Exec(s, schedule).s; S.Inv(e) && e.parent.pc == S.DONE && e.child.pc == 14
    decreases S.Measure(s)
  {
    if s.parent.pc == S.DONE {
      ParentGone(s);
      return [];
    }
    var w := ParentOrHelper(s);
    hide S.Inv, S.Step, S.Measure, S.Fits;
    S.MeasureZero(s);
    S.StepInv(s, w);
    S.StepCounts(s, w);
    var t := S.Step(s, w).s;
    S.MeasureZero(t);
    assert t.At(Parent).outgoing == s.At(Parent).outgoing && t.At(Child).outgoing == s.At(Child).outgoing;
    SameFits(t.parent, s.parent);
    SameFits(t.child, s.child);
    var rest := ParentFirst(t);
    schedule := [w] + rest;
    assert schedule[1..] == rest;
  }

  lemma ParentOrHelper(s: S.State) returns (w: Who)
    requires S.Inv(s) && S.Fits(s.parent) && S.Fits(s.child) && s.child.pc <= 14 && s.parent.pc != S.DONE
    ensures S.Step(s, w).Next? && S.Step(s, w).s.child.pc <= 14
  {
    S.FaultIff(s, Parent);
    S.BlockedIff(s, Parent);
    S.FinishedIff(s, Parent);
    S.NeverStuck(s);
    hide S.Inv, S.Step, Encode, S.Fits;
    w := if S.Step(s, Parent).Next? then Parent else Child;
    S.StepCountsOne(s, w);
    StepsByOne(s, w);
  }

  lemma StepsByOne(s: S.State, w: Who)
    requires S.Step(s, w).Next?
    ensures S.Step(s, w).s.At(w).pc <= s.At(w).pc + 1
  {
    hide Encode, Decode, S.Complete;
  }

  // ---------- with the old child gone ----------

  /** The turns of the new pair. */
  function Pair(schedule: seq<Turn>): (r: seq<Who>) {
    if schedule == [] then []
    else (if schedule[0].New? then [schedule[0].w] else []) + Pair(schedule[1..])
  }

  lemma {:induction false} OldIsIdle(o: State, schedule: seq<Turn>)
    requires o.leftover.pc == S.DONE && S.Inv(o.pair) && S.Fits(o.pair.parent) && S.Fits(o.pair.child)
    ensures S.Exec(o.pair, Pair(schedule)) == S.Outcome.Next(Exec(o, schedule).pair)
    ensures Exec(o, schedule).leftover == o.leftover
    decreases |schedule|
  {
    if schedule != [] {
      var turn, rest := schedule[0], Pair(schedule[1..]);
      match turn
      case New(w) =>
        assert ([w] + rest)[1..] == rest;
        S.NoFault(o.pair, [w]);
        hide S.Inv, S.Step, S.Fits;
        PairStep(o, w);
        OldIsIdle(Step(o, turn), schedule[1..]);
      case Old =>
        assert [] + rest == rest;
        OldIsIdle(o, schedule[1..]);
    }
  }

  lemma PairStep(o: State, w: Who)
    requires S.Inv(o.pair) && S.Fits(o.pair.parent) && S.Fits(o.pair.child)
    ensures var t := Step(o, New(w));
      S.Inv(t.pair) && S.Fits(t.pair.parent) && S.Fits(t.pair.child) && t.leftover == o.leftover
    ensures !S.Step(o.pair, w).Fault?
  {
    S.FaultIff(o.pair, w);
    hide S.Inv, S.Step, Encode;
    if S.Step(o.pair, w).Next? {
      S.StepInv(o.pair, w);
      S.StepCounts(o.pair, w);
      var t := S.Step(o.pair, w).s;
      assert t.At(Parent).outgoing == o.pair.At(Parent).outgoing && t.At(Child).outgoing == o.pair.At(Child).outgoing;
    }
  }

  function AsTurns(schedule: seq<Who>): (r: seq<Turn>) {
    seq(|schedule|, i requires 0 <= i < |schedule| => New(schedule[i]))
  }

  lemma {:induction false} PairOfTurns(schedule: seq<Who>)
    ensures Pair(AsTurns(schedule)) == schedule
  {
    if schedule != [] {
      assert AsTurns(schedule)[1..] == AsTurns(schedule[1..]);
      PairOfTurns(schedule[1..]);
    }
  }

  lemma GoneDelivers(e: S.State, x: S.Exchange)
    requires e.names == map[] && e.child.pc == S.DONE && x.Valid()
    requires S.Fits(S.NewProc(x.toChild)) && S.Fits(S.NewProc(x.toParent))
    ensures Delivers(Next(e, x), x)
  {
    var o := Next(e, x);
    S.InitInv(o.pair);
    hide S.Inv, S.Step, S.Exec, Exec, S.Fits;
    forall schedule ensures var t := Exec(o, schedule);
      (S.BothDone(t.pair) ==> Delivered(t, x)) && exists more :: S.BothDone(Exec(t, more).pair)
    {
      var t := Exec(o, schedule);
      OldIsIdle(o, schedule);
      S.ExecInv(o.pair, Pair(schedule));
      assert t.pair.At(Parent).outgoing == x.toChild && t.pair.At(Child).outgoing == x.toParent by {
        assert o.pair.At(Parent).outgoing == x.toChild && o.pair.At(Child).outgoing == x.toParent;
      }
      if S.BothDone(t.pair) {
        S.AtTheEnd(t.pair);
      }
      SameFits(t.pair.parent, S.NewProc(x.toChild));
      SameFits(t.pair.child, S.NewProc(x.toParent));
      var more := S.Finishes(t.pair);
      PairOfTurns(more);
      OldIsIdle(t, AsTurns(more));
    }
  }

  lemma SameFits(p: S.Proc, q: S.Proc)
    requires p.outgoing == q.outgoing
    ensures S.Fits(p) == S.Fits(q)
  {}

  // ---------- with the old child still about to unlink ----------

  /** The new parent waits on a semaphore that nobody else has. */
  ghost predicate Split(o: State) {
    var p, c := o.pair.parent, o.pair.child;
    && 2 <= p.pc <= S.WaitPc(Parent) && p.got == None && 1 <= c.pc && 14 <= o.leftover.pc
    && p.readSem.Some? && p.readSem.value < |o.pair.objs| && o.pair.objs[p.readSem.value] == S.Sem(0)
    && p.writeSem != p.readSem && c.writeSem != p.readSem
  }

  lemma SplitParent(o: State)
    requires Split(o)
    ensures Split(Step(o, New(Parent)))
  {
    hide Encode, Decode, S.Complete, ParseHeader, S.Resize, S.DoGet;
  }

  lemma SplitChild(o: State)
    requires Split(o)
    ensures Split(Step(o, New(Child)))
  {
    hide Encode, Decode, S.Complete, ParseHeader, S.Resize;
  }

  lemma SplitOld(o: State)
    requires Split(o)
    ensures Split(Step(o, Old))
  {
    hide Encode, Decode, S.Complete, ParseHeader, S.Resize, S.DoPut, S.DoGet;
  }

  lemma SplitStep(o: State, turn: Turn)
    requires Split(o)
    ensures Split(Step(o, turn))
  {
    hide Split, Step;
    match turn
    case Old => SplitOld(o);
    case New(Parent) => SplitParent(o);
    case New(Child) => SplitChild(o);
  }

  lemma {:induction false} SplitForEver(o: State, schedule: seq<Turn>)
    requires Split(o)
    ensures Split(Exec(o, schedule))
    decreases |schedule|
  {
    hide Split, Step;
    if schedule != [] {
      SplitStep(o, schedule[0]);
      SplitForEver(Step(o, schedule[0]), schedule[1..]);
    }
  }

  /** The old child comes to its last unlink before the new pair starts. */
  lemma {:induction false} ToLastUnlink(o: State) returns (schedule: seq<Turn>)
    requires 14 <= o.leftover.pc < S.DONE && o.pair.names == map[]
    ensures Exec(o, schedule) == o.(leftover := o.leftover.(pc := 17))
    decreases 17 - o.leftover.pc
  {
    if o.leftover.pc == 17 {
      return [];
    }
    var t := Step(o, Old);
    assert t.pair.names == map[] && t.pair == o.pair && t.leftover == o.leftover.(pc := o.leftover.pc + 1);
    hide Step;
    var rest := ToLastUnlink(t);
    schedule := [Old] + rest;
    assert schedule[1..] == rest;
  }

  /** The new parent opens its semaphores, the old child removes one name, the new child opens it anew. */
  lemma SplitHappens(o: State) returns (schedule: seq<Turn>)
    requires o.leftover.pc == 17 && o.pair.names == map[]
    requires o.pair.parent.pc == o.pair.child.pc == 0 && o.pair.parent.got == None
    ensures Split(Exec(o, schedule))
  {
    var a := Step(o, New(Parent));
    var b := Step(a, New(Parent));
    var c := Step(b, Old);
    var d := Step(c, New(Child));
    assert Split(d);
    hide Step, Split;
    schedule := [New(Parent), New(Parent), Old, New(Child)];
    assert schedule[1..] == [New(Parent), Old, New(Child)];
    assert [New(Parent), Old, New(Child)][1..] == [Old, New(Child)];
    assert [Old, New(Child)][1..] == [New(Child)];
    assert [New(Child)][1..] == [];
    assert Exec(d, []) == d;
    assert Exec(c, [New(Child)]) == d;
    assert Exec(b, [Old, New(Child)]) == d;
    assert Exec(a, [New(Parent), Old, New(Child)]) == d;
  }

  lemma LeftoverBreaks(e: S.State, x: S.Exchange)
    requires e.names == map[] && 14 <= e.child.pc < S.DONE
    ensures !Delivers(Next(e, x), x)
  {
    var o := Next(e, x);
    var first := ToLastUnlink(o);
    var second := SplitHappens(Exec(o, first));
    ExecConcat(o, first, second);
    var t := Exec(o, first + second);
    hide Exec, Step;
    forall more ensures !S.BothDone(Exec(t, more).pair) {
      SplitForEver(t, more);
    }
  }

  /** Started when the previous parent has returned, the next exchange of messages that fit delivers under
      every schedule if and only if the previous child has made all its unlinks. */
  lemma NextDeliversIffChildDone(e: S.State, x: S.Exchange)
    requires S.Inv(e) && e.parent.pc == S.DONE && x.Valid()
    requires S.Fits(S.NewProc(x.toChild)) && S.Fits(S.NewProc(x.toParent))
    ensures Delivers(Next(e, x), x) <==> e.child.pc == S.DONE
  {
    ParentGone(e);
    hide S.Inv, Delivers, S.Fits;
    if e.child.pc == S.DONE {
      GoneDelivers(e, x);
    } else {
      LeftoverBreaks(e, x);
    }
  }
}
