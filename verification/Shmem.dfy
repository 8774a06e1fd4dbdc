/** The shared-memory mailbox exchange: parent and child race over two named semaphores and two named
    shared-memory objects. The model interleaves the two processes call by call, and byte by byte where
    they touch shared memory. */
module Shmem {
  import opened Basics
  import opened Codec

  const SHM_SIZE := 1024
  const PAGE := 4096

  /** Memory is mapped in whole pages: what a 1024-byte object makes accessible. */
  const MAPPED := (SHM_SIZE + PAGE - 1) / PAGE * PAGE

  /** The four names; `SemTo(Child)` is "/sem_to_child", `ShmTo(Child)` "/shared_to_child", and so on. */
  datatype Name = SemTo(to: Who) | ShmTo(to: Who)

  /** The pointer variables of both functions. */
  datatype Var = WriteSem | ReadSem | ReadShm | WriteShm

  datatype Instr =
    | SemOpen(v: Var, name: Name)
    | ShmOpen(name: Name, writable: bool)
    | Ftruncate
    | Mmap(v: Var)
    | Close
    | Put
    | Post
    | Wait
    | Get
    | Unlink(name: Name)
    | Exit

  const DONE := 18

  /** The calls of `parent` and `child` in program order. */
  function Program(who: Who, pc: nat): (r: Instr) {
    if pc == 0 then SemOpen(WriteSem, SemTo(Other(who)))
    else if pc == 1 then SemOpen(ReadSem, SemTo(who))
    else if pc == 2 then ShmOpen(ShmTo(who), false)
    else if pc == 3 then Ftruncate
    else if pc == 4 then Mmap(ReadShm)
    else if pc == 5 then Close
    else if pc == 6 then ShmOpen(ShmTo(Other(who)), true)
    else if pc == 7 then Ftruncate
    else if pc == 8 then Mmap(WriteShm)
    else if pc == 9 then Close
    else if pc == PutPc(who) then Put
    else if pc == PostPc(who) then Post
    else if pc == WaitPc(who) then Wait
    else if pc == GetPc(who) then Get
    else if pc == 14 then Unlink(ShmTo(who))
    else if pc == 15 then Unlink(ShmTo(Other(who)))
    else if pc == 16 then Unlink(SemTo(Child))
    else if pc == 17 then Unlink(SemTo(Parent))
    else Exit
  }

  // The parent delivers before it waits, the child the other way round.
  function PutPc(who: Who): (r: nat) { if who == Parent then 10 else 12 }
  function PostPc(who: Who): (r: nat) { if who == Parent then 11 else 13 }
  function WaitPc(who: Who): (r: nat) { if who == Parent then 12 else 10 }
  function GetPc(who: Who): (r: nat) { if who == Parent then 13 else 11 }

  /** `bytes` are the pages behind a shared object: none while it is empty, `MAPPED` bytes once it has its size. */
  datatype Object = Sem(count: nat) | Shm(bytes: seq<byte>)

  datatype Fd = Fd(obj: nat, writable: bool)

  /** One process. `sent` counts the bytes of `outgoing` copied so far, `inbox` holds the bytes copied in. */
  datatype Proc = Proc(
    pc: nat,
    writeSem: Option<nat>, readSem: Option<nat>, readShm: Option<nat>, writeShm: Option<nat>,
    fd: Option<Fd>,
    outgoing: Message, sent: nat,
    inbox: seq<byte>, got: Option<Message>)

  datatype State = State(names: map<Name, nat>, objs: seq<Object>, parent: Proc, child: Proc) {
    function At(w: Who): (r: Proc) {
      if w == Parent then parent else child
    }

    function With(w: Who, p: Proc): (r: State) {
      if w == Parent then this.(parent := p) else this.(child := p)
    }
  }

  datatype Outcome = Next(s: State) | Blocked | Finished | Fault

  function SetVar(p: Proc, v: Var, obj: nat): (r: Proc) {
    match v
    case WriteSem => p.(writeSem := Some(obj))
    case ReadSem => p.(readSem := Some(obj))
    case ReadShm => p.(readShm := Some(obj))
    case WriteShm => p.(writeShm := Some(obj))
  }

  /** Create-or-open: the named object, made as `fresh` if the name is absent. */
  function OpenName(s: State, n: Name, initial: Object): (r: (State, nat)) {
    if n in s.names then (s, s.names[n])
    else (s.(names := s.names[n := |s.objs|], objs := s.objs + [initial]), |s.objs|)
  }

  /** Giving an object its size keeps what it held up to there and clears the rest of the page. */
  function Resize(bytes: seq<byte>): (r: seq<byte>)
    ensures |r| == MAPPED
  {
    var kept := if |bytes| >= SHM_SIZE then bytes[..SHM_SIZE] else bytes;
    kept + seq(MAPPED - |kept|, _ => 0)
  }

  /** One call, or one byte of a copy. Touching memory outside the object's pages or through a wrong pointer
      faults. */
  function Step(s: State, w: Who): (r: Outcome) {
    match Program(w, s.At(w).pc)
    case SemOpen(v, n) => Next(DoSemOpen(s, w, v, n))
    case ShmOpen(n, writable) => Next(DoShmOpen(s, w, n, writable))
    case Ftruncate => DoFtruncate(s, w)
    case Mmap(v) => DoMmap(s, w, v)
    case Close => Next(s.With(w, Advance(s.At(w)).(fd := None)))
    case Put => DoPut(s, w)
    case Post => DoPost(s, w)
    case Wait => DoWait(s, w)
    case Get => DoGet(s, w)
    case Unlink(n) => Next(DoUnlink(s, w, n))
    case Exit => Finished
  }

  function Advance(p: Proc): (r: Proc) {
    p.(pc := p.pc + 1)
  }

  predicate IsSem(s: State, v: Option<nat>) {
    v.Some? && v.value < |s.objs| && s.objs[v.value].Sem?
  }

  predicate IsShm(s: State, v: Option<nat>) {
    v.Some? && v.value < |s.objs| && s.objs[v.value].Shm?
  }

  function DoSemOpen(s: State, w: Who, v: Var, n: Name): (r: State) {
    var (t, obj) := OpenName(s, n, Sem(0));
    t.With(w, SetVar(Advance(s.At(w)), v, obj))
  }

  function DoShmOpen(s: State, w: Who, n: Name, writable: bool): (r: State) {
    var (t, obj) := OpenName(s, n, Shm([]));
    t.With(w, Advance(s.At(w)).(fd := Some(Fd(obj, writable))))
  }

  /** Resizing needs a writable descriptor; on a read-only one the call fails and its result is ignored. */
  function DoFtruncate(s: State, w: Who): (r: Outcome) {
    var p := s.At(w);
    if p.fd.None? || !IsShm(s, FdObj(p)) then Fault
    else if !p.fd.value.writable then Next(s.With(w, Advance(p)))
    else
      var obj := p.fd.value.obj;
      Next(s.(objs := s.objs[obj := Shm(Resize(s.objs[obj].bytes))]).With(w, Advance(p)))
  }

  function DoMmap(s: State, w: Who, v: Var): (r: Outcome) {
    var p := s.At(w);
    if p.fd.None? || (v == WriteShm && !p.fd.value.writable) then Fault
    else Next(s.With(w, SetVar(Advance(p), v, p.fd.value.obj)))
  }

  /** `msg_to_msgbuf` into the mapping, one byte at a time. */
  function DoPut(s: State, w: Who): (r: Outcome) {
    var p := s.At(w);
    var enc := Encode(p.outgoing);
    if p.sent >= |enc| then Next(s.With(w, Advance(p)))
    else if !IsShm(s, p.writeShm) || p.sent >= |s.objs[p.writeShm.value].bytes| then Fault
    else
      var obj := p.writeShm.value;
      Next(s.(objs := s.objs[obj := Shm(s.objs[obj].bytes[p.sent := enc[p.sent]])])
            .With(w, p.(sent := p.sent + 1)))
  }

  function DoPost(s: State, w: Who): (r: Outcome) {
    var p := s.At(w);
    if !IsSem(s, p.writeSem) then Fault
    else
      var obj := p.writeSem.value;
      Next(s.(objs := s.objs[obj := Sem(s.objs[obj].count + 1)]).With(w, Advance(p)))
  }

  function DoWait(s: State, w: Who): (r: Outcome) {
    var p := s.At(w);
    if !IsSem(s, p.readSem) then Fault
    else
      var obj := p.readSem.value;
      if s.objs[obj].count == 0 then Blocked
      else Next(s.(objs := s.objs[obj := Sem(s.objs[obj].count - 1)]).With(w, Advance(p)))
  }

  /** The header is in, and as many data bytes as it announces. */
  predicate Complete(inbox: seq<byte>) {
    |inbox| >= HEADER_SIZE && |inbox| >= HEADER_SIZE + ParseHeader(inbox[..HEADER_SIZE]).dataLen
  }

  /** `msgbuf_to_msg` from the mapping: the header first, then as many bytes as the header announces. */
  function DoGet(s: State, w: Who): (r: Outcome) {
    var p := s.At(w);
    var k := |p.inbox|;
    if Complete(p.inbox) then Next(s.With(w, Advance(p).(got := Decode(p.inbox))))
    else if !IsShm(s, p.readShm) || k >= |s.objs[p.readShm.value].bytes| then Fault
    else Next(s.With(w, p.(inbox := p.inbox + [s.objs[p.readShm.value].bytes[k]])))
  }

  function DoUnlink(s: State, w: Who, n: Name): (r: State) {
    s.(names := s.names - {n}).With(w, Advance(s.At(w)))
  }

  // ---------- runs ----------

  predicate Fresh(p: Proc) {
    && p.pc == 0 && p.sent == 0 && p.inbox == [] && p.got == None && p.fd == None
    && p.writeSem == None && p.readSem == None && p.readShm == None && p.writeShm == None
    && p.outgoing.Valid()
  }

  /** Both processes about to start and none of the four names taken; other objects may be around. */
  predicate Init(s: State) {
    s.names == map[] && Fresh(s.parent) && Fresh(s.child)
  }

  /** Whether a process's message fits the mapping it is written to. */
  predicate Fits(p: Proc) {
    |Encode(p.outgoing)| <= MAPPED
  }

  /** Whether it also fits the object, as it should. */
  predicate FitsObject(p: Proc) {
    |Encode(p.outgoing)| <= SHM_SIZE
  }

  // ---------- the invariant ----------

  function OpenPc(w: Who, n: Name): (r: nat) {
    match n
    case SemTo(to) => if to == w then 1 else 0
    case ShmTo(to) => if to == w then 2 else 6
  }

  function UnlinkPc(w: Who, n: Name): (r: nat) {
    match n
    case SemTo(to) => if to == Child then 16 else 17
    case ShmTo(to) => if to == w then 14 else 15
  }

  function FdObj(p: Proc): (r: Option<nat>) {
    if p.fd.None? then None else Some(p.fd.value.obj)
  }

  /** The object a process holds for a name: a semaphore pointer, an open descriptor or a mapping. */
  function Handle(p: Proc, w: Who, n: Name): (r: Option<nat>) {
    match n
    case SemTo(to) => if to == w then p.readSem else p.writeSem
    case ShmTo(to) =>
      if to == w then (if p.pc <= 4 then (if p.pc <= 2 then None else FdObj(p)) else p.readShm)
      else (if p.pc <= 8 then (if p.pc <= 6 then None else FdObj(p)) else p.writeShm)
  }

  predicate Opened(s: State, w: Who, n: Name) {
    s.At(w).pc > OpenPc(w, n)
  }

  predicate Removed(s: State, n: Name) {
    s.parent.pc > UnlinkPc(Parent, n) || s.child.pc > UnlinkPc(Child, n)
  }

  function ObjectOf(s: State, n: Name): (r: Option<nat>) {
    if Opened(s, Parent, n) then Handle(s.parent, Parent, n) else Handle(s.child, Child, n)
  }

  predicate IsKind(o: Object, n: Name) {
    o.Sem? == n.SemTo?
  }

  /** Name table and handles agree: a name exists from its first open to its first unlink, and everyone who
      opened it holds the one object. */
  ghost predicate NameInv(s: State, n: Name) {
    && (Opened(s, Parent, n) <==> Handle(s.parent, Parent, n).Some?)
    && (Opened(s, Child, n) <==> Handle(s.child, Child, n).Some?)
    && (Opened(s, Parent, n) && Opened(s, Child, n) ==> Handle(s.parent, Parent, n) == Handle(s.child, Child, n))
    && (Removed(s, n) ==> Opened(s, Parent, n) && Opened(s, Child, n))
    && (n in s.names <==> !Removed(s, n) && ObjectOf(s, n).Some?)
    && (n in s.names ==> ObjectOf(s, n) == Some(s.names[n]))
    && (ObjectOf(s, n).Some? ==> ObjectOf(s, n).value < |s.objs| && IsKind(s.objs[ObjectOf(s, n).value], n))
  }

  ghost predicate DistinctObjects(s: State) {
    forall n, m :: n != m && ObjectOf(s, n).Some? ==> ObjectOf(s, n) != ObjectOf(s, m)
  }

  /** The semaphore towards `to` is up exactly between its post and the wait for it. */
  ghost predicate SemInv(s: State, to: Who) {
    var writer, reader := s.At(Other(to)), s.At(to);
    && (reader.pc > WaitPc(to) ==> writer.pc > PostPc(Other(to)))
    && (ObjectOf(s, SemTo(to)).Some? ==>
          var obj := ObjectOf(s, SemTo(to)).value;
          obj < |s.objs|
          && s.objs[obj] == Sem(if writer.pc > PostPc(Other(to)) && reader.pc <= WaitPc(to) then 1 else 0))
  }

  /** The mailbox of `to`: sized by its writer, filled from the front, and read only when complete. */
  ghost predicate BoxInv(s: State, to: Who) {
    var writer, reader := s.At(Other(to)), s.At(to);
    var enc := Encode(writer.outgoing);
    && (ObjectOf(s, ShmTo(to)).Some? ==>
          var obj := ObjectOf(s, ShmTo(to)).value;
          obj < |s.objs| && s.objs[obj].Shm?
          && var bytes := s.objs[obj].bytes;
             |bytes| == (if writer.pc > 7 then MAPPED else 0)
             && writer.sent <= |bytes| && writer.sent <= |enc| && bytes[..writer.sent] == enc[..writer.sent])
    && (writer.pc < PutPc(Other(to)) ==> writer.sent == 0)
    && (writer.pc > PutPc(Other(to)) ==> writer.sent == |enc|)
    && (reader.pc < GetPc(to) ==> reader.inbox == [])
    && reader.inbox <= enc && (reader.pc > GetPc(to) ==> reader.inbox == enc)
    && reader.got == (if reader.pc > GetPc(to) then Some(writer.outgoing) else None)
  }

  ghost predicate ProcInv(s: State, w: Who) {
    var p := s.At(w);
    && p.pc <= DONE && p.outgoing.Valid()
    && (p.fd.Some? <==> 2 < p.pc <= 5 || 6 < p.pc <= 9)
    && (2 < p.pc <= 5 ==> p.fd == Some(Fd(p.fd.value.obj, false)) && Handle(p, w, ShmTo(w)) == FdObj(p))
    && (6 < p.pc <= 9 ==> p.fd == Some(Fd(p.fd.value.obj, true)) && Handle(p, w, ShmTo(Other(w))) == FdObj(p))
  }

  /** Names, handles and descriptors. */
  ghost predicate TableInv(s: State) {
    && ProcInv(s, Parent) && ProcInv(s, Child)
    && (forall n :: NameInv(s, n))
    && DistinctObjects(s)
  }

  ghost predicate Inv(s: State) {
    && TableInv(s)
    && SemInv(s, Parent) && SemInv(s, Child)
    && BoxInv(s, Parent) && BoxInv(s, Child)
  }

  lemma InitInv(s: State)
    requires Init(s)
    ensures Inv(s)
  {}

  // ---------- every step keeps the invariant ----------

  /** A move between opening and unlinking: pointers stay, except that a mapping takes over its descriptor's
      object and closing drops the descriptor. */
  predicate QuietMove(p: Proc, q: Proc) {
    && q.outgoing == p.outgoing && q.writeSem == p.writeSem && q.readSem == p.readSem
    && 3 <= p.pc <= 13 && p.pc != 6 && (q.pc == p.pc + 1 || (q.pc == p.pc && p.pc >= 10))
    && q.readShm == (if p.pc == 4 then FdObj(p) else p.readShm)
    && q.writeShm == (if p.pc == 8 then FdObj(p) else p.writeShm)
    && q.fd == (if p.pc == 5 || p.pc == 9 then None else p.fd)
  }

  /** Quiet moves leave every name and every handle as it is, whatever they write into objects. */
  lemma QuietTable(s: State, w: Who, objs: seq<Object>, q: Proc)
    requires TableInv(s) && QuietMove(s.At(w), q)
    requires |objs| == |s.objs| && forall i :: 0 <= i < |objs| ==> objs[i].Sem? == s.objs[i].Sem?
    ensures var t := s.(objs := objs).With(w, q);
      TableInv(t) && forall n :: ObjectOf(t, n) == ObjectOf(s, n)
  {
    var t := s.(objs := objs).With(w, q);
    forall n ensures ObjectOf(t, n) == ObjectOf(s, n) && NameInv(t, n) {
      assert NameInv(s, n);
      assert Handle(q, w, n) == Handle(s.At(w), w, n);
    }
  }

  /** The four names' objects, as far as they exist, are of their kinds and pairwise different. */
  lemma Objects(s: State, to: Who)
    requires TableInv(s)
    ensures forall n :: ObjectOf(s, n).Some? ==>
      ObjectOf(s, n).value < |s.objs| && IsKind(s.objs[ObjectOf(s, n).value], n)
    ensures ObjectOf(s, SemTo(to)).Some? ==> ObjectOf(s, SemTo(to)) != ObjectOf(s, SemTo(Other(to)))
    ensures ObjectOf(s, ShmTo(to)).Some? ==> ObjectOf(s, ShmTo(to)) != ObjectOf(s, ShmTo(Other(to)))
    ensures s.At(to).pc > 4 ==> s.At(to).readShm == ObjectOf(s, ShmTo(to)) && s.At(to).readShm.Some?
    ensures s.At(to).pc > 8 ==> s.At(to).writeShm == ObjectOf(s, ShmTo(Other(to))) && s.At(to).writeShm.Some?
    ensures s.At(to).pc > 0 ==> s.At(to).writeSem == ObjectOf(s, SemTo(Other(to))) && s.At(to).writeSem.Some?
    ensures s.At(to).pc > 1 ==> s.At(to).readSem == ObjectOf(s, SemTo(to)) && s.At(to).readSem.Some?
    ensures 2 < s.At(to).pc <= 5 ==> FdObj(s.At(to)) == ObjectOf(s, ShmTo(to)) && FdObj(s.At(to)).Some?
    ensures 6 < s.At(to).pc <= 9 ==> FdObj(s.At(to)) == ObjectOf(s, ShmTo(Other(to))) && FdObj(s.At(to)).Some?
  {
    forall n
      ensures ObjectOf(s, n).Some? ==> ObjectOf(s, n).value < |s.objs| && IsKind(s.objs[ObjectOf(s, n).value], n)
    {
      assert NameInv(s, n);
    }
    assert NameInv(s, SemTo(to)) && NameInv(s, SemTo(Other(to)));
    assert NameInv(s, ShmTo(to)) && NameInv(s, ShmTo(Other(to)));
  }

  lemma FtruncateInv(s: State, w: Who)
    requires Inv(s) && (s.At(w).pc == 3 || s.At(w).pc == 7)
    requires DoFtruncate(s, w).Next?
    ensures Inv(DoFtruncate(s, w).s)
  {
    var t := DoFtruncate(s, w).s;
    hide Encode, Decode, Program, NameInv, ObjectOf;
    Objects(s, Parent);
    Objects(s, Child);
    QuietTable(s, w, t.objs, t.At(w));
  }

  lemma MmapInv(s: State, w: Who, v: Var)
    requires Inv(s) && ((s.At(w).pc == 4 && v == ReadShm) || (s.At(w).pc == 8 && v == WriteShm))
    requires DoMmap(s, w, v).Next?
    ensures Inv(DoMmap(s, w, v).s)
  {
    var t := DoMmap(s, w, v).s;
    hide Encode, Decode, Program, NameInv, ObjectOf;
    Objects(s, Parent);
    Objects(s, Child);
    QuietTable(s, w, t.objs, t.At(w));
  }

  lemma CloseInv(s: State, w: Who)
    requires Inv(s) && (s.At(w).pc == 5 || s.At(w).pc == 9)
    ensures Inv(s.With(w, Advance(s.At(w)).(fd := None)))
  {
    var t := s.With(w, Advance(s.At(w)).(fd := None));
    hide Encode, Decode, Program, NameInv, ObjectOf;
    Objects(s, Parent);
    Objects(s, Child);
    QuietTable(s, w, t.objs, t.At(w));
  }

  lemma WriteNext(bytes: seq<byte>, enc: seq<byte>, k: nat)
    requires k < |bytes| && k < |enc| && bytes[..k] == enc[..k]
    ensures bytes[k := enc[k]][..k + 1] == enc[..k + 1]
  {}

  lemma PutInv(s: State, w: Who)
    requires Inv(s) && (s.At(w).pc == PutPc(w))
    requires DoPut(s, w).Next?
    ensures Inv(DoPut(s, w).s)
  {
    var t := DoPut(s, w).s;
    hide Encode, Decode, Program, NameInv, ObjectOf;
    PutQuiet(s, w);
    Objects(s, Parent);
    Objects(s, Child);
    var p := s.At(w);
    if p.sent < |Encode(p.outgoing)| {
      WriteNext(s.objs[p.writeShm.value].bytes, Encode(p.outgoing), p.sent);
    }
  }

  lemma PutQuiet(s: State, w: Who)
    requires TableInv(s) && s.At(w).pc == PutPc(w) && DoPut(s, w).Next?
    ensures var t := DoPut(s, w).s;
      TableInv(t) && forall n :: ObjectOf(t, n) == ObjectOf(s, n)
  {
    hide Encode, TableInv;
    var t := DoPut(s, w).s;
    QuietTable(s, w, t.objs, t.At(w));
  }

  lemma PostInv(s: State, w: Who)
    requires Inv(s) && (s.At(w).pc == PostPc(w))
    requires DoPost(s, w).Next?
    ensures Inv(DoPost(s, w).s)
  {
    var t := DoPost(s, w).s;
    hide Encode, Decode, Program, NameInv, ObjectOf;
    Objects(s, Parent);
    Objects(s, Child);
    QuietTable(s, w, t.objs, t.At(w));
  }

  lemma WaitInv(s: State, w: Who)
    requires Inv(s) && (s.At(w).pc == WaitPc(w))
    requires DoWait(s, w).Next?
    ensures Inv(DoWait(s, w).s)
  {
    var t := DoWait(s, w).s;
    hide Encode, Decode, Program, NameInv, ObjectOf;
    Objects(s, Parent);
    Objects(s, Child);
    QuietTable(s, w, t.objs, t.At(w));
  }

  /** A reader that has copied a prefix of an encoding stops exactly at its end, with the message. */
  lemma CompleteWhenAll(m: Message, inbox: seq<byte>)
    requires m.Valid() && inbox <= Encode(m)
    ensures Complete(inbox) <==> inbox == Encode(m)
    ensures Complete(inbox) ==> Decode(inbox) == Some(m)
  {
    HeaderRoundTrip(m.header);
    if |inbox| >= HEADER_SIZE {
      assert inbox[..HEADER_SIZE] == Encode(m)[..HEADER_SIZE] == HeaderBytes(m.header);
    }
    DecodeIff(inbox, m);
  }

  lemma GetInv(s: State, w: Who)
    requires Inv(s) && s.At(w).pc == GetPc(w)
    requires DoGet(s, w).Next?
    ensures Inv(DoGet(s, w).s)
  {
    hide Encode, Decode, Program, Complete, NameInv, ObjectOf;
    var t := DoGet(s, w).s;
    Objects(s, Parent);
    Objects(s, Child);
    CompleteWhenAll(s.At(Other(w)).outgoing, s.At(w).inbox);
    QuietTable(s, w, t.objs, t.At(w));
  }

  /** `w` opens `n` and goes on as `q`: it holds the object that the open found or made, and no other
      handle changes. */
  ghost predicate OpenMove(s: State, w: Who, n: Name, initial: Object, q: Proc) {
    && s.At(w).pc == OpenPc(w, n) && IsKind(initial, n)
    && q.pc == s.At(w).pc + 1 && Handle(q, w, n) == Some(OpenName(s, n, initial).1)
    && (forall m :: m != n ==> Handle(q, w, m) == Handle(s.At(w), w, m))
    && ProcInv(OpenName(s, n, initial).0.With(w, q), w)
  }

  lemma OpenNames(s: State, w: Who, n: Name, initial: Object, q: Proc)
    requires TableInv(s) && OpenMove(s, w, n, initial, q)
    ensures var (t0, obj) := OpenName(s, n, initial);
      var t := t0.With(w, q);
      (forall m :: NameInv(t, m))
      && ObjectOf(t, n) == Some(obj) && (forall m :: m != n ==> ObjectOf(t, m) == ObjectOf(s, m))
      && (if ObjectOf(s, n).Some? then ObjectOf(s, n) == Some(obj) && t.objs == s.objs
          else obj == |s.objs| && t.objs == s.objs + [initial])
  {
    var (t0, obj) := OpenName(s, n, initial);
    var t := t0.With(w, q);
    assert NameInv(s, n);
    forall m ensures NameInv(t, m) && (m != n ==> ObjectOf(t, m) == ObjectOf(s, m)) {
      assert NameInv(s, m);
    }
    assert NameInv(t, n);
  }

  /** An open leaves the other names alone; the opened one gets the process's handle, shared or new. */
  lemma OpenTable(s: State, w: Who, n: Name, initial: Object, q: Proc)
    requires TableInv(s) && OpenMove(s, w, n, initial, q)
    ensures var (t0, obj) := OpenName(s, n, initial);
      var t := t0.With(w, q);
      TableInv(t)
      && ObjectOf(t, n) == Some(obj) && (forall m :: m != n ==> ObjectOf(t, m) == ObjectOf(s, m))
      && (if ObjectOf(s, n).Some? then ObjectOf(s, n) == Some(obj) && t.objs == s.objs
          else obj == |s.objs| && t.objs == s.objs + [initial])
  {
    OpenNames(s, w, n, initial, q);
    Objects(s, w);
    hide NameInv, ObjectOf;
    var t := OpenName(s, n, initial).0.With(w, q);
    forall m | m != n && ObjectOf(t, m).Some? ensures ObjectOf(t, m) != ObjectOf(t, n) {
      assert ObjectOf(s, m) != ObjectOf(s, n);
    }
  }

  /** The next call is reached with the same message data in hand. */
  predicate SameData(p: Proc, q: Proc) {
    && q.pc == p.pc + 1 && q.outgoing == p.outgoing && q.sent == p.sent
    && q.inbox == p.inbox && q.got == p.got
  }

  lemma SemOpenMove(s: State, w: Who, v: Var, n: Name)
    requires TableInv(s)
    requires (s.At(w).pc == 0 && v == WriteSem && n == SemTo(Other(w)))
      || (s.At(w).pc == 1 && v == ReadSem && n == SemTo(w))
    ensures OpenMove(s, w, n, Sem(0), DoSemOpen(s, w, v, n).At(w))
    ensures SameData(s.At(w), DoSemOpen(s, w, v, n).At(w)) && DoSemOpen(s, w, v, n).At(Other(w)) == s.At(Other(w))
  {}

  lemma SemOpenInv(s: State, w: Who, v: Var, n: Name)
    requires Inv(s)
    requires (s.At(w).pc == 0 && v == WriteSem && n == SemTo(Other(w)))
      || (s.At(w).pc == 1 && v == ReadSem && n == SemTo(w))
    ensures Inv(DoSemOpen(s, w, v, n))
  {
    hide Encode, Decode, Program, NameInv, ObjectOf;
    var t := DoSemOpen(s, w, v, n);
    Objects(s, Parent);
    Objects(s, Child);
    SemOpenMove(s, w, v, n);
    hide OpenMove;
    OpenTable(s, w, n, Sem(0), t.At(w));
    hide DoSemOpen, OpenName, SetVar, Handle, Opened, Removed, TableInv;
  }

  lemma ShmOpenMove(s: State, w: Who, n: Name, writable: bool)
    requires TableInv(s)
    requires (s.At(w).pc == 2 && n == ShmTo(w) && !writable) || (s.At(w).pc == 6 && n == ShmTo(Other(w)) && writable)
    ensures OpenMove(s, w, n, Shm([]), DoShmOpen(s, w, n, writable).At(w))
    ensures SameData(s.At(w), DoShmOpen(s, w, n, writable).At(w))
    ensures DoShmOpen(s, w, n, writable).At(Other(w)) == s.At(Other(w))
  {}

  lemma ShmOpenInv(s: State, w: Who, n: Name, writable: bool)
    requires Inv(s)
    requires (s.At(w).pc == 2 && n == ShmTo(w) && !writable) || (s.At(w).pc == 6 && n == ShmTo(Other(w)) && writable)
    ensures Inv(DoShmOpen(s, w, n, writable))
  {
    hide Encode, Decode, Program, NameInv, ObjectOf;
    var t := DoShmOpen(s, w, n, writable);
    Objects(s, Parent);
    Objects(s, Child);
    ShmOpenMove(s, w, n, writable);
    hide OpenMove;
    OpenTable(s, w, n, Shm([]), t.At(w));
    hide DoShmOpen, OpenName, SetVar, Handle, Opened, Removed, TableInv;
  }

  lemma UnlinkTable(s: State, w: Who, n: Name)
    requires TableInv(s) && SemInv(s, Parent) && SemInv(s, Child)
    requires 14 <= s.At(w).pc && s.At(w).pc == UnlinkPc(w, n)
    ensures TableInv(DoUnlink(s, w, n))
    ensures forall m :: ObjectOf(DoUnlink(s, w, n), m) == ObjectOf(s, m)
  {
    var t := DoUnlink(s, w, n);
    forall m ensures ObjectOf(t, m) == ObjectOf(s, m) && NameInv(t, m) {
      assert NameInv(s, m);
    }
  }

  lemma UnlinkInv(s: State, w: Who, n: Name)
    requires Inv(s) && 14 <= s.At(w).pc && s.At(w).pc == UnlinkPc(w, n)
    ensures Inv(DoUnlink(s, w, n))
  {
    UnlinkTable(s, w, n);
    hide Encode, Decode, Program, NameInv, Handle, Opened, ObjectOf, Removed;
  }

  lemma StepInv(s: State, w: Who)
    requires Inv(s) && Step(s, w).Next?
    ensures Inv(Step(s, w).s)
  {
    hide Inv;
    match Program(w, s.At(w).pc)
    case SemOpen(v, n) => SemOpenInv(s, w, v, n);
    case ShmOpen(n, writable) => ShmOpenInv(s, w, n, writable);
    case Ftruncate => FtruncateInv(s, w);
    case Mmap(v) => MmapInv(s, w, v);
    case Close => CloseInv(s, w);
    case Put => PutInv(s, w);
    case Post => PostInv(s, w);
    case Wait => WaitInv(s, w);
    case Get => GetInv(s, w);
    case Unlink(n) => UnlinkInv(s, w, n);
    case Exit =>
  }

  // ---------- what every reachable state promises ----------

  /** A process that has passed its wait reads a mailbox that is sized, completely written and final. */
  lemma ReadAfterWrite(s: State, to: Who)
    requires Inv(s) && s.At(to).pc > WaitPc(to)
    ensures s.At(Other(to)).pc > PostPc(Other(to))
    ensures ObjectOf(s, ShmTo(to)).Some? && IsShm(s, ObjectOf(s, ShmTo(to)))
    ensures var bytes := s.objs[ObjectOf(s, ShmTo(to)).value].bytes;
      |bytes| == MAPPED && Encode(s.At(Other(to)).outgoing) <= bytes
    ensures s.At(to).readShm == ObjectOf(s, ShmTo(to)) == s.At(Other(to)).writeShm
  {
    Objects(s, to);
    Objects(s, Other(to));
    assert NameInv(s, ShmTo(to));
  }

  /** Names only go away through unlink calls for them. */
  lemma OnlyUnlinkRemoves(s: State, w: Who, n: Name)
    requires Step(s, w).Next? && n in s.names && n !in Step(s, w).s.names
    ensures s.At(w).pc >= 14 && s.At(w).pc == UnlinkPc(w, n)
  {}

  /** No name is unlinked before both processes have opened it; they then hold the same object. */
  lemma UnlinkedOnlyWhenShared(s: State, w: Who, n: Name)
    requires Inv(s) && Step(s, w).Next? && n in s.names && n !in Step(s, w).s.names
    ensures Opened(s, Parent, n) && Opened(s, Child, n)
    ensures Handle(s.parent, Parent, n) == Handle(s.child, Child, n) == Some(s.names[n])
  {
    OnlyUnlinkRemoves(s, w, n);
    hide Step, Encode;
    assert NameInv(s, n);
  }

  lemma PutFault(s: State, w: Who)
    requires Inv(s) && s.At(w).pc == PutPc(w)
    ensures DoPut(s, w).Fault? <==> s.At(w).sent == MAPPED < |Encode(s.At(w).outgoing)|
  {
    Objects(s, w);
    hide Encode, Decode;
  }

  lemma GetSafe(s: State, w: Who)
    requires Inv(s) && s.At(w).pc == GetPc(w)
    ensures !DoGet(s, w).Fault?
  {
    ReadAfterWrite(s, w);
    CompleteWhenAll(s.At(Other(w)).outgoing, s.At(w).inbox);
    hide Encode, Decode, Complete;
  }

  /** The one way to fault is to write past the last page of a mailbox with a message that does not fit. */
  lemma FaultIff(s: State, w: Who)
    requires Inv(s)
    ensures Step(s, w).Fault? <==>
      s.At(w).pc == PutPc(w) && s.At(w).sent == MAPPED < |Encode(s.At(w).outgoing)|
  {
    hide Inv, Encode, Step;
    if s.At(w).pc == PutPc(w) {
      PutFault(s, w);
      CopyStep(s, w);
    } else if s.At(w).pc == GetPc(w) {
      GetSafe(s, w);
      CopyStep(s, w);
    } else {
      CallSafe(s, w);
    }
  }

  lemma CopyStep(s: State, w: Who)
    ensures s.At(w).pc == PutPc(w) ==> Step(s, w) == DoPut(s, w)
    ensures s.At(w).pc == GetPc(w) ==> Step(s, w) == DoGet(s, w)
  {
    hide DoPut, DoGet;
  }

  lemma CallSafe(s: State, w: Who)
    requires Inv(s) && s.At(w).pc != PutPc(w) && s.At(w).pc != GetPc(w)
    ensures !Step(s, w).Fault?
  {
    Objects(s, w);
    hide Encode, Decode, DoPut, DoGet, NameInv, ObjectOf, BoxInv;
  }

  /** Only an unfinished partner can make a process wait. */
  lemma BlockedIff(s: State, w: Who)
    requires Inv(s)
    ensures Step(s, w).Blocked? <==> s.At(w).pc == WaitPc(w) && s.At(Other(w)).pc <= PostPc(Other(w))
  {
    Objects(s, w);
    hide Encode, Decode, Complete;
  }

  predicate BothDone(s: State) {
    s.parent.pc == DONE && s.child.pc == DONE
  }

  /** Short of a fault the exchange never gets stuck. */
  lemma StuckMeansFault(s: State)
    requires Inv(s) && !BothDone(s)
    ensures Step(s, Parent).Next? || Step(s, Child).Next? || Step(s, Parent).Fault? || Step(s, Child).Fault?
  {
    BlockedIff(s, Parent);
    BlockedIff(s, Child);
    FinishedIff(s, Parent);
    FinishedIff(s, Child);
  }

  /** With messages that fit it never gets stuck. */
  lemma NeverStuck(s: State)
    requires Inv(s) && Fits(s.parent) && Fits(s.child) && !BothDone(s)
    ensures Step(s, Parent).Next? || Step(s, Child).Next?
  {
    hide Inv, Step, Encode;
    FaultIff(s, Parent);
    FaultIff(s, Child);
    StuckMeansFault(s);
  }

  lemma FinishedIff(s: State, w: Who)
    requires Inv(s)
    ensures Step(s, w).Finished? <==> s.At(w).pc == DONE
  {}

  /** The two limits in bytes of data. */
  lemma FitsMeans(p: Proc)
    requires p.outgoing.Valid()
    ensures Fits(p) <==> 16 + p.outgoing.header.dataLen <= 4096
    ensures FitsObject(p) <==> 16 + p.outgoing.header.dataLen <= 1024
  {
    RoundTrip(p.outgoing, []);
    assert MAPPED == 4096;
  }

  /** Calls and bytes a process still has to go through. */
  ghost function Remaining(s: State, w: Who): (r: int) {
    DONE - s.At(w).pc + |Encode(s.At(w).outgoing)| - s.At(w).sent
    + |Encode(s.At(Other(w)).outgoing)| - |s.At(w).inbox|
  }

  ghost function Measure(s: State): (m: int) {
    Remaining(s, Parent) + Remaining(s, Child)
  }

  /** One call or one byte further, on the same message. */
  predicate OneFurther(p: Proc, q: Proc) {
    q.outgoing == p.outgoing && q.pc + q.sent + |q.inbox| == p.pc + p.sent + |p.inbox| + 1
  }

  /** The step of `w` takes `w` one further and leaves its partner alone. */
  ghost predicate CountsOne(s: State, w: Who, t: State) {
    OneFurther(s.At(w), t.At(w)) && t.At(Other(w)) == s.At(Other(w))
  }

  lemma OpenCounts(s: State, w: Who, v: Var, n: Name, writable: bool)
    ensures CountsOne(s, w, DoSemOpen(s, w, v, n)) && CountsOne(s, w, DoShmOpen(s, w, n, writable))
  {}

  lemma ShapeCounts(s: State, w: Who, v: Var)
    ensures DoFtruncate(s, w).Next? ==> CountsOne(s, w, DoFtruncate(s, w).s)
    ensures DoMmap(s, w, v).Next? ==> CountsOne(s, w, DoMmap(s, w, v).s)
  {
    hide Resize;
  }

  lemma SignalCounts(s: State, w: Who)
    ensures DoPost(s, w).Next? ==> CountsOne(s, w, DoPost(s, w).s)
    ensures DoWait(s, w).Next? ==> CountsOne(s, w, DoWait(s, w).s)
  {}

  lemma CopyCounts(s: State, w: Who)
    ensures DoPut(s, w).Next? ==> CountsOne(s, w, DoPut(s, w).s)
    ensures DoGet(s, w).Next? ==> CountsOne(s, w, DoGet(s, w).s)
  {
    hide Encode, Decode, Complete;
  }

  lemma StepCountsOne(s: State, w: Who)
    requires Step(s, w).Next?
    ensures CountsOne(s, w, Step(s, w).s)
  {
    hide CountsOne, DoSemOpen, DoShmOpen, DoFtruncate, DoMmap, DoPost, DoWait, DoPut, DoGet;
    match Program(w, s.At(w).pc)
    case SemOpen(v, n) => OpenCounts(s, w, v, n, false);
    case ShmOpen(n, writable) => OpenCounts(s, w, ReadSem, n, writable);
    case Mmap(v) => ShapeCounts(s, w, v);
    case Ftruncate => ShapeCounts(s, w, ReadShm);
    case Post => SignalCounts(s, w);
    case Wait => SignalCounts(s, w);
    case Put => CopyCounts(s, w);
    case Get => CopyCounts(s, w);
    case _ => PlainCounts(s, w);
  }

  lemma PlainCounts(s: State, w: Who)
    ensures CountsOne(s, w, s.With(w, Advance(s.At(w)).(fd := None)))
    ensures forall n :: CountsOne(s, w, DoUnlink(s, w, n))
  {}

  /** Every step uses up exactly one unit of the remaining work and leaves the messages alone. */
  lemma StepCounts(s: State, w: Who)
    requires Step(s, w).Next?
    ensures Measure(Step(s, w).s) == Measure(s) - 1
    ensures forall v :: Step(s, w).s.At(v).outgoing == s.At(v).outgoing
  {
    hide Encode, Step;
    StepCountsOne(s, w);
    var t := Step(s, w).s;
    assert Remaining(t, w) == Remaining(s, w) - 1;
  }

  /** The work runs out exactly when both processes are done. */
  lemma MeasureZero(s: State)
    requires Inv(s)
    ensures Measure(s) >= 0
    ensures BothDone(s) <==> Measure(s) == 0
  {
    assert NameInv(s, ShmTo(Parent)) && NameInv(s, ShmTo(Child));
    assert forall w :: Remaining(s, w) >= DONE - s.At(w).pc;
  }

  /** At the end all four names are gone and each side has decoded what the other encoded; both messages
      did fit. */
  lemma AtTheEnd(s: State)
    requires Inv(s) && BothDone(s)
    ensures s.names == map[]
    ensures s.parent.got == Some(s.child.outgoing) && s.child.got == Some(s.parent.outgoing)
    ensures Fits(s.parent) && Fits(s.child)
  {
    forall n ensures n !in s.names {
      assert NameInv(s, n);
    }
    ReadAfterWrite(s, Parent);
    ReadAfterWrite(s, Child);
  }

  // ---------- schedules ----------

  /** Runs the processes in the order given; a turn of a process that cannot move changes nothing. */
  function Exec(s: State, schedule: seq<Who>): (r: Outcome)
    decreases |schedule|
  {
    if schedule == [] then Next(s)
    else
      match Step(s, schedule[0])
      case Next(t) => Exec(t, schedule[1..])
      case Fault => Fault
      case _ => Exec(s, schedule[1..])
  }

  /** In every interleaving: the invariant holds throughout. */
  lemma {:induction false} ExecInv(s: State, schedule: seq<Who>)
    requires Inv(s) && Exec(s, schedule).Next?
    ensures Inv(Exec(s, schedule).s)
    ensures forall v :: Exec(s, schedule).s.At(v).outgoing == s.At(v).outgoing
    decreases |schedule|
  {
    hide Inv, Step;
    if schedule != [] {
      if Step(s, schedule[0]).Next? {
        StepInv(s, schedule[0]);
        StepCounts(s, schedule[0]);
        ExecInv(Step(s, schedule[0]).s, schedule[1..]);
      } else {
        ExecInv(s, schedule[1..]);
      }
    }
  }

  /** With messages that fit, no interleaving faults. */
  lemma {:induction false} NoFault(s: State, schedule: seq<Who>)
    requires Inv(s) && Fits(s.parent) && Fits(s.child)
    ensures Exec(s, schedule).Next?
    decreases |schedule|
  {
    if schedule != [] {
      FaultIff(s, schedule[0]);
      hide Inv, Step, Encode;
      if Step(s, schedule[0]).Next? {
        StepInv(s, schedule[0]);
        StepCounts(s, schedule[0]);
        assert Step(s, schedule[0]).s.At(Parent).outgoing == s.At(Parent).outgoing;
        assert Step(s, schedule[0]).s.At(Child).outgoing == s.At(Child).outgoing;
        NoFault(Step(s, schedule[0]).s, schedule[1..]);
      } else {
        NoFault(s, schedule[1..]);
      }
    }
  }

  /** From any reachable state some continuation finishes, and it takes exactly the remaining work. */
  lemma {:induction false} Finishes(s: State) returns (schedule: seq<Who>)
    requires Inv(s) && Fits(s.parent) && Fits(s.child)
    ensures |schedule| == Measure(s)
    ensures Exec(s, schedule).Next? && BothDone(Exec(s, schedule).s)
    decreases Measure(s)
  {
    MeasureZero(s);
    if BothDone(s) {
      return [];
    }
    NeverStuck(s);
    hide Inv, Step, Encode, Measure;
    var w := if Step(s, Parent).Next? then Parent else Child;
    StepInv(s, w);
    StepCounts(s, w);
    var t := Step(s, w).s;
    MeasureZero(t);
    assert t.At(Parent).outgoing == s.At(Parent).outgoing && t.At(Child).outgoing == s.At(Child).outgoing;
    var rest := Finishes(t);
    schedule := [w] + rest;
    assert schedule[1..] == rest;
  }

  /** Exactly the messages that fit their mappings can be exchanged. */
  lemma CompletesIffFits(s: State)
    requires Init(s)
    ensures (exists schedule :: Exec(s, schedule).Next? && BothDone(Exec(s, schedule).s))
      <==> 16 + s.parent.outgoing.header.dataLen <= 4096 && 16 + s.child.outgoing.header.dataLen <= 4096
  {
    FitsMeans(s.parent);
    FitsMeans(s.child);
    InitInv(s);
    if Fits(s.parent) && Fits(s.child) {
      var schedule := Finishes(s);
    }
    hide Inv, Step, Encode;
    forall schedule | Exec(s, schedule).Next? && BothDone(Exec(s, schedule).s)
      ensures Fits(s.parent) && Fits(s.child)
    {
      ExecInv(s, schedule);
      var t := Exec(s, schedule).s;
      AtTheEnd(t);
      assert t.At(Parent).outgoing == s.At(Parent).outgoing && t.At(Child).outgoing == s.At(Child).outgoing;
    }
  }

  /** In every interleaving, at every point: processes that have opened a name hold one object for it, a name
      opened by one side only is still there for the other, and whatever has been decoded is what was sent. */
  lemma Safety(s: State, schedule: seq<Who>)
    requires Init(s) && Exec(s, schedule).Next?
    ensures var t := Exec(s, schedule).s;
      (forall n :: Opened(t, Parent, n) && Opened(t, Child, n) ==>
         Handle(t.parent, Parent, n).Some? && Handle(t.parent, Parent, n) == Handle(t.child, Child, n))
      && (forall n :: Opened(t, Parent, n) != Opened(t, Child, n) ==>
            n in t.names && ObjectOf(t, n) == Some(t.names[n]))
      && (forall w :: t.At(w).got.Some? ==> t.At(w).got == Some(s.At(Other(w)).outgoing))
  {
    InitInv(s);
    ExecInv(s, schedule);
    var t := Exec(s, schedule).s;
    hide Exec, Step, Encode;
    forall n
      ensures Opened(t, Parent, n) && Opened(t, Child, n) ==>
        Handle(t.parent, Parent, n).Some? && Handle(t.parent, Parent, n) == Handle(t.child, Child, n)
      ensures Opened(t, Parent, n) != Opened(t, Child, n) ==> n in t.names && ObjectOf(t, n) == Some(t.names[n])
    {
      assert NameInv(t, n);
    }
    assert BoxInv(t, Parent) && BoxInv(t, Child);
    assert t.At(Parent).outgoing == s.At(Parent).outgoing && t.At(Child).outgoing == s.At(Child).outgoing;
  }

  /** Every interleaving from the start that ends with both processes done has delivered both messages. */
  lemma Delivery(s: State, schedule: seq<Who>)
    requires Init(s) && Exec(s, schedule).Next? && BothDone(Exec(s, schedule).s)
    ensures var t := Exec(s, schedule).s;
      t.names == map[] && t.parent.got == Some(s.child.outgoing) && t.child.got == Some(s.parent.outgoing)
  {
    InitInv(s);
    hide Inv, Step, Encode;
    ExecInv(s, schedule);
    var t := Exec(s, schedule).s;
    AtTheEnd(t);
    assert t.At(Parent).outgoing == s.At(Parent).outgoing && t.At(Child).outgoing == s.At(Child).outgoing;
  }

  // ---------- every fair schedule ----------

  lemma {:induction false} ExecConcat(s: State, a: seq<Who>, b: seq<Who>)
    requires Exec(s, a).Next?
    ensures Exec(s, a + b) == Exec(Exec(s, a).s, b)
    decreases |a|
  {
    hide Step;
    if a == [] {
      assert a + b == b;
    } else {
      assert (a + b)[1..] == a[1..] + b;
      ExecConcat(if Step(s, a[0]).Next? then Step(s, a[0]).s else s, a[1..], b);
    }
  }

  /** Work never comes back; it goes down if some process that gets a turn can move at the start. */
  lemma {:induction false} ScheduleCounts(s: State, schedule: seq<Who>)
    requires Inv(s) && Exec(s, schedule).Next?
    ensures Measure(Exec(s, schedule).s) <= Measure(s)
    ensures (exists w :: w in schedule && Step(s, w).Next?) ==> Measure(Exec(s, schedule).s) < Measure(s)
    decreases |schedule|
  {
    hide Inv, Step, Measure;
    if schedule != [] {
      if Step(s, schedule[0]).Next? {
        StepInv(s, schedule[0]);
        StepCounts(s, schedule[0]);
        ScheduleCounts(Step(s, schedule[0]).s, schedule[1..]);
      } else {
        ScheduleCounts(s, schedule[1..]);
        assert forall w :: w in schedule && Step(s, w).Next? ==> w in schedule[1..];
      }
    }
  }

  /** Every schedule that gives both processes a turn often enough finishes, whatever else it does. */
  lemma {:induction false} FairFinishes(s: State, blocks: seq<seq<Who>>)
    requires Inv(s) && Fits(s.parent) && Fits(s.child) && Fair(blocks) && |blocks| >= Measure(s)
    ensures Exec(s, Flatten(blocks)).Next? && BothDone(Exec(s, Flatten(blocks)).s)
    decreases |blocks|
  {
    NoFault(s, Flatten(blocks));
    MeasureZero(s);
    hide Inv, Step, Encode, Measure, Exec;
    if blocks == [] || BothDone(s) {
      ScheduleCounts(s, Flatten(blocks));
      ExecInv(s, Flatten(blocks));
      MeasureZero(Exec(s, Flatten(blocks)).s);
    } else {
      var b := blocks[0];
      NoFault(s, b);
      NeverStuck(s);
      ScheduleCounts(s, b);
      ExecInv(s, b);
      var t := Exec(s, b).s;
      assert t.At(Parent).outgoing == s.At(Parent).outgoing && t.At(Child).outgoing == s.At(Child).outgoing;
      FairFinishes(t, blocks[1..]);
      ExecConcat(s, b, Flatten(blocks[1..]));
    }
  }

  // ---------- staying inside the object ----------

  /** The mailbox offset that the next step of `w` touches. */
  function Access(s: State, w: Who): (r: Option<nat>) {
    var p := s.At(w);
    if p.pc == PutPc(w) && p.sent < |Encode(p.outgoing)| then Some(p.sent)
    else if p.pc == GetPc(w) && !Complete(p.inbox) then Some(|p.inbox|)
    else None
  }

  predicate InObject(s: State, w: Who) {
    Access(s, w).Some? ==> Access(s, w).value < SHM_SIZE
  }

  lemma StaysInObject(s: State, w: Who)
    requires Inv(s) && FitsObject(s.parent) && FitsObject(s.child)
    ensures InObject(s, w)
  {
    CompleteWhenAll(s.At(Other(w)).outgoing, s.At(w).inbox);
    hide Encode, Complete, TableInv, SemInv;
    assert BoxInv(s, w) && BoxInv(s, Other(w));
  }

  lemma SentStep(s: State, w: Who, v: Who)
    requires Step(s, w).Next?
    ensures Step(s, w).s.At(v).sent ==
      s.At(v).sent + if v == w && s.At(w).pc == PutPc(w) && s.At(w).sent < |Encode(s.At(w).outgoing)| then 1 else 0
  {
    hide Encode, Decode, Complete;
  }

  lemma DoneFitsObject(s: State)
    requires Inv(s) && BothDone(s) && s.parent.sent <= SHM_SIZE && s.child.sent <= SHM_SIZE
    ensures FitsObject(s.parent) && FitsObject(s.child)
  {
    hide Encode;
    assert BoxInv(s, Parent) && BoxInv(s, Child);
  }

  /** Nothing has been written past the objects, and some message is too long for its own. */
  ghost predicate Overlong(s: State) {
    && Inv(s) && !(FitsObject(s.parent) && FitsObject(s.child))
    && s.At(Parent).sent <= SHM_SIZE && s.At(Child).sent <= SHM_SIZE
  }

  lemma OverlongMoves(s: State) returns (w: Who)
    requires Overlong(s)
    ensures Step(s, w).Next?
  {
    FaultIff(s, Parent);
    FaultIff(s, Child);
    hide Inv, Step, Encode;
    if BothDone(s) {
      DoneFitsObject(s);
    }
    StuckMeansFault(s);
    w := if Step(s, Parent).Next? then Parent else Child;
  }

  lemma OverlongStep(s: State, w: Who)
    requires Overlong(s) && InObject(s, w) && Step(s, w).Next?
    ensures Overlong(Step(s, w).s)
  {
    hide Inv, Step, Encode;
    StepInv(s, w);
    StepCounts(s, w);
    SentStep(s, w, Parent);
    SentStep(s, w, Child);
    var t := Step(s, w).s;
    assert t.At(Parent).outgoing == s.At(Parent).outgoing && t.At(Child).outgoing == s.At(Child).outgoing;
  }

  /** A message too long for the object is bound to be written past it. */
  lemma {:induction false} ReachesEdge(s: State) returns (schedule: seq<Who>, w: Who)
    requires Overlong(s)
    ensures Exec(s, schedule).Next? && !InObject(Exec(s, schedule).s, w)
    decreases Measure(s)
  {
    w := OverlongMoves(s);
    MeasureZero(s);
    hide Inv, Step, Encode, Measure, InObject, FitsObject;
    if !InObject(s, w) {
      return [], w;
    }
    OverlongStep(s, w);
    StepCounts(s, w);
    MeasureZero(Step(s, w).s);
    var rest, u := ReachesEdge(Step(s, w).s);
    schedule := [w] + rest;
    assert schedule[1..] == rest;
    w := u;
  }

  /** All accesses in all interleavings stay inside the 1024-byte objects if and only if both encodings do. */
  lemma InObjectIffFits(s: State)
    requires Init(s)
    ensures (forall schedule, w :: Exec(s, schedule).Next? ==> InObject(Exec(s, schedule).s, w))
      <==> 16 + s.parent.outgoing.header.dataLen <= 1024 && 16 + s.child.outgoing.header.dataLen <= 1024
  {
    FitsMeans(s.parent);
    FitsMeans(s.child);
    InitInv(s);
    hide Inv, Step, Encode;
    if FitsObject(s.parent) && FitsObject(s.child) {
      forall schedule, w | Exec(s, schedule).Next? ensures InObject(Exec(s, schedule).s, w) {
        ExecInv(s, schedule);
        var t := Exec(s, schedule).s;
        assert t.At(Parent).outgoing == s.At(Parent).outgoing && t.At(Child).outgoing == s.At(Child).outgoing;
        StaysInObject(t, w);
      }
    } else {
      var schedule, w := ReachesEdge(s);
    }
  }

  // ---------- back-to-back runs ----------

  datatype Exchange = Exchange(toChild: Message, toParent: Message, schedule: seq<Who>) {
    predicate Valid() { toChild.Valid() && toParent.Valid() }
  }

  function NewProc(outgoing: Message): (r: Proc) {
    Proc(0, None, None, None, None, None, outgoing, 0, [], None)
  }

  /** A new parent and child on the kernel state that the last pair left behind. */
  function Start(k: State, x: Exchange): (r: State) {
    State(k.names, k.objs, NewProc(x.toChild), NewProc(x.toParent))
  }

  /** Every exchange of the session is run until both its processes are done. */
  ghost predicate CompleteSession(k: State, xs: seq<Exchange>)
    decreases |xs|
  {
    xs == [] ||
    var e := Exec(Start(k, xs[0]), xs[0].schedule);
    e.Next? && BothDone(e.s) && CompleteSession(e.s, xs[1..])
  }

  /** What parent and child have received, exchange by exchange. */
  ghost function Received(k: State, xs: seq<Exchange>): (r: seq<(Option<Message>, Option<Message>)>)
    requires CompleteSession(k, xs)
    decreases |xs|
  {
    if xs == [] then []
    else
      var t := Exec(Start(k, xs[0]), xs[0].schedule).s;
      [(t.parent.got, t.child.got)] + Received(t, xs[1..])
  }

  /** Any number of back-to-back runs delivers every message, since each run leaves no name behind. */
  lemma {:induction false} SessionDelivers(k: State, xs: seq<Exchange>)
    requires k.names == map[] && (forall x :: x in xs ==> x.Valid()) && CompleteSession(k, xs)
    ensures Received(k, xs) == seq(|xs|, i requires 0 <= i < |xs| => (Some(xs[i].toParent), Some(xs[i].toChild)))
    decreases |xs|
  {
    if xs != [] {
      hide Exec;
      assert xs[0] in xs;
      Delivery(Start(k, xs[0]), xs[0].schedule);
      SessionDelivers(Exec(Start(k, xs[0]), xs[0].schedule).s, xs[1..]);
    }
  }
}
