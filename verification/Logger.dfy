/** The thread-safe logger: every thread has its own buffered append stream to one file, and one mutex
    brackets three formatted writes and a flush. The model interleaves any number of threads character by
    character and lets stdio flush any part of any buffer at any moment. */
module Logger {
  import Decimal
  import Stamp
  import opened Basics

  type Tid = nat

  /** A completed call. `start` and `end` count steps of the run; `stamp` is the clock reading in nanoseconds. */
  datatype Entry = Entry(tid: Tid, name: string, text: string, stamp: nat, start: nat, end: nat)

  function TimeOf(nanos: nat): (r: Stamp.Time)
    ensures r.Valid() && r.Nanos() == nanos
  {
    Stamp.Time(nanos / 1_000_000_000, nanos % 1_000_000_000)
  }

  /** What the three formatted writes of one call produce. */
  function Piece(i: nat, name: string, text: string, stamp: nat): (r: string) {
    if i == 0 then Stamp.Text(TimeOf(stamp)) + " "
    else if i == 1 then "[" + name + "] "
    else text
  }

  function Record(name: string, text: string, stamp: nat): (r: string) {
    Piece(0, name, text, stamp) + Piece(1, name, text, stamp) + Piece(2, name, text, stamp)
  }

  function Render(e: Entry): (r: string) {
    Record(e.name, e.text, e.stamp)
  }

  function RenderAll(log: seq<Entry>): (r: string) {
    if log == [] then "" else RenderAll(log[..|log| - 1]) + Render(log[|log| - 1])
  }

  /** Where a thread is: outside, called, clock read, writing piece `i` with `k` characters handed to the
      stream, or flushed and about to unlock. */
  datatype Phase = Idle | Called | Clocked | Writing(i: nat, k: nat) | Flushed

  datatype Thread = Thread(name: string, phase: Phase, start: nat, text: string, stamp: nat, buffer: string,
                           completed: seq<Entry>)

  /** `before` is what the file held when the program opened it for appending. */
  datatype State = State(now: nat, clock: nat, lock: Option<Tid>, before: string, file: string,
                         threads: map<Tid, Thread>, log: seq<Entry>)

  datatype Action =
    | Tick(d: nat)
    | Call(t: Tid, text: string)
    | ReadClock(t: Tid)
    | Lock(t: Tid)
    | Write(t: Tid, n: nat)
    | NextPiece(t: Tid)
    | Flush(t: Tid)
    | Unlock(t: Tid)
    | EarlyFlush(t: Tid, n: nat)

  function PieceOf(th: Thread, i: nat): (r: string) {
    Piece(i, th.name, th.text, th.stamp)
  }

  /** Whether the thread itself is at a point where it can take the action. */
  predicate Ready(th: Thread, a: Action) {
    match a
    case Call(_, _) => th.phase == Idle
    case ReadClock(_) => th.phase == Called
    case Lock(_) => th.phase == Clocked
    case Write(_, n) => th.phase.Writing? && 0 < n && th.phase.k + n <= |PieceOf(th, th.phase.i)|
    case NextPiece(_) => th.phase.Writing? && th.phase.i < 2 && th.phase.k == |PieceOf(th, th.phase.i)|
    case Flush(_) => th.phase.Writing? && th.phase.i == 2 && th.phase.k == |PieceOf(th, 2)|
    case Unlock(_) => th.phase == Flushed
    case EarlyFlush(_, n) => n <= |th.buffer|
    case Tick(_) => false
  }

  predicate Enabled(s: State, a: Action) {
    a.Tick? || (a.t in s.threads && Ready(s.threads[a.t], a) && (a.Lock? ==> s.lock == None))
  }

  /** The entry a call leaves in the history when it returns at step `now`. */
  function EntryOf(t: Tid, th: Thread, now: nat): (r: Entry) {
    Entry(t, th.name, th.text, th.stamp, th.start, now)
  }

  /** The acting thread afterwards. */
  function Local(th: Thread, a: Action, now: nat, clock: nat): (r: Thread)
    requires Ready(th, a)
  {
    match a
    case Call(_, text) => th.(phase := Called, text := text, start := now)
    case ReadClock(_) => th.(phase := Clocked, stamp := clock)
    case Lock(_) => th.(phase := Writing(0, 0))
    case Write(_, n) => th.(phase := Writing(th.phase.i, th.phase.k + n), buffer := th.buffer + Chunk(th, a))
    case NextPiece(_) => th.(phase := Writing(th.phase.i + 1, 0))
    case Flush(_) => th.(phase := Flushed, buffer := "")
    case Unlock(t) => th.(phase := Idle, completed := th.completed + [EntryOf(t, th, now)])
    case EarlyFlush(_, n) => th.(buffer := th.buffer[n..])
  }

  /** The characters a write hands to the stream. */
  function Chunk(th: Thread, a: Action): (r: string)
    requires Ready(th, a)
  {
    if a.Write? then PieceOf(th, th.phase.i)[th.phase.k..th.phase.k + a.n] else ""
  }

  /** The characters that reach the end of the file. */
  function Output(th: Thread, a: Action): (r: string)
    requires Ready(th, a)
  {
    match a
    case Flush(_) => th.buffer
    case EarlyFlush(_, n) => th.buffer[..n]
    case _ => ""
  }

  /** One step of the system; every step advances the step counter. */
  function Step(s: State, a: Action): (r: State)
    requires Enabled(s, a)
  {
    if a.Tick? then s.(now := s.now + 1, clock := s.clock + a.d)
    else
      var th := s.threads[a.t];
      State(s.now + 1, s.clock,
            if a.Lock? then Some(a.t) else if a.Unlock? then None else s.lock,
            s.before, s.file + Output(th, a),
            s.threads[a.t := Local(th, a, s.now, s.clock)],
            if a.Unlock? then s.log + [EntryOf(a.t, th, s.now)] else s.log)
  }

  predicate Init(s: State) {
    && s.lock == None && s.file == s.before && s.log == []
    && forall t :: t in s.threads ==>
         var th := s.threads[t]; th.phase == Idle && th.buffer == "" && th.completed == []
  }

  // ---------- what is in the file ----------

  /** What a thread in the critical section has handed to its stream so far. */
  function Written(th: Thread): (r: string)
    requires WritingOk(th)
  {
    match th.phase
    case Writing(i, k) =>
      (if i > 0 then PieceOf(th, 0) else "") + (if i > 1 then PieceOf(th, 1) else "") + PieceOf(th, i)[..k]
    case Flushed => Record(th.name, th.text, th.stamp)
    case _ => ""
  }

  predicate InSection(th: Thread) {
    th.phase.Writing? || th.phase == Flushed
  }

  /** What the file holds when every completed record is in it and nothing more. */
  function Settled(s: State): (r: string) {
    s.before + RenderAll(s.log)
  }

  ghost predicate HolderInv(s: State, th: Thread) {
    && WritingOk(th)
    && s.file + th.buffer == Settled(s) + Written(th)
    && |th.buffer| <= |Written(th)|
    && (th.phase == Flushed ==> th.buffer == "")
  }

  ghost predicate FileInv(s: State) {
    && (forall t :: t in s.threads && s.lock != Some(t) ==> !InSection(s.threads[t]) && s.threads[t].buffer == "")
    && match s.lock
       case None => s.file == Settled(s)
       case Some(h) => h in s.threads && InSection(s.threads[h]) && HolderInv(s, s.threads[h])
  }

  predicate WritingOk(th: Thread) {
    th.phase.Writing? ==> th.phase.i <= 2 && th.phase.k <= |PieceOf(th, th.phase.i)|
  }

  lemma WriteGrows(th: Thread, n: nat)
    requires th.phase.Writing? && WritingOk(th) && th.phase.k + n <= |PieceOf(th, th.phase.i)|
    ensures var q := th.(phase := Writing(th.phase.i, th.phase.k + n));
      Written(q) == Written(th) + PieceOf(th, th.phase.i)[th.phase.k..th.phase.k + n]
  {
    hide Piece;
    var p, k := PieceOf(th, th.phase.i), th.phase.k;
    assert p[..k + n] == p[..k] + p[k..k + n];
  }

  lemma NextPieceKeeps(th: Thread)
    requires th.phase.Writing? && WritingOk(th) && th.phase.i < 2 && th.phase.k == |PieceOf(th, th.phase.i)|
    ensures Written(th.(phase := Writing(th.phase.i + 1, 0))) == Written(th)
  {
    hide Piece;
    assert PieceOf(th, th.phase.i)[..th.phase.k] == PieceOf(th, th.phase.i);
    assert PieceOf(th, th.phase.i + 1)[..0] == "";
  }

  lemma FlushKeeps(th: Thread)
    requires th.phase.Writing? && WritingOk(th) && th.phase.i == 2 && th.phase.k == |PieceOf(th, 2)|
    ensures Written(th.(phase := Flushed)) == Written(th)
  {
    hide Piece;
    assert PieceOf(th, 2)[..th.phase.k] == PieceOf(th, 2);
  }

  lemma BufferIrrelevant(th: Thread, buffer: string)
    requires WritingOk(th)
    ensures WritingOk(th.(buffer := buffer)) && Written(th.(buffer := buffer)) == Written(th)
  {
    hide Piece;
  }

  /** In the critical section: buffer and file together grow by exactly what is written. */
  lemma LocalStep(th: Thread, a: Action, now: nat, clock: nat)
    requires InSection(th) && WritingOk(th) && |th.buffer| <= |Written(th)|
    requires th.phase == Flushed ==> th.buffer == ""
    requires Ready(th, a) && !a.Unlock?
    ensures var q := Local(th, a, now, clock);
      InSection(q) && WritingOk(q)
      && Output(th, a) + q.buffer == th.buffer + Chunk(th, a)
      && Written(q) == Written(th) + Chunk(th, a)
      && |q.buffer| <= |Written(q)|
      && (q.phase == Flushed ==> q.buffer == "")
  {
    hide Piece, Written;
    var q := Local(th, a, now, clock);
    match a
    case Write(_, n) =>
      WriteGrows(th, n);
      BufferIrrelevant(th.(phase := q.phase), q.buffer);
    case NextPiece(_) =>
      NextPieceKeeps(th);
    case Flush(_) =>
      FlushKeeps(th);
      BufferIrrelevant(th.(phase := q.phase), q.buffer);
    case EarlyFlush(_, _) =>
      BufferIrrelevant(th, q.buffer);
    case _ =>
  }

  lemma Regroup(file: string, buffer: string, done: string, written: string,
                out: string, rest: string, chunk: string)
    requires file + buffer == done + written && out + rest == buffer + chunk
    ensures (file + out) + rest == done + (written + chunk)
  {
    assert (file + out) + rest == file + (out + rest) == file + (buffer + chunk) == (file + buffer) + chunk;
    assert (done + written) + chunk == done + (written + chunk);
  }

  lemma HolderStep(s: State, a: Action)
    requires FileInv(s) && Enabled(s, a) && !a.Tick? && s.lock == Some(a.t) && !a.Unlock?
    ensures var t := Step(s, a);
      t.lock == s.lock && InSection(t.threads[a.t]) && HolderInv(t, t.threads[a.t])
  {
    var th := s.threads[a.t];
    LocalStep(th, a, s.now, s.clock);
    hide Piece, Written, Local, Output, Chunk;
    Regroup(s.file, th.buffer, Settled(s), Written(th),
            Output(th, a), Local(th, a, s.now, s.clock).buffer, Chunk(th, a));
  }

  lemma UnlockStep(s: State, a: Action)
    requires FileInv(s) && Enabled(s, a) && a.Unlock?
    ensures FileInv(Step(s, a))
  {
    hide Piece;
    assert Step(s, a).log[..|s.log|] == s.log;
    var e := EntryOf(a.t, s.threads[a.t], s.now);
    assert s.before + (RenderAll(s.log) + Render(e)) == Settled(s) + Render(e);
  }

  lemma LockStep(s: State, a: Action)
    requires FileInv(s) && Enabled(s, a) && a.Lock?
    ensures FileInv(Step(s, a))
  {
    hide Piece, RenderAll;
    assert Written(Step(s, a).threads[a.t]) == "";
  }

  lemma FileStep(s: State, a: Action)
    requires FileInv(s) && Enabled(s, a)
    ensures FileInv(Step(s, a))
  {
    hide Piece;
    if a.Unlock? {
      UnlockStep(s, a);
    } else if a.Lock? {
      LockStep(s, a);
    } else if !a.Tick? && s.lock == Some(a.t) {
      HolderStep(s, a);
      hide HolderInv, Output, Written, Chunk, RenderAll;
    } else {
      hide Written, Chunk, RenderAll;
    }
  }

  // ---------- when records were made ----------

  /** The entries of one thread, in order. */
  function Only(log: seq<Entry>, t: Tid): (r: seq<Entry>) {
    if log == [] then []
    else
      var init := Only(log[..|log| - 1], t);
      if log[|log| - 1].tid == t then init + [log[|log| - 1]] else init
  }

  /** `e` was over before `start`, so it must not carry a later stamp. */
  predicate Precedes(e: Entry, start: nat, stamp: nat) {
    e.end <= start ==> e.stamp <= stamp
  }

  ghost predicate LogInv(log: seq<Entry>, now: nat, clock: nat) {
    && (forall i :: 0 <= i < |log| ==> log[i].start < log[i].end < now && log[i].stamp <= clock)
    && (forall i, j :: 0 <= i < j < |log| ==> log[i].end < log[j].end)
    && (forall i, j :: 0 <= i < j < |log| ==> Precedes(log[i], log[j].start, log[j].stamp))
    && (forall i, j :: 0 <= i < j < |log| && log[i].tid == log[j].tid ==> log[i].end <= log[j].start)
  }

  ghost predicate CallInv(th: Thread, t: Tid, log: seq<Entry>, now: nat, clock: nat) {
    && th.completed == Only(log, t)
    && (th.phase != Idle ==>
          th.start < now && forall i :: 0 <= i < |log| && log[i].tid == t ==> log[i].end <= th.start)
    && (th.phase != Idle && th.phase != Called ==>
          th.stamp <= clock && forall i :: 0 <= i < |log| ==> Precedes(log[i], th.start, th.stamp))
  }

  ghost predicate TimeInv(s: State) {
    && LogInv(s.log, s.now, s.clock)
    && (forall t :: t in s.threads ==> CallInv(s.threads[t], t, s.log, s.now, s.clock))
    && NamesInv(s)
  }

  ghost predicate NamesInv(s: State) {
    forall i :: 0 <= i < |s.log| ==> s.log[i].tid in s.threads && s.log[i].name == s.threads[s.log[i].tid].name
  }

  lemma NamesStep(s: State, a: Action)
    requires NamesInv(s) && Enabled(s, a)
    ensures NamesInv(Step(s, a))
  {
    hide Piece, Output, Chunk;
  }

  lemma LogGrows(log: seq<Entry>, e: Entry, now: nat, clock: nat)
    requires LogInv(log, now, clock) && e.start < e.end == now && e.stamp <= clock
    requires forall i :: 0 <= i < |log| ==> Precedes(log[i], e.start, e.stamp)
    requires forall i :: 0 <= i < |log| && log[i].tid == e.tid ==> log[i].end <= e.start
    ensures LogInv(log + [e], now + 1, clock)
    ensures forall t :: Only(log + [e], t) == if t == e.tid then Only(log, t) + [e] else Only(log, t)
  {
    assert (log + [e])[..|log|] == log;
  }

  lemma OthersKept(th: Thread, t: Tid, log: seq<Entry>, e: Entry, now: nat, clock: nat)
    requires CallInv(th, t, log, now, clock) && t != e.tid && e.end == now
    requires Only(log + [e], t) == Only(log, t)
    ensures CallInv(th, t, log + [e], now + 1, clock)
  {}

  lemma LogAges(log: seq<Entry>, now: nat, clock: nat, d: nat)
    requires LogInv(log, now, clock)
    ensures LogInv(log, now + 1, clock + d)
  {}

  lemma CallAges(th: Thread, t: Tid, log: seq<Entry>, now: nat, clock: nat, d: nat)
    requires CallInv(th, t, log, now, clock)
    ensures CallInv(th, t, log, now + 1, clock + d)
  {}

  /** The acting thread's own timing facts, for every action but the return. */
  lemma CallStep(th: Thread, a: Action, log: seq<Entry>, now: nat, clock: nat)
    requires Ready(th, a) && !a.Unlock? && LogInv(log, now, clock) && CallInv(th, a.t, log, now, clock)
    ensures CallInv(Local(th, a, now, clock), a.t, log, now + 1, clock)
  {
    hide Piece;
  }

  /** A return: the call's entry joins the history and nobody else is affected. */
  lemma ReturnStep(s: State, a: Action)
    requires TimeInv(s) && Enabled(s, a) && a.Unlock?
    ensures TimeInv(Step(s, a))
  {
    NamesStep(s, a);
    hide Piece, Output, NamesInv;
    var u := Step(s, a);
    var th := s.threads[a.t];
    assert CallInv(th, a.t, s.log, s.now, s.clock);
    var e := EntryOf(a.t, th, s.now);
    LogGrows(s.log, e, s.now, s.clock);
    assert Only(u.log, a.t) == Only(s.log, a.t) + [e];
    forall t | t in u.threads ensures CallInv(u.threads[t], t, u.log, u.now, u.clock) {
      if t != a.t {
        assert Only(u.log, t) == Only(s.log, t);
        OthersKept(s.threads[t], t, s.log, e, s.now, s.clock);
      }
    }
    hide LogInv, CallInv;
  }

  lemma TickStep(s: State, d: nat)
    requires TimeInv(s)
    ensures TimeInv(Step(s, Tick(d)))
  {
    hide LogInv, CallInv;
    LogAges(s.log, s.now, s.clock, d);
    forall t | t in s.threads ensures CallInv(s.threads[t], t, s.log, s.now + 1, s.clock + d) {
      CallAges(s.threads[t], t, s.log, s.now, s.clock, d);
    }
  }

  lemma InsideStep(s: State, a: Action)
    requires TimeInv(s) && Enabled(s, a) && !a.Tick? && !a.Unlock?
    ensures TimeInv(Step(s, a))
  {
    NamesStep(s, a);
    LogAges(s.log, s.now, s.clock, 0);
    CallStep(s.threads[a.t], a, s.log, s.now, s.clock);
    hide Local, Output, Ready, LogInv, CallInv, NamesInv;
    forall t | t in s.threads && t != a.t ensures CallInv(s.threads[t], t, s.log, s.now + 1, s.clock) {
      CallAges(s.threads[t], t, s.log, s.now, s.clock, 0);
    }
  }

  lemma TimeStep(s: State, a: Action)
    requires TimeInv(s) && Enabled(s, a)
    ensures TimeInv(Step(s, a))
  {
    hide TimeInv, Step;
    match a
    case Tick(d) => TickStep(s, d);
    case Unlock(_) => ReturnStep(s, a);
    case _ => InsideStep(s, a);
  }

  // ---------- every run ----------

  ghost predicate Inv(s: State) {
    FileInv(s) && TimeInv(s)
  }

  /** `s` followed by the given actions, each enabled when its turn comes, ends in `t`. */
  ghost predicate Run(s: State, actions: seq<Action>, t: State)
    decreases |actions|
  {
    if actions == [] then s == t
    else Enabled(s, actions[0]) && Run(Step(s, actions[0]), actions[1..], t)
  }

  lemma StepInv(s: State, a: Action)
    requires Inv(s) && Enabled(s, a)
    ensures Inv(Step(s, a)) && Step(s, a).before == s.before && Step(s, a).threads.Keys == s.threads.Keys
  {
    FileStep(s, a);
    TimeStep(s, a);
    hide FileInv, TimeInv, Local, Output, Ready;
  }

  lemma {:induction false} RunInv(s: State, actions: seq<Action>, t: State)
    requires Inv(s) && Run(s, actions, t)
    ensures Inv(t) && t.before == s.before && t.threads.Keys == s.threads.Keys
    decreases |actions|
  {
    if actions != [] {
      hide Inv, Step, Enabled;
      StepInv(s, actions[0]);
      RunInv(Step(s, actions[0]), actions[1..], t);
    }
  }

  lemma InitInv(s: State)
    requires Init(s)
    ensures Inv(s)
  {}

  /** In every run, at every moment: the file is what it held before, followed by complete records and by at
      most a prefix of the mutex holder's record; with the mutex free nothing is left in any buffer. */
  lemma FileShape(s: State, actions: seq<Action>, t: State)
    requires Init(s) && Run(s, actions, t)
    ensures t.lock == None ==>
      t.file == s.file + RenderAll(t.log) && forall x :: x in t.threads ==> t.threads[x].buffer == ""
    ensures t.lock.Some? ==> t.lock.value in t.threads && s.file + RenderAll(t.log) <= t.file
    ensures t.lock.Some? ==>
      var th := t.threads[t.lock.value]; t.file[|s.file + RenderAll(t.log)|..] <= Record(th.name, th.text, th.stamp)
  {
    InitInv(s);
    RunInv(s, actions, t);
    hide Run;
    if t.lock.Some? {
      var th := t.threads[t.lock.value];
      WrittenIsPrefix(th);
      hide Record, Written, Piece;
      PrefixSplit(t.file, th.buffer, Settled(t), Written(th));
    }
  }

  lemma WrittenIsPrefix(th: Thread)
    requires InSection(th) && WritingOk(th)
    ensures Written(th) <= Record(th.name, th.text, th.stamp)
  {
    hide Piece;
    var p0, p1, p2 := PieceOf(th, 0), PieceOf(th, 1), PieceOf(th, 2);
    assert p0 + p1 + p2 == p0 + (p1 + p2);
  }

  lemma PrefixSplit(file: string, buffer: string, done: string, written: string)
    requires file + buffer == done + written && |buffer| <= |written|
    ensures done <= file && file[|done|..] <= written
  {
    assert file == (file + buffer)[..|file|] == (done + written)[..|file|];
    assert (done + written)[..|file|] == done + written[..|file| - |done|];
  }

  // ---------- the log against the schedule ----------

  function Texts(log: seq<Entry>): (r: seq<string>) {
    seq(|log|, i requires 0 <= i < |log| => log[i].text)
  }

  function Stamps(log: seq<Entry>): (r: seq<nat>) {
    seq(|log|, i requires 0 <= i < |log| => log[i].stamp)
  }

  function Tids(log: seq<Entry>): (r: seq<Tid>) {
    seq(|log|, i requires 0 <= i < |log| => log[i].tid)
  }

  /** The texts of the calls that thread `x` makes in a schedule. */
  function Calls(actions: seq<Action>, x: Tid): (r: seq<string>) {
    if actions == [] then []
    else (if actions[0].Call? && actions[0].t == x then [actions[0].text] else []) + Calls(actions[1..], x)
  }

  function ClockAfter(a: Action, clock: nat): (r: nat) {
    if a.Tick? then clock + a.d else clock
  }

  /** The times that thread `x` reads off the clock in a schedule. */
  function Readings(clock: nat, actions: seq<Action>, x: Tid): (r: seq<nat>)
    decreases |actions|
  {
    if actions == [] then []
    else (if actions[0].ReadClock? && actions[0].t == x then [clock] else [])
         + Readings(ClockAfter(actions[0], clock), actions[1..], x)
  }

  /** The threads that take the mutex in a schedule, in order. */
  function Locks(actions: seq<Action>): (r: seq<Tid>) {
    if actions == [] then []
    else (if actions[0].Lock? then [actions[0].t] else []) + Locks(actions[1..])
  }

  /** The text of a call under way, and its time once it is known. */
  function Pending(th: Thread): (r: seq<string>) {
    if th.phase == Idle then [] else [th.text]
  }

  function PendingStamp(th: Thread): (r: seq<nat>) {
    if th.phase == Idle || th.phase == Called then [] else [th.stamp]
  }

  function Holder(s: State): (r: seq<Tid>) {
    if s.lock.Some? then [s.lock.value] else []
  }

  /** Whose record is in the log or being written. */
  function Taken(s: State): (r: seq<Tid>) {
    Tids(s.log) + Holder(s)
  }

  /** The texts of all calls a thread has made, and the times it has read for them. */
  function Made(th: Thread): (r: seq<string>) {
    Texts(th.completed) + Pending(th)
  }

  function Read(th: Thread): (r: seq<nat>) {
    Stamps(th.completed) + PendingStamp(th)
  }

  lemma LocalMade(th: Thread, a: Action, now: nat, clock: nat)
    requires Ready(th, a)
    ensures var q := Local(th, a, now, clock);
      Made(q) == Made(th) + (if a.Call? then [a.text] else [])
      && Read(q) == Read(th) + (if a.ReadClock? then [clock] else [])
      && q.name == th.name
  {
    hide Piece, Chunk;
    if a.Unlock? {
      var e := EntryOf(a.t, th, now);
      assert Texts(th.completed + [e]) == Texts(th.completed) + [e.text];
      assert Stamps(th.completed + [e]) == Stamps(th.completed) + [e.stamp];
    }
  }

  lemma MadeStep(s: State, a: Action, x: Tid)
    requires Enabled(s, a) && x in s.threads
    ensures var u := Step(s, a);
      x in u.threads && u.threads[x].name == s.threads[x].name && u.clock == ClockAfter(a, s.clock)
      && Made(u.threads[x]) == Made(s.threads[x]) + (if a.Call? && a.t == x then [a.text] else [])
      && Read(u.threads[x]) == Read(s.threads[x]) + (if a.ReadClock? && a.t == x then [s.clock] else [])
  {
    hide Local, Output, Made, Read, Ready, EntryOf;
    if !a.Tick? && a.t == x {
      LocalMade(s.threads[x], a, s.now, s.clock);
    } else {
      assert Made(s.threads[x]) + [] == Made(s.threads[x]) && Read(s.threads[x]) + [] == Read(s.threads[x]);
    }
  }

  lemma {:induction false} MadeRun(s: State, actions: seq<Action>, t: State, x: Tid)
    requires Run(s, actions, t) && x in s.threads
    ensures x in t.threads && t.threads[x].name == s.threads[x].name
    ensures Made(t.threads[x]) == Made(s.threads[x]) + Calls(actions, x)
    ensures Read(t.threads[x]) == Read(s.threads[x]) + Readings(s.clock, actions, x)
    decreases |actions|
  {
    hide Enabled, Step, Made, Read;
    if actions != [] {
      MadeStep(s, actions[0], x);
      MadeRun(Step(s, actions[0]), actions[1..], t, x);
    }
  }

  /** In every run the records of a thread, with its call under way if there is one, are exactly the calls it
      has made: each once, in the order made, under its name, with its text and the time it read. */
  lemma ExactlyOnce(s: State, actions: seq<Action>, t: State, x: Tid)
    requires Init(s) && Run(s, actions, t) && x in s.threads
    ensures x in t.threads
    ensures Texts(Only(t.log, x)) + Pending(t.threads[x]) == Calls(actions, x)
    ensures Stamps(Only(t.log, x)) + PendingStamp(t.threads[x]) == Readings(s.clock, actions, x)
    ensures forall e :: e in t.log && e.tid == x ==> e.name == s.threads[x].name
  {
    MadeRun(s, actions, t, x);
    InitInv(s);
    RunInv(s, actions, t);
    hide Run, FileInv, Calls, Readings, Only;
  }

  /** The entry's start and end are the places in the schedule of its call and of its unlock. */
  ghost predicate EntryAt(done: seq<Action>, begin: nat, e: Entry) {
    && begin <= e.start < e.end < begin + |done|
    && done[e.start - begin] == Call(e.tid, e.text) && done[e.end - begin] == Unlock(e.tid)
  }

  ghost predicate CallAt(done: seq<Action>, begin: nat, th: Thread, t: Tid) {
    th.phase != Idle ==>
      begin <= th.start < begin + |done| && done[th.start - begin] == Call(t, th.text)
  }

  ghost predicate Placed(s: State, done: seq<Action>, begin: nat) {
    && s.now == begin + |done|
    && (forall i :: 0 <= i < |s.log| ==> EntryAt(done, begin, s.log[i]))
    && (forall x :: x in s.threads ==> CallAt(done, begin, s.threads[x], x))
  }

  lemma LocalPlaced(th: Thread, a: Action, done: seq<Action>, begin: nat, now: nat, clock: nat)
    requires Ready(th, a) && CallAt(done, begin, th, a.t) && now == begin + |done|
    ensures CallAt(done + [a], begin, Local(th, a, now, clock), a.t)
    ensures a.Unlock? ==> EntryAt(done + [a], begin, EntryOf(a.t, th, now))
  {
    hide Piece, Chunk;
  }

  lemma PlacedStep(s: State, a: Action, done: seq<Action>, begin: nat)
    requires Placed(s, done, begin) && Enabled(s, a)
    ensures Placed(Step(s, a), done + [a], begin)
  {
    hide Ready, Local, Output, EntryOf;
    if !a.Tick? {
      LocalPlaced(s.threads[a.t], a, done, begin, s.now, s.clock);
    }
  }

  lemma {:induction false} PlacedRun(s: State, done: seq<Action>, begin: nat, actions: seq<Action>, t: State)
    requires Placed(s, done, begin) && Run(s, actions, t)
    ensures Placed(t, done + actions, begin)
    decreases |actions|
  {
    hide Placed, Step, Enabled;
    if actions == [] {
      assert done + actions == done;
    } else {
      PlacedStep(s, actions[0], done, begin);
      PlacedRun(Step(s, actions[0]), done + [actions[0]], begin, actions[1..], t);
      assert done + [actions[0]] + actions[1..] == done + actions;
    }
  }

  /** Each record's start and end are where the schedule calls the logger with its text and where it unlocks, so
      the order results about starts and ends are about the schedule. */
  lemma EntriesAreCalls(s: State, actions: seq<Action>, t: State, i: nat)
    requires Init(s) && Run(s, actions, t) && i < |t.log|
    ensures var e := t.log[i];
      && s.now <= e.start < e.end < s.now + |actions|
      && actions[e.start - s.now] == Call(e.tid, e.text) && actions[e.end - s.now] == Unlock(e.tid)
  {
    assert Placed(s, [], s.now);
    hide Run, Init;
    PlacedRun(s, [], s.now, actions, t);
    assert [] + actions == actions;
    assert EntryAt(actions, s.now, t.log[i]);
  }

  lemma LockStepOrder(s: State, a: Action)
    requires Inv(s) && Enabled(s, a)
    ensures Taken(Step(s, a)) == Taken(s) + (if a.Lock? then [a.t] else [])
  {
    hide Local, Output, HolderInv, Piece, RenderAll, Written, TimeInv;
    if a.Unlock? {
      assert s.lock == Some(a.t);
    }
  }

  lemma {:induction false} LockRunOrder(s: State, actions: seq<Action>, t: State)
    requires Inv(s) && Run(s, actions, t)
    ensures Taken(t) == Taken(s) + Locks(actions)
    decreases |actions|
  {
    hide Taken, Enabled, Step, Inv;
    if actions != [] {
      LockStepOrder(s, actions[0]);
      StepInv(s, actions[0]);
      LockRunOrder(Step(s, actions[0]), actions[1..], t);
    }
  }

  /** The records, with the one being written, are in the order in which the mutex was taken. */
  lemma LockOrder(s: State, actions: seq<Action>, t: State)
    requires Init(s) && Run(s, actions, t)
    ensures Tids(t.log) + Holder(t) == Locks(actions)
  {
    InitInv(s);
    hide Inv, Run, Locks;
    LockRunOrder(s, actions, t);
    assert Taken(s) == [];
    assert [] + Locks(actions) == Locks(actions);
  }

  lemma RunLog(s: State, actions: seq<Action>, t: State)
    requires Init(s) && Run(s, actions, t)
    ensures LogInv(t.log, t.now, t.clock)
  {
    InitInv(s);
    RunInv(s, actions, t);
    hide LogInv, FileInv;
  }

  lemma LogOrder(log: seq<Entry>, now: nat, clock: nat, i: nat, j: nat)
    requires LogInv(log, now, clock) && i < |log| && j < |log| && log[i].end <= log[j].start
    ensures i < j && log[i].stamp <= log[j].stamp
  {
    assert i < j ==> Precedes(log[i], log[j].start, log[j].stamp);
  }

  /** Log order respects real time: a call that returned before another started comes first, with a stamp
      that is no later. */
  lemma RealTimeOrder(s: State, actions: seq<Action>, t: State, i: nat, j: nat)
    requires Init(s) && Run(s, actions, t) && i < |t.log| && j < |t.log|
    requires t.log[i].end <= t.log[j].start
    ensures i < j && t.log[i].stamp <= t.log[j].stamp
  {
    RunLog(s, actions, t);
    hide LogInv;
    LogOrder(t.log, t.now, t.clock, i, j);
  }

  /** The records of one thread carry non-decreasing stamps. */
  lemma ThreadOrder(s: State, actions: seq<Action>, t: State, i: nat, j: nat)
    requires Init(s) && Run(s, actions, t) && i < j < |t.log| && t.log[i].tid == t.log[j].tid
    ensures t.log[i].stamp <= t.log[j].stamp && t.log[i].end <= t.log[j].start
  {
    RunLog(s, actions, t);
    LogOrder(t.log, t.now, t.clock, i, j);
  }

  /** A record can only carry an earlier stamp than the record before it if the two calls overlapped. */
  lemma OutOfOrderMeansOverlap(s: State, actions: seq<Action>, t: State, i: nat, j: nat)
    requires Init(s) && Run(s, actions, t) && i < j < |t.log| && t.log[i].stamp > t.log[j].stamp
    ensures t.log[i].tid != t.log[j].tid
    ensures t.log[j].start < t.log[i].end && t.log[i].start < t.log[j].end
  {
    RunLog(s, actions, t);
    if t.log[i].end <= t.log[j].start {
      LogOrder(t.log, t.now, t.clock, i, j);
    }
    assert t.log[i].end < t.log[j].end;
  }

  // ---------- the mutex is always released ----------

  lemma {:induction false} RunConcat(s: State, a: seq<Action>, t: State, b: seq<Action>, u: State)
    requires Run(s, a, t) && Run(t, b, u)
    ensures Run(s, a + b, u)
    decreases |a|
  {
    if a == [] {
      assert a + b == b;
    } else {
      RunConcat(Step(s, a[0]), a[1..], t, b, u);
      assert (a + b)[0] == a[0] && (a + b)[1..] == a[1..] + b;
    }
  }

  lemma RunSnoc(s: State, a: seq<Action>, t: State, x: Action)
    requires Run(s, a, t) && Enabled(t, x)
    ensures Run(s, a + [x], Step(t, x))
  {
    assert Run(Step(t, x), [], Step(t, x));
    assert [x][1..] == [];
    RunConcat(s, a, t, [x], Step(t, x));
  }

  /** Only `t` has moved, inside its critical section. */
  predicate SectionMove(s: State, u: State, t: Tid) {
    && t in s.threads && u.threads.Keys == s.threads.Keys && u.lock == s.lock && u.log == s.log && u.clock == s.clock
    && (forall x :: x in s.threads && x != t ==> u.threads[x] == s.threads[x])
    && var th, q := s.threads[t], u.threads[t];
       q.name == th.name && q.text == th.text && q.stamp == th.stamp && q.start == th.start
  }

  /** The rest of the current piece can be written. */
  lemma WriteRest(s: State, t: Tid) returns (a: seq<Action>, u: State)
    requires t in s.threads && s.threads[t].phase.Writing? && WritingOk(s.threads[t])
    ensures Run(s, a, u) && SectionMove(s, u, t)
    ensures u.threads[t].phase == Writing(s.threads[t].phase.i, |PieceOf(s.threads[t], s.threads[t].phase.i)|)
  {
    hide Piece;
    var th := s.threads[t];
    var n := |PieceOf(th, th.phase.i)| - th.phase.k;
    a, u := [], s;
    if n > 0 {
      a, u := [Write(t, n)], Step(s, Write(t, n));
      RunSnoc(s, [], s, Write(t, n));
      assert [] + [Write(t, n)] == [Write(t, n)];
    }
  }

  /** All pieces can be written to their end. */
  lemma WriteAll(s: State, t: Tid) returns (a: seq<Action>, u: State)
    requires t in s.threads && s.threads[t].phase.Writing? && WritingOk(s.threads[t])
    ensures Run(s, a, u) && SectionMove(s, u, t)
    ensures u.threads[t].phase == Writing(2, |PieceOf(s.threads[t], 2)|)
    decreases 2 - s.threads[t].phase.i
  {
    hide Piece;
    a, u := WriteRest(s, t);
    if s.threads[t].phase.i < 2 {
      var v := Step(u, NextPiece(t));
      RunSnoc(s, a, u, NextPiece(t));
      var b, w := WriteAll(v, t);
      RunConcat(s, a + [NextPiece(t)], v, b, w);
      a, u := a + [NextPiece(t)] + b, w;
    }
  }

  /** Whoever holds the mutex can run its call to the end: the record is completed and the mutex freed. */
  lemma HolderFinishes(s: State, t: Tid) returns (a: seq<Action>, u: State)
    requires FileInv(s) && s.lock == Some(t)
    ensures Run(s, a, u) && u.lock == None && u.clock == s.clock && u.threads.Keys == s.threads.Keys
    ensures forall x :: x in s.threads && x != t ==> u.threads[x] == s.threads[x]
    ensures |u.log| == |s.log| + 1 && u.log[..|s.log|] == s.log
    ensures var e, th := u.log[|s.log|], s.threads[t];
      e.tid == t && e.text == th.text && e.stamp == th.stamp && e.start == th.start
  {
    hide Piece, RenderAll, Written;
    a, u := [], s;
    if s.threads[t].phase.Writing? {
      a, u := WriteAll(s, t);
      RunSnoc(s, a, u, Flush(t));
      a, u := a + [Flush(t)], Step(u, Flush(t));
    }
    RunSnoc(s, a, u, Unlock(t));
    a, u := a + [Unlock(t)], Step(u, Unlock(t));
  }

  /** With the mutex free, a thread that has read the clock can complete its call next. */
  lemma TakeTurn(s: State, t: Tid) returns (a: seq<Action>, u: State)
    requires Inv(s) && s.lock == None && t in s.threads && s.threads[t].phase == Clocked
    ensures Run(s, a, u) && Inv(u) && u.lock == None && u.threads.Keys == s.threads.Keys
    ensures forall x :: x in s.threads && x != t ==> u.threads[x] == s.threads[x]
    ensures |u.log| == |s.log| + 1 && u.log[..|s.log|] == s.log && u.log[|s.log|].stamp == s.threads[t].stamp
  {
    var v := LockFree(s, t);
    var b, w := HolderFinishes(v, t);
    hide Run, Inv, FileInv;
    RunConcat(s, [Lock(t)], v, b, w);
    a, u := [Lock(t)] + b, w;
    RunInv(s, a, u);
  }

  lemma LockFree(s: State, t: Tid) returns (v: State)
    requires Inv(s) && s.lock == None && t in s.threads && s.threads[t].phase == Clocked
    ensures Run(s, [Lock(t)], v) && FileInv(v) && v.lock == Some(t) && v.log == s.log
    ensures v.threads.Keys == s.threads.Keys && v.threads[t].stamp == s.threads[t].stamp
    ensures forall x :: x in s.threads && x != t ==> v.threads[x] == s.threads[x]
  {
    v := Step(s, Lock(t));
    FileStep(s, Lock(t));
    assert Run(v, [], v) && [Lock(t)][1..] == [];
    hide FileInv, TimeInv;
  }

  /** How far a thread is from the end of its call, in steps that write whole pieces. */
  function PhaseRank(th: Thread): (r: nat)
    ensures r < 10 && (r == 0 <==> th.phase == Idle)
  {
    match th.phase
    case Idle => 0
    case Flushed => 1
    case Writing(i, k) =>
      (if i == 0 then 6 else if i == 1 then 4 else 2) + (if k < |PieceOf(th, i)| then 1 else 0)
    case Clocked => 8
    case Called => 9
  }

  /** A step that takes its thread on; a write hands over the rest of its piece. */
  predicate Forward(th: Thread, a: Action) {
    Ready(th, a) && !a.EarlyFlush? && !a.Call? && (a.Write? ==> th.phase.k + a.n == |PieceOf(th, th.phase.i)|)
  }

  lemma ForwardRank(th: Thread, a: Action, now: nat, clock: nat)
    requires WritingOk(th) && Forward(th, a)
    ensures PhaseRank(Local(th, a, now, clock)) < PhaseRank(th)
  {
    hide Piece;
  }

  /** The system never deadlocks: unless every thread is outside the logger, some thread can move on. */
  lemma NeverStuck(s: State, x: Tid)
    requires FileInv(s) && x in s.threads && s.threads[x].phase != Idle
    ensures exists a: Action :: Enabled(s, a) && !a.Tick? && Forward(s.threads[a.t], a)
  {
    hide Piece, RenderAll, Written;
    match s.lock
    case Some(h) =>
      var th := s.threads[h];
      var a := if th.phase == Flushed then Unlock(h)
               else if th.phase.k < |PieceOf(th, th.phase.i)| then Write(h, |PieceOf(th, th.phase.i)| - th.phase.k)
               else if th.phase.i < 2 then NextPiece(h) else Flush(h);
      assert Enabled(s, a) && Forward(th, a);
    case None =>
      var a := if s.threads[x].phase == Called then ReadClock(x) else Lock(x);
      assert Enabled(s, a) && Forward(s.threads[x], a);
  }

  // ---------- overlapping calls may swap ----------

  ghost predicate InStampOrder(log: seq<Entry>) {
    forall i, j :: 0 <= i < j < |log| ==> log[i].stamp <= log[j].stamp
  }

  /** A thread outside the logger can make a call and read the clock at once. */
  lemma BeginCall(s: State, x: Tid) returns (a: seq<Action>, u: State)
    requires x in s.threads && s.threads[x].phase == Idle
    ensures Run(s, a, u) && u.lock == s.lock && u.log == s.log && u.clock == s.clock
    ensures u.threads.Keys == s.threads.Keys && u.threads[x].phase == Clocked && u.threads[x].stamp == s.clock
    ensures forall y :: y in s.threads && y != x ==> u.threads[y] == s.threads[y]
  {
    var v := Step(s, Call(x, ""));
    u := Step(v, ReadClock(x));
    assert Run(s, [], s);
    RunSnoc(s, [], s, Call(x, ""));
    RunSnoc(s, [] + [Call(x, "")], v, ReadClock(x));
    a := [] + [Call(x, "")] + [ReadClock(x)];
  }

  /** Thread `x` reads the clock, a nanosecond passes, thread `y` reads it. */
  lemma SwapStart(s: State, x: Tid, y: Tid) returns (a: seq<Action>, u: State)
    requires Init(s) && x in s.threads && y in s.threads && x != y
    ensures Run(s, a, u) && u.lock == None && u.log == [] && u.threads.Keys == s.threads.Keys
    ensures u.threads[x].phase == Clocked && u.threads[x].stamp == s.clock
    ensures u.threads[y].phase == Clocked && u.threads[y].stamp == s.clock + 1
  {
    var b, v := BeginCall(s, x);
    var w := Step(v, Tick(1));
    RunSnoc(s, b, v, Tick(1));
    assert w.threads == v.threads && w.lock == None && w.log == [];
    hide Run, Step, Init;
    var c, z := BeginCall(w, y);
    RunConcat(s, b + [Tick(1)], w, c, z);
    a, u := b + [Tick(1)] + c, z;
  }

  /** From any start, any two threads can leave the later stamp first: one reads the clock, the other reads it
      a nanosecond later but takes the mutex first. */
  lemma StampsCanSwap(s: State, x: Tid, y: Tid) returns (actions: seq<Action>, t: State)
    requires Init(s) && x in s.threads && y in s.threads && x != y
    ensures Run(s, actions, t)
    ensures |t.log| == 2 && t.log[0].stamp == s.clock + 1 && t.log[1].stamp == s.clock
  {
    InitInv(s);
    var a, u := SwapStart(s, x, y);
    RunInv(s, a, u);
    hide Inv, Run, Init;
    var b, v := TakeTurn(u, y);
    var c, w := TakeTurn(v, x);
    RunConcat(s, a, u, b, v);
    RunConcat(s, a + b, v, c, w);
    assert w.log[0] == w.log[..1][0];
    actions, t := a + b + c, w;
  }

  lemma TwoTids(threads: map<Tid, Thread>, x: Tid, y: Tid)
    requires x in threads && y in threads && x != y
    ensures |threads| >= 2
  {
    var rest := threads.Keys - {x};
    assert y in rest && |rest| == |threads.Keys| - 1;
  }

  lemma SoleThreadOrder(s: State, actions: seq<Action>, t: State)
    requires Init(s) && Run(s, actions, t) && |s.threads| <= 1
    ensures InStampOrder(t.log)
  {
    InitInv(s);
    RunInv(s, actions, t);
    assert NamesInv(t);
    hide Run, Init, Inv;
    forall i, j | 0 <= i < j < |t.log| ensures t.log[i].stamp <= t.log[j].stamp {
      if t.log[i].tid != t.log[j].tid {
        TwoTids(s.threads, t.log[i].tid, t.log[j].tid);
      }
      ThreadOrder(s, actions, t, i, j);
    }
  }

  /** The log is sure to be in stamp order if and only if there is at most one thread to write it. */
  lemma StampOrderIffOneThread(s: State)
    requires Init(s)
    ensures (forall actions, t :: Run(s, actions, t) ==> InStampOrder(t.log)) <==> |s.threads| <= 1
  {
    if |s.threads| <= 1 {
      forall actions, t | Run(s, actions, t) ensures InStampOrder(t.log) {
        SoleThreadOrder(s, actions, t);
      }
    } else {
      var x :| x in s.threads;
      var rest := s.threads.Keys - {x};
      assert |rest| == |s.threads.Keys| - 1;
      var y :| y in rest;
      var actions, t := StampsCanSwap(s, x, y);
      assert !InStampOrder(t.log);
    }
  }

  // ---------- the file as lines ----------

  /** Index of the first newline, the length if there is none. */
  function LineEnd(text: string): (k: nat)
    ensures k <= |text|
    ensures forall i :: 0 <= i < k ==> text[i] != '\n'
    ensures k < |text| ==> text[k] == '\n'
  {
    if text == "" || text[0] == '\n' then 0 else 1 + LineEnd(text[1..])
  }

  /** The complete lines of a text, newlines included. */
  function Lines(text: string): (r: seq<string>)
    decreases |text|
  {
    var k := LineEnd(text);
    if k == |text| then [] else [text[..k + 1]] + Lines(text[k + 1..])
  }

  predicate OneLine(r: string) {
    r != "" && r[|r| - 1] == '\n' && forall i :: 0 <= i < |r| - 1 ==> r[i] != '\n'
  }

  predicate WholeLines(text: string) {
    text == "" || text[|text| - 1] == '\n'
  }

  lemma LinesCons(first: string, rest: string)
    requires OneLine(first)
    ensures Lines(first + rest) == [first] + Lines(rest)
  {
    var text := first + rest;
    assert text[|first| - 1] == '\n';
    assert LineEnd(text) == |first| - 1;
    assert text[..|first|] == first && text[|first|..] == rest;
  }

  lemma {:induction false} LinesAppend(text: string, r: string)
    requires WholeLines(text) && OneLine(r)
    ensures Lines(text + r) == Lines(text) + [r] && WholeLines(text + r)
    decreases |text|
  {
    hide Lines;
    if text == "" {
      LinesCons(r, "");
      NoLines();
      assert r + "" == r == text + r;
    } else {
      var k := LineEnd(text);
      var first, tail := text[..k + 1], text[k + 1..];
      assert text == first + tail && text + r == first + (tail + r);
      LinesCons(first, tail);
      LinesCons(first, tail + r);
      LinesAppend(tail, r);
    }
  }

  lemma NoLines()
    ensures Lines("") == []
  {}

  function Renders(log: seq<Entry>): (r: seq<string>) {
    if log == [] then [] else Renders(log[..|log| - 1]) + [Render(log[|log| - 1])]
  }

  lemma {:induction false} LinesOfRecords(before: string, log: seq<Entry>)
    requires WholeLines(before) && forall e :: e in log ==> OneLine(Render(e))
    ensures Lines(before + RenderAll(log)) == Lines(before) + Renders(log) && WholeLines(before + RenderAll(log))
  {
    hide Lines, WholeLines, OneLine, Render;
    if log != [] {
      var init, e := log[..|log| - 1], log[|log| - 1];
      LinesOfRecords(before, init);
      LinesAppend(before + RenderAll(init), Render(e));
      assert before + RenderAll(init) + Render(e) == before + RenderAll(log);
    } else {
      assert before + "" == before;
    }
  }

  /** A message of one line gives a record of one line, from which the time can be read back. */
  lemma RecordIsLine(name: string, text: string, stamp: nat)
    requires '\n' !in name && OneLine(text)
    ensures OneLine(Record(name, text, stamp))
    ensures Stamp.Parse(Record(name, text, stamp)).Nanos() == stamp
  {
    RecordReads(name, text, stamp);
    hide Stamp.Parse;
    var r, t := Record(name, text, stamp), Stamp.Text(TimeOf(stamp));
    assert '\n' !in t;
    hide Stamp.Text;
    var front := t + " " + ("[" + name + "] ");
    assert r == front + text;
    hide Record;
    FrontLine(t, name);
    LongerLine(front, text);
  }

  lemma FrontLine(t: string, name: string)
    requires '\n' !in t && '\n' !in name
    ensures '\n' !in t + " " + ("[" + name + "] ")
  {}

  lemma LongerLine(front: string, text: string)
    requires '\n' !in front && OneLine(text)
    ensures OneLine(front + text)
  {}

  /** A record is its time in the fixed format, the name in brackets and the message; the time read back from it
      is the clock's, to the nanosecond. */
  lemma RecordReads(name: string, text: string, stamp: nat)
    ensures var r := Record(name, text, stamp);
      var time := Stamp.Parse(r);
      time.Valid() && time.Nanos() == stamp && r == Stamp.Text(time) + " [" + name + "] " + text
  {
    var t := Stamp.Text(TimeOf(stamp));
    var rest := "[" + name + "] " + text;
    assert Record(name, text, stamp) == t + " " + rest;
    hide Stamp.Text, Stamp.Parse;
    Stamp.ReadBack(TimeOf(stamp), rest);
    assert t + " " + rest == t + " [" + name + "] " + text;
  }

  lemma StampFront(e: Entry)
    requires e.stamp < 10_000_000_000_000_000
    ensures |Render(e)| >= 17 && Render(e)[..17] == Stamp.Text(TimeOf(e.stamp))
  {
    var t := TimeOf(e.stamp);
    Stamp.FixedWidth(t);
    RenderParts(e);
    hide Stamp.Text;
    assert (Stamp.Text(t) + " " + Body(e))[..17] == Stamp.Text(t);
  }

  /** Below 10^16 nanoseconds the first 17 characters of two records compare as text the way their times do. */
  lemma StampsCompare(e: Entry, f: Entry)
    requires e.stamp < 10_000_000_000_000_000 && f.stamp < 10_000_000_000_000_000
    ensures |Render(e)| >= 17 && |Render(f)| >= 17
    ensures Decimal.LexLess(Render(e)[..17], Render(f)[..17]) <==> e.stamp < f.stamp
    ensures Render(e)[..17] == Render(f)[..17] <==> e.stamp == f.stamp
  {
    StampFront(e);
    StampFront(f);
    var t, u := TimeOf(e.stamp), TimeOf(f.stamp);
    Stamp.FixedWidth(t);
    Stamp.FixedWidth(u);
    Stamp.OrderPreserving(t, u);
    hide Stamp.Text, Decimal.LexLess, Render;
  }

  /** With the mutex free and one-line messages, the lines of the log file are those it had before and then
      exactly the completed records, in lock order. */
  lemma FileLines(s: State, actions: seq<Action>, t: State)
    requires Init(s) && Run(s, actions, t) && t.lock == None && WholeLines(s.file)
    requires forall e :: e in t.log ==> '\n' !in e.name && OneLine(e.text)
    ensures Lines(t.file) == Lines(s.file) + Renders(t.log)
  {
    FileShape(s, actions, t);
    hide Run, Init, Record;
    forall e | e in t.log ensures OneLine(Render(e)) {
      RecordIsLine(e.name, e.text, e.stamp);
    }
    LinesOfRecords(s.file, t.log);
  }

  // ---------- reading the file back ----------

  lemma {:induction false} NameEnds(a: string, x: string, b: string, y: string)
    requires ']' !in a && ']' !in b && a + ("]" + x) == b + ("]" + y)
    ensures a == b && x == y
  {
    var l, r := a + ("]" + x), b + ("]" + y);
    assert l[0] == r[0];
    if a != "" && b != "" {
      assert l[1..] == a[1..] + ("]" + x) && r[1..] == b[1..] + ("]" + y);
      NameEnds(a[1..], x, b[1..], y);
      assert a == [a[0]] + a[1..] && b == [b[0]] + b[1..];
    } else {
      assert l[0] == ']';
      assert a == b;
      assert x == l[1..] && y == r[1..];
    }
  }

  /** The part of a record after the stamp and its blank. */
  function Body(e: Entry): (r: string) {
    "[" + (e.name + ("]" + (" " + e.text)))
  }

  lemma RenderParts(e: Entry)
    ensures Render(e) == Stamp.Text(TimeOf(e.stamp)) + " " + Body(e)
  {
    hide Stamp.Text;
    var p := Stamp.Text(TimeOf(e.stamp));
    assert "[" + e.name + "] " + e.text == Body(e);
    assert Render(e) == p + " " + ("[" + e.name + "] ") + e.text;
  }

  lemma BodyUnambiguous(e: Entry, f: Entry)
    requires ']' !in e.name && ']' !in f.name && Body(e) == Body(f)
    ensures e.name == f.name && e.text == f.text
  {
    assert e.name + ("]" + (" " + e.text)) == Body(e)[1..] && f.name + ("]" + (" " + f.text)) == Body(f)[1..];
    NameEnds(e.name, " " + e.text, f.name, " " + f.text);
    assert e.text == (" " + e.text)[1..] && f.text == (" " + f.text)[1..];
  }

  /** A record determines its time to the nanosecond, its thread name and its message. */
  lemma RecordUnambiguous(e: Entry, f: Entry)
    requires ']' !in e.name && ']' !in f.name && Render(e) == Render(f)
    ensures e.name == f.name && e.text == f.text && e.stamp == f.stamp
  {
    hide Stamp.Text, Stamp.Parse, Render, Body;
    RenderParts(e);
    RenderParts(f);
    Stamp.ReadBack(TimeOf(e.stamp), Body(e));
    Stamp.ReadBack(TimeOf(f.stamp), Body(f));
    var p := Stamp.Text(TimeOf(e.stamp));
    assert p == Stamp.Text(TimeOf(f.stamp));
    assert Body(e) == (p + " " + Body(e))[|p| + 1..] && Body(f) == (p + " " + Body(f))[|p| + 1..];
    BodyUnambiguous(e, f);
  }

  lemma {:induction false} RendersAt(log: seq<Entry>, k: nat)
    requires k < |log|
    ensures |Renders(log)| == |log| && Renders(log)[k] == Render(log[k])
  {
    if k < |log| - 1 {
      RendersAt(log[..|log| - 1], k);
    } else if k > 0 {
      RendersAt(log[..k], k - 1);
    }
  }

  lemma SameTail(a: seq<string>, b: seq<string>, c: seq<string>)
    requires a + b == a + c
    ensures b == c
  {
    assert b == (a + b)[|a|..] && c == (a + c)[|a|..];
  }

  predicate Readable(log: seq<Entry>) {
    forall e :: e in log ==> '\n' !in e.name && ']' !in e.name && OneLine(e.text)
  }

  /** The file alone tells the whole history: runs that turn the same file into the same file made the same
      records, in the same order. */
  lemma FileTellsHistory(s: State, actions: seq<Action>, t: State, s': State, actions': seq<Action>, t': State)
    requires Init(s) && Run(s, actions, t) && t.lock == None && Readable(t.log)
    requires Init(s') && Run(s', actions', t') && t'.lock == None && Readable(t'.log)
    requires s.file == s'.file && WholeLines(s.file) && t.file == t'.file
    ensures |t.log| == |t'.log|
    ensures forall k :: 0 <= k < |t.log| ==>
      t.log[k].name == t'.log[k].name && t.log[k].text == t'.log[k].text && t.log[k].stamp == t'.log[k].stamp
  {
    FileLines(s, actions, t);
    FileLines(s', actions', t');
    hide Run, Init, Render, Lines;
    SameTail(Lines(s.file), Renders(t.log), Renders(t'.log));
    if |t.log| > 0 {
      RendersAt(t.log, 0);
    }
    if |t'.log| > 0 {
      RendersAt(t'.log, 0);
    }
    forall k | 0 <= k < |t.log|
      ensures t.log[k].name == t'.log[k].name && t.log[k].text == t'.log[k].text && t.log[k].stamp == t'.log[k].stamp
    {
      RendersAt(t.log, k);
      RendersAt(t'.log, k);
      assert t.log[k] in t.log && t'.log[k] in t'.log;
      RecordUnambiguous(t.log[k], t'.log[k]);
    }
  }
}
