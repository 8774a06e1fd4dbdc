/** Thread creation, logging handles and join order, on top of the logger: the main thread creates its
    workers, joins them in order and logs that it did; every thread opens its own handle, logs through it
    and closes it in its cleanup. Any number of workers, interleaved with every logger step. */
module Lifecycle {
  import L = Logger
  import opened Basics

  const MAIN: L.Tid := 0
  const JOINED_TEXT := "All worker threads joined\n"
  const TIMER_TEXT := "Deleting POSIX timer\n"
  const OPENED_PREFIX := "Opened logfile (fd = "
  const IDS_PREFIX := "App TID: "
  const CLOSING_PREFIX := "Closing logfile (fd = "

  /** Program points. `Inited` is between the two start-up messages, `Running` the thread's body, `Joined`
      the main thread after its last join, `Cleanup` the destructor before its messages, `Disarmed` after the one
      about its timer. */
  datatype Point = Absent | Created | Opened | Inited | Running | Joined
                 | Cleanup | Disarmed | Closing | Closed | Terminated

  datatype Handle = Unopened | Open | Shut

  /** `closes` counts fclose calls; `closing` and `shut` are how many log calls the thread had made before its
      closing message and before its fclose. */
  datatype Life = Life(point: Point, handle: Handle, closes: nat, closing: Option<nat>, shut: Option<nat>)

  datatype State = State(log: L.State, lives: map<L.Tid, Life>, workers: nat, created: nat, joined: nat,
                         joinCall: Option<nat>)

  datatype Action =
    | Logging(a: L.Action)
    | OpenLog(t: L.Tid)
    | LogOpened(t: L.Tid, text: string)
    | LogIds(t: L.Tid, text: string)
    | Body(t: L.Tid, text: string)
    | Caught(t: L.Tid, text: string)
    | Create
    | Abandon(t: L.Tid)
    | Exit(t: L.Tid)
    | Join
    | LogJoined
    | LogTimer(t: L.Tid)
    | LogClosing(t: L.Tid, text: string)
    | CloseLog(t: L.Tid)
    | Terminate(t: L.Tid)

  /** The thread an action belongs to; the clock belongs to nobody, here filed under the main thread. */
  function Actor(a: Action): (r: L.Tid) {
    match a
    case Logging(b) => if b.Tick? then MAIN else b.t
    case Create => MAIN
    case Join => MAIN
    case LogJoined => MAIN
    case _ => a.t
  }

  predicate Busy(s: State, t: L.Tid) {
    t in s.log.threads && s.log.threads[t].phase != L.Idle
  }

  predicate Outside(s: State, t: L.Tid) {
    t in s.log.threads && s.log.threads[t].phase == L.Idle
  }

  /** Where a signal that finds the thread outside the logger makes its handler log a message. The main thread
      installs the handler after its own start-up, and keeps its thread-local data to the very end; a worker has
      lost its own in the destructor. */
  predicate Handles(t: L.Tid, point: Point) {
    if t == MAIN then
      point == Running || point == Joined || point == Cleanup || point == Disarmed || point == Closing
      || point == Closed
    else point == Opened || point == Inited || point == Running
  }

  /** What thread `t` may do next. A worker leaves only outside the logger: before it has registered
      itself, which runs no cleanup, or once its handle is open. */
  predicate Enabled(s: State, a: Action) {
    var t := Actor(a);
    t in s.lives &&
    var point := s.lives[t].point;
    match a
    case Logging(b) => L.Enabled(s.log, b) && !b.Call?
    case OpenLog(_) => point == Created
    case LogOpened(_, text) => point == Opened && Outside(s, t) && OPENED_PREFIX <= text
    case LogIds(_, text) => point == Inited && Outside(s, t) && IDS_PREFIX <= text
    case Body(_, _) => point == Running && Outside(s, t)
    case Caught(_, _) => Handles(t, point) && Outside(s, t)
    case Create => point == Running && Outside(s, t) && s.created < s.workers && s.created + 1 in s.lives
    case Abandon(_) => point == Created && t != MAIN
    case Exit(_) =>
      if t == MAIN then point == Joined && Outside(s, t)
      else (point == Opened || point == Inited || point == Running) && Outside(s, t)
    case Join =>
      point == Running && Outside(s, t) && s.created == s.workers && s.joined < s.workers
      && s.joined + 1 in s.lives && s.lives[s.joined + 1].point == Terminated
    case LogJoined =>
      point == Running && Outside(s, t) && s.created == s.workers && s.joined == s.workers
    case LogTimer(_) => point == Cleanup && Outside(s, t)
    case LogClosing(_, text) =>
      (point == Cleanup || point == Disarmed) && Outside(s, t) && CLOSING_PREFIX <= text
    case CloseLog(_) => point == Closing && Outside(s, t)
    case Terminate(_) => point == Closed && Outside(s, t)
  }

  /** Starting a log call, which then proceeds by logger steps. */
  function Called(s: State, t: L.Tid, text: string): (r: L.State)
    requires Outside(s, t)
  {
    L.Step(s.log, L.Call(t, text))
  }

  /** fclose writes out what the stream still buffers. */
  function Fclose(s: L.State, t: L.Tid): (r: L.State)
    requires t in s.threads
  {
    var th := s.threads[t];
    L.Step(s, L.EarlyFlush(t, |th.buffer|))
  }

  function Move(s: State, t: L.Tid, point: Point): (r: map<L.Tid, Life>)
    requires t in s.lives
  {
    s.lives[t := s.lives[t].(point := point)]
  }

  function CallsMade(s: State, t: L.Tid): (r: nat)
    requires t in s.log.threads
  {
    |L.Made(s.log.threads[t])|
  }

  function AfterFclose(s: State, t: L.Tid): (r: Life)
    requires t in s.lives && t in s.log.threads
  {
    var life := s.lives[t];
    life.(point := Closed, handle := Shut, closes := life.closes + 1, shut := Some(CallsMade(s, t)))
  }

  function Step(s: State, a: Action): (r: State)
    requires Enabled(s, a) && (a.CloseLog? ==> a.t in s.log.threads)
  {
    var t := Actor(a);
    match a
    case Logging(b) => s.(log := L.Step(s.log, b))
    case OpenLog(_) => s.(lives := s.lives[t := s.lives[t].(point := Opened, handle := Open)])
    case LogOpened(_, text) => s.(log := Called(s, t, text), lives := Move(s, t, Inited))
    case LogIds(_, text) => s.(log := Called(s, t, text), lives := Move(s, t, Running))
    case Body(_, text) => s.(log := Called(s, t, text))
    case Caught(_, text) => s.(log := Called(s, t, text))
    case Create => s.(created := s.created + 1, lives := Move(s, s.created + 1, Created))
    case Abandon(_) => s.(lives := Move(s, t, Terminated))
    case Exit(_) => s.(lives := Move(s, t, Cleanup))
    case Join => s.(joined := s.joined + 1)
    case LogJoined => s.(log := Called(s, t, JOINED_TEXT), lives := Move(s, t, Joined), joinCall := Some(s.log.now))
    case LogTimer(_) => s.(log := Called(s, t, TIMER_TEXT), lives := Move(s, t, Disarmed))
    case LogClosing(_, text) =>
      s.(log := Called(s, t, text),
         lives := s.lives[t := s.lives[t].(point := Closing, closing := Some(CallsMade(s, t)))])
    case CloseLog(_) =>
      s.(log := Fclose(s.log, t), lives := s.lives[t := AfterFclose(s, t)])
    case Terminate(_) => s.(lives := Move(s, t, Terminated))
  }

  /** The main thread is about to open its handle; the workers do not exist yet. */
  ghost predicate Init(s: State) {
    && L.Init(s.log) && s.created == 0 && s.joined == 0 && s.joinCall == None
    && (forall t: L.Tid :: t in s.lives <==> t <= s.workers)
    && (forall t: L.Tid :: t in s.log.threads <==> t <= s.workers)
    && (forall t :: t in s.lives ==>
          s.lives[t] == Life(if t == MAIN then Created else Absent, Unopened, 0, None, None))
  }

  /** The main thread and `n` workers. */
  function Ids(n: nat): (r: set<L.Tid>)
    ensures forall t: L.Tid :: t in r <==> t <= n
  {
    if n == 0 then {MAIN} else Ids(n - 1) + {n}
  }

  /** The program can start with any number of workers, on any log file, at any time. */
  lemma StartExists(workers: nat, before: string, clock: nat) returns (s: State)
    ensures Init(s) && s.workers == workers && s.log.file == before && s.log.clock == clock
  {
    var th := L.Thread("", L.Idle, 0, "", 0, "", []);
    var threads := map t | t in Ids(workers) :: th;
    var lives := map t | t in Ids(workers) :: Life(if t == MAIN then Created else Absent, Unopened, 0, None, None);
    s := State(L.State(0, clock, None, before, before, threads, []), lives, workers, 0, 0, None);
  }

  // ---------- the invariant ----------

  predicate HandleOpen(p: Point) {
    p == Opened || p == Inited || p == Running || p == Joined || p == Cleanup || p == Disarmed || p == Closing
  }

  /** The closing message stands at its place among the calls of the thread; after it a worker makes none. */
  predicate SaidClosing(made: seq<string>, life: Life, t: L.Tid) {
    && life.closing.Some? && life.closing.value < |made| && CLOSING_PREFIX <= made[life.closing.value]
    && (t != MAIN ==> life.closing.value == |made| - 1)
    && (life.shut.Some? ==> life.closing.value < life.shut.value <= |made|)
  }

  ghost predicate LifeInv(th: L.Thread, life: Life, t: L.Tid) {
    && (!HandleOpen(life.point) && !(t == MAIN && life.point == Closed) ==> th.phase == L.Idle)
    && (life.handle == Open <==> HandleOpen(life.point))
    && (life.point == Absent || life.point == Created ==> life.handle == Unopened)
    && (life.point == Closed ==> life.handle == Shut)
    && life.closes == (if life.handle == Shut then 1 else 0)
    && (life.handle == Unopened ==> L.Made(th) == [])
    && (life.point == Joined ==> t == MAIN)
    && (life.point == Terminated && t == MAIN ==> life.handle == Shut)
    && (life.closing.Some? <==> life.point == Closing || life.handle == Shut)
    && (life.shut.Some? <==> life.handle == Shut)
    && (life.closing.Some? ==> SaidClosing(L.Made(th), life, t))
    && (life.shut.Some? ==> life.shut.value <= |th.completed|)
  }

  predicate AfterJoins(p: Point) {
    p == Joined || p == Cleanup || p == Disarmed || p == Closing || p == Closed || p == Terminated
  }

  /** The main thread's bookkeeping: who has been created and who has been joined. */
  ghost predicate JoinInv(s: State) {
    && s.joined <= s.created <= s.workers && (s.joined > 0 ==> s.created == s.workers)
    && (forall t: L.Tid :: t in s.lives <==> t <= s.workers)
    && (forall t: L.Tid :: t in s.log.threads <==> t <= s.workers)
    && (forall t: L.Tid :: 0 < t <= s.joined ==> s.lives[t].point == Terminated)
    && (forall t: L.Tid :: 0 < t <= s.workers ==> (s.lives[t].point == Absent <==> s.created < t))
    && s.lives[MAIN].point != Absent
    && (AfterJoins(s.lives[MAIN].point) ==> s.joinCall.Some?)
    && (s.joinCall.Some? ==>
          s.joined == s.workers && s.joinCall.value < s.log.now
          && forall i :: 0 <= i < |s.log.log| && s.log.log[i].tid != MAIN ==> s.log.log[i].end <= s.joinCall.value)
  }

  ghost predicate Inv(s: State) {
    && L.Inv(s.log) && JoinInv(s)
    && forall t :: t in s.lives ==> t in s.log.threads && LifeInv(s.log.threads[t], s.lives[t], t)
  }

  lemma InitInv(s: State)
    requires Init(s)
    ensures Inv(s)
  {
    L.InitInv(s.log);
  }

  /** What a logger step does to the thread that takes it. */
  lemma LoggingLife(th: L.Thread, life: Life, b: L.Action, now: nat, clock: nat)
    requires !b.Tick? && !b.Call? && L.Ready(th, b) && LifeInv(th, life, b.t)
    ensures LifeInv(L.Local(th, b, now, clock), life, b.t)
    ensures b.Unlock? ==> life.point != Absent && life.point != Terminated
    ensures b.Write? || b.Flush? ==> life.handle == Open || (b.t == MAIN && life.point == Closed)
  {
    hide L.Piece, L.Made, L.Read;
    L.LocalMade(th, b, now, clock);
  }

  /** The history is as before, or has one more entry by `t`. */
  predicate EntryBy(before: seq<L.Entry>, after: seq<L.Entry>, t: L.Tid) {
    after == before || (|after| == |before| + 1 && after[..|before|] == before && after[|before|].tid == t)
  }

  /** `t` moves on to `life` while the logger goes to `log`; all other threads stay as they are. */
  ghost predicate Advance(s: State, t: L.Tid, log: L.State, life: Life, joinCall: Option<nat>) {
    && t in s.lives && t in s.log.threads
    && log.threads.Keys == s.log.threads.Keys && log.now == s.log.now + 1
    && (forall x :: x in s.log.threads && x != t ==> log.threads[x] == s.log.threads[x])
    && LifeInv(log.threads[t], life, t)
    && EntryBy(s.log.log, log.log, t)
    && (s.lives[t].point == Absent || s.lives[t].point == Terminated ==> life == s.lives[t] && log.log == s.log.log)
    && (life.point == Absent ==> s.lives[t].point == Absent)
    && (joinCall == s.joinCall
        || (t == MAIN && s.joined == s.workers && joinCall == Some(s.log.now) && log.log == s.log.log))
    && (t == MAIN && AfterJoins(life.point) ==> joinCall.Some?)
  }

  lemma EntriesPast(log: L.State)
    requires L.Inv(log)
    ensures forall i :: 0 <= i < |log.log| ==> log.log[i].end < log.now
  {
    assert L.LogInv(log.log, log.now, log.clock);
  }

  /** The next clause of the bookkeeping for records: all worker records precede the final message's call. */
  lemma AdvanceRecords(s: State, t: L.Tid, log: L.State, life: Life, joinCall: Option<nat>)
    requires JoinInv(s) && Advance(s, t, log, life, joinCall) && joinCall.Some?
    requires forall i :: 0 <= i < |s.log.log| ==> s.log.log[i].end < s.log.now
    ensures forall i :: 0 <= i < |log.log| && log.log[i].tid != MAIN ==> log.log[i].end <= joinCall.value
  {
    hide LifeInv;
    forall i | 0 <= i < |log.log| && log.log[i].tid != MAIN ensures log.log[i].end <= joinCall.value {
      if i < |s.log.log| {
        assert log.log[i] == s.log.log[i];
      }
    }
  }

  lemma AdvanceJoin(s: State, t: L.Tid, log: L.State, life: Life, joinCall: Option<nat>)
    requires JoinInv(s) && Advance(s, t, log, life, joinCall)
    requires forall i :: 0 <= i < |s.log.log| ==> s.log.log[i].end < s.log.now
    ensures JoinInv(s.(log := log, lives := s.lives[t := life], joinCall := joinCall))
  {
    hide LifeInv;
    if joinCall.Some? {
      AdvanceRecords(s, t, log, life, joinCall);
    }
    hide EntryBy;
  }

  lemma AdvanceInv(s: State, t: L.Tid, log: L.State, life: Life, joinCall: Option<nat>)
    requires Inv(s) && L.Inv(log) && Advance(s, t, log, life, joinCall)
    ensures Inv(s.(log := log, lives := s.lives[t := life], joinCall := joinCall))
  {
    hide JoinInv, LifeInv, L.Inv, EntryBy, AfterJoins;
    EntriesPast(s.log);
    AdvanceJoin(s, t, log, life, joinCall);
  }

  lemma LoggerKeeps(s: L.State, b: L.Action)
    requires L.Inv(s) && L.Enabled(s, b)
    ensures L.Inv(L.Step(s, b))
  {
    hide L.FileInv, L.TimeInv, L.Step, L.Ready;
    L.FileStep(s, b);
    L.TimeStep(s, b);
  }

  /** Logger steps are opaque here: what matters is how they move their thread. */
  lemma LoggerStep(s: L.State, b: L.Action)
    requires L.Inv(s) && L.Enabled(s, b) && !b.Tick?
    ensures var u := L.Step(s, b);
      L.Inv(u) && u.threads.Keys == s.threads.Keys && u.now == s.now + 1
      && (forall x :: x in s.threads && x != b.t ==> u.threads[x] == s.threads[x])
      && u.threads[b.t] == L.Local(s.threads[b.t], b, s.now, s.clock)
      && EntryBy(s.log, u.log, b.t) && (!b.Unlock? ==> u.log == s.log)
  {
    hide L.Inv, L.Local, L.Ready, L.Output, L.EntryOf;
    LoggerKeeps(s, b);
    StepLocal(s, b);
  }

  lemma StepLocal(s: L.State, b: L.Action)
    requires L.Enabled(s, b) && !b.Tick?
    ensures L.Step(s, b).threads == s.threads[b.t := L.Local(s.threads[b.t], b, s.now, s.clock)]
    ensures L.Step(s, b).log == if b.Unlock? then s.log + [L.EntryOf(b.t, s.threads[b.t], s.now)] else s.log
    ensures L.Step(s, b).now == s.now + 1
    ensures EntryBy(s.log, L.Step(s, b).log, b.t)
  {
    hide L.Local, L.Ready, L.Output;
  }

  lemma LoggingMove(s: State, b: L.Action)
    requires Inv(s) && L.Enabled(s.log, b) && !b.Call? && !b.Tick? && b.t in s.lives
    ensures Advance(s, b.t, L.Step(s.log, b), s.lives[b.t], s.joinCall) && L.Inv(L.Step(s.log, b))
  {
    hide L.Inv, LifeInv, L.Step, L.Local, L.Ready, EntryBy;
    LoggerStep(s.log, b);
    LoggingLife(s.log.threads[b.t], s.lives[b.t], b, s.log.now, s.log.clock);
  }

  lemma LoggingInv(s: State, b: L.Action)
    requires Inv(s) && L.Enabled(s.log, b) && !b.Call? && (!b.Tick? ==> b.t in s.lives)
    ensures Inv(s.(log := L.Step(s.log, b)))
  {
    hide L.Inv, LifeInv;
    if b.Tick? {
      LoggerKeeps(s.log, b);
    } else {
      LoggingMove(s, b);
      hide Inv, L.Step, Advance;
      AdvanceInv(s, b.t, L.Step(s.log, b), s.lives[b.t], s.joinCall);
      assert s.lives[b.t := s.lives[b.t]] == s.lives;
    }
  }

  /** A call that does not take its caller further. */
  predicate Stays(life: Life, t: L.Tid) {
    if t == MAIN then HandleOpen(life.point) || life.point == Closed
    else HandleOpen(life.point) && life.point != Closing
  }

  /** A call that takes its caller from one point to the next. */
  predicate Proceeds(th: L.Thread, before: Life, life: Life, t: L.Tid, text: string) {
    && HandleOpen(before.point) && HandleOpen(life.point) && before.point != Closing
    && (life.point == Joined ==> t == MAIN)
    && life == before.(point := life.point, closing := life.closing)
    && if life.point == Closing then CLOSING_PREFIX <= text && life.closing == Some(|L.Made(th)|)
       else life.closing == before.closing
  }

  predicate TakesOn(th: L.Thread, before: Life, life: Life, t: L.Tid, text: string) {
    (life == before && Stays(life, t)) || Proceeds(th, before, life, t, text)
  }

  lemma TalkLife(th: L.Thread, before: Life, life: Life, t: L.Tid, text: string, now: nat, clock: nat)
    requires th.phase == L.Idle && LifeInv(th, before, t) && TakesOn(th, before, life, t, text)
    ensures LifeInv(L.Local(th, L.Call(t, text), now, clock), life, t)
  {
    L.LocalMade(th, L.Call(t, text), now, clock);
    hide L.Made, L.Read;
  }

  /** Starting a log call: `life` is where the caller continues. */
  lemma TalkInv(s: State, t: L.Tid, text: string, life: Life, joinCall: Option<nat>)
    requires Inv(s) && t in s.lives && Outside(s, t) && TakesOn(s.log.threads[t], s.lives[t], life, t, text)
    requires joinCall == s.joinCall || (t == MAIN && s.joined == s.workers && joinCall == Some(s.log.now))
    requires t == MAIN && AfterJoins(life.point) ==> joinCall.Some?
    ensures Inv(s.(log := Called(s, t, text), lives := s.lives[t := life], joinCall := joinCall))
  {
    hide L.Inv, L.Step, JoinInv, EntryBy, L.Local;
    LoggerStep(s.log, L.Call(t, text));
    TalkLife(s.log.threads[t], s.lives[t], life, t, text, s.log.now, s.log.clock);
    hide LifeInv;
    assert Advance(s, t, Called(s, t, text), life, joinCall);
    hide Inv, Advance, Called;
    AdvanceInv(s, t, Called(s, t, text), life, joinCall);
  }

  lemma CloseLife(th: L.Thread, life: Life, t: L.Tid, now: nat, clock: nat)
    requires th.phase == L.Idle && LifeInv(th, life, t) && life.point == Closing
    ensures var b := L.EarlyFlush(t, |th.buffer|);
      LifeInv(L.Local(th, b, now, clock),
              life.(point := Closed, handle := Shut, closes := life.closes + 1, shut := Some(|L.Made(th)|)), t)
  {
    L.LocalMade(th, L.EarlyFlush(t, |th.buffer|), now, clock);
    hide L.Made, L.Read;
  }

  /** Closing: nothing is left in the buffer, so fclose writes nothing. */
  lemma CloseInv(s: State, t: L.Tid)
    requires Inv(s) && t in s.lives && s.lives[t].point == Closing && Outside(s, t)
    ensures Inv(s.(log := Fclose(s.log, t), lives := s.lives[t := AfterFclose(s, t)]))
    ensures Fclose(s.log, t).file == s.log.file
  {
    hide L.Inv, L.Step, JoinInv, EntryBy, L.Local;
    var th, life := s.log.threads[t], AfterFclose(s, t);
    var u := Fclose(s.log, t);
    NothingBuffered(s.log, t);
    FlushNothing(s.log, t);
    LoggerStep(s.log, L.EarlyFlush(t, |th.buffer|));
    CloseLife(th, s.lives[t], t, s.log.now, s.log.clock);
    hide LifeInv;
    JoinKnown(s, t);
    assert Advance(s, t, u, life, s.joinCall);
    hide Inv, Advance, Fclose;
    AdvanceInv(s, t, u, life, s.joinCall);
  }

  lemma JoinKnown(s: State, t: L.Tid)
    requires JoinInv(s) && t in s.lives
    ensures t == MAIN && AfterJoins(s.lives[t].point) ==> s.joinCall.Some?
  {}

  lemma NothingBuffered(s: L.State, t: L.Tid)
    requires L.Inv(s) && t in s.threads && s.threads[t].phase == L.Idle
    ensures s.threads[t].buffer == ""
  {
    hide L.TimeInv, L.HolderInv, L.RenderAll;
  }

  lemma FlushNothing(s: L.State, t: L.Tid)
    requires t in s.threads && s.threads[t].buffer == ""
    ensures Fclose(s, t).file == s.file
  {}

  /** Moves that do not touch the logger. */
  lemma ControlInv(s: State, t: L.Tid, life: Life)
    requires Inv(s) && t in s.lives && s.lives[t].point != Absent && s.lives[t].point != Terminated
    requires LifeInv(s.log.threads[t], life, t) && life.point != Absent
    requires t == MAIN && AfterJoins(life.point) ==> s.joinCall.Some?
    ensures Inv(s.(lives := s.lives[t := life]))
  {
    hide L.Inv, LifeInv;
  }

  lemma CreateInv(s: State)
    requires Inv(s) && s.created < s.workers && s.joined == 0 && s.created + 1 in s.lives
    ensures Inv(s.(created := s.created + 1, lives := Move(s, s.created + 1, Created)))
  {
    hide L.Inv, SaidClosing;
  }

  lemma JoinStepInv(s: State)
    requires Inv(s) && s.created == s.workers && s.joined < s.workers
    requires s.joined + 1 in s.lives && s.lives[s.joined + 1].point == Terminated
    ensures Inv(s.(joined := s.joined + 1))
  {
    hide L.Inv, LifeInv;
  }

  lemma StartTalkStep(s: State, a: Action)
    requires Inv(s) && Enabled(s, a) && (a.LogOpened? || a.LogIds? || a.Body? || a.Caught?)
    ensures Inv(Step(s, a))
  {
    hide L.Inv, L.Step, L.Enabled, LifeInv, JoinInv, Called, Outside;
    var t := Actor(a);
    var life := s.lives[t];
    JoinKnown(s, t);
    assert s.lives[t := life] == s.lives;
    hide Inv;
    match a
    case LogOpened(_, text) => TalkInv(s, t, text, life.(point := Inited), s.joinCall);
    case LogIds(_, text) => TalkInv(s, t, text, life.(point := Running), s.joinCall);
    case Body(_, text) => TalkInv(s, t, text, life, s.joinCall);
    case Caught(_, text) => TalkInv(s, t, text, life, s.joinCall);
  }

  lemma EndTalkStep(s: State, a: Action)
    requires Inv(s) && Enabled(s, a) && (a.LogJoined? || a.LogTimer? || a.LogClosing?)
    ensures Inv(Step(s, a))
  {
    hide L.Inv, L.Step, L.Enabled, LifeInv, JoinInv, Called, Outside;
    var t := Actor(a);
    var life := s.lives[t];
    JoinKnown(s, t);
    assert s.lives[t := life] == s.lives;
    hide Inv;
    match a
    case LogJoined => TalkInv(s, t, JOINED_TEXT, life.(point := Joined), Some(s.log.now));
    case LogTimer(_) => TalkInv(s, t, TIMER_TEXT, life.(point := Disarmed), s.joinCall);
    case LogClosing(_, text) =>
      TalkInv(s, t, text, life.(point := Closing, closing := Some(CallsMade(s, t))), s.joinCall);
  }

  lemma ControlStep(s: State, a: Action)
    requires Inv(s) && Enabled(s, a)
    requires a.OpenLog? || a.Abandon? || a.Exit? || a.Terminate?
    ensures Inv(Step(s, a))
  {
    hide L.Inv, L.Enabled, L.Step, JoinInv, Called, Fclose;
    var t := Actor(a);
    JoinKnown(s, t);
    assert LifeInv(s.log.threads[t], s.lives[t], t);
    var life := Step(s, a).lives[t];
    assert LifeInv(s.log.threads[t], life, t);
    hide LifeInv, Inv;
    ControlInv(s, t, life);
  }

  lemma CountStep(s: State, a: Action)
    requires Inv(s) && Enabled(s, a) && (a.Create? || a.Join?)
    ensures Inv(Step(s, a))
  {
    hide L.Inv, LifeInv, Outside;
    assert s.joined > 0 ==> s.created == s.workers;
    hide Inv, JoinInv;
    if a.Create? {
      CreateInv(s);
    } else {
      JoinStepInv(s);
    }
  }

  lemma StreamStep(s: State, a: Action)
    requires Inv(s) && Enabled(s, a) && (a.Logging? || a.CloseLog?)
    ensures (a.CloseLog? ==> a.t in s.log.threads) && Inv(Step(s, a))
  {
    hide Inv, L.Enabled, L.Step, Fclose;
    if a.Logging? {
      LoggingInv(s, a.a);
    } else {
      CloseInv(s, a.t);
    }
  }

  lemma StepInv(s: State, a: Action)
    requires Inv(s) && Enabled(s, a)
    ensures (a.CloseLog? ==> a.t in s.log.threads) && Inv(Step(s, a))
  {
    hide Inv, Step, Enabled;
    match a
    case Logging(_) => StreamStep(s, a);
    case CloseLog(_) => StreamStep(s, a);
    case Create => CountStep(s, a);
    case Join => CountStep(s, a);
    case OpenLog(_) => ControlStep(s, a);
    case Abandon(_) => ControlStep(s, a);
    case Exit(_) => ControlStep(s, a);
    case Terminate(_) => ControlStep(s, a);
    case LogOpened(_, _) => StartTalkStep(s, a);
    case LogIds(_, _) => StartTalkStep(s, a);
    case Body(_, _) => StartTalkStep(s, a);
    case Caught(_, _) => StartTalkStep(s, a);
    case _ => EndTalkStep(s, a);
  }

  // ---------- every run ----------

  ghost predicate Run(s: State, actions: seq<Action>, t: State)
    decreases |actions|
  {
    if actions == [] then s == t
    else Enabled(s, actions[0]) && (actions[0].CloseLog? ==> actions[0].t in s.log.threads)
         && Run(Step(s, actions[0]), actions[1..], t)
  }

  lemma {:induction false} RunInv(s: State, actions: seq<Action>, t: State)
    requires Inv(s) && Run(s, actions, t)
    ensures Inv(t)
    decreases |actions|
  {
    hide Inv, Step, Enabled;
    if actions != [] {
      StepInv(s, actions[0]);
      RunInv(Step(s, actions[0]), actions[1..], t);
    }
  }

  lemma Reachable(s: State, actions: seq<Action>, t: State)
    requires Init(s) && Run(s, actions, t)
    ensures Inv(t)
  {
    InitInv(s);
    hide Inv, Run, Init;
    RunInv(s, actions, t);
  }

  lemma CompletedAre(log: L.State, x: L.Tid)
    requires L.Inv(log) && x in log.threads
    ensures log.threads[x].completed == L.Only(log.log, x)
  {
    hide L.FileInv, L.LogInv;
    assert L.CallInv(log.threads[x], x, log.log, log.now, log.clock);
  }

  /** The messages of signals that thread `x` catches after its closing message. */
  function Late(actions: seq<Action>, x: L.Tid, seen: bool): (r: seq<string>)
    decreases |actions|
  {
    if actions == [] then []
    else
      (if seen && actions[0].Caught? && actions[0].t == x then [actions[0].text] else [])
      + Late(actions[1..], x, seen || (actions[0].LogClosing? && actions[0].t == x))
  }

  /** The messages of signals that thread `x` catches after its fclose. */
  function Stray(actions: seq<Action>, x: L.Tid, seen: bool): (r: seq<string>)
    decreases |actions|
  {
    if actions == [] then []
    else
      (if seen && actions[0].Caught? && actions[0].t == x then [actions[0].text] else [])
      + Stray(actions[1..], x, seen || (actions[0].CloseLog? && actions[0].t == x))
  }

  /** The calls of a thread that follow its closing message, and those that follow its fclose. */
  function SinceClosing(th: L.Thread, life: Life): (r: seq<string>) {
    if life.closing.Some? && life.closing.value < |L.Made(th)| then L.Made(th)[life.closing.value + 1..] else []
  }

  function SinceShut(th: L.Thread, life: Life): (r: seq<string>) {
    if life.shut.Some? && life.shut.value <= |L.Made(th)| then L.Made(th)[life.shut.value..] else []
  }

  /** The log call that an action starts, if any. */
  function Talk(a: Action): (r: Option<L.Action>) {
    match a
    case LogOpened(t, text) => Some(L.Call(t, text))
    case LogIds(t, text) => Some(L.Call(t, text))
    case Body(t, text) => Some(L.Call(t, text))
    case Caught(t, text) => Some(L.Call(t, text))
    case LogJoined => Some(L.Call(MAIN, JOINED_TEXT))
    case LogTimer(t) => Some(L.Call(t, TIMER_TEXT))
    case LogClosing(t, text) => Some(L.Call(t, text))
    case _ => None
  }

  /** What an action is to the logger. */
  function LoggerAction(s: State, a: Action): (r: Option<L.Action>)
    requires a.CloseLog? ==> a.t in s.log.threads
  {
    match a
    case Logging(b) => Some(b)
    case CloseLog(t) => Some(L.EarlyFlush(t, |s.log.threads[t].buffer|))
    case _ => Talk(a)
  }

  lemma StepRefines(s: State, a: Action)
    requires Enabled(s, a) && (a.CloseLog? ==> a.t in s.log.threads)
    ensures match LoggerAction(s, a)
      case None => Step(s, a).log == s.log
      case Some(b) => L.Enabled(s.log, b) && Step(s, a).log == L.Step(s.log, b) && (b.Call? ==> Talk(a) == Some(b))
  {
    hide L.Step;
  }

  /** The log calls of thread `x` in a schedule. */
  function Calls(actions: seq<Action>, x: L.Tid): (r: seq<string>) {
    if actions == [] then [] else Says(actions[0], x) + Calls(actions[1..], x)
  }

  function Says(a: Action, x: L.Tid): (r: seq<string>) {
    match Talk(a)
    case Some(b) => if b.Call? && b.t == x then [b.text] else []
    case None => []
  }

  /** Every run of the program is a run of the logger that makes the same calls. */
  lemma {:induction false} RunRefines(s: State, actions: seq<Action>, t: State) returns (trace: seq<L.Action>)
    requires Run(s, actions, t)
    ensures L.Run(s.log, trace, t.log) && forall x :: L.Calls(trace, x) == Calls(actions, x)
    decreases |actions|
  {
    hide Step, Enabled, L.Step, L.Enabled, LoggerAction;
    if actions == [] {
      return [];
    }
    var a := actions[0];
    StepRefines(s, a);
    trace := RunRefines(Step(s, a), actions[1..], t);
    if LoggerAction(s, a).Some? {
      var b := LoggerAction(s, a).value;
      TalkIsCall(s, a);
      ghost var rest := trace;
      trace := [b] + rest;
      assert trace[1..] == rest;
      assert forall x :: L.Calls(trace, x) == (if b.Call? && b.t == x then [b.text] else []) + L.Calls(rest, x);
    } else {
      assert Talk(a) == None by { TalkIsCall(s, a); }
    }
  }

  lemma TalkIsCall(s: State, a: Action)
    requires Enabled(s, a) && (a.CloseLog? ==> a.t in s.log.threads)
    ensures LoggerAction(s, a).None? ==> Talk(a).None?
    ensures LoggerAction(s, a).Some? ==> var b := LoggerAction(s, a).value;
      forall x :: Says(a, x) == if b.Call? && b.t == x then [b.text] else []
  {
    hide L.Ready;
  }

  // ---------- the order of a thread's messages ----------

  /** An action that starts a log call of thread `x`. */
  predicate Speaks(a: Action, x: L.Tid) {
    match a
    case LogOpened(t, _) => t == x
    case LogIds(t, _) => t == x
    case Body(t, _) => t == x
    case Caught(t, _) => t == x
    case LogJoined => x == MAIN
    case LogTimer(t) => t == x
    case LogClosing(t, _) => t == x
    case _ => false
  }

  /** The log calls of thread `x` in a schedule. */
  function Spoken(actions: seq<Action>, x: L.Tid): (r: seq<Action>)
    ensures forall k :: 0 <= k < |r| ==> Speaks(r[k], x)
  {
    if actions == [] then []
    else (if Speaks(actions[0], x) then [actions[0]] else []) + Spoken(actions[1..], x)
  }

  /** Those of them that are not for signals. */
  function Course(actions: seq<Action>, x: L.Tid): (r: seq<Action>)
    ensures forall k :: 0 <= k < |r| ==> Speaks(r[k], x) && !r[k].Caught?
  {
    if actions == [] then []
    else (if Speaks(actions[0], x) && !actions[0].Caught? then [actions[0]] else []) + Course(actions[1..], x)
  }

  function Said(a: Action, x: L.Tid): (r: string)
    requires Speaks(a, x)
  {
    match a
    case LogJoined => "All worker threads joined\n"
    case LogTimer(_) => "Deleting POSIX timer\n"
    case LogOpened(_, text) => text
    case LogIds(_, text) => text
    case Body(_, text) => text
    case Caught(_, text) => text
    case LogClosing(_, text) => text
    case _ => ""
  }

  lemma SaysIs(a: Action, x: L.Tid)
    ensures Says(a, x) == if Speaks(a, x) then [Said(a, x)] else []
  {}

  /** The calls are those messages, word for word. */
  lemma {:induction false} CallsAreSpoken(actions: seq<Action>, x: L.Tid)
    ensures var spoken := Spoken(actions, x);
      |Calls(actions, x)| == |spoken| && forall k :: 0 <= k < |spoken| ==> Calls(actions, x)[k] == Said(spoken[k], x)
  {
    hide Says, Speaks, Said, Talk;
    if actions != [] {
      var a, rest := actions[0], actions[1..];
      SaysIs(a, x);
      CallsAreSpoken(rest, x);
      if Speaks(a, x) {
        assert Calls(actions, x) == [Said(a, x)] + Calls(rest, x) && Spoken(actions, x) == [a] + Spoken(rest, x);
      } else {
        assert Calls(actions, x) == [] + Calls(rest, x) && Spoken(actions, x) == [] + Spoken(rest, x);
      }
    }
  }

  /** The records of a thread, with its call under way if there is one, are exactly the messages its program has
      logged, word for word and in order. */
  lemma RecordsAreCalls(s: State, actions: seq<Action>, t: State, x: L.Tid)
    requires Init(s) && Run(s, actions, t) && x in s.lives
    ensures x in t.log.threads
    ensures var records, spoken := L.Texts(L.Only(t.log.log, x)) + L.Pending(t.log.threads[x]), Spoken(actions, x);
      |records| == |spoken| && forall k :: 0 <= k < |spoken| ==> records[k] == Said(spoken[k], x)
  {
    assert x in s.log.threads;
    var trace := RunRefines(s, actions, t);
    hide Run;
    L.ExactlyOnce(s.log, trace, t.log, x);
    CallsAreSpoken(actions, x);
  }

  /** The first `n` messages are the two start-up messages, in order and once each, and then messages of the body. */
  predicate Started(o: seq<Action>, n: int) {
    && 2 <= n <= |o| && o[0].LogOpened? && "Opened logfile (fd = " <= o[0].text
    && o[1].LogIds? && "App TID: " <= o[1].text && forall k :: 2 <= k < n ==> o[k].Body?
  }

  predicate Announcing(o: seq<Action>, n: int) {
    1 <= n <= |o| && Started(o, n - 1) && o[n - 1].LogJoined?
  }

  /** After its first `n` messages a thread may go into its cleanup: the main thread when it has announced the joins,
      a worker from any point on at which its handle is open. */
  predicate MayLeave(o: seq<Action>, n: int, x: L.Tid) {
    if x == MAIN then Announcing(o, n)
    else n == 0 || (n == 1 <= |o| && o[0].LogOpened? && "Opened logfile (fd = " <= o[0].text) || Started(o, n)
  }

  predicate Disarming(o: seq<Action>, n: int, x: L.Tid) {
    1 <= n <= |o| && MayLeave(o, n - 1, x) && o[n - 1].LogTimer?
  }

  /** The last message is the closing one, once, after at most one about the timer. */
  predicate ClosingAfter(o: seq<Action>, n: int, x: L.Tid) {
    && 1 <= n <= |o| && (MayLeave(o, n - 1, x) || Disarming(o, n - 1, x))
    && o[n - 1].LogClosing? && "Closing logfile (fd = " <= o[n - 1].text
  }

  /** What a thread has logged by the time it is at a program point, signals apart. */
  predicate InOrder(point: Point, o: seq<Action>, x: L.Tid) {
    var n := |o|;
    match point
    case Absent => n == 0
    case Created => n == 0
    case Opened => n == 0
    case Inited => n == 1 && o[0].LogOpened? && "Opened logfile (fd = " <= o[0].text
    case Running => Started(o, n)
    case Joined => x == MAIN && Announcing(o, n)
    case Cleanup => MayLeave(o, n, x)
    case Disarmed => Disarming(o, n, x)
    case Closing => ClosingAfter(o, n, x)
    case Closed => ClosingAfter(o, n, x)
    case Terminated => ClosingAfter(o, n, x) || (x != MAIN && n == 0)
  }

  lemma StartedMore(o: seq<Action>, a: Action, n: int)
    requires n <= |o|
    ensures Started(o + [a], n) <==> Started(o, n)
  {
    var p := o + [a];
    assert forall k :: 0 <= k < |o| ==> p[k] == o[k];
    if Started(p, n) {
      assert forall k :: 2 <= k < n ==> o[k] == p[k];
    }
  }

  lemma OneMore(o: seq<Action>, a: Action, n: int, x: L.Tid)
    requires n <= |o|
    ensures Started(o + [a], n) == Started(o, n) && Announcing(o + [a], n) == Announcing(o, n)
    ensures MayLeave(o + [a], n, x) == MayLeave(o, n, x) && Disarming(o + [a], n, x) == Disarming(o, n, x)
  {
    StartedMore(o, a, n);
    StartedMore(o, a, n - 1);
    StartedMore(o, a, n - 2);
    hide Started;
    assert forall k :: 0 <= k < |o| ==> (o + [a])[k] == o[k];
  }

  lemma OrderStep(s: State, a: Action, x: L.Tid, o: seq<Action>)
    requires Inv(s) && Enabled(s, a) && (a.CloseLog? ==> a.t in s.log.threads)
    requires x in s.lives && InOrder(s.lives[x].point, o, x)
    ensures x in Step(s, a).lives
    ensures InOrder(Step(s, a).lives[x].point, o + (if Speaks(a, x) && !a.Caught? then [a] else []), x)
  {
    hide L.Step, L.Enabled, L.Inv, InOrder, JoinInv, LifeInv;
    if Speaks(a, x) && !a.Caught? {
      TalkOrder(s.lives[x].point, a, x, o);
    } else {
      assert o + [] == o;
      if a.Create? {
        NextIsAbsent(s);
      }
      QuietOrder(s, a, x, o);
    }
  }

  lemma NextIsAbsent(s: State)
    requires Inv(s) && Enabled(s, Create)
    ensures s.lives[s.created + 1].point == Absent
  {
    hide L.Inv, LifeInv;
  }

  /** Where a message of the program itself leads from a point where it may be logged. */
  function After(p: Point, a: Action): (r: Point) {
    if a.LogOpened? then Inited
    else if a.LogIds? then Running
    else if a.LogJoined? then Joined
    else if a.LogTimer? then Disarmed
    else if a.LogClosing? then Closing
    else p
  }

  lemma TalkOrder(p: Point, a: Action, x: L.Tid, o: seq<Action>)
    requires Speaks(a, x) && !a.Caught? && InOrder(p, o, x)
    requires a.LogOpened? ==> p == Opened && OPENED_PREFIX <= a.text
    requires a.LogIds? ==> p == Inited && IDS_PREFIX <= a.text
    requires a.Body? || a.LogJoined? ==> p == Running
    requires a.LogTimer? ==> p == Cleanup
    requires a.LogClosing? ==> (p == Cleanup || p == Disarmed) && CLOSING_PREFIX <= a.text
    ensures InOrder(After(p, a), o + [a], x)
  {
    var n := |o|;
    OneMore(o, a, n, x);
    OneMore(o, a, n - 1, x);
    assert (o + [a])[n] == a && forall k :: 0 <= k < n ==> (o + [a])[k] == o[k];
  }

  /** Moves without a message. */
  lemma QuietOrder(s: State, a: Action, x: L.Tid, o: seq<Action>)
    requires Enabled(s, a) && (a.CloseLog? ==> a.t in s.log.threads) && x in s.lives
    requires InOrder(s.lives[x].point, o, x) && !(Speaks(a, x) && !a.Caught?)
    requires a.Create? ==> s.lives[s.created + 1].point == Absent
    ensures x in Step(s, a).lives && InOrder(Step(s, a).lives[x].point, o, x)
  {
    hide L.Step, L.Enabled;
  }

  lemma {:induction false} OrderRun(s: State, actions: seq<Action>, t: State, x: L.Tid, o: seq<Action>)
    requires Inv(s) && Run(s, actions, t) && x in s.lives && InOrder(s.lives[x].point, o, x)
    ensures x in t.lives && InOrder(t.lives[x].point, o + Course(actions, x), x)
    decreases |actions|
  {
    hide Inv, Step, Enabled, InOrder, Speaks;
    if actions == [] {
      assert o + [] == o;
    } else {
      var more := if Speaks(actions[0], x) && !actions[0].Caught? then [actions[0]] else [];
      OrderStep(s, actions[0], x, o);
      StepInv(s, actions[0]);
      OrderRun(Step(s, actions[0]), actions[1..], t, x, o + more);
      assert o + more + Course(actions[1..], x) == o + Course(actions, x);
    }
  }

  /** In every run, at every point, signals apart: a thread's messages are the two start-up messages, messages of its
      body, for the main thread the announcement of the joins, then at most one about its timer and the closing one,
      each exactly once, in this order and as far as the thread has come. */
  lemma ProgramOrder(s: State, actions: seq<Action>, t: State, x: L.Tid)
    requires Init(s) && Run(s, actions, t) && x in s.lives
    ensures x in t.lives && InOrder(t.lives[x].point, Course(actions, x), x)
  {
    InitInv(s);
    hide Inv, Run;
    OrderRun(s, actions, t, x, []);
    assert [] + Course(actions, x) == Course(actions, x);
  }

  /** A finished main thread has logged exactly that, from the first message to the last. */
  lemma MainMessages(s: State, actions: seq<Action>, t: State)
    requires Init(s) && Run(s, actions, t) && MAIN in s.lives && MAIN in t.lives && t.lives[MAIN].point == Terminated
    ensures var o := Course(actions, MAIN);
      && |o| >= 4 && o[0].LogOpened? && o[1].LogIds? && o[|o| - 1].LogClosing?
      && exists j :: (j == |o| - 2 || (j == |o| - 3 && o[|o| - 2].LogTimer?)) && 2 <= j && o[j].LogJoined?
                     && forall k :: 2 <= k < j ==> o[k].Body?
  {
    hide Run, Init, Course, Speaks;
    ProgramOrder(s, actions, t, MAIN);
    var o := Course(actions, MAIN);
    var j := if o[|o| - 2].LogTimer? then |o| - 3 else |o| - 2;
    assert Announcing(o, j + 1);
    assert o[j].LogJoined?;
  }

  // ---------- handles in the schedule ----------

  function Opens(actions: seq<Action>, x: L.Tid): (n: nat) {
    if actions == [] then 0 else (if actions[0] == OpenLog(x) then 1 else 0) + Opens(actions[1..], x)
  }

  function Closes(actions: seq<Action>, x: L.Tid): (n: nat) {
    if actions == [] then 0 else (if actions[0] == CloseLog(x) then 1 else 0) + Closes(actions[1..], x)
  }

  function OpensOf(h: Handle): (n: nat) {
    if h == Unopened then 0 else 1
  }

  function ClosesOf(h: Handle): (n: nat) {
    if h == Shut then 1 else 0
  }

  lemma HandleStep(s: State, a: Action, x: L.Tid)
    requires Inv(s) && Enabled(s, a) && (a.CloseLog? ==> a.t in s.log.threads) && x in s.lives
    ensures x in Step(s, a).lives
    ensures var h, q := s.lives[x].handle, Step(s, a).lives[x].handle;
      && OpensOf(q) == OpensOf(h) + (if a == OpenLog(x) then 1 else 0)
      && ClosesOf(q) == ClosesOf(h) + (if a == CloseLog(x) then 1 else 0)
  {
    hide L.Inv, L.Step, L.Enabled, JoinInv, SaidClosing;
    assert LifeInv(s.log.threads[x], s.lives[x], x);
  }

  lemma {:induction false} HandleRun(s: State, actions: seq<Action>, t: State, x: L.Tid)
    requires Inv(s) && Run(s, actions, t) && x in s.lives
    ensures x in t.lives
    ensures OpensOf(t.lives[x].handle) == OpensOf(s.lives[x].handle) + Opens(actions, x)
    ensures ClosesOf(t.lives[x].handle) == ClosesOf(s.lives[x].handle) + Closes(actions, x)
    decreases |actions|
  {
    hide Inv, Step, Enabled, OpensOf, ClosesOf;
    if actions != [] {
      HandleStep(s, actions[0], x);
      StepInv(s, actions[0]);
      HandleRun(Step(s, actions[0]), actions[1..], t, x);
    }
  }

  /** A thread opens its handle at most once in a schedule and closes it at most once, after opening it; a finished
      main thread has done both. */
  lemma HandleOnce(s: State, actions: seq<Action>, t: State, x: L.Tid)
    requires Init(s) && Run(s, actions, t) && x in s.lives
    ensures Closes(actions, x) <= Opens(actions, x) <= 1
    ensures x in t.lives && (t.lives[x].point == Terminated ==> Closes(actions, x) == Opens(actions, x))
    ensures x == MAIN && t.lives[x].point == Terminated ==> Closes(actions, x) == 1
  {
    InitInv(s);
    HandleRun(s, actions, t, x);
    Reachable(s, actions, t);
    hide Run, Init, L.Inv, JoinInv, SaidClosing;
    assert LifeInv(t.log.threads[x], t.lives[x], x);
  }

  lemma MadeBy(s: State, a: Action, x: L.Tid)
    requires Enabled(s, a) && (a.CloseLog? ==> a.t in s.log.threads) && x in s.log.threads
    ensures x in Step(s, a).log.threads
    ensures L.Made(Step(s, a).log.threads[x]) == L.Made(s.log.threads[x]) + Says(a, x)
  {
    StepRefines(s, a);
    TalkIsCall(s, a);
    hide Step, Enabled, L.Step, L.Enabled, L.Made, L.Read, Says, Talk;
    if LoggerAction(s, a).Some? {
      L.MadeStep(s.log, LoggerAction(s, a).value, x);
    } else {
      assert L.Made(s.log.threads[x]) + [] == L.Made(s.log.threads[x]);
      assert Says(a, x) == [] by { NoTalk(a, x); }
    }
  }

  lemma NoTalk(a: Action, x: L.Tid)
    requires Talk(a).None?
    ensures Says(a, x) == []
  {}

  /** How the two marks of a thread move. */
  lemma MarksStep(s: State, a: Action, x: L.Tid)
    requires Inv(s) && Enabled(s, a) && (a.CloseLog? ==> a.t in s.log.threads) && x in s.lives && x in s.log.threads
    ensures var life, made := s.lives[x], L.Made(s.log.threads[x]);
      x in Step(s, a).lives && var q := Step(s, a).lives[x];
      q.closing == (if a.LogClosing? && a.t == x then Some(|made|) else life.closing)
      && q.shut == (if a.CloseLog? && a.t == x then Some(|made|) else life.shut)
      && (a.LogClosing? && a.t == x ==> life.closing == None && life.shut == None)
      && (a.CloseLog? && a.t == x ==> life.shut == None && Says(a, x) == [])
      && (life.closing.Some? && Says(a, x) != [] ==> a.Caught?)
  {
    hide L.Inv, JoinInv, L.Step, SaidClosing, L.Made;
    assert LifeInv(s.log.threads[x], s.lives[x], x);
  }

  lemma SinceStep(s: State, a: Action, x: L.Tid)
    requires Inv(s) && Enabled(s, a) && (a.CloseLog? ==> a.t in s.log.threads) && x in s.lives && x in s.log.threads
    ensures var t := Step(s, a);
      x in t.lives && x in t.log.threads
      && var life, q := s.lives[x], t.lives[x];
      var said := if a.Caught? && a.t == x then [a.text] else [];
      (q.closing.Some? <==> life.closing.Some? || (a.LogClosing? && a.t == x))
      && (q.shut.Some? <==> life.shut.Some? || (a.CloseLog? && a.t == x))
      && SinceClosing(t.log.threads[x], q) ==
           SinceClosing(s.log.threads[x], life) + (if life.closing.Some? then said else [])
      && SinceShut(t.log.threads[x], q) ==
           SinceShut(s.log.threads[x], life) + (if life.shut.Some? then said else [])
  {
    MadeBy(s, a, x);
    MarksStep(s, a, x);
    MarksInside(s, x);
    SaysCaught(a, x);
    var t := Step(s, a);
    var th, q, life, p := s.log.threads[x], t.log.threads[x], s.lives[x], t.lives[x];
    hide Inv, Enabled, Step, Says, L.Made, LifeInv, SinceClosing, SinceShut;
    ClosingMoves(th, life, q, p, Says(a, x), a.LogClosing? && a.t == x);
    ShutMoves(th, life, q, p, Says(a, x), a.CloseLog? && a.t == x);
  }

  lemma ClosingMoves(th: L.Thread, life: Life, q: L.Thread, p: Life, said: seq<string>, marks: bool)
    requires L.Made(q) == L.Made(th) + said
    requires life.closing.Some? ==> life.closing.value < |L.Made(th)|
    requires p.closing == if marks then Some(|L.Made(th)|) else life.closing
    requires marks ==> life.closing == None && |said| == 1
    ensures SinceClosing(q, p) == SinceClosing(th, life) + (if life.closing.Some? then said else [])
  {
    hide L.Made;
  }

  lemma ShutMoves(th: L.Thread, life: Life, q: L.Thread, p: Life, said: seq<string>, marks: bool)
    requires L.Made(q) == L.Made(th) + said
    requires life.shut.Some? ==> life.shut.value <= |L.Made(th)|
    requires p.shut == if marks then Some(|L.Made(th)|) else life.shut
    requires marks ==> life.shut == None && said == []
    ensures SinceShut(q, p) == SinceShut(th, life) + (if life.shut.Some? then said else [])
  {
    hide L.Made;
  }

  lemma SaysCaught(a: Action, x: L.Tid)
    ensures a.Caught? ==> Says(a, x) == if a.t == x then [a.text] else []
    ensures a.LogClosing? && a.t == x ==> |Says(a, x)| == 1
  {}

  lemma MarksInside(s: State, x: L.Tid)
    requires Inv(s) && x in s.lives && x in s.log.threads
    ensures var life, n := s.lives[x], |L.Made(s.log.threads[x])|;
      (life.shut.Some? ==> life.closing.Some? && life.closing.value < life.shut.value <= n)
      && (life.closing.Some? ==> life.closing.value < n)
  {
    hide L.Inv, JoinInv;
    assert LifeInv(s.log.threads[x], s.lives[x], x);
  }

  lemma {:induction false} LateRun(s: State, actions: seq<Action>, t: State, x: L.Tid)
    requires x in s.lives && x in s.log.threads && Inv(s) && Run(s, actions, t)
    ensures x in t.lives && x in t.log.threads
    ensures SinceClosing(t.log.threads[x], t.lives[x]) ==
      SinceClosing(s.log.threads[x], s.lives[x]) + Late(actions, x, s.lives[x].closing.Some?)
    decreases |actions|
  {
    hide Inv, Step, Enabled, SinceClosing, SinceShut;
    if actions != [] {
      StepInv(s, actions[0]);
      SinceStep(s, actions[0], x);
      LateRun(Step(s, actions[0]), actions[1..], t, x);
    }
  }

  lemma {:induction false} StrayRun(s: State, actions: seq<Action>, t: State, x: L.Tid)
    requires x in s.lives && x in s.log.threads && Inv(s) && Run(s, actions, t)
    ensures x in t.lives && x in t.log.threads
    ensures SinceShut(t.log.threads[x], t.lives[x]) ==
      SinceShut(s.log.threads[x], s.lives[x]) + Stray(actions, x, s.lives[x].shut.Some?)
    decreases |actions|
  {
    hide Inv, Step, Enabled, SinceClosing, SinceShut;
    if actions != [] {
      StepInv(s, actions[0]);
      SinceStep(s, actions[0], x);
      StrayRun(Step(s, actions[0]), actions[1..], t, x);
    }
  }

  /** A thread closes its handle at most once. Its closing message stands among its records at the place that the
      thread's life remembers, and what comes after it is exactly the signals caught after it, which a worker has
      none of; the same holds for what comes after its fclose. A thread that ends without a closed handle has no
      records. */
  lemma ClosingRecord(s: State, actions: seq<Action>, t: State, x: L.Tid)
    requires Init(s) && Run(s, actions, t) && x in s.lives
    ensures x in t.lives && x in t.log.threads
    ensures t.lives[x].closes == if t.lives[x].handle == Shut then 1 else 0
    ensures t.lives[x].handle == Shut ==>
      var records := L.Texts(L.Only(t.log.log, x)) + L.Pending(t.log.threads[x]);
      && t.lives[x].closing.Some? && t.lives[x].shut.Some?
      && var k, n := t.lives[x].closing.value, t.lives[x].shut.value;
      k < n <= |records| && CLOSING_PREFIX <= records[k]
      && records[k + 1..] == Late(actions, x, false) && records[n..] == Stray(actions, x, false)
    ensures x != MAIN ==> Late(actions, x, false) == [] && Stray(actions, x, false) == []
    ensures t.lives[x].point == Terminated && t.lives[x].handle != Shut ==> L.Only(t.log.log, x) == []
  {
    InitInv(s);
    assert x in s.log.threads && s.lives[x].closing == None && s.lives[x].shut == None;
    hide Init, Inv, Run, Late, Stray;
    Reachable(s, actions, t);
    LateRun(s, actions, t, x);
    StrayRun(s, actions, t, x);
    ClosingPlace(t, x);
  }

  /** What the invariant says of a thread's closing message. */
  lemma ClosingPlace(s: State, x: L.Tid)
    requires x in s.lives && x in s.log.threads && Inv(s)
    ensures s.lives[x].closes == if s.lives[x].handle == Shut then 1 else 0
    ensures L.Made(s.log.threads[x]) == L.Texts(L.Only(s.log.log, x)) + L.Pending(s.log.threads[x])
    ensures s.lives[x].handle == Shut ==>
      && s.lives[x].closing.Some? && s.lives[x].shut.Some?
      && var made, k, n := L.Made(s.log.threads[x]), s.lives[x].closing.value, s.lives[x].shut.value;
      k < n <= |made| && CLOSING_PREFIX <= made[k]
    ensures x != MAIN ==>
      SinceClosing(s.log.threads[x], s.lives[x]) == [] && SinceShut(s.log.threads[x], s.lives[x]) == []
    ensures s.lives[x].point == Terminated && s.lives[x].handle != Shut ==> L.Only(s.log.log, x) == []
  {
    assert LifeInv(s.log.threads[x], s.lives[x], x) && L.Inv(s.log);
    hide Inv, L.Inv;
    CompletedAre(s.log, x);
    hide L.Only;
  }

  /** When a thread that has closed its handle is outside the logger, its last record is its closing message if
      and only if it has caught no signal since: always for a worker, not always for the main thread. */
  lemma ClosingIsLast(s: State, actions: seq<Action>, t: State, x: L.Tid)
    requires Init(s) && Run(s, actions, t)
    requires x in s.lives && x in t.lives && t.lives[x].handle == Shut && Outside(t, x)
    ensures var records := L.Only(t.log.log, x);
      t.lives[x].closing.Some? && t.lives[x].closing.value < |records|
      && CLOSING_PREFIX <= records[t.lives[x].closing.value].text
      && (t.lives[x].closing.value == |records| - 1 <==> Late(actions, x, false) == [])
      && (x != MAIN ==> Late(actions, x, false) == [])
  {
    ClosingRecord(s, actions, t, x);
    hide Run, Init, Late, Stray, L.Only;
    var records := L.Only(t.log.log, x);
    assert L.Texts(records) + L.Pending(t.log.threads[x]) == L.Texts(records);
  }

  lemma RecordCount(s: State, x: L.Tid)
    requires Inv(s) && x in s.lives && s.lives[x].handle == Shut
    ensures x in s.log.threads && s.lives[x].shut.Some? && s.lives[x].shut.value <= |L.Texts(L.Only(s.log.log, x))|
  {
    hide L.Inv, JoinInv;
    assert LifeInv(s.log.threads[x], s.lives[x], x);
    CompletedAre(s.log, x);
  }

  /** Characters reach the file through a thread's stream only while its handle is open, except those of a message
      that the main thread logs for a signal caught after its fclose. */
  lemma NoWriteAfterClose(s: State, actions: seq<Action>, t: State, a: Action)
    requires Init(s) && Run(s, actions, t) && Enabled(t, a) && (a.CloseLog? ==> a.t in t.log.threads)
    requires Step(t, a).log.file != t.log.file
    ensures a.Logging? && Actor(a) in t.lives
    ensures t.lives[Actor(a)].handle == Open || (Actor(a) == MAIN && Stray(actions, MAIN, false) != [])
  {
    hide Init, Inv, Run, Step;
    Reachable(s, actions, t);
    OnlyLoggingWrites(t, a);
    WritersAreOpen(t, a.a);
    if t.lives[Actor(a)].handle != Open {
      StrayWriter(s, actions, t);
    }
  }

  lemma StrayWriter(s: State, actions: seq<Action>, t: State)
    requires Init(s) && Run(s, actions, t) && Inv(t)
    requires MAIN in t.lives && t.lives[MAIN].point == Closed
    requires Busy(t, MAIN)
    ensures Stray(actions, MAIN, false) != []
  {
    assert MAIN in s.lives;
    hide Init, Run;
    ShutAt(t, MAIN);
    hide Inv;
    ClosingRecord(s, actions, t, MAIN);
    RecordCount(t, MAIN);
  }

  lemma OnlyLoggingWrites(s: State, a: Action)
    requires Inv(s) && Enabled(s, a) && (a.CloseLog? ==> a.t in s.log.threads)
    requires Step(s, a).log.file != s.log.file
    ensures a.Logging? && !a.a.Tick? && L.Enabled(s.log, a.a) && L.Step(s.log, a.a).file != s.log.file
  {
    hide L.Inv, JoinInv, L.Ready;
    if a.CloseLog? {
      CloseInv(s, a.t);
    }
  }

  lemma WritersAreOpen(s: State, b: L.Action)
    requires Inv(s) && Enabled(s, Logging(b)) && !b.Tick? && L.Step(s.log, b).file != s.log.file
    ensures b.t in s.lives
    ensures s.lives[b.t].handle == Open
      || (b.t == MAIN && s.lives[MAIN].point == Closed && Busy(s, MAIN))
  {
    hide L.TimeInv, L.HolderInv, L.RenderAll, JoinInv;
    assert LifeInv(s.log.threads[b.t], s.lives[b.t], b.t);
  }

  /** All records of all workers come before the main thread's "All worker threads joined", which starts only
      after every worker has terminated. */
  lemma JoinedIsAfterWorkers(s: State, actions: seq<Action>, t: State, i: nat, j: nat)
    requires Init(s) && Run(s, actions, t) && i < |t.log.log| && j < |t.log.log|
    requires t.log.log[i].tid != MAIN
    requires t.log.log[j].tid == MAIN && t.joinCall == Some(t.log.log[j].start)
    ensures i < j && t.log.log[i].end <= t.log.log[j].start && t.log.log[i].stamp <= t.log.log[j].stamp
    ensures forall x :: x in t.lives && x != MAIN ==> t.lives[x].point == Terminated
  {
    Reachable(s, actions, t);
    hide Run, Init, L.FileInv, LifeInv;
    assert JoinInv(t);
    L.LogOrder(t.log.log, t.log.now, t.log.clock, i, j);
  }

  /** When the main thread has finished, every thread has; it has closed its own handle, once. */
  lemma MainFinishesLast(s: State, actions: seq<Action>, t: State)
    requires Init(s) && Run(s, actions, t) && MAIN in t.lives && t.lives[MAIN].point == Terminated
    ensures forall x :: x in t.lives ==> t.lives[x].point == Terminated
    ensures t.lives[MAIN].closes == 1
  {
    hide Run, Init, Inv;
    Reachable(s, actions, t);
    AllEnded(t);
  }

  lemma AllEnded(s: State)
    requires Inv(s) && MAIN in s.lives && s.lives[MAIN].point == Terminated
    ensures forall x :: x in s.lives ==> s.lives[x].point == Terminated
    ensures s.lives[MAIN].closes == 1
  {
    hide L.Inv, SaidClosing;
    assert LifeInv(s.log.threads[MAIN], s.lives[MAIN], MAIN);
    hide LifeInv;
    assert JoinInv(s);
  }

  // ---------- the final message is really written ----------

  /** The call that started at `at` announces the joins, and is under way or on record. */
  ghost predicate Announced(th: L.Thread, at: nat) {
    (th.phase != L.Idle && th.start == at && th.text == JOINED_TEXT)
    || exists k :: 0 <= k < |th.completed| && th.completed[k].start == at && th.completed[k].text == JOINED_TEXT
  }

  ghost predicate AnnounceInv(s: State) {
    && MAIN in s.lives && MAIN in s.log.threads
    && (s.joinCall.Some? ==>
          AfterJoins(s.lives[MAIN].point) && Announced(s.log.threads[MAIN], s.joinCall.value))
  }

  /** Within a call nothing changes; when it returns, it is on record. */
  lemma LocalAnnounces(th: L.Thread, at: nat, b: L.Action, now: nat, clock: nat)
    requires L.Ready(th, b) && !b.Call? && Announced(th, at)
    ensures Announced(L.Local(th, b, now, clock), at)
  {
    hide L.Piece, L.Chunk;
    var q := L.Local(th, b, now, clock);
    if b.Unlock? {
      if th.start == at && th.text == JOINED_TEXT {
        assert q.completed[|th.completed|] == L.EntryOf(b.t, th, now);
      } else {
        var k :| 0 <= k < |th.completed| && th.completed[k].start == at && th.completed[k].text == JOINED_TEXT;
        assert q.completed[k] == th.completed[k];
      }
    }
  }

  lemma LoggingAnnounces(s: State, b: L.Action)
    requires AnnounceInv(s) && L.Enabled(s.log, b) && !b.Call?
    ensures AnnounceInv(s.(log := L.Step(s.log, b)))
  {
    hide L.Local, L.Output, L.EntryOf, L.Ready, Announced;
    if !b.Tick? && b.t == MAIN && s.joinCall.Some? {
      LocalAnnounces(s.log.threads[MAIN], s.joinCall.value, b, s.log.now, s.log.clock);
    }
  }

  lemma AnnounceStep(s: State, a: Action)
    requires AnnounceInv(s) && Enabled(s, a) && (a.CloseLog? ==> a.t in s.log.threads)
    ensures AnnounceInv(Step(s, a))
  {
    hide L.Piece, L.Chunk, L.WritingOk;
    if a.Logging? {
      hide L.Step, L.Enabled;
      LoggingAnnounces(s, a.a);
    }
  }

  lemma {:induction false} AnnounceRun(s: State, actions: seq<Action>, t: State)
    requires AnnounceInv(s) && Run(s, actions, t)
    ensures AnnounceInv(t)
    decreases |actions|
  {
    hide AnnounceInv, Step, Enabled;
    if actions != [] {
      AnnounceStep(s, actions[0]);
      AnnounceRun(Step(s, actions[0]), actions[1..], t);
    }
  }

  lemma OnlyMembers(log: seq<L.Entry>, x: L.Tid, k: nat) returns (j: nat)
    requires k < |L.Only(log, x)|
    ensures j < |log| && log[j] == L.Only(log, x)[k] && log[j].tid == x
  {
    var n := |log| - 1;
    if log[n].tid == x && k == |L.Only(log[..n], x)| {
      j := n;
    } else {
      j := OnlyMembers(log[..n], x, k);
    }
  }

  /** When the main thread has finished, "All worker threads joined" stands in the log, after every record of
      every worker. */
  lemma JoinedIsLogged(s: State, actions: seq<Action>, t: State) returns (j: nat)
    requires Init(s) && Run(s, actions, t) && MAIN in t.lives && t.lives[MAIN].point == Terminated
    ensures j < |t.log.log| && t.log.log[j].tid == MAIN && t.log.log[j].text == JOINED_TEXT
    ensures forall i :: 0 <= i < |t.log.log| && t.log.log[i].tid != MAIN ==> i < j
  {
    assert AnnounceInv(s);
    AnnounceRun(s, actions, t);
    Reachable(s, actions, t);
    assert JoinInv(t);
    hide Run, Init, LifeInv, L.Inv;
    var th := t.log.threads[MAIN];
    var k :| 0 <= k < |th.completed|
      && th.completed[k].start == t.joinCall.value && th.completed[k].text == JOINED_TEXT;
    CompletedAre(t.log, MAIN);
    j := OnlyMembers(t.log.log, MAIN, k);
    hide Inv, JoinInv, AnnounceInv;
    forall i | 0 <= i < |t.log.log| && t.log.log[i].tid != MAIN ensures i < j {
      JoinedIsAfterWorkers(s, actions, t, i, j);
    }
  }

  /** What a thread outside the logger does next, given that it is to leave as soon as it can. */
  function Own(s: State, t: L.Tid): (r: Action)
    requires t in s.lives
  {
    match s.lives[t].point
    case Created => OpenLog(t)
    case Opened => LogOpened(t, OPENED_PREFIX)
    case Inited => LogIds(t, IDS_PREFIX)
    case Cleanup => LogTimer(t)
    case Disarmed => LogClosing(t, CLOSING_PREFIX)
    case Closing => CloseLog(t)
    case Closed => Terminate(t)
    case _ => Exit(t)
  }

  lemma OwnEnabled(s: State, t: L.Tid)
    requires t in s.lives && Outside(s, t)
    requires s.lives[t].point != Absent && s.lives[t].point != Terminated
    requires if t == MAIN then s.lives[t].point != Running else s.lives[t].point != Joined
    ensures Enabled(s, Own(s, t)) && Forward(s, Own(s, t))
  {
    hide L.Enabled;
  }

  /** A step towards the end: no body or signal message, and inside the logger a step that takes its
      thread on. */
  predicate Forward(s: State, a: Action) {
    match a
    case Logging(b) => !b.Tick? && b.t in s.log.threads && L.Forward(s.log.threads[b.t], b)
    case Body(_, _) => false
    case Caught(_, _) => false
    case _ => true
  }

  lemma BusyMoves(s: State, x: L.Tid) returns (a: Action)
    requires L.Inv(s.log) && s.log.threads.Keys == s.lives.Keys && MAIN in s.lives
    requires x in s.log.threads && s.log.threads[x].phase != L.Idle
    ensures Enabled(s, a) && Forward(s, a)
  {
    assert L.FileInv(s.log);
    hide L.Inv, L.FileInv, L.Ready;
    L.NeverStuck(s.log, x);
    var b: L.Action :| L.Enabled(s.log, b) && !b.Tick? && L.Forward(s.log.threads[b.t], b);
    a := Logging(b);
  }

  /** No thread waits for ever: until the main thread has terminated some thread can make a step towards the end. */
  lemma NeverStuck(s: State) returns (a: Action)
    requires Inv(s) && s.lives[MAIN].point != Terminated
    ensures Enabled(s, a) && Forward(s, a)
  {
    hide L.Inv, L.Enabled, LifeInv;
    if x :| x in s.log.threads && s.log.threads[x].phase != L.Idle {
      a := BusyMoves(s, x);
    } else if s.lives[MAIN].point != Running {
      OwnEnabled(s, MAIN);
      a := Own(s, MAIN);
    } else if s.created < s.workers {
      a := Create;
    } else if s.joined == s.workers {
      a := LogJoined;
    } else {
      a := WorkerMoves(s, s.joined + 1);
    }
  }

  /** Once all workers are created and all are outside the logger, the next one to be joined is done or can move. */
  lemma WorkerMoves(s: State, x: L.Tid) returns (a: Action)
    requires MAIN in s.lives && s.lives[MAIN].point == Running
    requires s.created == s.workers && x == s.joined + 1 <= s.workers
    requires forall t :: t in s.log.threads ==> s.log.threads[t].phase == L.Idle
    requires Inv(s)
    ensures Enabled(s, a) && Forward(s, a)
  {
    hide Inv, Enabled, Forward, Outside, Own;
    NextWorker(s, x);
    if s.lives[x].point == Terminated {
      a := Join;
      JoinEnabled(s);
    } else {
      OwnEnabled(s, x);
      a := Own(s, x);
    }
  }

  lemma JoinEnabled(s: State)
    requires MAIN in s.lives && s.lives[MAIN].point == Running && s.created == s.workers && s.joined < s.workers
    requires Outside(s, MAIN) && s.joined + 1 in s.lives && s.lives[s.joined + 1].point == Terminated
    ensures Enabled(s, Join) && Forward(s, Join)
  {}

  lemma NextWorker(s: State, x: L.Tid)
    requires Inv(s) && s.created == s.workers && x == s.joined + 1 <= s.workers
    requires forall t :: t in s.log.threads ==> s.log.threads[t].phase == L.Idle
    ensures x in s.lives && MAIN in s.lives && Outside(s, x) && Outside(s, MAIN)
    ensures s.lives[x].point != Absent && (s.lives[x].point == Joined ==> x == MAIN)
  {
    hide L.Inv, SaidClosing;
    assert LifeInv(s.log.threads[x], s.lives[x], x);
  }

  // ---------- every run can be completed ----------

  function PointRank(p: Point): (r: nat) {
    match p
    case Absent => 10
    case Created => 9
    case Opened => 8
    case Inited => 7
    case Running => 6
    case Joined => 5
    case Cleanup => 4
    case Disarmed => 3
    case Closing => 2
    case Closed => 1
    case Terminated => 0
  }

  function Rank(th: L.Thread, life: Life): (r: nat) {
    10 * PointRank(life.point) + L.PhaseRank(th)
  }

  /** The steps that threads 0 to `n` have before them. */
  ghost function Work(threads: map<L.Tid, L.Thread>, lives: map<L.Tid, Life>, n: nat): (r: nat) {
    (if n in threads && n in lives then Rank(threads[n], lives[n]) else 0)
    + if n == 0 then 0 else Work(threads, lives, n - 1)
  }

  lemma {:induction false} WorkDrops(threads: map<L.Tid, L.Thread>, lives: map<L.Tid, Life>, x: L.Tid,
                                     th: L.Thread, life: Life, n: nat)
    requires x in threads && x in lives
    ensures Work(threads[x := th], lives[x := life], n) ==
      Work(threads, lives, n) + if x <= n then Rank(th, life) - Rank(threads[x], lives[x]) else 0
  {
    hide Rank;
    if n > 0 {
      WorkDrops(threads, lives, x, th, life, n - 1);
    }
  }

  ghost function Measure(s: State): (r: nat) {
    (if s.joined <= s.workers then s.workers - s.joined else 0) + Work(s.log.threads, s.lives, s.workers)
  }

  /** The thread an action moves; Create moves the new worker. */
  function Moved(s: State, a: Action): (r: L.Tid) {
    if a.Create? then s.created + 1 else Actor(a)
  }

  /** `s` becomes `t` by a move of thread `x` alone, which brings it closer to its end. */
  ghost predicate Closer(s: State, t: State, x: L.Tid) {
    && x <= s.workers && x in s.lives && x in s.log.threads && x in t.lives && x in t.log.threads
    && t.lives == s.lives[x := t.lives[x]] && t.log.threads == s.log.threads[x := t.log.threads[x]]
    && t.workers == s.workers && t.joined == s.joined
    && Rank(t.log.threads[x], t.lives[x]) < Rank(s.log.threads[x], s.lives[x])
  }

  lemma LoggingCloser(s: State, b: L.Action)
    requires Inv(s) && Enabled(s, Logging(b)) && Forward(s, Logging(b))
    ensures Closer(s, Step(s, Logging(b)), b.t)
  {
    hide LifeInv, EntryBy, L.Local, L.Ready, L.HolderInv, L.TimeInv, L.Piece, L.WritingOk, L.InSection, L.RenderAll,
         L.PhaseRank;
    WritesInside(s.log, b.t);
    L.ForwardRank(s.log.threads[b.t], b, s.log.now, s.log.clock);
    StepLocal(s.log, b);
  }

  lemma WritesInside(s: L.State, x: L.Tid)
    requires L.FileInv(s) && x in s.threads
    ensures L.WritingOk(s.threads[x])
  {
    hide L.Piece, L.RenderAll, L.Written;
  }

  /** A step of the program itself: the thread passes a point, and starts at most one call. */
  ghost predicate OwnStep(s: State, a: Action) {
    && (a.CloseLog? ==> a.t in s.log.threads)
    && s.joined <= s.created <= s.workers && (forall t: L.Tid :: t in s.lives <==> t <= s.workers)
    && s.lives.Keys == s.log.threads.Keys
    && Enabled(s, a) && Forward(s, a) && !a.Logging? && !a.Join?
  }

  lemma TalkCloser(s: State, a: Action)
    requires OwnStep(s, a) && Talk(a).Some?
    ensures Closer(s, Step(s, a), Actor(a))
  {
    hide L.Piece, L.Made;
  }

  lemma QuietCloser(s: State, a: Action)
    requires OwnStep(s, a) && Talk(a).None?
    requires a.OpenLog? || a.Abandon? ==> Outside(s, a.t)
    requires a.Create? ==> Outside(s, s.created + 1) && s.lives[s.created + 1].point == Absent
    ensures Closer(s, Step(s, a), Moved(s, a))
  {
    hide L.Piece, L.Made;
  }

  lemma OutsideBefore(s: State, x: L.Tid)
    requires x in s.lives && (s.lives[x].point == Absent || s.lives[x].point == Created) && Inv(s)
    ensures Outside(s, x)
  {
    hide L.Inv, JoinInv, SaidClosing;
    assert LifeInv(s.log.threads[x], s.lives[x], x);
  }

  lemma IsOwnStep(s: State, a: Action)
    requires Enabled(s, a) && Forward(s, a) && (a.CloseLog? ==> a.t in s.log.threads)
    requires !a.Logging? && !a.Join? && Inv(s)
    ensures OwnStep(s, a) && (a.Create? ==> s.lives[s.created + 1].point == Absent)
  {
    hide LifeInv, L.Inv, Outside, Forward;
  }

  lemma OwnCloser(s: State, a: Action)
    requires Enabled(s, a) && Forward(s, a) && (a.CloseLog? ==> a.t in s.log.threads)
    requires !a.Logging? && !a.Join? && Inv(s)
    ensures Closer(s, Step(s, a), Moved(s, a))
  {
    hide Inv, LifeInv, Step, Closer, L.Step;
    IsOwnStep(s, a);
    if Talk(a).Some? {
      TalkCloser(s, a);
    } else {
      if a.Create? || a.OpenLog? || a.Abandon? {
        OutsideBefore(s, Moved(s, a));
      }
      QuietCloser(s, a);
    }
  }

  /** Every step towards the end uses up work. */
  lemma ForwardCounts(s: State, a: Action)
    requires Enabled(s, a) && Forward(s, a) && (a.CloseLog? ==> a.t in s.log.threads) && Inv(s)
    ensures Measure(Step(s, a)) < Measure(s)
  {
    if a.Join? {
      hide Inv, Work;
    } else {
      hide Inv, Step, Enabled, Forward, Measure, Closer;
      if a.Logging? {
        LoggingCloser(s, a.a);
      } else {
        OwnCloser(s, a);
      }
      CloserCounts(s, Step(s, a), Moved(s, a));
    }
  }

  lemma CloserCounts(s: State, t: State, x: L.Tid)
    requires Closer(s, t, x)
    ensures Measure(t) < Measure(s)
  {
    hide Rank;
    WorkDrops(s.log.threads, s.lives, x, t.log.threads[x], t.lives[x], s.workers);
  }

  /** From every reachable point the program can be run to its end. */
  lemma {:induction false} Finishes(s: State) returns (actions: seq<Action>, t: State)
    requires Inv(s)
    ensures Run(s, actions, t) && MAIN in t.lives && t.lives[MAIN].point == Terminated
    ensures |actions| <= Measure(s)
    decreases Measure(s)
  {
    hide L.Inv, LifeInv, Step, Enabled, Forward, Measure;
    assert MAIN in s.lives;
    if s.lives[MAIN].point == Terminated {
      return [], s;
    }
    var a := NeverStuck(s);
    StepInv(s, a);
    ForwardCounts(s, a);
    hide Inv;
    var rest, u := Finishes(Step(s, a));
    actions, t := [a] + rest, u;
    assert actions[1..] == rest;
  }

  /** For any number of workers and any log file there is a start, and a run from it to the end. */
  lemma CompleteRunExists(workers: nat, before: string, clock: nat) returns (s: State, actions: seq<Action>, t: State)
    ensures Init(s) && s.workers == workers && s.log.file == before && s.log.clock == clock
    ensures Run(s, actions, t) && MAIN in t.lives && t.lives[MAIN].point == Terminated
  {
    s := StartExists(workers, before, clock);
    InitInv(s);
    hide Init, Inv;
    actions, t := Finishes(s);
  }

  /** `s` followed by steps towards the end only. */
  ghost predicate ForwardRun(s: State, actions: seq<Action>, t: State)
    decreases |actions|
  {
    if actions == [] then s == t
    else
      var a := actions[0];
      && Enabled(s, a) && (a.CloseLog? ==> a.t in s.log.threads) && Forward(s, a)
      && ForwardRun(Step(s, a), actions[1..], t)
  }

  /** However the scheduler chooses among steps towards the end, it has to stop within the remaining work, and it
      can only stop when the main thread has terminated. */
  lemma {:induction false} ForwardRunsEnd(s: State, actions: seq<Action>, t: State)
    requires Inv(s) && ForwardRun(s, actions, t)
    ensures |actions| <= Measure(s) && Run(s, actions, t)
    ensures (exists a :: Enabled(t, a) && Forward(t, a)) || (MAIN in t.lives && t.lives[MAIN].point == Terminated)
    decreases |actions|
  {
    hide Step, Enabled, Forward, Measure, Inv;
    if actions == [] {
      StopsAtEnd(s);
    } else {
      StepInv(s, actions[0]);
      ForwardCounts(s, actions[0]);
      ForwardRunsEnd(Step(s, actions[0]), actions[1..], t);
    }
  }

  lemma StopsAtEnd(s: State)
    requires Inv(s)
    ensures (exists a :: Enabled(s, a) && Forward(s, a)) || (MAIN in s.lives && s.lives[MAIN].point == Terminated)
  {
    hide L.Inv, LifeInv, Enabled, Forward;
    assert MAIN in s.lives;
    if s.lives[MAIN].point != Terminated {
      var a := NeverStuck(s);
    }
  }

  // ---------- a signal after the end ----------

  lemma {:induction false} RunConcat(s: State, a: seq<Action>, t: State, b: seq<Action>, u: State)
    requires Run(s, a, t) && Run(t, b, u)
    ensures Run(s, a + b, u)
    decreases |a|
  {
    hide Step, Enabled;
    if a == [] {
      assert a + b == b;
    } else {
      RunConcat(Step(s, a[0]), a[1..], t, b, u);
      assert (a + b)[0] == a[0] && (a + b)[1..] == a[1..] + b;
    }
  }

  lemma MainStays(s: State, a: Action)
    requires Inv(s) && Enabled(s, a) && (a.CloseLog? ==> a.t in s.log.threads)
    requires s.lives[MAIN].point != Terminated && a != Terminate(MAIN)
    ensures Step(s, a).lives[MAIN].point != Terminated
  {
    hide L.Inv, LifeInv, L.Step, L.Enabled;
  }

  /** From every reachable point before its end the main thread can come to have closed its handle and be about to
      return. */
  lemma {:induction false} ReachesClosed(s: State) returns (actions: seq<Action>, t: State)
    requires Inv(s) && s.lives[MAIN].point != Terminated
    ensures Run(s, actions, t) && MAIN in t.lives && t.lives[MAIN].point == Closed && Outside(t, MAIN) && Inv(t)
    decreases Measure(s)
  {
    hide L.Inv, LifeInv, Step, Forward, Measure;
    assert MAIN in s.lives;
    var a := NeverStuck(s);
    if a == Terminate(MAIN) {
      return [], s;
    }
    StepInv(s, a);
    ForwardCounts(s, a);
    MainStays(s, a);
    hide Inv, Enabled, Outside;
    var rest, u := ReachesClosed(Step(s, a));
    actions, t := [a] + rest, u;
    assert actions[1..] == rest;
  }

  lemma CaughtAtEnd(s: State, text: string) returns (t: State)
    requires MAIN in s.lives && s.lives[MAIN].point == Closed && Outside(s, MAIN) && Inv(s)
    ensures Run(s, [Caught(MAIN, text)], t) && MAIN in t.lives && t.lives[MAIN].point == Closed
    ensures MAIN in t.log.threads && |SinceShut(t.log.threads[MAIN], t.lives[MAIN])| > 0 && Inv(t)
  {
    hide Inv, Enabled, SinceShut, SinceClosing, Outside, Step, Talk, Says;
    var a := Caught(MAIN, text);
    CaughtEnabled(s, text);
    ShutAt(s, MAIN);
    StepInv(s, a);
    SinceStep(s, a, MAIN);
    t := Step(s, a);
    assert [a][1..] == [] && Run(t, [], t);
  }

  lemma CaughtEnabled(s: State, text: string)
    requires MAIN in s.lives && s.lives[MAIN].point == Closed && Outside(s, MAIN)
    ensures Enabled(s, Caught(MAIN, text)) && Step(s, Caught(MAIN, text)).lives == s.lives
  {
    hide L.Step;
  }

  lemma ShutAt(s: State, x: L.Tid)
    requires Inv(s) && x in s.lives && s.lives[x].point == Closed
    ensures x in s.log.threads && s.lives[x].shut.Some? && s.lives[x].handle == Shut
  {
    hide L.Inv, JoinInv, SaidClosing;
    assert LifeInv(s.log.threads[x], s.lives[x], x);
  }

  /** Every program start has a complete run in which the main thread, by a signal caught just before it returns,
      writes a record after its closing message and through its closed handle. */
  lemma SignalSpoilsClosing(s: State, text: string) returns (actions: seq<Action>, t: State)
    requires Init(s)
    ensures Run(s, actions, t) && MAIN in t.lives && t.lives[MAIN].point == Terminated
    ensures Stray(actions, MAIN, false) != [] && Late(actions, MAIN, false) != []
    ensures var records := L.Only(t.log.log, MAIN);
      t.lives[MAIN].shut.Some? && t.lives[MAIN].closing.Some?
      && t.lives[MAIN].closing.value < t.lives[MAIN].shut.value < |records|
  {
    InitInv(s);
    assert MAIN in s.lives && s.lives[MAIN].point != Terminated;
    hide Inv, Run, Init, SinceShut, Late, Stray;
    var a, u := ReachesClosed(s);
    var v := CaughtAtEnd(u, text);
    var b, w := Finishes(v);
    StrayRun(v, b, w, MAIN);
    RunConcat(s, a, u, [Caught(MAIN, text)], v);
    RunConcat(s, a + [Caught(MAIN, text)], v, b, w);
    actions, t := a + [Caught(MAIN, text)] + b, w;
    SpoiltAtEnd(s, actions, t);
  }

  lemma SpoiltAtEnd(s: State, actions: seq<Action>, t: State)
    requires MAIN in t.lives && t.lives[MAIN].point == Terminated && MAIN in t.log.threads
    requires |SinceShut(t.log.threads[MAIN], t.lives[MAIN])| > 0
    requires Init(s) && Run(s, actions, t)
    ensures Stray(actions, MAIN, false) != [] && Late(actions, MAIN, false) != []
    ensures var records := L.Only(t.log.log, MAIN);
      t.lives[MAIN].shut.Some? && t.lives[MAIN].closing.Some?
      && t.lives[MAIN].closing.value < t.lives[MAIN].shut.value < |records|
  {
    assert MAIN in s.lives;
    hide Inv, Run, Init, Late, Stray;
    Reachable(s, actions, t);
    MainAtEnd(t);
    ClosingRecord(s, actions, t, MAIN);
    hide L.Only;
  }

  lemma MainAtEnd(s: State)
    requires MAIN in s.lives && s.lives[MAIN].point == Terminated && MAIN in s.log.threads && Inv(s)
    ensures s.lives[MAIN].handle == Shut && Outside(s, MAIN)
    ensures L.Made(s.log.threads[MAIN]) == L.Texts(L.Only(s.log.log, MAIN))
  {
    hide L.Inv, SaidClosing;
    assert LifeInv(s.log.threads[MAIN], s.lives[MAIN], MAIN);
    CompletedAre(s.log, MAIN);
  }
}
