/** Messages over two one-way pipes: header and data go out in two writes and are taken in by two reads.
    Each process follows a script of sends and receives; the two are interleaved call by call. */
module Pipes {
  import opened Basics
  import opened Codec

  const PIPE_BUF := 4096        // writes up to this size are atomic
  const CAPACITY := 65536       // a write that does not fit blocks

  datatype Op = Send(m: Message) | Receive

  /** The raw bytes of a header struct. */
  type Struct = b: seq<byte> | |b| == HEADER_SIZE witness [0, 0, 0, 0, 0, 0, 0, 0, 0, 0, 0, 0, 0, 0, 0, 0]

  /** `half` is set between the header call and the data call of an operation. `header` holds
      whatever it held before until a read overwrites it. */
  datatype Proc = Proc(script: seq<Op>, pc: nat, half: bool, header: Struct, inbox: seq<Message>)

  datatype State = State(toParent: seq<byte>, toChild: seq<byte>, parent: Proc, child: Proc) {
    function At(w: Who): (r: Proc) {
      if w == Parent then parent else child
    }

    /** The pipe that `w` reads. */
    function Into(w: Who): (r: seq<byte>) {
      if w == Parent then toParent else toChild
    }

    function With(w: Who, p: Proc): (r: State) {
      if w == Parent then this.(parent := p) else this.(child := p)
    }

    function Fill(w: Who, pipe: seq<byte>): (r: State) {
      if w == Parent then this.(toParent := pipe) else this.(toChild := pipe)
    }
  }

  datatype Outcome = Next(s: State) | Blocked | Finished

  /** The bytes of the next write of a send. */
  function Outgoing(p: Proc): (r: seq<byte>)
    requires p.pc < |p.script| && p.script[p.pc].Send?
  {
    if p.half then p.script[p.pc].m.data else HeaderBytes(p.script[p.pc].m.header)
  }

  /** How many bytes the next read of a receive asks for. */
  function Requested(p: Proc): (r: nat)
  {
    if p.half then ParseHeader(p.header).dataLen else HEADER_SIZE
  }

  function Turn(p: Proc): (r: Proc) {
    if p.half then p.(pc := p.pc + 1, half := false) else p.(half := true)
  }

  /** A read returns what is there, up to the request; short header reads leave old bytes in the struct,
      short data reads leave the rest of the fresh buffer unset (here zero). */
  function Take(p: Proc, got: seq<byte>): (r: Proc)
    requires |got| <= Requested(p)
  {
    if p.half then
      Turn(p).(inbox := p.inbox + [Message(ParseHeader(p.header), got + seq(Requested(p) - |got|, _ => 0))])
    else Turn(p).(header := got + p.header[|got|..])
  }

  function Min(a: nat, b: nat): (r: nat) {
    if a < b then a else b
  }

  /** One write or one read. */
  function Step(s: State, w: Who): (r: Outcome)
  {
    var p := s.At(w);
    if p.pc >= |p.script| then Finished
    else if p.script[p.pc].Send? then
      var pipe := s.Into(Other(w));
      if |pipe| + |Outgoing(p)| > CAPACITY then Blocked
      else Next(s.With(w, Turn(p)).Fill(Other(w), pipe + Outgoing(p)))
    else
      var pipe := s.Into(w);
      if pipe == [] && Requested(p) > 0 then Blocked
      else
        var n := Min(Requested(p), |pipe|);
        Next(s.With(w, Take(p, pipe[..n])).Fill(w, pipe[n..]))
  }

  // ---------- scripts ----------

  function Sends(script: seq<Op>): (r: seq<Message>) {
    if script == [] then []
    else Sends(script[..|script| - 1]) + if script[|script| - 1].Send? then [script[|script| - 1].m] else []
  }

  function Receives(script: seq<Op>): (r: nat) {
    if script == [] then 0
    else Receives(script[..|script| - 1]) + if script[|script| - 1].Receive? then 1 else 0
  }

  /** Every payload fits one atomic write. */
  predicate Sendable(script: seq<Op>) {
    forall op :: op in script && op.Send? ==> op.m.Valid() && |op.m.data| <= PIPE_BUF
  }

  ghost predicate Init(s: State) {
    && s.toParent == [] && s.toChild == []
    && forall w :: var p := s.At(w);
         p.pc == 0 && !p.half && p.inbox == [] && Sendable(p.script)
  }

  // ---------- the stream of chunks ----------

  /** The `k`-th write for a list of messages: headers at even, data at odd places. */
  function Chunk(ms: seq<Message>, k: nat): (r: seq<byte>)
    requires k < 2 * |ms|
  {
    if k % 2 == 0 then HeaderBytes(ms[k / 2].header) else ms[k / 2].data
  }

  /** The first `k` writes run together. */
  function Stream(ms: seq<Message>, k: nat): (r: seq<byte>)
    requires k <= 2 * |ms|
  {
    if k == 0 then [] else Stream(ms, k - 1) + Chunk(ms, k - 1)
  }

  lemma PrefixTransitive(a: seq<byte>, b: seq<byte>, c: seq<byte>)
    requires a <= b && b <= c
    ensures a <= c
  {}

  lemma {:induction false} StreamMonotone(ms: seq<Message>, j: nat, k: nat)
    requires j <= k <= 2 * |ms|
    ensures Stream(ms, j) <= Stream(ms, k)
    decreases k - j
  {
    hide Chunk;
    if j < k {
      StreamMonotone(ms, j, k - 1);
      var a, b, c := Stream(ms, j), Stream(ms, k - 1), Stream(ms, k);
      assert b <= c;
      PrefixTransitive(a, b, c);
    }
  }

  /** With `w` chunks written and `r` read, a nonempty pipe starts with the whole next chunk. */
  lemma FrontChunk(ms: seq<Message>, w: nat, r: nat, pipe: seq<byte>)
    requires w <= 2 * |ms| && r < 2 * |ms| && Stream(ms, w) == Stream(ms, r) + pipe
    requires pipe != [] || Chunk(ms, r) == []
    ensures Chunk(ms, r) <= pipe
    ensures Stream(ms, w) == Stream(ms, r + 1) + pipe[|Chunk(ms, r)|..]
  {
    hide Chunk;
    var c := Chunk(ms, r);
    assert Stream(ms, r + 1) == Stream(ms, r) + c;
    if c != [] {
      if w <= r {
        StreamMonotone(ms, w, r);
      } else {
        StreamMonotone(ms, r + 1, w);
        SplitFront(Stream(ms, r), c, pipe);
      }
    }
  }

  lemma SplitFront(a: seq<byte>, c: seq<byte>, pipe: seq<byte>)
    requires a + c <= a + pipe
    ensures c <= pipe && a + pipe == (a + c) + pipe[|c|..]
  {
    assert c == (a + c)[|a|..] == (a + pipe)[|a|..|a| + |c|] == pipe[..|c|];
  }

  lemma EmptyBeyond(ms: seq<Message>, w: nat, pipe: seq<byte>)
    requires w <= 2 * |ms| && Stream(ms, w) == Stream(ms, 2 * |ms|) + pipe
    ensures pipe == []
  {
    StreamMonotone(ms, w, 2 * |ms|);
  }

  // ---------- the invariant ----------

  predicate Sending(p: Proc) {
    p.pc < |p.script| && p.script[p.pc].Send?
  }

  predicate Receiving(p: Proc) {
    p.pc < |p.script| && p.script[p.pc].Receive?
  }

  /** Writes done so far. */
  function Written(p: Proc): (r: nat)
    requires p.pc <= |p.script|
  {
    2 * |Sends(p.script[..p.pc])| + if Sending(p) && p.half then 1 else 0
  }

  /** Reads done so far. */
  function ReadSoFar(p: Proc): (r: nat)
    requires p.pc <= |p.script|
  {
    2 * Receives(p.script[..p.pc]) + if Receiving(p) && p.half then 1 else 0
  }

  ghost predicate ProcInv(p: Proc) {
    p.pc <= |p.script| && (p.half ==> p.pc < |p.script|) && Sendable(p.script)
  }

  /** What the reader has consumed and what is in the pipe is what the writer has written; whole messages
      have come out, and a header in hand is the header sent. */
  ghost predicate PathInv(writer: Proc, reader: Proc, pipe: seq<byte>) {
    && ProcInv(writer) && ProcInv(reader)
    && var ms := Sends(writer.script);
       var done := Receives(reader.script[..reader.pc]);
       && Written(writer) <= 2 * |ms| && ReadSoFar(reader) <= 2 * |ms|
       && Stream(ms, Written(writer)) == Stream(ms, ReadSoFar(reader)) + pipe
       && reader.inbox == ms[..done]
       && (Receiving(reader) && reader.half ==> reader.header == HeaderBytes(ms[done].header))
  }

  ghost predicate Inv(s: State) {
    && PathInv(s.child, s.parent, s.toParent) && |s.toParent| <= CAPACITY
    && PathInv(s.parent, s.child, s.toChild) && |s.toChild| <= CAPACITY
  }

  lemma {:induction false} SendsPrefix(script: seq<Op>, k: nat)
    requires k <= |script|
    ensures Sends(script[..k]) <= Sends(script)
    decreases |script| - k
  {
    if k < |script| {
      SendsPrefix(script, k + 1);
      SendsNext(script, k);
    } else {
      assert script[..k] == script;
    }
  }

  lemma SendsNext(script: seq<Op>, k: nat)
    requires k < |script|
    ensures Sends(script[..k + 1]) == Sends(script[..k]) + if script[k].Send? then [script[k].m] else []
    ensures Receives(script[..k + 1]) == Receives(script[..k]) + if script[k].Receive? then 1 else 0
  {
    assert script[..k + 1][..k] == script[..k];
  }

  /** The message of the current send in its place among all messages of the script. */
  lemma CurrentSend(script: seq<Op>, k: nat)
    requires k < |script| && script[k].Send?
    ensures var n := |Sends(script[..k])|; n < |Sends(script)| && Sends(script)[n] == script[k].m
  {
    SendsNext(script, k);
    SendsPrefix(script, k + 1);
  }

  lemma {:induction false} SendsValid(script: seq<Op>)
    requires Sendable(script)
    ensures forall m :: m in Sends(script) ==> m.Valid() && |m.data| <= PIPE_BUF
  {
    if script != [] {
      assert Sendable(script[..|script| - 1]);
      SendsValid(script[..|script| - 1]);
      assert script[|script| - 1] in script;
    }
  }

  /** The next write is the next chunk, and is small enough to be atomic. */
  lemma NextWrite(p: Proc)
    requires ProcInv(p) && Sending(p)
    ensures var ms := Sends(p.script);
      Written(p) < 2 * |ms| && Outgoing(p) == Chunk(ms, Written(p)) && Written(Turn(p)) == Written(p) + 1
    ensures |Outgoing(p)| <= PIPE_BUF
  {
    hide HeaderBytes;
    CurrentSend(p.script, p.pc);
    SendsNext(p.script, p.pc);
    assert p.script[p.pc] in p.script;
  }

  lemma StreamNext(ms: seq<Message>, k: nat)
    requires k < 2 * |ms|
    ensures Stream(ms, k + 1) == Stream(ms, k) + Chunk(ms, k)
  {
    hide Chunk;
  }

  lemma Associate(a: seq<byte>, b: seq<byte>, c: seq<byte>)
    ensures (a + b) + c == a + (b + c)
  {}

  /** A write appends the next chunk, in one piece. */
  lemma SendStep(writer: Proc, reader: Proc, pipe: seq<byte>)
    requires PathInv(writer, reader, pipe) && Sending(writer)
    ensures PathInv(Turn(writer), reader, pipe + Outgoing(writer))
  {
    hide Chunk, Outgoing, Written, HeaderBytes, Sends, ReadSoFar, Receives, Stream, Receiving;
    NextWrite(writer);
    var ms, w, r := Sends(writer.script), Written(writer), ReadSoFar(reader);
    StreamNext(ms, w);
    Associate(Stream(ms, r), pipe, Chunk(ms, w));
  }

  /** Writing does not disturb the sender's own reading position, nor reading its writing position. */
  lemma OtherSide(p: Proc)
    requires ProcInv(p) && p.pc < |p.script|
    ensures Sending(p) ==> ReadSoFar(Turn(p)) == ReadSoFar(p)
    ensures Sending(p) ==> Receives(p.script[..Turn(p).pc]) == Receives(p.script[..p.pc])
    ensures Receiving(p) ==> Written(Turn(p)) == Written(p)
  {
    hide Sends, Receives;
    SendsNext(p.script, p.pc);
  }

  lemma SenderReads(writer: Proc, p: Proc, pipe: seq<byte>)
    requires PathInv(writer, p, pipe) && Sending(p)
    ensures PathInv(writer, Turn(p), pipe)
  {
    hide Written, Sends, Stream, Receives, ReadSoFar, HeaderBytes;
    OtherSide(p);
    TurnedSender(p);
  }

  lemma TurnedSender(p: Proc)
    requires ProcInv(p) && Sending(p)
    ensures ProcInv(Turn(p)) && !(Receiving(Turn(p)) && Turn(p).half)
  {}

  lemma ReceiverWrites(p: Proc, q: Proc, reader: Proc, pipe: seq<byte>)
    requires PathInv(p, reader, pipe) && Receiving(p)
    requires q.script == p.script && q.pc == Turn(p).pc && q.half == Turn(p).half
    ensures PathInv(q, reader, pipe)
  {
    hide Sends, Stream, Receives, ReadSoFar, HeaderBytes;
    OtherSide(p);
    assert Written(q) == Written(Turn(p));
    hide Written;
  }

  /** The request of a read is the length of the chunk it is meant for. */
  lemma RequestIsChunk(writer: Proc, reader: Proc, pipe: seq<byte>)
    requires PathInv(writer, reader, pipe) && Receiving(reader) && ReadSoFar(reader) < 2 * |Sends(writer.script)|
    ensures Requested(reader) == |Chunk(Sends(writer.script), ReadSoFar(reader))|
  {
    hide Stream, Sends, Receives;
    var ms, r := Sends(writer.script), ReadSoFar(reader);
    SendsValid(writer.script);
    assert ms[r / 2] in ms;
    HeaderRoundTrip(ms[r / 2].header);
  }

  lemma ReadsLeft(writer: Proc, reader: Proc, pipe: seq<byte>)
    requires PathInv(writer, reader, pipe) && Receiving(reader) && (pipe != [] || Requested(reader) == 0)
    ensures ReadSoFar(reader) < 2 * |Sends(writer.script)|
  {
    hide Stream, Sends, Receives, Written, HeaderBytes;
    if ReadSoFar(reader) == 2 * |Sends(writer.script)| {
      EmptyBeyond(Sends(writer.script), Written(writer), pipe);
    }
  }

  /** The next read, when it does not block, gets exactly one whole chunk: its request is the chunk's length
      and the pipe holds all of it. */
  lemma NextRead(writer: Proc, reader: Proc, pipe: seq<byte>)
    requires PathInv(writer, reader, pipe) && Receiving(reader) && (pipe != [] || Requested(reader) == 0)
    ensures var ms, r := Sends(writer.script), ReadSoFar(reader);
      r < 2 * |ms| && Requested(reader) == |Chunk(ms, r)| <= |pipe| && pipe[..Requested(reader)] == Chunk(ms, r)
      && Stream(ms, Written(writer)) == Stream(ms, r + 1) + pipe[Requested(reader)..]
  {
    hide Stream, Sends, Receives, Written, ReadSoFar, Chunk, HeaderBytes, Requested, Receiving;
    ReadsLeft(writer, reader, pipe);
    RequestIsChunk(writer, reader, pipe);
    FrontChunk(Sends(writer.script), Written(writer), ReadSoFar(reader), pipe);
  }

  /** The reader's own record after a read of the chunk `c`. */
  lemma TakeIsRight(writer: Proc, reader: Proc, pipe: seq<byte>, c: seq<byte>)
    requires PathInv(writer, reader, pipe) && Receiving(reader) && |c| == Requested(reader)
    requires ReadSoFar(reader) < 2 * |Sends(writer.script)| && c == Chunk(Sends(writer.script), ReadSoFar(reader))
    ensures var ms, q := Sends(writer.script), Take(reader, c);
      ProcInv(q) && ReadSoFar(q) == ReadSoFar(reader) + 1
      && q.inbox == ms[..Receives(q.script[..q.pc])]
      && (Receiving(q) && q.half ==> q.header == HeaderBytes(ms[Receives(q.script[..q.pc])].header))
  {
    hide Stream, Sends, Receives;
    SendsNext(reader.script, reader.pc);
    SendsValid(writer.script);
    var ms, k := Sends(writer.script), Receives(reader.script[..reader.pc]);
    assert ms[k] in ms;
    HeaderRoundTrip(ms[k].header);
    hide HeaderBytes, ParseHeader;
    if reader.half {
      assert c + seq(0, _ => 0) == c;
      assert ms[..k + 1] == ms[..k] + [ms[k]];
    } else {
      assert c + reader.header[|c|..] == c;
    }
  }

  /** A read takes one whole chunk out; after the data read the message has been rebuilt exactly. */
  lemma ReceiveStep(writer: Proc, reader: Proc, pipe: seq<byte>)
    requires PathInv(writer, reader, pipe) && Receiving(reader) && (pipe != [] || Requested(reader) == 0)
    ensures var n := Requested(reader);
      n <= |pipe| && PathInv(writer, Take(reader, pipe[..n]), pipe[n..])
  {
    hide Stream, Sends, Receives, Written, ReadSoFar, Chunk, HeaderBytes, Requested, Receiving;
    NextRead(writer, reader, pipe);
    TakeIsRight(writer, reader, pipe, pipe[..Requested(reader)]);
    hide Take;
  }

  lemma InitInv(s: State)
    requires Init(s)
    ensures Inv(s)
  {
    assert ProcInv(s.At(Parent)) && ProcInv(s.At(Child));
    EmptyScript(s.parent.script);
    EmptyScript(s.child.script);
  }

  lemma EmptyScript(script: seq<Op>)
    ensures Sends(script[..0]) == [] && Receives(script[..0]) == 0
  {}

  lemma SendInv(s: State, w: Who)
    requires Inv(s) && Sending(s.At(w)) && |s.Into(Other(w))| + |Outgoing(s.At(w))| <= CAPACITY
    ensures var p := s.At(w); Inv(s.With(w, Turn(p)).Fill(Other(w), s.Into(Other(w)) + Outgoing(p)))
  {
    hide PathInv, Sending, Outgoing, Turn;
    var p, o := s.At(w), s.At(Other(w));
    assert PathInv(p, o, s.Into(Other(w))) && PathInv(o, p, s.Into(w));
    SendStep(p, o, s.Into(Other(w)));
    SenderReads(o, p, s.Into(w));
  }

  lemma ReceiveInv(s: State, w: Who)
    requires Inv(s) && Receiving(s.At(w)) && (s.Into(w) != [] || Requested(s.At(w)) == 0)
    ensures var p, pipe := s.At(w), s.Into(w);
      Requested(p) <= |pipe| && Inv(s.With(w, Take(p, pipe[..Requested(p)])).Fill(w, pipe[Requested(p)..]))
  {
    hide PathInv, Receiving, Take, Requested;
    var p, o, pipe := s.At(w), s.At(Other(w)), s.Into(w);
    assert PathInv(p, o, s.Into(Other(w))) && PathInv(o, p, pipe);
    ReceiveStep(o, p, pipe);
    TakeTurns(p, pipe[..Requested(p)]);
    ReceiverWrites(p, Take(p, pipe[..Requested(p)]), o, s.Into(Other(w)));
  }

  lemma TakeTurns(p: Proc, got: seq<byte>)
    requires |got| == Requested(p)
    ensures var q := Take(p, got);
      q.script == p.script && q.pc == Turn(p).pc && q.half == Turn(p).half
  {}

  lemma StepInv(s: State, w: Who)
    requires Inv(s) && Step(s, w).Next?
    ensures Inv(Step(s, w).s)
  {
    hide Outgoing, Requested, Take, Inv, Turn, HeaderBytes, Sendable;
    if Sending(s.At(w)) {
      SendInv(s, w);
    } else {
      ReceiveInv(s, w);
    }
  }

  // ---------- progress ----------

  /** The processes agree on who speaks when: every send meets a receive at the same place. */
  ghost predicate Dual(a: seq<Op>, b: seq<Op>) {
    |a| == |b| && forall i :: 0 <= i < |a| ==> a[i].Send? == b[i].Receive?
  }

  lemma {:induction false} DualCounts(a: seq<Op>, b: seq<Op>, k: nat)
    requires Dual(a, b) && k <= |a|
    ensures |Sends(a[..k])| == Receives(b[..k])
  {
    if k > 0 {
      DualCounts(a, b, k - 1);
      SendsNext(a, k - 1);
      SendsNext(b, k - 1);
    }
  }

  lemma {:induction false} CountsGrow(script: seq<Op>, j: nat, k: nat)
    requires j <= k <= |script|
    ensures |Sends(script[..j])| <= |Sends(script[..k])| && Receives(script[..j]) <= Receives(script[..k])
  {
    if j < k {
      CountsGrow(script, j, k - 1);
      SendsNext(script, k - 1);
    }
  }

  /** The `i`-th calls on the two sides belong together. */
  ghost predicate Paired(writer: Proc, reader: Proc) {
    Dual(writer.script, reader.script) && ProcInv(writer) && ProcInv(reader)
  }

  /** The process that is behind in the conversation is behind on the pipe. */
  lemma BehindReads(writer: Proc, reader: Proc)
    requires Paired(writer, reader) && Receiving(reader) && reader.pc < writer.pc
    ensures ReadSoFar(reader) < Written(writer)
  {
    var k := reader.pc;
    DualCounts(writer.script, reader.script, k);
    SendsNext(writer.script, k);
    CountsGrow(writer.script, k + 1, writer.pc);
    hide Sends, Receives;
  }

  lemma BehindWrites(writer: Proc, reader: Proc)
    requires Paired(writer, reader) && Sending(writer) && writer.pc < reader.pc
    ensures Written(writer) < ReadSoFar(reader)
  {
    var k := writer.pc;
    DualCounts(writer.script, reader.script, k);
    SendsNext(reader.script, k);
    CountsGrow(reader.script, k + 1, reader.pc);
    hide Sends, Receives;
  }

  /** What is written and not yet read is there to be read. */
  lemma AheadFeeds(writer: Proc, reader: Proc, pipe: seq<byte>)
    requires PathInv(writer, reader, pipe) && Receiving(reader) && ReadSoFar(reader) < Written(writer)
    ensures pipe != [] || Requested(reader) == 0
  {
    hide Sends, Receives, Stream, Written, ReadSoFar, Requested, Chunk;
    var ms, r := Sends(writer.script), ReadSoFar(reader);
    RequestIsChunk(writer, reader, pipe);
    StreamMonotone(ms, r + 1, Written(writer));
    StreamNext(ms, r);
  }

  /** A reader can only get ahead of the writer by reading nothing at all. */
  lemma AheadReadsNothing(writer: Proc, reader: Proc, pipe: seq<byte>)
    requires PathInv(writer, reader, pipe) && Sending(writer) && Written(writer) < ReadSoFar(reader)
    ensures Outgoing(writer) == []
  {
    hide Sends, Receives, Stream, Written, ReadSoFar, Outgoing, Chunk;
    var ms, w := Sends(writer.script), Written(writer);
    NextWrite(writer);
    StreamMonotone(ms, w + 1, ReadSoFar(reader));
    StreamNext(ms, w);
  }

  lemma LevelIsEmpty(writer: Proc, reader: Proc, pipe: seq<byte>)
    requires PathInv(writer, reader, pipe) && Written(writer) == ReadSoFar(reader)
    ensures pipe == []
  {}

  lemma Level(writer: Proc, reader: Proc)
    requires Paired(writer, reader) && Sending(writer) && reader.pc == writer.pc
    ensures Receiving(reader)
    ensures Written(writer) - ReadSoFar(reader) == (if writer.half then 1 else 0) - (if reader.half then 1 else 0)
  {
    DualCounts(writer.script, reader.script, writer.pc);
    hide Sends, Receives;
  }

  predicate MayWrite(p: Proc, pipe: seq<byte>) {
    Sending(p) && |pipe| + |Outgoing(p)| <= CAPACITY
  }

  predicate MayRead(p: Proc, pipe: seq<byte>) {
    Receiving(p) && (pipe != [] || Requested(p) == 0)
  }

  /** A process with work left that is not ahead can make its call, or its partner in the same call can. */
  lemma SlowerMoves(s: State, w: Who)
    requires Inv(s) && Dual(s.parent.script, s.child.script)
    requires s.At(w).pc <= s.At(Other(w)).pc && s.At(w).pc < |s.At(w).script|
    ensures MayWrite(s.At(w), s.Into(Other(w))) || MayRead(s.At(w), s.Into(w))
      || (s.At(w).pc == s.At(Other(w)).pc
          && (MayWrite(s.At(Other(w)), s.Into(w)) || MayRead(s.At(Other(w)), s.Into(Other(w)))))
  {
    var p, o := s.At(w), s.At(Other(w));
    assert PathInv(p, o, s.Into(Other(w))) && PathInv(o, p, s.Into(w));
    assert Paired(p, o) && Paired(o, p);
    hide PathInv, Paired, Outgoing, Requested, Written, ReadSoFar;
    if Sending(p) {
      SenderOrPartner(p, o, s.Into(Other(w)));
    } else if p.pc < o.pc {
      BehindReads(o, p);
      AheadFeeds(o, p, s.Into(w));
    } else {
      assert Sending(o);
      SenderOrPartner(o, p, s.Into(w));
    }
  }

  lemma SenderOrPartner(writer: Proc, reader: Proc, pipe: seq<byte>)
    requires PathInv(writer, reader, pipe) && Paired(writer, reader) && |pipe| <= CAPACITY
    requires Sending(writer) && writer.pc <= reader.pc
    ensures MayWrite(writer, pipe) || (reader.pc == writer.pc && MayRead(reader, pipe))
  {
    if writer.pc < reader.pc {
      BehindWrites(writer, reader);
    } else {
      Level(writer, reader);
    }
    NextWrite(writer);
    if Written(writer) < ReadSoFar(reader) {
      AheadReadsNothing(writer, reader, pipe);
    } else if Written(writer) == ReadSoFar(reader) {
      LevelIsEmpty(writer, reader, pipe);
    } else {
      AheadFeeds(writer, reader, pipe);
    }
  }

  predicate BothDone(s: State) {
    s.parent.pc >= |s.parent.script| && s.child.pc >= |s.child.script|
  }

  /** With an agreed conversation of any length the two are never both waiting, however full or empty the
      pipes are. */
  lemma NeverStuck(s: State)
    requires Inv(s) && Dual(s.parent.script, s.child.script) && !BothDone(s)
    ensures Step(s, Parent).Next? || Step(s, Child).Next?
  {
    hide Inv, Outgoing, Requested, Take;
    assert |s.parent.script| == |s.child.script|;
    SlowerMoves(s, if s.parent.pc <= s.child.pc then Parent else Child);
  }

  /** A process that waits on an empty pipe has a partner with calls still to make, which keeps the write end
      open: no read meets the end of the file. */
  lemma BlockedMeansPartnerAtWork(s: State, w: Who)
    requires Inv(s) && Dual(s.parent.script, s.child.script) && Step(s, w).Blocked?
    ensures s.At(Other(w)).pc < |s.At(Other(w)).script|
  {
    var p, o := s.At(w), s.At(Other(w));
    hide Inv, Outgoing, Requested, Take;
    assert Inv(s) && |o.script| == |p.script|;
    if o.pc >= |o.script| {
      SlowerMoves(s, w);
    }
  }

  /** A write of at least one byte has a partner with calls still to make, which keeps the read end open: no
      write meets a pipe without a reader. */
  lemma WriteMeansPartnerAtWork(s: State, w: Who)
    requires Inv(s) && Dual(s.parent.script, s.child.script) && Sending(s.At(w)) && Outgoing(s.At(w)) != []
    ensures s.At(Other(w)).pc < |s.At(Other(w)).script|
  {
    var p, o := s.At(w), s.At(Other(w));
    assert PathInv(p, o, s.Into(Other(w))) && Paired(p, o);
    hide PathInv, Outgoing, Written, ReadSoFar, Paired;
    if o.pc >= |o.script| {
      assert Dual(p.script, o.script);
      BehindWrites(p, o);
      AheadReadsNothing(p, o, s.Into(Other(w)));
    }
  }

  // ---------- runs ----------

  /** Runs the processes in the order given; a turn of a process that cannot move changes nothing. */
  function Exec(s: State, schedule: seq<Who>): (r: State)
    decreases |schedule|
  {
    if schedule == [] then s
    else
      match Step(s, schedule[0])
      case Next(t) => Exec(t, schedule[1..])
      case _ => Exec(s, schedule[1..])
  }

  /** Calls still to be made. */
  function Left(p: Proc): (r: int) {
    2 * (|p.script| - p.pc) - if p.half then 1 else 0
  }

  function Measure(s: State): (r: int) {
    Left(s.parent) + Left(s.child)
  }

  lemma StepCounts(s: State, w: Who)
    requires Step(s, w).Next?
    ensures Measure(Step(s, w).s) == Measure(s) - 1
    ensures forall v :: Step(s, w).s.At(v).script == s.At(v).script
  {
    hide Outgoing, Requested;
    assert Step(s, w).s.At(w).script == s.At(w).script;
    assert Step(s, w).s.At(Other(w)) == s.At(Other(w));
  }

  lemma MeasureZero(s: State)
    requires Inv(s)
    ensures Measure(s) >= 0
    ensures BothDone(s) <==> Measure(s) == 0
  {
    hide Sends, Receives, Stream, Written, ReadSoFar;
  }

  lemma {:induction false} ExecInv(s: State, schedule: seq<Who>)
    requires Inv(s)
    ensures Inv(Exec(s, schedule))
    ensures forall v :: Exec(s, schedule).At(v).script == s.At(v).script
    decreases |schedule|
  {
    hide Inv, Step;
    if schedule != [] {
      if Step(s, schedule[0]).Next? {
        StepInv(s, schedule[0]);
        StepCounts(s, schedule[0]);
        ExecInv(Step(s, schedule[0]).s, schedule[1..]);
      } else {
        ExecInv(s, schedule[1..]);
      }
    }
  }

  /** In every interleaving, at every point, each process has rebuilt exactly the first messages the other
      sends, as many as it has received. */
  lemma InOrder(s: State, schedule: seq<Who>, w: Who)
    requires Init(s)
    ensures var t := Exec(s, schedule);
      t.At(w).pc <= |s.At(w).script|
      && Receives(s.At(w).script[..t.At(w).pc]) <= |Sends(s.At(Other(w)).script)|
      && t.At(w).inbox == Sends(s.At(Other(w)).script)[..Receives(s.At(w).script[..t.At(w).pc])]
  {
    InitInv(s);
    ExecInv(s, schedule);
    hide Exec, Sends, Receives, Stream;
    var t := Exec(s, schedule);
    assert PathInv(t.At(Other(w)), t.At(w), t.Into(w));
  }

  /** In every interleaving a read that returns takes out exactly what one write put in: a whole header
      or the whole data of one message, never a part and never bytes of the next. */
  lemma WholeChunks(s: State, schedule: seq<Who>, w: Who)
    requires Init(s)
    ensures var t, ms := Exec(s, schedule), Sends(s.At(Other(w)).script);
      MayRead(t.At(w), t.Into(w)) ==>
        ReadSoFar(t.At(w)) < 2 * |ms|
        && Requested(t.At(w)) <= |t.Into(w)|
        && t.Into(w)[..Requested(t.At(w))] == Chunk(ms, ReadSoFar(t.At(w)))
        && Step(t, w).Next? && Step(t, w).s.Into(w) == t.Into(w)[Requested(t.At(w))..]
  {
    InitInv(s);
    ExecInv(s, schedule);
    var t := Exec(s, schedule);
    assert PathInv(t.At(Other(w)), t.At(w), t.Into(w));
    hide Exec, Sends, Receives, Stream, ReadSoFar, Chunk, PathInv, Inv, Requested, Take;
    if MayRead(t.At(w), t.Into(w)) {
      NextRead(t.At(Other(w)), t.At(w), t.Into(w));
    }
  }

  /** From any reachable state of an agreed conversation some continuation finishes, and it takes exactly the
      calls that were left. */
  lemma {:induction false} Finishes(s: State) returns (schedule: seq<Who>)
    requires Inv(s) && Dual(s.parent.script, s.child.script)
    ensures |schedule| == Measure(s) && BothDone(Exec(s, schedule))
    decreases Measure(s)
  {
    MeasureZero(s);
    if BothDone(s) {
      return [];
    }
    NeverStuck(s);
    hide Inv, Step, Measure;
    var w := if Step(s, Parent).Next? then Parent else Child;
    StepInv(s, w);
    StepCounts(s, w);
    var t := Step(s, w).s;
    MeasureZero(t);
    assert t.At(Parent).script == s.At(Parent).script && t.At(Child).script == s.At(Child).script;
    var rest := Finishes(t);
    schedule := [w] + rest;
    assert schedule[1..] == rest;
  }

  /** Every interleaving of an agreed conversation that runs to its end delivers all messages in order, each
      exactly once, and leaves both pipes empty. */
  lemma Delivery(s: State, schedule: seq<Who>)
    requires Init(s) && Dual(s.parent.script, s.child.script) && BothDone(Exec(s, schedule))
    ensures var t := Exec(s, schedule);
      t.parent.inbox == Sends(s.child.script) && t.child.inbox == Sends(s.parent.script)
      && t.toParent == [] && t.toChild == []
  {
    InitInv(s);
    ExecInv(s, schedule);
    var t := Exec(s, schedule);
    assert t.At(Parent).script == s.At(Parent).script && t.At(Child).script == s.At(Child).script;
    hide Exec, Inv, Step;
    assert PathInv(t.child, t.parent, t.toParent) && PathInv(t.parent, t.child, t.toChild) by {
      assert Inv(t);
    }
    AllRead(t.child, t.parent, t.toParent);
    AllRead(t.parent, t.child, t.toChild);
  }

  lemma AllRead(writer: Proc, reader: Proc, pipe: seq<byte>)
    requires PathInv(writer, reader, pipe) && Dual(writer.script, reader.script)
    requires writer.pc >= |writer.script| && reader.pc >= |reader.script|
    ensures reader.inbox == Sends(writer.script) && pipe == []
  {
    hide Stream;
    DualCounts(writer.script, reader.script, |writer.script|);
    assert writer.script[..|writer.script|] == writer.script && reader.script[..|reader.script|] == reader.script;
    hide Sends, Receives;
    EmptyBeyond(Sends(writer.script), Written(writer), pipe);
  }

  // ---------- every fair schedule ----------

  lemma {:induction false} ExecConcat(s: State, a: seq<Who>, b: seq<Who>)
    ensures Exec(s, a + b) == Exec(Exec(s, a), b)
    decreases |a|
  {
    hide Step;
    if a == [] {
      assert a + b == b;
    } else {
      assert (a + b)[1..] == a[1..] + b;
      ExecConcat(if Step(s, a[0]).Next? then Step(s, a[0]).s else s, a[1..], b);
    }
  }

  /** Calls made stay made, and if some process that gets a turn can move at the start, one is made. */
  lemma {:induction false} ScheduleCounts(s: State, schedule: seq<Who>)
    ensures Measure(Exec(s, schedule)) <= Measure(s)
    ensures (exists w :: w in schedule && Step(s, w).Next?) ==> Measure(Exec(s, schedule)) < Measure(s)
    decreases |schedule|
  {
    hide Step, Measure;
    if schedule != [] {
      if Step(s, schedule[0]).Next? {
        StepCounts(s, schedule[0]);
        ScheduleCounts(Step(s, schedule[0]).s, schedule[1..]);
      } else {
        ScheduleCounts(s, schedule[1..]);
        assert forall w :: w in schedule && Step(s, w).Next? ==> w in schedule[1..];
      }
    }
  }

  /** Every schedule that gives both processes a turn often enough ends an agreed conversation. */
  lemma {:induction false} FairFinishes(s: State, blocks: seq<seq<Who>>)
    requires Inv(s) && Dual(s.parent.script, s.child.script) && Fair(blocks) && |blocks| >= Measure(s)
    ensures BothDone(Exec(s, Flatten(blocks)))
    decreases |blocks|
  {
    MeasureZero(s);
    hide Inv, Step, Measure, Exec;
    if blocks == [] || BothDone(s) {
      ScheduleCounts(s, Flatten(blocks));
      ExecInv(s, Flatten(blocks));
      MeasureZero(Exec(s, Flatten(blocks)));
    } else {
      var b := blocks[0];
      NeverStuck(s);
      ScheduleCounts(s, b);
      ExecInv(s, b);
      var t := Exec(s, b);
      assert t.At(Parent).script == s.At(Parent).script && t.At(Child).script == s.At(Child).script;
      FairFinishes(t, blocks[1..]);
      ExecConcat(s, b, Flatten(blocks[1..]));
    }
  }

  // ---------- the program, and streams of messages ----------

  predicate Sound(m: Message) {
    m.Valid() && |m.data| <= PIPE_BUF
  }

  function Start(parentScript: seq<Op>, childScript: seq<Op>, parentHeader: Struct, childHeader: Struct): (r: State) {
    State([], [], Proc(parentScript, 0, false, parentHeader, []), Proc(childScript, 0, false, childHeader, []))
  }

  /** Both promises at once: at every point of every run either everything has been delivered or a call can
      be made. */
  lemma EveryRun(a: seq<Op>, b: seq<Op>, parentHeader: Struct, childHeader: Struct, schedule: seq<Who>)
    requires Sendable(a) && Sendable(b) && Dual(a, b)
    ensures var t := Exec(Start(a, b, parentHeader, childHeader), schedule);
      if BothDone(t) then t.parent.inbox == Sends(b) && t.child.inbox == Sends(a)
      else Step(t, Parent).Next? || Step(t, Child).Next?
  {
    var s := Start(a, b, parentHeader, childHeader);
    hide Exec, Step, Stream, Sends, Receives;
    assert s.At(Parent).script == a && s.At(Child).script == b;
    InitInv(s);
    ExecInv(s, schedule);
    var t := Exec(s, schedule);
    assert t.At(Parent).script == a && t.At(Child).script == b;
    hide Inv;
    if BothDone(t) {
      Delivery(s, schedule);
    } else {
      NeverStuck(t);
    }
  }

  /** Parent sends, then receives; the child receives, then answers. */
  lemma PingPong(ping: Message, pong: Message, parentHeader: Struct, childHeader: Struct, schedule: seq<Who>)
    requires ping.Valid() && |ping.data| <= 4096 && pong.Valid() && |pong.data| <= 4096
    ensures var t := Exec(Start([Send(ping), Receive], [Receive, Send(pong)], parentHeader, childHeader), schedule);
      if BothDone(t) then t.child.inbox == [ping] && t.parent.inbox == [pong]
      else Step(t, Parent).Next? || Step(t, Child).Next?
  {
    var a, b := [Send(ping), Receive], [Receive, Send(pong)];
    hide Exec, Step, Start;
    assert Sends(a) == [ping] && Sends(b) == [pong] by {
      SendsNext(a, 0);
      SendsNext(b, 0);
      assert a[..1] == a[..|a| - 1] && b[..1] == b[..|b| - 1] && a[..0] == b[..0] == [];
    }
    EveryRun(a, b, parentHeader, childHeader, schedule);
  }

  function AllSends(ms: seq<Message>): (r: seq<Op>) {
    seq(|ms|, i requires 0 <= i < |ms| => Send(ms[i]))
  }

  lemma {:induction false} SendsOfAll(ms: seq<Message>)
    ensures Sends(AllSends(ms)) == ms
  {
    if ms != [] {
      var n := |ms| - 1;
      SendsOfAll(ms[..n]);
      assert AllSends(ms)[..n] == AllSends(ms[..n]);
    }
  }

  /** Any list of messages sent one way is rebuilt in every interleaving, and the transfer never gets stuck
      even when it is far larger than the pipe. */
  lemma OneWay(ms: seq<Message>, parentHeader: Struct, childHeader: Struct, schedule: seq<Who>)
    requires forall m :: m in ms ==> m.Valid() && |m.data| <= 4096
    ensures var t := Exec(Start(AllSends(ms), seq(|ms|, _ => Receive), parentHeader, childHeader), schedule);
      if BothDone(t) then t.child.inbox == ms else Step(t, Parent).Next? || Step(t, Child).Next?
  {
    SendsOfAll(ms);
    assert Sendable(AllSends(ms)) by {
      forall op | op in AllSends(ms) ensures Sound(op.m) {
        var i :| 0 <= i < |ms| && op == AllSends(ms)[i];
        assert op.m == ms[i];
      }
    }
    hide Exec, Step, Start, Sends;
    EveryRun(AllSends(ms), seq(|ms|, _ => Receive), parentHeader, childHeader, schedule);
  }
}
