/** Messages and their flat form: a 16-byte header struct followed by the data bytes.
    The struct has the 64-bit layout: `type` at byte 0, seven padding bytes that memcpy carries along
    unchanged, and `data_len` little-endian at bytes 8 to 15. */
module Codec {
  import Decimal
  import opened Basics

  const HEADER_SIZE := 16
  const MSG_STRING := 0
  const MSG_LED := 1
  const LED_OFF := 0
  const LED_ON := 1

  datatype Header = Header(typ: byte, pad: seq<byte>, dataLen: nat) {
    predicate Valid() { |pad| == 7 && dataLen < SIZE_LIMIT }
  }

  datatype Message = Message(header: Header, data: seq<byte>) {
    predicate Valid() { header.Valid() && |data| == header.dataLen }
  }

  // ---------- little-endian integers ----------

  function Pow256(w: nat): (p: nat)
    ensures p >= 1
  {
    if w == 0 then 1 else 256 * Pow256(w - 1)
  }

  function ToLittleEndian(n: nat, w: nat): (b: seq<byte>)
    ensures |b| == w
  {
    if w == 0 then [] else [n % 256] + ToLittleEndian(n / 256, w - 1)
  }

  function FromLittleEndian(b: seq<byte>): (r: nat) {
    if b == [] then 0 else b[0] + 256 * FromLittleEndian(b[1..])
  }

  lemma {:induction false} LittleEndianEncodes(n: nat, w: nat)
    requires n < Pow256(w)
    ensures FromLittleEndian(ToLittleEndian(n, w)) == n
  {
    if w > 0 {
      LittleEndianEncodes(n / 256, w - 1);
      assert ToLittleEndian(n, w)[1..] == ToLittleEndian(n / 256, w - 1);
    }
  }

  lemma {:induction false} LittleEndianDecodes(b: seq<byte>)
    ensures FromLittleEndian(b) < Pow256(|b|)
    ensures ToLittleEndian(FromLittleEndian(b), |b|) == b
  {
    if b != [] {
      LittleEndianDecodes(b[1..]);
      var n := FromLittleEndian(b);
      assert n / 256 == FromLittleEndian(b[1..]) && n % 256 == b[0];
    }
  }

  lemma SizeLimitIsPow256()
    ensures Pow256(8) == SIZE_LIMIT
  {
    assert Pow256(4) == 0x1_0000_0000;
    assert Pow256(8) == 0x1_0000_0000 * Pow256(4);
  }

  // ---------- the encoding as a function ----------

  function HeaderBytes(h: Header): (b: seq<byte>)
    ensures |b| == 9 + |h.pad|
  {
    [h.typ] + h.pad + ToLittleEndian(h.dataLen, 8)
  }

  function ParseHeader(b: seq<byte>): (h: Header)
    requires |b| == HEADER_SIZE
  {
    Header(b[0], b[1..8], FromLittleEndian(b[8..16]))
  }

  function Encode(m: Message): (r: seq<byte>) {
    HeaderBytes(m.header) + m.data
  }

  /** What a receiver can make of a byte string: nothing if the header or the data is cut short. */
  function Decode(b: seq<byte>): (r: Option<Message>) {
    if |b| < HEADER_SIZE then None
    else
      var h := ParseHeader(b[..HEADER_SIZE]);
      if |b| < HEADER_SIZE + h.dataLen then None
      else Some(Message(h, b[HEADER_SIZE..HEADER_SIZE + h.dataLen]))
  }

  lemma HeaderRoundTrip(h: Header)
    requires h.Valid()
    ensures |HeaderBytes(h)| == HEADER_SIZE
    ensures ParseHeader(HeaderBytes(h)) == h
  {
    SizeLimitIsPow256();
    LittleEndianEncodes(h.dataLen, 8);
    assert HeaderBytes(h)[8..16] == ToLittleEndian(h.dataLen, 8);
    assert HeaderBytes(h)[1..8] == h.pad;
  }

  lemma HeaderBytesRoundTrip(b: seq<byte>)
    requires |b| == HEADER_SIZE
    ensures ParseHeader(b).Valid() && HeaderBytes(ParseHeader(b)) == b
  {
    SizeLimitIsPow256();
    LittleEndianDecodes(b[8..16]);
    assert b == [b[0]] + b[1..8] + b[8..16];
  }

  /** One more byte of a little-endian number. */
  lemma LittleEndianStep(b: seq<byte>, k: nat)
    requires k < |b|
    ensures FromLittleEndian(b[k..]) == b[k] + 256 * FromLittleEndian(b[k + 1..])
  {
    assert b[k..][1..] == b[k + 1..];
  }

  lemma EightBytes(b: seq<byte>)
    requires |b| == 8
    ensures FromLittleEndian(b) ==
      b[0] as int + 0x100 * (b[1] as int) + 0x1_0000 * (b[2] as int) + 0x100_0000 * (b[3] as int)
      + 0x1_0000_0000 * (b[4] as int) + 0x100_0000_0000 * (b[5] as int)
      + 0x1_0000_0000_0000 * (b[6] as int) + 0x100_0000_0000_0000 * (b[7] as int)
  {
    LittleEndianStep(b, 0);
    LittleEndianStep(b, 1);
    LittleEndianStep(b, 2);
    LittleEndianStep(b, 3);
    LittleEndianStep(b, 4);
    LittleEndianStep(b, 5);
    LittleEndianStep(b, 6);
    LittleEndianStep(b, 7);
    assert b[0..] == b && b[8..] == [];
  }

  /** Where the bytes of a header are read from. */
  lemma ParseLayout(b: seq<byte>)
    requires |b| == HEADER_SIZE
    ensures |b| == 16 && ParseHeader(b).typ == b[0] && ParseHeader(b).pad == b[1..8]
    ensures ParseHeader(b).dataLen ==
      b[8] as int + 0x100 * (b[9] as int) + 0x1_0000 * (b[10] as int) + 0x100_0000 * (b[11] as int)
      + 0x1_0000_0000 * (b[12] as int) + 0x100_0000_0000 * (b[13] as int)
      + 0x1_0000_0000_0000 * (b[14] as int) + 0x100_0000_0000_0000 * (b[15] as int)
  {
    EightBytes(b[8..16]);
    hide FromLittleEndian;
  }

  /** And where they are written: the type at byte 0, the padding, the length from byte 8, lowest byte first. */
  lemma HeaderLayout(h: Header)
    requires h.Valid()
    ensures var b := HeaderBytes(h);
      && |b| == 16 && b[0] == h.typ && b[1..8] == h.pad
      && h.dataLen ==
        b[8] as int + 0x100 * (b[9] as int) + 0x1_0000 * (b[10] as int) + 0x100_0000 * (b[11] as int)
        + 0x1_0000_0000 * (b[12] as int) + 0x100_0000_0000 * (b[13] as int)
        + 0x1_0000_0000_0000 * (b[14] as int) + 0x100_0000_0000_0000 * (b[15] as int)
  {
    HeaderRoundTrip(h);
    ParseLayout(HeaderBytes(h));
    hide HeaderBytes, ParseHeader;
  }

  /** An encoding byte by byte. */
  lemma EncodingLayout(m: Message)
    requires m.Valid()
    ensures var b := Encode(m);
      && |b| == 16 + m.header.dataLen && b[0] == m.header.typ && b[1..8] == m.header.pad && b[16..] == m.data
      && m.header.dataLen ==
        b[8] as int + 0x100 * (b[9] as int) + 0x1_0000 * (b[10] as int) + 0x100_0000 * (b[11] as int)
        + 0x1_0000_0000 * (b[12] as int) + 0x100_0000_0000 * (b[13] as int)
        + 0x1_0000_0000_0000 * (b[14] as int) + 0x100_0000_0000_0000 * (b[15] as int)
  {
    HeaderLayout(m.header);
    hide HeaderBytes;
    var h := HeaderBytes(m.header);
    assert Encode(m)[1..8] == h[1..8] && Encode(m)[16..] == m.data;
  }

  /** Decoding an encoded message gives the message back, whatever bytes follow it. */
  lemma RoundTrip(m: Message, rest: seq<byte>)
    requires m.Valid()
    ensures Decode(Encode(m) + rest) == Some(m)
    ensures |Encode(m)| == HEADER_SIZE + m.header.dataLen
  {
    HeaderRoundTrip(m.header);
    var b := Encode(m) + rest;
    assert b[..HEADER_SIZE] == HeaderBytes(m.header);
    assert b[HEADER_SIZE..HEADER_SIZE + m.header.dataLen] == m.data;
  }

  /** Decoding succeeds on exactly the byte strings that start with an encoding, and names that message. */
  lemma DecodeIff(b: seq<byte>, m: Message)
    ensures Decode(b) == Some(m) <==> m.Valid() && Encode(m) <= b
  {
    if m.Valid() && Encode(m) <= b {
      RoundTrip(m, b[|Encode(m)|..]);
      assert b == Encode(m) + b[|Encode(m)|..];
    }
    if Decode(b) == Some(m) {
      HeaderBytesRoundTrip(b[..HEADER_SIZE]);
      assert Encode(m) == b[..HEADER_SIZE + m.header.dataLen];
    }
  }

  /** No encoding is a proper prefix of another, and the encoding is injective. */
  lemma PrefixFree(m: Message, n: Message)
    requires m.Valid() && n.Valid() && Encode(m) <= Encode(n)
    ensures m == n
  {
    DecodeIff(Encode(n), m);
    DecodeIff(Encode(n), n);
  }

  function EncodeAll(ms: seq<Message>): (r: seq<byte>) {
    if ms == [] then [] else Encode(ms[0]) + EncodeAll(ms[1..])
  }

  /** A byte stream has at most one reading as a sequence of messages. */
  lemma {:induction false} StreamUnambiguous(ms: seq<Message>, ns: seq<Message>)
    requires forall m :: m in ms + ns ==> m.Valid()
    requires EncodeAll(ms) == EncodeAll(ns)
    ensures ms == ns
  {
    if ms != [] && ns != [] {
      RoundTrip(ms[0], EncodeAll(ms[1..]));
      RoundTrip(ns[0], EncodeAll(ns[1..]));
      assert ms[0] == ns[0];
      assert EncodeAll(ms[1..]) == EncodeAll(ms)[|Encode(ms[0])|..] == EncodeAll(ns[1..]);
      StreamUnambiguous(ms[1..], ns[1..]);
    }
  }

  // ---------- the C functions, over caller-owned buffers ----------

  /** `msg_t`: a header stored in the struct and a pointer to at least `data_len` bytes. */
  class Msg {
    var header: Header
    var data: array<byte>

    constructor (header: Header, data: array<byte>)
      ensures this.header == header && this.data == data
    {
      this.header, this.data := header, data;
    }

    ghost predicate Valid()
      reads this
    {
      header.Valid() && header.dataLen <= data.Length
    }

    ghost function Value(): (r: Message)
      reads this, data
      requires Valid()
    {
      Message(header, data[..header.dataLen])
    }
  }

  method Memcpy(dst: array<byte>, at: nat, src: seq<byte>)
    requires at + |src| <= dst.Length
    modifies dst
    ensures dst[..] == old(dst[..at]) + src + old(dst[at + |src|..])
  {
    for i := 0 to |src|
      invariant dst[..] == old(dst[..at]) + src[..i] + old(dst[at + i..])
    {
      dst[at + i] := src[i];
    }
  }

  /** Flattens a message into `buf`; bytes past the encoding keep their values. */
  method MsgToMsgbuf(buf: array<byte>, msg: Msg) returns (n: nat)
    requires msg.Valid() && buf != msg.data
    requires HEADER_SIZE + msg.header.dataLen <= buf.Length < SIZE_LIMIT
    modifies buf
    ensures n == |Encode(msg.Value())| < SIZE_LIMIT
    ensures buf[..] == Encode(msg.Value()) + old(buf[n..])
    ensures msg.Value() == old(msg.Value())
    ensures n == 16 + msg.header.dataLen && buf[0] == msg.header.typ && buf[1..8] == msg.header.pad
    ensures buf[16..n] == msg.data[..msg.header.dataLen] && buf[n..] == old(buf[n..])
    ensures msg.header.dataLen ==
      buf[8] as int + 0x100 * (buf[9] as int) + 0x1_0000 * (buf[10] as int) + 0x100_0000 * (buf[11] as int)
      + 0x1_0000_0000 * (buf[12] as int) + 0x100_0000_0000 * (buf[13] as int)
      + 0x1_0000_0000_0000 * (buf[14] as int) + 0x100_0000_0000_0000 * (buf[15] as int)
  {
    hide HeaderBytes;
    ghost var header, data := HeaderBytes(msg.header), msg.data[..msg.header.dataLen];
    EncodingLayout(msg.Value());
    HeaderLayout(msg.header);
    ghost var before := buf[..];
    Memcpy(buf, 0, HeaderBytes(msg.header));
    ghost var between := buf[..];
    Memcpy(buf, HEADER_SIZE, msg.data[..msg.header.dataLen]);
    n := (HEADER_SIZE + msg.header.dataLen) % SIZE_LIMIT;
    TwoCopies(before, header, between, data, buf[..]);
    FrontOf(header + data, old(buf[n..]), buf[..]);
  }

  /** A copy to the front and a copy right behind it. */
  lemma TwoCopies(before: seq<byte>, header: seq<byte>, between: seq<byte>, data: seq<byte>, after: seq<byte>)
    requires |header| + |data| <= |before| && between == header + before[|header|..]
    requires after == between[..|header|] + data + between[|header| + |data|..]
    ensures after == header + data + before[|header| + |data|..]
  {}

  /** What holds of the bytes of an encoding holds of a buffer that starts with it. */
  lemma FrontOf(enc: seq<byte>, rest: seq<byte>, buf: seq<byte>)
    requires buf == enc + rest && |enc| >= 16
    ensures forall k :: 0 <= k < 16 ==> buf[k] == enc[k]
    ensures buf[1..8] == enc[1..8] && buf[16..|enc|] == enc[16..] && buf[|enc|..] == rest
  {}

  /** Fills `msg` from a buffer that holds a whole encoding; the data goes into fresh memory. */
  method MsgbufToMsg(msg: Msg, buf: array<byte>)
    requires Decode(buf[..]).Some?
    modifies msg
    ensures fresh(msg.data) && msg.Valid()
    ensures Some(msg.Value()) == Decode(buf[..])
    ensures buf.Length >= 16 + msg.header.dataLen && msg.header.typ == buf[0] && msg.header.pad == buf[1..8]
    ensures msg.data.Length == msg.header.dataLen && msg.data[..] == buf[16..16 + msg.header.dataLen]
    ensures msg.header.dataLen ==
      buf[8] as int + 0x100 * (buf[9] as int) + 0x1_0000 * (buf[10] as int) + 0x100_0000 * (buf[11] as int)
      + 0x1_0000_0000 * (buf[12] as int) + 0x100_0000_0000 * (buf[13] as int)
      + 0x1_0000_0000_0000 * (buf[14] as int) + 0x100_0000_0000_0000 * (buf[15] as int)
  {
    ParseLayout(buf[..HEADER_SIZE]);
    HeaderBytesRoundTrip(buf[..HEADER_SIZE]);
    msg.header := ParseHeader(buf[..HEADER_SIZE]);
    assert buf[..][..HEADER_SIZE] == buf[..HEADER_SIZE];
    var len := msg.header.dataLen;
    msg.data := new byte[len];
    Memcpy(msg.data, 0, buf[HEADER_SIZE..HEADER_SIZE + len]);
    assert msg.data[..len] == buf[..][HEADER_SIZE..HEADER_SIZE + len];
  }

  /** One transport buffer carries two messages in turn; the first decoded message survives the reuse. */
  method ReuseBuffer(buf: array<byte>, first: Msg, second: Msg, gotFirst: Msg, gotSecond: Msg)
    requires first.Valid() && second.Valid()
    requires {gotFirst, gotSecond} !! {first, second} && gotFirst != gotSecond
    requires buf != first.data && buf != second.data
    requires HEADER_SIZE + first.header.dataLen <= buf.Length < SIZE_LIMIT
    requires HEADER_SIZE + second.header.dataLen <= buf.Length
    modifies buf, gotFirst, gotSecond
    ensures gotFirst.Valid() && gotFirst.Value() == old(first.Value())
    ensures gotSecond.Valid() && gotSecond.Value() == old(second.Value())
  {
    var n := MsgToMsgbuf(buf, first);
    RoundTrip(first.Value(), buf[n..]);
    assert buf[..] == Encode(first.Value()) + buf[n..];
    MsgbufToMsg(gotFirst, buf);
    n := MsgToMsgbuf(buf, second);
    RoundTrip(second.Value(), buf[n..]);
    assert buf[..] == Encode(second.Value()) + buf[n..];
    MsgbufToMsg(gotSecond, buf);
  }

  // ---------- printable form ----------

  /** The C string at the start of the data: the characters before the first NUL. */
  function CString(data: seq<byte>): (s: string)
    ensures |s| <= |data|
  {
    if data == [] || data[0] == 0 then "" else [data[0] as char] + CString(data[1..])
  }

  /** The characters are the data bytes up to the first NUL, and there is no NUL among them. */
  lemma {:induction false} CStringStops(data: seq<byte>)
    ensures forall i :: 0 <= i < |CString(data)| ==> CString(data)[i] == data[i] as char
    ensures 0 in data <==> |CString(data)| < |data|
    ensures forall i :: 0 <= i < |CString(data)| ==> data[i] != 0
    ensures |CString(data)| < |data| ==> data[|CString(data)|] == 0
  {
    if data != [] && data[0] != 0 {
      CStringStops(data[1..]);
      assert data == [data[0]] + data[1..];
    }
  }

  /** What the print functions dereference must be there: a terminated string, or the LED byte. */
  predicate Printable(m: Message) {
    m.Valid()
    && (m.header.typ == MSG_STRING ==> 0 in m.data)
    && (m.header.typ == MSG_LED ==> |m.data| >= 1)
  }

  function PrintedText(m: Message): (r: string)
    requires Printable(m)
  {
    if m.header.typ == MSG_STRING then
      "MSG_STRING(" + Decimal.Dec(m.header.dataLen) + ", " + CString(m.data) + ")"
    else if m.header.typ == MSG_LED then
      if m.data[0] == LED_OFF then "MSG_LED(off)"
      else if m.data[0] == LED_ON then "MSG_LED(on)"
      else "MSG_LED(unknown)"
    else
      "MSG_UNKNOWN(" + Decimal.Dec(m.header.typ) + ")"
  }

  /** The characters before a NUL that has no other NUL before it. */
  lemma CStringIs(data: seq<byte>, n: nat)
    requires n < |data| && data[n] == 0 && forall i :: 0 <= i < n ==> data[i] != 0
    ensures CString(data) == seq(n, i requires 0 <= i < n => data[i] as char)
  {
    CStringStops(data);
  }

  /** The texts of the four kinds of message, written out. */
  lemma PrintedCases(m: Message)
    requires Printable(m)
    ensures m.header.typ == 0 ==> forall n: nat ::
      (n < |m.data| && m.data[n] == 0 && (forall i :: 0 <= i < n ==> m.data[i] != 0)) ==>
        PrintedText(m) ==
          "MSG_STRING(" + Decimal.Dec(|m.data|) + ", " + seq(n, i requires 0 <= i < n => m.data[i] as char) + ")"
    ensures m.header.typ == 1 ==> |m.data| >= 1
    ensures m.header.typ == 1 && m.data[0] == 0 ==> PrintedText(m) == "MSG_LED(off)"
    ensures m.header.typ == 1 && m.data[0] == 1 ==> PrintedText(m) == "MSG_LED(on)"
    ensures m.header.typ == 1 && m.data[0] > 1 ==> PrintedText(m) == "MSG_LED(unknown)"
    ensures m.header.typ > 1 ==> PrintedText(m) == "MSG_UNKNOWN(" + Decimal.Dec(m.header.typ) + ")"
  {
    if m.header.typ == 0 {
      forall n: nat | n < |m.data| && m.data[n] == 0 && (forall i :: 0 <= i < n ==> m.data[i] != 0)
        ensures CString(m.data) == seq(n, i requires 0 <= i < n => m.data[i] as char)
      {
        CStringIs(m.data, n);
      }
    }
  }

  /** Copies a text and its terminating NUL to the start of `buffer`. */
  method StoreText(buffer: array<char>, text: string)
    requires |text| < buffer.Length
    modifies buffer
    ensures buffer[..] == text + ['\0'] + old(buffer[|text| + 1..])
  {
    for i := 0 to |text|
      invariant forall k :: 0 <= k < i ==> buffer[k] == text[k]
      invariant forall k :: i <= k < buffer.Length ==> buffer[k] == old(buffer[k])
    {
      buffer[i] := text[i];
    }
    buffer[|text|] := '\0';
    assert buffer[..] == buffer[..|text|] + ['\0'] + buffer[|text| + 1..];
  }

  /** Prints a message; NULL gives NULL and leaves the buffer alone. */
  method MsgToStr(buffer: array<char>, msg: Msg?) returns (r: array?<char>)
    requires msg != null ==> msg.Valid() && Printable(msg.Value()) && |PrintedText(msg.Value())| < buffer.Length
    modifies buffer
    ensures msg == null ==> r == null && buffer[..] == old(buffer[..])
    ensures msg != null ==> r == buffer && msg.Value() == old(msg.Value())
    ensures msg != null ==>
      var text := PrintedText(msg.Value());
      buffer[..] == text + ['\0'] + old(buffer[|text| + 1..])
    ensures msg != null && msg.header.typ == 0 ==>
      var data := msg.data[..msg.header.dataLen];
      forall n: nat :: n < |data| && data[n] == 0 && (forall i :: 0 <= i < n ==> data[i] != 0) ==>
        "MSG_STRING(" + Decimal.Dec(|data|) + ", " + seq(n, i requires 0 <= i < n => data[i] as char) + ")\0"
          <= buffer[..]
    ensures msg != null && msg.header.typ == 1 && msg.data[0] == 0 ==> "MSG_LED(off)\0" <= buffer[..]
    ensures msg != null && msg.header.typ == 1 && msg.data[0] == 1 ==> "MSG_LED(on)\0" <= buffer[..]
    ensures msg != null && msg.header.typ == 1 && msg.data[0] > 1 ==> "MSG_LED(unknown)\0" <= buffer[..]
    ensures msg != null && msg.header.typ > 1 ==>
      "MSG_UNKNOWN(" + Decimal.Dec(msg.header.typ) + ")\0" <= buffer[..]
  {
    if msg == null {
      return null;
    }
    hide Decimal.Dec, CString;
    var text := "";
    if msg.header.typ == MSG_STRING {
      var body := CString(msg.data[..msg.header.dataLen]);
      text := "MSG_STRING(" + Decimal.Dec(msg.header.dataLen) + ", " + body + ")";
    } else if msg.header.typ == MSG_LED {
      if msg.data[0] == LED_OFF {
        text := "MSG_LED(off)";
      } else if msg.data[0] == LED_ON {
        text := "MSG_LED(on)";
      } else {
        text := "MSG_LED(unknown)";
      }
    } else {
      text := "MSG_UNKNOWN(" + Decimal.Dec(msg.header.typ) + ")";
    }
    assert text == PrintedText(msg.Value());
    hide PrintedText;
    StoreText(buffer, text);
    r := buffer;
    PrintedFront(msg.Value(), buffer[..]);
  }

  /** The four cases for a buffer that starts with the text and its NUL. */
  lemma PrintedFront(m: Message, buffer: string)
    requires Printable(m) && PrintedText(m) + ['\0'] <= buffer
    ensures m.header.typ == 0 ==> forall n: nat ::
      (n < |m.data| && m.data[n] == 0 && (forall i :: 0 <= i < n ==> m.data[i] != 0)) ==>
        "MSG_STRING(" + Decimal.Dec(|m.data|) + ", " + seq(n, i requires 0 <= i < n => m.data[i] as char) + ")\0"
          <= buffer
    ensures m.header.typ == 1 ==> |m.data| >= 1
    ensures m.header.typ == 1 && m.data[0] == 0 ==> "MSG_LED(off)\0" <= buffer
    ensures m.header.typ == 1 && m.data[0] == 1 ==> "MSG_LED(on)\0" <= buffer
    ensures m.header.typ == 1 && m.data[0] > 1 ==> "MSG_LED(unknown)\0" <= buffer
    ensures m.header.typ > 1 ==> "MSG_UNKNOWN(" + Decimal.Dec(m.header.typ) + ")\0" <= buffer
  {
    PrintedCases(m);
    hide PrintedText, Decimal.Dec;
    if m.header.typ == 0 {
      forall n: nat | n < |m.data| && m.data[n] == 0 && (forall i :: 0 <= i < n ==> m.data[i] != 0)
        ensures
          "MSG_STRING(" + Decimal.Dec(|m.data|) + ", " + seq(n, i requires 0 <= i < n => m.data[i] as char) + ")\0"
            <= buffer
      {
        var front := "MSG_STRING(" + Decimal.Dec(|m.data|) + ", " + seq(n, i requires 0 <= i < n => m.data[i] as char);
        assert front + ")\0" == (front + ")") + ['\0'];
      }
    } else if m.header.typ > 1 {
      var front := "MSG_UNKNOWN(" + Decimal.Dec(m.header.typ);
      assert front + ")\0" == (front + ")") + ['\0'];
    }
  }

  /** Bytes written when printing, terminator included. */
  function PrintedSize(m: Message): (r: nat)
    requires Printable(m)
  {
    |PrintedText(m)| + 1
  }

  /** A string message needs at most L + 14 + digits(L) bytes, with equality when the NUL comes last. */
  lemma StringPrintedSize(m: Message)
    requires Printable(m) && m.header.typ == MSG_STRING
    ensures var L := m.header.dataLen;
      PrintedSize(m) <= L + 14 + |Decimal.Dec(L)|
      && (PrintedSize(m) == L + 14 + |Decimal.Dec(L)| <==> forall i :: 0 <= i < L - 1 ==> m.data[i] != 0)
  {
    CStringStops(m.data);
  }

  /** Every printable message whose encoding fits the 100-byte transport buffer fits a 100-byte text buffer. */
  lemma TransportFitsText(m: Message)
    requires Printable(m) && |Encode(m)| <= 100
    ensures PrintedSize(m) <= 100
  {
    RoundTrip(m, []);
    if m.header.typ == MSG_STRING {
      StringPrintedSize(m);
      Decimal.DecWidth(m.header.dataLen, 2);
      assert Decimal.Pow10(2) == 100;
    } else if m.header.typ != MSG_LED {
      Decimal.DecWidth(m.header.typ, 3);
      assert Decimal.Pow10(3) == 1000;
    }
  }

  /** For strings with their NUL last the two limits agree exactly: the text is full at 84 data bytes. */
  lemma TextLimitIsTransportLimit(m: Message)
    requires Printable(m) && m.header.typ == MSG_STRING
    requires forall i :: 0 <= i < m.header.dataLen - 1 ==> m.data[i] != 0
    ensures PrintedSize(m) <= 100 <==> |Encode(m)| <= 100
    ensures |Encode(m)| == 100 ==> PrintedSize(m) == 100
  {
    RoundTrip(m, []);
    StringPrintedSize(m);
    Decimal.DecWidth(m.header.dataLen, 1);
    Decimal.DecWidth(m.header.dataLen, 2);
    assert Decimal.Pow10(1) == 10 && Decimal.Pow10(2) == 100;
  }
}
