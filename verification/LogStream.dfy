/** One call of the logger in its own form: a stdio stream over a shared file, a mutex, three formatted writes
    and a flush. `Logger` interleaves any number of these calls. */
module LogStream {
  import Logger
  import Stamp

  class File {
    var contents: string
    constructor ()
      ensures contents == ""
    { contents := ""; }
  }

  class Mutex {
    var locked: bool
    constructor ()
      ensures !locked
    { locked := false; }
  }

  /** A buffered append stream. */
  class Stream {
    const file: File
    var buffer: string

    constructor (file: File)
      ensures this.file == file && buffer == ""
    {
      this.file := file;
      buffer := "";
    }

    /** The library may write out any part of the buffer on its own account. */
    method Spill()
      modifies this, file
      ensures file.contents + buffer == old(file.contents + buffer)
      ensures old(file.contents) <= file.contents
    {
      var n :| 0 <= n <= |buffer|;
      file.contents := file.contents + buffer[..n];
      buffer := buffer[n..];
    }

    /** Hands over the text one character at a time; any of it may already be in the file afterwards. */
    method Print(text: string)
      modifies this, file
      ensures file.contents + buffer == old(file.contents + buffer) + text
      ensures old(file.contents) <= file.contents
    {
      for i := 0 to |text|
        invariant file.contents + buffer == old(file.contents + buffer) + text[..i]
        invariant old(file.contents) <= file.contents
      {
        ghost var before := file.contents + buffer;
        buffer := buffer + [text[i]];
        assert file.contents + buffer == before + [text[i]];
        Spill();
        assert text[..i + 1] == text[..i] + [text[i]];
      }
      assert text[..|text|] == text;
    }

    method Flush()
      modifies this, file
      ensures buffer == "" && file.contents == old(file.contents + buffer)
    {
      file.contents := file.contents + buffer;
      buffer := "";
    }
  }

  /** A whole call: whatever the library flushes early, the file gains exactly one record and the stream is
      left empty. `clock` is the monotonic time read on entry, `text` the caller's formatted message. */
  method LogVarg(stream: Stream, mutex: Mutex, name: string, text: string, clock: nat)
    requires stream.buffer == "" && !mutex.locked
    modifies stream, stream.file, mutex
    ensures stream.file.contents == old(stream.file.contents) + Logger.Record(name, text, clock)
    ensures var line := stream.file.contents[|old(stream.file.contents)|..];
      var time := Stamp.Parse(line);
      time.Valid() && time.Nanos() == clock && line == Stamp.Text(time) + " [" + name + "] " + text
    ensures stream.buffer == "" && !mutex.locked
  {
    hide Logger.Piece, Stamp.Text, Stamp.Parse;
    Logger.RecordReads(name, text, clock);
    ghost var before := stream.file.contents;
    ghost var line := Logger.Record(name, text, clock);
    mutex.locked := true;
    stream.Print(Logger.Piece(0, name, text, clock));
    stream.Print(Logger.Piece(1, name, text, clock));
    stream.Print(Logger.Piece(2, name, text, clock));
    stream.Flush();
    mutex.locked := false;
    assert stream.file.contents == before + line;
    hide Logger.Record;
    assert (before + line)[|before|..] == line;
  }
}
