/** The binary reader: whole records in fixed-size chunks, one event ahead of the caller. */
module BinaryReading {
  import opened Events
  import opened Files

  class BinaryReader {
    const file: RecordFile
    /** One chunk; its length is the number of records asked for at a time. */
    const buffer: array<Event>
    var bufferIdx: nat
    var bufferCount: nat
    var isEof: bool
    var nextEvent: Event
    var hasNext: bool

    /** Events handed out since the last reset. */
    ghost var delivered: nat

    ghost function Repr(): set<object> {
      {this, buffer, file}
    }

    ghost predicate BufferValid()
      reads `bufferIdx, `bufferCount, `isEof, file
    {
      && bufferIdx <= bufferCount <= buffer.Length && buffer.Length > 0
      && file.Valid()
      && (isEof ==> file.pos == |file.records|)
    }

    /** The events behind the lookahead: what is buffered, then what is still in the file. */
    ghost function Behind(): seq<Event>
      requires BufferValid()
      reads `bufferIdx, `bufferCount, `isEof, buffer, file
    {
      buffer[bufferIdx..bufferCount] + file.records[file.pos..]
    }

    ghost predicate Valid()
      reads this, buffer, file
    {
      && BufferValid() && delivered <= |file.records|
      && file.records[delivered..] == (if hasNext then [nextEvent] else []) + Behind()
      && (!hasNext ==> Behind() == [])
    }

    /** The events a caller will still get. */
    ghost function Remaining(): seq<Event>
      requires Valid()
      reads this, buffer, file
    {
      file.records[delivered..]
    }

    /** Opens the file and reads the first event. */
    constructor (file: RecordFile, chunk: nat)
      requires file.Valid() && file.pos == 0 && chunk > 0
      modifies file
      ensures Valid() && fresh(this) && fresh(buffer) && this.file == file
      ensures Remaining() == file.records
    {
      this.file := file;
      buffer := new Event[chunk](_ => Blank());
      bufferIdx, bufferCount, isEof := 0, 0, false;
      nextEvent, hasNext := Blank(), false;
      delivered := 0;
      new;
      Begin();
    }

    method ReadNext(slot: Event) returns (ok: bool, event: Event)
      requires Valid()
      modifies this, buffer, file
      ensures Valid()
      ensures ok == (old(Remaining()) != [])
      ensures ok ==> event == old(Remaining())[0] && Remaining() == old(Remaining())[1..]
      ensures !ok ==> event == slot && Remaining() == []
    {
      if !hasNext {
        return false, slot;
      }
      ok, event := true, nextEvent;
      delivered := delivered + 1;
      assert file.records[delivered..] == old(Remaining())[1..] == Behind();
      Advance();
    }

    method HasNext() returns (more: bool)
      requires Valid()
      ensures more == (Remaining() != [])
    {
      more := hasNext;
    }

    method Reset()
      requires Valid()
      modifies this, buffer, file
      ensures Valid() && Remaining() == file.records
    {
      file.Rewind();
      Begin();
    }

    method Begin()
      requires buffer.Length > 0 && file.pos == 0
      modifies this, buffer, file
      ensures Valid() && Remaining() == file.records
    {
      bufferIdx, bufferCount, isEof := 0, 0, false;
      delivered := 0;
      assert Behind() == file.records[0..];
      Advance();
    }

    /** Moves the next event into the lookahead, reading a chunk when the buffer is used up. */
    method Advance()
      requires BufferValid() && delivered <= |file.records| && file.records[delivered..] == Behind()
      modifies this, buffer, file
      ensures Valid() && delivered == old(delivered)
    {
      if bufferIdx >= bufferCount {
        if isEof {
          hasNext := false;
          return;
        }
        ReadChunk();
        if bufferCount == 0 {
          hasNext := false;
          return;
        }
      }
      ghost var held, rest := buffer[bufferIdx..bufferCount], file.records[file.pos..];
      TakeFirst(held, rest);
      nextEvent := buffer[bufferIdx];
      bufferIdx := bufferIdx + 1;
      hasNext := true;
      assert buffer[bufferIdx..bufferCount] == held[1..];
      assert Behind() == held[1..] + rest;
      assert file.records[delivered..] == [nextEvent] + Behind();
    }

    /** A short chunk is the last one. */
    method ReadChunk()
      requires BufferValid() && bufferIdx == bufferCount && !isEof
      modifies this`bufferIdx, this`bufferCount, this`isEof, buffer, file
      ensures BufferValid() && Behind() == old(Behind())
      ensures bufferIdx == 0 && (bufferCount == 0 ==> Behind() == [])
    {
      ghost var from := file.pos;
      bufferCount := file.Read(buffer, buffer.Length);
      bufferIdx := 0;
      isEof := bufferCount < buffer.Length;
      assert file.records[from..] == file.records[from..file.pos] + file.records[file.pos..];
    }
  }

  lemma TakeFirst(a: seq<Event>, b: seq<Event>)
    requires a != []
    ensures a + b == [a[0]] + (a[1..] + b)
  {
  }
}
