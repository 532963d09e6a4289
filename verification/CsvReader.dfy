/**
 The CSV reader: lines out of a sliding buffer that is compacted, refilled and grown, decoded one
 ahead of the caller.
 */
module CsvReading {
  import opened Arithmetic
  import opened Options
  import opened Events
  import opened TextLines
  import opened Files
  import opened SymbolMapping
  import opened TickDecoding

  /** The rows of a file: every line but the header. */
  function BodyLines(content: string): seq<string> {
    if content == [] then [] else Lines(AfterFirstLine(content))
  }

  /** All events of a CSV file, for a registry `reg` at the start. */
  function CsvEvents(p: NumberParser, reg: Registry, content: string): seq<Event> {
    EventsFrom(p, reg, BodyLines(content), 0)
  }

  class CsvReader {
    const file: InputFile
    const decoder: TickDecoder
    var buffer: string
    var bufferPos: nat
    var bufferEnd: nat
    var isEof: bool
    var nextEvent: Event
    var hasNext: bool

    /** The registry when the file was opened. */
    ghost const origin: Registry
    /** The rows of the file, and their events as decoded the first time through. */
    ghost const rows: seq<string>
    ghost const stream: seq<Event>
    /** Rows read since the last reset, the most ever read, and events handed out since the reset. */
    ghost var rowsRead: nat
    ghost var rowsSeen: nat
    ghost var delivered: nat

    ghost function Repr(): set<object>
    {
      {this, file} + decoder.Repr()
    }

    ghost predicate BufferValid()
      reads `buffer, `bufferPos, `bufferEnd, `isEof, file
    {
      && bufferPos <= bufferEnd <= |buffer| && |buffer| > 0
      && file.Valid()
      && (isEof ==> file.pos == |file.content|)
    }

    /** The bytes not yet returned as lines: what is buffered, then what is still in the file. */
    ghost function Unread(): string
      requires BufferValid()
      reads `buffer, `bufferPos, `bufferEnd, `isEof, file
    {
      buffer[bufferPos..bufferEnd] + file.content[file.pos..]
    }

    /** The ghost constants are what they stand for. */
    ghost predicate Meant() {
      rows == BodyLines(file.content) && stream == CsvEvents(decoder.parser, origin, file.content)
    }

    /** The unread bytes are the rows not read yet. */
    ghost predicate LinesInStep()
      reads `buffer, `bufferPos, `bufferEnd, `isEof, `rowsRead, file
    {
      BufferValid() && rowsRead <= |rows| && Lines(Unread()) == rows[rowsRead..]
    }

    /** The mapper knows the names of the rows ever seen. */
    ghost predicate NamesInStep()
      reads `rowsSeen, decoder.Repr()
    {
      && decoder.Valid() && rowsSeen <= |rows|
      && decoder.Known() == RegistryAfter(decoder.parser, origin, rows[..rowsSeen])
    }

    ghost predicate InStep()
      reads this, file, decoder.Repr()
    {
      LinesInStep() && NamesInStep() && rowsRead <= rowsSeen && delivered <= |stream|
    }

    /** The event of row `i`, as decoded the first time through the file. */
    ghost function EventOfRow(i: nat): Option<Event>
      requires i < |rows|
    {
      DecodeRow(decoder.parser, RegistryAfter(decoder.parser, origin, rows[..i]), rows[i])
    }

    ghost function Undecoded(): seq<Event>
      requires rowsRead <= |rows|
      reads `rowsRead
    {
      EventsFrom(decoder.parser, origin, rows, rowsRead)
    }

    ghost predicate Valid()
      reads this, file, decoder.Repr()
    {
      && Meant() && InStep()
      && stream[delivered..] == (if hasNext then [nextEvent] else []) + Undecoded()
      && (!hasNext ==> Undecoded() == [])
    }

    /** The events a caller will still get. */
    ghost function Remaining(): seq<Event>
      requires Valid()
      reads this, file, decoder.Repr()
    {
      stream[delivered..]
    }

    /** Opens the file, skips the header and decodes the first event. */
    constructor (file: InputFile, decoder: TickDecoder, capacity: nat)
      requires file.Valid() && file.pos == 0 && decoder.Valid() && capacity > 0
      modifies file, decoder.Repr()
      ensures Valid() && fresh(this)
      ensures this.file == file && this.decoder == decoder && origin == old(decoder.Known())
      ensures Remaining() == CsvEvents(decoder.parser, origin, file.content)
    {
      this.file := file;
      this.decoder := decoder;
      buffer := seq(capacity, _ => '\0');
      bufferPos, bufferEnd, isEof := 0, 0, false;
      nextEvent, hasNext := Blank(), false;
      origin := decoder.Known();
      rows := BodyLines(file.content);
      stream := CsvEvents(decoder.parser, decoder.Known(), file.content);
      rowsRead, rowsSeen, delivered := 0, 0, 0;
      new;
      AtTheStart(decoder.parser, origin, rows);
      Begin();
    }

    method ReadNext(slot: Event) returns (ok: bool, event: Event)
      requires Valid()
      modifies this, file, decoder.Repr()
      ensures Valid()
      ensures ok == (old(Remaining()) != [])
      ensures ok ==> event == old(Remaining())[0] && Remaining() == old(Remaining())[1..]
      ensures !ok ==> event == slot && Remaining() == []
    {
      hide BodyLines, IdMap;
      if !hasNext {
        return false, slot;
      }
      ok, event := true, nextEvent;
      delivered := delivered + 1;
      assert stream[delivered..] == old(Remaining())[1..];
      Advance();
    }

    method HasNext() returns (more: bool)
      requires Valid()
      ensures more == (Remaining() != [])
    {
      more := hasNext;
    }

    /** Starts over. The mapper keeps the names it has learnt. */
    method Reset()
      requires Valid()
      modifies this, file, decoder.Repr()
      ensures Valid()
      ensures Remaining() == CsvEvents(decoder.parser, origin, file.content)
    {
      hide RegistryAfterRow, DecodeRow, BodyLines, IdMap;
      file.Rewind();
      bufferPos, bufferEnd, isEof := 0, 0, false;
      rowsRead, delivered := 0, 0;
      Begin();
    }

    /** Skips the header and decodes the first event. */
    method Begin()
      requires Meant() && BufferValid() && NamesInStep()
      requires bufferPos == bufferEnd == file.pos == rowsRead == delivered == 0
      modifies this, file, decoder.Repr()
      ensures Valid() && delivered == 0
    {
      hide AfterFirstLine, EventsFrom;
      assert Unread() == file.content;
      SkipHeader();
      AtTheStart(decoder.parser, origin, rows);
      Advance();
    }

    method SkipHeader()
      requires BufferValid() && Unread() == file.content
      modifies this`buffer, this`bufferPos, this`bufferEnd, this`isEof, file`pos
      ensures BufferValid()
      ensures Lines(Unread()) == BodyLines(file.content)
    {
      var _, _ := ReadLine();
    }

    /** Decodes ahead to the next row that makes an event. */
    method Advance()
      requires Meant() && InStep() && stream[delivered..] == Undecoded()
      modifies this, file, decoder.Repr()
      ensures Valid()
      ensures delivered == old(delivered)
    {
      hide CsvEvents, EventsFrom, RegistryAfter, DecodeRow, Lines, BodyLines, IdMap;
      hasNext := false;
      var done := false;
      while !done
        invariant if done then Valid() else Waiting()
        invariant delivered == old(delivered)
        decreases !done, |rows| - rowsRead
      {
        done := TryRow();
      }
    }

    /** Everything is in step, and the next undelivered event is still to be decoded. */
    ghost predicate Waiting()
      reads this, file, decoder.Repr()
    {
      Meant() && InStep() && !hasNext && stream[delivered..] == Undecoded()
    }

    /** Reads and decodes one row; done if it makes an event or there is none. */
    method TryRow() returns (done: bool)
      requires Waiting()
      modifies this, file, decoder.Repr()
      ensures delivered == old(delivered)
      ensures if done then Valid() else Waiting() && rowsRead == old(rowsRead) + 1
    {
      hide IndexOf, EventsFrom, RegistryAfter, DecodeRow, BodyLines, IdMap;
      ghost var i := rowsRead;
      var ok, line := NextRow();
      if !ok {
        EventsEnd(decoder.parser, origin, rows);
        return true;
      }
      DecodeNext(line, i);
      EventsStep(decoder.parser, origin, rows, i);
      done := hasNext;
    }

    /** Reads one row. */
    method NextRow() returns (ok: bool, line: string)
      requires LinesInStep()
      modifies this`buffer, this`bufferPos, this`bufferEnd, this`isEof, this`rowsRead, file`pos
      ensures LinesInStep()
      ensures ok == (old(rowsRead) < |rows|)
      ensures ok ==> line == rows[old(rowsRead)] && rowsRead == old(rowsRead) + 1
      ensures !ok ==> rowsRead == old(rowsRead)
    {
      ghost var unread, i := Unread(), rowsRead;
      ok, line := ReadLine();
      if ok {
        TakeRow(unread, rows, i);
        rowsRead := rowsRead + 1;
      }
    }

    /** Decodes row `i`, skipping it if it is empty or malformed. */
    method DecodeNext(line: string, ghost i: nat)
      requires NamesInStep() && i < |rows| && i <= rowsSeen && line == rows[i]
      requires !hasNext
      modifies this`nextEvent, this`hasNext, this`rowsSeen, decoder.Repr()
      ensures NamesInStep() && rowsSeen == Max(old(rowsSeen), i + 1)
      ensures hasNext == EventOfRow(i).Some? && (hasNext ==> nextEvent == EventOfRow(i).value)
    {
      RowDecodesTheSame(decoder.parser, origin, rows, i, rowsSeen);
      rowsSeen := Max(rowsSeen, i + 1);
      if line == [] {
        EmptyRow(decoder.parser, decoder.Known());
        return;
      }
      hasNext, nextEvent := decoder.DecodeCsv(line, nextEvent);
    }

    /** Returns the next line, or false at the end of the file. */
    method ReadLine() returns (ok: bool, line: string)
      requires BufferValid()
      modifies this`buffer, this`bufferPos, this`bufferEnd, this`isEof, file`pos
      ensures BufferValid()
      ensures ok == (old(Unread()) != [])
      ensures ok ==> line == FirstLine(old(Unread())) && Unread() == AfterFirstLine(old(Unread()))
      ensures ok ==>
                && '\n' !in line
                && (|| old(Unread()) == line + "\r\n" + Unread()
                    || (old(Unread()) == line + "\n" + Unread() && (line == [] || line[|line| - 1] != '\r'))
                    || (old(Unread()) == line && Unread() == []))
      ensures !ok ==> Unread() == []
    {
      if Unread() != [] {
        var _ := FirstLineEnds(Unread());
      }
      if bufferPos >= bufferEnd && isEof {
        return false, [];
      }
      while true
        invariant BufferValid()
        invariant Unread() == old(Unread())
        decreases |file.content| - file.pos, !isEof
      {
        var nl := FindNewline();
        if nl < bufferEnd {
          line := TakeLine(nl);
          return true, line;
        }
        if isEof {
          if bufferPos < bufferEnd {
            line := TakeRest();
            return true, line;
          }
          return false, [];
        }
        Refill();
      }
    }

    method TakeLine(nl: nat) returns (line: string)
      requires BufferValid() && bufferPos <= nl < bufferEnd && buffer[nl] == NEWLINE
      requires forall i :: bufferPos <= i < nl ==> buffer[i] != NEWLINE
      modifies this`bufferPos
      ensures BufferValid() && old(Unread()) != []
      ensures line == FirstLine(old(Unread())) && Unread() == AfterFirstLine(old(Unread()))
    {
      hide FirstLine, AfterFirstLine, IndexOf;
      line := StripReturn(buffer[bufferPos..nl]);
      ghost var held := buffer[bufferPos..bufferEnd];
      LineAtNewline(held, nl - bufferPos, file.content[file.pos..]);
      assert held[..nl - bufferPos] == buffer[bufferPos..nl];
      assert held[nl - bufferPos + 1..] == buffer[nl + 1..bufferEnd];
      bufferPos := nl + 1;
    }

    /** The last line of a file that does not end in a newline: returned as it is. */
    method TakeRest() returns (line: string)
      requires BufferValid() && isEof && bufferPos < bufferEnd
      requires forall i :: bufferPos <= i < bufferEnd ==> buffer[i] != NEWLINE
      modifies this`bufferPos
      ensures BufferValid() && old(Unread()) != []
      ensures line == FirstLine(old(Unread())) && Unread() == AfterFirstLine(old(Unread()))
    {
      line := buffer[bufferPos..bufferEnd];
      assert Unread() == line;
      IndexOfIs(line, NEWLINE, |line|);
      bufferPos := bufferEnd;
      assert Unread() == [];
    }

    /** The position of the first newline in the buffered bytes, or their end. */
    method FindNewline() returns (nl: nat)
      requires BufferValid()
      ensures bufferPos <= nl <= bufferEnd
      ensures forall i :: bufferPos <= i < nl ==> buffer[i] != NEWLINE
      ensures nl < bufferEnd ==> buffer[nl] == NEWLINE
    {
      nl := bufferPos;
      while nl < bufferEnd && buffer[nl] != NEWLINE
        invariant bufferPos <= nl <= bufferEnd
        invariant forall i :: bufferPos <= i < nl ==> buffer[i] != NEWLINE
      {
        nl := nl + 1;
      }
    }

    /** Makes room and reads more; an empty read means the file has ended. */
    method Refill()
      requires BufferValid() && !isEof
      modifies this`buffer, this`bufferPos, this`bufferEnd, this`isEof, file`pos
      ensures BufferValid()
      ensures Unread() == old(Unread())
      ensures file.pos > old(file.pos) || (file.pos == old(file.pos) && isEof)
    {
      ghost var held, from := buffer[bufferPos..bufferEnd], file.pos;
      Compact();
      if bufferEnd == |buffer| {
        buffer := buffer + seq(|buffer|, _ => '\0');
      }
      var bytes := file.Read(|buffer| - bufferEnd);
      buffer := buffer[..bufferEnd] + bytes + buffer[bufferEnd + |bytes|..];
      bufferEnd := bufferEnd + |bytes|;
      if bytes == [] {
        isEof := true;
      }
      assert buffer[bufferPos..bufferEnd] == held + bytes;
      assert file.content[from..] == bytes + file.content[file.pos..];
      Associate(held, bytes, file.content[file.pos..]);
    }

    /** Moves the unread bytes to the front of the buffer. */
    method Compact()
      requires BufferValid()
      modifies this`buffer, this`bufferPos, this`bufferEnd
      ensures BufferValid() && bufferPos == 0 && |buffer| == old(|buffer|)
      ensures buffer[..bufferEnd] == old(buffer[bufferPos..bufferEnd])
    {
      var rem := bufferEnd - bufferPos;
      if rem > 0 && bufferPos > 0 {
        buffer := buffer[bufferPos..bufferEnd] + buffer[rem..];
      }
      bufferPos, bufferEnd := 0, rem;
    }
  }

  lemma LineAtNewline(held: string, k: nat, tail: string)
    requires k < |held| && held[k] == NEWLINE
    requires forall i :: 0 <= i < k ==> held[i] != NEWLINE
    ensures FirstLine(held + tail) == StripReturn(held[..k])
    ensures AfterFirstLine(held + tail) == held[k + 1..] + tail
  {
    var whole := held + tail;
    IndexOfIs(whole, NEWLINE, k);
    assert whole[..k] == held[..k];
    assert whole[k + 1..] == held[k + 1..] + tail;
  }

  lemma TakeRow(unread: string, rows: seq<string>, i: nat)
    requires unread != [] && i <= |rows| && Lines(unread) == rows[i..]
    ensures i < |rows| && FirstLine(unread) == rows[i] && Lines(AfterFirstLine(unread)) == rows[i + 1..]
  {
    assert Lines(unread) == [FirstLine(unread)] + Lines(AfterFirstLine(unread));
    assert rows[i + 1..] == rows[i..][1..];
    assert rows[i] == rows[i..][0];
  }

  lemma EventsStep(p: NumberParser, reg: Registry, rows: seq<string>, i: nat)
    requires i < |rows|
    ensures var e := DecodeRow(p, RegistryAfter(p, reg, rows[..i]), rows[i]);
            EventsFrom(p, reg, rows, i) ==
            (if e.Some? then [e.value] else []) + EventsFrom(p, reg, rows, i + 1)
    ensures DecodeRow(p, RegistryAfter(p, reg, rows[..i]), rows[i]).None? ==>
            EventsFrom(p, reg, rows, i) == EventsFrom(p, reg, rows, i + 1)
  {
  }

  lemma EventsEnd(p: NumberParser, reg: Registry, rows: seq<string>)
    ensures EventsFrom(p, reg, rows, |rows|) == []
  {
  }

  lemma AtTheStart(p: NumberParser, reg: Registry, rows: seq<string>)
    ensures rows[0..] == rows && RegistryAfter(p, reg, rows[..0]) == reg
    ensures EventsFrom(p, reg, rows, 0)[0..] == EventsFrom(p, reg, rows, 0)
  {
  }

  lemma EmptyRow(p: NumberParser, reg: Registry)
    ensures DecodeRow(p, reg, []) == None && RegistryAfterRow(p, reg, []) == reg
  {
    FieldsOf([]);
  }
}
