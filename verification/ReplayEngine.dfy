/** The replay loop over any reader. */
module ReplayEngine {
  import opened Events
  import opened Files
  import opened TickDecoding
  import opened CsvReading
  import opened BinaryReading
  import opened ReplayWindow

  /** The readers an engine can be instantiated with; each call goes to the reader itself. */
  datatype Reader = Csv(csv: CsvReader) | Binary(binary: BinaryReader) {
    ghost function Repr(): set<object> {
      match this
      case Csv(r) => r.Repr()
      case Binary(r) => r.Repr()
    }

    ghost predicate Valid()
      reads Repr()
    {
      match this
      case Csv(r) => r.Valid()
      case Binary(r) => r.Valid()
    }

    ghost function Remaining(): seq<Event>
      requires Valid()
      reads Repr()
    {
      match this
      case Csv(r) => r.Remaining()
      case Binary(r) => r.Remaining()
    }

    /** Delivers the next event; at the end the slot is returned as it was. */
    method ReadNext(slot: Event) returns (ok: bool, event: Event)
      requires Valid()
      modifies Repr()
      ensures Valid()
      ensures ok == (old(Remaining()) != [])
      ensures ok ==> event == old(Remaining())[0] && Remaining() == old(Remaining())[1..]
      ensures !ok ==> event == slot && Remaining() == []
    {
      match this
      case Csv(r) => ok, event := r.ReadNext(slot);
      case Binary(r) => ok, event := r.ReadNext(slot);
    }
  }

  /** The events from the current slot on. */
  function Ahead(hasCurrent: bool, current: Event, hasNext: bool, next: Event, rest: seq<Event>): seq<Event> {
    if !hasCurrent then [] else if !hasNext then [current] else [current, next] + rest
  }

  /** Shifting the two slots and reading one event drops the current event and nothing else. */
  lemma Shift(current: Event, hasNext: bool, next: Event, rest: seq<Event>)
    requires !hasNext ==> rest == []
    ensures var tail := Ahead(true, current, hasNext, next, rest)[1..];
            && (!hasNext ==> tail == [])
            && (hasNext && rest == [] ==> tail == [next])
            && (hasNext && rest != [] ==> tail == [next, rest[0]] + rest[1..])
  {
  }

  class Engine {
    const reader: Reader
    const window: Window
    var eventsProcessed: nat
    /** What the strategy has been given. */
    var dispatched: seq<Event>

    constructor (reader: Reader, window: Window)
      ensures this.reader == reader && this.window == window
      ensures eventsProcessed == 0 && dispatched == []
    {
      this.reader, this.window := reader, window;
      eventsProcessed, dispatched := 0, [];
    }

    method Run()
      requires reader.Valid() && this !in reader.Repr()
      modifies this, reader.Repr()
      ensures reader.Valid()
      ensures dispatched == old(dispatched) + Dispatched(window, old(reader.Remaining()))
      ensures eventsProcessed == old(eventsProcessed) + |Dispatched(window, old(reader.Remaining()))|
      ensures reader.Remaining() == Leftover(window, old(reader.Remaining()))
    {
      hide Reader.Valid, Reader.Remaining, Reader.Repr, Dispatched, Leftover;
      ghost var stream := reader.Remaining();
      var current, next := Blank(), Blank();
      var hasCurrent, hasNext := false, false;
      hasCurrent, current := reader.ReadNext(current);
      if hasCurrent {
        hasNext, next := reader.ReadNext(next);
      }
      ghost var ahead := Ahead(hasCurrent, current, hasNext, next, reader.Remaining());
      assert ahead == stream;
      while hasCurrent
        invariant reader.Valid()
        invariant ahead == Ahead(hasCurrent, current, hasNext, next, reader.Remaining())
        invariant !hasNext ==> reader.Remaining() == []
        invariant hasNext ==> hasCurrent
        invariant dispatched + Dispatched(window, ahead) == old(dispatched) + Dispatched(window, stream)
        invariant eventsProcessed - |dispatched| == old(eventsProcessed - |dispatched|)
        invariant Leftover(window, ahead) == Leftover(window, stream)
        decreases |ahead|
      {
        ReplayStep(window, ahead, dispatched);
        Shift(current, hasNext, next, reader.Remaining());
        if window.start != 0 && current.timestamp < window.start {
        } else if window.end != 0 && current.timestamp > window.end {
          ReplayEnd(window, dispatched);
          return;
        } else {
          dispatched := dispatched + [current];
          eventsProcessed := eventsProcessed + 1;
        }
        current, hasCurrent := next, hasNext;
        if hasNext {
          hasNext, next := reader.ReadNext(next);
        }
        ahead := ahead[1..];
      }
      ReplayEnd(window, dispatched);
    }
  }

  lemma CsvView(r: CsvReader)
    requires r.Valid()
    ensures Csv(r).Valid() && Csv(r).Remaining() == r.Remaining() && Csv(r).Repr() == r.Repr()
  {
  }

  lemma BinaryView(r: BinaryReader)
    requires r.Valid()
    ensures Binary(r).Valid() && Binary(r).Remaining() == r.Remaining() && Binary(r).Repr() == r.Repr()
  {
  }

  /**
   A whole replay of a CSV file. How the file was read in pieces and how large the buffer was do
   not show: the events dispatched are a function of the content and the window alone.
   */
  method ReplayCsv(content: string, decoder: TickDecoder, capacity: nat, window: Window)
    returns (dispatched: seq<Event>)
    requires decoder.Valid() && capacity > 0
    modifies decoder.Repr()
    ensures dispatched == Dispatched(window, CsvEvents(decoder.parser, old(decoder.Known()), content))
  {
    hide Reader.Valid, Reader.Remaining, Reader.Repr, CsvReader.Valid, CsvReader.Remaining, TickDecoder.Valid,
         TickDecoder.Known, CsvEvents, Dispatched, Leftover;
    var file := new InputFile(content);
    var csv := new CsvReader(file, decoder, capacity);
    CsvView(csv);
    var engine := new Engine(Csv(csv), window);
    engine.Run();
    dispatched := engine.dispatched;
  }

  /** A whole replay of a binary file, likewise independent of the chunk size. */
  method ReplayBinary(records: seq<Event>, chunk: nat, window: Window) returns (dispatched: seq<Event>)
    requires chunk > 0
    ensures dispatched == Dispatched(window, records)
  {
    hide Reader.Valid, Reader.Remaining, Reader.Repr, BinaryReader.Valid, BinaryReader.Remaining, Dispatched, Leftover;
    var file := new RecordFile(records);
    var binary := new BinaryReader(file, chunk);
    BinaryView(binary);
    var engine := new Engine(Binary(binary), window);
    engine.Run();
    dispatched := engine.dispatched;
  }
}
