/**
 Writing ticks to a CSV file and reading them back: every tick comes back as its event, in order,
 with symbol ids in order of first appearance.
 */
module CsvRoundTrip {
  import opened Options
  import opened Positions
  import opened Events
  import opened TextLines
  import opened SymbolMapping
  import opened TickDecoding
  import opened CsvReading

  datatype Kind = TradeTick | AddTick

  /** A tick with its numbers as text. */
  datatype Tick = Tick(time: string, name: string, kind: Kind, price: string, qty: string, side: Side)

  function KindCode(k: Kind): string { if k == TradeTick then "T" else "A" }

  function SideCode(s: Side): string { if s == Buy then "B" else "S" }

  function FieldsOfTick(t: Tick): seq<string> {
    [t.time, t.name, KindCode(t.kind), t.price, t.qty, SideCode(t.side)]
  }

  function RowOf(t: Tick): string {
    Join(FieldsOfTick(t))
  }

  predicate Plain(s: string) {
    ',' !in s && '\n' !in s
  }

  /** The text fields hold no separators and the numbers parse. */
  predicate Writable(p: NumberParser, t: Tick) {
    && Plain(t.time) && Plain(t.name) && Plain(t.price) && Plain(t.qty)
    && p.timestamp(t.time).Some? && p.price(t.price).Some? && p.qty(t.qty).Some?
  }

  function EventOf(p: NumberParser, t: Tick, id: nat): Event
    requires Writable(p, t)
  {
    var price, qty := p.price(t.price).value, p.qty(t.qty).value;
    Event(p.timestamp(t.time).value, id,
          if t.kind == TradeTick then Trade(price, qty, t.side) else OrderAdd(0, price, qty, t.side))
  }

  lemma TickColumns(p: NumberParser, t: Tick)
    requires Writable(p, t)
    ensures Columns(RowOf(t)) == FieldsOfTick(t)
  {
    JoinThenSplit(FieldsOfTick(t));
  }

  /** One written row decodes to its event. */
  lemma TickDecodes(p: NumberParser, reg: Registry, t: Tick)
    requires Writable(p, t)
    ensures SymbolOf(p, RowOf(t)) == Some(t.name)
    ensures DecodeRow(p, reg, RowOf(t)) == Some(EventOf(p, t, LookUp(Enroll(reg, t.name), t.name)))
  {
    TickColumns(p, t);
  }

  lemma {:induction false} JoinEndsCleanly(fields: seq<string>)
    requires fields != [] && forall k :: 0 <= k < |fields| ==> '\n' !in fields[k]
    requires fields[|fields| - 1] != [] && '\r' !in fields[|fields| - 1]
    ensures var row := Join(fields);
            '\n' !in row && row != [] && row[|row| - 1] != '\r'
    decreases |fields|
  {
    if |fields| > 1 {
      JoinEndsCleanly(fields[1..]);
    }
  }

  function RowsOf(ticks: seq<Tick>): seq<string> {
    seq(|ticks|, i requires 0 <= i < |ticks| => RowOf(ticks[i]))
  }

  function NamesIn(ticks: seq<Tick>): seq<string> {
    seq(|ticks|, i requires 0 <= i < |ticks| => ticks[i].name)
  }

  ghost predicate AllWritable(p: NumberParser, ticks: seq<Tick>) {
    forall i :: 0 <= i < |ticks| ==> Writable(p, ticks[i])
  }

  /** A header line, then one row per tick, each line with its own ending. */
  function CsvFile(header: string, ticks: seq<Tick>, ends: seq<string>): string
    requires |ends| == |ticks| + 1
  {
    Unlines([header] + RowsOf(ticks), ends)
  }

  /** Newlines with or without a carriage return, in any mixture; the last one may be missing. */
  ghost predicate Endings(header: string, ends: seq<string>) {
    && ends != []
    && Ended(header, ends[0], |ends| == 1)
    && forall i :: 1 <= i < |ends| ==>
         ends[i] == "\n" || ends[i] == "\r\n" || (ends[i] == "" && i == |ends| - 1)
  }

  lemma RowsAreBody(p: NumberParser, header: string, ticks: seq<Tick>, ends: seq<string>)
    requires Endings(header, ends) && |ends| == |ticks| + 1 && AllWritable(p, ticks)
    ensures BodyLines(CsvFile(header, ticks, ends)) == RowsOf(ticks)
  {
    var rows := RowsOf(ticks);
    var lines := [header] + rows;
    forall i | 0 <= i < |lines|
      ensures Ended(lines[i], ends[i], i == |lines| - 1)
    {
      if i > 0 {
        assert Writable(p, ticks[i - 1]);
        JoinEndsCleanly(FieldsOfTick(ticks[i - 1]));
      }
    }
    var content := CsvFile(header, ticks, ends);
    LinesOfUnlines(lines, ends);
    assert content != [];
    LinesCons(content);
    assert lines[1..] == rows;
  }

  lemma {:induction false} RegistryIsNames(p: NumberParser, ticks: seq<Tick>, i: nat)
    requires AllWritable(p, ticks) && i <= |ticks|
    ensures RegistryAfter(p, Some([]), RowsOf(ticks)[..i]) == Some(NamesOf(NamesIn(ticks)[..i]))
  {
    hide DecodeRow, SymbolOf, RowOf;
    if i > 0 {
      RegistryIsNames(p, ticks, i - 1);
      var rows, names := RowsOf(ticks), NamesIn(ticks);
      assert rows[..i][..i - 1] == rows[..i - 1] && names[..i][..i - 1] == names[..i - 1];
      TickDecodes(p, None, ticks[i - 1]);
    }
  }

  /** The event tick `i` must come back as. */
  function Expected(p: NumberParser, ticks: seq<Tick>, i: nat): Event
    requires i < |ticks| && Writable(p, ticks[i])
  {
    EventOf(p, ticks[i], LookUp(Some(NamesOf(NamesIn(ticks))), ticks[i].name))
  }

  lemma RowGivesExpected(p: NumberParser, ticks: seq<Tick>, i: nat)
    requires AllWritable(p, ticks) && i < |ticks|
    ensures var known := RegistryAfter(p, Some([]), RowsOf(ticks)[..i]);
            DecodeRow(p, known, RowsOf(ticks)[i]) == Some(Expected(p, ticks, i))
  {
    var names := NamesIn(ticks);
    RegistryIsNames(p, ticks, i);
    TickDecodes(p, Some(NamesOf(names[..i])), ticks[i]);
    assert names[..i + 1][..i] == names[..i] && names[i] == ticks[i].name;
    CallsAreStable(names, i);
  }

  lemma {:induction false} EventsAreExpected(p: NumberParser, ticks: seq<Tick>, i: nat, k: nat)
    requires AllWritable(p, ticks) && i <= |ticks|
    ensures var es := EventsFrom(p, Some([]), RowsOf(ticks), i);
            |es| == |ticks| - i && (i <= k < |ticks| ==> es[k - i] == Expected(p, ticks, k))
    decreases |ticks| - i
  {
    hide EventsFrom, Expected, DecodeRow, RegistryAfter, Writable;
    if i == |ticks| {
      EventsEnd(p, Some([]), RowsOf(ticks));
    } else {
      RowGivesExpected(p, ticks, i);
      EventsStep(p, Some([]), RowsOf(ticks), i);
      EventsAreExpected(p, ticks, i + 1, k);
    }
  }

  /** The round trip, from a fresh mapper, for any header, any line endings and any ticks that can be written. */
  lemma WriteThenRead(p: NumberParser, header: string, ticks: seq<Tick>, ends: seq<string>)
    requires Endings(header, ends) && |ends| == |ticks| + 1 && AllWritable(p, ticks)
    ensures var es := CsvEvents(p, Some([]), CsvFile(header, ticks, ends));
            && |es| == |ticks|
            && forall k :: 0 <= k < |ticks| ==> es[k] == Expected(p, ticks, k)
  {
    hide EventsFrom, Expected, Writable, CsvFile, BodyLines, RowsOf;
    RowsAreBody(p, header, ticks, ends);
    EventsAreExpected(p, ticks, 0, 0);
    var es := EventsFrom(p, Some([]), RowsOf(ticks), 0);
    forall k | 0 <= k < |ticks|
      ensures es[k] == Expected(p, ticks, k)
    {
      EventsAreExpected(p, ticks, 0, k);
    }
  }
}
