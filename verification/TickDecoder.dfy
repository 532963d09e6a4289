/** Decoding one CSV row into an event. */
module TickDecoding {
  import opened Arithmetic
  import opened Options
  import opened Positions
  import opened Events
  import opened TextLines
  import opened SymbolMapping

  const COMMA := ','
  const MAX_COLUMNS: nat := 10

  // Splitting a row.

  /** All fields of a row, the last one included even when it is empty. */
  function Split(row: string): (fields: seq<string>)
    ensures fields != []
    decreases |row|
  {
    var i := IndexOf(row, COMMA);
    if i == |row| then [row] else [row[..i]] + Split(row[i + 1..])
  }

  function Join(fields: seq<string>): string
    requires fields != []
  {
    if |fields| == 1 then fields[0] else fields[0] + "," + Join(fields[1..])
  }

  /** Splitting and joining undo each other, and no field holds a comma. */
  lemma {:induction false} SplitThenJoin(row: string)
    ensures Join(Split(row)) == row
    ensures forall k :: 0 <= k < |Split(row)| ==> ',' !in Split(row)[k]
    decreases |row|
  {
    var i := IndexOf(row, COMMA);
    if i < |row| {
      SplitThenJoin(row[i + 1..]);
      var fields := Split(row);
      assert fields[1..] == Split(row[i + 1..]);
      assert row == row[..i] + [COMMA] + row[i + 1..];
    }
  }

  lemma SplitFirst(field: string, rest: string)
    requires COMMA !in field
    ensures Split(field + [COMMA] + rest) == [field] + Split(rest)
  {
    var row, k := field + [COMMA] + rest, |field|;
    IndexOfIs(row, COMMA, k);
    assert row[..k] == field && row[k + 1..] == rest;
  }

  lemma SplitSingle(field: string)
    requires COMMA !in field
    ensures Split(field) == [field]
  {
    IndexOfIs(field, COMMA, |field|);
  }

  lemma {:induction false} JoinThenSplit(fields: seq<string>)
    requires fields != [] && forall k :: 0 <= k < |fields| ==> ',' !in fields[k]
    ensures Split(Join(fields)) == fields
    decreases |fields|
  {
    hide Split;
    if |fields| == 1 {
      SplitSingle(fields[0]);
    } else {
      SplitFirst(fields[0], Join(fields[1..]));
      JoinThenSplit(fields[1..]);
    }
  }

  function DropFinalEmpty(fields: seq<string>): seq<string>
    requires fields != []
  {
    if fields[|fields| - 1] == [] then fields[..|fields| - 1] else fields
  }

  function AtMostTen(fields: seq<string>): seq<string> {
    if |fields| <= MAX_COLUMNS then fields else fields[..MAX_COLUMNS]
  }

  /** The fields of a row, less the empty one after a final comma. */
  function Fields(row: string): seq<string> {
    DropFinalEmpty(Split(row))
  }

  /** The columns the decoder sees. */
  function Columns(row: string): seq<string> {
    AtMostTen(Fields(row))
  }

  lemma DropAfterFirst(field: string, rest: seq<string>)
    requires rest != []
    ensures DropFinalEmpty([field] + rest) == [field] + DropFinalEmpty(rest)
  {
    assert ([field] + rest)[..|rest|] == [field] + rest[..|rest| - 1];
  }

  lemma FieldsOf(row: string)
    ensures var i := IndexOf(row, COMMA);
            Fields(row) == if i < |row| then [row[..i]] + Fields(row[i + 1..])
                           else if row == [] then [] else [row]
  {
    hide IndexOf;
    var i := IndexOf(row, COMMA);
    if i < |row| {
      assert Split(row) == [row[..i]] + Split(row[i + 1..]);
      DropAfterFirst(row[..i], Split(row[i + 1..]));
    } else {
      assert Split(row) == [row];
    }
  }

  lemma FirstTen(cols: seq<string>, rest: seq<string>)
    requires |cols| <= MAX_COLUMNS && (rest != [] ==> |cols| == MAX_COLUMNS)
    ensures AtMostTen(cols + rest) == cols
  {
    assert (cols + rest)[..|cols|] == cols;
  }

  /** `cols` and the fields still to come at `p` make up the row. */
  ghost predicate SplitUpTo(row: string, p: nat, cols: seq<string>) {
    p <= |row| && Fields(row) == cols + Fields(row[p..])
  }

  lemma SplitNext(row: string, p: nat, cols: seq<string>)
    requires SplitUpTo(row, p, cols) && p < |row|
    ensures var i := IndexOf(row[p..], COMMA);
            if p + i < |row| then SplitUpTo(row, p + i + 1, cols + [row[p..][..i]])
            else Fields(row) == cols + [row[p..]]
  {
    hide Fields, IndexOf;
    var rest := row[p..];
    var i := IndexOf(rest, COMMA);
    FieldsOf(rest);
    if i < |rest| {
      Associate(cols, [rest[..i]], Fields(rest[i + 1..]));
      DropTwice(row, p, i + 1);
    }
  }

  lemma DropTwice(s: string, p: nat, q: nat)
    requires p + q <= |s|
    ensures s[p..][q..] == s[p + q..]
  {
  }

  lemma SplitDone(row: string, p: nat, cols: seq<string>)
    requires SplitUpTo(row, p, cols) && |cols| <= MAX_COLUMNS
    requires p == |row| || |cols| == MAX_COLUMNS
    ensures Columns(row) == cols
  {
    FieldsOf(row[p..]);
    FirstTen(cols, Fields(row[p..]));
  }

  lemma SplitStart(row: string)
    ensures SplitUpTo(row, 0, [])
  {
    assert row[0..] == row && [] + Fields(row) == Fields(row);
  }

  method SplitColumns(row: string) returns (cols: seq<string>)
    ensures cols == Columns(row)
  {
    hide SplitUpTo, Fields, Split, IndexOf;
    cols := [];
    var p := 0;
    SplitStart(row);
    while p < |row| && |cols| < MAX_COLUMNS
      invariant p <= |row| && |cols| <= MAX_COLUMNS && SplitUpTo(row, p, cols)
    {
      var i := IndexOf(row[p..], COMMA);
      SplitNext(row, p, cols);
      if p + i < |row| {
        cols := cols + [row[p..][..i]];
        p := p + i + 1;
      } else {
        cols := cols + [row[p..]];
        return;
      }
    }
    SplitDone(row, p, cols);
  }

  // Decoding a row.

  /** Number parsing and price conversion, which the decoder takes as given. */
  datatype NumberParser = NumberParser(
    timestamp: string -> Option<int>,
    price: string -> Option<int>,
    qty: string -> Option<nat>)

  /** The names a mapper knows, or no mapper at all. */
  type Registry = Option<seq<string>>

  function Enroll(reg: Registry, name: string): Registry {
    if reg.None? then None else Some(Register(reg.value, name))
  }

  function LookUp(reg: Registry, name: string): nat {
    if reg.Some? && name in reg.value then IdOf(reg.value, name) else 0
  }

  /** The symbol a row registers, whether or not the rest of it decodes. */
  function SymbolOf(p: NumberParser, row: string): Option<string> {
    var cols := Columns(row);
    if |cols| < 6 || p.timestamp(cols[0]).None? then None else Some(cols[1])
  }

  predicate IsSell(col: string) {
    col != [] && (col[0] == 'S' || col[0] == 's' || col[0] == 'A')
  }

  /** The event of a row whose symbol has been given the id `sym`. */
  function RowEvent(p: NumberParser, row: string, sym: nat): Option<Event>
    requires SymbolOf(p, row).Some?
  {
    var cols := Columns(row);
    var ts, price, qty := p.timestamp(cols[0]).value, p.price(cols[3]), p.qty(cols[4]);
    var side := if IsSell(cols[5]) then Sell else Buy;
    if cols[2] == [] || price.None? || qty.None? then None
    else if cols[2][0] == 'T' then Some(Event(ts, sym, Trade(price.value, qty.value, side)))
    else if cols[2][0] == 'A' then Some(Event(ts, sym, OrderAdd(0, price.value, qty.value, side)))
    else None
  }

  function RegistryAfterRow(p: NumberParser, reg: Registry, row: string): Registry {
    var name := SymbolOf(p, row);
    if name.None? then reg else Enroll(reg, name.value)
  }

  function DecodeRow(p: NumberParser, reg: Registry, row: string): Option<Event> {
    var name := SymbolOf(p, row);
    if name.None? then None else RowEvent(p, row, LookUp(Enroll(reg, name.value), name.value))
  }

  class TickDecoder {
    const parser: NumberParser
    const mapper: SymbolMapper?

    constructor (parser: NumberParser, mapper: SymbolMapper?)
      ensures this.parser == parser && this.mapper == mapper
    {
      this.parser := parser;
      this.mapper := mapper;
    }

    ghost function Repr(): set<object> {
      if mapper == null then {} else {mapper}
    }

    ghost predicate Valid()
      reads Repr()
    {
      mapper != null ==> mapper.Valid()
    }

    ghost function Known(): Registry
      reads Repr()
    {
      if mapper == null then None else Some(mapper.names)
    }

    /** Decodes `row`; a rejected row leaves the event slot as it was. */
    method DecodeCsv(row: string, slot: Event) returns (ok: bool, event: Event)
      requires Valid()
      modifies Repr()
      ensures Valid()
      ensures Known() == RegistryAfterRow(parser, old(Known()), row)
      ensures var e := DecodeRow(parser, old(Known()), row);
              ok == e.Some? && event == if ok then e.value else slot
    {
      ok, event := false, slot;
      var cols := SplitColumns(row);
      if |cols| < 6 {
        return;
      }
      var ts := parser.timestamp(cols[0]);
      if ts.None? {
        return;
      }
      var sym := 0;
      if mapper != null {
        sym := mapper.GetOrCreate(cols[1]);
      }
      if cols[2] == [] {
        return;
      }
      var kind := cols[2][0];
      var price := parser.price(cols[3]);
      if price.None? {
        return;
      }
      var qty := parser.qty(cols[4]);
      if qty.None? {
        return;
      }
      var side := Buy;
      if cols[5] != [] && (cols[5][0] == 'S' || cols[5][0] == 's' || cols[5][0] == 'A') {
        side := Sell;
      }
      if kind == 'T' {
        return true, Event(ts.value, sym, Trade(price.value, qty.value, side));
      } else if kind == 'A' {
        return true, Event(ts.value, sym, OrderAdd(0, price.value, qty.value, side));
      }
    }
  }

  /** The columns of a row given by its fields: all of them, up to ten, but no empty one at the end. */
  lemma ColumnsOfFields(fields: seq<string>)
    requires fields != [] && forall k :: 0 <= k < |fields| ==> ',' !in fields[k]
    ensures var n := if fields[|fields| - 1] == [] then |fields| - 1 else |fields|;
            Columns(Join(fields)) == fields[..if n < 10 then n else 10]
  {
    hide Split, Join;
    JoinThenSplit(fields);
  }

  lemma RowRegisters(p: NumberParser, reg: Registry, row: string)
    ensures var cols := Columns(row);
            RegistryAfterRow(p, reg, row) ==
            if |cols| >= 6 && p.timestamp(cols[0]).Some? && reg.Some? && cols[1] !in reg.value
            then Some(reg.value + [cols[1]]) else reg
  {
    hide Columns;
  }

  lemma RowDecodes(p: NumberParser, reg: Registry, row: string)
    ensures var e, known, cols := DecodeRow(p, reg, row), RegistryAfterRow(p, reg, row), Columns(row);
            && (e.Some? <==> && |cols| >= 6
                             && p.timestamp(cols[0]).Some? && p.price(cols[3]).Some? && p.qty(cols[4]).Some?
                             && cols[2] != [] && (cols[2][0] == 'T' || cols[2][0] == 'A'))
            && (e.Some? ==>
                  var price, qty := p.price(cols[3]).value, p.qty(cols[4]).value;
                  var side := if cols[5] != [] && cols[5][0] in {'S', 's', 'A'} then Sell else Buy;
                  && e.value.timestamp == p.timestamp(cols[0]).value
                  && (reg.None? ==> e.value.symbol == 0)
                  && (reg.Some? ==>
                        known.Some? && cols[1] in known.value && e.value.symbol == IdOf(known.value, cols[1]))
                  && e.value.payload ==
                     if cols[2][0] == 'T' then Trade(price, qty, side) else OrderAdd(0, price, qty, side))
  {
    hide Columns, IdOf;
  }

  /**
   What becomes of a row, in terms of its fields. It is accepted if and only if there are six
   columns, the three numbers parse and the kind begins with T or A; its name is registered as soon
   as there are six columns and the time parses.
   */
  lemma RowMeaning(p: NumberParser, reg: Registry, fields: seq<string>)
    requires fields != [] && forall k :: 0 <= k < |fields| ==> ',' !in fields[k]
    ensures var e, six := DecodeRow(p, reg, Join(fields)), |fields| > 6 || (|fields| == 6 && fields[5] != []);
            e.Some? <==> && six
                         && p.timestamp(fields[0]).Some? && p.price(fields[3]).Some? && p.qty(fields[4]).Some?
                         && fields[2] != [] && (fields[2][0] == 'T' || fields[2][0] == 'A')
    ensures var six := |fields| > 6 || (|fields| == 6 && fields[5] != []);
            RegistryAfterRow(p, reg, Join(fields)) ==
            if six && p.timestamp(fields[0]).Some? && reg.Some? && fields[1] !in reg.value
            then Some(reg.value + [fields[1]]) else reg
    ensures var e, known := DecodeRow(p, reg, Join(fields)), RegistryAfterRow(p, reg, Join(fields));
            e.Some? ==>
              var price, qty := p.price(fields[3]).value, p.qty(fields[4]).value;
              var side := if fields[5] != [] && fields[5][0] in {'S', 's', 'A'} then Sell else Buy;
              && e.value.timestamp == p.timestamp(fields[0]).value
              && (reg.None? ==> e.value.symbol == 0)
              && (reg.Some? ==> fields[1] in known.value && e.value.symbol == IdOf(known.value, fields[1]))
              && e.value.payload ==
                 if fields[2][0] == 'T' then Trade(price, qty, side) else OrderAdd(0, price, qty, side)
  {
    hide Columns, Join, DecodeRow, RegistryAfterRow, IdOf;
    ColumnsOfFields(fields);
    var row, cols := Join(fields), Columns(Join(fields));
    assert |cols| >= 6 <==> |fields| > 6 || (|fields| == 6 && fields[5] != []);
    if |cols| >= 6 {
      assert cols[0] == fields[0] && cols[1] == fields[1] && cols[2] == fields[2];
      assert cols[3] == fields[3] && cols[4] == fields[4] && cols[5] == fields[5];
    }
    RowRegisters(p, reg, row);
    RowDecodes(p, reg, row);
  }

  // Decoding a file, row by row.

  function RegistryAfter(p: NumberParser, reg: Registry, rows: seq<string>): Registry {
    if rows == [] then reg
    else RegistryAfterRow(p, RegistryAfter(p, reg, rows[..|rows| - 1]), rows[|rows| - 1])
  }

  function ToSeq<T>(o: Option<T>): seq<T> {
    if o.None? then [] else [o.value]
  }

  /** The events of `rows` from row `i` on, when `reg` was the registry before row 0. */
  function EventsFrom(p: NumberParser, reg: Registry, rows: seq<string>, i: nat): seq<Event>
    requires i <= |rows|
    decreases |rows| - i
  {
    if i == |rows| then []
    else ToSeq(DecodeRow(p, RegistryAfter(p, reg, rows[..i]), rows[i])) + EventsFrom(p, reg, rows, i + 1)
  }

  ghost predicate Extends(reg: Registry, more: Registry) {
    match (reg, more)
    case (None, None) => true
    case (Some(a), Some(b)) => a <= b
    case _ => false
  }

  lemma {:induction false} RegistryGrows(p: NumberParser, reg: Registry, rows: seq<string>, i: nat)
    requires i <= |rows|
    ensures Extends(RegistryAfter(p, reg, rows[..i]), RegistryAfter(p, reg, rows))
    decreases |rows|
  {
    if i == |rows| {
      assert rows[..i] == rows;
    } else {
      var init := rows[..|rows| - 1];
      RegistryGrows(p, reg, init, i);
      assert init[..i] == rows[..i];
    }
  }

  lemma LookUpStable(reg: Registry, more: Registry, name: string)
    requires Extends(Enroll(reg, name), more)
    ensures Enroll(more, name) == more && LookUp(more, name) == LookUp(Enroll(reg, name), name)
  {
    if reg.Some? {
      IdStable(Register(reg.value, name), more.value, name);
    }
  }

  function Max(a: nat, b: nat): nat { if a < b then b else a }

  /**
   A row decodes to the same event, ids included, whether the registry has seen only the rows
   before it or already some further rows, and its name is then known already.
   */
  lemma RowDecodesTheSame(p: NumberParser, reg: Registry, rows: seq<string>, i: nat, h: nat)
    requires i <= h <= |rows| && i < |rows|
    ensures var primed := RegistryAfter(p, reg, rows[..h]);
            && DecodeRow(p, primed, rows[i]) == DecodeRow(p, RegistryAfter(p, reg, rows[..i]), rows[i])
            && RegistryAfterRow(p, primed, rows[i]) == RegistryAfter(p, reg, rows[..Max(h, i + 1)])
  {
    var now, primed := RegistryAfter(p, reg, rows[..i]), RegistryAfter(p, reg, rows[..h]);
    assert rows[..i + 1][..i] == rows[..i];
    if i < h {
      RegistryGrows(p, reg, rows[..h], i + 1);
      assert rows[..h][..i + 1] == rows[..i + 1];
      var name := SymbolOf(p, rows[i]);
      if name.Some? {
        LookUpStable(now, primed, name.value);
      }
    }
  }

  lemma {:induction false} PrimedRegistry(p: NumberParser, reg: Registry, rows: seq<string>, h: nat, i: nat)
    requires h <= |rows| && i <= |rows|
    ensures RegistryAfter(p, RegistryAfter(p, reg, rows[..h]), rows[..i]) == RegistryAfter(p, reg, rows[..Max(h, i)])
  {
    hide RegistryAfterRow, DecodeRow;
    if i > 0 {
      PrimedRegistry(p, reg, rows, h, i - 1);
      assert rows[..i][..i - 1] == rows[..i - 1];
      RowDecodesTheSame(p, reg, rows, i - 1, Max(h, i - 1));
    }
  }

  lemma {:induction false} PrimedEvents(p: NumberParser, reg: Registry, rows: seq<string>, h: nat, i: nat)
    requires h <= |rows| && i <= |rows|
    ensures EventsFrom(p, RegistryAfter(p, reg, rows[..h]), rows, i) == EventsFrom(p, reg, rows, i)
    decreases |rows| - i
  {
    hide RegistryAfter, RegistryAfterRow, DecodeRow;
    if i < |rows| {
      PrimedRegistry(p, reg, rows, h, i);
      RowDecodesTheSame(p, reg, rows, i, Max(h, i));
      PrimedEvents(p, reg, rows, h, i + 1);
    }
  }

  /**
   Decoding the rows again after any number of them have been decoded, with the mapper left as it
   is, gives the same events with the same symbol ids.
   */
  lemma DecodingIsRepeatable(p: NumberParser, reg: Registry, rows: seq<string>, h: nat)
    requires h <= |rows|
    ensures EventsFrom(p, RegistryAfter(p, reg, rows[..h]), rows, 0) == EventsFrom(p, reg, rows, 0)
  {
    PrimedEvents(p, reg, rows, h, 0);
  }
}
