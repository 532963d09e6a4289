/** Open files, as `fread` and `rewind` see them. */
module Files {
  import opened Events

  class InputFile {
    const content: string
    var pos: nat

    ghost predicate Valid()
      reads this
    {
      pos <= |content|
    }

    constructor (content: string)
      ensures Valid() && pos == 0 && this.content == content
    {
      this.content := content;
      pos := 0;
    }

    /**
     Reads at most `n` bytes. How many is up to the system, but nothing comes back only when
     nothing was asked for or nothing is left.
     */
    method Read(n: nat) returns (bytes: string)
      requires Valid()
      modifies this`pos
      ensures Valid()
      ensures |bytes| <= n && pos == old(pos) + |bytes| && bytes == content[old(pos)..pos]
      ensures bytes == [] <==> n == 0 || old(pos) == |content|
    {
      var limit := if n < |content| - pos then n else |content| - pos;
      var k: nat :| k <= limit && (k == 0 <==> limit == 0);
      bytes := content[pos..pos + k];
      pos := pos + k;
    }

    method Rewind()
      modifies this
      ensures Valid() && pos == 0
    {
      pos := 0;
    }
  }

  /** A file of fixed-size records; a trailing part of a record is never delivered. */
  class RecordFile {
    const records: seq<Event>
    var pos: nat

    ghost predicate Valid()
      reads this
    {
      pos <= |records|
    }

    constructor (records: seq<Event>)
      ensures Valid() && pos == 0 && this.records == records
    {
      this.records := records;
      pos := 0;
    }

    /** Reads `n` records, or as many as are left. */
    method Read(buf: array<Event>, n: nat) returns (k: nat)
      requires Valid() && n <= buf.Length
      modifies this`pos, buf
      ensures Valid()
      ensures k == if n < |records| - old(pos) then n else |records| - old(pos)
      ensures pos == old(pos) + k
      ensures buf[..k] == records[old(pos)..pos]
    {
      k := if n < |records| - pos then n else |records| - pos;
      forall i | 0 <= i < k {
        buf[i] := records[pos + i];
      }
      pos := pos + k;
    }

    method Rewind()
      modifies this
      ensures Valid() && pos == 0
    {
      pos := 0;
    }
  }
}
