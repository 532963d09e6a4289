/** Symbol names and the integer ids they are given. */
module SymbolMapping {
  import opened Ledgers

  /** The first position of `name` in `names`. */
  function PositionOf(names: seq<string>, name: string): (i: nat)
    requires name in names
    ensures i < |names| && names[i] == name && forall j :: 0 <= j < i ==> names[j] != name
  {
    if names[0] == name then 0
    else
      var i := PositionOf(names[1..], name);
      assert forall j :: 0 < j < i + 1 ==> names[j] == names[1..][j - 1];
      i + 1
  }

  lemma PositionIs(names: seq<string>, name: string, k: nat)
    requires k < |names| && names[k] == name && forall j :: 0 <= j < k ==> names[j] != name
    ensures PositionOf(names, name) == k
  {
  }

  /** The names seen so far, in order of first appearance. */
  function Register(names: seq<string>, name: string): seq<string> {
    if name in names then names else names + [name]
  }

  /** Ids are 32 bits wide. */
  const ID_RANGE := 0x1_0000_0000

  /** Ids count from 1 and wrap around. */
  function IdAt(i: nat): nat {
    (i + 1) % ID_RANGE
  }

  lemma NextId(i: nat)
    ensures (IdAt(i) + 1) % ID_RANGE == IdAt(i + 1)
  {
  }

  function IdOf(names: seq<string>, name: string): nat
    requires name in names
  {
    IdAt(PositionOf(names, name))
  }

  /** Ids do not change as more names arrive. */
  lemma IdStable(names: seq<string>, more: seq<string>, name: string)
    requires name in names && names <= more
    ensures name in more && IdOf(more, name) == IdOf(names, name)
  {
    var i := PositionOf(names, name);
    assert more[..i] == names[..i];
    assert more[i] == name;
    PositionIs(more, name, i);
  }

  /** Each name and its id. */
  function IdMap(names: seq<string>): map<string, nat> {
    if names == [] then map[]
    else
      var init, last := IdMap(names[..|names| - 1]), names[|names| - 1];
      if last in init then init else init[last := IdAt(|names| - 1)]
  }

  lemma {:induction false} IdMapIs(names: seq<string>, name: string)
    ensures name in IdMap(names) <==> name in names
    ensures name in names ==> IdMap(names)[name] == IdOf(names, name)
  {
    if names != [] {
      var init, last := names[..|names| - 1], names[|names| - 1];
      assert names == init + [last];
      IdMapIs(init, name);
      IdMapIs(init, last);
      if name in init {
        IdStable(init, names, name);
      } else if name == last {
        PositionIs(names, name, |init|);
      }
    }
  }

  class SymbolMapper {
    var ids: map<string, nat>
    var nextId: nat
    ghost var names: seq<string>

    ghost predicate Valid()
      reads this
    {
      nextId == IdAt(|names|) && ids == IdMap(names)
    }

    constructor ()
      ensures Valid() && names == []
    {
      ids, nextId, names := map[], 1, [];
    }

    method GetOrCreate(name: string) returns (id: nat)
      requires Valid()
      modifies this
      ensures Valid()
      ensures names == Register(old(names), name) && id == IdOf(names, name)
    {
      hide IdAt;
      IdMapIs(names, name);
      if name in ids {
        return ids[name];
      }
      id := nextId;
      nextId := (nextId + 1) % ID_RANGE;
      NextId(|names|);
      ids := ids[name := id];
      PositionIs(names + [name], name, |names|);
      assert (names + [name])[..|names|] == names;
      names := names + [name];
    }
  }

  /** The names a fresh mapper knows after a history of calls. */
  function NamesOf(calls: seq<string>): seq<string> {
    if calls == [] then [] else Register(NamesOf(calls[..|calls| - 1]), calls[|calls| - 1])
  }

  ghost predicate Distinct(names: seq<string>) {
    forall i, j :: 0 <= i < j < |names| ==> names[i] != names[j]
  }

  lemma {:induction false} NamesAreDistinct(calls: seq<string>)
    ensures Distinct(NamesOf(calls))
    ensures forall n :: n in NamesOf(calls) <==> n in calls
  {
    if calls != [] {
      NamesAreDistinct(calls[..|calls| - 1]);
      assert calls == calls[..|calls| - 1] + [calls[|calls| - 1]];
    }
  }

  lemma {:induction false} NamesGrow(calls: seq<string>, k: nat)
    requires k <= |calls|
    ensures NamesOf(calls[..k]) <= NamesOf(calls)
    decreases |calls|
  {
    if k == |calls| {
      assert calls[..k] == calls;
    } else {
      var init := calls[..|calls| - 1];
      NamesGrow(init, k);
      assert init[..k] == calls[..k];
    }
  }

  /** Over every call history, the id of a name counts the names that came first. */
  lemma IdCountsEarlierNames(calls: seq<string>, name: string)
    requires name in calls
    ensures name in NamesOf(calls)
    ensures IdOf(NamesOf(calls), name) == IdAt(|NamesOf(calls[..PositionOf(calls, name)])|)
  {
    NamesAreDistinct(calls);
    var k := PositionOf(calls, name);
    var before, upto := NamesOf(calls[..k]), NamesOf(calls[..k + 1]);
    NamesAreDistinct(calls[..k]);
    assert calls[..k + 1][..k] == calls[..k];
    assert upto == before + [name];
    assert upto[..|before|] == before;
    PositionIs(upto, name, |before|);
    NamesGrow(calls, k + 1);
    IdStable(upto, NamesOf(calls), name);
  }

  /** The call made at time `k` returned the id the name still has at the end. */
  lemma CallsAreStable(calls: seq<string>, k: nat)
    requires k < |calls|
    ensures calls[k] in NamesOf(calls[..k + 1]) && calls[k] in NamesOf(calls)
    ensures IdOf(NamesOf(calls[..k + 1]), calls[k]) == IdOf(NamesOf(calls), calls[k])
  {
    assert calls[..k + 1][..k] == calls[..k];
    NamesGrow(calls, k + 1);
    IdStable(NamesOf(calls[..k + 1]), NamesOf(calls), calls[k]);
  }

  /** Ids count up from 1, and tell all names apart if and only if there are at most 2^32 of them. */
  lemma IdsAreDense(calls: seq<string>)
    ensures forall i :: 0 <= i < |NamesOf(calls)| ==> IdOf(NamesOf(calls), NamesOf(calls)[i]) == IdAt(i)
    ensures OneIdPerName(NamesOf(calls)) <==> |NamesOf(calls)| <= 0x1_0000_0000
    ensures |NamesOf(calls)| < 0x1_0000_0000 ==>
              forall i :: 0 <= i < |NamesOf(calls)| ==> IdOf(NamesOf(calls), NamesOf(calls)[i]) == i + 1
  {
    hide NamesOf, IdAt;
    NamesAreDistinct(calls);
    var names := NamesOf(calls);
    forall i | 0 <= i < |names|
      ensures IdOf(names, names[i]) == IdAt(i) && (i + 1 < ID_RANGE ==> IdAt(i) == i + 1)
    {
      PositionIs(names, names[i], i);
      IdsWrap(i);
    }
    if |names| > ID_RANGE {
      IdsWrap(0);
      assert names[0] != names[ID_RANGE] && IdOf(names, names[0]) == IdOf(names, names[ID_RANGE]);
      assert !OneIdPerName(names);
    } else {
      forall a, b | a in names && b in names && IdOf(names, a) == IdOf(names, b)
        ensures a == b
      {
        SameId(PositionOf(names, a), PositionOf(names, b));
      }
    }
  }

  ghost predicate OneIdPerName(names: seq<string>) {
    forall a, b :: a in names && b in names && IdOf(names, a) == IdOf(names, b) ==> a == b
  }

  lemma SameId(i: nat, j: nat)
    requires i < ID_RANGE && j < ID_RANGE && IdAt(i) == IdAt(j)
    ensures i == j
  {
  }

  lemma IdsWrap(i: nat)
    ensures IdAt(i + ID_RANGE) == IdAt(i)
    ensures i + 1 < ID_RANGE ==> IdAt(i) == i + 1
  {
  }

  /** All ids index the portfolio's position array if and only if at most 255 names were seen. */
  lemma IdsFitIff(calls: seq<string>)
    ensures (forall n :: n in NamesOf(calls) ==> IdOf(NamesOf(calls), n) < MAX_SYMBOLS)
            <==> |NamesOf(calls)| <= 255
  {
    hide NamesOf;
    IdsAreDense(calls);
    var names := NamesOf(calls);
    if |names| >= MAX_SYMBOLS {
      assert IdOf(names, names[MAX_SYMBOLS - 1]) == IdAt(MAX_SYMBOLS - 1) == MAX_SYMBOLS;
      assert names[MAX_SYMBOLS - 1] in names;
    } else {
      forall n | n in names
        ensures IdOf(names, n) < MAX_SYMBOLS
      {
        assert PositionOf(names, n) < MAX_SYMBOLS - 1;
      }
    }
  }
}
