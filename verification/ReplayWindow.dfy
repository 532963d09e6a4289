/** Which events of a stream a replay dispatches. */
module ReplayWindow {
  import opened Arithmetic
  import opened Events

  /** A time of zero leaves that end of the window open. */
  datatype Window = Window(start: int, end: int) {
    predicate Before(e: Event) {
      start != 0 && e.timestamp < start
    }

    /** An event past the end stops the replay, unless it is also before the start. */
    predicate Stops(e: Event) {
      !Before(e) && end != 0 && e.timestamp > end
    }
  }

  /** The rule of the replay loop: skip what is early, stop at the first that is late. */
  function Dispatched(w: Window, es: seq<Event>): seq<Event> {
    if es == [] || w.Stops(es[0]) then []
    else (if w.Before(es[0]) then [] else [es[0]]) + Dispatched(w, es[1..])
  }

  /** What the reader still holds after a replay: a stop has already taken the lookahead. */
  function Leftover(w: Window, es: seq<Event>): seq<Event> {
    if es == [] then []
    else if w.Stops(es[0]) then (if |es| == 1 then [] else es[2..])
    else Leftover(w, es[1..])
  }

  /** One turn of the loop, on the stream ahead of it. */
  lemma ReplayStep(w: Window, es: seq<Event>, done: seq<Event>)
    requires es != []
    ensures w.Stops(es[0]) ==> Dispatched(w, es) == [] && Leftover(w, es) == (if |es| == 1 then [] else es[2..])
    ensures !w.Stops(es[0]) ==> Leftover(w, es) == Leftover(w, es[1..])
    ensures w.Before(es[0]) ==> done + Dispatched(w, es) == done + Dispatched(w, es[1..])
    ensures !w.Before(es[0]) && !w.Stops(es[0]) ==>
              done + Dispatched(w, es) == (done + [es[0]]) + Dispatched(w, es[1..])
  {
    if w.Before(es[0]) {
      assert Dispatched(w, es) == Dispatched(w, es[1..]);
    } else if !w.Stops(es[0]) {
      Associate(done, [es[0]], Dispatched(w, es[1..]));
    }
  }

  lemma ReplayEnd(w: Window, done: seq<Event>)
    ensures done + Dispatched(w, []) == done && Leftover(w, []) == []
  {
  }

  // What the rule amounts to, in timestamps.

  /** Is time `t` within the window? Both ends belong to it. */
  predicate Inside(w: Window, t: int) {
    (w.start == 0 || w.start <= t) && (w.end == 0 || t <= w.end)
  }

  /** Is time `t` past the end, and not also before the start? */
  predicate Late(w: Window, t: int) {
    w.end != 0 && w.end < t && (w.start == 0 || w.start <= t)
  }

  /** The plain window filter. */
  function InWindow(w: Window, es: seq<Event>): seq<Event> {
    if es == [] then []
    else (if Inside(w, es[0].timestamp) then [es[0]] else []) + InWindow(w, es[1..])
  }

  /** No event of the window comes after one that stops the replay. */
  ghost predicate NoneAfterStop(w: Window, es: seq<Event>) {
    forall i, j :: 0 <= i < j < |es| ==> Late(w, es[i].timestamp) ==> !Inside(w, es[j].timestamp)
  }

  ghost predicate Sorted(es: seq<Event>) {
    forall i, j :: 0 <= i < j < |es| ==> es[i].timestamp <= es[j].timestamp
  }

  lemma {:induction false} EmptyFilter(w: Window, es: seq<Event>)
    ensures InWindow(w, es) == [] <==> forall i :: 0 <= i < |es| ==> !Inside(w, es[i].timestamp)
  {
    if es != [] {
      EmptyFilter(w, es[1..]);
      assert forall i :: 1 <= i < |es| ==> es[i] == es[1..][i - 1];
    }
  }

  lemma NoneAfterStopTail(w: Window, es: seq<Event>)
    requires es != []
    ensures NoneAfterStop(w, es) <==>
            NoneAfterStop(w, es[1..]) && (Late(w, es[0].timestamp) ==> InWindow(w, es[1..]) == [])
  {
    EmptyFilter(w, es[1..]);
    var rest := es[1..];
    assert forall i :: 0 <= i < |rest| ==> rest[i] == es[i + 1];
    if NoneAfterStop(w, es) {
      forall i, j | 0 <= i < j < |rest| && Late(w, rest[i].timestamp)
        ensures !Inside(w, rest[j].timestamp)
      {
        assert Late(w, es[i + 1].timestamp) ==> !Inside(w, es[j + 1].timestamp);
      }
    }
    if NoneAfterStop(w, rest) && (Late(w, es[0].timestamp) ==> InWindow(w, rest) == []) {
      forall i, j | 0 <= i < j < |es| && Late(w, es[i].timestamp)
        ensures !Inside(w, es[j].timestamp)
      {
        assert es[j] == rest[j - 1];
        if i > 0 {
          assert es[i] == rest[i - 1];
        }
      }
    }
  }

  /** Replay is the window filter exactly when no event of the window follows a late one. */
  lemma {:induction false} DispatchedIsFilterIff(w: Window, es: seq<Event>)
    ensures Dispatched(w, es) == InWindow(w, es) <==> NoneAfterStop(w, es)
  {
    if es != [] {
      NoneAfterStopTail(w, es);
      DispatchedIsFilterIff(w, es[1..]);
      if Late(w, es[0].timestamp) {
        if InWindow(w, es[1..]) == [] {
          StopsWithNothingLeft(w, es[1..]);
        }
      } else {
        PrependCancels(if w.Before(es[0]) then [] else [es[0]], Dispatched(w, es[1..]), InWindow(w, es[1..]));
      }
    }
  }

  lemma PrependCancels(head: seq<Event>, a: seq<Event>, b: seq<Event>)
    ensures head + a == head + b <==> a == b
  {
    assert (head + a)[|head|..] == a && (head + b)[|head|..] == b;
  }

  lemma StopsWithNothingLeft(w: Window, es: seq<Event>)
    requires InWindow(w, es) == []
    ensures NoneAfterStop(w, es)
  {
    EmptyFilter(w, es);
  }

  /** On a stream in time order, replay is the window filter. */
  lemma SortedReplayIsFilter(w: Window, es: seq<Event>)
    requires Sorted(es)
    ensures Dispatched(w, es) == InWindow(w, es)
  {
    forall i, j | 0 <= i < j < |es| && Late(w, es[i].timestamp)
      ensures !Inside(w, es[j].timestamp)
    {
      assert es[i].timestamp <= es[j].timestamp;
    }
    DispatchedIsFilterIff(w, es);
  }

  /**
   In plain times: on a stream in time order the replay dispatches one unbroken part of it, and an
   event lies in that part exactly if neither end of the window, where there is one, excludes it.
   */
  lemma {:induction false} SortedReplayIsSegment(w: Window, es: seq<Event>) returns (a: nat, b: nat)
    requires forall i, j :: 0 <= i < j < |es| ==> es[i].timestamp <= es[j].timestamp
    ensures a <= b <= |es| && Dispatched(w, es) == es[a..b]
    ensures forall i :: 0 <= i < |es| ==>
              (a <= i < b <==>
               (w.start == 0 || w.start <= es[i].timestamp) && (w.end == 0 || es[i].timestamp <= w.end))
    decreases |es|
  {
    if es == [] || w.Stops(es[0]) {
      a, b := 0, 0;
    } else {
      var rest := es[1..];
      assert forall i :: 1 <= i < |es| ==> es[i] == rest[i - 1];
      a, b := SortedReplayIsSegment(w, rest);
      assert rest[a..b] == es[a + 1..b + 1];
      if w.Before(es[0]) {
        assert Dispatched(w, es) == Dispatched(w, rest);
        a, b := a + 1, b + 1;
      } else {
        assert Dispatched(w, es) == [es[0]] + rest[a..b];
        a, b := 0, if a == b then 1 else b + 1;
      }
    }
  }

  /** In any order, nothing outside the window is dispatched. */
  lemma {:induction false} DispatchedInTime(w: Window, es: seq<Event>)
    ensures forall e :: e in Dispatched(w, es) ==>
              e in es && (w.start == 0 || w.start <= e.timestamp) && (w.end == 0 || e.timestamp <= w.end)
  {
    if es != [] && !w.Stops(es[0]) {
      DispatchedInTime(w, es[1..]);
    }
  }

  /** Out of order, events of the window are lost. */
  lemma UnsortedReplayLoses()
    ensures var w, late, due := Window(0, 5), Event(9, 1, EndOfData), Event(3, 1, EndOfData);
            Dispatched(w, [late, due]) == [] && InWindow(w, [late, due]) == [due]
  {
    var w, late, due := Window(0, 5), Event(9, 1, EndOfData), Event(3, 1, EndOfData);
    assert [late, due][1..] == [due] && [due][1..] == [];
    assert InWindow(w, [due]) == [due];
  }

  /** Where the replay stops: the first event that stops it, or the end. */
  function StopAt(w: Window, es: seq<Event>): (k: nat)
    ensures k <= |es| && (k < |es| ==> Late(w, es[k].timestamp))
    ensures forall j :: 0 <= j < k ==> !Late(w, es[j].timestamp)
  {
    if es == [] || Late(w, es[0].timestamp) then 0
    else
      var k := StopAt(w, es[1..]);
      assert forall j :: 1 <= j < k + 1 ==> es[j] == es[1..][j - 1];
      k + 1
  }

  /**
   Every event is accounted for. Those before the stop are dispatched if they are in the window,
   the stop and the one event of lookahead behind it are lost, and the reader keeps all the rest.
   */
  lemma {:induction false} AllAccountedFor(w: Window, es: seq<Event>)
    ensures var k := StopAt(w, es);
            && Dispatched(w, es) == InWindow(w, es[..k])
            && Leftover(w, es) == if k + 2 <= |es| then es[k + 2..] else []
  {
    if es != [] && !Late(w, es[0].timestamp) {
      AllAccountedFor(w, es[1..]);
      var k := StopAt(w, es[1..]);
      assert es[..k + 1][1..] == es[1..][..k];
    }
  }

  /** So nothing is dispatched that a later replay could see again. */
  lemma NothingRepeated(w: Window, es: seq<Event>)
    ensures |Leftover(w, es)| <= |es|
    ensures var taken := |es| - |Leftover(w, es)|;
            Leftover(w, es) == es[taken..] && Dispatched(w, es) <= InWindow(w, es[..taken])
  {
    hide Dispatched, InWindow, Leftover;
    AllAccountedFor(w, es);
    var k, taken := StopAt(w, es), |es| - |Leftover(w, es)|;
    assert k <= taken <= |es|;
    assert es[..taken] == es[..k] + es[k..taken];
    FilterConcat(w, es[..k], es[k..taken]);
  }

  lemma {:induction false} FilterConcat(w: Window, a: seq<Event>, b: seq<Event>)
    ensures InWindow(w, a + b) == InWindow(w, a) + InWindow(w, b)
    decreases |a|
  {
    if a == [] {
      assert a + b == b;
    } else {
      FilterConcat(w, a[1..], b);
      assert (a + b)[1..] == a[1..] + b;
    }
  }
}
