/**
 Telemetry settings (`apps/core/telemetry/service.py`): one row, a heartbeat slot claimed by a single
 conditional UPDATE, and a mode that is read, changed and saved.
 */
module Heartbeat {
  import opened Options
  import opened Spacing

  datatype Mode = Unset | Off | Anonymous | Identified | NoSuchMode(value: string)

  /** The columns in question; the row itself always exists. */
  datatype Row = Row(mode: Mode, lastHeartbeat: Option<int>)

  predicate Settable(mode: Mode) {
    mode == Off || mode == Anonymous
  }

  /** The filter of the claiming UPDATE. */
  predicate Claimable(row: Row, now: int, minInterval: nat) {
    row.mode != Off && (row.lastHeartbeat.None? || row.lastHeartbeat.value < now - minInterval)
  }

  class TelemetrySettings {
    var row: Row
    var enabledEvents: nat    // how often `telemetry_enabled` has fired

    constructor ()
      ensures row == Row(Unset, None) && enabledEvents == 0
    {
      row := Row(Unset, None);
      enabledEvents := 0;
    }

    method ClaimHeartbeat(now: int, minInterval: nat) returns (claimed: bool)
      modifies this`row
      ensures claimed <==>
                && old(row).mode != Off
                && (old(row).lastHeartbeat.None? || old(row).lastHeartbeat.value + minInterval < now)
      ensures row == Row(old(row).mode, if claimed then Some(now) else old(row).lastHeartbeat)
      ensures row == Step(minInterval, old(State(row, map[], enabledEvents)), Claim(now)).row
      ensures row.mode == old(row.mode)
    {
      claimed := Claimable(row, now, minInterval);
      if claimed {
        row := row.(lastHeartbeat := Some(now));
      }
    }

    /** Nothing happens to a mode that cannot be set; the stamp is never touched. */
    method SetMode(mode: Mode) returns (ok: bool)
      modifies this
      ensures ok <==> mode == Off || mode == Anonymous
      ensures row.mode == if ok then mode else old(row.mode)
      ensures enabledEvents == old(enabledEvents) + if old(row.mode) == Off && mode == Anonymous then 1 else 0
      ensures State(row, map[], enabledEvents)
              == Run(0, old(State(row, map[], enabledEvents)), [ReadMode(0, mode), SaveMode(0)])
      ensures row.lastHeartbeat == old(row.lastHeartbeat)
    {
      ok := Settable(mode);
      TwoSteps(0, State(row, map[], enabledEvents), ReadMode(0, mode), SaveMode(0));
      if !ok {
        return;
      }
      var wasOff := row.mode == Off;
      row := row.(mode := mode);
      if row.mode == Anonymous && wasOff {
        enabledEvents := enabledEvents + 1;
      }
    }
  }

  // ---------------------------------------------------------------------------------------
  // Any interleaving
  // ---------------------------------------------------------------------------------------

  type CallId = nat

  /** A call of `set_mode` between its read and its save. */
  datatype Change = Change(mode: Mode, wasOff: bool)

  datatype State = State(row: Row, open: map<CallId, Change>, enabledEvents: nat)

  datatype Event =
    | Claim(now: int)
    | ReadMode(call: CallId, mode: Mode)
    | SaveMode(call: CallId)

  function Step(minInterval: nat, st: State, e: Event): State {
    match e
    case Claim(now) =>
      if Claimable(st.row, now, minInterval) then st.(row := st.row.(lastHeartbeat := Some(now))) else st
    case ReadMode(call, mode) =>
      if Settable(mode) then st.(open := st.open[call := Change(mode, st.row.mode == Off)]) else st
    case SaveMode(call) =>
      if call !in st.open then st
      else
        var change := st.open[call];
        State(st.row.(mode := change.mode), st.open - {call},
              st.enabledEvents + if change.mode == Anonymous && change.wasOff then 1 else 0)
  }

  function Run(minInterval: nat, st: State, events: seq<Event>): State
    decreases |events|
  {
    if events == [] then st else Run(minInterval, Step(minInterval, st, events[0]), events[1..])
  }

  lemma TwoSteps(minInterval: nat, st: State, a: Event, b: Event)
    ensures Run(minInterval, st, [a, b]) == Step(minInterval, Step(minInterval, st, a), b)
  {
    assert [a, b][1..] == [b] && [b][1..] == [];
    assert Run(minInterval, Step(minInterval, st, a), [b]) == Step(minInterval, Step(minInterval, st, a), b);
  }

  /** The stamps of the claims that won, in the order of winning. */
  function Wins(minInterval: nat, st: State, events: seq<Event>): seq<int>
    decreases |events|
  {
    if events == [] then []
    else
      var e := events[0];
      (if e.Claim? && Claimable(st.row, e.now, minInterval) then [e.now] else [])
      + Wins(minInterval, Step(minInterval, st, e), events[1..])
  }

  lemma {:induction false} WinsAreSpaced(minInterval: nat, st: State, events: seq<Event>)
    ensures var w := Wins(minInterval, st, events);
            && Spaced(w, minInterval + 1)
            && (st.row.lastHeartbeat.Some? ==>
                  forall i :: 0 <= i < |w| ==> st.row.lastHeartbeat.value + minInterval < w[i])
    decreases |events|
  {
    if events != [] {
      WinsAreSpaced(minInterval, Step(minInterval, st, events[0]), events[1..]);
    }
  }

  /** In whatever order claims and mode changes arrive, and whatever clock readings they carry, winning
      stamps grow by more than the interval, so a stretch of length `t` holds at most
      `t / (minInterval + 1) + 1` of them (times are whole microseconds). */
  lemma HeartbeatsAreSpaced(minInterval: nat, st: State, events: seq<Event>, lo: int, t: nat)
    ensures var w := Wins(minInterval, st, events);
            && (forall i, j :: 0 <= i < j < |w| ==> w[i] + minInterval < w[j])
            && |Within(w, lo, lo + t)| <= t / (minInterval + 1) + 1
  {
    WinsAreSpaced(minInterval, st, events);
    AtMost(Wins(minInterval, st, events), minInterval + 1, lo, t);
  }

  /** No save of a mode other than `Off` happens during these events. */
  ghost predicate StaysOff(minInterval: nat, st: State, events: seq<Event>)
    decreases |events|
  {
    st.row.mode == Off && (events == [] || StaysOff(minInterval, Step(minInterval, st, events[0]), events[1..]))
  }

  /** As long as the mode stays off nothing is won, and the stamp stays as it was. */
  lemma {:induction false} OffIsSilent(minInterval: nat, st: State, events: seq<Event>)
    requires StaysOff(minInterval, st, events)
    ensures Wins(minInterval, st, events) == []
    ensures Run(minInterval, st, events).row.lastHeartbeat == st.row.lastHeartbeat
    decreases |events|
  {
    if events != [] {
      OffIsSilent(minInterval, Step(minInterval, st, events[0]), events[1..]);
    }
  }

  /** A slot is lost for good only to a later stamp: the stamp is always the last win, if any. */
  lemma {:induction false} StampIsTheLastWin(minInterval: nat, st: State, events: seq<Event>)
    ensures var w := Wins(minInterval, st, events);
            Run(minInterval, st, events).row.lastHeartbeat == if w == [] then st.row.lastHeartbeat else Some(w[|w| - 1])
    decreases |events|
  {
    if events != [] {
      StampIsTheLastWin(minInterval, Step(minInterval, st, events[0]), events[1..]);
    }
  }

  // ---------------------------------------------------------------------------------------
  // When `telemetry_enabled` fires
  // ---------------------------------------------------------------------------------------

  /** How often a save moved the row into `Off` from another mode. */
  function TurnedOff(minInterval: nat, st: State, events: seq<Event>): nat
    decreases |events|
  {
    if events == [] then 0
    else
      var next := Step(minInterval, st, events[0]);
      (if st.row.mode != Off && next.row.mode == Off then 1 else 0) + TurnedOff(minInterval, next, events[1..])
  }

  function OffNow(st: State): nat {
    if st.row.mode == Off then 1 else 0
  }

  /** Firings and the present state balance against the times the mode was turned off and the initial state:
      the event has fired exactly once per time the row left `Off`. */
  ghost predicate Balanced(minInterval: nat, st: State, events: seq<Event>) {
    var after := Run(minInterval, st, events);
    after.enabledEvents - st.enabledEvents + OffNow(after) == TurnedOff(minInterval, st, events) + OffNow(st)
  }

  /** A save of `Anonymous` knows whether the mode is off at that moment. */
  predicate Fresh(st: State, e: Event) {
    e.SaveMode? && e.call in st.open && st.open[e.call].mode == Anonymous ==>
      st.open[e.call].wasOff == (st.row.mode == Off)
  }

  ghost predicate FreshRun(minInterval: nat, st: State, events: seq<Event>)
    decreases |events|
  {
    events == [] || (Fresh(st, events[0]) && FreshRun(minInterval, Step(minInterval, st, events[0]), events[1..]))
  }

  ghost predicate OpenAreSettable(st: State) {
    forall a :: a in st.open ==> Settable(st.open[a].mode)
  }

  lemma StepBalancesIff(minInterval: nat, st: State, e: Event)
    requires OpenAreSettable(st)
    ensures OpenAreSettable(Step(minInterval, st, e))
    ensures var next := Step(minInterval, st, e);
            next.enabledEvents - st.enabledEvents + OffNow(next)
              == (if st.row.mode != Off && next.row.mode == Off then 1 else 0) + OffNow(st)
            <==> Fresh(st, e)
  {
  }

  lemma BalancedTail(minInterval: nat, st: State, events: seq<Event>, n: nat)
    requires OpenAreSettable(st) && 0 < n <= |events| && Fresh(st, events[0])
    ensures Balanced(minInterval, st, events[..n])
            <==> Balanced(minInterval, Step(minInterval, st, events[0]), events[1..][..n - 1])
  {
    StepBalancesIff(minInterval, st, events[0]);
    assert events[..n][1..] == events[1..][..n - 1];
  }

  lemma BalancedOne(minInterval: nat, st: State, events: seq<Event>)
    requires OpenAreSettable(st) && events != []
    ensures Balanced(minInterval, st, events[..1]) <==> Fresh(st, events[0])
  {
    StepBalancesIff(minInterval, st, events[0]);
    var next := Step(minInterval, st, events[0]);
    assert events[..1][0] == events[0] && events[..1][1..] == [];
    assert Run(minInterval, st, events[..1]) == Run(minInterval, next, []) == next;
    assert TurnedOff(minInterval, next, []) == 0;
  }

  /** The event fires exactly once per re-enable, at every moment of the run, exactly when each save of
      `Anonymous` still knows whether the mode is off. */
  lemma {:induction false} FiresOncePerReEnableIff(minInterval: nat, st: State, events: seq<Event>)
    requires OpenAreSettable(st)
    ensures (forall n {:trigger events[..n]} :: 0 <= n <= |events| ==> Balanced(minInterval, st, events[..n]))
            <==> FreshRun(minInterval, st, events)
    decreases |events|
  {
    assert events[..0] == [];
    if events != [] {
      var next, rest := Step(minInterval, st, events[0]), events[1..];
      StepBalancesIff(minInterval, st, events[0]);
      BalancedOne(minInterval, st, events);
      FiresOncePerReEnableIff(minInterval, next, rest);
      if FreshRun(minInterval, st, events) {
        forall n | 0 <= n <= |events|
          ensures Balanced(minInterval, st, events[..n])
        {
          if n > 0 {
            BalancedTail(minInterval, st, events, n);
            assert Balanced(minInterval, next, rest[..n - 1]);
          }
        }
      }
      if forall n {:trigger events[..n]} :: 0 <= n <= |events| ==> Balanced(minInterval, st, events[..n]) {
        assert Balanced(minInterval, st, events[..1]);
        forall n | 0 <= n <= |rest|
          ensures Balanced(minInterval, next, rest[..n])
        {
          assert Balanced(minInterval, st, events[..n + 1]);
          BalancedTail(minInterval, st, events, n + 1);
        }
      }
    }
  }

  /** Every change is saved before the next one is read. */
  ghost predicate OneAtATime(minInterval: nat, st: State, events: seq<Event>)
    decreases |events|
  {
    && (events != [] && events[0].ReadMode? ==> st.open == map[])
    && (events == [] || OneAtATime(minInterval, Step(minInterval, st, events[0]), events[1..]))
  }

  ghost predicate ChangesAreCurrent(st: State) {
    && (forall a, b :: a in st.open && b in st.open ==> a == b)
    && forall a :: a in st.open ==> Settable(st.open[a].mode) && st.open[a].wasOff == (st.row.mode == Off)
  }

  /** Changes that do not overlap are such a run. */
  lemma {:induction false} SerialChangesAreFresh(minInterval: nat, st: State, events: seq<Event>)
    requires ChangesAreCurrent(st) && OneAtATime(minInterval, st, events)
    ensures FreshRun(minInterval, st, events)
    decreases |events|
  {
    if events != [] {
      if events[0].SaveMode? && events[0].call in st.open {
        var call := events[0].call;
        assert forall a :: a in st.open ==> a == call;
      }
      SerialChangesAreFresh(minInterval, Step(minInterval, st, events[0]), events[1..]);
    }
  }

  /** Two overlapping calls can both have read `Off`, and then fire twice for one change. */
  lemma OverlappingChangesFireTwice(minInterval: nat, stamp: Option<int>, n: nat)
    ensures var off := State(Row(Off, stamp), map[], n);
            Run(minInterval, off, [ReadMode(0, Anonymous), ReadMode(1, Anonymous), SaveMode(0), SaveMode(1)])
            == State(Row(Anonymous, stamp), map[], n + 2)
  {
    var off := State(Row(Off, stamp), map[], n);
    var events := [ReadMode(0, Anonymous), ReadMode(1, Anonymous), SaveMode(0), SaveMode(1)];
    var b := Step(minInterval, Step(minInterval, off, events[0]), events[1]);
    TwoSteps(minInterval, b, SaveMode(0), SaveMode(1));
    assert events[1..][1..] == [SaveMode(0), SaveMode(1)];
    assert Run(minInterval, off, events) == Run(minInterval, b, events[1..][1..]);
    assert Run(minInterval, b, events[1..][1..]).open == map[];
  }
}
