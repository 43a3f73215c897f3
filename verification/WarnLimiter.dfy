/**
 The limiter of the "observation snapshot unavailable" warning: one atomic stamp,
 read and exchanged by many threads. A load may see any stamp ever stored, as relaxed
 ordering lets it; a clock may read anything, earlier than before too.
 */
module WarnLimiter {

  const WARN_INTERVAL_SECS: nat := 30

  /** `saturating_sub`. */
  function SaturatingSub(a: nat, b: nat): nat { if a < b then 0 else a - b }

  /** The check between the load and the exchange. */
  predicate MayWarn(last: nat, now: nat) { last == 0 || SaturatingSub(now, last) >= WARN_INTERVAL_SECS }

  /** `now_secs.max(1)`. */
  function Stamp(now: nat): (s: nat)
    ensures s >= 1
  {
    if now < 1 then 1 else now
  }

  // ---------------------------------------------------------- interleaving

  /** A call between its load and its exchange. */
  datatype Call = Call(thread: nat, now: nat, last: nat)

  /** The stamps stored so far, oldest first, the current one last; the calls that have
      loaded; the readings of the calls that returned true, in order. */
  datatype State = State(stamps: seq<nat>, calls: set<Call>, warned: seq<nat>)

  const START := State([0], {}, [])

  datatype Step =
    | Load(thread: nat, now: nat, seen: nat)
    | Exchange(call: Call)

  predicate Enabled(s: State, step: Step) {
    match step
    case Load(thread, _, seen) => seen < |s.stamps| && forall c | c in s.calls :: c.thread != thread
    case Exchange(call) => call in s.calls
  }

  /** A load that finds the interval not over returns false at once; an exchange
      stores only when the stamp is still the one loaded. */
  function Next(s: State, step: Step): State
    requires Enabled(s, step)
  {
    match step
    case Load(thread, now, seen) =>
      if MayWarn(s.stamps[seen], now) then s.(calls := s.calls + {Call(thread, now, s.stamps[seen])}) else s
    case Exchange(call) =>
      var left := s.(calls := s.calls - {call});
      if s.stamps != [] && s.stamps[|s.stamps| - 1] == call.last
      then left.(stamps := s.stamps + [Stamp(call.now)], warned := s.warned + [call.now])
      else left
  }

  /** The steps, each enabled when it is taken, lead from one state to another. */
  predicate Run(s: State, steps: seq<Step>, end: State)
    decreases |steps|
  {
    if steps == [] then s == end
    else Enabled(s, steps[0]) && Run(Next(s, steps[0]), steps[1..], end)
  }

  /** Every stamp after the first is at least the interval after the one before it. */
  ghost predicate Spaced(stamps: seq<nat>) {
    && |stamps| > 0 && stamps[0] == 0
    && (|stamps| > 1 ==> stamps[1] >= 1)
    && forall i, j | 1 <= i < j < |stamps| && j == i + 1 :: stamps[j] >= stamps[i] + WARN_INTERVAL_SECS
  }

  ghost predicate Valid(s: State) {
    && Spaced(s.stamps)
    && |s.warned| + 1 == |s.stamps|
    && (forall i, j | 0 <= i < |s.warned| && j == i + 1 :: s.stamps[j] == Stamp(s.warned[i]))
    && (forall c | c in s.calls :: c.last in s.stamps && MayWarn(c.last, c.now))
    && (forall c, d | c in s.calls && d in s.calls && c.thread == d.thread :: c == d)
  }

  /** Stamps `j - i` apart are at least as many intervals apart. */
  lemma {:induction false} StampsGrow(stamps: seq<nat>, i: nat, j: nat)
    requires Spaced(stamps) && 1 <= i <= j < |stamps|
    ensures stamps[j] >= stamps[i] + WARN_INTERVAL_SECS * (j - i)
    ensures stamps[i] >= 1
    decreases j
  {
    if i < j {
      StampsGrow(stamps, i, j - 1);
    } else if i > 1 {
      StampsGrow(stamps, i - 1, i - 1);
    }
  }

  lemma StampsDiffer(stamps: seq<nat>, i: nat, j: nat)
    requires Spaced(stamps) && i < j < |stamps|
    ensures stamps[i] < stamps[j]
  {
    if i == 0 { StampsGrow(stamps, 1, j); } else { StampsGrow(stamps, i, j); }
  }

  lemma StepKeeps(s: State, step: Step)
    requires Valid(s) && Enabled(s, step)
    ensures Valid(Next(s, step))
  {
    var stamps := s.stamps;
    if step.Exchange? && stamps[|stamps| - 1] == step.call.last {
      var n := |stamps| - 1;
      if n > 0 { StampsGrow(stamps, n, n); }
    }
  }

  lemma {:induction false} RunsAreValid(s: State, steps: seq<Step>, end: State)
    requires Valid(s) && Run(s, steps, end)
    ensures Valid(end)
    decreases |steps|
  {
    if steps != [] {
      StepKeeps(s, steps[0]);
      RunsAreValid(Next(s, steps[0]), steps[1..], end);
    }
  }

  // --------------------------------------------------------------- theorems

  /** In every run two warnings are at least one interval apart for each warning from
      the one to the other, in stamps and so in the readings of their clocks. */
  lemma WarningsAreSpaced(steps: seq<Step>, s: State, i: nat, j: nat)
    requires Run(START, steps, s) && i < j < |s.warned|
    ensures s.warned[j] >= s.warned[i] + WARN_INTERVAL_SECS * (j - i)
    ensures |s.stamps| == |s.warned| + 1 && s.stamps[j + 1] == s.warned[j]
  {
    RunsAreValid(START, steps, s);
    var a, b := i + 1, j + 1;
    StampsGrow(s.stamps, a, b);
    assert s.stamps[a] == Stamp(s.warned[i]) && s.stamps[b] == Stamp(s.warned[j]);
  }

  /** In every run a call that has loaded wins exactly when no stamp was stored after
      the one it saw: a stale load never wins, and a fresh one always does. */
  lemma WinsIffFresh(steps: seq<Step>, s: State, call: Call, seen: nat)
    requires Run(START, steps, s) && call in s.calls && seen < |s.stamps| && s.stamps[seen] == call.last
    ensures Next(s, Exchange(call)).warned == (if seen == |s.stamps| - 1 then s.warned + [call.now] else s.warned)
  {
    RunsAreValid(START, steps, s);
    if seen < |s.stamps| - 1 {
      StampsDiffer(s.stamps, seen, |s.stamps| - 1);
    }
  }

  /** Of two calls that saw the same stamp, at most one warns. */
  lemma OneWinner(steps: seq<Step>, s: State, first: Call, second: Call)
    requires Run(START, steps, s) && first in s.calls && second in s.calls && first != second && first.last == second.last
    requires Next(s, Exchange(first)).warned != s.warned
    ensures Exchange(second).call in Next(s, Exchange(first)).calls
    ensures Next(Next(s, Exchange(first)), Exchange(second)).warned == Next(s, Exchange(first)).warned
  {
    var after := Next(s, Exchange(first));
    RunsAreValid(START, steps, s);
    StepKeeps(s, Exchange(first));
    StampsDiffer(after.stamps, |s.stamps| - 1, |s.stamps|);
  }

  /** A load goes on to the exchange exactly when it saw no stamp yet, or one at least
      thirty seconds old; else its call has returned and nothing changed. */
  lemma LoadsIff(s: State, thread: nat, now: nat, seen: nat)
    requires Enabled(s, Load(thread, now, seen))
    ensures
      var call, next := Call(thread, now, s.stamps[seen]), Next(s, Load(thread, now, seen));
      && next.stamps == s.stamps && next.warned == s.warned
      && next.calls == if call.last == 0 || now >= call.last + 30 then s.calls + {call} else s.calls
  {
  }

  /** After its exchange a call is over; one that warned left its reading as the stamp,
      with 1 for 0, which would mean that there is none. */
  lemma ExchangeEnds(s: State, call: Call)
    requires Enabled(s, Exchange(call))
    ensures
      var next := Next(s, Exchange(call));
      && next.calls == s.calls - {call}
      && (next.warned != s.warned ==> next.stamps == s.stamps + [if call.now == 0 then 1 else call.now])
      && (next.warned == s.warned ==> next.stamps == s.stamps)
  {
    var next := Next(s, Exchange(call));
    assert next.stamps != s.stamps ==> |next.warned| == |s.warned| + 1;
  }

  // ------------------------------------------------------------- one thread

  class WarnLimiter {
    var lastWarnSecs: nat

    constructor ()
      ensures lastWarnSecs == 0
    {
      lastWarnSecs := 0;
    }

    /** `should_warn` with no other thread between its load and its exchange. */
    method ShouldWarn(now: nat) returns (warn: bool)
      modifies this
      ensures warn <==> old(lastWarnSecs) == 0 || now >= old(lastWarnSecs) + 30
      ensures lastWarnSecs == if !warn then old(lastWarnSecs) else if now == 0 then 1 else now
    {
      var last := lastWarnSecs;
      if last != 0 && SaturatingSub(now, last) < WARN_INTERVAL_SECS {
        return false;
      }
      warn := lastWarnSecs == last;
      if warn {
        lastWarnSecs := Stamp(now);
      }
    }
  }
}
