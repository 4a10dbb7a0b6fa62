/** The outbound proxy's circuit breaker (internal/proxy/circuit_breaker.go), specified on the history of
    calls made to it. Times are integers, in the clock's unit. */
module Breaker {

  datatype Phase = Closed | Open | HalfOpen

  datatype Config = Config(threshold: int, resetAfter: int)

  datatype State = State(phase: Phase, errors: nat, openedAt: int)

  datatype Call = Allow(now: int) | Success | Failure(now: int)

  const START := State(Closed, 0, 0)

  predicate Admits(c: Config, s: State, now: int) {
    s.phase == Closed || (s.phase == Open && now - s.openedAt >= c.resetAfter)
  }

  /** The calls that open the breaker, or open it again. */
  predicate Opens(c: Config, s: State, call: Call) {
    call.Failure? && (s.phase == HalfOpen || s.errors + 1 >= c.threshold)
  }

  function After(c: Config, s: State, call: Call): State {
    match call
    case Allow(now) => if s.phase == Open && Admits(c, s, now) then s.(phase := HalfOpen) else s
    case Success => s.(phase := Closed, errors := 0)
    case Failure(now) => if Opens(c, s, call) then State(Open, 0, now) else s.(errors := s.errors + 1)
  }

  class CircuitBreaker {
    var phase: Phase
    var consecutiveErrors: nat
    var openedAt: int
    const config: Config

    function Abs(): State
      reads this
    {
      State(phase, consecutiveErrors, openedAt)
    }

    constructor (threshold: int, resetAfter: int)
      ensures Abs() == START && config == Config(threshold, resetAfter)
    {
      phase, consecutiveErrors, openedAt := Closed, 0, 0;
      config := Config(threshold, resetAfter);
    }

    method Allow(now: int) returns (admitted: bool)
      modifies this
      ensures Abs() == After(config, old(Abs()), Call.Allow(now))
      ensures admitted == Admits(config, old(Abs()), now)
    {
      match phase {
        case Closed =>
          return true;
        case Open =>
          if now - openedAt >= config.resetAfter {
            phase := HalfOpen;
            return true;
          }
          return false;
        case HalfOpen =>
          return false;
      }
    }

    method RecordSuccess()
      modifies this
      ensures Abs() == After(config, old(Abs()), Success)
    {
      consecutiveErrors := 0;
      phase := Closed;
    }

    method RecordFailure(now: int)
      modifies this
      ensures Abs() == After(config, old(Abs()), Failure(now))
    {
      consecutiveErrors := consecutiveErrors + 1;
      if phase == HalfOpen || consecutiveErrors >= config.threshold {
        phase := Open;
        openedAt := now;
        consecutiveErrors := 0;
      }
    }
  }

  /** A history: the breaker's states between calls. */
  predicate IsHistory(c: Config, ss: seq<State>, calls: seq<Call>) {
    && |ss| == |calls| + 1
    && ss[0] == START
    && forall i :: 0 <= i < |calls| ==> ss[i + 1] == After(c, ss[i], calls[i])
  }

  /** Failures recorded since the last success, or since the start. */
  function FailuresSince(calls: seq<Call>): nat {
    if calls == [] then 0
    else match calls[|calls| - 1]
         case Allow(_) => FailuresSince(calls[..|calls| - 1])
         case Success => 0
         case Failure(_) => FailuresSince(calls[..|calls| - 1]) + 1
  }

  predicate Trips(c: Config, failures: nat) {
    failures >= 1 && failures >= c.threshold
  }

  /** The breaker is closed exactly while the failures since the last success are short of the
      threshold; so it leaves Closed on the threshold-th one, whatever else is called in between. */
  lemma {:induction false} ClosedExactlyWhen(c: Config, ss: seq<State>, calls: seq<Call>, i: nat)
    requires IsHistory(c, ss, calls) && i < |ss|
    ensures ss[i].phase == Closed <==> !Trips(c, FailuresSince(calls[..i]))
    ensures ss[i].phase == Closed ==> ss[i].errors == FailuresSince(calls[..i])
  {
    if i > 0 {
      ClosedExactlyWhen(c, ss, calls, i - 1);
      assert calls[..i][..i - 1] == calls[..i - 1];
    }
  }

  /** The call that last opened the breaker with no success since; -1 if there is none. */
  function LastOpening(c: Config, ss: seq<State>, calls: seq<Call>, i: nat): int
    requires IsHistory(c, ss, calls) && i < |ss|
  {
    if i == 0 || calls[i - 1].Success? then -1
    else if Opens(c, ss[i - 1], calls[i - 1]) then i - 1
    else LastOpening(c, ss, calls, i - 1)
  }

  predicate Admitted(c: Config, ss: seq<State>, calls: seq<Call>, i: nat)
    requires IsHistory(c, ss, calls) && i < |calls|
  {
    calls[i].Allow? && Admits(c, ss[i], calls[i].now)
  }

  /** Some call has been let through since the given one. */
  predicate Probed(c: Config, ss: seq<State>, calls: seq<Call>, j: int, i: nat)
    requires IsHistory(c, ss, calls) && i < |ss|
  {
    exists m: nat :: j < m < i && Admitted(c, ss, calls, m)
  }

  lemma {:induction false} OpeningShape(c: Config, ss: seq<State>, calls: seq<Call>, i: nat)
    requires IsHistory(c, ss, calls) && i < |ss|
    ensures var j := LastOpening(c, ss, calls, i);
            && -1 <= j < i
            && (j >= 0 <==> ss[i].phase != Closed)
            && (j >= 0 ==> calls[j].Failure? && ss[i].openedAt == calls[j].now)
            && (j >= 0 ==> (ss[i].phase == HalfOpen <==> Probed(c, ss, calls, j, i)))
  {
    if i > 0 {
      OpeningShape(c, ss, calls, i - 1);
      var j, p := LastOpening(c, ss, calls, i), LastOpening(c, ss, calls, i - 1);
      if j >= 0 && j < i - 1 {
        assert j == p;
        assert Probed(c, ss, calls, j, i) <==> Probed(c, ss, calls, j, i - 1) || Admitted(c, ss, calls, i - 1);
      }
    }
  }

  /** Exactly which calls are admitted: those made while closed, and the first one made once the reset
      time has passed since the latest opening. */
  lemma AdmittedExactlyWhen(c: Config, ss: seq<State>, calls: seq<Call>, i: nat)
    requires IsHistory(c, ss, calls) && i < |calls| && calls[i].Allow?
    ensures var j := LastOpening(c, ss, calls, i);
            && (j >= 0 <==> Trips(c, FailuresSince(calls[..i])))
            && j < i
            && (j >= 0 ==> calls[j].Failure?)
            && (Admitted(c, ss, calls, i) <==>
                j < 0 || (calls[i].now - calls[j].now >= c.resetAfter && !Probed(c, ss, calls, j, i)))
  {
    OpeningShape(c, ss, calls, i);
    ClosedExactlyWhen(c, ss, calls, i);
  }

  lemma {:induction false} OpeningStays(c: Config, ss: seq<State>, calls: seq<Call>, m: nat, i: nat)
    requires IsHistory(c, ss, calls) && m <= i < |ss| && LastOpening(c, ss, calls, i) < m
    requires LastOpening(c, ss, calls, i) >= 0
    ensures LastOpening(c, ss, calls, m) == LastOpening(c, ss, calls, i)
  {
    if m < i { OpeningStays(c, ss, calls, m, i - 1); }
  }

  /** On the calls alone: a call has been let through since the latest opening exactly when one was made at
      least the reset time after it. */
  lemma ProbedExactlyWhen(c: Config, ss: seq<State>, calls: seq<Call>, i: nat)
    requires IsHistory(c, ss, calls) && i < |ss| && LastOpening(c, ss, calls, i) >= 0
    ensures var j := LastOpening(c, ss, calls, i);
            && 0 <= j < i && calls[j].Failure?
            && (Probed(c, ss, calls, j, i) <==>
                exists m :: j < m < i && calls[m].Allow? && calls[m].now - calls[j].now >= c.resetAfter)
  {
    OpeningShape(c, ss, calls, i);
    var j := LastOpening(c, ss, calls, i);
    forall m: nat | j < m < i && calls[m].Allow?
      ensures Admitted(c, ss, calls, m) ==> calls[m].now - calls[j].now >= c.resetAfter
      ensures calls[m].now - calls[j].now >= c.resetAfter ==> Probed(c, ss, calls, j, i)
    {
      OpeningStays(c, ss, calls, m, i);
      AdmittedExactlyWhen(c, ss, calls, m);
    }
  }

  lemma FailuresAppend(calls: seq<Call>, call: Call)
    ensures FailuresSince(calls + [call]) ==
            if call.Success? then 0 else FailuresSince(calls) + if call.Failure? then 1 else 0
  {
    assert (calls + [call])[..|calls|] == calls;
  }

  /** The calls whose failures the breaker counts: those since the latest opening, or all. */
  function Window(calls: seq<Call>, opening: int, i: nat): seq<Call>
    requires i <= |calls| && opening < i
  {
    if opening >= 0 then calls[opening + 1..i] else calls[..i]
  }

  lemma WindowGrows(calls: seq<Call>, opening: int, i: nat)
    requires i < |calls| && opening < i
    ensures Window(calls, opening, i + 1) == Window(calls, opening, i) + [calls[i]]
    ensures Window(calls, i, i + 1) == []
  {
  }

  /** Where the latest opening is after one more call. */
  function Moved(c: Config, s: State, call: Call, opening: int, i: nat): int {
    if call.Success? then -1 else if Opens(c, s, call) then i else opening
  }

  lemma ErrorsStep(c: Config, s: State, calls: seq<Call>, opening: int, i: nat)
    requires i < |calls| && -1 <= opening < i && s.errors == FailuresSince(Window(calls, opening, i))
    ensures var j := Moved(c, s, calls[i], opening, i);
            After(c, s, calls[i]).errors == FailuresSince(Window(calls, j, i + 1))
  {
    hide Window, FailuresSince;
    NoFailures();
    WindowGrows(calls, opening, i);
    WindowGrows(calls, -1, i);
    FailuresAppend(Window(calls, opening, i), calls[i]);
    FailuresAppend(Window(calls, -1, i), calls[i]);
  }

  lemma OpeningMoves(c: Config, ss: seq<State>, calls: seq<Call>, i: nat)
    requires IsHistory(c, ss, calls) && i < |calls|
    ensures LastOpening(c, ss, calls, i + 1) == Moved(c, ss[i], calls[i], LastOpening(c, ss, calls, i), i)
    ensures ss[i + 1] == After(c, ss[i], calls[i])
  {
  }

  /** The breaker counts the failures since the latest opening, or, closed, since the last success. */
  lemma {:induction false} ErrorsCounted(c: Config, ss: seq<State>, calls: seq<Call>, i: nat)
    requires IsHistory(c, ss, calls) && i < |ss|
    ensures var j := LastOpening(c, ss, calls, i);
            -1 <= j < i && ss[i].errors == FailuresSince(Window(calls, j, i))
  {
    assert |ss| == |calls| + 1 && ss[0] == START;
    hide IsHistory, LastOpening, Window, FailuresSince, After, Opens;
    if i > 0 {
      ErrorsCounted(c, ss, calls, i - 1);
      OpeningMoves(c, ss, calls, i - 1);
      ErrorsStep(c, ss[i - 1], calls, LastOpening(c, ss, calls, i - 1), i - 1);
    } else {
      NoneOpen(c, ss, calls);
    }
  }

  lemma NoFailures()
    ensures FailuresSince([]) == 0
  {
  }

  lemma NoneOpen(c: Config, ss: seq<State>, calls: seq<Call>)
    requires IsHistory(c, ss, calls)
    ensures LastOpening(c, ss, calls, 0) == -1 && FailuresSince(Window(calls, -1, 0)) == 0
  {
    hide FailuresSince;
    NoFailures();
    assert Window(calls, -1, 0) == [];
  }

  /** Exactly which calls open the breaker, on the calls alone: a failure, when a call was made at least the
      reset time after the latest opening, or when it is the threshold-th failure since that opening or, if
      there is none, since the last success. A success ends the latest opening, any other call keeps it. */
  lemma OpensExactlyWhen(c: Config, ss: seq<State>, calls: seq<Call>, i: nat)
    requires IsHistory(c, ss, calls) && i < |calls|
    ensures var j := LastOpening(c, ss, calls, i);
            && -1 <= j < i && (j >= 0 ==> calls[j].Failure?)
            && var failures := FailuresSince(if j >= 0 then calls[j + 1..i] else calls[..i]);
               var opens := && calls[i].Failure?
                 && (|| failures + 1 >= c.threshold
                     || (j >= 0 && exists m :: && j < m < i && calls[m].Allow?
                                               && calls[m].now - calls[j].now >= c.resetAfter));
               LastOpening(c, ss, calls, i + 1) == if opens then i else if calls[i].Success? then -1 else j
  {
    OpeningShape(c, ss, calls, i);
    ErrorsCounted(c, ss, calls, i);
    if LastOpening(c, ss, calls, i) >= 0 { ProbedExactlyWhen(c, ss, calls, i); }
  }

  function Time(call: Call): int
    requires !call.Success?
  {
    call.now
  }

  /** The clock never runs backwards. */
  predicate Monotone(calls: seq<Call>) {
    forall i, j :: 0 <= i < j < |calls| && !calls[i].Success? && !calls[j].Success? ==> Time(calls[i]) <= Time(calls[j])
  }

  lemma {:induction false} LatestIsLater(c: Config, ss: seq<State>, calls: seq<Call>, o: nat, i: nat)
    requires IsHistory(c, ss, calls) && o < i < |ss| && Opens(c, ss[o], calls[o])
    requires forall m :: o < m < i ==> !calls[m].Success?
    ensures LastOpening(c, ss, calls, i) >= o
  {
    if i > o + 1 { LatestIsLater(c, ss, calls, o, i - 1); }
  }

  /** Once open, nothing is admitted until the reset time has passed, unless a success is recorded. */
  lemma NothingBeforeReset(c: Config, ss: seq<State>, calls: seq<Call>, o: nat, i: nat)
    requires IsHistory(c, ss, calls) && Monotone(calls)
    requires o < i < |calls| && Opens(c, ss[o], calls[o]) && calls[i].Allow?
    requires forall m :: o < m < i ==> !calls[m].Success?
    requires calls[i].now < calls[o].now + c.resetAfter
    ensures !Admitted(c, ss, calls, i)
  {
    LatestIsLater(c, ss, calls, o, i);
    AdmittedExactlyWhen(c, ss, calls, i);
    var j := LastOpening(c, ss, calls, i);
    assert j > o ==> Time(calls[o]) <= Time(calls[j]);
  }

  lemma {:induction false} StaysHalfOpen(c: Config, ss: seq<State>, calls: seq<Call>, i: nat, k: nat)
    requires IsHistory(c, ss, calls) && i < k < |ss| && ss[i + 1].phase == HalfOpen
    requires forall m :: i < m < k ==> calls[m].Allow?
    ensures ss[k].phase == HalfOpen
  {
    if k > i + 1 { StaysHalfOpen(c, ss, calls, i, k - 1); }
  }

  /** A probe is alone: between the call admitted from Open and the next admitted call, whichever it
      is, a result has been recorded. */
  lemma OneProbe(c: Config, ss: seq<State>, calls: seq<Call>, i: nat, k: nat)
    requires IsHistory(c, ss, calls) && i < k < |calls|
    requires ss[i].phase == Open && Admitted(c, ss, calls, i) && Admitted(c, ss, calls, k)
    ensures exists m :: i < m < k && !calls[m].Allow?
  {
    if forall m :: i < m < k ==> calls[m].Allow? {
      StaysHalfOpen(c, ss, calls, i, k);
    }
  }
}
