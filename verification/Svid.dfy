/** The SVID rotation schedule (internal/agent/svid/manager.go) against the certificate lifetimes the
    authority issues (internal/control/ca/ca.go). Times are reals, in seconds. */
module Svid {
  import opened Wire

  datatype Entry = Entry(notBefore: real, expiresAt: real)

  /** Certificate lifetime, and how far back the authority dates it, in whole seconds. */
  datatype Config = Config(ttl: nat, skew: nat)

  const BACKOFF := 30.0

  predicate ValidConfig(c: Config) {
    c.ttl > 0
  }

  /** A certificate holds its dates in whole seconds: the fraction is cut off. */
  function Sign(c: Config, now: real): Entry {
    Entry((now - c.skew as real).Floor as real, (now + c.ttl as real).Floor as real)
  }

  /** Both dates lose the same fraction of a second. */
  lemma SignCuts(c: Config, now: real) returns (cut: real)
    ensures 0.0 <= cut < 1.0 && cut == now - now.Floor as real
    ensures Sign(c, now) == Entry(now - c.skew as real - cut, now + c.ttl as real - cut)
  {
    cut := now - now.Floor as real;
    assert (now - c.skew as real).Floor == now.Floor - c.skew;
    assert (now + c.ttl as real).Floor == now.Floor + c.ttl;
  }

  function Lifetime(c: Config): real {
    (c.ttl + c.skew) as real
  }

  /** The bound on one issuance that leaves no gap: what eight of them take fits in the lifetime less the
      skew, with a second to spare for each of the two dates. */
  predicate FastEnough(c: Config, bound: real) {
    8.0 * bound <= (c.ttl - c.skew - 2) as real
  }

  /** Two thirds of what is left, never negative. */
  function NextRotateDelay(e: Entry, now: real): real {
    var remaining := e.expiresAt - now;
    if remaining <= 0.0 then 0.0 else remaining * 2.0 / 3.0
  }

  /** Less than a sixth of the whole lifetime left. */
  predicate NearExpiry(e: Entry, now: real) {
    var total := e.expiresAt - e.notBefore;
    total <= 0.0 || e.expiresAt - now < total / 6.0
  }

  /** One rotation attempt: when a forced rotation cut the wait short, how far into the attempt the
      certificate was signed, how long the attempt took, and whether it succeeded. */
  datatype Attempt = Attempt(forced: Option<real>, signing: real, duration: real, ok: bool)

  /** The manager between attempts: the clock, and the entry in the store. */
  datatype Machine = Machine(now: real, entry: Entry)

  function Wait(m: Machine, a: Attempt): real {
    if a.forced.Some? then a.forced.value else NextRotateDelay(m.entry, m.now)
  }

  function First(c: Config, start: real, a: Attempt): Machine {
    Machine(start + a.duration, Sign(c, start + a.signing))
  }

  function Next(c: Config, m: Machine, a: Attempt): Machine {
    var start := m.now + Wait(m, a);
    if a.ok then First(c, start, a) else Machine(start + a.duration + BACKOFF, m.entry)
  }

  /** The machines a script of attempts goes through. */
  predicate IsRun(c: Config, start: real, first: Attempt, script: seq<Attempt>, ms: seq<Machine>) {
    && |ms| == |script| + 1
    && ms[0] == First(c, start, first)
    && forall i :: 0 <= i < |script| ==> ms[i + 1] == Next(c, ms[i], script[i])
  }

  class SVIDManager {
    const config: Config
    var now: real
    var store: Option<Entry>

    constructor (c: Config, t: real)
      ensures config == c && now == t && store == None
    {
      config, now, store := c, t, None;
    }

    method Issue(a: Attempt) returns (e: Option<Entry>)
      modifies this`now
      ensures now == old(now) + a.duration
      ensures e == if a.ok then Some(Sign(config, old(now) + a.signing)) else None
    {
      e := if a.ok then Some(Sign(config, now + a.signing)) else None;
      now := now + a.duration;
    }

    /** Issues the first entry, then rotates once per attempt of the script. The log holds the clock and
        the store after each attempt. */
    method Start(first: Attempt, script: seq<Attempt>) returns (log: seq<Machine>)
      modifies this
      ensures !first.ok ==> log == [] && store == old(store)
      ensures first.ok ==> IsRun(config, old(now), first, script, log)
      ensures first.ok ==> now == log[|script|].now && store == Some(log[|script|].entry)
    {
      log := [];
      var issued := Issue(first);
      if issued.None? {
        return;
      }
      var entry := issued.value;
      store := Some(entry);
      log := [Machine(now, entry)];
      for i := 0 to |script|
        invariant |log| == i + 1 && log[0] == First(config, old(now), first)
        invariant forall j :: 0 <= j < i ==> log[j + 1] == Next(config, log[j], script[j])
        invariant log[i] == Machine(now, entry) && store == Some(entry)
      {
        var delay := NextRotateDelay(entry, now);
        now := now + if script[i].forced.Some? then script[i].forced.value else delay;
        var next := Issue(script[i]);
        if next.None? {
          now := now + BACKOFF;
        } else {
          store := next;
          entry := next.value;
        }
        log := log + [Machine(now, entry)];
      }
    }

    /** Fails closed when nothing is issued yet or the current entry is near its end. */
    method GetSVID() returns (e: Option<Entry>)
      ensures e.Some? <==> store.Some? && !NearExpiry(store.value, now)
      ensures e.Some? ==> e == store
    {
      if store.None? || NearExpiry(store.value, now) {
        return None;
      }
      e := store;
    }
  }

  /** An attempt that succeeds within a bound, its wait no longer than the schedule's. */
  predicate Timely(bound: real, m: Machine, a: Attempt) {
    && a.ok && 0.0 <= a.signing <= a.duration <= bound
    && (a.forced.Some? ==> 0.0 <= a.forced.value <= NextRotateDelay(m.entry, m.now))
  }

  predicate TimelyRun(c: Config, bound: real, start: real, first: Attempt, script: seq<Attempt>, ms: seq<Machine>) {
    && IsRun(c, start, first, script, ms)
    && first.ok && 0.0 <= first.signing <= first.duration <= bound
    && forall i :: 0 <= i < |script| ==> Timely(bound, ms[i], script[i])
  }

  /** From each write of the store up to the next one, what it holds is served. */
  ghost predicate AlwaysServed(ms: seq<Machine>) {
    forall i, t :: 0 <= i < |ms| - 1 && ms[i].now <= t < ms[i + 1].now ==> !NearExpiry(ms[i].entry, t)
  }

  /** An entry is never older than the issuance bound, and a second, when it reaches the store. */
  predicate Recent(c: Config, bound: real, m: Machine) {
    && m.entry.expiresAt - m.entry.notBefore == Lifetime(c)
    && m.entry.expiresAt > m.now + c.ttl as real - 1.0 - bound
  }

  lemma FirstRecent(c: Config, bound: real, start: real, a: Attempt)
    requires 0.0 <= a.signing <= a.duration <= bound
    ensures Recent(c, bound, First(c, start, a))
  {
    var cut := SignCuts(c, start + a.signing);
  }

  lemma EntriesRecent(c: Config, bound: real, start: real, first: Attempt, script: seq<Attempt>, ms: seq<Machine>,
                      i: nat)
    requires TimelyRun(c, bound, start, first, script, ms) && i < |ms|
    ensures Recent(c, bound, ms[i])
  {
    if i == 0 {
      FirstRecent(c, bound, start, first);
    } else {
      var m, a := ms[i - 1], script[i - 1];
      assert Timely(bound, m, a);
      FirstRecent(c, bound, m.now + Wait(m, a), a);
    }
  }

  /** What is left of an entry just before its successor is stored. */
  lemma LeftAtRotation(c: Config, bound: real, m: Machine, a: Attempt)
    requires Recent(c, bound, m) && Timely(bound, m, a) && FastEnough(c, bound)
    ensures m.entry.expiresAt - Next(c, m, a).now >= Lifetime(c) / 6.0
  {
    hide Sign;
    var remaining := m.entry.expiresAt - m.now;
    assert remaining > c.ttl as real - 1.0 - bound > 0.0;
    assert Wait(m, a) <= remaining * 2.0 / 3.0;
    assert m.entry.expiresAt - Next(c, m, a).now >= remaining / 3.0 - bound;
  }

  lemma TimelyRunServed(c: Config, bound: real, start: real, first: Attempt, script: seq<Attempt>, ms: seq<Machine>)
    requires TimelyRun(c, bound, start, first, script, ms) && FastEnough(c, bound) && ValidConfig(c)
    ensures AlwaysServed(ms)
  {
    hide Sign;
    forall i, t | 0 <= i < |ms| - 1 && ms[i].now <= t < ms[i + 1].now ensures !NearExpiry(ms[i].entry, t) {
      EntriesRecent(c, bound, start, first, script, ms, i);
      assert Timely(bound, ms[i], script[i]);
      LeftAtRotation(c, bound, ms[i], script[i]);
    }
  }

  /** A fraction of a second that, cut off both dates, makes the bound too slow. */
  lemma SlowFraction(c: Config, bound: real) returns (cut: real)
    requires !FastEnough(c, bound)
    ensures 0.0 <= cut < 1.0 && 8.0 * bound > (c.ttl - c.skew) as real - 2.0 * cut
  {
    var needed := ((c.ttl - c.skew) as real - 8.0 * bound) / 2.0;
    assert needed < 1.0;
    cut := if needed < 0.0 then 0.0 else (needed + 1.0) / 2.0;
  }

  /** The slowest run: signed at once, as late in a second as it takes, delivered at the bound, rotated only
      by the timer. */
  lemma SlowRunRefused(c: Config, bound: real) returns (start: real, a: Attempt, ms: seq<Machine>)
    requires ValidConfig(c) && bound >= 0.0 && !FastEnough(c, bound)
    ensures TimelyRun(c, bound, start, a, [a], ms) && !AlwaysServed(ms)
  {
    start := SlowFraction(c, bound);
    a := Attempt(None, 0.0, bound, true);
    var cut := SignCuts(c, start);
    assert start.Floor == 0 && cut == start && start + a.signing == start;
    var m := First(c, start, a);
    hide Sign;
    var n := Next(c, m, a);
    ms := [m, n];
    assert m.entry.expiresAt == c.ttl as real && m.entry.expiresAt - m.entry.notBefore == Lifetime(c);
    var limit := m.entry.expiresAt - Lifetime(c) / 6.0;
    assert n.now > limit && n.now > m.now;
    var middle := (limit + n.now) / 2.0;
    var t := if middle >= m.now then middle else m.now;
    assert ms[0].now <= t < ms[0 + 1].now && NearExpiry(ms[0].entry, t);
  }

  /** No near-expiry gap, exactly: over every run of scheduled and forced rotations that each succeed
      within a bound, the current entry is always served after the first issuance if and only if eight
      times the bound fits in the lifetime less the clock skew and two seconds. */
  lemma ServedExactlyWhen(c: Config, bound: real)
    requires ValidConfig(c) && bound >= 0.0
    ensures (forall start, first, script, ms :: TimelyRun(c, bound, start, first, script, ms) ==> AlwaysServed(ms))
            <==> FastEnough(c, bound)
  {
    if FastEnough(c, bound) {
      forall start, first, script, ms | TimelyRun(c, bound, start, first, script, ms) ensures AlwaysServed(ms) {
        TimelyRunServed(c, bound, start, first, script, ms);
      }
    } else {
      var start, a, ms := SlowRunRefused(c, bound);
    }
  }
}
