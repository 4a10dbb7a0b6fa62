/** The bounded flow aggregator (internal/agent/telemetry/aggregate.go): a map and a recency list that
    must agree with a specification written on the event history alone. */
module Telemetry {
  import opened Wire
  import opened Compiler

  const VERDICT_ALLOW: U8 := 0
  const VERDICT_DENY: U8 := 1
  const DEFAULT_CAPACITY := 1024

  datatype Pair = Pair(src: U32, dst: U32)

  datatype Event = Event(src: U32, dst: U32, verdict: U8, bytes: U32)

  datatype Counters = Counters(allow: nat, deny: nat, bytes: nat) {
    function Plus(other: Counters): Counters {
      Counters(allow + other.allow, deny + other.deny, bytes + other.bytes)
    }
  }

  const ZERO := Counters(0, 0, 0)

  datatype Aggregate = Aggregate(src: U32, dst: U32, counters: Counters)

  function PairOf(e: Event): Pair {
    Pair(e.src, e.dst)
  }

  function Without(s: seq<Pair>, p: Pair): seq<Pair> {
    if s == [] then [] else (if s[0] == p then [] else [s[0]]) + Without(s[1..], p)
  }

  /** The distinct pairs of a history, most recently seen first. */
  function Recency(h: seq<Event>): seq<Pair> {
    if h == [] then []
    else var p := PairOf(h[|h| - 1]); [p] + Without(Recency(h[..|h| - 1]), p)
  }

  function Take(s: seq<Pair>, n: nat): seq<Pair> {
    if |s| <= n then s else s[..n]
  }

  /** What an aggregator of this capacity tracks after a history. */
  function Tracked(h: seq<Event>, cap: nat): seq<Pair> {
    Take(Recency(h), cap)
  }

  /** Where a pair last occurs in a history, -1 if it does not. */
  function LastIndex(h: seq<Event>, p: Pair): int {
    if h == [] then -1
    else if PairOf(h[|h| - 1]) == p then |h| - 1
    else LastIndex(h[..|h| - 1], p)
  }

  predicate NoRepeats<K(==)>(ks: seq<K>) {
    forall i, j :: 0 <= i < j < |ks| ==> ks[i] != ks[j]
  }

  lemma {:induction false} WithoutMembers(s: seq<Pair>, p: Pair)
    ensures forall x :: x in Without(s, p) <==> x in s && x != p
    ensures NoRepeats(s) ==> NoRepeats(Without(s, p))
    ensures p !in s ==> Without(s, p) == s
    ensures NoRepeats(s) && p in s ==> |Without(s, p)| == |s| - 1
  {
    if s != [] {
      assert s == [s[0]] + s[1..];
      WithoutMembers(s[1..], p);
      if NoRepeats(s) {
        assert NoRepeats(s[1..]);
        assert s[0] !in s[1..];
      }
    }
  }

  lemma {:induction false} WithoutAppend(a: seq<Pair>, b: seq<Pair>, p: Pair)
    ensures Without(a + b, p) == Without(a, p) + Without(b, p)
  {
    if a == [] {
      assert a + b == b;
    } else {
      assert (a + b)[1..] == a[1..] + b;
      WithoutAppend(a[1..], b, p);
    }
  }

  lemma {:induction false} RecencyDistinct(h: seq<Event>)
    ensures NoRepeats(Recency(h))
  {
    if h != [] {
      RecencyDistinct(h[..|h| - 1]);
      WithoutMembers(Recency(h[..|h| - 1]), PairOf(h[|h| - 1]));
    }
  }

  lemma {:induction false} LastIndexOccurs(h: seq<Event>, p: Pair)
    ensures -1 <= LastIndex(h, p) < |h|
    ensures LastIndex(h, p) >= 0 ==> PairOf(h[LastIndex(h, p)]) == p
    ensures forall i :: LastIndex(h, p) < i < |h| ==> PairOf(h[i]) != p
  {
    if h != [] && PairOf(h[|h| - 1]) != p {
      LastIndexOccurs(h[..|h| - 1], p);
    }
  }

  /** A list is the recency order of a history when it holds exactly the pairs that occur, by
      decreasing last occurrence. */
  ghost predicate OrderedByLastSeen(r: seq<Pair>, h: seq<Event>) {
    && (forall p :: p in r <==> LastIndex(h, p) >= 0)
    && (forall i, j :: 0 <= i < j < |r| ==> LastIndex(h, r[i]) > LastIndex(h, r[j]))
  }

  lemma {:induction false} WithoutKeepsOrder(s: seq<Pair>, p: Pair, h: seq<Event>)
    requires forall i, j :: 0 <= i < j < |s| ==> LastIndex(h, s[i]) > LastIndex(h, s[j])
    ensures var t := Without(s, p); forall i, j :: 0 <= i < j < |t| ==> LastIndex(h, t[i]) > LastIndex(h, t[j])
  {
    if s != [] {
      var rest := s[1..];
      assert forall i :: 0 <= i < |rest| ==> rest[i] == s[i + 1];
      WithoutKeepsOrder(rest, p, h);
      WithoutMembers(rest, p);
      var t := Without(rest, p);
      forall j | 0 <= j < |t| ensures LastIndex(h, s[0]) > LastIndex(h, t[j]) {
        assert t[j] in rest;
      }
    }
  }

  /** The recursive definition is the declarative one. */
  lemma {:induction false} RecencyIsOrder(h: seq<Event>)
    ensures OrderedByLastSeen(Recency(h), h)
  {
    if h != [] {
      var front, p := h[..|h| - 1], PairOf(h[|h| - 1]);
      RecencyIsOrder(front);
      var r := Recency(front);
      WithoutMembers(r, p);
      WithoutKeepsOrder(r, p, front);
      var t := Without(r, p);
      forall j | 0 <= j < |t| ensures LastIndex(h, t[j]) == LastIndex(front, t[j]) < |h| - 1 {
        assert t[j] in t && t[j] != p;
        LastIndexOccurs(front, t[j]);
      }
    }
  }

  /** One event on the list: a tracked pair moves to the front, a new one is put there, evicting the
      last when the list is full. */
  function Touch(l: seq<Pair>, p: Pair, cap: nat): seq<Pair> {
    if p in l then [p] + Without(l, p)
    else if |l| >= cap && l != [] then [p] + l[..|l| - 1]
    else [p] + l
  }

  lemma TakeExactly(x: seq<Pair>, y: seq<Pair>, cap: nat)
    requires |x| == cap || (|x| < cap && y == [])
    ensures Take(x + y, cap) == x
  {
    assert x + y == if y == [] then x else x + y;
    assert (x + y)[..|x|] == x;
  }

  lemma SplitDistinct(r: seq<Pair>, n: nat, p: Pair)
    requires n <= |r| && NoRepeats(r)
    ensures NoRepeats(r[..n])
    ensures p in r[..n] ==> p !in r[n..]
  {
  }

  /** Moving a pair to the front of a list and then cutting it is touching the cut list. */
  lemma TakeTouch(r: seq<Pair>, p: Pair, cap: nat)
    requires cap >= 1 && NoRepeats(r)
    ensures Take([p] + Without(r, p), cap) == Touch(Take(r, cap), p, cap)
  {
    hide Without, NoRepeats;
    var n := if |r| <= cap then |r| else cap;
    var a, b := r[..n], r[n..];
    assert r == a + b && Take(r, cap) == a;
    WithoutAppend(a, b, p);
    WithoutMembers(a, p);
    WithoutMembers(b, p);
    SplitDistinct(r, n, p);
    var wa, wb := Without(a, p), Without(b, p);
    if p in a {
      assert [p] + (wa + wb) == ([p] + wa) + b;
      TakeExactly([p] + wa, b, cap);
    } else if n == cap {
      assert [p] + (wa + wb) == ([p] + a[..n - 1]) + ([a[n - 1]] + wb);
      TakeExactly([p] + a[..n - 1], [a[n - 1]] + wb, cap);
    } else {
      assert wb == [];
      assert [p] + (wa + wb) == ([p] + a) + [];
      TakeExactly([p] + a, [], cap);
    }
  }

  /** Bounded tracking follows the unbounded recency order, cut to capacity. */
  lemma TrackStep(h: seq<Event>, e: Event, cap: nat)
    requires cap >= 1
    ensures Tracked(h + [e], cap) == Touch(Tracked(h, cap), PairOf(e), cap)
  {
    assert (h + [e])[..|h|] == h;
    RecencyDistinct(h);
    hide Without, Take, Touch;
    TakeTouch(Recency(h), PairOf(e), cap);
  }

  /** A larger capacity tracks everything a smaller one does, in the same order. */
  lemma LargerTracksMore(h: seq<Event>, cap: nat, more: nat)
    requires cap <= more
    ensures Tracked(h, cap) <= Tracked(h, more)
  {
  }

  /** What one event adds: a redirect counts its bytes only. */
  function WeightOf(e: Event): Counters {
    Counters(if e.verdict == VERDICT_ALLOW then 1 else 0, if e.verdict == VERDICT_DENY then 1 else 0, e.bytes)
  }

  /** The weight of the items that have a given key. */
  function SumFor<T, K(==)>(xs: seq<T>, key: T -> K, weight: T -> Counters, k: K): Counters {
    if xs == [] then ZERO
    else
      var rest := SumFor(xs[..|xs| - 1], key, weight, k);
      if key(xs[|xs| - 1]) == k then rest.Plus(weight(xs[|xs| - 1])) else rest
  }

  /** The weight of all items. */
  function SumAll<T>(xs: seq<T>, weight: T -> Counters): Counters {
    if xs == [] then ZERO else SumAll(xs[..|xs| - 1], weight).Plus(weight(xs[|xs| - 1]))
  }

  function Totals(h: seq<Event>, p: Pair): Aggregate {
    Aggregate(p.src, p.dst, SumFor(h, PairOf, WeightOf, p))
  }

  /** The event that brought a tracked pair in, for the last time. */
  function Since(h: seq<Event>, cap: nat, p: Pair): nat
    requires p in Tracked(h, cap)
  {
    var n := |h| - 1;
    if p !in Tracked(h[..n], cap) then n else Since(h[..n], cap, p)
  }

  lemma {:induction false} SinceBound(h: seq<Event>, cap: nat, p: Pair)
    requires p in Tracked(h, cap)
    ensures Since(h, cap, p) < |h|
  {
    var n := |h| - 1;
    if p in Tracked(h[..n], cap) { SinceBound(h[..n], cap, p); }
  }

  /** The counters a tracked pair should show. */
  function Expected(h: seq<Event>, cap: nat, p: Pair): Aggregate
    requires p in Tracked(h, cap)
  {
    SinceBound(h, cap, p);
    Totals(h[Since(h, cap, p)..], p)
  }

  function Bump(a: Aggregate, e: Event): Aggregate {
    a.(counters := a.counters.Plus(WeightOf(e)))
  }

  lemma TotalsAppend(h: seq<Event>, e: Event, p: Pair)
    ensures Totals(h + [e], p) == if PairOf(e) == p then Bump(Totals(h, p), e) else Totals(h, p)
  {
    assert (h + [e])[..|h|] == h;
  }

  /** How the expected counters move with one event. */
  lemma ExpectedStep(h: seq<Event>, e: Event, cap: nat, p: Pair)
    requires p in Tracked(h + [e], cap)
    ensures p in Tracked(h, cap) ==>
              Expected(h + [e], cap, p) == if PairOf(e) == p then Bump(Expected(h, cap, p), e) else Expected(h, cap, p)
    ensures p !in Tracked(h, cap) ==> PairOf(e) == p ==>
              Expected(h + [e], cap, p) == Bump(Aggregate(p.src, p.dst, ZERO), e)
  {
    var h' := h + [e];
    assert h'[..|h|] == h;
    if p in Tracked(h, cap) {
      var s := Since(h, cap, p);
      SinceBound(h, cap, p);
      assert Since(h', cap, p) == s;
      assert h'[s..] == h[s..] + [e];
      TotalsAppend(h[s..], e, p);
    } else {
      assert Since(h', cap, p) == |h|;
      assert h'[|h|..] == [] + [e];
      TotalsAppend([], e, p);
    }
  }

  lemma {:induction false} AbsentIsZero(h: seq<Event>, p: Pair)
    requires LastIndex(h, p) < 0
    ensures SumFor(h, PairOf, WeightOf, p) == ZERO
  {
    if h != [] { AbsentIsZero(h[..|h| - 1], p); }
  }

  /** While no more pairs have been seen than fit, no counter has ever been lost. */
  lemma {:induction false} NeverEvicted(h: seq<Event>, cap: nat, p: Pair)
    requires |Recency(h)| <= cap && p in Recency(h)
    ensures Expected(h, cap, p) == Totals(h, p)
  {
    var front, e := h[..|h| - 1], h[|h| - 1];
    assert h == front + [e];
    RecencyDistinct(front);
    WithoutMembers(Recency(front), PairOf(e));
    TotalsAppend(front, e, p);
    ExpectedStep(front, e, cap, p);
    if p in Recency(front) {
      NeverEvicted(front, cap, p);
    } else {
      RecencyIsOrder(front);
      AbsentIsZero(front, p);
    }
  }

  /** Where a history has events from src to dst with this verdict. */
  function Occurrences(h: seq<Event>, src: U32, dst: U32, verdict: U8): set<nat> {
    set i: nat | i < |h| && h[i].src == src && h[i].dst == dst && h[i].verdict == verdict
  }

  function BytesBetween(h: seq<Event>, src: U32, dst: U32): nat {
    if h == [] then 0
    else
      var e := h[|h| - 1];
      BytesBetween(h[..|h| - 1], src, dst) + if e.src == src && e.dst == dst then e.bytes else 0
  }

  lemma OccurrencesStep(h: seq<Event>, src: U32, dst: U32, verdict: U8)
    requires h != []
    ensures var n := |h| - 1;
            var here := h[n].src == src && h[n].dst == dst && h[n].verdict == verdict;
            |Occurrences(h, src, dst, verdict)| == |Occurrences(h[..n], src, dst, verdict)| + if here then 1 else 0
  {
    var n := |h| - 1;
    var front, all := Occurrences(h[..n], src, dst, verdict), Occurrences(h, src, dst, verdict);
    if h[n].src == src && h[n].dst == dst && h[n].verdict == verdict {
      assert all == front + {n};
    } else {
      assert all == front;
    }
  }

  /** Counting, event by event: verdict 0 raises the allow count of its pair, verdict 1 the deny count, no
      other verdict either, and every event its byte count. */
  lemma {:induction false} TotalsAreCounts(h: seq<Event>, src: U32, dst: U32)
    ensures Totals(h, Pair(src, dst)) ==
            Aggregate(src, dst, Counters(|Occurrences(h, src, dst, 0)|, |Occurrences(h, src, dst, 1)|,
                                         BytesBetween(h, src, dst)))
  {
    hide Occurrences;
    if h != [] {
      TotalsAreCounts(h[..|h| - 1], src, dst);
      OccurrencesStep(h, src, dst, 0);
      OccurrencesStep(h, src, dst, 1);
    } else {
      assert Occurrences(h, src, dst, 0) == {} && Occurrences(h, src, dst, 1) == {} by { NoneOccur(src, dst); }
    }
  }

  lemma NoneOccur(src: U32, dst: U32)
    ensures Occurrences([], src, dst, 0) == {} && Occurrences([], src, dst, 1) == {}
  {
  }

  lemma {:induction false} SetSize(s: seq<Pair>)
    requires NoRepeats(s)
    ensures |set p | p in s| == |s|
  {
    if s != [] {
      SetSize(s[1..]);
      assert (set p | p in s) == {s[0]} + (set p | p in s[1..]);
    }
  }

  lemma TouchMembers(l: seq<Pair>, p: Pair, cap: nat, q: Pair)
    requires NoRepeats(l)
    ensures q in Touch(l, p, cap) ==> q == p || q in l
    ensures p in Touch(l, p, cap)
    ensures p in l ==> (q in Touch(l, p, cap) <==> q in l)
  {
    WithoutMembers(l, p);
  }

  /** The order Snapshot sorts by. */
  predicate Before(a: Aggregate, b: Aggregate) {
    a.src < b.src || (a.src == b.src && a.dst < b.dst)
  }

  predicate Sorted(s: seq<Aggregate>) {
    forall i, j :: 0 <= i < j < |s| ==> Before(s[i], s[j])
  }

  function Insert(s: seq<Aggregate>, a: Aggregate): (r: seq<Aggregate>)
    requires Sorted(s) && forall x :: x in s ==> Before(x, a) || Before(a, x)
    ensures Sorted(r) && forall x :: x in r <==> x == a || x in s
  {
    if s == [] || Before(a, s[0]) then
      [a] + s
    else
      assert s == [s[0]] + s[1..] && s[0] in s;
      var t := Insert(s[1..], a);
      HeadStaysFirst(s, a, t);
      [s[0]] + t
  }

  lemma HeadStaysFirst(s: seq<Aggregate>, a: Aggregate, t: seq<Aggregate>)
    requires s != [] && Sorted(s) && Before(s[0], a)
    requires Sorted(t) && forall x :: x in t <==> x == a || x in s[1..]
    ensures Sorted([s[0]] + t)
  {
    forall i | 0 <= i < |t| ensures Before(s[0], t[i]) {
      assert t[i] in t;
    }
  }

  /** The aggregator's whole state is determined by the history: the pairs, their order and their
      counters. */
  ghost predicate Holds(entries: map<Pair, Aggregate>, lru: seq<Pair>, h: seq<Event>, cap: nat) {
    && cap >= 1
    && lru == Tracked(h, cap)
    && entries.Keys == (set p | p in lru)
    && forall p :: p in lru ==> entries[p] == Expected(h, cap, p)
  }

  /** What handling an event must do to the two structures for them to hold the longer history. */
  lemma HandleStep(entries: map<Pair, Aggregate>, lru: seq<Pair>, h: seq<Event>, cap: nat, e: Event,
                   entries': map<Pair, Aggregate>)
    requires Holds(entries, lru, h, cap)
    requires var l := Touch(lru, PairOf(e), cap);
             && entries'.Keys == (set p | p in l)
             && (forall p :: p in l && p in lru && p != PairOf(e) ==> entries'[p] == entries[p])
             && (PairOf(e) in l ==>
                   entries'[PairOf(e)] == Bump(if PairOf(e) in lru then entries[PairOf(e)]
                                               else Aggregate(e.src, e.dst, ZERO), e))
    ensures Holds(entries', Touch(lru, PairOf(e), cap), h + [e], cap)
  {
    hide Expected, Bump, Without, Touch, Tracked;
    var l, key := Touch(lru, PairOf(e), cap), PairOf(e);
    assert Tracked(h, cap) == lru;
    TrackStep(h, e, cap);
    TrackedDistinct(h, cap);
    forall p | p in l ensures entries'[p] == Expected(h + [e], cap, p) {
      TouchMembers(lru, key, cap, p);
      ExpectedStep(h, e, cap, p);
    }
  }

  lemma TrackedDistinct(h: seq<Event>, cap: nat)
    ensures NoRepeats(Tracked(h, cap))
  {
    RecencyDistinct(h);
  }

  lemma MoveKeeps(l: seq<Pair>, p: Pair)
    requires p in l
    ensures (set q | q in [p] + Without(l, p)) == (set q | q in l)
  {
    WithoutMembers(l, p);
  }

  class Aggregator {
    const capacity: nat
    var entries: map<Pair, Aggregate>
    // Most recently seen first.
    var lru: seq<Pair>
    // Every event handled so far, oldest first.
    ghost var history: seq<Event>

    ghost predicate Valid()
      reads this
    {
      Holds(entries, lru, history, capacity)
    }

    constructor (n: int)
      ensures Valid() && history == []
      ensures capacity == if n <= 0 then DEFAULT_CAPACITY else n
    {
      capacity := if n <= 0 then DEFAULT_CAPACITY else n;
      entries := map[];
      lru := [];
      history := [];
    }

    /** Drops the least recently seen pair. */
    method EvictOldest()
      requires entries.Keys == (set p | p in lru) && NoRepeats(lru)
      modifies this`entries, this`lru
      ensures lru == if old(lru) == [] then [] else old(lru)[..|old(lru)| - 1]
      ensures entries.Keys == (set p | p in lru)
      ensures forall p :: p in entries ==> p in old(entries) && entries[p] == old(entries)[p]
    {
      if lru != [] {
        var last := |lru| - 1;
        assert lru == lru[..last] + [lru[last]];
        assert lru[last] !in lru[..last];
        entries := entries - {lru[last]};
        lru := lru[..last];
      }
    }

    /** Makes a pair the most recent one, with zero counters if it was not tracked. */
    method Admit(key: Pair)
      requires entries.Keys == (set p | p in lru) && NoRepeats(lru)
      modifies this`entries, this`lru
      ensures lru == Touch(old(lru), key, capacity)
      ensures entries.Keys == (set p | p in lru)
      ensures key in entries
      ensures entries[key] == if key in old(entries) then old(entries)[key] else Aggregate(key.src, key.dst, ZERO)
      ensures forall p :: p in entries && p != key ==> p in old(entries) && entries[p] == old(entries)[p]
    {
      hide Without, NoRepeats;
      if key !in entries {
        SetSize(lru);
        if |entries| >= capacity {
          EvictOldest();
        }
        lru := [key] + lru;
        entries := entries[key := Aggregate(key.src, key.dst, ZERO)];
      } else {
        MoveKeeps(lru, key);
        lru := [key] + Without(lru, key);
      }
    }

    method Handle(event: Event)
      requires Valid()
      modifies this
      ensures Valid() && history == old(history) + [event]
    {
      hide Expected, Tracked, Touch, NoRepeats;
      ghost var l, m := lru, entries;
      var key := PairOf(event);
      TrackedDistinct(history, capacity);
      Admit(key);
      var value := entries[key].counters;
      if event.verdict == VERDICT_ALLOW {
        value := value.(allow := value.allow + 1);
      } else if event.verdict == VERDICT_DENY {
        value := value.(deny := value.deny + 1);
      }
      value := value.(bytes := value.bytes + event.bytes);
      entries := entries[key := entries[key].(counters := value)];
      HandleStep(m, l, history, capacity, event, entries);
      history := history + [event];
    }

    /** Every tracked pair once, in increasing order. */
    method Snapshot() returns (out: seq<Aggregate>)
      requires Valid()
      ensures Sorted(out)
      ensures forall a :: a in out <==> exists p :: p in lru && a == Expected(history, capacity, p)
    {
      out := [];
      var rest := entries.Keys;
      while rest != {}
        invariant rest <= entries.Keys
        invariant Sorted(out)
        invariant forall a :: a in out <==> exists p :: p in entries.Keys - rest && a == entries[p]
      {
        var p :| p in rest;
        out := Insert(out, entries[p]);
        rest := rest - {p};
      }
    }

    method Size() returns (n: nat)
      requires Valid()
      ensures n == |Tracked(history, capacity)| <= capacity
    {
      TrackedDistinct(history, capacity);
      SetSize(lru);
      n := |entries|;
    }
  }

  function SumKeys<T, K(==)>(ks: seq<K>, xs: seq<T>, key: T -> K, weight: T -> Counters): Counters {
    if ks == [] then ZERO else SumFor(xs, key, weight, ks[0]).Plus(SumKeys(ks[1..], xs, key, weight))
  }

  /** One more item adds its weight to the key it belongs to, counted once. */
  lemma {:induction false} SumKeysStep<T, K>(ks: seq<K>, xs: seq<T>, key: T -> K, weight: T -> Counters)
    requires xs != [] && NoRepeats(ks)
    ensures var front, x := xs[..|xs| - 1], xs[|xs| - 1];
            SumKeys(ks, xs, key, weight) ==
            if key(x) in ks then SumKeys(ks, front, key, weight).Plus(weight(x)) else SumKeys(ks, front, key, weight)
  {
    if ks != [] {
      assert ks == [ks[0]] + ks[1..];
      SumKeysStep(ks[1..], xs, key, weight);
    }
  }

  lemma {:induction false} SumKeysEmpty<T, K>(ks: seq<K>, xs: seq<T>, key: T -> K, weight: T -> Counters)
    requires |xs| == 0
    ensures SumKeys(ks, xs, key, weight) == ZERO
  {
    assert forall k :: SumFor(xs, key, weight, k) == ZERO;
    hide SumFor;
    if ks != [] { SumKeysEmpty(ks[1..], xs, key, weight); }
  }

  /** Grouping loses nothing: in any order of the groups, their sums add up to the sum of the items. */
  lemma {:induction false} GroupingConserves<T, K>(ks: seq<K>, xs: seq<T>, key: T -> K, weight: T -> Counters)
    requires NoRepeats(ks) && forall x :: x in xs ==> key(x) in ks
    ensures SumKeys(ks, xs, key, weight) == SumAll(xs, weight)
  {
    if xs == [] {
      SumKeysEmpty(ks, xs, key, weight);
    } else {
      GroupingConserves(ks, xs[..|xs| - 1], key, weight);
      SumKeysStep(ks, xs, key, weight);
    }
  }

  /** A label pair; several identity pairs may share one. */
  datatype Label = Label(src: string, dst: string)

  const UNKNOWN := "unknown"

  type Resolver = U32 -> Option<string>

  /** Unresolved and blank names are exported as one label, never empty. */
  function ResolveLabel(resolver: Resolver, id: U32): (l: string)
    ensures !Blank(l)
    ensures resolver(id).Some? && !Blank(resolver(id).value) ==> l == resolver(id).value
  {
    match resolver(id)
    case None => assert UNKNOWN[0] == 'u'; UNKNOWN
    case Some(name) => if Blank(name) then assert UNKNOWN[0] == 'u'; UNKNOWN else name
  }

  function Labeller(resolver: Resolver): Aggregate -> Label {
    (a: Aggregate) => Label(ResolveLabel(resolver, a.src), ResolveLabel(resolver, a.dst))
  }

  function CountersOf(a: Aggregate): Counters {
    a.counters
  }

  /** Each label pair once, with the sum of the aggregates that carry it. */
  ghost predicate IsMerge(merged: map<Label, Counters>, xs: seq<Aggregate>, name: Aggregate -> Label) {
    && (forall l :: l in merged <==> exists x :: x in xs && name(x) == l)
    && (forall l :: l in merged ==> merged[l] == SumFor(xs, name, CountersOf, l))
  }

  lemma {:induction false} UnusedLabel(xs: seq<Aggregate>, name: Aggregate -> Label, l: Label)
    requires forall x :: x in xs ==> name(x) != l
    ensures SumFor(xs, name, CountersOf, l) == ZERO
  {
    if xs != [] { UnusedLabel(xs[..|xs| - 1], name, l); }
  }

  lemma MergeStep(merged: map<Label, Counters>, xs: seq<Aggregate>, a: Aggregate, name: Aggregate -> Label)
    requires IsMerge(merged, xs, name)
    ensures var l := name(a);
            IsMerge(merged[l := (if l in merged then merged[l] else ZERO).Plus(a.counters)], xs + [a], name)
  {
    var l := name(a);
    assert (xs + [a])[..|xs|] == xs;
    if l !in merged { UnusedLabel(xs, name, l); }
  }

  /** The loop that merges before export. */
  method Collect(aggregates: seq<Aggregate>, resolver: Resolver) returns (merged: map<Label, Counters>)
    ensures IsMerge(merged, aggregates, Labeller(resolver))
  {
    merged := map[];
    for i := 0 to |aggregates|
      invariant IsMerge(merged, aggregates[..i], Labeller(resolver))
    {
      var aggregate := aggregates[i];
      var key := Label(ResolveLabel(resolver, aggregate.src), ResolveLabel(resolver, aggregate.dst));
      assert key == Labeller(resolver)(aggregate);
      assert aggregates[..i + 1] == aggregates[..i] + [aggregate];
      MergeStep(merged, aggregates[..i], aggregate, Labeller(resolver));
      var value := if key in merged then merged[key] else ZERO;
      merged := merged[key := value.Plus(aggregate.counters)];
    }
    assert aggregates[..|aggregates|] == aggregates;
  }

  function Exported(ls: seq<Label>, merged: map<Label, Counters>): Counters
    requires forall l :: l in ls ==> l in merged
  {
    if ls == [] then ZERO else merged[ls[0]].Plus(Exported(ls[1..], merged))
  }

  lemma {:induction false} ExportedIsSum(ls: seq<Label>, merged: map<Label, Counters>, xs: seq<Aggregate>,
                                         name: Aggregate -> Label)
    requires IsMerge(merged, xs, name) && forall l :: l in ls ==> l in merged
    ensures Exported(ls, merged) == SumKeys(ls, xs, name, CountersOf)
  {
    if ls != [] { ExportedIsSum(ls[1..], merged, xs, name); }
  }

  /** Whatever labels collapse, and in whatever order the metrics are emitted, the exported totals are
      the aggregates' totals. */
  lemma ExportConserves(ls: seq<Label>, merged: map<Label, Counters>, xs: seq<Aggregate>, name: Aggregate -> Label)
    requires IsMerge(merged, xs, name)
    requires NoRepeats(ls) && forall l :: l in ls <==> l in merged
    ensures Exported(ls, merged) == SumAll(xs, CountersOf)
  {
    ExportedIsSum(ls, merged, xs, name);
    assert forall x :: x in xs ==> name(x) in merged;
    GroupingConserves(ls, xs, name, CountersOf);
  }

  /** While no more pairs have been seen than fit, a snapshot accounts for every event handled, and so
      does what is exported from it. */
  lemma SnapshotConserves(h: seq<Event>, cap: nat, xs: seq<Aggregate>)
    requires |Recency(h)| <= cap && Sorted(xs)
    requires forall a :: a in xs <==> exists p :: p in Tracked(h, cap) && a == Expected(h, cap, p)
    ensures SumAll(xs, CountersOf) == SumAll(h, WeightOf)
  {
    var ks := seq(|xs|, i requires 0 <= i < |xs| => Pair(xs[i].src, xs[i].dst));
    assert NoRepeats(ks);
    forall e | e in h ensures PairOf(e) in ks {
      var i :| 0 <= i < |h| && h[i] == e;
      LastIndexOccurs(h, PairOf(e));
      RecencyIsOrder(h);
      var a := Expected(h, cap, PairOf(e));
      assert a in xs;
      var j :| 0 <= j < |xs| && xs[j] == a;
      assert ks[j] == PairOf(e);
    }
    GroupingConserves(ks, h, PairOf, WeightOf);
    forall i | 0 <= i < |xs| ensures xs[i].counters == SumFor(h, PairOf, WeightOf, ks[i]) {
      assert xs[i] in xs;
      var p :| p in Tracked(h, cap) && xs[i] == Expected(h, cap, p);
      NeverEvicted(h, cap, p);
    }
    PairwiseSums(ks, xs, h);
  }

  lemma {:induction false} PairwiseSums(ks: seq<Pair>, xs: seq<Aggregate>, h: seq<Event>)
    requires |ks| == |xs| && forall i :: 0 <= i < |xs| ==> xs[i].counters == SumFor(h, PairOf, WeightOf, ks[i])
    ensures SumKeys(ks, h, PairOf, WeightOf) == SumAll(xs, CountersOf)
  {
    if ks != [] {
      var n := |ks| - 1;
      PairwiseSums(ks[..n], xs[..n], h);
      SumKeysLast(ks, h);
    }
  }

  lemma {:induction false} SumKeysLast(ks: seq<Pair>, h: seq<Event>)
    requires ks != []
    ensures var n := |ks| - 1;
            SumKeys(ks, h, PairOf, WeightOf) ==
            SumKeys(ks[..n], h, PairOf, WeightOf).Plus(SumFor(h, PairOf, WeightOf, ks[n]))
  {
    if |ks| > 1 {
      SumKeysLast(ks[1..], h);
      assert ks[..|ks| - 1][1..] == ks[1..][..|ks| - 2];
    }
  }
}
