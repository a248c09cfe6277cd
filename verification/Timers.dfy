/**
  add_timer and the timer half of do_timer, kernel/sched.c.  Pending timers are a list in which each
  entry holds the ticks left after the entry before it has gone off.  A new timer is put in front and
  then changes places, contents only, with every timer that is due before it.

  add_timer takes the time of the timers before the new one off the new one, but not the new one's
  off the timer after it.  `late` is what that adds up to: a timer is late by the remaining ticks of
  every timer that was put in front of it.
 */
module Timers {
  import opened Common

  const SLOTS: nat := 64
  const NIL: nat := 64

  /** `delta` and `fn` are in memory; `due` is when the timer was asked to go off, by the clock. */
  datatype Timer = Timer(delta: int, fn: nat, due: int, late: int)

  /** Ticks until the first `n` timers have gone off. */
  function Sum(list: seq<Timer>, n: nat): int
    requires n <= |list|
  {
    if n == 0 then 0 else Sum(list, n - 1) + list[n - 1].delta
  }

  ghost predicate Positive(list: seq<Timer>) {
    forall i :: 0 <= i < |list| ==> list[i].delta > 0
  }

  /** Where a timer of `ticks` goes: behind every timer that goes off before it. */
  ghost predicate Place(list: seq<Timer>, ticks: int, k: nat) {
    k <= |list| && Sum(list, k) < ticks && (k < |list| ==> Sum(list, k + 1) >= ticks)
  }

  function Postponed(list: seq<Timer>, ticks: int): seq<Timer> {
    seq(|list|, i requires 0 <= i < |list| => list[i].(late := list[i].late + ticks))
  }

  /** The list with a new timer at `k`; those after it are put off by what is left of it there. */
  function Insert(list: seq<Timer>, k: nat, ticks: int, fn: nat, now: int): seq<Timer>
    requires k <= |list|
  {
    var rest := ticks - Sum(list, k);
    list[..k] + [Timer(rest, fn, now + ticks, 0)] + Postponed(list[k..], rest)
  }

  lemma {:induction false} SumPrefix(list: seq<Timer>, list': seq<Timer>, n: nat)
    requires n <= |list| && n <= |list'| && forall i :: 0 <= i < n ==> list'[i].delta == list[i].delta
    ensures Sum(list', n) == Sum(list, n)
  {
    if n > 0 { SumPrefix(list, list', n - 1); }
  }

  lemma {:induction false} SumShift(list: seq<Timer>, list': seq<Timer>, k: nat, n: nat)
    requires k <= n <= |list| && |list'| == |list| + 1 && forall i :: 0 <= i < k ==> list'[i].delta == list[i].delta
    requires forall i :: k <= i < |list| ==> list'[i + 1].delta == list[i].delta
    ensures Sum(list', n + 1) == Sum(list, n) + list'[k].delta
  {
    if n == k { SumPrefix(list, list', k); } else { SumShift(list, list', k, n - 1); }
  }

  /** The new timer goes off after `ticks`; earlier ones keep their time, later ones move by its residue. */
  lemma InsertSums(list: seq<Timer>, k: nat, ticks: int, fn: nat, now: int, i: nat)
    requires Place(list, ticks, k) && i <= |list|
    ensures var list' := Insert(list, k, ticks, fn, now);
      Sum(list', if i <= k then i else i + 1) == Sum(list, i) + (if i <= k then 0 else ticks - Sum(list, k))
    ensures Sum(Insert(list, k, ticks, fn, now), k + 1) == ticks
  {
    var list' := Insert(list, k, ticks, fn, now);
    SumPrefix(list, list', if i <= k then i else k);
    SumPrefix(list, list', k);
    if i > k { SumShift(list, list', k, i); }
  }

  lemma {:induction false} PlaceIsOne(list: seq<Timer>, ticks: int, j: nat, k: nat)
    requires Positive(list) && Place(list, ticks, j) && Place(list, ticks, k)
    ensures j == k
  {
    if j < k { SumGrows(list, j + 1, k); }
    if k < j { SumGrows(list, k + 1, j); }
  }

  /** The place that add_timer finds. */
  function PlaceOf(list: seq<Timer>, ticks: int): (k: nat)
    ensures k <= |list|
  {
    if list == [] || list[0].delta >= ticks then 0 else 1 + PlaceOf(list[1..], ticks - list[0].delta)
  }

  lemma {:induction false} PlaceIsThere(list: seq<Timer>, ticks: int)
    requires ticks > 0
    ensures Place(list, ticks, PlaceOf(list, ticks))
  {
    if list != [] {
      assert Sum(list, 1) == Sum(list, 0) + list[0].delta;
      if list[0].delta < ticks {
        var rest, k := list[1..], PlaceOf(list[1..], ticks - list[0].delta);
        PlaceIsThere(rest, ticks - list[0].delta);
        SumTail(list, k);
        if k < |rest| { SumTail(list, k + 1); }
      }
    }
  }

  lemma {:induction false} SumGrows(list: seq<Timer>, i: nat, j: nat)
    requires Positive(list) && i <= j <= |list|
    ensures Sum(list, i) <= Sum(list, j)
  {
    if i < j { SumGrows(list, i, j - 1); }
  }

  /** What is known of each pending timer: when it will go off, and that this is no sooner than asked for. */
  ghost predicate OnClock(list: seq<Timer>, now: int) {
    forall i :: 0 <= i < |list| ==> Clocked(list, now, i)
  }

  ghost predicate Clocked(list: seq<Timer>, now: int, i: nat) {
    i < |list| && list[i].late >= 0 && now + Sum(list, i + 1) == list[i].due + list[i].late
  }

  lemma InsertClocked(list: seq<Timer>, k: nat, ticks: int, fn: nat, now: int)
    requires Positive(list) && OnClock(list, now) && Place(list, ticks, k)
    ensures Positive(Insert(list, k, ticks, fn, now)) && OnClock(Insert(list, k, ticks, fn, now), now)
  {
    var list' := Insert(list, k, ticks, fn, now);
    forall i | 0 <= i < |list'|
      ensures Clocked(list', now, i)
    {
      if i < k {
        assert Clocked(list, now, i);
        InsertSums(list, k, ticks, fn, now, i + 1);
      } else if i == k {
        InsertSums(list, k, ticks, fn, now, k);
      } else {
        assert Clocked(list, now, i - 1);
        InsertSums(list, k, ticks, fn, now, i);
      }
    }
  }

  /** A pending timer is made later by exactly the requests for no more ticks than it has left. */
  lemma Delayed(list: seq<Timer>, k: nat, ticks: int, fn: nat, now: int, i: nat)
    requires Positive(list) && Place(list, ticks, k) && i < |list|
    ensures var list' := Insert(list, k, ticks, fn, now);
      if ticks <= Sum(list, i + 1) then
        list'[i + 1].(late := list[i].late) == list[i] && list'[i + 1].late > list[i].late
      else list'[i] == list[i]
  {
    if k <= i { SumGrows(list, k + 1, i + 1); } else { SumGrows(list, i + 1, k); }
  }

  /** Two timers of five ticks: the one set first goes off after ten. */
  lemma FirstIsLate(a: nat, b: nat)
    ensures var list := Insert([Timer(5, a, 5, 0)], 0, 5, b, 0);
      && Place([Timer(5, a, 5, 0)], 5, 0) && OnClock(list, 0)
      && list[1].fn == a && list[1].due == 5 && Sum(list, 2) == 10
  {
    var one := [Timer(5, a, 5, 0)];
    assert Sum(one, 0) == 0 && Sum(one, 1) == 5;
    var list := Insert(one, 0, 5, b, 0);
    assert list == [Timer(5, b, 5, 0), Timer(5, a, 5, 5)];
    assert Sum(list, 0) == 0;
    assert Sum(list, 1) == Sum(list, 0) + list[0].delta;
    assert Sum(list, 2) == Sum(list, 1) + list[1].delta;
  }

  // ---------------------------------------------------------------- the list in memory

  ghost predicate LinkAt(q: seq<nat>, next: seq<nat>, i: nat) {
    i < |q| && q[i] < |next| && next[q[i]] == if i + 1 < |q| then q[i + 1] else NIL
  }

  /** `q` are the slots of the list, in order; the other slots have no function and can be used. */
  ghost predicate Linked(q: seq<nat>, head: nat, next: seq<nat>, fn: seq<nat>) {
    && head == (if q == [] then NIL else q[0])
    && (forall i: nat :: i < |q| ==> LinkAt(q, next, i))
    && NoDups(q)
    && (forall x :: 0 <= x < |fn| ==> (fn[x] != 0 <==> x in q))
  }

  /** The slots hold the timers of `list`. */
  ghost predicate Spells(q: seq<nat>, jiffies: seq<int>, fn: seq<nat>, list: seq<Timer>) {
    |q| == |list| && forall i :: 0 <= i < |q| ==> Slot(q, jiffies, fn, list, i)
  }

  ghost predicate Slot(q: seq<nat>, jiffies: seq<int>, fn: seq<nat>, list: seq<Timer>, i: nat) {
    i < |q| && i < |list| && q[i] < |jiffies| && q[i] < |fn| && jiffies[q[i]] == list[i].delta && fn[q[i]] == list[i].fn
  }

  lemma LinkPush(q: seq<nat>, head: nat, next: seq<nat>, fn: seq<nat>, p: nat, f: nat)
    requires Linked(q, head, next, fn) && p < |next| == |fn| <= NIL && fn[p] == 0 && f != 0
    ensures Linked([p] + q, p, next[p := head], fn[p := f]) && p !in q
  {
    var q', next' := [p] + q, next[p := head];
    forall i: nat | i < |q'|
      ensures LinkAt(q', next', i)
    {
      if i > 0 { assert LinkAt(q, next, i - 1) && q'[i] == q[i - 1]; assert q'[i] in q; }
    }
  }

  lemma LinkPop(q: seq<nat>, head: nat, next: seq<nat>, fn: seq<nat>)
    requires Linked(q, head, next, fn) && q != [] && |next| == |fn|
    ensures head < |next| && Linked(q[1..], next[head], next, fn[head := 0])
  {
    assert LinkAt(q, next, 0);
    var rest := q[1..];
    forall i: nat | i < |rest|
      ensures LinkAt(rest, next, i)
    {
      assert LinkAt(q, next, i + 1);
    }
    assert q == [q[0]] + rest;
  }

  /** Every slot is taken exactly when the list has as many entries. */
  lemma {:induction false} Full(q: seq<nat>, n: nat)
    requires NoDups(q) && forall i :: 0 <= i < |q| ==> q[i] < n
    ensures |q| <= n && (|q| == n <==> forall x: nat :: x < n ==> x in q)
  {
    ElementCount(q);
    Below(n);
    assert Elements(q) <= Upto(n);
    SubsetSize(Elements(q), Upto(n));
    if |q| == n {
      SameSize(Elements(q), Upto(n));
      forall x: nat | x < n
        ensures x in q
      {
        assert x in Upto(n) && x in Elements(q);
      }
    }
    if forall x: nat :: x < n ==> x in q { assert Elements(q) == Upto(n); }
  }

  ghost function Upto(n: nat): set<nat> {
    if n == 0 then {} else Upto(n - 1) + {n - 1}
  }

  lemma {:induction false} Below(n: nat)
    ensures |Upto(n)| == n && forall x: nat :: x in Upto(n) <==> x < n
  {
    if n > 0 { Below(n - 1); }
  }

  datatype Outcome = Ignored | Called | Pending | Panic

  class TimerList {
    const jiffies: array<int>
    const fn: array<nat>
    const next: array<nat>
    var nextTimer: nat
    ghost var q: seq<nat>
    ghost var list: seq<Timer>
    ghost var now: int

    ghost predicate Valid()
      reads this, jiffies, fn, next
    {
      && jiffies.Length == fn.Length == next.Length == SLOTS && fn != next
      && Linked(q, nextTimer, next[..], fn[..]) && Spells(q, jiffies[..], fn[..], list)
      && Positive(list) && OnClock(list, now)
    }

    ghost function View(): Snap
      reads this
    {
      Snap(list, now)
    }

    constructor ()
      ensures Valid() && list == [] && now == 0 && fresh(jiffies) && fresh(fn) && fresh(next)
    {
      jiffies := new int[SLOTS];
      fn := new nat[SLOTS](_ => 0);
      next := new nat[SLOTS];
      nextTimer, q, list, now := NIL, [], [], 0;
    }

    /** add_timer; `Called` means that the function is called at once. */
    method AddTimer(ticks: int, f: nat) returns (r: Outcome)
      requires Valid()
      modifies this, jiffies, fn, next
      ensures r == Ignored <==> f == 0
      ensures r == Called <==> f != 0 && ticks <= 0
      ensures r == Panic <==> f != 0 && ticks > 0 && |old(list)| == SLOTS
      ensures r != Pending ==> Valid() && list == old(list) && now == old(now)
      ensures r == Pending ==>
        && Valid() && now == old(now)
        && exists k: nat :: Place(old(list), ticks, k) && list == Insert(old(list), k, ticks, f, now)
    {
      if f == 0 { return Ignored; }
      if ticks <= 0 { return Called; }
      var p := 0;
      while p < SLOTS && fn[p] != 0
        invariant p <= SLOTS && forall x :: 0 <= x < p ==> fn[x] != 0
      {
        p := p + 1;
      }
      SlotsTaken(q, nextTimer, next[..], fn[..], jiffies[..], list);
      if p >= SLOTS { return Panic; }
      LinkPush(q, nextTimer, next[..], fn[..], p, f);
      ghost var before := list;
      PushSunk(q, jiffies[..], fn[..], before, p, ticks, f);
      fn[p] := f;
      jiffies[p] := ticks;
      next[p] := nextTimer;
      nextTimer := p;
      q := [p] + q;
      ghost var k := Sink(p, ticks, f, before);
      InsertClocked(before, k, ticks, f, now);
      list := Insert(before, k, ticks, f, now);
      SunkSpells(q, jiffies[..], fn[..], before, k, ticks, f, now);
      return Pending;
    }

    /** The loop of add_timer, from the head of the list. */
    method Sink(p0: nat, ticks: int, f: nat, ghost before: seq<Timer>) returns (ghost k: nat)
      requires jiffies.Length == fn.Length == next.Length == SLOTS && fn != next && ticks > 0 && f != 0
      requires Linked(q, p0, next[..], fn[..]) && q != [] && q[0] == p0
      requires Sunk(q, jiffies[..], fn[..], before, 0, ticks, f)
      requires Positive(before)
      modifies jiffies, fn
      ensures Linked(q, p0, next[..], fn[..]) && Sunk(q, jiffies[..], fn[..], before, k, ticks, f)
      ensures Place(before, ticks, k)
    {
      hide Sunk, Linked, Insert;
      var p := p0;
      k := 0;
      SunkAt(q, jiffies[..], fn[..], next[..], p0, before, k, ticks, f);
      while next[p] != NIL && jiffies[next[p]] < jiffies[p]
        invariant k <= |before| && Linked(q, p0, next[..], fn[..]) && Sunk(q, jiffies[..], fn[..], before, k, ticks, f)
        invariant p == q[k] && p < SLOTS && Sum(before, k) < ticks && jiffies[p] == ticks - Sum(before, k)
        invariant next[p] == if k < |before| then q[k + 1] else NIL
        invariant k < |before| ==> next[p] < SLOTS && jiffies[next[p]] == before[k].delta
        decreases |before| - k
      {
        var n := next[p];
        SunkMore(q, jiffies[..], fn[..], next[..], p0, before, k, ticks, f);
        ghost var j0, f0 := jiffies[..], fn[..];
        jiffies[p] := jiffies[p] - jiffies[n];
        fn[p], fn[n] := fn[n], fn[p];
        jiffies[p], jiffies[n] := jiffies[n], jiffies[p];
        assert jiffies[..] == j0[p := j0[n]][n := j0[p] - j0[n]] && fn[..] == f0[p := f0[n]][n := f0[p]];
        p := n;
        k := k + 1;
        SunkAt(q, jiffies[..], fn[..], next[..], p0, before, k, ticks, f);
      }
    }

    /** The timer half of do_timer: at most one timer goes off on a tick, and never before its time. */
    method Tick() returns (fired: Option<nat>)
      requires Valid()
      modifies this, jiffies, fn
      ensures Valid() && now == old(now) + 1
      ensures fired.Some? <==> old(list) != [] && old(list)[0].delta == 1
      ensures fired.Some? ==>
        list == old(list)[1..] && fired.value == old(list)[0].fn && now == old(list)[0].due + old(list)[0].late
      ensures fired.Some? ==> now >= old(list)[0].due && (now == old(list)[0].due <==> old(list)[0].late == 0)
      ensures fired == None && old(list) != [] ==>
        list == old(list)[0 := old(list)[0].(delta := old(list)[0].delta - 1)]
      ensures fired == None && old(list) == [] ==> list == []
    {
      hide Linked, Spells, OnClock, Sum;
      HeadIs(q, nextTimer, next[..], fn[..], jiffies[..], list);
      if nextTimer == NIL {
        EmptyClock(now);
        now := now + 1;
        return None;
      }
      now := now + 1;
      fired := None;
      ghost var before := list;
      TickSpells(q, jiffies[..], fn[..], list);
      TickClock(list, now - 1);
      HeadClock(list, now - 1);
      jiffies[nextTimer] := jiffies[nextTimer] - 1;
      list := list[0 := list[0].(delta := list[0].delta - 1)];
      ghost var dec, q0 := list, q;
      assert dec[1..] == before[1..];
      while nextTimer != NIL && jiffies[nextTimer] <= 0
        invariant Linked(q, nextTimer, next[..], fn[..]) && Spells(q, jiffies[..], fn[..], list) && OnClock(list, now)
        invariant now == old(now) + 1 && (nextTimer == NIL || nextTimer < SLOTS)
        invariant if fired.Some?
          then list == dec[1..] && Positive(list) && fired.value == dec[0].fn && dec[0].delta == 0
          else list == dec && q == q0
        decreases |list|
      {
        HeadIs(q, nextTimer, next[..], fn[..], jiffies[..], list);
        LinkPop(q, nextTimer, next[..], fn[..]);
        PopSpells(q, jiffies[..], fn[..], list);
        PopClock(list, now);
        fired := Some(fn[nextTimer]);
        fn[nextTimer] := 0;
        nextTimer := next[nextTimer];
        list, q := list[1..], q[1..];
        HeadIs(q, nextTimer, next[..], fn[..], jiffies[..], list);
      }
      HeadIs(q, nextTimer, next[..], fn[..], jiffies[..], list);
    }
  }

  // ---------------------------------------------------------------- runs

  datatype Op = Add(ticks: int, fn: nat) | Clock

  /** What identifies a request: its function and when it was asked to go off. */
  ghost function Tags(list: seq<Timer>): seq<(nat, int)> {
    seq(|list|, i requires 0 <= i < |list| => (list[i].fn, list[i].due))
  }

  lemma InsertTags(list: seq<Timer>, k: nat, ticks: int, fn: nat, now: int)
    requires k <= |list|
    ensures multiset(Tags(Insert(list, k, ticks, fn, now))) == multiset(Tags(list)) + multiset{(fn, now + ticks)}
  {
    var a, b, x := Tags(list)[..k], Tags(list)[k..], (fn, now + ticks);
    assert Tags(list) == a + b;
    assert Tags(Insert(list, k, ticks, fn, now)) == a + [x] + b;
  }

  lemma SameTags(list: seq<Timer>, list': seq<Timer>)
    requires |list'| == |list|
    requires forall i :: 0 <= i < |list| ==> list'[i].fn == list[i].fn && list'[i].due == list[i].due
    ensures Tags(list') == Tags(list)
  {
  }

  lemma PopTags(list: seq<Timer>)
    requires list != []
    ensures multiset(Tags(list)) == multiset(Tags(list[1..])) + multiset{(list[0].fn, list[0].due)}
  {
    assert Tags(list) == [(list[0].fn, list[0].due)] + Tags(list[1..]);
  }

  /** The pending timers and the clock. */
  datatype Snap = Snap(list: seq<Timer>, now: int)

  ghost predicate Good(s: Snap) {
    Positive(s.list) && OnClock(s.list, s.now)
  }

  /** A timer whose function is called, when it was due, and when it is called. */
  datatype Firing = Firing(fn: nat, due: int, at: int)

  /** A request that has to wait. */
  predicate Waits(op: Op) {
    op.Add? && op.ticks > 0 && op.fn != 0
  }

  predicate Panics(s: Snap, op: Op) {
    Waits(op) && |s.list| == SLOTS
  }

  function After(s: Snap, op: Op): Snap {
    match op
    case Add(ticks, fn) =>
      if Waits(op) then s.(list := Insert(s.list, PlaceOf(s.list, ticks), ticks, fn, s.now)) else s
    case Clock =>
      if s.list == [] then s.(now := s.now + 1)
      else if s.list[0].delta == 1 then Snap(s.list[1..], s.now + 1)
      else Snap(s.list[0 := s.list[0].(delta := s.list[0].delta - 1)], s.now + 1)
  }

  /** The function called in a step: at once for no ticks, on a tick that takes the last one off the first timer. */
  function Fires(s: Snap, op: Op): Option<Firing> {
    match op
    case Add(ticks, fn) => if fn != 0 && ticks <= 0 then Some(Firing(fn, s.now + ticks, s.now)) else None
    case Clock =>
      if s.list != [] && s.list[0].delta == 1 then Some(Firing(s.list[0].fn, s.list[0].due, s.now + 1)) else None
  }

  function Replay(s: Snap, ops: seq<Op>): Snap {
    if ops == [] then s else After(Replay(s, ops[..|ops| - 1]), ops[|ops| - 1])
  }

  lemma NoReplay(s: Snap)
    ensures Replay(s, []) == s
  {
  }

  lemma ReplayNext(s: Snap, ops: seq<Op>, i: nat)
    requires i < |ops|
    ensures Replay(s, ops[..i + 1]) == After(Replay(s, ops[..i]), ops[i])
  {
    hide After;
    assert ops[..i + 1][..i] == ops[..i];
  }

  lemma {:induction false} ReplayAppend(s: Snap, a: seq<Op>, b: seq<Op>)
    ensures Replay(s, a + b) == Replay(Replay(s, a), b)
  {
    if b == [] {
      assert a + b == a;
    } else {
      ReplayAppend(s, a, b[..|b| - 1]);
      assert (a + b)[..|a + b| - 1] == a + b[..|b| - 1];
    }
  }

  /** Every step keeps the clock: each pending timer goes off when it is due plus what it is late. */
  lemma StaysGood(s: Snap, op: Op)
    requires Good(s)
    ensures Good(After(s, op))
    ensures Fires(s, op).Some? ==> Fires(s, op).value.at == After(s, op).now >= Fires(s, op).value.due
  {
    hide OnClock, Insert, Sum;
    match op
    case Add(ticks, fn) =>
      if Waits(op) {
        PlaceIsThere(s.list, ticks);
        InsertClocked(s.list, PlaceOf(s.list, ticks), ticks, fn, s.now);
      }
    case Clock =>
      if s.list == [] {
        EmptyClock(s.now);
      } else {
        HeadClock(s.list, s.now);
        TickClock(s.list, s.now);
        var dec := s.list[0 := s.list[0].(delta := s.list[0].delta - 1)];
        if s.list[0].delta == 1 {
          PopClock(dec, s.now + 1);
          assert dec[1..] == s.list[1..];
        }
      }
  }

  lemma {:induction false} RunGood(s: Snap, ops: seq<Op>)
    requires Good(s)
    ensures Good(Replay(s, ops)) && Replay(s, ops).now == s.now + Clocks(ops)
  {
    hide Good;
    if ops != [] {
      RunGood(s, ops[..|ops| - 1]);
      StaysGood(Replay(s, ops[..|ops| - 1]), ops[|ops| - 1]);
    }
  }

  /** The ticks of a run. */
  function Clocks(ops: seq<Op>): nat {
    if ops == [] then 0 else Clocks(ops[..|ops| - 1]) + if ops[|ops| - 1].Clock? then 1 else 0
  }

  // ---------------------------------------------------------------- no request is lost

  /** The requests of a run, each with the time it is due. */
  function Asked(ops: seq<Op>, now: int): multiset<(nat, int)> {
    if ops == [] then multiset{}
    else Asked(ops[..|ops| - 1], now) + Request(ops[|ops| - 1], now + Clocks(ops[..|ops| - 1]))
  }

  function Request(op: Op, now: int): multiset<(nat, int)> {
    if op.Add? && op.fn != 0 then multiset{(op.fn, now + op.ticks)} else multiset{}
  }

  /** The requests whose function has been called. */
  function Fired(s: Snap, ops: seq<Op>): multiset<(nat, int)> {
    if ops == [] then multiset{}
    else Fired(s, ops[..|ops| - 1]) + Tag(Fires(Replay(s, ops[..|ops| - 1]), ops[|ops| - 1]))
  }

  function Tag(f: Option<Firing>): multiset<(nat, int)> {
    if f.Some? then multiset{(f.value.fn, f.value.due)} else multiset{}
  }

  lemma Combine(asked: multiset<(nat, int)>, fired: multiset<(nat, int)>, tags: multiset<(nat, int)>,
                more: multiset<(nat, int)>, tags': multiset<(nat, int)>, new': multiset<(nat, int)>)
    requires asked == fired + tags && more + tags' == tags + new'
    ensures asked + new' == (fired + more) + tags'
  {
    assert asked + new' == fired + (tags + new') == fired + (more + tags');
  }

  lemma TickAccounts(s: Snap)
    ensures Tag(Fires(s, Clock)) + multiset(Tags(After(s, Clock).list)) == multiset(Tags(s.list))
  {
    hide Tags;
    if Fires(s, Clock).Some? {
      PopTags(s.list);
    } else if s.list != [] {
      SameTags(s.list, After(s, Clock).list);
    }
  }

  lemma StepAccounts(s: Snap, op: Op)
    ensures Tag(Fires(s, op)) + multiset(Tags(After(s, op).list)) == multiset(Tags(s.list)) + Request(op, s.now)
  {
    hide Tags, Insert, PlaceOf;
    if op.Clock? {
      TickAccounts(s);
    } else if Waits(op) {
      InsertTags(s.list, PlaceOf(s.list, op.ticks), op.ticks, op.fn, s.now);
    }
  }

  /** What was pending and what was asked for is what has been called and what is pending, each once. */
  lemma {:induction false} RunAccounts(s: Snap, ops: seq<Op>)
    requires Good(s)
    ensures multiset(Tags(s.list)) + Asked(ops, s.now) == Fired(s, ops) + multiset(Tags(Replay(s, ops).list))
  {
    hide Tags, Request, Tag, Fires, After, Good;
    if ops != [] {
      var done, op := ops[..|ops| - 1], ops[|ops| - 1];
      var mid := Replay(s, done);
      RunAccounts(s, done);
      RunGood(s, done);
      StepAccounts(mid, op);
      Combine(multiset(Tags(s.list)) + Asked(done, s.now), Fired(s, done), multiset(Tags(mid.list)),
              Tag(Fires(mid, op)), multiset(Tags(Replay(s, ops).list)), Request(op, mid.now));
    }
  }

  // ---------------------------------------------------------------- when a timer goes off

  /** Where the timer at `p` stands after a step; None when it has gone off. */
  function Follow(s: Snap, p: nat, op: Op): Option<nat>
    requires p < |s.list|
  {
    match op
    case Add(ticks, fn) => Some(if Waits(op) && ticks <= Sum(s.list, p + 1) then p + 1 else p)
    case Clock => if s.list[0].delta != 1 then Some(p) else if p == 0 then None else Some(p - 1)
  }

  /** What a step makes the timer at `p` later by: the rest of a request for no more ticks than it has left. */
  function Residue(s: Snap, p: nat, op: Op): int
    requires p < |s.list|
  {
    if Waits(op) && op.ticks <= Sum(s.list, p + 1) then op.ticks - Sum(s.list, PlaceOf(s.list, op.ticks)) else 0
  }

  /** The same over a run. */
  function Position(s: Snap, p: nat, ops: seq<Op>): Option<nat> {
    if ops == [] then Some(p)
    else
      var done := ops[..|ops| - 1];
      var q := Position(s, p, done);
      if q.Some? && q.value < |Replay(s, done).list| then Follow(Replay(s, done), q.value, ops[|ops| - 1]) else None
  }

  function Lateness(s: Snap, p: nat, ops: seq<Op>): int {
    if ops == [] then 0
    else
      var done := ops[..|ops| - 1];
      var q := Position(s, p, done);
      Lateness(s, p, done) +
      if q.Some? && q.value < |Replay(s, done).list| then Residue(Replay(s, done), q.value, ops[|ops| - 1]) else 0
  }

  lemma StepTracks(s: Snap, p: nat, op: Op)
    requires Good(s) && p < |s.list|
    ensures var q := Follow(s, p, op);
      && (q.Some? ==> q.value < |After(s, op).list| && Same(s.list[p], After(s, op).list[q.value], Residue(s, p, op)))
      && (q.None? <==> op.Clock? && p == 0 && Fires(s, op).Some?)
  {
    if Waits(op) {
      var k := PlaceOf(s.list, op.ticks);
      PlaceIsThere(s.list, op.ticks);
      if k <= p { SumGrows(s.list, k + 1, p + 1); } else { SumGrows(s.list, p + 1, k); }
    }
  }

  /** The same timer, later by `late`. */
  predicate Same(a: Timer, b: Timer, late: int) {
    b.fn == a.fn && b.due == a.due && b.late == a.late + late
  }

  lemma {:induction false} RunTracks(s: Snap, p: nat, ops: seq<Op>)
    requires Good(s) && p < |s.list|
    ensures var q := Position(s, p, ops);
      q.Some? ==> q.value < |Replay(s, ops).list| && Same(s.list[p], Replay(s, ops).list[q.value], Lateness(s, p, ops))
  {
    hide Good, Follow, Residue, After;
    if ops != [] {
      var done, op := ops[..|ops| - 1], ops[|ops| - 1];
      RunTracks(s, p, done);
      RunGood(s, done);
      var q := Position(s, p, done);
      if q.Some? { StepTracks(Replay(s, done), q.value, op); }
    }
  }

  /**
    A request that has to wait goes off when it is due plus the rests of the requests put in front of it
    by then: as long as it is pending that time is still to come, and when it is no longer pending, that
    was the time.
   */
  lemma GoesOff(s: Snap, op: Op, ops: seq<Op>, next: Op)
    requires Good(s) && Waits(op) && Position(After(s, op), PlaceOf(s.list, op.ticks), ops).Some?
    ensures var s1, p := After(s, op), PlaceOf(s.list, op.ticks);
      var due, late := s.now + op.ticks, Lateness(s1, p, ops);
      && Replay(s1, ops).now < due + late
      && (Position(s1, p, ops + [next]).None? ==>
            next.Clock? && Fires(Replay(s1, ops), next) == Some(Firing(op.fn, due, due + late)))
  {
    hide Good, After, PlaceOf, Position, Lateness, Replay, Fires;
    NewTimer(s, op);
    GoesOffAt(After(s, op), PlaceOf(s.list, op.ticks), ops, next);
  }

  lemma GoesOffAt(s: Snap, p: nat, ops: seq<Op>, next: Op)
    requires Good(s) && p < |s.list| && Position(s, p, ops).Some?
    ensures var at := s.list[p].due + s.list[p].late + Lateness(s, p, ops);
      && Replay(s, ops).now < at
      && (Position(s, p, ops + [next]).None? ==>
            next.Clock? && Fires(Replay(s, ops), next) == Some(Firing(s.list[p].fn, s.list[p].due, at)))
  {
    hide Good, Fires, After, Follow, Lateness, Replay;
    RunTracks(s, p, ops);
    RunGood(s, ops);
    var q, mid := Position(s, p, ops).value, Replay(s, ops);
    TimeLeft(mid, q);
    assert (ops + [next])[..|ops|] == ops;
    StepTracks(mid, q, next);
    if Follow(mid, q, next).None? { FirstFires(mid, next); }
  }

  lemma NewTimer(s: Snap, op: Op)
    requires Good(s) && Waits(op)
    ensures var s1, p := After(s, op), PlaceOf(s.list, op.ticks);
      && Good(s1) && p < |s1.list| && s1.now == s.now
      && s1.list[p].fn == op.fn && s1.list[p].due == s.now + op.ticks && s1.list[p].late == 0
  {
    StaysGood(s, op);
  }

  lemma TimeLeft(s: Snap, p: nat)
    requires Good(s) && p < |s.list|
    ensures s.now < s.list[p].due + s.list[p].late
  {
    assert Clocked(s.list, s.now, p);
    SumGrows(s.list, 1, p + 1);
    assert Sum(s.list, 1) == Sum(s.list, 0) + s.list[0].delta;
  }

  lemma FirstFires(s: Snap, op: Op)
    requires Good(s) && s.list != [] && op.Clock? && Fires(s, op).Some?
    ensures Fires(s, op).value == Firing(s.list[0].fn, s.list[0].due, s.list[0].due + s.list[0].late)
  {
    HeadClock(s.list, s.now);
  }

  // ---------------------------------------------------------------- the code

  /**
    Any run of requests and ticks: the list is what the requests and ticks make it, each function is
    called when that says, and the kernel panics exactly at a request that finds every slot taken.
   */
  method Run(t: TimerList, ops: seq<Op>) returns (panicked: bool, ghost log: seq<Option<Firing>>)
    requires t.Valid()
    modifies t, t.jiffies, t.fn, t.next
    ensures t.Valid() && |log| <= |ops| && (panicked <==> |log| < |ops|)
    ensures t.View() == Replay(old(t.View()), ops[..|log|])
    ensures forall i :: 0 <= i < |log| ==> log[i] == Fires(Replay(old(t.View()), ops[..i]), ops[i])
    ensures forall i :: 0 <= i < |log| ==> !Panics(Replay(old(t.View()), ops[..i]), ops[i])
    ensures panicked ==> Panics(t.View(), ops[|log|])
    ensures var s := old(t.View());
      multiset(Tags(s.list)) + Asked(ops[..|log|], s.now) == Fired(s, ops[..|log|]) + multiset(Tags(t.list))
  {
    hide After, Replay, Fires, Panics, Linked, Spells, OnClock, Positive, Tags, Asked, Fired;
    panicked, log := false, [];
    ghost var s := t.View();
    NoReplay(s);
    for i := 0 to |ops|
      invariant t.Valid() && |log| == i && t.View() == Replay(s, ops[..i])
      invariant forall k :: 0 <= k < i ==> log[k] == Fires(Replay(s, ops[..k]), ops[k])
      invariant forall k :: 0 <= k < i ==> !Panics(Replay(s, ops[..k]), ops[k])
    {
      ReplayNext(s, ops, i);
      ghost var f;
      panicked, f := Serve(t, ops[i]);
      if panicked {
        RunAccounts(s, ops[..i]);
        return;
      }
      log := log + [f];
    }
    RunAccounts(s, ops[..|ops|]);
  }

  /** One request or one tick. */
  method Serve(t: TimerList, op: Op) returns (panicked: bool, ghost f: Option<Firing>)
    requires t.Valid()
    modifies t, t.jiffies, t.fn, t.next
    ensures t.Valid() && (panicked <==> Panics(old(t.View()), op))
    ensures if panicked then t.View() == old(t.View()) else t.View() == After(old(t.View()), op)
    ensures !panicked ==> f == Fires(old(t.View()), op)
  {
    hide Insert, Place, OnClock, Linked, Spells;
    panicked, f := false, None;
    ghost var s := t.View();
    match op {
      case Add(ticks, fn) =>
        var r := t.AddTimer(ticks, fn);
        panicked := r == Panic;
        if r == Called { f := Some(Firing(fn, s.now + ticks, s.now)); }
        if r == Pending { AddedThere(s.list, t.list, ticks, fn, s.now); }
      case Clock =>
        var r := t.Tick();
        if r.Some? { f := Some(Firing(r.value, s.list[0].due, t.now)); }
    }
  }

  lemma AddedThere(list: seq<Timer>, list': seq<Timer>, ticks: int, fn: nat, now: int)
    requires Positive(list) && ticks > 0
    requires exists k: nat :: Place(list, ticks, k) && list' == Insert(list, k, ticks, fn, now)
    ensures list' == Insert(list, PlaceOf(list, ticks), ticks, fn, now)
  {
    var k: nat :| Place(list, ticks, k) && list' == Insert(list, k, ticks, fn, now);
    PlaceIsThere(list, ticks);
    PlaceIsOne(list, ticks, k, PlaceOf(list, ticks));
  }

  // ---------------------------------------------------------------- about the list in memory

  /** The new timer has sunk to position `k`. */
  ghost predicate Sunk(q: seq<nat>, jiffies: seq<int>, fn: seq<nat>, before: seq<Timer>, k: nat, ticks: int, f: nat) {
    k <= |before| && Spells(q, jiffies, fn, Insert(before, k, ticks, f, 0))
  }

  lemma SlotsTaken(q: seq<nat>, head: nat, next: seq<nat>, fn: seq<nat>, jiffies: seq<int>, list: seq<Timer>)
    requires Linked(q, head, next, fn) && |next| == |fn| == SLOTS && Spells(q, jiffies, fn, list)
    ensures |list| == SLOTS <==> forall x :: 0 <= x < SLOTS ==> fn[x] != 0
  {
    forall i: nat | i < |q|
      ensures q[i] < SLOTS
    {
      assert LinkAt(q, next, i);
    }
    Full(q, SLOTS);
  }

  lemma HeadIs(q: seq<nat>, head: nat, next: seq<nat>, fn: seq<nat>, jiffies: seq<int>, list: seq<Timer>)
    requires Linked(q, head, next, fn) && |next| == |fn| == |jiffies| == SLOTS && Spells(q, jiffies, fn, list)
    ensures |q| == |list| && (head == NIL <==> q == [])
    ensures q != [] ==> head == q[0] && head < SLOTS && jiffies[head] == list[0].delta && fn[head] == list[0].fn
    ensures NoDups(q)
  {
    if q != [] { assert LinkAt(q, next, 0) && Slot(q, jiffies, fn, list, 0); }
  }

  lemma EmptyClock(now: int)
    ensures OnClock([], now + 1)
  {
  }

  lemma HeadClock(list: seq<Timer>, now: int)
    requires OnClock(list, now) && list != []
    ensures list[0].late >= 0 && now + list[0].delta == list[0].due + list[0].late
  {
    assert Clocked(list, now, 0) && Sum(list, 1) == list[0].delta;
  }

  lemma PushSunk(q: seq<nat>, jiffies: seq<int>, fn: seq<nat>, before: seq<Timer>, p: nat, ticks: int, f: nat)
    requires Spells(q, jiffies, fn, before) && p !in q && p < |jiffies| == |fn|
    ensures Sunk([p] + q, jiffies[p := ticks], fn[p := f], before, 0, ticks, f)
  {
    var q', j', f' := [p] + q, jiffies[p := ticks], fn[p := f];
    var list := Insert(before, 0, ticks, f, 0);
    forall i | 0 <= i < |q'|
      ensures Slot(q', j', f', list, i)
    {
      if i > 0 { assert Slot(q, jiffies, fn, before, i - 1) && q'[i] in q; }
    }
  }

  lemma SunkAt(q: seq<nat>, jiffies: seq<int>, fn: seq<nat>, next: seq<nat>, head: nat, before: seq<Timer>, k: nat,
          ticks: int, f: nat)
    requires Sunk(q, jiffies, fn, before, k, ticks, f) && Linked(q, head, next, fn)
    requires |jiffies| == |fn| == |next| == SLOTS
    ensures |q| == |before| + 1 && q[k] < SLOTS && jiffies[q[k]] == ticks - Sum(before, k) && fn[q[k]] == f
    ensures next[q[k]] == if k < |before| then q[k + 1] else NIL
    ensures k < |before| ==>
      q[k + 1] < SLOTS && q[k + 1] != q[k] && jiffies[q[k + 1]] == before[k].delta && fn[q[k + 1]] == before[k].fn
  {
    var list := Insert(before, k, ticks, f, 0);
    assert Slot(q, jiffies, fn, list, k) && LinkAt(q, next, k);
    if k < |before| { assert Slot(q, jiffies, fn, list, k + 1); }
  }

  /** The new timer and the one after it change places. */
  lemma SunkMore(q: seq<nat>, jiffies: seq<int>, fn: seq<nat>, next: seq<nat>, head: nat, before: seq<Timer>, k: nat,
          ticks: int, f: nat)
    requires Sunk(q, jiffies, fn, before, k, ticks, f) && Linked(q, head, next, fn)
    requires |jiffies| == |fn| == |next| == SLOTS && f != 0
    requires k < |before| && |q| == |before| + 1 && q[k] < SLOTS && q[k + 1] < SLOTS
    ensures var p, n := q[k], q[k + 1];
      var jiffies', fn' := jiffies[p := jiffies[n]][n := jiffies[p] - jiffies[n]], fn[p := fn[n]][n := fn[p]];
      Sunk(q, jiffies', fn', before, k + 1, ticks, f) && Linked(q, head, next, fn')
  {
    SunkAt(q, jiffies, fn, next, head, before, k, ticks, f);
    var p, n := q[k], q[k + 1];
    var jiffies', fn' := jiffies[p := jiffies[n]][n := jiffies[p] - jiffies[n]], fn[p := fn[n]][n := fn[p]];
    var list, list' := Insert(before, k, ticks, f, 0), Insert(before, k + 1, ticks, f, 0);
    forall i | 0 <= i < |q|
      ensures Slot(q, jiffies', fn', list', i)
    {
      assert Slot(q, jiffies, fn, list, i);
    }
    assert p in q && n in q && fn[n] != 0;
  }

  lemma SunkSpells(q: seq<nat>, jiffies: seq<int>, fn: seq<nat>, before: seq<Timer>, k: nat, ticks: int, f: nat,
          now: int)
    requires Sunk(q, jiffies, fn, before, k, ticks, f)
    ensures Spells(q, jiffies, fn, Insert(before, k, ticks, f, now))
  {
    var list, list' := Insert(before, k, ticks, f, 0), Insert(before, k, ticks, f, now);
    forall i | 0 <= i < |q|
      ensures Slot(q, jiffies, fn, list', i)
    {
      assert Slot(q, jiffies, fn, list, i);
    }
  }

  lemma TickSpells(q: seq<nat>, jiffies: seq<int>, fn: seq<nat>, list: seq<Timer>)
    requires Spells(q, jiffies, fn, list) && q != [] && q[0] < |jiffies| && NoDups(q)
    ensures Spells(q, jiffies[q[0] := jiffies[q[0]] - 1], fn, list[0 := list[0].(delta := list[0].delta - 1)])
  {
    var jiffies', list' := jiffies[q[0] := jiffies[q[0]] - 1], list[0 := list[0].(delta := list[0].delta - 1)];
    forall i | 0 <= i < |q|
      ensures Slot(q, jiffies', fn, list', i)
    {
      assert Slot(q, jiffies, fn, list, i);
    }
  }

  lemma {:induction false} SumLess(list: seq<Timer>, n: nat)
    requires 0 < n <= |list|
    ensures Sum(list[0 := list[0].(delta := list[0].delta - 1)], n) == Sum(list, n) - 1
  {
    if n > 1 { SumLess(list, n - 1); }
  }

  lemma TickClock(list: seq<Timer>, now: int)
    requires OnClock(list, now) && list != []
    ensures OnClock(list[0 := list[0].(delta := list[0].delta - 1)], now + 1)
  {
    var list', after := list[0 := list[0].(delta := list[0].delta - 1)], now + 1;
    forall i | 0 <= i < |list'|
      ensures Clocked(list', after, i)
    {
      assert Clocked(list, now, i);
      SumLess(list, i + 1);
    }
  }

  lemma PopSpells(q: seq<nat>, jiffies: seq<int>, fn: seq<nat>, list: seq<Timer>)
    requires Spells(q, jiffies, fn, list) && q != [] && q[0] < |fn| && NoDups(q)
    ensures Spells(q[1..], jiffies, fn[q[0] := 0], list[1..])
  {
    var q', fn', list' := q[1..], fn[q[0] := 0], list[1..];
    forall i | 0 <= i < |q'|
      ensures Slot(q', jiffies, fn', list', i)
    {
      assert Slot(q, jiffies, fn, list, i + 1);
    }
  }

  lemma {:induction false} SumTail(list: seq<Timer>, n: nat)
    requires n < |list|
    ensures Sum(list, n + 1) == list[0].delta + Sum(list[1..], n)
  {
    if n > 0 { SumTail(list, n - 1); }
  }

  lemma PopClock(list: seq<Timer>, now: int)
    requires OnClock(list, now) && list != [] && list[0].delta == 0
    ensures OnClock(list[1..], now)
  {
    var rest := list[1..];
    forall i | 0 <= i < |rest|
      ensures Clocked(rest, now, i)
    {
      assert Clocked(list, now, i + 1);
      SumTail(list, i + 1);
    }
  }
}
