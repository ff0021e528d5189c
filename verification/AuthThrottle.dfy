/** The failure throttle and the key comparison of `auth_policy.c`. */
module AuthThrottle {
  import opened Esp
  import opened ModClock

  const KEY_MAX: nat := 64
  const FAIL_MAX: nat := 5
  const FAIL_WINDOW: nat := 60
  const LOCKOUT: nat := 30

  datatype Verdict = Allow | Unauthorized | ForbiddenOrigin | Unconfigured | Throttled

  // ------------------------------------------------------------------- the comparison

  /** The byte at `i`, a zero past the end. */
  function ByteAt(s: string, i: nat): nat {
    if i < |s| then s[i] as int else 0
  }

  predicate SameUpTo(a: string, b: string, n: nat) {
    forall i :: 0 <= i < n ==> ByteAt(a, i) == ByteAt(b, i)
  }

  /** Bitwise exclusive or. */
  function Xor(x: nat, y: nat): nat {
    if x == 0 && y == 0 then 0 else (x + y) % 2 + 2 * Xor(x / 2, y / 2)
  }

  /** Bitwise or. */
  function Or(x: nat, y: nat): nat {
    if x == 0 && y == 0 then 0 else (if x % 2 == 1 || y % 2 == 1 then 1 else 0) + 2 * Or(x / 2, y / 2)
  }

  lemma {:induction false} XorIsZero(x: nat, y: nat)
    ensures Xor(x, y) == 0 <==> x == y
  {
    if x != 0 || y != 0 { XorIsZero(x / 2, y / 2); }
  }

  lemma {:induction false} OrIsZero(x: nat, y: nat)
    ensures Or(x, y) == 0 <==> x == 0 && y == 0
  {
    if x != 0 || y != 0 { OrIsZero(x / 2, y / 2); }
  }

  /** Equality as one OR over all differences, without an early exit. */
  method CtEqual(a: string, b: string, width: nat) returns (equal: bool)
    requires |a| <= width && |b| <= width
    ensures equal <==> a == b
  {
    var diff := Xor(|a|, |b|);
    XorIsZero(|a|, |b|);
    var i := 0;
    while i < width
      invariant 0 <= i <= width
      invariant diff == 0 <==> |a| == |b| && SameUpTo(a, b, i)
    {
      XorIsZero(ByteAt(a, i), ByteAt(b, i));
      OrIsZero(diff, Xor(ByteAt(a, i), ByteAt(b, i)));
      diff := Or(diff, Xor(ByteAt(a, i), ByteAt(b, i)));
      i := i + 1;
    }
    equal := diff == 0;
    SameMeansEqual(a, b, width);
  }

  lemma {:induction false} SameMeansEqual(a: string, b: string, width: nat)
    requires |a| <= width && |b| <= width
    ensures |a| == |b| && SameUpTo(a, b, width) <==> a == b
  {
    if |a| == |b| && SameUpTo(a, b, width) {
      forall j | 0 <= j < |a| ensures a[j] == b[j] {
        assert ByteAt(a, j) == ByteAt(b, j);
      }
    }
  }

  // --------------------------------------------------------------------- the throttle

  /** The throttle with its instants in true seconds; the code keeps them modulo 2^32. */
  datatype Throttle = Throttle(count: nat, first: int, until: int, locked: bool)

  /** One key check: when, whether a key is configured, and whether the right one is presented. */
  datatype Check = Check(now: int, configured: bool, correct: bool)

  datatype Answer = Answer(end: Throttle, verdict: Verdict)

  predicate Refused(t: Throttle, now: int) {
    t.locked && !Reached(Wrap(now), Wrap(t.until))
  }

  function CheckKey(t: Throttle, c: Check): Answer {
    if Refused(t, c.now) then Answer(t, Throttled)
    else
      var u := t.(locked := false);
      if !c.configured then Answer(u, Unauthorized)
      else if c.correct then Answer(u.(count := 0), Allow)
      else Answer(Missed(u, c.now), Unauthorized)
  }

  /** A wrong key: counted in its window, and the last one allowed starts the lockout. */
  function Missed(u: Throttle, now: int): Throttle {
    var w := if u.count == 0 || (now - u.first) % TWO32 >= FAIL_WINDOW then u.(count := 0, first := now) else u;
    if w.count + 1 >= FAIL_MAX then w.(count := 0, locked := true, until := now + LOCKOUT)
    else w.(count := w.count + 1)
  }

  /** A miss is counted when a configured key was compared and did not match. */
  predicate Counted(t: Throttle, c: Check) {
    CheckKey(t, c).verdict == Unauthorized && c.configured
  }

  /** What every state at true time `now` satisfies. */
  predicate Sane(t: Throttle, now: int) {
    t.count < FAIL_MAX && (t.count > 0 ==> t.first <= now) && (t.locked ==> t.until <= now + LOCKOUT && t.count == 0)
  }

  lemma {:induction false} CheckKeepsSane(t: Throttle, c: Check, before: int)
    requires Sane(t, before) && before <= c.now
    ensures Sane(CheckKey(t, c).end, c.now)
  {
  }

  /** The misses that still fit into the half-open interval of 30 s from `from`. */
  function Budget(t: Throttle, from: int): int {
    if t.locked && t.until >= from + LOCKOUT then 0
    else if t.count == 0 then FAIL_MAX
    else if t.first >= from then FAIL_MAX - t.count
    else 2 * FAIL_MAX - 1 - t.count
  }

  lemma {:induction false} MissCosts(t: Throttle, c: Check, before: int, from: int)
    requires Sane(t, before) && before <= c.now && from <= c.now < from + LOCKOUT && !c.correct
    ensures Budget(CheckKey(t, c).end, from) <= Budget(t, from) - (if Counted(t, c) then 1 else 0)
  {
    if t.locked { LockoutHolds(c.now, t.until); }
  }

  lemma {:induction false} LockoutHolds(now: int, until: int)
    ensures now < until <= now + LOCKOUT ==> !Reached(Wrap(now), Wrap(until))
  {
    if now < until <= now + LOCKOUT { DiffIsTrue(now, until); }
  }

  ghost predicate Ordered(cs: seq<Check>, from: int) {
    cs == [] || (from <= cs[0].now && Ordered(cs[1..], cs[0].now))
  }

  /** Counted misses of a run that fall into [from, from + 30). */
  function MissesIn(t: Throttle, cs: seq<Check>, from: int): nat
    decreases |cs|
  {
    if cs == [] then 0 else
      (if Counted(t, cs[0]) && from <= cs[0].now < from + LOCKOUT then 1 else 0)
      + MissesIn(CheckKey(t, cs[0]).end, cs[1..], from)
  }

  lemma {:induction false} NoneAfter(t: Throttle, cs: seq<Check>, at: int, from: int)
    requires Ordered(cs, at) && at >= from + LOCKOUT
    ensures MissesIn(t, cs, from) == 0
    decreases |cs|
  {
    if cs != [] { NoneAfter(CheckKey(t, cs[0]).end, cs[1..], cs[0].now, from); }
  }

  lemma {:induction false} BudgetBounds(t: Throttle, cs: seq<Check>, at: int, from: int)
    requires Sane(t, at) && Ordered(cs, at) && at >= from
    requires forall i :: 0 <= i < |cs| ==> !cs[i].correct
    ensures MissesIn(t, cs, from) <= Budget(t, from)
    decreases |cs|
  {
    if cs != [] {
      CheckKeepsSane(t, cs[0], at);
      if cs[0].now < from + LOCKOUT {
        MissCosts(t, cs[0], at, from);
        BudgetBounds(CheckKey(t, cs[0]).end, cs[1..], cs[0].now, from);
      } else {
        NoneAfter(CheckKey(t, cs[0]).end, cs[1..], cs[0].now, from);
      }
    }
  }

  /** However the checks are spaced, and across any number of clock wraps: with no correct key in
      between, every half-open 30 s interval holds at most 8 counted misses. */
  lemma {:induction false} AtMostEightMisses(t: Throttle, cs: seq<Check>, at: int, from: int)
    requires Sane(t, at) && Ordered(cs, at)
    requires forall i :: 0 <= i < |cs| ==> !cs[i].correct
    ensures MissesIn(t, cs, from) <= 8
    decreases |cs|
  {
    if at >= from {
      BudgetBounds(t, cs, at, from);
    } else if cs != [] {
      if cs[0].now < from {
        CheckKeepsSane(t, cs[0], at);
        AtMostEightMisses(CheckKey(t, cs[0]).end, cs[1..], cs[0].now, from);
      } else {
        Later(t, cs, at, from);
        BudgetBounds(t, cs, from, from);
      }
    }
  }

  lemma {:induction false} Later(t: Throttle, cs: seq<Check>, at: int, later: int)
    requires Sane(t, at) && at <= later && Ordered(cs, at) && cs != [] && later <= cs[0].now
    ensures Sane(t, later) && Ordered(cs, later)
  {
  }

  /** For 30 s after the miss that starts a lockout no key is compared and nothing changes. */
  lemma {:induction false} LockoutRefusesAll(t: Throttle, miss: Check, later: Check)
    requires CheckKey(t, miss).end.locked && CheckKey(t, miss).verdict == Unauthorized
    requires miss.now <= later.now < miss.now + LOCKOUT
    ensures CheckKey(CheckKey(t, miss).end, later) == Answer(CheckKey(t, miss).end, Throttled)
  {
    LockoutHolds(later.now, miss.now + LOCKOUT);
  }

  /** How long it lasts: 30 s, and again from half a turn of the clock after that, modulo whole turns. */
  lemma {:induction false} LockoutLasts(t: Throttle, miss: Check, later: Check)
    requires CheckKey(t, miss).end.locked && CheckKey(t, miss).verdict == Unauthorized && miss.now <= later.now
    ensures CheckKey(CheckKey(t, miss).end, later).verdict == Throttled <==>
      later.now < miss.now + 30 || (later.now - (miss.now + 30)) % 0x1_0000_0000 >= 0x8000_0000
  {
    hide Reached, Wrap;
    ReachedExactly(later.now, miss.now + LOCKOUT);
    LockoutHolds(later.now, miss.now + LOCKOUT);
  }

  /** A lockout that ended half a turn of the clock ago or more, modulo whole turns, with no check since. */
  predicate Stale(t: Throttle, now: int) {
    t.locked && t.until <= now && (now - t.until) % TWO32 >= TWO31
  }

  /** On true seconds, with a key configured: refused while the lockout lasts, and after it allowed
      exactly for the right key - unless the lockout is stale, and only then. */
  lemma {:induction false} RightKeyOnly(t: Throttle, c: Check)
    requires Sane(t, c.now) && c.configured
    ensures CheckKey(t, c).verdict == (if t.locked && c.now < t.until then Throttled else if c.correct then Allow else Unauthorized)
      <==> !Stale(t, c.now)
  {
    ReachedExactly(c.now, t.until);
  }

  /** A lockout followed by half a turn of silence refuses the right key. */
  lemma {:induction false} StaleLockoutRefuses(t: Throttle, miss: Check, later: Check)
    requires CheckKey(t, miss).end.locked && CheckKey(t, miss).verdict == Unauthorized
    requires TWO31 <= later.now - (miss.now + LOCKOUT) < TWO32
    ensures CheckKey(CheckKey(t, miss).end, later).verdict == Throttled
  {
    ReachedExactly(later.now, miss.now + LOCKOUT);
  }

  // ------------------------------------------------------------- runs, by their checks

  function Fresh(): Throttle {
    Throttle(0, 0, 0, false)
  }

  /** The throttle after a list of checks. */
  function After(t: Throttle, cs: seq<Check>): Throttle
    decreases |cs|
  {
    if cs == [] then t else
      var n := |cs| - 1;
      CheckKey(After(t, cs[..n]), cs[n]).end
  }

  /** What check i of a list answers. */
  function VerdictAt(t: Throttle, cs: seq<Check>, i: nat): Verdict
    requires i < |cs|
  {
    CheckKey(After(t, cs[..i]), cs[i]).verdict
  }

  /** Two throttles that no list of checks can tell apart: the start of an empty window and the end of no lockout do not count. */
  predicate Alike(t: Throttle, u: Throttle) {
    && t.count == u.count && t.locked == u.locked
    && (t.count > 0 ==> t.first == u.first) && (t.locked ==> t.until == u.until)
  }

  lemma {:induction false} AlikeStays(t: Throttle, u: Throttle, cs: seq<Check>)
    requires Alike(t, u)
    ensures Alike(After(t, cs), After(u, cs))
    decreases |cs|
  {
    hide Reached;
    if cs != [] { AlikeStays(t, u, cs[..|cs| - 1]); }
  }

  /** The right key wipes the slate: from an Allow on, every list of checks is answered as by a fresh throttle. */
  lemma {:induction false} AllowForgets(t: Throttle, c: Check, cs: seq<Check>, i: nat)
    requires CheckKey(t, c).verdict == Allow && i < |cs|
    ensures VerdictAt(CheckKey(t, c).end, cs, i) == VerdictAt(Fresh(), cs, i)
  {
    hide Reached;
    AlikeStays(CheckKey(t, c).end, Fresh(), cs[..i]);
  }

  /** Check i compared a wrong key. */
  predicate MissAt(cs: seq<Check>, i: nat) {
    i < |cs| && cs[i].configured && VerdictAt(Fresh(), cs, i) == Unauthorized
  }

  /** Check i started a lockout. */
  predicate LocksAt(cs: seq<Check>, i: nat) {
    i < |cs| && VerdictAt(Fresh(), cs, i) != Throttled && After(Fresh(), cs[..i + 1]).locked
  }

  /** The miss that opened the window in force before check n: none after an Allow or a lockout. */
  function OpenedBefore(cs: seq<Check>, n: nat): (r: Option<nat>)
    requires n <= |cs|
    ensures r.Some? ==> r.value < n
    decreases n, 0
  {
    if n == 0 then None
    else if VerdictAt(Fresh(), cs, n - 1) == Allow || LocksAt(cs, n - 1) then None
    else if MissAt(cs, n - 1) then Some(OpenedFor(cs, n - 1))
    else OpenedBefore(cs, n - 1)
  }

  /** The miss whose window a miss at n falls into: 60 s from its own opening. */
  function OpenedFor(cs: seq<Check>, n: nat): (r: nat)
    requires n < |cs|
    ensures r <= n
    decreases n, 1
  {
    var o := OpenedBefore(cs, n);
    if o.Some? && (cs[n].now - cs[o.value].now) % 0x1_0000_0000 < 60 then o.value else n
  }

  /** Misses among the checks before `end`, from `from` on. */
  function MissesBetween(cs: seq<Check>, from: nat, end: nat): nat
    requires from <= end <= |cs|
    decreases end
  {
    if end == from then 0 else MissesBetween(cs, from, end - 1) + (if MissAt(cs, end - 1) then 1 else 0)
  }

  /** The counters stand for the list of checks. */
  ghost predicate Counts(cs: seq<Check>, n: nat)
    requires n <= |cs|
  {
    var t, o := After(Fresh(), cs[..n]), OpenedBefore(cs, n);
    && t.count < 5
    && (o.None? ==> t.count == 0)
    && (o.Some? ==> t.count == MissesBetween(cs, o.value, n) && t.count > 0 && t.first == cs[o.value].now)
    && (t.locked ==> t.count == 0)
  }

  lemma {:induction false} AfterStep(cs: seq<Check>, n: nat)
    requires n < |cs|
    ensures After(Fresh(), cs[..n + 1]) == CheckKey(After(Fresh(), cs[..n]), cs[n]).end
  {
    assert cs[..n + 1][..n] == cs[..n];
  }

  /** One more check, by what it is. */
  lemma {:induction false} CountsStep(cs: seq<Check>, n: nat)
    requires n < |cs| && Counts(cs, n)
    ensures Counts(cs, n + 1)
    ensures LocksAt(cs, n) <==> MissAt(cs, n) && MissesBetween(cs, OpenedFor(cs, n), n + 1) == 5
  {
    hide Reached, After;
    AfterStep(cs, n);
    assert MissesBetween(cs, n, n) == 0;
    var o := OpenedBefore(cs, n);
    if o.Some? {
      assert MissesBetween(cs, o.value, n + 1) == MissesBetween(cs, o.value, n) + (if MissAt(cs, n) then 1 else 0);
    }
    if MissAt(cs, n) {
      assert OpenedBefore(cs, n + 1) == if LocksAt(cs, n) then None else Some(OpenedFor(cs, n));
      assert Counts(cs, n + 1);
    } else {
      assert !LocksAt(cs, n);
      assert Counts(cs, n + 1);
    }
  }

  /** A check starts a lockout exactly if it is the fifth miss of a window. Windows last 60 s and are opened by the first miss
      after an Allow, a lockout or the end of the window before. */
  lemma {:induction false} FifthMissLocks(cs: seq<Check>, n: nat)
    requires n < |cs|
    ensures LocksAt(cs, n) <==> MissAt(cs, n) && MissesBetween(cs, OpenedFor(cs, n), n + 1) == 5
  {
    AllCount(cs, n);
    CountsStep(cs, n);
  }

  lemma {:induction false} AllCount(cs: seq<Check>, n: nat)
    requires n <= |cs|
    ensures Counts(cs, n)
    decreases n
  {
    if n == 0 {
      assert cs[..0] == [];
    } else {
      AllCount(cs, n - 1);
      CountsStep(cs, n - 1);
    }
  }

  function Miss(now: int): Check {
    Check(now, true, false)
  }

  lemma {:induction false} OneMore(t: Throttle, c: Check, cs: seq<Check>, from: int)
    ensures MissesIn(t, [c] + cs, from) ==
      (if Counted(t, c) && from <= c.now < from + LOCKOUT then 1 else 0) + MissesIn(CheckKey(t, c).end, cs, from)
  {
    assert ([c] + cs)[1..] == cs;
  }

  /** `n` misses at one instant, then `rest`. */
  function Burst(n: nat, now: int, rest: seq<Check>): seq<Check> {
    if n == 0 then rest else [Miss(now)] + Burst(n - 1, now, rest)
  }

  lemma {:induction false} BurstCounts(t: Throttle, n: nat, now: int, rest: seq<Check>, from: int)
    requires !t.locked && 1 <= t.count && t.count + n < FAIL_MAX && (now - t.first) % TWO32 < FAIL_WINDOW
    requires from <= now < from + LOCKOUT
    ensures MissesIn(t, Burst(n, now, rest), from) == n + MissesIn(t.(count := t.count + n), rest, from)
    decreases n
  {
    hide CheckKey, MissesIn;
    if n == 0 {
      assert t.(count := t.count + 0) == t;
    } else {
      MissInWindow(t, now);
      OneMore(t, Miss(now), Burst(n - 1, now, rest), from);
      BurstCounts(t.(count := t.count + 1), n - 1, now, rest, from);
    }
  }

  lemma {:induction false} MissInWindow(t: Throttle, now: int)
    requires !t.locked && 1 <= t.count && t.count + 1 < FAIL_MAX && (now - t.first) % TWO32 < FAIL_WINDOW
    ensures Counted(t, Miss(now)) && CheckKey(t, Miss(now)).end == t.(count := t.count + 1)
  {
  }

  lemma {:induction false} BurstOrdered(n: nat, now: int, rest: seq<Check>, at: int)
    requires at <= now && Ordered(rest, now)
    ensures Ordered(Burst(n, now, rest), at)
    decreases n
  {
    if n > 0 {
      BurstOrdered(n - 1, now, rest, now);
      assert Burst(n, now, rest)[1..] == Burst(n - 1, now, rest);
    } else if rest != [] {
      assert rest[0].now >= at;
    }
  }

  /** Three misses at the end of a window opened earlier, five in the next. */
  function WorstCase(): seq<Check> {
    Burst(1, 0, Burst(3, 40, Burst(1, 60, Burst(3, 60, Burst(1, 60, [])))))
  }

  /** The bound of eight is tight. */
  lemma {:induction false} EightAreReached()
    ensures Ordered(WorstCase(), 0) && MissesIn(Throttle(0, 0, 0, false), WorstCase(), 31) == 8
  {
    hide CheckKey, MissesIn, Ordered, Burst;
    var e := Burst(1, 60, []);
    var d := Burst(3, 60, e);
    var c := Burst(1, 60, d);
    var b := Burst(3, 40, c);
    assert Ordered([], 60) by { NothingOrdered(60); }
    BurstOrdered(1, 60, [], 60);
    BurstOrdered(3, 60, e, 60);
    BurstOrdered(1, 60, d, 60);
    BurstOrdered(3, 40, c, 40);
    BurstOrdered(1, 0, b, 0);
    WorstCaseSteps(b, c, d, e);
    BurstCounts(Throttle(1, 0, 0, false), 3, 40, c, 31);
    BurstCounts(Throttle(1, 60, 0, false), 3, 60, e, 31);
  }

  lemma {:induction false} NothingOrdered(at: int)
    ensures Ordered([], at)
  {
  }

  /** The misses that open a window or start the lockout. */
  lemma {:induction false} WorstCaseSteps(b: seq<Check>, c: seq<Check>, d: seq<Check>, e: seq<Check>)
    requires e == Burst(1, 60, [])
    ensures MissesIn(Throttle(0, 0, 0, false), Burst(1, 0, b), 31) == MissesIn(Throttle(1, 0, 0, false), b, 31)
    ensures MissesIn(Throttle(4, 0, 0, false), Burst(1, 60, d), 31) == 1 + MissesIn(Throttle(1, 60, 0, false), d, 31)
    ensures MissesIn(Throttle(4, 60, 0, false), e, 31) == 1
  {
    OneMore(Throttle(0, 0, 0, false), Miss(0), b, 31);
    OneMore(Throttle(4, 0, 0, false), Miss(60), d, 31);
    OneMore(Throttle(4, 60, 0, false), Miss(60), [], 31);
    BurstOfOne(0, b);
    BurstOfOne(60, d);
    BurstOfOne(60, []);
  }

  lemma {:induction false} BurstOfOne(at: int, rest: seq<Check>)
    ensures Burst(1, at, rest) == [Miss(at)] + rest
  {
    assert Burst(0, at, rest) == rest;
  }
}
