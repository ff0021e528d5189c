/** `auth_policy.c` itself: sessions, throttle and decision on a wrapping clock of 32-bit seconds. */
module AuthPolicy {
  import opened Esp
  import opened ModClock
  import opened AuthThrottle
  import S = AuthSessions
  import O = AuthOrigin

  const SID_LEN: nat := 32
  const RECOVERY_MAX: nat := 86400

  datatype Slot = Slot(id: string, expires: u32, seen: u32, used: bool)

  datatype Method = NoMethod | Bearer | Cookie | Portal

  /** One request; `origin` is its Origin or Referer header. */
  datatype Request = Request(bearer: Option<string>, cookie: Option<string>, stateChanging: bool,
                             origin: Option<string>, host: Option<string>, fromPortal: bool)

  function Encode(e: Option<S.Session>): Slot {
    if e.None? then Slot("", 0, 0, false)
    else Slot(e.value.id, Wrap(e.value.expires), Wrap(e.value.seen), true)
  }

  /** A session was seen no later than now, and expires within 2^31 s of when it was last seen. */
  predicate Near(e: S.Session, clock: int) {
    |e.id| == SID_LEN && e.seen <= clock && e.expires <= e.seen + TWO31
  }

  /** What the policy compares of a presented string: at most one byte more than can match. */
  function Clipped(s: string, max: nat): (r: string)
    ensures |r| <= max + 1
    ensures forall x: string :: |x| <= max ==> (x == r <==> x == s)
  {
    if |s| <= max then s else s[..max + 1]
  }

  /** How long a recovery request opens the window. */
  function Window(seconds: u32): nat {
    if seconds > RECOVERY_MAX then RECOVERY_MAX else seconds
  }

  class Policy {
    const slots: array<Slot>
    const requireKey: bool
    var ttl: u32
    var key: string
    var failCount: nat
    var failFirst: u32
    var lockoutUntil: u32
    var locked: bool
    var recovery: bool
    var recoveryUntil: u32
    ghost var sessions: S.State
    ghost var throttle: Throttle

    ghost predicate Valid()
      reads this, slots
    {
      |key| <= KEY_MAX && SessionsValid() && ThrottleValid()
    }

    ghost predicate SessionsValid()
      reads this`ttl, this`sessions, slots
    {
      && ttl == sessions.ttl
      && slots.Length == |sessions.table| && S.Distinct(sessions.table)
      && (forall i :: 0 <= i < slots.Length ==> slots[i] == Encode(sessions.table[i]))
      && (forall i :: 0 <= i < slots.Length && sessions.table[i].Some? ==>
            Near(sessions.table[i].value, sessions.clock))
    }

    ghost predicate ThrottleValid()
      reads this`failCount, this`failFirst, this`lockoutUntil, this`locked, this`throttle
    {
      && failCount == throttle.count && failCount < FAIL_MAX && failFirst == Wrap(throttle.first)
      && lockoutUntil == Wrap(throttle.until) && locked == throttle.locked
    }

    /** The clock reads `now` at true time `t`, and no session in the table expired 2^31 s ago or more. */
    ghost predicate At(now: u32, t: int)
      reads this
    {
      && now == Wrap(t) && sessions.clock <= t
      && forall i :: 0 <= i < |sessions.table| && sessions.table[i].Some? ==> t - sessions.table[i].value.expires < TWO31
    }

    constructor (count: nat, ttl: u32, requireKey: bool, ghost start: int)
      ensures Valid() && fresh(slots) && slots.Length == count && key == ""
      ensures sessions == S.State(seq(count, _ => None), ttl, start, []) && throttle == Throttle(0, 0, 0, false)
      ensures this.requireKey == requireKey && !recovery
    {
      slots := new Slot[count](_ => Slot("", 0, 0, false));
      this.requireKey, this.ttl, key := requireKey, ttl, "";
      failCount, failFirst, lockoutUntil, locked := 0, 0, 0, false;
      recovery, recoveryUntil := false, 0;
      sessions, throttle := S.State(seq(count, _ => None), ttl, start, []), Throttle(0, 0, 0, false);
    }

    // ---------------------------------------------------------------------- throttle

    /** The answer is the throttle's, for a presented string judged by equality with the key. */
    method CheckPresented(presented: string, now: u32, ghost t: int) returns (verdict: Verdict)
      requires Valid() && now == Wrap(t)
      modifies this`failCount, this`failFirst, this`lockoutUntil, this`locked, this`throttle
      ensures Valid()
      ensures Answer(throttle, verdict) == CheckKey(old(throttle), Check(t, key != "", presented == key))
    {
      hide SignedDiff, Wrap, SessionsValid, Clipped, Missed;
      if locked {
        if !Reached(now, lockoutUntil) { return Throttled; }
        locked := false;
      }
      throttle := throttle.(locked := false);
      if key == "" { return Unauthorized; }
      var equal := CtEqual(key, Clipped(presented, KEY_MAX), KEY_MAX + 1);
      if equal {
        failCount := 0;
        throttle := throttle.(count := 0);
        return Allow;
      }
      CountMiss(now, t);
      return Unauthorized;
    }

    /** A wrong key, counted in its window. */
    method CountMiss(now: u32, ghost t: int)
      requires ThrottleValid() && !locked && now == Wrap(t)
      modifies this`failCount, this`failFirst, this`lockoutUntil, this`locked, this`throttle
      ensures ThrottleValid() && throttle == Missed(old(throttle), t)
    {
      hide Wrap;
      WrapOfDiff(t, throttle.first);
      WrapOfSum(t, LOCKOUT);
      if failCount == 0 || (now - failFirst) % TWO32 >= FAIL_WINDOW {
        failCount, failFirst := 0, now;
      }
      failCount := failCount + 1;
      if failCount >= FAIL_MAX {
        locked, lockoutUntil, failCount := true, (now + LOCKOUT) % TWO32, 0;
      }
      throttle := Missed(throttle, t);
    }

    // ---------------------------------------------------------------------- sessions

    /** Empties the slots whose session has run out. */
    method Sweep(now: u32, ghost t: int)
      requires Valid() && At(now, t)
      modifies slots, this`sessions
      ensures Valid() && sessions == old(sessions).(table := S.Swept(old(sessions).table, t), clock := t)
    {
      ghost var w := S.Swept(sessions.table, t);
      var i := 0;
      while i < slots.Length
        invariant i <= slots.Length
        invariant forall j :: 0 <= j < slots.Length ==> slots[j] == Encode(if j < i then w[j] else sessions.table[j])
        modifies slots
      {
        if sessions.table[i].Some? { DiffIsTrue(t, sessions.table[i].value.expires); }
        if slots[i].used && Reached(now, slots[i].expires) { slots[i] := Slot("", 0, 0, false); }
        i := i + 1;
      }
      sessions := sessions.(table := w, clock := t);
    }

    /** The slot a new session takes: the first free one, else the one idle longest. */
    method ChooseSlot(ghost t: int) returns (k: nat)
      requires Valid() && slots.Length > 0 && sessions.clock == t
      requires forall i :: 0 <= i < |sessions.table| && sessions.table[i].Some? ==> t < sessions.table[i].value.expires
      ensures k == S.SlotFor(sessions.table)
    {
      hide SignedDiff, Wrap, S.Oldest, S.FirstFree, S.Distinct;
      var i := 0;
      k := 0;
      while i < slots.Length && slots[i].used
        invariant i <= slots.Length
        invariant forall j :: 0 <= j < i ==> sessions.table[j].Some?
        invariant i > 0 ==> k == S.Oldest(sessions.table, i)
      {
        assert slots[i] == Encode(sessions.table[i]) && sessions.table[i].Some?;
        OldestStep(sessions.table, i);
        if i > 0 {
          assert slots[k] == Encode(sessions.table[k]);
          DiffIsTrue(sessions.table[i].value.seen, sessions.table[k].value.seen);
        }
        if i == 0 || SignedDiff(slots[i].seen, slots[k].seen) < 0 { k := i; }
        i := i + 1;
      }
      if i < slots.Length {
        assert slots[i] == Encode(sessions.table[i]);
        k := i;
      }
      FreeIs(sessions.table, i);
    }

    /** `id` is what the entropy source gave; no live session has it. */
    method SessionOpen(id: string, now: u32, ghost t: int) returns (ok: bool)
      requires Valid() && At(now, t) && ttl <= TWO31 && |id| == SID_LEN && !S.Valid(sessions, t, id)
      modifies slots, this`sessions
      ensures Valid() && ok == (slots.Length > 0)
      ensures sessions == if ok then S.Open(old(sessions), t, id) else old(sessions)
    {
      hide SignedDiff, Wrap;
      if slots.Length == 0 { return false; }
      Sweep(now, t);
      var k := ChooseSlot(t);
      WrapOfSum(t, ttl);
      slots[k] := Slot(id, (now + ttl) % TWO32, now, true);
      sessions := S.Open(old(sessions), t, id);
      return true;
    }

    /** Looks at the whole table; with distinct ids there is one match at most. */
    method FindSlot(id: string, now: u32, ghost t: int) returns (hit: int)
      requires Valid() && At(now, t)
      modifies slots, this`sessions
      ensures Valid() && sessions == old(sessions).(table := S.Swept(old(sessions).table, t), clock := t)
      ensures hit == (if S.Valid(old(sessions), t, id) then S.Find(sessions.table, id) else -1)
    {
      Sweep(now, t);
      hit := -1;
      var i := 0;
      while i < slots.Length
        invariant 0 <= i <= slots.Length && -1 <= hit < i
        invariant hit >= 0 ==> sessions.table[hit].Some? && sessions.table[hit].value.id == id
        invariant hit < 0 ==> forall j :: 0 <= j < i && sessions.table[j].Some? ==> sessions.table[j].value.id != id
        modifies {}
      {
        if slots[i].used { assert sessions.table[i].Some?; }
        if !slots[i].used { assert sessions.table[i].None?; }
        var eq := CtEqual(slots[i].id, Clipped(id, SID_LEN), SID_LEN + 1);
        if slots[i].used && eq { hit := i; }
        i := i + 1;
      }
      if hit >= 0 {
        S.FindIs(sessions.table, id, hit);
      } else {
        S.FindNone(sessions.table, id);
      }
    }

    method SessionValid(id: string, now: u32, ghost t: int) returns (valid: bool)
      requires Valid() && At(now, t)
      modifies slots, this`sessions
      ensures Valid() && valid == S.Valid(old(sessions), t, id) && sessions == S.Touch(old(sessions), t, id)
    {
      var hit := FindSlot(id, now, t);
      if hit < 0 { return false; }
      slots[hit] := slots[hit].(seen := now);
      sessions := S.Touch(old(sessions), t, id);
      return true;
    }

    method SessionClose(id: string, now: u32, ghost t: int)
      requires Valid() && At(now, t)
      modifies slots, this`sessions
      ensures Valid() && sessions == S.Close(old(sessions), t, id)
    {
      var hit := FindSlot(id, now, t);
      if hit >= 0 { slots[hit] := Slot("", 0, 0, false); }
      sessions := S.Close(old(sessions), t, id);
    }

    /** A new key, clipped to its buffer, ends every session; the throttle stays as it is. */
    method SetKey(newKey: string)
      requires Valid()
      modifies this`key, this`sessions, slots
      ensures Valid() && sessions == S.SetKey(old(sessions))
      ensures key == Clip(newKey, KEY_MAX)
    {
      key := Clip(newKey, KEY_MAX);
      var i := 0;
      while i < slots.Length
        invariant i <= slots.Length && forall j :: 0 <= j < i ==> slots[j] == Slot("", 0, 0, false)
        modifies slots
      {
        slots[i] := Slot("", 0, 0, false);
        i := i + 1;
      }
      sessions := S.SetKey(sessions);
    }

    method SetTtl(newTtl: u32)
      requires Valid()
      modifies this`ttl, this`sessions
      ensures Valid() && sessions == old(sessions).(ttl := newTtl)
    {
      ttl := newTtl;
      sessions := sessions.(ttl := newTtl);
    }

    // ---------------------------------------------------------------------- decision

    /** From now on the window is open for the seconds asked for, at most a day, and then closed; it reads as open again only
        half a turn of the clock after it closed. */
    method OpenRecovery(seconds: u32, now: u32, ghost t: int)
      requires now == Wrap(t)
      modifies this`recovery, this`recoveryUntil
      ensures forall u :: t <= u < t + Window(seconds) + TWO31 ==>
        (RecoveryOpen(Wrap(u)) <==> u < t + seconds && u < t + 24 * 60 * 60)
      ensures forall u :: RecoveryOpen(Wrap(u)) <==> seconds > 0 && (u - t - Window(seconds)) % TWO32 >= TWO31
    {
      hide Wrap, Reached;
      if seconds == 0 {
        recovery, recoveryUntil := false, 0;
        return;
      }
      WrapOfSum(t, Window(seconds));
      recovery, recoveryUntil := true, (now + if seconds > RECOVERY_MAX then RECOVERY_MAX else seconds) % TWO32;
      forall u ensures RecoveryOpen(Wrap(u)) <==> (u - t - Window(seconds)) % TWO32 >= TWO31 {
        ReachedExactly(u, t + Window(seconds));
      }
    }

    predicate RecoveryOpen(now: u32)
      reads this
    {
      recovery && !Reached(now, recoveryUntil)
    }

    /** With a key set and no recovery window, a request gets through only with that key, or with a
        live session that, for a state change, comes from this device's own pages. */
    method Decide(rq: Request, now: u32, ghost t: int) returns (verdict: Verdict, m: Method)
      requires Valid() && At(now, t)
      modifies slots, this`sessions, this`failCount, this`failFirst, this`lockoutUntil, this`locked, this`throttle
      ensures Valid()
      ensures key != "" && !(rq.fromPortal && RecoveryOpen(now)) ==>
        (verdict == Allow <==>
           if rq.bearer.Some? then rq.bearer.value == key && !Refused(old(throttle), t)
           else rq.cookie.Some? && S.Valid(old(sessions), t, rq.cookie.value) &&
                (rq.stateChanging ==> O.Matches(rq.origin, rq.host)))
      ensures key == "" || (rq.fromPortal && RecoveryOpen(now)) ==>
        verdict == (if key == "" && !rq.fromPortal && requireKey then Unconfigured else Allow)
      ensures verdict == ForbiddenOrigin <==>
        && key != "" && !(rq.fromPortal && RecoveryOpen(now)) && rq.bearer.None? && rq.cookie.Some?
        && S.Valid(old(sessions), t, rq.cookie.value) && rq.stateChanging && !O.Matches(rq.origin, rq.host)
      ensures verdict == Throttled <==>
        key != "" && !(rq.fromPortal && RecoveryOpen(now)) && rq.bearer.Some? && Refused(old(throttle), t)
      ensures throttle == if key != "" && !(rq.fromPortal && RecoveryOpen(now)) && rq.bearer.Some?
        then CheckKey(old(throttle), Check(t, true, rq.bearer.value == key)).end else old(throttle)
      ensures sessions == if key != "" && !(rq.fromPortal && RecoveryOpen(now)) && rq.bearer.None? && rq.cookie.Some?
        then S.Touch(old(sessions), t, rq.cookie.value) else old(sessions)
      ensures m == Portal <==> rq.fromPortal && (key == "" || RecoveryOpen(now))
      ensures m == Bearer <==> verdict == Allow && key != "" && rq.bearer.Some? && !(rq.fromPortal && RecoveryOpen(now))
      ensures m == Cookie <==>
        || verdict == ForbiddenOrigin
        || (verdict == Allow && key != "" && rq.bearer.None? && !(rq.fromPortal && RecoveryOpen(now)))
    {
      m := NoMethod;
      if rq.fromPortal && (key == "" || RecoveryOpen(now)) {
        m, verdict := Portal, Allow;
      } else if key == "" {
        verdict := if requireKey then Unconfigured else Allow;
      } else if rq.bearer.Some? {
        verdict := CheckPresented(rq.bearer.value, now, t);
        if verdict == Allow { m := Bearer; }
      } else {
        verdict := Unauthorized;
        if rq.cookie.Some? {
          var valid := SessionValid(rq.cookie.value, now, t);
          if valid {
            m := Cookie;
            verdict := Allow;
            if rq.stateChanging {
              var same := O.OriginMatches(rq.origin, rq.host);
              if !same { verdict := ForbiddenOrigin; }
            }
          }
        }
      }
    }
  }

  lemma {:induction false} FreeIs(w: S.Table, i: nat)
    requires i <= |w| && (i < |w| ==> w[i].None?) && forall j :: 0 <= j < i ==> w[j].Some?
    ensures S.FirstFree(w) == i
  {
  }

  lemma {:induction false} OldestStep(w: S.Table, n: nat)
    requires n < |w| && forall j :: 0 <= j <= n ==> w[j].Some?
    ensures S.Oldest(w, n + 1) ==
      if n == 0 then 0
      else if w[n].value.seen < w[S.Oldest(w, n)].value.seen then n
      else S.Oldest(w, n)
  {
  }

  /** A session minted at `t` reads as expired at `u` exactly when the time since its expiry, modulo a turn of the clock,
      is below half a turn. That is the truth up to half a turn before the expiry and half a turn after it. */
  lemma {:induction false} ExpiryReads(t: int, ttl: u32, u: int)
    ensures Reached(Wrap(u), (Wrap(t) + ttl) % TWO32) <==> (u - t - ttl) % TWO32 < TWO31
    ensures t <= u ==>
      ((Reached(Wrap(u), (Wrap(t) + ttl) % TWO32) <==> u >= t + ttl) <==>
       if u < t + ttl then t + ttl - u <= TWO31 else (u - t - ttl) % TWO32 < TWO31)
  {
    hide Wrap, Reached;
    WrapOfSum(t, ttl);
    ReachedExactly(u, t + ttl);
  }

  /** So it reads right from the mint until half a turn past its expiry iff its ttl is at most 2^31 s; a longer one counts
      as expired the moment it is minted. */
  lemma {:induction false} ExpiryReadsTrueIff(t: int, ttl: u32)
    ensures (forall u :: t <= u < t + ttl + TWO31 ==> (Reached(Wrap(u), (Wrap(t) + ttl) % TWO32) <==> u >= t + ttl)) <==> ttl <= TWO31
    ensures ttl > TWO31 ==> Reached(Wrap(t), (Wrap(t) + ttl) % TWO32)
  {
    hide Wrap, Reached;
    ExpiryReads(t, ttl, t);
    forall u | t <= u < t + ttl + TWO31 && ttl <= TWO31 ensures Reached(Wrap(u), (Wrap(t) + ttl) % TWO32) <==> u >= t + ttl {
      ExpiryReads(t, ttl, u);
    }
    if ttl > TWO31 { assert t < t + ttl + TWO31 && Reached(Wrap(t), (Wrap(t) + ttl) % TWO32); }
  }

  /** The other failing input: a session nobody swept for half a turn after its expiry reads as live again. */
  lemma {:induction false} SessionRevives(t: int, ttl: u32, u: int)
    requires TWO31 <= u - t - ttl < TWO32
    ensures u >= t + ttl && !Reached(Wrap(u), (Wrap(t) + ttl) % TWO32)
  {
    ExpiryReads(t, ttl, u);
  }
}
