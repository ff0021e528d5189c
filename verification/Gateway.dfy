/** The GATT frame protocol: many producers push, one consumer pops, sends without the lock and
    puts the frame back at the head when the send failed. */
module Gateway {
  import opened Esp
  import opened ModClock
  import FrameQueue

  // ----------------------------------------------------- the protocol on serial numbers

  /** Frames are named by their position in acceptance order; `next` frames were accepted. */
  datatype State = State(cap: nat, next: nat, queue: seq<nat>, flight: Option<nat>,
                         sent: seq<nat>, dropped: seq<nat>, cleared: seq<nat>)

  /** The critical sections, in any interleaving. A step that is not possible changes nothing. */
  datatype Step = Push | Pop | SendOk | SendFail | ServerChange

  function Pushed(s: State): State {
    if s.cap == 0 then s.(next := s.next + 1, dropped := s.dropped + [s.next])
    else if |s.queue| >= s.cap && s.queue != [] then
      s.(next := s.next + 1, queue := s.queue[1..] + [s.next], dropped := s.dropped + [s.queue[0]])
    else s.(next := s.next + 1, queue := s.queue + [s.next])
  }

  function Popped(s: State): State {
    if s.flight.None? && s.queue != [] then s.(flight := Some(s.queue[0]), queue := s.queue[1..]) else s
  }

  function Finished(s: State, ok: bool): State {
    if s.flight.None? then s
    else if ok then s.(flight := None, sent := s.sent + [s.flight.value])
    else if |s.queue| >= s.cap then s.(flight := None, dropped := s.dropped + [s.flight.value])
    else s.(flight := None, queue := [s.flight.value] + s.queue)
  }

  /** A change of server empties the queue; the gateway task does it itself, so never mid-flight. */
  function Emptied(s: State): State {
    if s.flight.None? then s.(queue := [], cleared := s.cleared + s.queue) else s
  }

  function Next(s: State, step: Step): State {
    match step
    case Push => Pushed(s)
    case Pop => Popped(s)
    case SendOk => Finished(s, true)
    case SendFail => Finished(s, false)
    case ServerChange => Emptied(s)
  }

  function Run(s: State, steps: seq<Step>): State
    decreases |steps|
  {
    if steps == [] then s else Run(Next(s, steps[0]), steps[1..])
  }

  /** The oldest frame not yet sent, dropped or cleared. */
  function Front(s: State): int {
    if s.flight.Some? then s.flight.value else s.next - |s.queue|
  }

  /** The queue is the contiguous suffix of the accepted frames. A frame in flight directly
      precedes it, or frames were evicted meanwhile and then the ring is full. */
  ghost predicate Suffix(s: State) {
    && |s.queue| <= s.cap && |s.queue| <= s.next
    && (forall i :: 0 <= i < |s.queue| ==> s.queue[i] == s.next - |s.queue| + i)
    && (s.flight.Some? ==>
          && s.flight.value < s.next - |s.queue|
          && (s.flight.value == s.next - |s.queue| - 1 || |s.queue| == s.cap))
  }

  /** Frames were sent in acceptance order, each at most once, all of them before the front. */
  ghost predicate SentInOrder(s: State) {
    && (forall i, j :: 0 <= i < j < |s.sent| ==> s.sent[i] < s.sent[j])
    && (forall i :: 0 <= i < |s.sent| ==> s.sent[i] < Front(s))
  }

  function Occurrences(q: seq<nat>, k: nat): nat {
    if q == [] then 0 else (if q[0] == k then 1 else 0) + Occurrences(q[1..], k)
  }

  /** In how many places frame `k` is. */
  function Places(s: State, k: nat): nat {
    Occurrences(s.sent, k) + Occurrences(s.queue, k) + (if s.flight == Some(k) then 1 else 0) +
    Occurrences(s.dropped, k) + Occurrences(s.cleared, k)
  }

  /** Each accepted frame is in exactly one place, and the counts add up. */
  ghost predicate Conserved(s: State) {
    && s.next == |s.sent| + |s.queue| + (if s.flight.Some? then 1 else 0) + |s.dropped| + |s.cleared|
    && forall k: nat :: Places(s, k) == if k < s.next then 1 else 0
  }

  ghost predicate Inv(s: State) {
    Suffix(s) && SentInOrder(s) && Conserved(s)
  }

  lemma {:induction false} OccurrencesConcat(q: seq<nat>, r: seq<nat>, k: nat)
    ensures Occurrences(q + r, k) == Occurrences(q, k) + Occurrences(r, k)
    decreases |q|
  {
    if q == [] {
      assert q + r == r;
    } else {
      OccurrencesConcat(q[1..], r, k);
      assert (q + r)[1..] == q[1..] + r;
    }
  }

  lemma {:induction false} Ends(q: seq<nat>, x: nat, k: nat)
    ensures Occurrences(q + [x], k) == Occurrences(q, k) + (if x == k then 1 else 0)
    ensures Occurrences([x] + q, k) == Occurrences(q, k) + (if x == k then 1 else 0)
  {
    OccurrencesConcat(q, [x], k);
    assert ([x] + q)[1..] == q;
  }

  lemma {:induction false} StepMovesOneFrame(s: State, step: Step, k: nat)
    requires |s.queue| <= s.cap
    ensures Places(Next(s, step), k) == Places(s, k) + (if step == Push && k == s.next then 1 else 0)
  {
    match step
    case Push =>
      Ends(s.queue, s.next, k);
      if s.cap == 0 {
        Ends(s.dropped, s.next, k);
      } else if |s.queue| == s.cap {
        Ends(s.queue[1..], s.next, k);
        Ends(s.dropped, s.queue[0], k);
      }
    case Pop =>
    case SendOk => if s.flight.Some? { Ends(s.sent, s.flight.value, k); }
    case SendFail =>
      if s.flight.Some? {
        Ends(s.dropped, s.flight.value, k);
        Ends(s.queue, s.flight.value, k);
      }
    case ServerChange => OccurrencesConcat(s.cleared, s.queue, k);
  }

  lemma {:induction false} StepConserves(s: State, step: Step)
    requires Suffix(s) && Conserved(s)
    ensures Conserved(Next(s, step))
  {
    hide Places;
    forall k: nat
      ensures Places(Next(s, step), k) == if k < Next(s, step).next then 1 else 0
    {
      StepMovesOneFrame(s, step, k);
    }
  }

  lemma {:induction false} StepKeepsInv(s: State, step: Step)
    requires Inv(s)
    ensures Inv(Next(s, step))
  {
    StepConserves(s, step);
    hide Conserved;
  }

  /** In every interleaving: the queue is a contiguous suffix of what was accepted, sends happen in
      acceptance order, and each accepted frame is in exactly one place - sent, queued, in
      flight, dropped or cleared by a server change. */
  lemma {:induction false} EveryRunKeepsInv(cap: nat, steps: seq<Step>)
    ensures Inv(Run(State(cap, 0, [], None, [], [], []), steps))
  {
    BootInv(cap);
    RunKeepsInv(State(cap, 0, [], None, [], [], []), steps);
  }

  lemma {:induction false} BootInv(cap: nat)
    ensures Inv(State(cap, 0, [], None, [], [], []))
  {
  }

  lemma {:induction false} QueueFits(s: State)
    requires Inv(s)
    ensures |s.queue| <= s.cap
  {
  }

  /** A pop followed by a successful send moves the oldest queued frame to the sent ones. */
  lemma {:induction false} OneSent(s: State)
    requires s.flight.None?
    ensures s.queue == [] ==> Next(s, Pop) == s
    ensures s.queue != [] ==> Next(Next(s, Pop), SendOk) == s.(queue := s.queue[1..], sent := s.sent + [s.queue[0]])
  {
  }

  /** From `s` to `e` only queued frames were sent, oldest first. */
  ghost predicate Drained(s: State, e: State) {
    && e == s.(queue := e.queue, sent := e.sent)
    && s.sent + s.queue == e.sent + e.queue
  }

  lemma {:induction false} SentGrows(s: State, step: Step)
    ensures s.sent <= Next(s, step).sent && Next(s, step).cap == s.cap
    ensures |Next(s, step).sent| <= |s.sent| + (if step == SendOk then 1 else 0)
    ensures step == Push ==> Next(s, step).sent == s.sent
  {
  }

  lemma {:induction false} RunKeepsInv(s: State, steps: seq<Step>)
    requires Inv(s)
    ensures Inv(Run(s, steps))
    decreases |steps|
  {
    hide Inv, Next;
    if steps != [] {
      StepKeepsInv(s, steps[0]);
      RunKeepsInv(Next(s, steps[0]), steps[1..]);
    }
  }

  /** An eviction during a flight leaves the ring full, and it stays full until the flight ends,
      so a frame older than one already dropped is never put back in front of newer ones. */
  lemma {:induction false} EvictionKeepsRingFull(s: State, steps: seq<Step>)
    requires Inv(s) && s.flight.Some? && |s.queue| == s.cap
    requires forall i :: 0 <= i < |steps| ==> steps[i] != SendOk && steps[i] != SendFail
    ensures var e := Run(s, steps); e.flight == s.flight && |e.queue| == e.cap == s.cap
    decreases |steps|
  {
    hide Conserved;
    if steps != [] {
      StepKeepsInv(s, steps[0]);
      EvictionKeepsRingFull(Next(s, steps[0]), steps[1..]);
    }
  }

  // ------------------------------------------------------------------ the code itself

  /** The queued frames: the newest accepted ones. */
  function Queued<T>(s: State, accepted: seq<T>): seq<T>
    requires |s.queue| <= s.next == |accepted|
  {
    accepted[s.next - |s.queue|..]
  }

  function Flying<T>(s: State, accepted: seq<T>): Option<T> {
    if s.flight.Some? && s.flight.value < |accepted| then Some(accepted[s.flight.value]) else None
  }

  lemma {:induction false} BootSeen<T>(cap: nat)
    ensures var s := State(cap, 0, [], None, [], [], []);
      Inv(s) && Queued<T>(s, []) == [] && Flying<T>(s, []) == None && Wrap(0) == 0
  {
    BootInv(cap);
  }

  lemma {:induction false} PushSeen<T>(s: State, accepted: seq<T>, frame: T)
    requires Inv(s) && s.next == |accepted|
    ensures var n, a, q := Next(s, Push), accepted + [frame], Queued(s, accepted);
      && Inv(n) && n.next == |a| && n.cap == s.cap && |q| <= s.cap && n.flight == s.flight
      && Flying(n, a) == Flying(s, accepted)
      && Queued(n, a) == (if s.cap == 0 then [] else (if |q| == s.cap then q[1..] else q) + [frame])
      && |n.dropped| == |s.dropped| + (if |q| == s.cap then 1 else 0)
  {
    StepKeepsInv(s, Push);
    hide Conserved, SentInOrder;
  }

  lemma {:induction false} PopSeen<T>(s: State, accepted: seq<T>)
    requires Inv(s) && s.next == |accepted| && s.flight.None?
    ensures var n, q := Next(s, Pop), Queued(s, accepted);
      && Inv(n) && n.next == s.next && n.cap == s.cap && |n.dropped| == |s.dropped| && n.sent == s.sent
      && (q == [] <==> s.queue == [])
      && (q == [] ==> n == s)
      && (q != [] ==> Queued(n, accepted) == q[1..] && n.flight.Some? && Flying(n, accepted) == Some(q[0]))
  {
    StepKeepsInv(s, Pop);
    hide Conserved, SentInOrder;
  }

  lemma {:induction false} EndSeen<T>(s: State, accepted: seq<T>, ok: bool)
    requires Inv(s) && s.next == |accepted| && s.flight.Some?
    ensures var n, q := Next(s, if ok then SendOk else SendFail), Queued(s, accepted);
      && Inv(n) && n.next == s.next && n.cap == s.cap && n.flight.None? && |q| == |s.queue| <= s.cap
      && Flying(s, accepted) == Some(accepted[s.flight.value])
      && Queued(n, accepted) == (if !ok && |q| < s.cap then [accepted[s.flight.value]] + q else q)
      && |n.dropped| == |s.dropped| + (if !ok && |q| == s.cap then 1 else 0)
      && s.sent <= n.sent && |n.sent| <= |s.sent| + 1 && Flying(n, accepted) == None
  {
    StepKeepsInv(s, if ok then SendOk else SendFail);
    hide Conserved, SentInOrder;
  }

  /** What happens around the send of the i-th frame of a drain: whether the task gives up first,
      whether it gets the queue lock, what producers push meanwhile, and whether the send works. */
  datatype Round<T> = Round(stop: bool, granted: bool, pushes: seq<T>, ok: bool)

  /** Nothing interrupts the drain, and every send works. */
  ghost predicate AllWell<T>(rounds: nat -> Round<T>) {
    forall k: nat :: !rounds(k).stop && rounds(k).granted && rounds(k).pushes == [] && rounds(k).ok
  }

  class Gateway<T> {
    const ring: FrameQueue.FrameQueue<T>
    var inflight: nat            // `gq_inflight`
    var txt: Option<T>           // the frame being sent
    var lost: u32                // frames that never reached the queue
    ghost var accepted: seq<T>
    ghost var state: State

    /** The ring holds the queued frames, oldest first, and the counters match the protocol. */
    ghost predicate Coupled()
      reads this, ring, ring.slots
    {
      && ring.Valid() && ring.slots.Length == state.cap && |accepted| == state.next && Inv(state)
      && ring.Contents() == Queued(state, accepted)
      && ring.dropped == Wrap(|state.dropped|)
      && inflight == (if txt.Some? then 1 else 0)
      && txt == Flying(state, accepted) && txt.Some? == state.flight.Some?
    }

    constructor (depth: nat)
      ensures Coupled() && fresh(ring) && fresh(ring.slots)
      ensures state == State(depth, 0, [], None, [], [], []) && accepted == []
    {
      hide Inv, Queued, Flying, Wrap, FrameQueue.FrameQueue.Valid, FrameQueue.FrameQueue.Contents;
      ring := new FrameQueue.FrameQueue<T>(depth);
      inflight, txt, lost := 0, None, 0;
      accepted, state := [], State(depth, 0, [], None, [], [], []);
      new;
      BootSeen<T>(depth);
    }

    /** Hand a frame over. A frame that could not be built, or finds the lock busy, is only counted. */
    method Enqueue(frame: Option<T>, granted: bool)
      requires Coupled()
      modifies this`lost, this`accepted, this`state, ring, ring.slots
      ensures Coupled()
      ensures frame.Some? && granted ==>
        state == Next(old(state), Push) && accepted == old(accepted) + [frame.value] && lost == old(lost)
      ensures frame.None? || !granted ==>
        state == old(state) && accepted == old(accepted) && lost == (old(lost) + 1) % TWO32
    {
      hide Inv, Next, Queued, Flying, FrameQueue.OneMore, Wrap, FrameQueue.FrameQueue.Valid, FrameQueue.FrameQueue.Contents;
      FrameQueue.OneMoreWraps(|state.dropped|);
      if frame.None? || !granted {
        lost := (lost + 1) % TWO32;
        return;
      }
      PushSeen(state, accepted, frame.value);
      var _ := ring.Push(frame.value);
      accepted := accepted + [frame.value];
      state := Next(state, Push);
    }

    /** Take the oldest frame out to send it. */
    method BeginSend() returns (more: bool)
      requires Coupled() && txt.None?
      modifies this`inflight, this`txt, this`state, ring, ring.slots
      ensures Coupled() && state == Next(old(state), Pop) && more == txt.Some?
      ensures more <==> old(state).queue != []
    {
      hide Inv, Next, Queued, Flying, Wrap, FrameQueue.FrameQueue.Valid, FrameQueue.FrameQueue.Contents;
      PopSeen(state, accepted);
      var frame := ring.Pop();
      if frame.Some? { inflight := 1; }
      txt := frame;
      state := Next(state, Pop);
      more := frame.Some?;
    }

    /** The send is over: done with the frame, or back to the head of the queue with it. */
    method EndSend(sent: bool) returns (kept: bool)
      requires Coupled() && txt.Some?
      modifies this`inflight, this`txt, this`state, ring, ring.slots
      ensures Coupled() && txt.None? && state == Next(old(state), if sent then SendOk else SendFail)
      ensures kept <==> sent || |old(state).queue| < state.cap
    {
      hide Inv, Next, Queued, Flying, FrameQueue.OneMore, Wrap, FrameQueue.FrameQueue.Valid, FrameQueue.FrameQueue.Contents;
      EndSeen(state, accepted, sent);
      FrameQueue.OneMoreWraps(|state.dropped|);
      inflight := 0;
      kept := true;
      if !sent {
        kept := ring.Unshift(txt.value);
      }
      txt := None;
      state := Next(state, if sent then SendOk else SendFail);
    }

    /** A new server: the frames queued for the old one go, and count as lost. */
    method ChangeServer()
      requires Coupled() && txt.None?
      modifies this`lost, this`state, ring, ring.slots
      ensures Coupled() && state == Next(old(state), ServerChange) && lost == (old(lost) + |old(state).queue|) % TWO32
    {
      StepKeepsInv(state, ServerChange);
      hide Conserved, SentInOrder;
      lost := (lost + ring.count) % TWO32;
      ring.Clear();
      state := Next(state, ServerChange);
    }

    /** Producers at work while a frame is being sent. */
    method Produce(frames: seq<T>) returns (ghost steps: seq<Step>)
      requires Coupled()
      modifies this`accepted, this`state, this`lost, ring, ring.slots
      ensures Coupled() && state == Run(old(state), steps) && state.cap == old(state).cap && state.sent == old(state).sent
      ensures frames == [] ==> state == old(state)
    {
      hide Inv, Next, Queued, Flying, Wrap, FrameQueue.FrameQueue.Valid, FrameQueue.FrameQueue.Contents;
      steps := [];
      for j := 0 to |frames|
        invariant Coupled() && state == Run(old(state), steps) && state.cap == old(state).cap && state.sent == old(state).sent
        invariant frames == [] ==> state == old(state)
      {
        SentGrows(state, Push);
        RunExtend(old(state), steps, Push);
        Enqueue(Some(frames[j]), true);
        steps := steps + [Push];
      }
    }

    /** `gatt_drain`: up to one queue depth of sends from the front, ended early by a failure, while
        producers push during every send. It is one interleaving of the steps. */
    method Drain(rounds: nat -> Round<T>) returns (ghost steps: seq<Step>)
      requires Coupled() && txt.None?
      modifies this`inflight, this`txt, this`accepted, this`state, this`lost, ring, ring.slots
      ensures Coupled() && txt.None? && state == Run(old(state), steps)
      ensures old(state).sent <= state.sent && |state.sent| - |old(state).sent| <= state.cap
      ensures AllWell(rounds) ==> state == old(state).(queue := [], sent := old(state).sent + old(state).queue)
    {
      hide Inv, Next, Queued, Flying, Wrap, FrameQueue.FrameQueue.Valid, FrameQueue.FrameQueue.Contents;
      QueueFits(state);
      steps := [];
      for i := 0 to ring.slots.Length
        invariant Coupled() && txt.None? && state == Run(old(state), steps) && state.cap == old(state).cap
        invariant old(state).sent <= state.sent && |state.sent| - |old(state).sent| <= i
        invariant AllWell(rounds) ==> Drained(old(state), state) && |state.queue| + i == |old(state).queue|
      {
        ghost var before := state;
        var r := rounds(i);
        if r.stop || !r.granted { return; }
        SentGrows(state, Pop);
        OneSent(state);
        var more := BeginSend();
        RunExtend(old(state), steps, Pop);
        steps := steps + [Pop];
        if !more { return; }
        ghost var pushed := Produce(r.pushes);
        RunJoin(old(state), steps, pushed);
        steps := steps + pushed;
        RunExtend(old(state), steps, if r.ok then SendOk else SendFail);
        SentGrows(state, if r.ok then SendOk else SendFail);
        var _ := EndSend(r.ok);
        steps := steps + [if r.ok then SendOk else SendFail];
        if !r.ok { return; }
      }
    }
  }

  lemma {:induction false} RunExtend(s: State, steps: seq<Step>, step: Step)
    ensures Run(s, steps + [step]) == Next(Run(s, steps), step)
    decreases |steps|
  {
    hide Next;
    if steps == [] {
      assert Run(Next(s, step), []) == Next(s, step);
      assert (steps + [step])[1..] == [];
    } else {
      RunExtend(Next(s, steps[0]), steps[1..], step);
      assert (steps + [step])[1..] == steps[1..] + [step];
    }
  }

  lemma {:induction false} RunJoin(s: State, a: seq<Step>, b: seq<Step>)
    ensures Run(s, a + b) == Run(Run(s, a), b)
    decreases |a|
  {
    hide Next;
    if a == [] {
      assert a + b == b;
    } else {
      RunJoin(Next(s, a[0]), a[1..], b);
      assert (a + b)[1..] == a[1..] + b;
    }
  }

}
