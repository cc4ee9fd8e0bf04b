/** The FastCGI server's request queue: a ring of 64 sockets with a full flag,
    shared by one accepting thread and any number of workers under a mutex and
    a condition variable.  Each lock, test, wait, signal and unlock is a step. */
module RequestQueue {
  import opened Lists

  const MAX_REQUESTS := 64

  // ------------------------------------------------------------------
  // The ring

  datatype Ring = Ring(slots: seq<int>, get: nat, put: nat, full: bool)

  ghost predicate RingOk(r: Ring) {
    && |r.slots| == MAX_REQUESTS
    && r.get < MAX_REQUESTS && r.put < MAX_REQUESTS
    && (r.full ==> r.get == r.put)
  }

  function Length(r: Ring): (n: int) {
    if r.full then MAX_REQUESTS
    else if r.get <= r.put then r.put - r.get
    else r.put - r.get + MAX_REQUESTS
  }

  function Wrap(i: nat): (j: nat) {
    if i >= MAX_REQUESTS then i - MAX_REQUESTS else i
  }

  /** The queue the ring stands for, oldest request first. */
  ghost function Contents(r: Ring): (q: seq<int>)
    requires RingOk(r)
    ensures |q| == Length(r)
    ensures forall i :: 0 <= i < |q| ==> q[i] == r.slots[Wrap(r.get + i)]
  {
    seq(Length(r), i requires 0 <= i < Length(r) => r.slots[Wrap(r.get + i)])
  }

  function Next(i: nat): (j: nat) {
    if i + 1 == MAX_REQUESTS then 0 else i + 1
  }

  function Enqueue(r: Ring, fd: int): (r': Ring)
    requires r.put < |r.slots|
  {
    var put := Next(r.put);
    Ring(r.slots[r.put := fd], r.get, put, r.full || r.get == put)
  }

  function Dequeue(r: Ring): (r': Ring) {
    r.(get := Next(r.get), full := false)
  }

  /** Putting into a ring that is not full appends to the queue. */
  lemma {:induction false} EnqueueAppends(r: Ring, fd: int)
    requires RingOk(r) && !r.full
    ensures RingOk(Enqueue(r, fd)) && Contents(Enqueue(r, fd)) == Contents(r) + [fd]
  {
    var r' := Enqueue(r, fd);
    assert |Contents(r')| == |Contents(r)| + 1;
  }

  /** Taking from a ring that is not empty removes the oldest request. */
  lemma {:induction false} DequeueRemoves(r: Ring)
    requires RingOk(r) && (r.full || r.get != r.put)
    ensures RingOk(Dequeue(r)) && Contents(r) != []
    ensures Contents(r)[0] == r.slots[r.get] && Contents(Dequeue(r)) == Contents(r)[1..]
  {
    var r' := Dequeue(r);
    assert |Contents(r')| == |Contents(r)| - 1;
  }

  /** The two tests of the source read off how many requests are queued. */
  lemma {:induction false} TestsMean(r: Ring)
    requires RingOk(r)
    ensures r.full <==> |Contents(r)| == MAX_REQUESTS
    ensures r.get == r.put && !r.full <==> Contents(r) == []
  {
  }

  /** The ring as it changes in place, inside the mutex. */
  class Requests {
    const accepted: array<int>
    var getIndex: nat
    var putIndex: nat
    var isFull: bool

    ghost function Now(): (r: Ring) reads this, accepted { Ring(accepted[..], getIndex, putIndex, isFull) }

    constructor ()
      ensures RingOk(Now()) && Contents(Now()) == [] && fresh(accepted)
    {
      accepted := new int[MAX_REQUESTS];
      getIndex, putIndex, isFull := 0, 0, false;
    }

    /** Queues a request, or refuses it when 64 are queued. */
    method Add(fd: int) returns (ok: bool)
      requires RingOk(Now())
      modifies this`putIndex, this`isFull, accepted
      ensures RingOk(Now()) && (ok <==> |old(Contents(Now()))| < MAX_REQUESTS)
      ensures Contents(Now()) == if ok then old(Contents(Now())) + [fd] else old(Contents(Now()))
    {
      TestsMean(Now());
      if isFull {
        return false;
      }
      EnqueueAppends(Now(), fd);
      accepted[putIndex] := fd;
      putIndex := putIndex + 1;
      if putIndex == MAX_REQUESTS {
        putIndex := 0;
      }
      if getIndex == putIndex {
        isFull := true;
      }
      assert Now() == Enqueue(old(Now()), fd);
      return true;
    }

    /** Takes the oldest request; None is when the worker goes to sleep. */
    method Take() returns (fd: Option<int>)
      requires RingOk(Now())
      modifies this`getIndex, this`isFull
      ensures RingOk(Now()) && (fd.None? <==> old(Contents(Now())) == [])
      ensures fd.None? ==> Now() == old(Now())
      ensures fd.Some? ==> [fd.value] + Contents(Now()) == old(Contents(Now()))
    {
      TestsMean(Now());
      if getIndex == putIndex && !isFull {
        return None;
      }
      DequeueRemoves(Now());
      fd := Some(accepted[getIndex]);
      getIndex := getIndex + 1;
      if getIndex == MAX_REQUESTS {
        getIndex := 0;
      }
      isFull := false;
      assert Now() == Dequeue(old(Now()));
    }
  }

  // ------------------------------------------------------------------
  // The threads

  datatype Worker = Fetch | Test | Asleep | Woken | Take | Unlock(fd: int) | Serve(fd: int)

  datatype Acceptor = Listen | Want(fd: int) | Check(fd: int) | Reject(fd: int) | Put(fd: int) | Signal | Release

  datatype Holder = Free | ByAcceptor | ByWorker(w: nat)

  datatype State = State(ring: Ring, mutex: Holder, acceptor: Acceptor, workers: seq<Worker>,
                         queued: seq<int>, taken: seq<(nat, int)>, refused: seq<int>)

  /** Arrive: a request is accepted.  LockFails: the mutex call reports an error
      to the acceptor.  Accepts: the acceptor goes on; w names the worker that
      its signal wakes.  Works: worker w goes on.  Spurious: worker w wakes
      without a signal. */
  datatype Action = Arrive(fd: int) | LockFails | Accepts(w: nat) | Works(w: nat) | Spurious(w: nat)

  function Init(slots: seq<int>, workers: nat): (s: State) {
    State(Ring(slots, 0, 0, false), Free, Listen, seq(workers, _ => Fetch), [], [], [])
  }

  function AcceptorStep(s: State, w: nat): (r: Option<State>) {
    match s.acceptor
    case Listen => None
    case Want(fd) => if s.mutex == Free then Some(s.(mutex := ByAcceptor, acceptor := Check(fd))) else None
    case Check(fd) => Some(s.(acceptor := if s.ring.full then Reject(fd) else Put(fd)))
    case Reject(fd) => Some(s.(mutex := Free, acceptor := Listen, refused := s.refused + [fd]))
    case Put(fd) =>
      if s.ring.put >= |s.ring.slots| then None
      else Some(s.(ring := Enqueue(s.ring, fd), acceptor := Signal, queued := s.queued + [fd]))
    case Signal =>
      if w < |s.workers| && s.workers[w] == Asleep then
        Some(s.(acceptor := Release, workers := s.workers[w := Woken]))
      else if Asleep in s.workers then None
      else Some(s.(acceptor := Release))
    case Release => Some(s.(mutex := Free, acceptor := Listen))
  }

  function WorkerStep(s: State, w: nat): (r: Option<State>)
    requires w < |s.workers|
  {
    var at := (p: Worker) => s.(workers := s.workers[w := p]);
    match s.workers[w]
    case Fetch => if s.mutex == Free then Some(at(Test).(mutex := ByWorker(w))) else None
    case Test =>
      if s.ring.get == s.ring.put && !s.ring.full then Some(at(Asleep).(mutex := Free)) else Some(at(Take))
    case Asleep => None
    case Woken => if s.mutex == Free then Some(at(Test).(mutex := ByWorker(w))) else None
    case Take =>
      if s.ring.get >= |s.ring.slots| then None
      else
        var fd := s.ring.slots[s.ring.get];
        Some(at(Unlock(fd)).(ring := Dequeue(s.ring), taken := s.taken + [(w, fd)]))
    case Unlock(fd) => Some(at(Serve(fd)).(mutex := Free))
    case Serve(fd) => Some(at(Fetch))
  }

  function Step(s: State, a: Action): (r: Option<State>) {
    match a
    case Arrive(fd) => if s.acceptor == Listen then Some(s.(acceptor := Want(fd))) else None
    case LockFails =>
      if s.acceptor.Want? then Some(s.(acceptor := Listen, refused := s.refused + [s.acceptor.fd])) else None
    case Accepts(w) => AcceptorStep(s, w)
    case Works(w) => if w < |s.workers| then WorkerStep(s, w) else None
    case Spurious(w) =>
      if w < |s.workers| && s.workers[w] == Asleep then Some(s.(workers := s.workers[w := Woken])) else None
  }

  function Run(s: State, actions: seq<Action>): (r: Option<State>)
    decreases |actions|
  {
    if actions == [] then Some(s)
    else
      var s' := Step(s, actions[0]);
      if s'.None? then None else Run(s'.value, actions[1..])
  }

  // ------------------------------------------------------------------
  // What every step keeps

  function Awake(ws: seq<Worker>): (n: nat)
    ensures n <= |ws|
  {
    if ws == [] then 0 else (if ws[0] == Asleep then 0 else 1) + Awake(ws[1..])
  }

  lemma {:induction false} AwakeUpdate(ws: seq<Worker>, w: nat, p: Worker)
    requires w < |ws|
    ensures Awake(ws[w := p]) == Awake(ws) - (if ws[w] == Asleep then 0 else 1) + (if p == Asleep then 0 else 1)
  {
    if w == 0 {
      assert ws[w := p][1..] == ws[1..];
    } else {
      assert ws[w := p][1..] == ws[1..][w - 1 := p];
      AwakeUpdate(ws[1..], w - 1, p);
    }
  }

  lemma {:induction false} AwakeAll(ws: seq<Worker>)
    ensures Awake(ws) == |ws| <==> Asleep !in ws
  {
    if ws != [] {
      AwakeAll(ws[1..]);
    }
  }

  predicate WorkerHolds(p: Worker) { p.Test? || p.Take? || p.Unlock? }
  predicate AcceptorHolds(p: Acceptor) { !p.Listen? && !p.Want? }

  /** The mutex is held by exactly the thread that stands between lock and unlock. */
  ghost predicate Locked(s: State) {
    && (AcceptorHolds(s.acceptor) <==> s.mutex == ByAcceptor)
    && (forall w :: 0 <= w < |s.workers| ==> (WorkerHolds(s.workers[w]) <==> s.mutex == ByWorker(w)))
    && (s.mutex.ByWorker? ==> s.mutex.w < |s.workers|)
  }

  ghost function Fds(taken: seq<(nat, int)>): (r: seq<int>)
    ensures |r| == |taken| && forall i :: 0 <= i < |r| ==> r[i] == taken[i].1
  {
    seq(|taken|, i requires 0 <= i < |taken| => taken[i].1)
  }

  /** One more request than the awake workers may stand in the queue only while
      its signal is still to come, or when no worker is asleep. */
  ghost predicate Roused(s: State)
    requires RingOk(s.ring)
  {
    |Contents(s.ring)| <= Awake(s.workers) + (if s.acceptor.Signal? then 1 else 0) || Awake(s.workers) == |s.workers|
  }

  ghost predicate Inv(s: State) {
    && RingOk(s.ring)
    && Locked(s)
    && s.queued == Fds(s.taken) + Contents(s.ring)
    && (s.acceptor.Put? ==> !s.ring.full)
    && (s.acceptor.Reject? ==> s.ring.full)
    && (forall w :: 0 <= w < |s.workers| && s.workers[w].Take? ==> s.ring.full || s.ring.get != s.ring.put)
    && Roused(s)
  }

  lemma {:induction false} InitInv(slots: seq<int>, workers: nat)
    requires |slots| == MAX_REQUESTS
    ensures Inv(Init(slots, workers))
  {
  }

  lemma {:induction false} AcceptorInv(s: State, w: nat, s': State)
    requires Inv(s) && AcceptorStep(s, w) == Some(s')
    ensures Inv(s')
  {
    if s.acceptor.Put? {
      EnqueueAppends(s.ring, s.acceptor.fd);
    } else if s.acceptor.Signal? {
      AwakeAll(s.workers);
      if w < |s.workers| && s.workers[w] == Asleep {
        AwakeUpdate(s.workers, w, Woken);
      }
    }
  }

  lemma {:induction false} TakeInv(s: State, w: nat, s': State)
    requires Inv(s) && w < |s.workers| && s.workers[w].Take? && WorkerStep(s, w) == Some(s')
    ensures Inv(s') && Contents(s.ring) != [] && s'.taken == s.taken + [(w, Contents(s.ring)[0])]
  {
    DequeueRemoves(s.ring);
    AwakeUpdate(s.workers, w, s'.workers[w]);
    assert s'.workers == s.workers[w := s'.workers[w]];
    assert Fds(s'.taken) == Fds(s.taken) + [Contents(s.ring)[0]];
  }

  lemma {:induction false} WorkerInv(s: State, w: nat, s': State)
    requires Inv(s) && w < |s.workers| && !s.workers[w].Take? && WorkerStep(s, w) == Some(s')
    ensures Inv(s')
  {
    AwakeUpdate(s.workers, w, s'.workers[w]);
    assert s'.workers == s.workers[w := s'.workers[w]];
    TestsMean(s.ring);
  }

  /** Every step keeps the invariant. */
  lemma {:induction false} StepInv(s: State, a: Action, s': State)
    requires Inv(s) && Step(s, a) == Some(s')
    ensures Inv(s') && |s'.workers| == |s.workers|
  {
    hide Contents, Awake;
    match a {
      case Accepts(w) => AcceptorInv(s, w, s');
      case Works(w) => if s.workers[w].Take? { TakeInv(s, w, s'); } else { WorkerInv(s, w, s'); }
      case Spurious(w) => AwakeUpdate(s.workers, w, Woken);
      case _ =>
    }
  }

  lemma {:induction false} RunInv(s: State, actions: seq<Action>)
    requires Inv(s) && Run(s, actions).Some?
    ensures Inv(Run(s, actions).value) && |Run(s, actions).value.workers| == |s.workers|
    decreases |actions|
  {
    if actions != [] {
      StepInv(s, actions[0], Step(s, actions[0]).value);
      RunInv(Step(s, actions[0]).value, actions[1..]);
    }
  }

  /** In every run, for any number of workers: the sockets taken, by whichever
      workers, are in order a prefix of the sockets queued, and the rest are in
      the ring, at most 64 of them. */
  lemma {:induction false} EveryRunIsFifo(slots: seq<int>, workers: nat, actions: seq<Action>)
    requires |slots| == MAX_REQUESTS && Run(Init(slots, workers), actions).Some?
    ensures var s := Run(Init(slots, workers), actions).value;
            && RingOk(s.ring)
            && s.queued == Fds(s.taken) + Contents(s.ring)
            && |Contents(s.ring)| <= MAX_REQUESTS
  {
    InitInv(slots, workers);
    RunInv(Init(slots, workers), actions);
  }

  /** The acceptor has the socket in hand. */
  predicate InHand(p: Acceptor, fd: int) { (p.Want? || p.Check? || p.Reject? || p.Put?) && p.fd == fd }

  function Arrived(actions: seq<Action>, fd: int): (n: nat) {
    if actions == [] then 0 else OneIf(actions[0] == Arrive(fd)) + Arrived(actions[1..], fd)
  }

  /** How often the socket was queued, was refused, or is in hand. */
  function Handled(s: State, fd: int): (n: nat) {
    Occurs(s.queued, fd) + Occurs(s.refused, fd) + OneIf(InHand(s.acceptor, fd))
  }

  lemma {:induction false} StepSockets(s: State, a: Action, s': State, fd: int)
    requires Step(s, a) == Some(s')
    ensures Handled(s', fd) == Handled(s, fd) + OneIf(a == Arrive(fd))
  {
    hide Occurs;
    if s.acceptor.Want? || s.acceptor.Reject? || s.acceptor.Put? {
      OccursPush(s.queued, s.acceptor.fd, fd);
      OccursPush(s.refused, s.acceptor.fd, fd);
    }
  }

  lemma {:induction false} RunSockets(s: State, actions: seq<Action>, fd: int)
    requires Run(s, actions).Some?
    ensures Handled(Run(s, actions).value, fd) == Handled(s, fd) + Arrived(actions, fd)
    decreases |actions|
  {
    hide Step, Handled;
    if actions != [] {
      StepSockets(s, actions[0], Step(s, actions[0]).value, fd);
      RunSockets(Step(s, actions[0]).value, actions[1..], fd);
    }
  }

  /** In every run each request that arrived has been queued, has been refused, or
      is in the acceptor's hands. */
  lemma {:induction false} EveryRequest(slots: seq<int>, workers: nat, actions: seq<Action>, fd: int)
    requires Run(Init(slots, workers), actions).Some?
    ensures var s := Run(Init(slots, workers), actions).value;
            Occurs(s.queued, fd) + Occurs(s.refused, fd) + OneIf(InHand(s.acceptor, fd)) == Arrived(actions, fd)
  {
    RunSockets(Init(slots, workers), actions, fd);
  }

  /** The socket that the worker took last. */
  function LastTaken(taken: seq<(nat, int)>, w: nat): (fd: Option<int>) {
    if taken == [] then None
    else if taken[|taken| - 1].0 == w then Some(taken[|taken| - 1].1)
    else LastTaken(taken[..|taken| - 1], w)
  }

  lemma {:induction false} TakenLast(taken: seq<(nat, int)>, v: nat, fd: int, w: nat)
    ensures LastTaken(taken + [(v, fd)], w) == if w == v then Some(fd) else LastTaken(taken, w)
  {
    assert (taken + [(v, fd)])[..|taken|] == taken;
  }

  /** A worker serves the socket that it took. */
  ghost predicate ServesOwn(s: State) {
    forall w :: 0 <= w < |s.workers| && (s.workers[w].Unlock? || s.workers[w].Serve?) ==>
      LastTaken(s.taken, w) == Some(s.workers[w].fd)
  }

  lemma {:induction false} StepServes(s: State, a: Action, s': State)
    requires Step(s, a) == Some(s') && ServesOwn(s)
    ensures ServesOwn(s')
  {
    hide LastTaken;
    if a.Works? && s.workers[a.w].Take? {
      forall w: nat ensures LastTaken(s'.taken, w)
                            == if w == a.w then Some(s'.workers[a.w].fd) else LastTaken(s.taken, w) {
        TakenLast(s.taken, a.w, s.ring.slots[s.ring.get], w);
      }
    }
  }

  /** In every run each worker serves the socket that it took last. */
  lemma {:induction false} EveryServe(s: State, actions: seq<Action>)
    requires Run(s, actions).Some? && ServesOwn(s)
    ensures ServesOwn(Run(s, actions).value)
    decreases |actions|
  {
    hide Step, ServesOwn;
    if actions != [] {
      StepServes(s, actions[0], Step(s, actions[0]).value);
      EveryServe(Step(s, actions[0]).value, actions[1..]);
    }
  }

  /** A request that gets the lock is refused exactly when 64 are queued. */
  lemma {:induction false} RefusedOnlyWhenFull(s: State, w: nat, s': State)
    requires Inv(s) && s.acceptor.Check? && AcceptorStep(s, w) == Some(s')
    ensures s'.acceptor.Reject? <==> |Contents(s.ring)| == MAX_REQUESTS
    ensures s'.acceptor.Put? <==> |Contents(s.ring)| < MAX_REQUESTS
  {
    TestsMean(s.ring);
  }

  /** No wakeup is lost: unless a signal is just about to be given, as many
      workers are awake as there are requests queued, or all of them are. */
  lemma {:induction false} NoLostWakeup(slots: seq<int>, workers: nat, actions: seq<Action>)
    requires |slots| == MAX_REQUESTS && Run(Init(slots, workers), actions).Some?
    ensures var s := Run(Init(slots, workers), actions).value;
            && RingOk(s.ring)
            && (!s.acceptor.Signal? ==>
                  Awake(s.workers) >= if |Contents(s.ring)| <= workers then |Contents(s.ring)| else workers)
  {
    InitInv(slots, workers);
    RunInv(Init(slots, workers), actions);
  }

  ghost predicate Quiet(s: State) {
    && (forall w: nat :: AcceptorStep(s, w).None?)
    && (forall w :: 0 <= w < |s.workers| ==> WorkerStep(s, w).None?)
  }

  /** When no thread can go on by itself, the acceptor listens, every worker is
      asleep, and the queue is empty if there is a worker at all. */
  lemma {:induction false} QuietMeansServed(s: State)
    requires Inv(s) && Quiet(s)
    ensures s.acceptor == Listen
    ensures forall w :: 0 <= w < |s.workers| ==> s.workers[w] == Asleep
    ensures |s.workers| > 0 ==> Contents(s.ring) == []
  {
    QuietAcceptor(s);
    forall w | 0 <= w < |s.workers| ensures s.workers[w] == Asleep {
      assert WorkerStep(s, w).None?;
    }
    AllAsleep(s.workers);
  }

  lemma {:induction false} QuietAcceptor(s: State)
    requires Inv(s) && Quiet(s)
    ensures s.acceptor == Listen && s.mutex == Free
  {
    forall w | 0 <= w < |s.workers| ensures !WorkerHolds(s.workers[w]) {
      assert WorkerStep(s, w).None?;
    }
    if Asleep in s.workers {
      var w := IndexOf(s.workers, Asleep);
      assert AcceptorStep(s, w).None?;
    }
    assert AcceptorStep(s, 0).None?;
  }

  lemma {:induction false} AllAsleep(ws: seq<Worker>)
    requires forall w :: 0 <= w < |ws| ==> ws[w] == Asleep
    ensures Awake(ws) == 0
  {
    if ws != [] {
      AllAsleep(ws[1..]);
    }
  }
}
