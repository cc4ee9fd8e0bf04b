/** The semaphore-guarded buffer of the threaded server, for any number of
    threads: every semaphore operation and every access to the buffer is one
    step of one thread, and a schedule interleaves the steps at will. */
module BoundedBuffer {
  import opened Lists

  /** Where a thread is inside sbuf_insert or sbuf_remove. */
  datatype Pc =
    | Idle
    | InsSlot(item: int) | InsLock(item: int) | InsBump(item: int)
    | InsStore(item: int) | InsUnlock(item: int) | InsPost(item: int)
    | RemItem | RemLock | RemBump | RemLoad | RemUnlock(item: int) | RemPost(item: int)

  /** The shared buffer, its three semaphores, the threads, and as history the
      items stored and the items taken so far. */
  datatype State = State(n: nat, buf: seq<int>, front: int, rear: int, mutex: int, slots: int, items: int,
                         pc: seq<Pc>, inserted: seq<int>, removed: seq<int>)

  /** An idle thread begins one of the two calls; a busy one goes on. */
  datatype Action = Insert(item: int) | Remove | Go

  function Init(n: nat, threads: nat): (s: State) {
    State(n, seq(n, _ => 0), 0, 0, 1, n, 0, seq(threads, _ => Idle), [], [])
  }

  /** One step of thread t; None when the thread is blocked on a semaphore. */
  function Step(s: State, t: nat, a: Action): (r: Option<State>)
    requires t < |s.pc|
  {
    var at := (p: Pc) => s.(pc := s.pc[t := p]);
    match s.pc[t]
    case Idle => (match a case Insert(x) => Some(at(InsSlot(x))) case Remove => Some(at(RemItem)) case Go => None)
    case InsSlot(x) => if s.slots > 0 then Some(at(InsLock(x)).(slots := s.slots - 1)) else None
    case InsLock(x) => if s.mutex > 0 then Some(at(InsBump(x)).(mutex := s.mutex - 1)) else None
    case InsBump(x) => Some(at(InsStore(x)).(rear := s.rear + 1))
    case InsStore(x) =>
      if s.n == 0 || |s.buf| != s.n then None
      else Some(at(InsUnlock(x)).(buf := s.buf[s.rear % s.n := x], inserted := s.inserted + [x]))
    case InsUnlock(x) => Some(at(InsPost(x)).(mutex := s.mutex + 1))
    case InsPost(x) => Some(at(Idle).(items := s.items + 1))
    case RemItem => if s.items > 0 then Some(at(RemLock).(items := s.items - 1)) else None
    case RemLock => if s.mutex > 0 then Some(at(RemBump).(mutex := s.mutex - 1)) else None
    case RemBump => Some(at(RemLoad).(front := s.front + 1))
    case RemLoad =>
      if s.n == 0 || |s.buf| != s.n then None
      else
        var x := s.buf[s.front % s.n];
        Some(at(RemUnlock(x)).(removed := s.removed + [x]))
    case RemUnlock(x) => Some(at(RemPost(x)).(mutex := s.mutex + 1))
    case RemPost(x) => Some(at(Idle).(slots := s.slots + 1))
  }

  function Run(s: State, schedule: seq<(nat, Action)>): (r: Option<State>)
    decreases |schedule|
  {
    if schedule == [] then Some(s)
    else if schedule[0].0 >= |s.pc| then None
    else
      var s' := Step(s, schedule[0].0, schedule[0].1);
      if s'.None? then None else Run(s'.value, schedule[1..])
  }

  // ------------------------------------------------------------------
  // Counting threads

  function Count(pc: seq<Pc>, f: Pc -> bool): (k: nat)
    ensures k <= |pc|
  {
    if pc == [] then 0 else OneIf(f(pc[0])) + Count(pc[1..], f)
  }

  lemma {:induction false} CountUpdate(pc: seq<Pc>, t: nat, p: Pc, f: Pc -> bool)
    requires t < |pc|
    ensures Count(pc[t := p], f) == Count(pc, f) - OneIf(f(pc[t])) + OneIf(f(p))
  {
    if t == 0 {
      assert pc[t := p][1..] == pc[1..];
    } else {
      assert pc[t := p][1..] == pc[1..][t - 1 := p];
      CountUpdate(pc[1..], t - 1, p, f);
    }
  }

  lemma {:induction false} CountPositive(pc: seq<Pc>, t: nat, f: Pc -> bool)
    requires t < |pc| && f(pc[t])
    ensures Count(pc, f) >= 1
  {
    if t > 0 {
      CountPositive(pc[1..], t - 1, f);
    }
  }

  lemma {:induction false} CountTwo(pc: seq<Pc>, t: nat, u: nat, f: Pc -> bool)
    requires t < u < |pc| && f(pc[t]) && f(pc[u])
    ensures Count(pc, f) >= 2
  {
    if t > 0 {
      CountTwo(pc[1..], t - 1, u - 1, f);
    } else {
      CountPositive(pc[1..], u - 1, f);
    }
  }

  lemma {:induction false} CountNone(pc: seq<Pc>, f: Pc -> bool)
    requires forall t :: 0 <= t < |pc| ==> !f(pc[t])
    ensures Count(pc, f) == 0
  {
    if pc != [] {
      CountNone(pc[1..], f);
    }
  }

  // Classes of threads, by what they hold.
  predicate Inside(p: Pc) { p.InsBump? || p.InsStore? || p.InsUnlock? || p.RemBump? || p.RemLoad? || p.RemUnlock? }
  predicate HoldsSlot(p: Pc) { p.InsLock? || p.InsBump? || p.RemLoad? || p.RemUnlock? || p.RemPost? }
  predicate HoldsItem(p: Pc) { p.RemLock? || p.RemBump? || p.InsStore? || p.InsUnlock? || p.InsPost? }
  predicate Storing(p: Pc) { p.InsStore? }
  predicate Loading(p: Pc) { p.RemLoad? }

  ghost predicate Inv(s: State) {
    && |s.buf| == s.n
    && s.mutex >= 0 && s.slots >= 0 && s.items >= 0
    && s.mutex + Count(s.pc, Inside) == 1
    && s.n - (s.rear - s.front) == s.slots + Count(s.pc, HoldsSlot)
    && s.rear - s.front == s.items + Count(s.pc, HoldsItem)
    && |s.inserted| == s.rear - Count(s.pc, Storing)
    && |s.removed| == s.front - Count(s.pc, Loading)
    && s.removed <= s.inserted
    && Holds(s.n, s.buf, s.inserted, |s.removed|)
  }

  /** Every item from position done on is in its slot of the buffer. */
  ghost predicate Holds(n: nat, buf: seq<int>, inserted: seq<int>, done: nat)
    requires |buf| == n
  {
    forall k :: done <= k < |inserted| ==> n > 0 && buf[(k + 1) % n] == inserted[k]
  }

  lemma {:induction false} InitInv(n: nat, threads: nat)
    ensures Inv(Init(n, threads))
  {
    var s := Init(n, threads);
    CountNone(s.pc, Inside);
    CountNone(s.pc, HoldsSlot);
    CountNone(s.pc, HoldsItem);
    CountNone(s.pc, Storing);
    CountNone(s.pc, Loading);
  }

  lemma {:induction false} CountsMove(pc: seq<Pc>, t: nat, p: Pc)
    requires t < |pc|
    ensures Count(pc[t := p], Inside) == Count(pc, Inside) - OneIf(Inside(pc[t])) + OneIf(Inside(p))
    ensures Count(pc[t := p], HoldsSlot) == Count(pc, HoldsSlot) - OneIf(HoldsSlot(pc[t])) + OneIf(HoldsSlot(p))
    ensures Count(pc[t := p], HoldsItem) == Count(pc, HoldsItem) - OneIf(HoldsItem(pc[t])) + OneIf(HoldsItem(p))
    ensures Count(pc[t := p], Storing) == Count(pc, Storing) - OneIf(Storing(pc[t])) + OneIf(Storing(p))
    ensures Count(pc[t := p], Loading) == Count(pc, Loading) - OneIf(Loading(pc[t])) + OneIf(Loading(p))
  {
    CountUpdate(pc, t, p, Inside);
    CountUpdate(pc, t, p, HoldsSlot);
    CountUpdate(pc, t, p, HoldsItem);
    CountUpdate(pc, t, p, Storing);
    CountUpdate(pc, t, p, Loading);
  }

  lemma {:induction false} CountSub(pc: seq<Pc>)
    ensures Count(pc, Storing) + Count(pc, Loading) <= Count(pc, Inside)
    ensures Count(pc, Storing) <= Count(pc, HoldsItem)
    ensures Count(pc, Loading) <= Count(pc, HoldsSlot)
  {
    if pc != [] {
      CountSub(pc[1..]);
    }
  }

  /** Distinct places less than n apart fall into distinct slots. */
  lemma {:induction false} SlotsDiffer(a: int, b: int, n: nat)
    requires 0 < b - a < n
    ensures a % n != b % n
  {
    var d := b / n - a / n;
    assert b - a == n * d + (b % n - a % n);
    if d >= 1 {
      assert n * d >= n;
    } else {
      assert n * d <= 0;
    }
  }

  /** Nothing unread is overwritten: the slot about to be filled is not that of
      any item still to be taken. */
  lemma {:induction false} StoreIsFree(s: State, t: nat, k: nat)
    requires Inv(s) && t < |s.pc| && s.pc[t].InsStore? && |s.removed| <= k < |s.inserted|
    ensures s.n > 0 && (k + 1) % s.n != s.rear % s.n
  {
    CountPositive(s.pc, t, Storing);
    CountSub(s.pc);
    SlotsDiffer(k + 1, s.rear, s.n);
  }

  lemma {:induction false} StoreInv(s: State, t: nat, s': State)
    requires Inv(s) && t < |s.pc| && s.pc[t].InsStore? && Step(s, t, Go) == Some(s')
    ensures Inv(s')
  {
    CountPositive(s.pc, t, Storing);
    CountSub(s.pc);
    CountsMove(s.pc, t, InsUnlock(s.pc[t].item));
    assert s.rear == |s.inserted| + 1;
    forall k | |s'.removed| <= k < |s'.inserted| ensures s'.buf[(k + 1) % s.n] == s'.inserted[k] {
      if k < |s.inserted| {
        StoreIsFree(s, t, k);
      }
    }
  }

  lemma {:induction false} LoadInv(s: State, t: nat, s': State)
    requires Inv(s) && t < |s.pc| && s.pc[t].RemLoad? && Step(s, t, Go) == Some(s')
    ensures Inv(s')
    ensures |s.removed| < |s.inserted| && s'.removed == s.removed + [s.inserted[|s.removed|]]
  {
    CountPositive(s.pc, t, Loading);
    CountSub(s.pc);
    assert s.front == |s.removed| + 1 && s.front <= |s.inserted|;
    CountsMove(s.pc, t, RemUnlock(s.buf[s.front % s.n]));
  }

  predicate Inserting(p: Pc) { p.InsSlot? || p.InsLock? || p.InsBump? || p.InsUnlock? || p.InsPost? }

  lemma {:induction false} InsertInv(s: State, t: nat, a: Action, s': State)
    requires Inv(s) && t < |s.pc| && Inserting(s.pc[t]) && Step(s, t, a) == Some(s')
    ensures Inv(s')
  {
    hide Count, Holds;
    assert s'.pc == s.pc[t := s'.pc[t]];
    CountsMove(s.pc, t, s'.pc[t]);
  }

  lemma {:induction false} RemoveInv(s: State, t: nat, a: Action, s': State)
    requires Inv(s) && t < |s.pc| && !Inserting(s.pc[t]) && !s.pc[t].InsStore? && !s.pc[t].RemLoad?
    requires Step(s, t, a) == Some(s')
    ensures Inv(s')
  {
    hide Count, Holds;
    assert s'.pc == s.pc[t := s'.pc[t]];
    CountsMove(s.pc, t, s'.pc[t]);
  }

  /** Every step of every thread keeps the invariant. */
  lemma {:induction false} StepInv(s: State, t: nat, a: Action, s': State)
    requires Inv(s) && t < |s.pc| && Step(s, t, a) == Some(s')
    ensures Inv(s') && s'.n == s.n && |s'.pc| == |s.pc|
  {
    hide Inv;
    if s.pc[t].InsStore? {
      StoreInv(s, t, s');
    } else if s.pc[t].RemLoad? {
      LoadInv(s, t, s');
    } else if Inserting(s.pc[t]) {
      InsertInv(s, t, a, s');
    } else {
      RemoveInv(s, t, a, s');
    }
  }

  /** Over every schedule the invariant holds. */
  lemma {:induction false} RunInv(s: State, schedule: seq<(nat, Action)>)
    requires Inv(s) && Run(s, schedule).Some?
    ensures Inv(Run(s, schedule).value) && Run(s, schedule).value.n == s.n
    decreases |schedule|
  {
    if schedule != [] {
      var s' := Step(s, schedule[0].0, schedule[0].1).value;
      StepInv(s, schedule[0].0, schedule[0].1, s');
      RunInv(s', schedule[1..]);
    }
  }

  /** For any number of threads and every schedule: the buffer never holds less
      than nothing or more than n, the items taken are a prefix of the items
      stored, and two threads are never inside the critical section. */
  lemma {:induction false} EverySchedule(n: nat, threads: nat, schedule: seq<(nat, Action)>)
    requires Run(Init(n, threads), schedule).Some?
    ensures var s := Run(Init(n, threads), schedule).value;
            && 0 <= s.rear - s.front <= n
            && s.removed <= s.inserted
            && |s.inserted| - |s.removed| <= n
            && (forall t, u :: 0 <= t < u < |s.pc| ==> !(Inside(s.pc[t]) && Inside(s.pc[u])))
  {
    InitInv(n, threads);
    RunInv(Init(n, threads), schedule);
    var s := Run(Init(n, threads), schedule).value;
    CountSub(s.pc);
    forall t, u | 0 <= t < u < |s.pc| ensures !(Inside(s.pc[t]) && Inside(s.pc[u])) {
      if Inside(s.pc[t]) && Inside(s.pc[u]) {
        CountTwo(s.pc, t, u, Inside);
      }
    }
  }

  // ------------------------------------------------------------------
  // No item is made up, lost or changed

  /** The thread is inside an insert of x and has still to store it. */
  predicate StoresItem(p: Pc, x: int) { (p.InsSlot? || p.InsLock? || p.InsBump? || p.InsStore?) && p.item == x }

  /** The thread is inside a remove and has x to return. */
  predicate ReturnsItem(p: Pc, x: int) { (p.RemUnlock? || p.RemPost?) && p.item == x }

  function ToStore(x: int): (f: Pc -> bool) { p => StoresItem(p, x) }

  function ToReturn(x: int): (f: Pc -> bool) { p => ReturnsItem(p, x) }

  /** How often calls of insert begin with x in the schedule, and calls of remove return it. */
  function Begun(s: State, schedule: seq<(nat, Action)>, x: int): (n: nat)
    requires Run(s, schedule).Some?
    decreases |schedule|
  {
    if schedule == [] then 0
    else
      var (t, a) := schedule[0];
      OneIf(s.pc[t].Idle? && a == Insert(x)) + Begun(Step(s, t, a).value, schedule[1..], x)
  }

  function Returned(s: State, schedule: seq<(nat, Action)>, x: int): (n: nat)
    requires Run(s, schedule).Some?
    decreases |schedule|
  {
    if schedule == [] then 0
    else
      var (t, a) := schedule[0];
      OneIf(s.pc[t] == RemPost(x)) + Returned(Step(s, t, a).value, schedule[1..], x)
  }

  lemma {:induction false} StepItems(s: State, t: nat, a: Action, s': State, x: int)
    requires t < |s.pc| && Step(s, t, a) == Some(s')
    ensures Occurs(s'.inserted, x) + Count(s'.pc, ToStore(x))
            == Occurs(s.inserted, x) + Count(s.pc, ToStore(x)) + OneIf(s.pc[t].Idle? && a == Insert(x))
    ensures Occurs(s'.removed, x) + Count(s.pc, ToReturn(x))
            == Occurs(s.removed, x) + Count(s'.pc, ToReturn(x)) + OneIf(s.pc[t] == RemPost(x))
  {
    hide Count, Occurs;
    var p, q := s.pc[t], s'.pc[t];
    assert s'.pc == s.pc[t := q];
    CountUpdate(s.pc, t, q, ToStore(x));
    CountUpdate(s.pc, t, q, ToReturn(x));
    if p.InsStore? {
      OccursPush(s.inserted, p.item, x);
    } else if p.RemLoad? {
      OccursPush(s.removed, q.item, x);
    }
  }

  lemma {:induction false} RunItems(s: State, schedule: seq<(nat, Action)>, x: int)
    requires Run(s, schedule).Some?
    ensures var s' := Run(s, schedule).value;
            && Occurs(s'.inserted, x) + Count(s'.pc, ToStore(x))
               == Occurs(s.inserted, x) + Count(s.pc, ToStore(x)) + Begun(s, schedule, x)
            && Occurs(s'.removed, x) + Count(s.pc, ToReturn(x))
               == Occurs(s.removed, x) + Count(s'.pc, ToReturn(x)) + Returned(s, schedule, x)
    decreases |schedule|
  {
    hide Count, Occurs, Step;
    if schedule != [] {
      var (t, a) := schedule[0];
      StepItems(s, t, a, Step(s, t, a).value, x);
      RunItems(Step(s, t, a).value, schedule[1..], x);
    }
  }

  /** For every schedule and every item: it has been stored as often as inserts
      began with it, save those that still have it in hand, and has been taken out
      as often as removes returned it or still have it in hand. */
  lemma {:induction false} EveryItem(n: nat, threads: nat, schedule: seq<(nat, Action)>, x: int)
    requires Run(Init(n, threads), schedule).Some?
    ensures var s := Run(Init(n, threads), schedule).value;
            && Occurs(s.inserted, x) + Count(s.pc, ToStore(x)) == Begun(Init(n, threads), schedule, x)
            && Occurs(s.removed, x) == Count(s.pc, ToReturn(x)) + Returned(Init(n, threads), schedule, x)
  {
    hide Run;
    var s0 := Init(n, threads);
    RunItems(s0, schedule, x);
    CountNone(s0.pc, ToStore(x));
    CountNone(s0.pc, ToReturn(x));
  }

  // ------------------------------------------------------------------
  // The counters are C ints

  const INT_MAX := 0x7fff_ffff

  /** A counter that has been raised to r, in an int that wraps around. */
  function Wrapped(r: nat): (w: int) {
    var m := r % 0x1_0000_0000;
    if m <= INT_MAX then m else m - 0x1_0000_0000
  }

  /** The remainder of C, which has the sign of its left operand. */
  function CRemainder(a: int, n: nat): (k: int)
    requires n > 0
  {
    if a >= 0 then a % n else -((-a) % n)
  }

  /** The slot that a counter picks is right. */
  predicate SlotRight(r: nat, n: nat)
    requires n > 0
  {
    CRemainder(Wrapped(r), n) == r % n
  }

  /** The counters pick the right slots all the way up to top exactly when top
      is an int, or one past it with a number of slots that divides 2^31, or
      there is one slot. */
  lemma {:induction false} SlotsRightExactly(n: nat, top: nat)
    requires n > 0
    ensures (forall r: nat :: r <= top ==> SlotRight(r, n))
            <==> top <= INT_MAX || n == 1 || (top == INT_MAX + 1 && (INT_MAX + 1) % n == 0)
  {
    if n == 1 {
      forall r: nat ensures SlotRight(r, 1) {
        OneSlot(r);
      }
    } else {
      assert SlotRight(INT_MAX + 1, n) <==> (INT_MAX + 1) % n == 0;
      if (INT_MAX + 1) % n == 0 {
        PredOfMultiple(INT_MAX + 1, n);
        assert !SlotRight(INT_MAX + 2, n);
      }
    }
  }

  lemma {:induction false} OneSlot(r: nat)
    ensures SlotRight(r, 1)
  {
  }

  lemma {:induction false} PredOfMultiple(m: nat, n: nat)
    requires n > 1 && m > 0 && m % n == 0
    ensures (m - 1) % n == n - 1
  {
    var q := m / n;
    assert m - 1 == n * (q - 1) + (n - 1);
    RemainderIs(m - 1, n, q - 1, n - 1);
  }

  lemma {:induction false} RemainderIs(x: int, n: nat, q: int, r: nat)
    requires r < n && x == n * q + r
    ensures x % n == r
  {
    var d := x / n - q;
    assert x == n * (x / n) + x % n;
    assert n * d == r - x % n;
    assert d >= 1 ==> n * d >= n;
    assert d <= -1 ==> n * d + n <= 0;
  }

  /** For every schedule: the counters are the numbers of items stored and taken,
      up to a thread inside the lock, so that the slots are right over the whole
      run exactly when the items stored stay within an int, up to those cases. */
  lemma {:induction false} CountersExactly(n: nat, threads: nat, schedule: seq<(nat, Action)>)
    requires n > 0 && Run(Init(n, threads), schedule).Some?
    ensures var s := Run(Init(n, threads), schedule).value;
            && |s.removed| <= s.front <= |s.removed| + 1 && |s.inserted| <= s.rear <= |s.inserted| + 1
            && s.front <= s.rear
            && ((forall r: nat :: r <= s.rear ==> SlotRight(r, n))
                <==> s.rear <= INT_MAX || n == 1 || (s.rear == INT_MAX + 1 && (INT_MAX + 1) % n == 0))
  {
    hide SlotRight;
    EverySchedule(n, threads, schedule);
    InitInv(n, threads);
    RunInv(Init(n, threads), schedule);
    var s := Run(Init(n, threads), schedule).value;
    CountSub(s.pc);
    SlotsRightExactly(n, s.rear);
  }

  // ------------------------------------------------------------------
  // The buffer with counters that are C ints

  /** The next value of an int counter. */
  function Bumped(w: int): (r: int) { if w == INT_MAX then -INT_MAX - 1 else w + 1 }

  /** A counter that has been bumped r times has the value Wrapped(r). */
  lemma {:induction false} WrappedBumps(r: nat)
    ensures Wrapped(0) == 0 && Wrapped(r + 1) == Bumped(Wrapped(r))
  {
    var m, q := r % 0x1_0000_0000, r / 0x1_0000_0000;
    if m == 0xffff_ffff {
      RemainderIs(r + 1, 0x1_0000_0000, q + 1, 0);
    } else {
      RemainderIs(r + 1, 0x1_0000_0000, q, m + 1);
    }
  }

  /** The place in the buffer that thread t is about to use, when it is. */
  function IntSlot(s: State, p: Pc): (k: int)
    requires s.n > 0 && s.front >= 0 && s.rear >= 0
  {
    CRemainder(Wrapped(if p.InsStore? then s.rear else s.front), s.n)
  }

  /** The thread is about to store or load outside the buffer. */
  ghost predicate Outside(s: State, t: nat) {
    && t < |s.pc| && (s.pc[t].InsStore? || s.pc[t].RemLoad?)
    && s.n > 0 && s.front >= 0 && s.rear >= 0 && IntSlot(s, s.pc[t]) < 0
  }

  /** A step with int counters; None also when it would leave the buffer. */
  function IntStep(s: State, t: nat, a: Action): (r: Option<State>)
    requires t < |s.pc|
  {
    var p := s.pc[t];
    if !p.InsStore? && !p.RemLoad? then Step(s, t, a)
    else if s.n == 0 || |s.buf| != s.n || s.front < 0 || s.rear < 0 || !(0 <= IntSlot(s, p) < s.n) then None
    else
      var k := IntSlot(s, p);
      if p.InsStore? then
        Some(s.(pc := s.pc[t := InsUnlock(p.item)], buf := s.buf[k := p.item], inserted := s.inserted + [p.item]))
      else
        Some(s.(pc := s.pc[t := RemUnlock(s.buf[k])], removed := s.removed + [s.buf[k]]))
  }

  function IntRun(s: State, schedule: seq<(nat, Action)>): (r: Option<State>)
    decreases |schedule|
  {
    if schedule == [] then Some(s)
    else if schedule[0].0 >= |s.pc| then None
    else
      var s' := IntStep(s, schedule[0].0, schedule[0].1);
      if s'.None? then None else IntRun(s'.value, schedule[1..])
  }

  ghost predicate AllRight(n: nat, top: int)
    requires n > 0
  {
    forall r: nat :: r <= top ==> SlotRight(r, n)
  }

  lemma {:induction false} IntStepSame(s: State, t: nat, a: Action)
    requires Inv(s) && s.n > 0 && t < |s.pc| && AllRight(s.n, s.rear)
    ensures IntStep(s, t, a) == Step(s, t, a)
    ensures IntStep(s, t, a).Some? ==> IntStep(s, t, a).value.rear >= s.rear
  {
    hide SlotRight, CRemainder, Wrapped, Count, Holds;
    CountSub(s.pc);
    var p := s.pc[t];
    if p.InsStore? || p.RemLoad? {
      var r: nat := if p.InsStore? then s.rear else s.front;
      assert SlotRight(r, s.n);
      RightSlot(r, s.n);
    }
  }

  lemma {:induction false} RightSlot(r: nat, n: nat)
    requires n > 0 && SlotRight(r, n)
    ensures CRemainder(Wrapped(r), n) == r % n && 0 <= r % n < n
  {
  }

  lemma {:induction false} RearGrows(s: State, schedule: seq<(nat, Action)>)
    requires IntRun(s, schedule).Some?
    ensures IntRun(s, schedule).value.rear >= s.rear && IntRun(s, schedule).value.n == s.n
    decreases |schedule|
  {
    hide Wrapped, CRemainder;
    if schedule != [] {
      RearGrows(IntStep(s, schedule[0].0, schedule[0].1).value, schedule[1..]);
    }
  }

  /** As long as the slots are right, int counters make no difference. */
  lemma {:induction false} IntRunSame(s: State, schedule: seq<(nat, Action)>)
    requires Inv(s) && s.n > 0
    requires IntRun(s, schedule).Some? && AllRight(s.n, IntRun(s, schedule).value.rear)
    ensures Run(s, schedule) == IntRun(s, schedule)
    decreases |schedule|
  {
    hide Inv, IntStep, Step, SlotRight;
    if schedule != [] {
      var t, a := schedule[0].0, schedule[0].1;
      RearGrows(s, schedule);
      IntStepSame(s, t, a);
      StepInv(s, t, a, Step(s, t, a).value);
      IntRunSame(Step(s, t, a).value, schedule[1..]);
    }
  }

  /** The same from the other side. */
  lemma {:induction false} RunIntSame(s: State, schedule: seq<(nat, Action)>)
    requires Inv(s) && s.n > 0 && Run(s, schedule).Some? && AllRight(s.n, Run(s, schedule).value.rear)
    ensures IntRun(s, schedule) == Run(s, schedule)
    decreases |schedule|
  {
    hide Inv, IntStep, Step, SlotRight;
    if schedule != [] {
      var t, a := schedule[0].0, schedule[0].1;
      var s' := Step(s, t, a).value;
      RunRear(s, schedule);
      IntStepSame(s, t, a);
      StepInv(s, t, a, s');
      RunIntSame(s', schedule[1..]);
    }
  }

  lemma {:induction false} RunRear(s: State, schedule: seq<(nat, Action)>)
    requires Run(s, schedule).Some?
    ensures Run(s, schedule).value.rear >= s.rear
    decreases |schedule|
  {
    if schedule != [] {
      RunRear(Step(s, schedule[0].0, schedule[0].1).value, schedule[1..]);
    }
  }

  /** For every schedule of the buffer with int counters that stays within the
      condition of SlotsRightExactly, all that EverySchedule says holds. */
  lemma {:induction false} EveryIntSchedule(n: nat, threads: nat, schedule: seq<(nat, Action)>)
    requires n > 0 && IntRun(Init(n, threads), schedule).Some?
    requires var rear := IntRun(Init(n, threads), schedule).value.rear;
             rear <= INT_MAX || n == 1 || (rear == INT_MAX + 1 && (INT_MAX + 1) % n == 0)
    ensures var s := IntRun(Init(n, threads), schedule).value;
            && 0 <= s.rear - s.front <= n && s.removed <= s.inserted && |s.inserted| - |s.removed| <= n
            && (forall t, u :: 0 <= t < u < |s.pc| ==> !(Inside(s.pc[t]) && Inside(s.pc[u])))
            && (forall t :: 0 <= t < |s.pc| ==> !Outside(s, t))
  {
    hide SlotRight, Inv, IntRun, Run, IntSlot, CRemainder;
    var s0, s := Init(n, threads), IntRun(Init(n, threads), schedule).value;
    InitInv(n, threads);
    RearGrows(s0, schedule);
    SlotsRightExactly(n, s.rear);
    IntRunSame(s0, schedule);
    EverySchedule(n, threads, schedule);
    RunInv(s0, schedule);
    forall t | 0 <= t < |s.pc| ensures !Outside(s, t) {
      NotOutside(s, t);
    }
  }

  lemma {:induction false} NotOutside(s: State, t: nat)
    requires Inv(s) && s.n > 0 && t < |s.pc| && AllRight(s.n, s.rear)
    ensures !Outside(s, t)
  {
    hide SlotRight, CRemainder, Wrapped, Count, Holds;
    CountSub(s.pc);
    var p := s.pc[t];
    if p.InsStore? || p.RemLoad? {
      var r: nat := if p.InsStore? then s.rear else s.front;
      assert SlotRight(r, s.n);
      RightSlot(r, s.n);
    }
  }

  // ------------------------------------------------------------------
  // Every count is reached: one thread inserts and removes in turn

  /** The only thread is at p, and the counters and semaphores are these. */
  ghost predicate Solo(s: State, n: nat, p: Pc, front: nat, rear: nat, mutex: nat, slots: int, items: nat) {
    && s.n == n == |s.buf| && s.pc == [p] && s.front == front && s.rear == rear
    && s.mutex == mutex && s.slots == slots && s.items == items
  }

  function Goes(m: nat): (r: seq<(nat, Action)>) { if m == 0 then [] else [(0, Go)] + Goes(m - 1) }

  lemma {:induction false} RunPush(s: State, a: Action, s': State, rest: seq<(nat, Action)>)
    requires |s.pc| > 0 && Step(s, 0, a) == Some(s')
    ensures Run(s, [(0, a)] + rest) == Run(s', rest)
  {
    assert ([(0, a)] + rest)[1..] == rest;
  }

  lemma {:induction false} RunAppend(s: State, a: seq<(nat, Action)>, b: seq<(nat, Action)>)
    requires Run(s, a).Some?
    ensures Run(s, a + b) == Run(Run(s, a).value, b)
    decreases |a|
  {
    hide Step;
    if a == [] {
      assert a + b == b;
    } else {
      assert (a + b)[1..] == a[1..] + b && (a + b)[0] == a[0];
      RunAppend(Step(s, a[0].0, a[0].1).value, a[1..], b);
    }
  }

  /** The first steps of an insert, up to the store. */
  lemma {:induction false} InsertBegins(s: State, n: nat, k: nat) returns (r: State)
    requires n > 0 && Solo(s, n, Idle, k, k, 1, n, 0)
    ensures Run(s, [(0, Insert(0))] + Goes(3)) == Some(r) && Solo(r, n, InsStore(0), k, k + 1, 0, n - 1, 0)
  {
    hide Run;
    var s1 := Step(s, 0, Insert(0)).value;
    var s2 := Step(s1, 0, Go).value;
    var s3 := Step(s2, 0, Go).value;
    r := Step(s3, 0, Go).value;
    RunPush(s, Insert(0), s1, Goes(3));
    RunPush(s1, Go, s2, Goes(2));
    RunPush(s2, Go, s3, Goes(1));
    RunPush(s3, Go, r, []);
    RunNone(r);
  }

  lemma {:induction false} RunNone(s: State)
    ensures Run(s, []) == Some(s)
  {
  }

  lemma {:induction false} InsertEnds(s: State, n: nat, k: nat) returns (r: State)
    requires n > 0 && Solo(s, n, InsStore(0), k, k + 1, 0, n - 1, 0)
    ensures Run(s, Goes(3)) == Some(r) && Solo(r, n, Idle, k, k + 1, 1, n - 1, 1)
  {
    hide Run;
    var s1 := Step(s, 0, Go).value;
    var s2 := Step(s1, 0, Go).value;
    r := Step(s2, 0, Go).value;
    RunPush(s, Go, s1, Goes(2));
    RunPush(s1, Go, s2, Goes(1));
    RunPush(s2, Go, r, []);
    RunNone(r);
  }

  lemma {:induction false} RemoveBegins(s: State, n: nat, k: nat) returns (r: State)
    requires n > 0 && Solo(s, n, Idle, k, k + 1, 1, n - 1, 1)
    ensures Run(s, [(0, Remove)] + Goes(3)) == Some(r) && Solo(r, n, RemLoad, k + 1, k + 1, 0, n - 1, 0)
  {
    hide Run;
    var s1 := Step(s, 0, Remove).value;
    var s2 := Step(s1, 0, Go).value;
    var s3 := Step(s2, 0, Go).value;
    r := Step(s3, 0, Go).value;
    RunPush(s, Remove, s1, Goes(3));
    RunPush(s1, Go, s2, Goes(2));
    RunPush(s2, Go, s3, Goes(1));
    RunPush(s3, Go, r, []);
    RunNone(r);
  }

  lemma {:induction false} RemoveEnds(s: State, n: nat, k: nat) returns (r: State)
    requires n > 0 && Solo(s, n, RemLoad, k + 1, k + 1, 0, n - 1, 0)
    ensures Run(s, Goes(3)) == Some(r) && Solo(r, n, Idle, k + 1, k + 1, 1, n, 0)
  {
    hide Run;
    var s1 := Step(s, 0, Go).value;
    var s2 := Step(s1, 0, Go).value;
    r := Step(s2, 0, Go).value;
    RunPush(s, Go, s1, Goes(2));
    RunPush(s1, Go, s2, Goes(1));
    RunPush(s2, Go, r, []);
    RunNone(r);
  }

  /** For every k the only thread gets both counters to k. */
  lemma {:induction false} EveryCount(n: nat, k: nat) returns (schedule: seq<(nat, Action)>)
    requires n > 0
    ensures Run(Init(n, 1), schedule).Some? && Solo(Run(Init(n, 1), schedule).value, n, Idle, k, k, 1, n, 0)
    decreases k
  {
    hide Run;
    schedule := [];
    RunNone(Init(n, 1));
    if k > 0 {
      var before := EveryCount(n, k - 1);
      var s := Run(Init(n, 1), before).value;
      var s1 := InsertBegins(s, n, k - 1);
      var s2 := InsertEnds(s1, n, k - 1);
      var s3 := RemoveBegins(s2, n, k - 1);
      var s4 := RemoveEnds(s3, n, k - 1);
      var ins, rem := [(0, Insert(0))] + Goes(3), [(0, Remove)] + Goes(3);
      RunAppend(s, ins, Goes(3));
      RunAppend(s, ins + Goes(3), rem);
      RunAppend(s, ins + Goes(3) + rem, Goes(3));
      schedule := before + (ins + Goes(3) + rem + Goes(3));
      RunAppend(Init(n, 1), before, ins + Goes(3) + rem + Goes(3));
    }
  }

  /** With two slots or more, some schedule leaves the buffer: after 2^31 or so
      inserts the counter is negative, and so is the remainder.  With one slot
      none does. */
  lemma {:induction false} OutsideExactly(n: nat)
    requires n > 0
    ensures (exists threads: nat, schedule :: IntLeaves(n, threads, schedule)) <==> n > 1
  {
    hide IntRun, Run;
    if n > 1 {
      var schedule := LeavesAt(n);
      assert IntLeaves(n, 1, schedule);
    } else {
      forall threads: nat, schedule ensures !IntLeaves(n, threads, schedule) {
        if IntRun(Init(n, threads), schedule).Some? {
          EveryIntSchedule(n, threads, schedule);
        }
      }
    }
  }

  /** The schedule can happen, and then a thread is about to leave the buffer. */
  ghost predicate IntLeaves(n: nat, threads: nat, schedule: seq<(nat, Action)>) {
    var s := IntRun(Init(n, threads), schedule);
    s.Some? && exists t :: 0 <= t < |s.value.pc| && Outside(s.value, t)
  }

  /** The first count for which the slot is wrong. */
  function FirstWrong(n: nat): (k: nat)
    requires n > 0
    ensures k > INT_MAX
  {
    if (INT_MAX + 1) % n == 0 then INT_MAX + 2 else INT_MAX + 1
  }

  lemma {:induction false} FirstWrongNegative(n: nat)
    requires n > 1
    ensures CRemainder(Wrapped(FirstWrong(n)), n) < 0 && AllRight(n, FirstWrong(n) - 1)
  {
    SlotsRightExactly(n, FirstWrong(n) - 1);
    if (INT_MAX + 1) % n == 0 {
      PredOfMultiple(INT_MAX + 1, n);
    }
  }

  lemma {:induction false} LeavesAt(n: nat) returns (schedule: seq<(nat, Action)>)
    requires n > 1
    ensures IntRun(Init(n, 1), schedule).Some?
    ensures var s := IntRun(Init(n, 1), schedule).value; s.rear == FirstWrong(n) && Outside(s, 0) && s.pc[0].InsStore?
  {
    hide IntRun, Run, Inv, CRemainder, Wrapped, AllRight, FirstWrong;
    FirstWrongNegative(n);
    var k: nat := FirstWrong(n) - 1;
    var rounds := EveryCount(n, k);
    var s := Run(Init(n, 1), rounds).value;
    InitInv(n, 1);
    RunInv(Init(n, 1), rounds);
    RunIntSame(Init(n, 1), rounds);
    var r := InsertReaches(s, n, k);
    var ins := [(0, Insert(0))] + Goes(3);
    IntRunAppend(Init(n, 1), rounds, ins);
    schedule := rounds + ins;
  }

  lemma {:induction false} IntPush(s: State, a: Action, s': State, rest: seq<(nat, Action)>)
    requires |s.pc| > 0 && IntStep(s, 0, a) == Some(s')
    ensures IntRun(s, [(0, a)] + rest) == IntRun(s', rest)
  {
    hide IntStep;
    assert ([(0, a)] + rest)[1..] == rest;
  }

  lemma {:induction false} IntRunAppend(s: State, a: seq<(nat, Action)>, b: seq<(nat, Action)>)
    requires IntRun(s, a).Some?
    ensures IntRun(s, a + b) == IntRun(IntRun(s, a).value, b)
    decreases |a|
  {
    hide IntStep;
    if a == [] {
      assert a + b == b;
    } else {
      assert (a + b)[1..] == a[1..] + b && (a + b)[0] == a[0];
      IntRunAppend(IntStep(s, a[0].0, a[0].1).value, a[1..], b);
    }
  }

  /** Up to the store, an insert uses no slot. */
  lemma {:induction false} InsertReaches(s: State, n: nat, k: nat) returns (r: State)
    requires n > 0 && Solo(s, n, Idle, k, k, 1, n, 0)
    ensures IntRun(s, [(0, Insert(0))] + Goes(3)) == Some(r) && Solo(r, n, InsStore(0), k, k + 1, 0, n - 1, 0)
  {
    hide IntRun;
    var s1 := Step(s, 0, Insert(0)).value;
    var s2 := Step(s1, 0, Go).value;
    var s3 := Step(s2, 0, Go).value;
    r := Step(s3, 0, Go).value;
    IntPush(s, Insert(0), s1, Goes(3));
    IntPush(s1, Go, s2, Goes(2));
    IntPush(s2, Go, s3, Goes(1));
    IntPush(s3, Go, r, []);
    IntNone(r);
  }

  lemma {:induction false} IntNone(s: State)
    ensures IntRun(s, []) == Some(s)
  {
  }

  /** A thread that cannot go on. */
  ghost predicate Stuck(s: State, t: nat)
    requires t < |s.pc|
  {
    Step(s, t, Go).None?
  }

  /** When no thread can go on, each is idle, or waits for a slot of a full
      buffer, or waits for an item of an empty one; so with room for one item
      an inserter and a remover are never stuck together. */
  lemma {:induction false} NoDeadlock(s: State)
    requires Inv(s) && forall t :: 0 <= t < |s.pc| ==> Stuck(s, t)
    ensures forall t :: 0 <= t < |s.pc| ==>
              && (s.pc[t].Idle? || s.pc[t].InsSlot? || s.pc[t].RemItem?)
              && (s.pc[t].InsSlot? ==> |s.inserted| - |s.removed| == s.n)
              && (s.pc[t].RemItem? ==> s.inserted == s.removed)
  {
    forall t | 0 <= t < |s.pc| ensures !Inside(s.pc[t]) {
      assert Stuck(s, t);
      if s.n == 0 && Inside(s.pc[t]) {
        EmptyBuffer(s, t);
      }
    }
    CountNone(s.pc, Inside);
    forall t | 0 <= t < |s.pc| ensures s.pc[t].Idle? || s.pc[t].InsSlot? || s.pc[t].RemItem? {
      assert Stuck(s, t);
    }
    CountNone(s.pc, HoldsSlot);
    CountNone(s.pc, HoldsItem);
    CountNone(s.pc, Storing);
    CountNone(s.pc, Loading);
    forall t | 0 <= t < |s.pc| && s.pc[t].RemItem? ensures s.inserted == s.removed {
      assert Stuck(s, t);
    }
    forall t | 0 <= t < |s.pc| && s.pc[t].InsSlot? ensures |s.inserted| - |s.removed| == s.n {
      assert Stuck(s, t);
    }
  }

  /** A buffer without slots lets no thread past its first wait. */
  lemma {:induction false} EmptyBuffer(s: State, t: nat)
    requires Inv(s) && s.n == 0 && t < |s.pc|
    ensures !Inside(s.pc[t])
  {
    if Inside(s.pc[t]) {
      if HoldsSlot(s.pc[t]) {
        CountPositive(s.pc, t, HoldsSlot);
      } else {
        CountPositive(s.pc, t, HoldsItem);
      }
    }
  }

  // ------------------------------------------------------------------
  // What one call does inside the lock

  lemma {:induction false} HoldsMore(n: nat, buf: seq<int>, inserted: seq<int>, done: nat, x: int)
    requires |buf| == n && done <= |inserted| < done + n && Holds(n, buf, inserted, done)
    ensures Holds(n, buf[(|inserted| + 1) % n := x], inserted + [x], done)
  {
    var buf', all := buf[(|inserted| + 1) % n := x], inserted + [x];
    forall k | done <= k < |all| ensures buf'[(k + 1) % n] == all[k] {
      if k < |inserted| {
        SlotsDiffer(k + 1, |inserted| + 1, n);
      }
    }
  }

  /** The buffer with its two counters; the semaphores let a thread in only when
      there is room, or an item. */
  class Sbuf {
    const buf: array<int>
    var front: nat
    var rear: nat
    /** All items stored so far; those before front have been taken. */
    ghost var inserted: seq<int>

    ghost predicate Valid() reads this, buf {
      && front <= rear <= front + buf.Length && |inserted| == rear
      && Holds(buf.Length, buf[..], inserted, front)
    }

    /** The items in the buffer, oldest first. */
    ghost function Contents(): (q: seq<int>) reads this, buf
      requires Valid()
    {
      inserted[front..]
    }

    constructor (n: nat)
      ensures Valid() && fresh(buf) && buf.Length == n && Contents() == []
    {
      buf := new int[n](_ => 0);
      front, rear, inserted := 0, 0, [];
    }

    method Insert(item: int)
      requires Valid() && rear - front < buf.Length
      modifies this`rear, this`inserted, buf
      ensures Valid() && Contents() == old(Contents()) + [item]
    {
      HoldsMore(buf.Length, buf[..], inserted, front, item);
      rear := rear + 1;
      buf[rear % buf.Length] := item;
      assert buf[..] == old(buf[..])[rear % buf.Length := item];
      inserted := inserted + [item];
    }

    method Remove() returns (item: int)
      requires Valid() && front < rear
      modifies this`front
      ensures Valid() && [item] + Contents() == old(Contents())
    {
      front := front + 1;
      assert buf[..][(front - 1 + 1) % buf.Length] == inserted[front - 1];
      item := buf[front % buf.Length];
    }
  }
}
