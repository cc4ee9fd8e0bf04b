/** The order in which flash's chunks stand on the list, and so the order in which
    they are unmapped: over every run of the cache's operations, and over every
    run of the connections, by the time at which each gave up its last lock. */
module ChunkOrder {
  import opened Lists
  import opened ChunkCache
  import opened ChunkSender

  /** What is done to the cache. */
  datatype Op =
    | Lock(e: nat, bytes: nat) | Unlock(e: nat, bytes: nat) | Map(e: nat, pos: nat)
    | New(size: nat) | Use(e: nat) | Drop(e: nat) | Spoil(e: nat)

  /** None when it cannot be done, or leaves a freed record on the list. */
  ghost function Apply(page: nat, budget: nat, c: Cache, op: Op): (r: Option<Cache>)
    requires page > 0
  {
    match op
    case Lock(e, bytes) => if InUse(c, e) then Some(Inc(page, c, e, bytes)) else None
    case Unlock(e, bytes) => if Unlockable(page, c, e, bytes) then Dec(page, budget, c, e, bytes) else None
    case Map(e, pos) => if Unlockable(page, c, e, pos) then Read(page, budget, c, e, pos) else None
    case New(size) => Some(AddEntry(c, size))
    case Use(e) =>
      if e < |c.ents| && c.ents[e].Some? then Some(Recounted(c, e, c.ents[e].value.refs + 1, c.ents[e].value.invalid))
      else None
    case Drop(e) => if InUse(c, e) then Release(page, c, e) else None
    case Spoil(e) => if e < |c.ents| && c.ents[e].Some? then Invalidate(page, c, e) else None
  }

  ghost function Ops(page: nat, budget: nat, c: Cache, ops: seq<Op>): (r: Option<Cache>)
    requires page > 0
  {
    if ops == [] then Some(c)
    else
      var d := Ops(page, budget, c, ops[..|ops| - 1]);
      if d.None? then None else Apply(page, budget, d.value, ops[|ops| - 1])
  }

  /** The operation takes the last lock off the chunk. */
  ghost predicate Gives(c: Cache, op: Op, r: Ref) {
    && op.Unlock? && r.e == op.e && r.k == op.bytes / BLOCK
    && Present(c.ents, r) && ChunkOf(c.ents, r).refs == 1
  }

  /** When the chunk gave up its last lock for the last time; -1 for never. */
  ghost function ReleasedAt(page: nat, budget: nat, c: Cache, ops: seq<Op>, r: Ref): (t: int)
    requires page > 0
    ensures -1 <= t < |ops|
  {
    if ops == [] then -1
    else
      var n := |ops| - 1;
      var d := Ops(page, budget, c, ops[..n]);
      if d.Some? && Gives(d.value, ops[n], r) then n else ReleasedAt(page, budget, c, ops[..n], r)
  }

  // ------------------------------------------------------------------
  // Lists in order

  ghost predicate Falling(l: seq<Ref>, f: Ref -> int) { forall i, j :: 0 <= i < j < |l| ==> f(l[i]) > f(l[j]) }

  /** l' has some of l, in the same order. */
  ghost predicate Thinned(l: seq<Ref>, l': seq<Ref>) {
    && (forall r :: r in l' ==> r in l)
    && (forall f :: Falling(l, f) ==> Falling(l', f))
  }

  lemma {:induction false} ThinnedTwice(a: seq<Ref>, b: seq<Ref>, c: seq<Ref>)
    requires Thinned(a, b) && Thinned(b, c)
    ensures Thinned(a, c)
  {
  }

  lemma {:induction false} WithoutThins(l: seq<Ref>, r: Ref)
    ensures Thinned(l, if r in l then Without(l, r) else l)
  {
    if r in l {
      var k := IndexOf(l, r);
      var l' := RemoveAt(l, k);
      forall x | x in l' ensures x in l {
        var i :| 0 <= i < |l'| && l'[i] == x;
        assert l[if i < k then i else i + 1] == x;
      }
      forall f, i, j | Falling(l, f) && 0 <= i < j < |l'| ensures f(l'[i]) > f(l'[j]) {
        assert f(l[if i < k then i else i + 1]) > f(l[if j < k then j else j + 1]);
      }
    }
  }

  lemma {:induction false} PrefixThins(l: seq<Ref>, m: nat)
    requires m <= |l|
    ensures Thinned(l, l[..m])
  {
  }

  lemma {:induction false} SameThins(l: seq<Ref>)
    ensures Thinned(l, l)
  {
  }

  /** A chunk that is not put on the list leaves the order of the others. */
  lemma {:induction false} ChangeThins(page: nat, c: Cache, r: Ref, ch: Chunk)
    requires page > 0 && Present(c.ents, r) && (ch.listed ==> ChunkOf(c.ents, r).listed)
    ensures Thinned(c.list, Change(page, c, r, ch).list)
  {
    WithoutThins(c.list, r);
    SameThins(c.list);
  }

  lemma {:induction false} DropThins(page: nat, c: Cache, e: nat, k: nat)
    requires page > 0
    ensures Thinned(c.list, DropFrom(page, c, e, k).list)
    decreases if e < |c.ents| && c.ents[e].Some? then |c.ents[e].value.chunks| - k else 0
  {
    hide Change, Thinned;
    var r := Ref(e, k);
    if !Present(c.ents, r) {
      SameThins(c.list);
    } else if !ChunkOf(c.ents, r).mapped {
      DropThins(page, c, e, k + 1);
    } else {
      var ch := Dropped(ChunkOf(c.ents, r));
      var d := Change(page, c, r, ch);
      ChangeEntry(page, c, r, ch);
      ChangeThins(page, c, r, ch);
      DropThins(page, d, e, k + 1);
      ThinnedTwice(c.list, d.list, DropFrom(page, d, e, k + 1).list);
    }
  }

  lemma {:induction false} FreedThins(page: nat, c: Cache, e: nat)
    requires page > 0 && e < |c.ents| && c.ents[e].Some? && Freed(page, c, e).Some?
    ensures Thinned(c.list, Freed(page, c, e).value.list)
  {
    hide DropFrom, Thinned;
    DropThins(page, c, e, 0);
  }

  lemma {:induction false} ReduceThins(page: nat, budget: nat, c: Cache)
    requires Inv(page, c) && Reduce(page, budget, c).Some?
    ensures Thinned(c.list, Reduce(page, budget, c).value.list)
  {
    hide Inv, Reduce, Thinned;
    PagePositive(page, c);
    var m := ReduceCut(page, budget, c);
    PrefixThins(c.list, m);
  }

  /** Every operation but the release of a last lock thins the list; that one puts
      the chunk in front and then thins it. */
  lemma {:induction false} ApplyOrders(page: nat, budget: nat, c: Cache, op: Op)
    requires page > 0 && Apply(page, budget, c, op).Some?
    ensures var d := Apply(page, budget, c, op).value;
            if op.Unlock? && Gives(c, op, ChunkAt(op.e, op.bytes)) then
              ChunkAt(op.e, op.bytes) !in c.list && Thinned([ChunkAt(op.e, op.bytes)] + c.list, d.list)
            else Thinned(c.list, d.list)
  {
    hide Thinned, Inv, Change, Reduce, Freed;
    SameThins(c.list);
    match op {
      case Lock(e, bytes) => LockThins(page, c, e, bytes);
      case Unlock(e, bytes) => UnlockOrders(page, budget, c, e, bytes);
      case Map(e, pos) => MapThins(page, budget, c, e, pos);
      case New(_) =>
      case Use(_) =>
      case Drop(e) =>
        var ent := c.ents[e].value;
        if ent.refs == 1 && ent.invalid {
          FreedThins(page, Recounted(c, e, ent.refs - 1, ent.invalid), e);
        }
      case Spoil(e) =>
        if c.ents[e].value.refs == 0 {
          FreedThins(page, c, e);
        }
    }
  }

  lemma {:induction false} LockThins(page: nat, c: Cache, e: nat, bytes: nat)
    requires page > 0
    ensures Thinned(c.list, Inc(page, c, e, bytes).list)
  {
    hide Thinned, Change;
    SameThins(c.list);
    var r := ChunkAt(e, bytes);
    if Present(c.ents, r) {
      ChangeThins(page, c, r, Locked(ChunkOf(c.ents, r)));
    }
  }

  lemma {:induction false} MapThins(page: nat, budget: nat, c: Cache, e: nat, pos: nat)
    requires page > 0 && Unlockable(page, c, e, pos) && Read(page, budget, c, e, pos).Some?
    ensures Thinned(c.list, Read(page, budget, c, e, pos).value.list)
  {
    hide Thinned, Inv, Change, Reduce;
    SameThins(c.list);
    var r := ChunkAt(e, pos);
    if !(c.ents[e].value.size == 0 || !Present(c.ents, r) || ChunkOf(c.ents, r).mapped) {
      var ch := ChunkOf(c.ents, r).(mapped := true);
      UnlockedListed(page, c, r);
      ChangeInv(page, c, r, ch);
      ChangeThins(page, c, r, ch);
      var d := Change(page, c, r, ch);
      ReduceThins(page, budget, d);
      ThinnedTwice(c.list, d.list, Reduce(page, budget, d).value.list);
    }
  }

  lemma {:induction false} UnlockOrders(page: nat, budget: nat, c: Cache, e: nat, bytes: nat)
    requires page > 0 && Unlockable(page, c, e, bytes) && Dec(page, budget, c, e, bytes).Some?
    ensures var d, r := Dec(page, budget, c, e, bytes).value, ChunkAt(e, bytes);
            if Present(c.ents, r) && ChunkOf(c.ents, r).refs == 1 then r !in c.list && Thinned([r] + c.list, d.list)
            else Thinned(c.list, d.list)
  {
    hide Thinned, Inv, Change, Reduce;
    SameThins(c.list);
    var r := ChunkAt(e, bytes);
    if Present(c.ents, r) {
      var ch := ChunkOf(c.ents, r);
      UnlockedListed(page, c, r);
      ChangeInv(page, c, r, Unlocked(ch));
      var d := Change(page, c, r, Unlocked(ch));
      if ch.refs == 1 {
        FrontListed(page, c, r, Unlocked(ch));
        ReduceThins(page, budget, d);
      } else {
        ChangeThins(page, c, r, Unlocked(ch));
      }
    }
  }

  /** A chunk that joins the list stands in front. */
  lemma {:induction false} FrontListed(page: nat, c: Cache, r: Ref, ch: Chunk)
    requires page > 0 && Present(c.ents, r) && r !in c.list && !ChunkOf(c.ents, r).listed && ch.listed
    ensures Change(page, c, r, ch).list == [r] + c.list
  {
  }

  // ------------------------------------------------------------------
  // Over every run of operations

  /** The list runs from the chunk released last to the one released longest ago. */
  ghost predicate ByRelease(page: nat, budget: nat, c: Cache, ops: seq<Op>)
    requires page > 0 && Ops(page, budget, c, ops).Some?
  {
    var l := Ops(page, budget, c, ops).value.list;
    && (forall r :: r in l ==> ReleasedAt(page, budget, c, ops, r) >= 0)
    && Falling(l, r => ReleasedAt(page, budget, c, ops, r))
  }

  lemma {:induction false} ListByRelease(page: nat, budget: nat, ops: seq<Op>)
    requires page > 0 && Ops(page, budget, EMPTY, ops).Some?
    ensures ByRelease(page, budget, EMPTY, ops)
    decreases |ops|
  {
    hide Apply, Thinned;
    if ops != [] {
      var n, op := |ops| - 1, ops[|ops| - 1];
      ListByRelease(page, budget, ops[..n]);
      var c, d := Ops(page, budget, EMPTY, ops[..n]).value, Ops(page, budget, EMPTY, ops).value;
      ApplyOrders(page, budget, c, op);
      OrderStep(page, budget, ops, c, d);
    }
  }

  lemma {:induction false} OrderStep(page: nat, budget: nat, ops: seq<Op>, c: Cache, d: Cache)
    requires page > 0 && ops != [] && Ops(page, budget, EMPTY, ops[..|ops| - 1]) == Some(c)
    requires Ops(page, budget, EMPTY, ops) == Some(d) && ByRelease(page, budget, EMPTY, ops[..|ops| - 1])
    requires var op := ops[|ops| - 1];
             if op.Unlock? && Gives(c, op, ChunkAt(op.e, op.bytes)) then
               ChunkAt(op.e, op.bytes) !in c.list && Thinned([ChunkAt(op.e, op.bytes)] + c.list, d.list)
             else Thinned(c.list, d.list)
    ensures ByRelease(page, budget, EMPTY, ops)
  {
    hide Apply;
    var n, op := |ops| - 1, ops[|ops| - 1];
    var f, g := r => ReleasedAt(page, budget, EMPTY, ops[..n], r), r => ReleasedAt(page, budget, EMPTY, ops, r);
    forall r ensures g(r) == if Gives(c, op, r) then n else f(r) {}
    if op.Unlock? && Gives(c, op, ChunkAt(op.e, op.bytes)) {
      var x := ChunkAt(op.e, op.bytes);
      var l := [x] + c.list;
      forall r | r in c.list ensures g(r) == f(r) {}
      forall i, j | 0 <= i < j < |l| ensures g(l[i]) > g(l[j]) {
        assert l[j] == c.list[j - 1] && l[j] in c.list;
        assert i > 0 ==> l[i] == c.list[i - 1] && l[i] in c.list;
        assert i > 0 ==> f(c.list[i - 1]) > f(c.list[j - 1]);
      }
      assert Falling(l, g);
    } else {
      forall r ensures g(r) == f(r) {
        assert Gives(c, op, r) ==> r == ChunkAt(op.e, op.bytes);
      }
      forall i, j | 0 <= i < j < |c.list| ensures g(c.list[i]) > g(c.list[j]) {
        assert f(c.list[i]) > f(c.list[j]);
      }
      assert Falling(c.list, g);
    }
  }

  /** So when the cache is reduced, of two listed chunks the one released longer
      ago goes first: if one of them survives, it is the one released later. */
  lemma {:induction false} OldestGoesFirst(page: nat, budget: nat, ops: seq<Op>, r: Ref, q: Ref)
    requires page > 0 && Ops(page, budget, EMPTY, ops).Some?
    requires var c := Ops(page, budget, EMPTY, ops).value;
             && Inv(page, c) && Reduce(page, budget, c).Some? && r in c.list && q in c.list
             && r in Reduce(page, budget, c).value.list && q !in Reduce(page, budget, c).value.list
    ensures ReleasedAt(page, budget, EMPTY, ops, r) > ReleasedAt(page, budget, EMPTY, ops, q)
  {
    hide Ops, Reduce, Inv, ReleasedAt;
    var c, f := Ops(page, budget, EMPTY, ops).value, x => ReleasedAt(page, budget, EMPTY, ops, x);
    ListByRelease(page, budget, ops);
    var m := ReduceCut(page, budget, c);
    var i :| 0 <= i < m && c.list[..m][i] == r;
    var j :| 0 <= j < |c.list| && c.list[j] == q;
    NotBefore(c.list, m, j);
    assert f(c.list[i]) > f(c.list[j]);
  }

  lemma {:induction false} NotBefore(l: seq<Ref>, m: nat, j: nat)
    requires m <= |l| && j < |l| && l[j] !in l[..m]
    ensures j >= m
  {
  }

  // ------------------------------------------------------------------
  // Over every run of the connections

  /** What ending a connection does to the cache. */
  function FinishOps(x: Conn): (ops: seq<Op>)
    requires x.Sending?
  {
    (if x.locks != 0 then [Unlock(x.e, x.sent)] else []) + [Drop(x.e)]
  }

  /** What an event does to the cache. */
  ghost function OpsOf(s: System, ev: Event): (ops: seq<Op>)
    requires Enabled(s, ev)
  {
    match ev
    case Open(_, e) => [Use(e), Lock(e, 0)]
    case OpenNew(_, size) => [New(size), Lock(|s.cache.ents|, 0)]
    case ReadIn(i) => [Map(s.conns[i].e, s.conns[i].sent)]
    case Write(i, sz) =>
      var x := s.conns[i];
      [Lock(x.e, x.sent + sz), Unlock(x.e, x.sent)]
      + if x.sent + sz >= SizeAt(s.cache, x.e) then FinishOps(Sending(x.e, x.sent + sz, LocksAfter(s.cache, x, sz)))
        else []
    case Close(i) => FinishOps(s.conns[i])
    case Stale(e) => [Spoil(e)]
  }

  lemma {:induction false} OpsAppend(page: nat, budget: nat, c: Cache, a: seq<Op>, b: seq<Op>)
    requires page > 0 && Ops(page, budget, c, a).Some?
    ensures Ops(page, budget, c, a + b) == Ops(page, budget, Ops(page, budget, c, a).value, b)
    decreases |b|
  {
    hide Apply;
    if b == [] {
      assert a + b == a;
    } else {
      var n := |b| - 1;
      assert (a + b)[..|a + b| - 1] == a + b[..n] && (a + b)[|a + b| - 1] == b[n];
      OpsAppend(page, budget, c, a, b[..n]);
    }
  }

  lemma {:induction false} OneOp(page: nat, budget: nat, c: Cache, op: Op)
    requires page > 0
    ensures Ops(page, budget, c, [op]) == Apply(page, budget, c, op)
  {
    hide Apply;
    assert [op][..0] == [];
    assert Ops(page, budget, c, []) == Some(c);
  }

  lemma {:induction false} TwoOps(page: nat, budget: nat, c: Cache, a: Op, b: Op, d: Cache)
    requires page > 0 && Apply(page, budget, c, a) == Some(d)
    ensures Ops(page, budget, c, [a, b]) == Apply(page, budget, d, b)
  {
    hide Apply, Ops;
    OneOp(page, budget, c, a);
    OneOp(page, budget, d, b);
    OpsAppend(page, budget, c, [a], [b]);
    assert [a, b] == [a] + [b];
  }

  lemma {:induction false} FinishIsOps(page: nat, budget: nat, c: Cache, conns: seq<Conn>, i: nat, x: Conn)
    requires page > 0 && i < |conns| && x.Sending? && Finish(page, budget, c, conns, i, x).Fine?
    ensures Ops(page, budget, c, FinishOps(x)) == Some(Finish(page, budget, c, conns, i, x).s.cache)
  {
    hide Ops, Dec, Release, Inv;
    if x.locks != 0 {
      var d := Dec(page, budget, c, x.e, x.sent).value;
      TwoOps(page, budget, c, Unlock(x.e, x.sent), Drop(x.e), d);
      assert FinishOps(x) == [Unlock(x.e, x.sent), Drop(x.e)];
    } else {
      OneOp(page, budget, c, Drop(x.e));
      assert FinishOps(x) == [Drop(x.e)];
    }
  }

  lemma {:induction false} SentIsOps(page: nat, budget: nat, s: System, i: nat, sz: nat)
    requires page > 0 && Enabled(s, Write(i, sz)) && Sent(page, budget, s.cache, s.conns, i, sz).Fine?
    ensures Ops(page, budget, s.cache, OpsOf(s, Write(i, sz)))
            == Some(Sent(page, budget, s.cache, s.conns, i, sz).s.cache)
  {
    hide Ops, Dec, Inc, Inv, Finish;
    var x, c := s.conns[i], s.cache;
    var c1 := Inc(page, c, x.e, x.sent + sz);
    var d := Dec(page, budget, c1, x.e, x.sent).value;
    var first := [Lock(x.e, x.sent + sz), Unlock(x.e, x.sent)];
    TwoOps(page, budget, c, first[0], first[1], c1);
    if x.sent + sz >= SizeAt(c, x.e) {
      var y := Sending(x.e, x.sent + sz, LocksAfter(c, x, sz));
      FinishIsOps(page, budget, d, s.conns, i, y);
      OpsAppend(page, budget, c, first, FinishOps(y));
    } else {
      assert OpsOf(s, Write(i, sz)) == first;
    }
  }

  /** An event does to the cache what its operations do. */
  lemma {:induction false} StepIsOps(page: nat, budget: nat, s: System, ev: Event)
    requires page > 0 && SysInv(page, s) && Enabled(s, ev) && Step(page, budget, s, ev).Fine?
    ensures Ops(page, budget, s.cache, OpsOf(s, ev)) == Some(Step(page, budget, s, ev).s.cache)
  {
    hide Ops, Inc, Inv, Finish, Sent, Read, Invalidate, AllPlaced, Counted;
    var c := s.cache;
    match ev {
      case Open(_, e) =>
        EntryAt(page, c, e);
        var d := Recounted(c, e, c.ents[e].value.refs + 1, false);
        TwoOps(page, budget, c, Use(e), Lock(e, 0), d);
      case OpenNew(_, size) =>
        AddEntryInv(page, c, size);
        TwoOps(page, budget, c, New(size), Lock(|c.ents|, 0), AddEntry(c, size));
      case ReadIn(i) => OneOp(page, budget, c, Map(s.conns[i].e, s.conns[i].sent));
      case Write(i, sz) => SentIsOps(page, budget, s, i, sz);
      case Close(i) => FinishIsOps(page, budget, c, s.conns, i, s.conns[i]);
      case Stale(e) => OneOp(page, budget, c, Spoil(e));
    }
  }

  /** What a run does to the cache. */
  ghost function Trace(page: nat, budget: nat, s: System, evs: seq<Event>): (ops: seq<Op>)
    requires page > 0
    decreases |evs|
  {
    if evs == [] then []
    else if !Enabled(s, evs[0]) then Trace(page, budget, s, evs[1..])
    else
      var o := Step(page, budget, s, evs[0]);
      OpsOf(s, evs[0]) + if o.Fine? then Trace(page, budget, o.s, evs[1..]) else []
  }

  lemma {:induction false} RunIsOps(page: nat, budget: nat, s: System, evs: seq<Event>)
    requires page > 0 && SysInv(page, s) && Run(page, budget, s, evs).Fine?
    ensures Ops(page, budget, s.cache, Trace(page, budget, s, evs)) == Some(Run(page, budget, s, evs).s.cache)
    decreases |evs|
  {
    hide Ops, SysInv, Step, Enabled, OpsOf;
    if evs == [] {
      NoOps(page, budget, s.cache);
    } else if !Enabled(s, evs[0]) {
      RunIsOps(page, budget, s, evs[1..]);
    } else {
      var s' := Step(page, budget, s, evs[0]).s;
      StepHolds(page, budget, s, evs[0]);
      StepIsOps(page, budget, s, evs[0]);
      RunIsOps(page, budget, s', evs[1..]);
      OpsAppend(page, budget, s.cache, OpsOf(s, evs[0]), Trace(page, budget, s', evs[1..]));
    }
  }

  lemma {:induction false} NoOps(page: nat, budget: nat, c: Cache)
    requires page > 0
    ensures Ops(page, budget, c, []) == Some(c)
  {
  }

  /** In every run from an empty cache, for any number of connections, the chunks
      that may be unmapped stand on the list from the one released last to the
      one released longest ago. */
  lemma {:induction false} RunByRelease(page: nat, budget: nat, n: nat, evs: seq<Event>)
    requires page > 0 && Run(page, budget, System(EMPTY, seq(n, _ => Idle)), evs).Fine?
    ensures var s0 := System(EMPTY, seq(n, _ => Idle));
            var ops := Trace(page, budget, s0, evs);
            && Ops(page, budget, EMPTY, ops) == Some(Run(page, budget, s0, evs).s.cache)
            && ByRelease(page, budget, EMPTY, ops)
  {
    hide Run, Trace, Ops, ByRelease;
    var conns: seq<Conn> := seq(n, _ => Idle);
    StartInv(page, n);
    RunIsOps(page, budget, System(EMPTY, conns), evs);
    ListByRelease(page, budget, Trace(page, budget, System(EMPTY, conns), evs));
  }

  lemma {:induction false} StartInv(page: nat, n: nat)
    requires page > 0
    ensures SysInv(page, System(EMPTY, seq(n, _ => Idle)))
  {
    NoLockErrors(page, 0, n, []);
  }
}
