/** Flash's connections as they send files from the chunk cache: each moves one
    lock along its file.  Any number of connections, in any order. */
module ChunkSender {
  import opened Lists
  import opened ChunkCache

  /** locks is hc_numChunkLocks. */
  datatype Conn = Idle | Sending(e: nat, sent: nat, locks: int)

  datatype System = System(cache: Cache, conns: seq<Conn>)

  /** Exit is any of the source's exits on a lock count, or a step from a state
      whose counts are out of order: RunHolds shows that neither is met.  Corrupt
      is an entry freed while a chunk record of it is on the list, after which
      nothing more is said. */
  datatype Outcome = Fine(s: System) | Exit | Corrupt

  datatype Event =
    | Open(i: nat, e: nat)
    | OpenNew(i: nat, size: nat)
    | ReadIn(i: nat)
    | Write(i: nat, sz: nat)
    | Close(i: nat)
    | Stale(e: nat)

  // ------------------------------------------------------------------
  // Locks and uses, as the cache and as the connections count them

  function LocksOf(c: Cache, r: Ref): (n: int) {
    if Present(c.ents, r) then ChunkOf(c.ents, r).refs else 0
  }

  function UsesOf(c: Cache, e: nat): (n: int) {
    if e < |c.ents| && c.ents[e].Some? then c.ents[e].value.refs else 0
  }

  function SizeAt(c: Cache, e: nat): (n: nat) {
    if e < |c.ents| && c.ents[e].Some? then c.ents[e].value.size else 0
  }

  function HoldsOne(x: Conn, r: Ref): (n: nat) { if x.Sending? && ChunkAt(x.e, x.sent) == r then 1 else 0 }

  function UsesOne(x: Conn, e: nat): (n: nat) { if x.Sending? && x.e == e then 1 else 0 }

  function Holders(conns: seq<Conn>, r: Ref): (n: nat) {
    if conns == [] then 0 else HoldsOne(conns[0], r) + Holders(conns[1..], r)
  }

  function Users(conns: seq<Conn>, e: nat): (n: nat) {
    if conns == [] then 0 else UsesOne(conns[0], e) + Users(conns[1..], e)
  }

  lemma {:induction false} CountsSet(conns: seq<Conn>, i: nat, x: Conn, r: Ref, e: nat)
    requires i < |conns|
    ensures Holders(conns[i := x], r) == Holders(conns, r) - HoldsOne(conns[i], r) + HoldsOne(x, r)
    ensures Users(conns[i := x], e) == Users(conns, e) - UsesOne(conns[i], e) + UsesOne(x, e)
  {
    if i == 0 {
      assert conns[i := x][1..] == conns[1..];
    } else {
      assert conns[i := x][1..] == conns[1..][i - 1 := x];
      CountsSet(conns[1..], i - 1, x, r, e);
    }
  }

  lemma {:induction false} CountsMember(conns: seq<Conn>, i: nat)
    requires i < |conns| && conns[i].Sending?
    ensures Holders(conns, ChunkAt(conns[i].e, conns[i].sent)) >= 1 && Users(conns, conns[i].e) >= 1
  {
    CountsSet(conns, i, Idle, ChunkAt(conns[i].e, conns[i].sent), conns[i].e);
  }

  // ------------------------------------------------------------------
  // The steps

  /** DoneWithConnection, as far as the file is concerned. */
  ghost function Finish(page: nat, budget: nat, c: Cache, conns: seq<Conn>, i: nat, x: Conn): (o: Outcome)
    requires page > 0 && i < |conns| && x.Sending?
  {
    var r := ChunkAt(x.e, x.sent);
    if x.locks != 0 then
      if !Unlockable(page, c, x.e, x.sent) then Exit
      else if x.locks - OneIf(Present(c.ents, r)) != 0 then Exit
      else
        var d := Dec(page, budget, c, x.e, x.sent);
        if d.None? then Corrupt else Leave(page, d.value, conns, i, x.e)
    else Leave(page, c, conns, i, x.e)
  }

  ghost function Leave(page: nat, c: Cache, conns: seq<Conn>, i: nat, e: nat): (o: Outcome)
    requires page > 0 && i < |conns|
  {
    if !InUse(c, e) then Exit
    else
      var d := Release(page, c, e);
      if d.None? then Corrupt else Fine(System(d.value, conns[i := Idle]))
  }

  /** How much a send may deliver: what is left in the chunk, once mapped. */
  function Sendable(c: Cache, x: Conn): (n: nat)
    requires x.Sending?
  {
    var size, r := SizeAt(c, x.e), ChunkAt(x.e, x.sent);
    if !Present(c.ents, r) || !ChunkOf(c.ents, r).mapped || size < x.sent then 0
    else if size - x.sent < BLOCK - x.sent % BLOCK then size - x.sent else BLOCK - x.sent % BLOCK
  }

  /** The connection's own count after the lock has moved on by sz bytes. */
  function LocksAfter(c: Cache, x: Conn, sz: nat): (n: int)
    requires x.Sending?
  {
    x.locks + OneIf(Present(c.ents, ChunkAt(x.e, x.sent + sz))) - OneIf(Present(c.ents, ChunkAt(x.e, x.sent)))
  }

  /** Part of a send has been delivered: the lock moves along. */
  ghost function Sent(page: nat, budget: nat, c: Cache, conns: seq<Conn>, i: nat, sz: nat): (o: Outcome)
    requires page > 0 && i < |conns| && conns[i].Sending?
  {
    var x := conns[i];
    if x.locks == 0 || !InUse(c, x.e) then Exit
    else
      var c1 := Inc(page, c, x.e, x.sent + sz);
      if !Unlockable(page, c1, x.e, x.sent) then Exit
      else
        var d := Dec(page, budget, c1, x.e, x.sent);
        var locks := LocksAfter(c, x, sz);
        if d.None? then Corrupt
        else
          var x' := Sending(x.e, x.sent + sz, locks);
          if x.sent + sz >= SizeAt(c, x.e) then Finish(page, budget, d.value, conns, i, x')
          else Fine(System(d.value, conns[i := x']))
  }

  ghost predicate Enabled(s: System, ev: Event) {
    match ev
    case Open(i, e) => i < |s.conns| && s.conns[i].Idle? && e < |s.cache.ents| && s.cache.ents[e].Some?
      && !s.cache.ents[e].value.invalid
    case OpenNew(i, _) => i < |s.conns| && s.conns[i].Idle?
    case ReadIn(i) => i < |s.conns| && s.conns[i].Sending?
    case Write(i, sz) => i < |s.conns| && s.conns[i].Sending? && sz <= Sendable(s.cache, s.conns[i])
    case Close(i) => i < |s.conns| && s.conns[i].Sending?
    case Stale(e) => e < |s.cache.ents| && s.cache.ents[e].Some? && !s.cache.ents[e].value.invalid
  }

  ghost function Started(page: nat, c: Cache, conns: seq<Conn>, i: nat, e: nat): (o: Outcome)
    requires page > 0 && i < |conns|
  {
    Fine(System(Inc(page, c, e, 0), conns[i := Sending(e, 0, OneIf(Present(c.ents, ChunkAt(e, 0))))]))
  }

  ghost function Step(page: nat, budget: nat, s: System, ev: Event): (o: Outcome)
    requires page > 0 && Enabled(s, ev)
  {
    var c := s.cache;
    match ev
    case Open(i, e) => Started(page, Recounted(c, e, c.ents[e].value.refs + 1, false), s.conns, i, e)
    case OpenNew(i, size) => Started(page, AddEntry(c, size), s.conns, i, |c.ents|)
    case ReadIn(i) =>
      var x := s.conns[i];
      if !Unlockable(page, c, x.e, x.sent) then Exit
      else
        var d := Read(page, budget, c, x.e, x.sent);
        if d.None? then Corrupt else Fine(System(d.value, s.conns))
    case Write(i, sz) => Sent(page, budget, c, s.conns, i, sz)
    case Close(i) => Finish(page, budget, c, s.conns, i, s.conns[i])
    case Stale(e) =>
      var d := Invalidate(page, c, e);
      if d.None? then Corrupt else Fine(System(d.value, s.conns))
  }

  // ------------------------------------------------------------------
  // What holds between steps

  /** The connection has exactly one lock, on the chunk of its next byte. */
  ghost predicate Placed(c: Cache, x: Conn) {
    x.Sending? ==>
      && InUse(c, x.e) && x.locks == 1 && Present(c.ents, ChunkAt(x.e, x.sent))
      && (x.sent < SizeAt(c, x.e) || (x.sent == 0 && SizeAt(c, x.e) == 0))
  }

  ghost predicate AllPlaced(c: Cache, conns: seq<Conn>) {
    forall i :: 0 <= i < |conns| ==> Placed(c, conns[i])
  }

  ghost predicate Counted(c: Cache, conns: seq<Conn>) {
    && (forall r :: LocksOf(c, r) == Holders(conns, r))
    && (forall e: nat :: UsesOf(c, e) == Users(conns, e))
  }

  ghost predicate SysInv(page: nat, s: System) {
    Inv(page, s.cache) && AllPlaced(s.cache, s.conns) && Counted(s.cache, s.conns)
  }

  // ------------------------------------------------------------------
  // What each operation does to the counts

  /** Entries in use keep their size and their chunk records. */
  ghost predicate Keeps(c: Cache, d: Cache) {
    forall e: nat :: InUse(c, e) ==>
      e < |d.ents| && d.ents[e].Some? && d.ents[e].value.size == c.ents[e].value.size
      && |d.ents[e].value.chunks| == |c.ents[e].value.chunks|
  }

  ghost predicate SameUses(c: Cache, d: Cache) {
    forall e: nat :: UsesOf(d, e) == UsesOf(c, e)
  }

  /** The locks of d are those of c, with so many more on chunk r. */
  ghost predicate Shifted(c: Cache, d: Cache, r: Ref, more: int) {
    forall q :: LocksOf(d, q) == LocksOf(c, q) + if q == r then more else 0
  }

  lemma {:induction false} ChangeCounts(page: nat, c: Cache, r: Ref, ch: Chunk)
    requires page > 0 && Present(c.ents, r)
    ensures var d := Change(page, c, r, ch);
            Keeps(c, d) && SameUses(c, d) && Shifted(c, d, r, ch.refs - ChunkOf(c.ents, r).refs)
  {
    hide Change;
    ChangeShape(page, c, r, ch);
    ChangeEntry(page, c, r, ch);
  }

  lemma {:induction false} SparesCounts(page: nat, c: Cache, d: Cache, r: Ref)
    requires Inv(page, c) && Spares(c, d)
    ensures Keeps(c, d) && SameUses(c, d) && Shifted(c, d, r, 0)
  {
    forall e: nat | e < |c.ents| && c.ents[e].Some? && d.ents[e].Some? ensures UsesOf(d, e) == UsesOf(c, e) {
      assert SparesEntry(c.ents[e].value, d.ents[e].value);
    }
    forall e: nat | e < |c.ents| && c.ents[e].Some? && d.ents[e].None? ensures UsesOf(c, e) == 0 {
      assert EntryInv(c.ents[e].value);
    }
    forall q ensures LocksOf(d, q) == LocksOf(c, q) {
      if q.e < |c.ents| && c.ents[q.e].Some? {
        assert EntryInv(c.ents[q.e].value);
        if d.ents[q.e].Some? {
          assert SparesEntry(c.ents[q.e].value, d.ents[q.e].value);
        }
      }
    }
    forall e: nat | InUse(c, e) ensures d.ents[e].Some? && SparesEntry(c.ents[e].value, d.ents[e].value) {}
  }

  lemma {:induction false} CountsTrans(b: Cache, c: Cache, d: Cache, r: Ref, more: int)
    requires Keeps(b, c) && SameUses(b, c) && Shifted(b, c, r, more)
    requires Keeps(c, d) && SameUses(c, d) && Shifted(c, d, r, 0)
    ensures Keeps(b, d) && SameUses(b, d) && Shifted(b, d, r, more)
  {
    forall e: nat | InUse(b, e) ensures InUse(c, e) {
      assert UsesOf(c, e) == UsesOf(b, e);
    }
    forall q ensures LocksOf(d, q) == LocksOf(b, q) + if q == r then more else 0 {
      assert LocksOf(d, q) == LocksOf(c, q) && LocksOf(c, q) == LocksOf(b, q) + if q == r then more else 0;
    }
    forall e: nat ensures UsesOf(d, e) == UsesOf(b, e) {
      assert UsesOf(d, e) == UsesOf(c, e) && UsesOf(c, e) == UsesOf(b, e);
    }
  }

  lemma {:induction false} ReducedCounts(page: nat, budget: nat, c: Cache, r: Ref, ch: Chunk)
    requires page > 0 && Present(c.ents, r) && Inv(page, Change(page, c, r, ch))
    requires Reduce(page, budget, Change(page, c, r, ch)).Some?
    ensures var d := Reduce(page, budget, Change(page, c, r, ch)).value;
            Keeps(c, d) && SameUses(c, d) && Shifted(c, d, r, ch.refs - ChunkOf(c.ents, r).refs)
  {
    hide Inv, Change, Keeps, SameUses, Shifted, Reduce, Spares;
    var m := Change(page, c, r, ch);
    ChangeCounts(page, c, r, ch);
    ReduceHolds(page, budget, m);
    SparesCounts(page, m, Reduce(page, budget, m).value, r);
    CountsTrans(c, m, Reduce(page, budget, m).value, r, ch.refs - ChunkOf(c.ents, r).refs);
  }

  lemma {:induction false} SelfCounts(c: Cache, r: Ref)
    ensures Keeps(c, c) && SameUses(c, c) && Shifted(c, c, r, 0)
  {
  }

  lemma {:induction false} IncCounts(page: nat, c: Cache, e: nat, bytes: nat)
    requires page > 0
    ensures var d, r := Inc(page, c, e, bytes), ChunkAt(e, bytes);
            Keeps(c, d) && SameUses(c, d) && Shifted(c, d, r, OneIf(Present(c.ents, r)))
  {
    hide Change, Keeps, SameUses, Shifted;
    var r := ChunkAt(e, bytes);
    if Present(c.ents, r) {
      ChangeCounts(page, c, r, Locked(ChunkOf(c.ents, r)));
    } else {
      SelfCounts(c, r);
    }
  }

  lemma {:induction false} DecCounts(page: nat, budget: nat, c: Cache, e: nat, bytes: nat)
    requires page > 0 && Unlockable(page, c, e, bytes) && Dec(page, budget, c, e, bytes).Some?
    ensures var d, r := Dec(page, budget, c, e, bytes).value, ChunkAt(e, bytes);
            Keeps(c, d) && SameUses(c, d) && Shifted(c, d, r, 0 - OneIf(Present(c.ents, r)))
  {
    hide Change, Keeps, SameUses, Shifted, Inv, Reduce;
    var r := ChunkAt(e, bytes);
    if Present(c.ents, r) {
      UnlockedListed(page, c, r);
      ChangeInv(page, c, r, Unlocked(ChunkOf(c.ents, r)));
      if ChunkOf(c.ents, r).refs == 1 {
        ReducedCounts(page, budget, c, r, Unlocked(ChunkOf(c.ents, r)));
      } else {
        ChangeCounts(page, c, r, Unlocked(ChunkOf(c.ents, r)));
      }
    } else {
      SelfCounts(c, r);
    }
  }

  lemma {:induction false} ReadCounts(page: nat, budget: nat, c: Cache, e: nat, pos: nat)
    requires page > 0 && Unlockable(page, c, e, pos) && Read(page, budget, c, e, pos).Some?
    ensures var d := Read(page, budget, c, e, pos).value;
            Keeps(c, d) && SameUses(c, d) && Shifted(c, d, ChunkAt(e, pos), 0)
  {
    hide Change, Keeps, SameUses, Shifted, Inv, Reduce;
    var r := ChunkAt(e, pos);
    if c.ents[e].value.size == 0 || !Present(c.ents, r) || ChunkOf(c.ents, r).mapped {
      SelfCounts(c, r);
    } else {
      UnlockedListed(page, c, r);
      ChangeInv(page, c, r, ChunkOf(c.ents, r).(mapped := true));
      ReducedCounts(page, budget, c, r, ChunkOf(c.ents, r).(mapped := true));
    }
  }

  // ------------------------------------------------------------------
  // Connections stay placed

  lemma {:induction false} StaysPlaced(c: Cache, d: Cache, conns: seq<Conn>)
    requires AllPlaced(c, conns) && Keeps(c, d)
    requires forall i :: 0 <= i < |conns| && conns[i].Sending? ==> UsesOf(d, conns[i].e) > 0
    ensures AllPlaced(d, conns)
  {
    forall i | 0 <= i < |conns| ensures Placed(d, conns[i]) {
      assert Placed(c, conns[i]);
    }
  }

  lemma {:induction false} SameUsesPlaced(c: Cache, d: Cache, conns: seq<Conn>)
    requires AllPlaced(c, conns) && Keeps(c, d) && SameUses(c, d)
    ensures AllPlaced(d, conns)
  {
    forall i | 0 <= i < |conns| && conns[i].Sending? ensures UsesOf(d, conns[i].e) > 0 {
      assert Placed(c, conns[i]);
      assert UsesOf(d, conns[i].e) == UsesOf(c, conns[i].e);
    }
    StaysPlaced(c, d, conns);
  }

  /** Whoever holds a lock on a file's chunk uses the file. */
  lemma {:induction false} HoldersUse(conns: seq<Conn>, r: Ref)
    ensures Holders(conns, r) <= Users(conns, r.e)
  {
    if conns != [] {
      HoldersUse(conns[1..], r);
    }
  }

  // ------------------------------------------------------------------
  // Each step keeps the invariant and takes none of the exits

  /** A step ends well and in order, or has freed a listed chunk record. */
  ghost predicate Holds(page: nat, o: Outcome) {
    o != Exit && (o.Fine? ==> SysInv(page, o.s))
  }

  lemma {:induction false} LeaveHolds(page: nat, c: Cache, conns: seq<Conn>, i: nat, e: nat)
    requires page > 0 && Inv(page, c) && i < |conns| && conns[i].Sending? && conns[i].e == e && InUse(c, e)
    requires AllPlaced(c, conns[i := Idle])
    requires forall r :: LocksOf(c, r) == Holders(conns[i := Idle], r)
    requires forall x: nat :: UsesOf(c, x) == Users(conns, x)
    ensures Holds(page, Leave(page, c, conns, i, e))
  {
    hide Inv, AllPlaced, Freed, Keeps;
    var rest, ent := conns[i := Idle], c.ents[e].value;
    var d := Recounted(c, e, ent.refs - 1, ent.invalid);
    forall x: nat ensures UsesOf(d, x) == Users(rest, x) {
      CountsSet(conns, i, Idle, ChunkAt(e, 0), x);
      assert UsesOf(c, x) == Users(conns, x);
    }
    forall r ensures LocksOf(d, r) == Holders(rest, r) {
      assert LocksOf(c, r) == Holders(rest, r);
    }
    if ent.refs == 1 {
      forall k | 0 <= k < |ent.chunks| ensures ent.chunks[k].refs == 0 {
        HoldersUse(rest, Ref(e, k));
        assert LocksOf(d, Ref(e, k)) == Holders(rest, Ref(e, k)) && UsesOf(d, e) == Users(rest, e);
      }
    }
    RecountedInv(page, c, e, ent.refs - 1, ent.invalid);
    LeavePlaced(c, d, rest, e);
    if ent.refs == 1 && ent.invalid && Freed(page, d, e).Some? {
      var f := Freed(page, d, e).value;
      FreedSpares(page, d, e);
      SparesCounts(page, d, f, Ref(e, 0));
      SparesCounted(d, f, rest, Ref(e, 0));
      SameUsesPlaced(d, f, rest);
    }
  }

  lemma {:induction false} LeavePlaced(c: Cache, d: Cache, rest: seq<Conn>, e: nat)
    requires e < |c.ents| && c.ents[e].Some? && AllPlaced(c, rest)
    requires d == Recounted(c, e, c.ents[e].value.refs - 1, c.ents[e].value.invalid)
    requires forall x: nat :: UsesOf(d, x) == Users(rest, x)
    ensures AllPlaced(d, rest)
  {
    forall j | 0 <= j < |rest| && rest[j].Sending? ensures UsesOf(d, rest[j].e) > 0 {
      CountsMember(rest, j);
      assert UsesOf(d, rest[j].e) == Users(rest, rest[j].e);
    }
    StaysPlaced(c, d, rest);
  }

  lemma {:induction false} SparesCounted(c: Cache, d: Cache, conns: seq<Conn>, r: Ref)
    requires Counted(c, conns) && SameUses(c, d) && Shifted(c, d, r, 0)
    ensures Counted(d, conns)
  {
    forall q ensures LocksOf(d, q) == Holders(conns, q) {
      assert LocksOf(d, q) == LocksOf(c, q) && LocksOf(c, q) == Holders(conns, q);
    }
    forall e: nat ensures UsesOf(d, e) == Users(conns, e) {
      assert UsesOf(d, e) == UsesOf(c, e) && UsesOf(c, e) == Users(conns, e);
    }
  }

  /** A connection that ends with its one lock gives up that lock and its use. */
  lemma {:induction false} FinishHolds(page: nat, budget: nat, c: Cache, conns: seq<Conn>, i: nat, x: Conn)
    requires page > 0 && Inv(page, c) && i < |conns| && conns[i].Sending? && x.Sending? && conns[i].e == x.e
             && x.locks == 1
    requires InUse(c, x.e) && Present(c.ents, ChunkAt(x.e, x.sent))
    requires AllPlaced(c, conns[i := Idle]) && Counted(c, conns[i := x])
    ensures Holds(page, Finish(page, budget, c, conns, i, x))
  {
    hide Inv, AllPlaced, Dec, Leave, Holds, Keeps;
    var r, all, rest := ChunkAt(x.e, x.sent), conns[i := x], conns[i := Idle];
    CountsMember(all, i);
    assert LocksOf(c, r) == Holders(all, r);
    var o := Dec(page, budget, c, x.e, x.sent);
    if o.Some? {
      var d := o.value;
      DecCounts(page, budget, c, x.e, x.sent);
      forall q ensures LocksOf(d, q) == Holders(rest, q) {
        assert all[i := Idle] == rest;
        CountsSet(all, i, Idle, q, 0);
        assert LocksOf(d, q) == LocksOf(c, q) + (if q == r then -1 else 0) && LocksOf(c, q) == Holders(all, q);
      }
      forall e: nat ensures UsesOf(d, e) == Users(conns, e) {
        CountsSet(conns, i, x, r, e);
        assert UsesOf(d, e) == UsesOf(c, e) && UsesOf(c, e) == Users(all, e);
      }
      SameUsesPlaced(c, d, rest);
      assert UsesOf(d, x.e) == UsesOf(c, x.e);
      LeaveHolds(page, d, conns, i, x.e);
    } else {
      CorruptHolds(page);
    }
  }

  lemma {:induction false} CorruptHolds(page: nat)
    ensures Holds(page, Corrupt)
  {
  }

  /** Where the next byte is after a send, and whether its chunk exists. */
  lemma {:induction false} NextChunk(size: nat, sent: nat, sz: nat)
    requires sent + sz <= size
    ensures sent + sz < size ==> (sent + sz) / BLOCK < NumChunks(size)
    ensures size == 0 ==> (sent + sz) / BLOCK == 0
  {
  }

  /** A send moves the lock to the chunk of the next byte; the last send of a
      file of whole blocks only gives it up. */
  lemma {:induction false} SentHolds(page: nat, budget: nat, s: System, i: nat, sz: nat)
    requires page > 0 && SysInv(page, s) && i < |s.conns| && s.conns[i].Sending? && sz <= Sendable(s.cache, s.conns[i])
    ensures Holds(page, Sent(page, budget, s.cache, s.conns, i, sz))
  {
    hide Inv, AllPlaced, Dec, Inc, Finish, Holds, Keeps, SameUses, Shifted, Counted;
    var c, conns, x := s.cache, s.conns, s.conns[i];
    PlacedAt(c, conns, i);
    SizePlaced(page, c, x, sz);
    var r, q := ChunkAt(x.e, x.sent), ChunkAt(x.e, x.sent + sz);
    var c1 := Inc(page, c, x.e, x.sent + sz);
    IncInv(page, c, x.e, x.sent + sz);
    IncCounts(page, c, x.e, x.sent + sz);
    MovedUp(page, c, c1, conns, i, q);
    var o := Dec(page, budget, c1, x.e, x.sent);
    if o.None? {
      CorruptHolds(page);
    } else {
      var d, x' := o.value, Sending(x.e, x.sent + sz, OneIf(Present(c.ents, q)));
      DecCounts(page, budget, c1, x.e, x.sent);
      MovedOn(c, c1, d, conns, i, sz);
      if x.sent + sz < SizeAt(c, x.e) {
        PlaceMoved(page, d, conns, i, x');
      } else if x'.locks == 1 {
        SetPlaced(d, conns, i, Idle);
        FinishHolds(page, budget, d, conns, i, x');
      } else {
        LeaveMoved(page, c, d, conns, i, x');
      }
    }
  }

  lemma {:induction false} SetPlaced(c: Cache, conns: seq<Conn>, i: nat, x: Conn)
    requires AllPlaced(c, conns) && i < |conns| && Placed(c, x)
    ensures AllPlaced(c, conns[i := x])
  {
    var set' := conns[i := x];
    forall j | 0 <= j < |set'| ensures Placed(c, set'[j]) {
      assert Placed(c, conns[j]);
    }
  }

  lemma {:induction false} PlacedAt(c: Cache, conns: seq<Conn>, i: nat)
    requires AllPlaced(c, conns) && i < |conns| && conns[i].Sending?
    ensures Placed(c, conns[i])
  {
  }

  lemma {:induction false} SizePlaced(page: nat, c: Cache, x: Conn, sz: nat)
    requires Inv(page, c) && x.Sending? && Placed(c, x) && sz <= Sendable(c, x)
    ensures x.sent + sz <= SizeAt(c, x.e)
    ensures x.sent + sz < SizeAt(c, x.e) ==> Present(c.ents, ChunkAt(x.e, x.sent + sz))
  {
    assert EntryInv(c.ents[x.e].value);
    NextChunk(SizeAt(c, x.e), x.sent, sz);
  }

  /** After the lock on the next chunk has been taken, the one on the chunk of
      the byte just sent can be given up. */
  lemma {:induction false} MovedUp(page: nat, c: Cache, c1: Cache, conns: seq<Conn>, i: nat, q: Ref)
    requires Inv(page, c1) && Counted(c, conns) && i < |conns| && conns[i].Sending? && Placed(c, conns[i])
    requires Keeps(c, c1) && SameUses(c, c1) && Shifted(c, c1, q, OneIf(Present(c.ents, q)))
    ensures Unlockable(page, c1, conns[i].e, conns[i].sent)
    ensures Present(c1.ents, ChunkAt(conns[i].e, conns[i].sent))
  {
    hide Inv;
    var x := conns[i];
    var r := ChunkAt(x.e, x.sent);
    CountsMember(conns, i);
    assert LocksOf(c, r) == Holders(conns, r);
    assert UsesOf(c1, x.e) == UsesOf(c, x.e);
    assert LocksOf(c1, r) >= LocksOf(c, r);
  }

  /** The counts after the lock has moved. */
  lemma {:induction false} MovedOn(c: Cache, c1: Cache, d: Cache, conns: seq<Conn>, i: nat, sz: nat)
    requires AllPlaced(c, conns) && Counted(c, conns) && i < |conns| && conns[i].Sending? && Placed(c, conns[i])
    requires var q := ChunkAt(conns[i].e, conns[i].sent + sz);
             Keeps(c, c1) && SameUses(c, c1) && Shifted(c, c1, q, OneIf(Present(c.ents, q)))
    requires var r := ChunkAt(conns[i].e, conns[i].sent);
             Keeps(c1, d) && SameUses(c1, d) && Present(c1.ents, r) && Shifted(c1, d, r, -1)
    ensures AllPlaced(d, conns) && InUse(d, conns[i].e) && SizeAt(d, conns[i].e) == SizeAt(c, conns[i].e)
    ensures forall e: nat :: UsesOf(d, e) == Users(conns, e)
    ensures var q := ChunkAt(conns[i].e, conns[i].sent + sz);
            && Present(d.ents, q) == Present(c.ents, q)
            && (Present(c.ents, q) ==> Counted(d, conns[i := Sending(conns[i].e, conns[i].sent + sz, 1)]))
            && (!Present(c.ents, q) ==> forall p :: LocksOf(d, p) == Holders(conns[i := Idle], p))
  {
    hide Keeps, AllPlaced;
    var x := conns[i];
    var q, r, x' := ChunkAt(x.e, x.sent + sz), ChunkAt(x.e, x.sent), Sending(x.e, x.sent + sz, 1);
    SameUsesPlaced(c, c1, conns);
    SameUsesPlaced(c1, d, conns);
    KeepsTwice(c, c1, d, x.e, q);
    forall e: nat ensures UsesOf(d, e) == Users(conns, e) && Users(conns[i := x'], e) == Users(conns, e) {
      assert UsesOf(d, e) == UsesOf(c1, e) && UsesOf(c1, e) == UsesOf(c, e) && UsesOf(c, e) == Users(conns, e);
      CountsSet(conns, i, x', r, e);
    }
    forall p
      ensures LocksOf(d, p) == Holders(conns, p) + (if p == q then OneIf(Present(c.ents, q)) else 0) - OneIf(p == r) {
      assert LocksOf(d, p) == LocksOf(c1, p) + (if p == r then -1 else 0);
      assert LocksOf(c1, p) == LocksOf(c, p) + (if p == q then OneIf(Present(c.ents, q)) else 0);
      assert LocksOf(c, p) == Holders(conns, p);
    }
    forall p ensures Holders(conns[i := x'], p) == Holders(conns, p) + OneIf(p == q) - OneIf(p == r)
                     && Holders(conns[i := Idle], p) == Holders(conns, p) - OneIf(p == r) {
      CountsSet(conns, i, x', p, 0);
      CountsSet(conns, i, Idle, p, 0);
    }
  }

  lemma {:induction false} KeepsTwice(c: Cache, c1: Cache, d: Cache, e: nat, q: Ref)
    requires Keeps(c, c1) && SameUses(c, c1) && Keeps(c1, d) && SameUses(c1, d) && InUse(c, e) && q.e == e
    ensures InUse(d, e) && SizeAt(d, e) == SizeAt(c, e) && Present(d.ents, q) == Present(c.ents, q)
  {
    assert UsesOf(c1, e) == UsesOf(c, e) && UsesOf(d, e) == UsesOf(c1, e);
    assert InUse(c1, e);
  }

  lemma {:induction false} PlaceMoved(page: nat, d: Cache, conns: seq<Conn>, i: nat, x: Conn)
    requires Inv(page, d) && AllPlaced(d, conns) && i < |conns| && Placed(d, x) && Counted(d, conns[i := x])
    ensures Holds(page, Fine(System(d, conns[i := x])))
  {
    SetPlaced(d, conns, i, x);
  }

  lemma {:induction false} LeaveMoved(page: nat, c: Cache, d: Cache, conns: seq<Conn>, i: nat, x: Conn)
    requires page > 0 && Inv(page, d) && AllPlaced(d, conns) && i < |conns| && conns[i].Sending? && x.Sending?
    requires x.e == conns[i].e && x.locks == 0 && InUse(d, x.e)
    requires forall e: nat :: UsesOf(d, e) == Users(conns, e)
    requires forall p :: LocksOf(d, p) == Holders(conns[i := Idle], p)
    ensures forall budget: nat :: Holds(page, Finish(page, budget, d, conns, i, x))
  {
    hide Inv, Holds, Leave;
    SetPlaced(d, conns, i, Idle);
    LeaveHolds(page, d, conns, i, x.e);
  }

  lemma {:induction false} StartedHolds(page: nat, c: Cache, d: Cache, conns: seq<Conn>, i: nat, e: nat)
    requires page > 0 && Inv(page, d) && i < |conns| && conns[i].Idle? && InUse(d, e)
    requires AllPlaced(c, conns) && Counted(c, conns) && Keeps(c, d)
    requires forall r :: LocksOf(d, r) == LocksOf(c, r)
    requires forall x: nat :: UsesOf(d, x) == UsesOf(c, x) + OneIf(x == e)
    ensures Holds(page, Started(page, d, conns, i, e))
  {
    hide Inv, Inc, AllPlaced, Keeps;
    var f, x, r := Inc(page, d, e, 0), Sending(e, 0, 1), ChunkAt(e, 0);
    FirstChunk(page, d, e);
    IncInv(page, d, e, 0);
    IncCounts(page, d, e, 0);
    var conns' := conns[i := x];
    forall q ensures LocksOf(f, q) == Holders(conns', q) {
      CountsSet(conns, i, x, q, e);
      assert LocksOf(f, q) == LocksOf(d, q) + (if q == r then 1 else 0) && LocksOf(d, q) == LocksOf(c, q)
             && LocksOf(c, q) == Holders(conns, q);
    }
    forall y: nat ensures UsesOf(f, y) == Users(conns', y) {
      CountsSet(conns, i, x, r, y);
      assert UsesOf(f, y) == UsesOf(d, y) && UsesOf(d, y) == UsesOf(c, y) + OneIf(y == e)
             && UsesOf(c, y) == Users(conns, y);
    }
    StartPlaced(c, d, f, conns, e);
    SetPlaced(f, conns, i, x);
  }

  lemma {:induction false} FirstChunk(page: nat, d: Cache, e: nat)
    requires Inv(page, d) && InUse(d, e)
    ensures Present(d.ents, ChunkAt(e, 0))
  {
    assert EntryInv(d.ents[e].value);
  }

  lemma {:induction false} StartPlaced(c: Cache, d: Cache, f: Cache, conns: seq<Conn>, e: nat)
    requires AllPlaced(c, conns) && Keeps(c, d) && Keeps(d, f) && SameUses(d, f) && InUse(d, e)
             && Present(d.ents, ChunkAt(e, 0))
    requires forall x: nat :: UsesOf(d, x) == UsesOf(c, x) + OneIf(x == e)
    ensures AllPlaced(f, conns) && Placed(f, Sending(e, 0, 1))
  {
    forall i | 0 <= i < |conns| && conns[i].Sending? ensures UsesOf(d, conns[i].e) > 0 {
      assert Placed(c, conns[i]);
      assert UsesOf(d, conns[i].e) == UsesOf(c, conns[i].e) + OneIf(conns[i].e == e);
    }
    StaysPlaced(c, d, conns);
    SameUsesPlaced(d, f, conns);
    assert UsesOf(f, e) == UsesOf(d, e);
    assert InUse(f, e);
  }

  lemma {:induction false} OpenHolds(page: nat, budget: nat, s: System, i: nat, e: nat)
    requires page > 0 && SysInv(page, s) && Enabled(s, Open(i, e))
    ensures Holds(page, Step(page, budget, s, Open(i, e)))
  {
    hide Inv, Holds, Started, AllPlaced, Counted;
    var c := s.cache;
    var d := Recounted(c, e, c.ents[e].value.refs + 1, false);
    EntryAt(page, c, e);
    RecountedInv(page, c, e, c.ents[e].value.refs + 1, false);
    assert forall r :: Present(d.ents, r) <==> Present(c.ents, r);
    StartedHolds(page, c, d, s.conns, i, e);
  }

  lemma {:induction false} EntryAt(page: nat, c: Cache, e: nat)
    requires Inv(page, c) && e < |c.ents| && c.ents[e].Some?
    ensures EntryInv(c.ents[e].value)
  {
  }

  lemma {:induction false} OpenNewHolds(page: nat, budget: nat, s: System, i: nat, size: nat)
    requires page > 0 && SysInv(page, s) && Enabled(s, OpenNew(i, size))
    ensures Holds(page, Step(page, budget, s, OpenNew(i, size)))
  {
    hide Inv, Holds, Started, AllPlaced, Counted;
    var c, d := s.cache, AddEntry(s.cache, size);
    AddEntryInv(page, c, size);
    forall r ensures LocksOf(d, r) == LocksOf(c, r) {
      assert r.e < |c.ents| ==> d.ents[r.e] == c.ents[r.e];
    }
    StartedHolds(page, c, d, s.conns, i, |c.ents|);
  }

  lemma {:induction false} ReadHolds(page: nat, budget: nat, s: System, i: nat)
    requires page > 0 && SysInv(page, s) && Enabled(s, ReadIn(i))
    ensures Holds(page, Step(page, budget, s, ReadIn(i)))
  {
    hide Inv, AllPlaced, Keeps, SameUses, Shifted, Read;
    var c, x := s.cache, s.conns[i];
    PlacedAt(c, s.conns, i);
    CountsMember(s.conns, i);
    assert LocksOf(c, ChunkAt(x.e, x.sent)) == Holders(s.conns, ChunkAt(x.e, x.sent));
    if Read(page, budget, c, x.e, x.sent).Some? {
      ReadCounts(page, budget, c, x.e, x.sent);
      var d := Read(page, budget, c, x.e, x.sent).value;
      SparesCounted(c, d, s.conns, ChunkAt(x.e, x.sent));
      SameUsesPlaced(c, d, s.conns);
    }
  }

  lemma {:induction false} StaleHolds(page: nat, budget: nat, s: System, e: nat)
    requires page > 0 && SysInv(page, s) && Enabled(s, Stale(e))
    ensures Holds(page, Step(page, budget, s, Stale(e)))
  {
    hide Inv, AllPlaced, Keeps, SameUses, Shifted, Freed, Counted;
    var c, conns := s.cache, s.conns;
    var d: Cache;
    EntryAt(page, c, e);
    if c.ents[e].value.refs == 0 {
      if Freed(page, c, e).None? {
        return;
      }
      d := Freed(page, c, e).value;
      FreedSpares(page, c, e);
      SparesCounts(page, c, d, Ref(e, 0));
    } else {
      d := Recounted(c, e, c.ents[e].value.refs, true);
      RecountedInv(page, c, e, c.ents[e].value.refs, true);
      RecountedCounts(c, e, c.ents[e].value.refs, true);
    }
    SparesCounted(c, d, conns, Ref(e, 0));
    SameUsesPlaced(c, d, conns);
  }

  lemma {:induction false} RecountedCounts(c: Cache, e: nat, refs: int, invalid: bool)
    requires e < |c.ents| && c.ents[e].Some? && refs == c.ents[e].value.refs
    ensures var d := Recounted(c, e, refs, invalid);
            Keeps(c, d) && SameUses(c, d) && Shifted(c, d, Ref(e, 0), 0)
  {
    assert forall r :: Present(Recounted(c, e, refs, invalid).ents, r) <==> Present(c.ents, r);
  }

  lemma {:induction false} CloseHolds(page: nat, budget: nat, s: System, i: nat)
    requires page > 0 && SysInv(page, s) && Enabled(s, Close(i))
    ensures Holds(page, Step(page, budget, s, Close(i)))
  {
    hide Inv, AllPlaced, Finish, Holds, Counted;
    PlacedAt(s.cache, s.conns, i);
    SetPlaced(s.cache, s.conns, i, Idle);
    assert s.conns[i := s.conns[i]] == s.conns;
    FinishHolds(page, budget, s.cache, s.conns, i, s.conns[i]);
  }

  /** Every step from a state in order avoids the exits and leaves one. */
  lemma {:induction false} StepHolds(page: nat, budget: nat, s: System, ev: Event)
    requires page > 0 && SysInv(page, s) && Enabled(s, ev)
    ensures Holds(page, Step(page, budget, s, ev))
  {
    hide SysInv, Holds, Finish, Sent, Started, Read, Invalidate;
    match ev {
      case Open(i, e) => OpenHolds(page, budget, s, i, e);
      case OpenNew(i, size) => OpenNewHolds(page, budget, s, i, size);
      case ReadIn(i) => ReadHolds(page, budget, s, i);
      case Write(i, sz) => SentHolds(page, budget, s, i, sz);
      case Close(i) => CloseHolds(page, budget, s, i);
      case Stale(e) => StaleHolds(page, budget, s, e);
    }
  }

  // ------------------------------------------------------------------
  // What a step does for its connection

  /** A file is opened at its first byte; reading and a stale entry leave the
      connections as they are; a write moves its connection on by what it took,
      and one that has its file sent, or is closed, is done. */
  lemma {:induction false} StepMeans(page: nat, budget: nat, s: System, ev: Event)
    requires page > 0 && SysInv(page, s) && Enabled(s, ev) && Step(page, budget, s, ev).Fine?
    ensures var conns := Step(page, budget, s, ev).s.conns;
            match ev
            case Open(i, e) => conns == s.conns[i := Sending(e, 0, 1)]
            case OpenNew(i, size) => conns == s.conns[i := Sending(|s.cache.ents|, 0, 1)]
            case Write(i, sz) =>
              var x := s.conns[i];
              conns == s.conns[i := if x.sent + sz < SizeAt(s.cache, x.e) then Sending(x.e, x.sent + sz, 1) else Idle]
            case Close(i) => conns == s.conns[i := Idle]
            case _ => conns == s.conns
  {
    hide Inv, AllPlaced, Counted, Dec, Inc, Read, Invalidate, Release, Recounted, AddEntry;
    StepHolds(page, budget, s, ev);
    var o := Step(page, budget, s, ev);
    match ev {
      case Open(i, _) => PlacedAt(o.s.cache, o.s.conns, i);
      case OpenNew(i, _) => PlacedAt(o.s.cache, o.s.conns, i);
      case Write(i, sz) =>
        if s.conns[i].sent + sz < SizeAt(s.cache, s.conns[i].e) {
          PlacedAt(o.s.cache, o.s.conns, i);
        }
      case _ =>
    }
  }

  /** After a read a connection can send the rest of its block or of its file, and
      that is something. */
  lemma {:induction false} ReadThenSend(page: nat, budget: nat, s: System, i: nat)
    requires page > 0 && SysInv(page, s) && Enabled(s, ReadIn(i)) && Step(page, budget, s, ReadIn(i)).Fine?
    requires SizeAt(s.cache, s.conns[i].e) > 0
    ensures var d, x, size := Step(page, budget, s, ReadIn(i)).s.cache, s.conns[i], SizeAt(s.cache, s.conns[i].e);
            && Sendable(d, x) > 0
            && Sendable(d, x) == if size - x.sent < BLOCK - x.sent % BLOCK then size - x.sent
                                 else BLOCK - x.sent % BLOCK
  {
    hide Inv, AllPlaced, Counted, Read;
    var x, c := s.conns[i], s.cache;
    PlacedAt(c, s.conns, i);
    HeldPositive(c, s.conns, i);
    ReadMaps(page, budget, c, x.e, x.sent);
    ReadCounts(page, budget, c, x.e, x.sent);
  }

  // ------------------------------------------------------------------
  // Runs

  /** The outcome of a run; events that cannot happen are passed over. */
  ghost function Run(page: nat, budget: nat, s: System, evs: seq<Event>): (o: Outcome)
    requires page > 0
    decreases |evs|
  {
    if evs == [] then Fine(s)
    else if !Enabled(s, evs[0]) then Run(page, budget, s, evs[1..])
    else
      var o := Step(page, budget, s, evs[0]);
      if o.Fine? then Run(page, budget, o.s, evs[1..]) else o
  }

  /** In every run each sending connection holds one lock, on the chunk of its
      next byte, each chunk's lock count is the number of such connections, and
      none of the lock errors is met. */
  lemma {:induction false} RunHolds(page: nat, budget: nat, s: System, evs: seq<Event>)
    requires page > 0 && SysInv(page, s)
    ensures Holds(page, Run(page, budget, s, evs))
    decreases |evs|
  {
    hide SysInv, Step, Enabled;
    if evs != [] {
      if Enabled(s, evs[0]) {
        StepHolds(page, budget, s, evs[0]);
        var o := Step(page, budget, s, evs[0]);
        if o.Fine? {
          RunHolds(page, budget, o.s, evs[1..]);
        }
      } else {
        RunHolds(page, budget, s, evs[1..]);
      }
    }
  }

  const EMPTY := Cache([], [], 0, 0)

  /** The same from the start: n connections, all idle, and an empty cache. */
  lemma {:induction false} NoLockErrors(page: nat, budget: nat, n: nat, evs: seq<Event>)
    requires page > 0
    ensures Holds(page, Run(page, budget, System(EMPTY, seq(n, _ => Idle)), evs))
  {
    var conns: seq<Conn> := seq(n, _ => Idle);
    forall r ensures Holders(conns, r) == 0 && Users(conns, r.e) == 0 {
      IdleCounts(conns, r);
    }
    forall e: nat ensures Users(conns, e) == 0 {
      assert Users(conns, Ref(e, 0).e) == 0;
    }
    RunHolds(page, budget, System(EMPTY, conns), evs);
  }

  lemma {:induction false} IdleCounts(conns: seq<Conn>, r: Ref)
    requires forall i :: 0 <= i < |conns| ==> conns[i] == Idle
    ensures Holders(conns, r) == 0 && Users(conns, r.e) == 0
  {
    if conns != [] {
      IdleCounts(conns[1..], r);
    }
  }

  // ------------------------------------------------------------------
  // When a freed chunk record is left on the list

  ghost predicate FinishHazard(page: nat, budget: nat, c: Cache, x: Conn)
    requires page > 0 && x.Sending?
  {
    if x.locks == 0 then LeaveHazard(c, x.e)
    else
      Unlockable(page, c, x.e, x.sent) &&
      var d := Dec(page, budget, c, x.e, x.sent);
      DecHazard(page, budget, c, x.e, x.sent) || (d.Some? && LeaveHazard(d.value, x.e))
  }

  ghost predicate SentHazard(page: nat, budget: nat, c: Cache, x: Conn, sz: nat)
    requires page > 0 && x.Sending?
  {
    var c1 := Inc(page, c, x.e, x.sent + sz);
    Unlockable(page, c1, x.e, x.sent) &&
    var d := Dec(page, budget, c1, x.e, x.sent);
    var locks := LocksAfter(c, x, sz);
    || DecHazard(page, budget, c1, x.e, x.sent)
    || (d.Some? && x.sent + sz >= SizeAt(c, x.e)
        && FinishHazard(page, budget, d.value, Sending(x.e, x.sent + sz, locks)))
  }

  /** Some operation of the event goes wrong, by the state in which it begins. */
  ghost predicate Hazard(page: nat, budget: nat, s: System, ev: Event)
    requires page > 0 && Enabled(s, ev)
  {
    match ev
    case Open(_, _) => false
    case OpenNew(_, _) => false
    case ReadIn(i) => ReadHazard(page, budget, s.cache, s.conns[i].e, s.conns[i].sent)
    case Write(i, sz) => SentHazard(page, budget, s.cache, s.conns[i], sz)
    case Close(i) => FinishHazard(page, budget, s.cache, s.conns[i])
    case Stale(e) => StaleHazard(s.cache, e)
  }

  lemma {:induction false} LeaveExactly(page: nat, c: Cache, conns: seq<Conn>, i: nat, e: nat)
    requires page > 0 && i < |conns|
    ensures Leave(page, c, conns, i, e) == Corrupt <==> LeaveHazard(c, e)
  {
    if InUse(c, e) {
      var ent := c.ents[e].value;
      BareSame(ent, ent.(refs := ent.refs - 1));
    }
  }

  lemma {:induction false} FinishExactly(page: nat, budget: nat, c: Cache, conns: seq<Conn>, i: nat, x: Conn)
    requires page > 0 && i < |conns| && x.Sending? && Finish(page, budget, c, conns, i, x) != Exit
    ensures Finish(page, budget, c, conns, i, x) == Corrupt <==> FinishHazard(page, budget, c, x)
  {
    hide Dec, DecHazard, Leave, LeaveHazard, Inv;
    if x.locks == 0 {
      LeaveExactly(page, c, conns, i, x.e);
    } else {
      DecExactly(page, budget, c, x.e, x.sent);
      var d := Dec(page, budget, c, x.e, x.sent);
      if d.Some? {
        LeaveExactly(page, d.value, conns, i, x.e);
      }
    }
  }

  lemma {:induction false} SentExactly(page: nat, budget: nat, c: Cache, conns: seq<Conn>, i: nat, sz: nat)
    requires page > 0 && i < |conns| && conns[i].Sending? && Sent(page, budget, c, conns, i, sz) != Exit
    ensures Sent(page, budget, c, conns, i, sz) == Corrupt <==> SentHazard(page, budget, c, conns[i], sz)
  {
    hide Dec, DecHazard, Inc, Finish, FinishHazard, Inv;
    var x := conns[i];
    var c1 := Inc(page, c, x.e, x.sent + sz);
    DecExactly(page, budget, c1, x.e, x.sent);
    var d := Dec(page, budget, c1, x.e, x.sent);
    if d.Some? && x.sent + sz >= SizeAt(c, x.e) {
      var locks := LocksAfter(c, x, sz);
      FinishExactly(page, budget, d.value, conns, i, Sending(x.e, x.sent + sz, locks));
    }
  }

  /** A step leaves a freed record on the list exactly when it meets a hazard. */
  lemma {:induction false} StepExactly(page: nat, budget: nat, s: System, ev: Event)
    requires page > 0 && SysInv(page, s) && Enabled(s, ev)
    ensures Step(page, budget, s, ev) == Corrupt <==> Hazard(page, budget, s, ev)
  {
    hide SysInv, Finish, FinishHazard, Sent, SentHazard, Read, ReadHazard, Inv, HasBare;
    StepHolds(page, budget, s, ev);
    match ev {
      case ReadIn(i) => ReadExactly(page, budget, s.cache, s.conns[i].e, s.conns[i].sent);
      case Write(i, sz) => SentExactly(page, budget, s.cache, s.conns, i, sz);
      case Close(i) => FinishExactly(page, budget, s.cache, s.conns, i, s.conns[i]);
      case _ =>
    }
  }

  /** The run comes to its n-th event and meets a hazard there. */
  ghost predicate HazardAt(page: nat, budget: nat, s: System, evs: seq<Event>, n: nat)
    requires page > 0
  {
    n < |evs| &&
    var o := Run(page, budget, s, evs[..n]);
    o.Fine? && Enabled(o.s, evs[n]) && Hazard(page, budget, o.s, evs[n])
  }

  lemma {:induction false} HazardFirst(page: nat, budget: nat, s: System, evs: seq<Event>)
    requires page > 0 && evs != []
    ensures HazardAt(page, budget, s, evs, 0) <==> Enabled(s, evs[0]) && Hazard(page, budget, s, evs[0])
  {
    hide Enabled, Hazard;
    assert evs[..0] == [];
  }

  lemma {:induction false} HazardLater(page: nat, budget: nat, s: System, evs: seq<Event>, s': System, n: nat)
    requires page > 0 && evs != []
    requires if Enabled(s, evs[0]) then Step(page, budget, s, evs[0]) == Fine(s') else s' == s
    ensures HazardAt(page, budget, s, evs, n + 1) <==> HazardAt(page, budget, s', evs[1..], n)
  {
    hide Enabled, Hazard, Step;
    if n + 1 < |evs| {
      assert evs[..n + 1][1..] == evs[1..][..n];
    }
  }

  /** A run leaves a freed record on the list exactly when it meets a hazard. */
  lemma {:induction false} CorruptExactly(page: nat, budget: nat, s: System, evs: seq<Event>)
    requires page > 0 && SysInv(page, s)
    ensures Run(page, budget, s, evs) == Corrupt <==> exists n: nat :: HazardAt(page, budget, s, evs, n)
    decreases |evs|
  {
    hide SysInv, Step, Enabled, HazardAt, Hazard;
    if evs == [] {
      forall n: nat ensures !HazardAt(page, budget, s, evs, n) {
        NoHazard(page, budget, s, n);
      }
    } else {
      HazardFirst(page, budget, s, evs);
      if Enabled(s, evs[0]) {
        StepHolds(page, budget, s, evs[0]);
        StepExactly(page, budget, s, evs[0]);
        var o := Step(page, budget, s, evs[0]);
        if o.Fine? {
          RestExactly(page, budget, s, evs, o.s);
        } else {
          assert HazardAt(page, budget, s, evs, 0);
        }
      } else {
        RestExactly(page, budget, s, evs, s);
      }
    }
  }

  lemma {:induction false} NoHazard(page: nat, budget: nat, s: System, n: nat)
    requires page > 0
    ensures !HazardAt(page, budget, s, [], n)
  {
  }

  lemma {:induction false} RestExactly(page: nat, budget: nat, s: System, evs: seq<Event>, s': System)
    requires page > 0 && evs != [] && SysInv(page, s') && !HazardAt(page, budget, s, evs, 0)
    requires if Enabled(s, evs[0]) then Step(page, budget, s, evs[0]) == Fine(s') else s' == s
    ensures Run(page, budget, s', evs[1..]) == Corrupt <==> exists n: nat :: HazardAt(page, budget, s, evs, n)
    decreases |evs|, 0
  {
    hide SysInv, Step, Enabled, HazardAt, Hazard;
    CorruptExactly(page, budget, s', evs[1..]);
    if n: nat :| HazardAt(page, budget, s, evs, n) {
      HazardLater(page, budget, s, evs, s', n - 1);
    }
    if n: nat :| HazardAt(page, budget, s', evs[1..], n) {
      HazardLater(page, budget, s, evs, s', n);
      assert HazardAt(page, budget, s, evs, n + 1);
    }
  }

  // ------------------------------------------------------------------
  // When no freed chunk record is left on the list

  /** No chunk loses its last lock while it has no data. */
  ghost predicate Quiet(s: System, ev: Event) {
    match ev
    case Write(i, _) => i < |s.conns| && s.conns[i].Sending? ==> Covered(s.cache, s.conns[i])
    case Close(i) => i < |s.conns| && s.conns[i].Sending? ==> Covered(s.cache, s.conns[i])
    case _ => true
  }

  /** The connection's chunk has its data, or another lock. */
  ghost predicate Covered(c: Cache, x: Conn)
    requires x.Sending?
  {
    var r := ChunkAt(x.e, x.sent);
    Present(c.ents, r) ==> ChunkOf(c.ents, r).mapped || ChunkOf(c.ents, r).refs > 1
  }

  /** Ends well, with data in every listed chunk. */
  ghost predicate EndsWell(o: Outcome) {
    o.Fine? && NoBare(o.s.cache)
  }

  lemma {:induction false} DecNoBare(page: nat, budget: nat, c: Cache, e: nat, bytes: nat)
    requires page > 0 && Unlockable(page, c, e, bytes) && NoBare(c) && Covered(c, Sending(e, bytes, 1))
    ensures Dec(page, budget, c, e, bytes).Some? && NoBare(Dec(page, budget, c, e, bytes).value)
  {
    hide Inv, Change, NoBare, Reduce;
    var r := ChunkAt(e, bytes);
    if Present(c.ents, r) {
      var ch := ChunkOf(c.ents, r);
      UnlockedListed(page, c, r);
      ChangeInv(page, c, r, Unlocked(ch));
      ChangeNoBare(page, c, r, Unlocked(ch));
      if ch.refs == 1 {
        ReduceNoBare(page, budget, Change(page, c, r, Unlocked(ch)));
      }
    }
  }

  lemma {:induction false} IncNoBare(page: nat, c: Cache, e: nat, bytes: nat)
    requires page > 0 && Inv(page, c) && InUse(c, e) && NoBare(c)
    ensures NoBare(Inc(page, c, e, bytes))
  {
    hide Inv, Change, NoBare;
    var r := ChunkAt(e, bytes);
    if Present(c.ents, r) {
      UnlockedListed(page, c, r);
      ListedMapped(c, r);
      ChangeNoBare(page, c, r, Locked(ChunkOf(c.ents, r)));
    }
  }

  lemma {:induction false} ListedMapped(c: Cache, r: Ref)
    requires NoBare(c) && Present(c.ents, r)
    ensures ChunkOf(c.ents, r).listed ==> ChunkOf(c.ents, r).mapped
  {
  }

  lemma {:induction false} RecountedNoBare(c: Cache, e: nat, refs: int, invalid: bool)
    requires NoBare(c) && e < |c.ents| && c.ents[e].Some?
    ensures NoBare(Recounted(c, e, refs, invalid))
  {
    var d := Recounted(c, e, refs, invalid);
    forall r | Present(d.ents, r) && ChunkOf(d.ents, r).listed ensures ChunkOf(d.ents, r).mapped {
      assert Present(c.ents, r) && ChunkOf(d.ents, r) == ChunkOf(c.ents, r);
    }
  }

  lemma {:induction false} LeaveNoBare(page: nat, c: Cache, conns: seq<Conn>, i: nat, e: nat)
    requires page > 0 && NoBare(c) && i < |conns| && InUse(c, e)
    ensures EndsWell(Leave(page, c, conns, i, e))
  {
    hide NoBare, Freed;
    var ent := c.ents[e].value;
    RecountedNoBare(c, e, ent.refs - 1, ent.invalid);
    FreedNoBare(page, Recounted(c, e, ent.refs - 1, ent.invalid), e);
  }

  lemma {:induction false} FinishNoBare(page: nat, budget: nat, c: Cache, conns: seq<Conn>, i: nat, x: Conn)
    requires page > 0 && NoBare(c) && i < |conns| && x.Sending? && InUse(c, x.e)
    requires x.locks != 0 ==>
               && x.locks == 1 && Unlockable(page, c, x.e, x.sent)
               && Present(c.ents, ChunkAt(x.e, x.sent)) && Covered(c, x)
    ensures EndsWell(Finish(page, budget, c, conns, i, x))
  {
    hide NoBare, Dec, Leave, EndsWell, SameUses, Keeps, Shifted, Inv;
    if x.locks != 0 {
      DecNoBare(page, budget, c, x.e, x.sent);
      DecCounts(page, budget, c, x.e, x.sent);
      var d := Dec(page, budget, c, x.e, x.sent).value;
      StillUsed(c, d, x.e);
      LeaveNoBare(page, d, conns, i, x.e);
    } else {
      LeaveNoBare(page, c, conns, i, x.e);
    }
  }

  lemma {:induction false} StillUsed(c: Cache, d: Cache, e: nat)
    requires SameUses(c, d) && InUse(c, e)
    ensures InUse(d, e)
  {
    assert UsesOf(d, e) == UsesOf(c, e);
  }

  /** The last send of a file ends in the chunk it started in, or at its end. */
  lemma {:induction false} LastSend(page: nat, c: Cache, x: Conn, sz: nat)
    requires Inv(page, c) && x.Sending? && Placed(c, x) && sz <= Sendable(c, x) && x.sent + sz >= SizeAt(c, x.e)
    ensures Present(c.ents, ChunkAt(x.e, x.sent + sz)) ==> ChunkAt(x.e, x.sent + sz) == ChunkAt(x.e, x.sent)
  {
    var ent := c.ents[x.e].value;
    assert EntryInv(ent);
    SameBlock(ent.size, x.sent, sz);
  }

  lemma {:induction false} SameBlock(size: nat, sent: nat, sz: nat)
    requires sent + sz == size && sz <= BLOCK - sent % BLOCK
    ensures size / BLOCK < NumChunks(size) ==> size / BLOCK == sent / BLOCK
  {
  }

  /** Moving the lock within a chunk leaves the chunk as it was. */
  lemma {:induction false} SameChunk(page: nat, budget: nat, c: Cache, e: nat, a: nat, b: nat)
    requires page > 0 && Inv(page, c) && InUse(c, e) && Present(c.ents, ChunkAt(e, a)) && ChunkAt(e, b) == ChunkAt(e, a)
    requires ChunkOf(c.ents, ChunkAt(e, a)).refs > 0
    requires Unlockable(page, Inc(page, c, e, b), e, a)
    ensures var o := Dec(page, budget, Inc(page, c, e, b), e, a);
            o.Some? && Present(o.value.ents, ChunkAt(e, b))
              && ChunkOf(o.value.ents, ChunkAt(e, b)) == ChunkOf(c.ents, ChunkAt(e, a)).(listed := false)
  {
    hide Inv, Change;
    var r := ChunkAt(e, a);
    var ch, c1 := ChunkOf(c.ents, r), Inc(page, c, e, b);
    UnlockedListed(page, c, r);
    ChangeShape(page, c, r, Locked(ch));
    ChangeShape(page, c1, r, Unlocked(Locked(ch)));
  }

  lemma {:induction false} SentNoBare(page: nat, budget: nat, s: System, i: nat, sz: nat)
    requires page > 0 && SysInv(page, s) && i < |s.conns| && s.conns[i].Sending? && sz <= Sendable(s.cache, s.conns[i])
    requires NoBare(s.cache) && Covered(s.cache, s.conns[i])
    ensures EndsWell(Sent(page, budget, s.cache, s.conns, i, sz))
  {
    hide Inv, AllPlaced, Dec, Inc, Finish, Keeps, SameUses, Shifted, NoBare, Counted;
    var c, conns, x := s.cache, s.conns, s.conns[i];
    PlacedAt(c, conns, i);
    SizePlaced(page, c, x, sz);
    var r, q := ChunkAt(x.e, x.sent), ChunkAt(x.e, x.sent + sz);
    var c1 := Inc(page, c, x.e, x.sent + sz);
    IncInv(page, c, x.e, x.sent + sz);
    IncNoBare(page, c, x.e, x.sent + sz);
    IncCounts(page, c, x.e, x.sent + sz);
    MovedUp(page, c, c1, conns, i, q);
    IncCovered(page, c, x, x.sent + sz);
    DecNoBare(page, budget, c1, x.e, x.sent);
    DecCounts(page, budget, c1, x.e, x.sent);
    var d := Dec(page, budget, c1, x.e, x.sent).value;
    var x' := Sending(x.e, x.sent + sz, OneIf(Present(c.ents, q)));
    MovedOn(c, c1, d, conns, i, sz);
    if x.sent + sz >= SizeAt(c, x.e) {
      LastSend(page, c, x, sz);
      if x'.locks == 1 {
        HeldPositive(c, conns, i);
        SameChunk(page, budget, c, x.e, x.sent, x.sent + sz);
      }
      FinishNoBare(page, budget, d, conns, i, x');
    }
  }

  lemma {:induction false} HeldPositive(c: Cache, conns: seq<Conn>, i: nat)
    requires Counted(c, conns) && i < |conns| && conns[i].Sending? && Placed(c, conns[i])
    ensures ChunkOf(c.ents, ChunkAt(conns[i].e, conns[i].sent)).refs > 0
  {
    CountsMember(conns, i);
    assert LocksOf(c, ChunkAt(conns[i].e, conns[i].sent)) == Holders(conns, ChunkAt(conns[i].e, conns[i].sent));
  }

  lemma {:induction false} IncCovered(page: nat, c: Cache, x: Conn, bytes: nat)
    requires page > 0 && x.Sending? && Covered(c, x)
    ensures Covered(Inc(page, c, x.e, bytes), x)
  {
    hide Change;
    var q := ChunkAt(x.e, bytes);
    if Present(c.ents, q) {
      ChangeShape(page, c, q, Locked(ChunkOf(c.ents, q)));
    }
  }

  lemma {:induction false} StartNoBare(page: nat, c: Cache, conns: seq<Conn>, i: nat, e: nat)
    requires page > 0 && Inv(page, c) && InUse(c, e) && NoBare(c) && i < |conns|
    ensures EndsWell(Started(page, c, conns, i, e))
  {
    IncNoBare(page, c, e, 0);
  }

  lemma {:induction false} AddNoBare(c: Cache, size: nat)
    requires NoBare(c)
    ensures NoBare(AddEntry(c, size))
  {
    var d := AddEntry(c, size);
    forall r | Present(d.ents, r) && ChunkOf(d.ents, r).listed ensures ChunkOf(d.ents, r).mapped {
      assert r.e < |c.ents| ==> Present(c.ents, r) && ChunkOf(d.ents, r) == ChunkOf(c.ents, r);
    }
  }

  lemma {:induction false} ReadNoBare(page: nat, budget: nat, c: Cache, e: nat, pos: nat)
    requires page > 0 && Unlockable(page, c, e, pos) && NoBare(c)
    ensures Read(page, budget, c, e, pos).Some? && NoBare(Read(page, budget, c, e, pos).value)
  {
    hide Inv, Change, NoBare, Reduce;
    var r := ChunkAt(e, pos);
    if !(c.ents[e].value.size == 0 || !Present(c.ents, r) || ChunkOf(c.ents, r).mapped) {
      var ch := ChunkOf(c.ents, r).(mapped := true);
      UnlockedListed(page, c, r);
      ChangeInv(page, c, r, ch);
      ChangeNoBare(page, c, r, ch);
      ReduceNoBare(page, budget, Change(page, c, r, ch));
    }
  }

  lemma {:induction false} StepNoBare(page: nat, budget: nat, s: System, ev: Event)
    requires page > 0 && SysInv(page, s) && Enabled(s, ev) && NoBare(s.cache) && Quiet(s, ev)
    ensures EndsWell(Step(page, budget, s, ev))
  {
    hide Inv, AllPlaced, Counted, NoBare, Sent, Finish, Started, Read, Freed;
    var c := s.cache;
    match ev {
      case Open(i, e) =>
        EntryAt(page, c, e);
        RecountedInv(page, c, e, c.ents[e].value.refs + 1, false);
        RecountedNoBare(c, e, c.ents[e].value.refs + 1, false);
        StartNoBare(page, Recounted(c, e, c.ents[e].value.refs + 1, false), s.conns, i, e);
      case OpenNew(i, size) =>
        AddEntryInv(page, c, size);
        AddNoBare(c, size);
        StartNoBare(page, AddEntry(c, size), s.conns, i, |c.ents|);
      case ReadIn(i) =>
        PlacedAt(c, s.conns, i);
        HeldPositive(c, s.conns, i);
        ReadNoBare(page, budget, c, s.conns[i].e, s.conns[i].sent);
      case Write(i, sz) => SentNoBare(page, budget, s, i, sz);
      case Close(i) =>
        PlacedAt(c, s.conns, i);
        HeldPositive(c, s.conns, i);
        FinishNoBare(page, budget, c, s.conns, i, s.conns[i]);
      case Stale(e) =>
        FreedNoBare(page, c, e);
        RecountedNoBare(c, e, c.ents[e].value.refs, true);
    }
  }

  /** Every event of the run is quiet when its turn comes. */
  ghost predicate QuietRun(page: nat, budget: nat, s: System, evs: seq<Event>)
    requires page > 0
    decreases |evs|
  {
    evs == [] ||
    if !Enabled(s, evs[0]) then QuietRun(page, budget, s, evs[1..])
    else
      Quiet(s, evs[0]) &&
      var o := Step(page, budget, s, evs[0]);
      o.Fine? ==> QuietRun(page, budget, o.s, evs[1..])
  }

  /** As long as no chunk without data loses its last lock, every run goes well. */
  lemma {:induction false} NeverCorrupt(page: nat, budget: nat, s: System, evs: seq<Event>)
    requires page > 0 && SysInv(page, s) && NoBare(s.cache) && QuietRun(page, budget, s, evs)
    ensures EndsWell(Run(page, budget, s, evs))
    decreases |evs|
  {
    hide SysInv, Step, Enabled, NoBare, Quiet;
    if evs != [] {
      if Enabled(s, evs[0]) {
        StepHolds(page, budget, s, evs[0]);
        StepNoBare(page, budget, s, evs[0]);
        NeverCorrupt(page, budget, Step(page, budget, s, evs[0]).s, evs[1..]);
      } else {
        NeverCorrupt(page, budget, s, evs[1..]);
      }
    }
  }

  /** A file of 100 bytes is opened, the connection ends before its data has been
      read, as it does when the file has not been modified, and then the entry
      is found stale: its chunk record is freed while on the list. */
  lemma {:induction false} UnreadFileCorrupts(page: nat)
    requires page > 0
    ensures Run(page, 0, System(EMPTY, [Idle]), [OpenNew(0, 100), Close(0), Stale(0)]) == Corrupt
  {
    hide Inv, Placed;
    var s0 := System(EMPTY, [Idle]);
    var evs := [OpenNew(0, 100), Close(0), Stale(0)];
    var s1 := Step(page, 0, s0, evs[0]).s;
    EmptyInv(page);
    StepHolds(page, 0, s0, evs[0]);
    assert AddEntry(EMPTY, 100).ents[0].value.chunks == [NEW_CHUNK];
    assert AddEntry(EMPTY, 100).ents == [Some(Entry(100, 1, false, 0, [NEW_CHUNK]))];
    assert s1.cache.ents[0].value.chunks == [Chunk(1, false, false)];
    assert s1 == System(Cache([Some(Entry(100, 1, false, 0, [Chunk(1, false, false)]))], [], 0, 0), [Sending(0, 0, 1)]);
    StepHolds(page, 0, s1, evs[1]);
    var r := Ref(0, 0);
    var c2 := Change(page, s1.cache, r, Unlocked(ChunkOf(s1.cache.ents, r)));
    assert c2.ents[0].value.chunks == [Chunk(0, false, true)];
    assert c2.ents == [Some(Entry(100, 1, false, 0, [Chunk(0, false, true)]))];
    assert Dec(page, 0, s1.cache, 0, 0) == Some(c2);
    var s2 := Step(page, 0, s1, evs[1]).s;
    assert s2.cache.ents == [Some(Entry(100, 0, false, 0, [Chunk(0, false, true)]))];
    assert Bare(s2.cache.ents[0].value, 0);
    assert Step(page, 0, s2, evs[2]) == Corrupt;
    assert evs[1..] == [Close(0), Stale(0)] && evs[1..][1..] == [Stale(0)];
    assert Run(page, 0, s2, [Stale(0)]) == Corrupt;
    assert Run(page, 0, s1, [Close(0), Stale(0)]) == Corrupt;
  }

  lemma {:induction false} EmptyInv(page: nat)
    requires page > 0
    ensures SysInv(page, System(EMPTY, [Idle])) && NoBare(EMPTY)
  {
    forall r ensures Holders([Idle], r) == 0 && Users([Idle], r.e) == 0 {
      IdleCounts([Idle], r);
    }
    forall e: nat ensures Users([Idle], e) == 0 {
      assert Users([Idle], Ref(e, 0).e) == 0;
    }
  }
}
