/** Flash's chunk cache as it changes its records in place; each operation is
    proved to be the one of ChunkCache. */
module DataCache {
  import opened Lists
  import opened ChunkCache

  /** Two changes of one chunk are one, unless it joins the list and leaves it again. */
  lemma {:induction false} ChangeTwice(page: nat, c: Cache, r: Ref, x: Chunk, y: Chunk)
    requires page > 0 && Present(c.ents, r) && (x.listed == ChunkOf(c.ents, r).listed || x.listed == y.listed)
    ensures Present(Change(page, c, r, x).ents, r)
    ensures Change(page, Change(page, c, r, x), r, y) == Change(page, c, r, y)
  {
    var d := Change(page, c, r, x);
    var size := SizeOf(page, c.ents, r);
    ChangeShape(page, c, r, x);
    assert d.ents[r.e].value.chunks[r.k := y] == c.ents[r.e].value.chunks[r.k := y];
    assert d.ents[r.e := Change(page, d, r, y).ents[r.e]] == c.ents[r.e := Change(page, c, r, y).ents[r.e]];
  }

  class ChunkTable {
    const page: nat
    /** maxLRUCacheSizeBytes; 0 for no limit. */
    const budget: nat
    var ents: seq<Option<Entry>>
    /** The list of chunks that may go, the next to go at its end. */
    var list: seq<Ref>
    var bytesInAll: int
    var bytesInFree: int

    ghost function Now(): (c: Cache) reads this { Cache(ents, list, bytesInAll, bytesInFree) }

    ghost predicate Valid() reads this { Inv(page, Now()) }

    constructor (pageSize: nat, limit: nat)
      requires pageSize > 0
      ensures Valid() && Now() == Cache([], [], 0, 0) && page == pageSize && budget == limit
    {
      page, budget := pageSize, limit;
      ents, list, bytesInAll, bytesInFree := [], [], 0, 0;
    }

    method RemoveFromChunkLRUList(r: Ref)
      requires page > 0 && Present(ents, r) && (ChunkOf(ents, r).listed ==> r in list)
      modifies this
      ensures Now() == Change(page, old(Now()), r, ChunkOf(old(ents), r).(listed := false))
    {
      var ch := ChunkOf(ents, r);
      assert ents[r.e].value.chunks[r.k := ch] == ents[r.e].value.chunks;
      assert ents == WithChunk(ents, r, ch);
      if !ch.listed {
        return;
      }
      list := Without(list, r);
      bytesInFree := bytesInFree - SizeOf(page, ents, r);
      ents := WithChunk(ents, r, ch.(listed := false));
    }

    /** The cache is over budget and something can go. */
    predicate Over() reads this {
      budget != 0 && bytesInAll > budget && bytesInFree > 0
    }

    method TryFreeChunk(r: Ref)
      requires page > 0 && Present(ents, r) && (ChunkOf(ents, r).listed ==> r in list)
      requires ChunkOf(ents, r).refs == 0
      modifies this
      ensures var was, ch := old(Now()), ChunkOf(old(ents), r);
              Now() == if ch.mapped then Change(page, was, r, Dropped(ch)) else was
    {
      hide Change;
      var ch := ChunkOf(ents, r);
      if !ch.mapped {
        return;
      }
      Unmap(r);
      ChangeShape(page, old(Now()), r, ch.(mapped := false));
      ChangeTwice(page, old(Now()), r, ch.(mapped := false), Dropped(ch));
      StillListed(page, old(Now()), r, ch.(mapped := false));
      RemoveFromChunkLRUList(r);
    }

    /** The chunk's data goes: the flag, the bytes and the entry's count. */
    method Unmap(r: Ref)
      requires page > 0 && Present(ents, r) && ChunkOf(ents, r).mapped
      modifies this
      ensures Now() == Change(page, old(Now()), r, ChunkOf(old(ents), r).(mapped := false))
    {
      bytesInAll := bytesInAll - SizeOf(page, ents, r);
      ents := WithChunk(ents, r, ChunkOf(ents, r).(mapped := false));
      ents := ents[r.e := Some(ents[r.e].value.(inMem := ents[r.e].value.inMem - 1))];
    }

    /** Frees an entry; with a chunk of it on the list that has no data, the list
        holds a freed record afterwards. */
    method KillEntry(e: nat)
      requires page > 0 && Valid() && e < |ents| && ents[e].Some? && ents[e].value.refs == 0
      modifies this
      ensures Now() == Kill(page, old(Now()), e) && (Valid() <==> !HasBare(old(ents)[e].value))
    {
      hide Change, Inv;
      var i, n := 0, |ents[e].value.chunks|;
      DropFromInv(page, Now(), e, 0);
      KillExactly(page, Now(), e);
      while i < n
        invariant 0 <= i <= n && Inv(page, Now()) && e < |ents|
        invariant ents[e].Some? && ents[e].value.refs == 0 && |ents[e].value.chunks| == n
        invariant DropFrom(page, Now(), e, i) == DropFrom(page, old(Now()), e, 0)
      {
        ghost var c, r := Now(), Ref(e, i);
        UnlockedListed(page, c, r);
        if ChunkOf(c.ents, r).mapped {
          ChangeInv(page, c, r, Dropped(ChunkOf(c.ents, r)));
          ChangeEntry(page, c, r, Dropped(ChunkOf(c.ents, r)));
        }
        TryFreeChunk(Ref(e, i));
        i := i + 1;
      }
      ents := ents[e := None];
    }

    // In the operations below ok says that every record on the list is still
    // there. The source does not look, and goes on with a freed record.

    /** Unmaps chunks from the end of the list until the cache is within budget.
        None of its exits can be reached. */
    method ReduceCacheIfNeeded() returns (ok: bool)
      requires Valid()
      modifies this
      ensures page > 0 && (ok <==> Valid()) && (ok <==> !Doomed(page, budget, old(Now())))
      ensures ok <==> Reduce(page, budget, old(Now())).Some?
      ensures ok ==> Now() == Reduce(page, budget, old(Now())).value
    {
      hide Change, Inv, ReduceOnce, Freed, Doomed;
      ReduceExactly(page, budget, Now());
      ghost var goal := Reduce(page, budget, Now());
      while Over()
        invariant Inv(page, Now()) && Reduce(page, budget, Now()) == goal
        decreases |list|
      {
        FreeMeansListed(page, Now());
        ListedPresent(page, Now(), list[|list| - 1]);
        ghost var c := Now();
        ok := DropLast();
        if !ok {
          return;
        }
        ReduceStep(page, c);
      }
      return true;
    }

    /** The last chunk of the list goes, and its entry with it if that has come to its end. */
    method DropLast() returns (ok: bool)
      requires page > 0 && Valid() && list != [] && Present(ents, list[|list| - 1])
      modifies this
      ensures ok <==> Valid()
      ensures ok <==> ReduceOnce(page, old(Now())).Some?
      ensures ok ==> Now() == ReduceOnce(page, old(Now())).value
    {
      hide Change, Inv, Kill, HasBare;
      var r := list[|list| - 1];
      ghost var c, ch := Now(), ChunkOf(ents, r);
      UnlockedListed(page, c, r);
      RemoveFromChunkLRUList(r);
      ChangeShape(page, c, r, ch.(listed := false));
      ChangeTwice(page, c, r, ch.(listed := false), Dropped(ch));
      TryFreeChunk(r);
      DropSpares(page, c, r);
      ChangeEntry(page, c, r, Dropped(ch));
      assert Now() == Change(page, c, r, Dropped(ch));
      if ents[r.e].value.inMem == 0 && ents[r.e].value.refs == 0 {
        ok := !HasBare(ents[r.e].value);
        KillEntry(r.e);
        return;
      }
      return true;
    }

    /** Locks the chunk of a byte position, if the file has it; 1 if it has. */
    method IncChunkLock(e: nat, bytes: nat) returns (n: int)
      requires Valid() && InUse(Now(), e)
      modifies this
      ensures Valid() && Now() == Inc(page, old(Now()), e, bytes)
      ensures n == if Present(old(ents), ChunkAt(e, bytes)) then 1 else 0
    {
      hide Change, Inv;
      var chunk := bytes / BLOCK;
      ghost var c := Now();
      PagePositive(page, c);
      IncInv(page, c, e, bytes);
      if chunk >= |ents[e].value.chunks| {
        return 0;
      }
      var r := Ref(e, chunk);
      ghost var ch := ChunkOf(ents, r);
      UnlockedListed(page, c, r);
      if ChunkOf(ents, r).refs == 0 {
        RemoveFromChunkLRUList(r);
        ChangeShape(page, c, r, ch.(listed := false));
        ChangeTwice(page, c, r, ch.(listed := false), Locked(ch));
      }
      AddLocks(r, 1);
      return 1;
    }

    method AddLocks(r: Ref, more: int)
      requires page > 0 && Present(ents, r)
      modifies this
      ensures Now() == Change(page, old(Now()), r, ChunkOf(old(ents), r).(refs := ChunkOf(old(ents), r).refs + more))
    {
      ents := WithChunk(ents, r, ChunkOf(ents, r).(refs := ChunkOf(ents, r).refs + more));
    }

    /** Gives up a lock; with the last one the chunk goes on the list. */
    method DecChunkLock(e: nat, bytes: nat) returns (n: int, ok: bool)
      requires Unlockable(page, Now(), e, bytes)
      modifies this
      ensures page > 0 && (ok <==> Valid()) && (ok <==> !DecHazard(page, budget, old(Now()), e, bytes))
      ensures ok <==> Dec(page, budget, old(Now()), e, bytes).Some?
      ensures ok ==> Now() == Dec(page, budget, old(Now()), e, bytes).value
      ensures n == if Present(old(ents), ChunkAt(e, bytes)) then 1 else 0
    {
      hide Change, Inv, Reduce, DecHazard;
      var chunk := bytes / BLOCK;
      ghost var c := Now();
      PagePositive(page, c);
      DecExactly(page, budget, c, e, bytes);
      if chunk >= |ents[e].value.chunks| {
        return 0, true;
      }
      var r := Ref(e, chunk);
      ghost var ch := ChunkOf(ents, r);
      UnlockedListed(page, c, r);
      ChangeInv(page, c, r, Unlocked(ch));
      AddLocks(r, -1);
      ChangeShape(page, c, r, ch.(refs := ch.refs - 1));
      if ChunkOf(ents, r).refs < 1 {
        ChangeTwice(page, c, r, ch.(refs := ch.refs - 1), Unlocked(ch));
        NotListed(page, c, r, ch.(refs := ch.refs - 1));
        ok := AddToChunkLRUList(r);
        return 1, ok;
      }
      return 1, true;
    }

    method AddToChunkLRUList(r: Ref) returns (ok: bool)
      requires page > 0 && Present(ents, r) && !ChunkOf(ents, r).listed && r !in list
      requires Inv(page, Change(page, Now(), r, ChunkOf(ents, r).(listed := true)))
      modifies this
      ensures ok <==> Valid()
      ensures var d := Reduce(page, budget, Change(page, old(Now()), r, ChunkOf(old(ents), r).(listed := true)));
              (ok <==> d.Some?) && (ok ==> Now() == d.value)
    {
      hide Reduce, Inv;
      ghost var c := Now();
      var ch := ChunkOf(ents, r);
      list := [r] + list;
      bytesInFree := bytesInFree + SizeOf(page, ents, r);
      ents := WithChunk(ents, r, ch.(listed := true));
      assert Now() == Change(page, c, r, ch.(listed := true));
      ok := ReduceCacheIfNeeded();
    }

    /** Maps the data at a position, if the file has any and it is not mapped. */
    method ReadChunkIfNeeded(e: nat, position: nat) returns (ok: bool)
      requires Unlockable(page, Now(), e, position) && Present(ents, ChunkAt(e, position))
      modifies this
      ensures page > 0 && (ok <==> Valid()) && (ok <==> !ReadHazard(page, budget, old(Now()), e, position))
      ensures ok <==> Read(page, budget, old(Now()), e, position).Some?
      ensures ok ==> Now() == Read(page, budget, old(Now()), e, position).value
    {
      hide Reduce, Inv, ReadHazard;
      PagePositive(page, Now());
      ReadExactly(page, budget, Now(), e, position);
      if ents[e].value.size == 0 {
        return true;
      }
      var r := Ref(e, position / BLOCK);
      var ch := ChunkOf(ents, r);
      if ch.mapped {
        return true;
      }
      ghost var c := Now();
      UnlockedListed(page, c, r);
      ChangeInv(page, c, r, ch.(mapped := true));
      bytesInAll := bytesInAll + SizeOf(page, ents, r);
      ents := WithChunk(ents, r, ch.(mapped := true));
      ents := ents[e := Some(ents[e].value.(inMem := ents[e].value.inMem + 1))];
      assert Now() == Change(page, c, r, ch.(mapped := true));
      ok := ReduceCacheIfNeeded();
    }

    method AddEntryToDataCache(size: nat) returns (e: nat)
      requires Valid()
      modifies this
      ensures Valid() && Now() == AddEntry(old(Now()), size) && e == |old(ents)|
    {
      AddEntryInv(page, Now(), size);
      e := |ents|;
      ents := ents + [Some(Entry(size, 1, false, 0, seq(NumChunks(size), _ => NEW_CHUNK)))];
      assert Now() == AddEntry(old(Now()), size);
    }

    /** Gives up a use of an entry in which the caller holds no locks. */
    method ReleaseCacheEntry(e: nat) returns (ok: bool)
      requires Valid() && InUse(Now(), e)
      requires ents[e].value.refs == 1 ==>
                 forall k :: 0 <= k < |ents[e].value.chunks| ==> ents[e].value.chunks[k].refs == 0
      modifies this
      ensures page > 0 && (ok <==> Valid()) && (ok <==> !LeaveHazard(old(Now()), e))
      ensures ok <==> Release(page, old(Now()), e).Some?
      ensures ok ==> Now() == Release(page, old(Now()), e).value
    {
      hide Inv, Kill, HasBare;
      PagePositive(page, Now());
      var ent := ents[e].value;
      RecountedInv(page, Now(), e, ent.refs - 1, ent.invalid);
      ents := ents[e := Some(ent.(refs := ent.refs - 1))];
      assert Now() == Recounted(old(Now()), e, ent.refs - 1, ent.invalid);
      BareSame(ent, ents[e].value);
      if ents[e].value.refs < 1 && ents[e].value.invalid {
        ok := !HasBare(ents[e].value);
        KillEntry(e);
        return;
      }
      return true;
    }

    method MakeEntryInvalid(e: nat) returns (ok: bool)
      requires Valid() && e < |ents| && ents[e].Some?
      modifies this
      ensures page > 0 && (ok <==> Valid()) && (ok <==> !StaleHazard(old(Now()), e))
      ensures ok <==> Invalidate(page, old(Now()), e).Some?
      ensures ok ==> Now() == Invalidate(page, old(Now()), e).value
    {
      hide Inv, Kill, HasBare;
      PagePositive(page, Now());
      var ent := ents[e].value;
      EntryCounts(page, Now(), e);
      if ent.refs == 0 {
        ok := !HasBare(ent);
        KillEntry(e);
        return;
      }
      RecountedInv(page, Now(), e, ent.refs, true);
      ents := ents[e := Some(ent.(invalid := true))];
      assert Now() == Recounted(old(Now()), e, ent.refs, true);
      return true;
    }
  }

  lemma {:induction false} EntryCounts(page: nat, c: Cache, e: nat)
    requires Inv(page, c) && e < |c.ents| && c.ents[e].Some?
    ensures c.ents[e].value.refs >= 0
  {
    assert EntryInv(c.ents[e].value);
  }

  lemma {:induction false} NotListed(page: nat, c: Cache, r: Ref, ch: Chunk)
    requires page > 0 && Inv(page, c) && Present(c.ents, r) && !ChunkOf(c.ents, r).listed && !ch.listed
    ensures r !in Change(page, c, r, ch).list
  {
  }

  /** A chunk that stays flagged stays on the list. */
  lemma {:induction false} StillListed(page: nat, c: Cache, r: Ref, ch: Chunk)
    requires page > 0 && Present(c.ents, r) && (ChunkOf(c.ents, r).listed ==> r in c.list)
             && ch.listed == ChunkOf(c.ents, r).listed
    ensures ch.listed ==> r in Change(page, c, r, ch).list
  {
  }
}
