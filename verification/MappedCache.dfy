/** The userver file cache: its arrays, rewired in place.  Every operation
    refines the recency list of LruCache. */
module MappedCache {
  import opened Lists
  import opened SlotTable
  import L = LruCache

  /** How many slots serve so many buckets: a load factor above one buys more. */
  function SlotCount(buckets: nat, maxLoad: real): (n: nat)
    ensures n >= buckets
    ensures maxLoad >= 1.0 ==> n as real <= maxLoad * buckets as real < n as real + 1.0
  {
    if maxLoad > 1.0 then
      LoadFloor(buckets, maxLoad);
      (buckets as real * maxLoad).Floor
    else buckets
  }

  lemma {:induction false} LoadFloor(buckets: nat, maxLoad: real)
    requires maxLoad > 1.0
    ensures (buckets as real * maxLoad).Floor >= buckets
  {
    assert buckets as real * maxLoad >= buckets as real * 1.0;
  }

  class FileCache {
    const lim: L.Limits
    const hash: string -> nat
    const chain: array<Link>
    const lru: array<Link>
    const info: array<Info>
    const indexTable: array<int>
    var firstFree: int
    var lruFirst: int
    var lruLast: int
    var numEntries: int
    var numBytes: int
    var workingSetCur: int
    ghost var g: Threads

    ghost predicate Shape() {
      && chain.Length == lru.Length == info.Length == lim.slots
      && chain != lru
      && indexTable.Length == lim.buckets > 0
    }

    ghost function Now(): (t: Table)
      reads this, chain, lru, info, indexTable
    {
      Table(chain[..], lru[..], info[..], indexTable[..], firstFree, lruFirst, lruLast)
    }

    /** The cache as its callers see it. */
    ghost function Abs(): (c: seq<L.Entry>)
      reads this, info
    {
      Entries(info[..], g.order)
    }

    /** Everything is in order but for the slot just taken off the free list. */
    ghost predicate ValidBut(taken: int)
      reads this, chain, lru, info, indexTable
    {
      && Shape()
      && Threaded(Now(), g, taken, hash)
      && numEntries == |g.order|
      && numBytes == L.Bytes(Abs())
      && workingSetCur == L.WorkingSet(Abs())
    }

    ghost predicate Valid()
      reads this, chain, lru, info, indexTable
    {
      ValidBut(NIL)
    }

    /** An empty cache: every slot is freed in turn, every bucket is empty. */
    constructor (buckets: nat, maxBytes: int, maxFile: int, maxLoad: real, hash: string -> nat)
      requires buckets > 0 && maxLoad > 0.0
      ensures Valid() && Abs() == [] && this.hash == hash
      ensures lim == L.Limits(SlotCount(buckets, maxLoad), buckets, maxBytes, maxFile, maxLoad)
    {
      var slots := SlotCount(buckets, maxLoad);
      this.lim := L.Limits(slots, buckets, maxBytes, maxFile, maxLoad);
      this.hash := hash;
      chain := new Link[slots](_ => Link(NIL, NIL));
      lru := new Link[slots](_ => Link(NIL, NIL));
      info := new Info[slots](_ => BLANK);
      indexTable := new int[buckets](_ => 0);
      firstFree, lruFirst, lruLast := NIL, NIL, NIL;
      numEntries, numBytes, workingSetCur := 0, 0, 0;
      g := Threads([], [], []);
      new;
      FreeAll();
      BlankThreaded(Now(), hash);
      g := Threads(Down(slots), seq(buckets, _ => []), []);
    }

    /** Free every slot in turn and empty every bucket. */
    method FreeAll()
      requires Shape() && firstFree == NIL && lim.slots >= lim.buckets
      modifies this`firstFree, chain, indexTable
      ensures FreeList(chain[..], firstFree, Down(lim.slots))
      ensures forall h :: 0 <= h < lim.buckets ==> indexTable[h] == NIL
    {
      for i := 0 to lim.slots
        invariant FreeList(chain[..], firstFree, Down(i))
        invariant forall h :: 0 <= h < i && h < lim.buckets ==> indexTable[h] == NIL
      {
        if i < lim.buckets {
          indexTable[i] := NIL;
        }
        PushFree(chain[..], firstFree, Down(i), i);
        FreeElement(i);
        assert Down(i + 1) == [i] + Down(i);
      }
    }

    // ----------------------------------------------------------------
    // Rewiring the lists

    method FreeElement(index: int)
      requires Shape() && 0 <= index < chain.Length
      modifies this`firstFree, chain
      ensures Now() == Freed(old(Now()), index)
    {
      var oldFirst := firstFree;
      firstFree := index;
      chain[index] := Link(oldFirst, NIL);
    }

    method GetElement() returns (ret: int)
      requires Shape() && NIL <= firstFree < chain.Length
      modifies this`firstFree, chain
      ensures ret == old(firstFree)
      ensures Now() == if ret == NIL then old(Now()) else Took(old(Now()), ret)
    {
      if firstFree == NIL {
        ret := NIL;
      } else {
        ret := firstFree;
        firstFree := chain[ret].next;
        chain[ret] := Link(NIL, NIL);
      }
    }

    method AddElement(index: int, hashTo: int)
      requires Shape() && 0 <= index < chain.Length && 0 <= hashTo < indexTable.Length
      requires NIL <= indexTable[hashTo] < chain.Length
      modifies chain, indexTable, info
      ensures Now() == ChainPut(old(Now()), index, hashTo)
    {
      info[index] := info[index].(hashTo := hashTo);
      if indexTable[hashTo] == NIL {
        chain[index] := Link(NIL, NIL);
        indexTable[hashTo] := index;
      } else {
        chain[index] := Link(indexTable[hashTo], NIL);
        chain[indexTable[hashTo]] := chain[indexTable[hashTo]].(prev := index);
        indexTable[hashTo] := index;
      }
    }

    method DeleteElement(index: int)
      requires Shape() && 0 <= index < chain.Length && 0 <= info[index].hashTo < indexTable.Length
      requires NIL <= chain[index].next < chain.Length && NIL <= chain[index].prev < chain.Length
      requires indexTable[info[index].hashTo] == index <==> chain[index].prev == NIL
      modifies chain, indexTable
      ensures Now() == ChainCut(old(Now()), index)
    {
      var cur, h := chain[index], info[index].hashTo;
      if cur.next == NIL && cur.prev == NIL {
        indexTable[h] := NIL;
      } else if indexTable[h] == index {
        indexTable[h] := cur.next;
        chain[cur.next] := chain[cur.next].(prev := NIL);
      } else if cur.next == NIL {
        chain[cur.prev] := chain[cur.prev].(next := NIL);
      } else {
        chain[cur.prev] := chain[cur.prev].(next := cur.next);
        chain[cur.next] := chain[cur.next].(prev := cur.prev);
      }
      chain[index] := Link(NIL, NIL);
    }

    method LruAdd(index: int)
      requires Shape() && 0 <= index < lru.Length && NIL <= lruFirst < lru.Length
      modifies this`lruFirst, this`lruLast, lru
      ensures Now() == LruPut(old(Now()), index)
    {
      if lruFirst == NIL {
        lruFirst := index;
        lruLast := index;
        lru[index] := Link(NIL, NIL);
      } else {
        lru[index] := Link(lruFirst, NIL);
        lru[lruFirst] := lru[lruFirst].(prev := index);
        lruFirst := index;
      }
    }

    method LruDelete(index: int)
      requires Shape() && 0 <= index < lru.Length
      requires NIL <= lru[index].next < lru.Length && NIL <= lru[index].prev < lru.Length
      requires lruFirst == index <==> lru[index].prev == NIL
      requires lruLast == index <==> lru[index].next == NIL
      modifies this`lruFirst, this`lruLast, lru
      ensures Now() == LruCut(old(Now()), index)
    {
      var cur := lru[index];
      if lruFirst == index && lruLast == index {
        lruFirst := NIL;
        lruLast := NIL;
      } else if lruFirst == index {
        lruFirst := cur.next;
        lru[cur.next] := lru[cur.next].(prev := NIL);
      } else if cur.next == NIL {
        lru[cur.prev] := lru[cur.prev].(next := NIL);
        lruLast := cur.prev;
      } else {
        lru[cur.prev] := lru[cur.prev].(next := cur.next);
        lru[cur.next] := lru[cur.next].(prev := cur.prev);
      }
      lru[index] := Link(NIL, NIL);
    }

    // ----------------------------------------------------------------
    // Looking up and evicting

    /** Walk the hash chain of a name. */
    method Probe(uri: string) returns (cur: int)
      requires Valid()
      ensures var f := L.Find(Abs(), uri);
              cur == if f < |g.order| then g.order[f] else NIL
    {
      hide Split, Hashed, Filled, NamesDiffer, LruList, FreeList, L.Bytes, L.WorkingSet;
      var hashTo := hash(uri) % lim.buckets;
      cur := indexTable[hashTo];
      ghost var l, k: int := g.buckets[hashTo], 0;
      assert Doubly(chain[..], l);
      while cur != NIL
        invariant 0 <= k <= |l| && cur == At(l, k)
        invariant forall i :: 0 <= i < k ==> info[l[i]].name != uri
        decreases |l| - k
      {
        if info[cur].name == uri {
          break;
        }
        assert chain[..][l[k]] == Link(At(l, k + 1), At(l, k - 1));
        cur := chain[cur].next;
        k := k + 1;
      }
      ChainFinds(Now(), g, hash, uri, if k < |l| then k else NIL);
    }

    /** Find a name, or take a slot off the free list for it. */
    method Lookup(uri: string) returns (found: bool, index: int, hashTo: int)
      requires Valid()
      modifies this`firstFree, this`g, chain
      ensures hashTo == hash(uri) % lim.buckets && g.order == old(g.order)
      ensures found <==> L.Find(old(Abs()), uri) < |g.order|
      ensures ValidBut(if found then NIL else index)
      ensures found ==> index == g.order[L.Find(old(Abs()), uri)]
      ensures !found ==> (index == NIL <==> |g.order| == lim.slots)
    {
      hide Threaded;
      HeadsInRange(Now(), g, NIL, 0, hash);
      hashTo := hash(uri) % lim.buckets;
      var cur := Probe(uri);
      if cur == NIL {
        FreeCount(Now(), g, hash);
        FirstFree(Now(), g, hash);
        if g.free != [] {
          TookThreaded(Now(), g, hash);
          g := g.(free := g.free[1..]);
        }
        index := GetElement();
        found := false;
      } else {
        index := cur;
        found := true;
      }
    }

    /** Search the LRU list from its old end for a file nobody uses; NIL stands
        for the exit when every file is in use. */
    method Oldest(ghost taken: int) returns (victim: int)
      requires ValidBut(taken)
      ensures victim == At(g.order, L.Victim(Abs()))
    {
      hide Threaded, L.Bytes, L.WorkingSet, L.Victim, Entries;
      HeadsInRange(Now(), g, taken, 0, hash);
      var tmp := lruLast;
      ghost var p: int := |g.order| - 1;
      while tmp != NIL
        invariant -1 <= p < |g.order| && tmp == At(g.order, p)
        invariant forall i :: p < i < |g.order| ==> Abs()[i].refs > 0
        decreases p
      {
        ListedSlot(Now(), g, taken, p, hash);
        if info[tmp].refCount == 0 {
          assert p == L.Victim(Abs());
          return tmp;
        }
        tmp := lru[tmp].prev;
        p := p - 1;
      }
      return NIL;
    }

    /** Pick the victim and wipe it. */
    method Victim(ghost taken: int) returns (victim: int)
      requires ValidBut(taken)
      modifies info, this`numBytes, this`numEntries
      ensures victim == At(g.order, L.Victim(old(Abs())))
      ensures victim != NIL ==>
                && 0 <= victim < info.Length
                && Now() == old(Now()).(info := old(info[..])[victim := Wiped(old(info[victim]))])
                && numBytes == old(numBytes) - old(info[victim].bufLen)
                && numEntries == old(numEntries) - 1
    {
      hide Threaded, L.Bytes, L.WorkingSet, L.Victim, Entries;
      HeadsInRange(Now(), g, taken, 0, hash);
      victim := Oldest(taken);
      if victim != NIL {
        numBytes := numBytes - info[victim].bufLen;
        info[victim] := Wiped(info[victim]);
        numEntries := numEntries - 1;
      }
    }

    /** Cut a slot out of both lists and free it, in the order the source needs. */
    method Discard(index: int)
      requires Shape() && 0 <= index < chain.Length && 0 <= info[index].hashTo < indexTable.Length
      requires NIL <= lru[index].next < lru.Length && NIL <= lru[index].prev < lru.Length
      requires lruFirst == index <==> lru[index].prev == NIL
      requires lruLast == index <==> lru[index].next == NIL
      requires NIL <= chain[index].next < chain.Length && NIL <= chain[index].prev < chain.Length
      requires indexTable[info[index].hashTo] == index <==> chain[index].prev == NIL
      modifies this`firstFree, this`lruFirst, this`lruLast, chain, lru, indexTable
      ensures Now() == Freed(ChainCut(LruCut(old(Now()), index), index), index)
    {
      LruDelete(index);
      DeleteElement(index);
      FreeElement(index);
    }

    /** One round of eviction: wipe the oldest file nobody uses and free its
        slot; NIL stands for the exit when every file is in use. */
    method Evict(ghost taken: int) returns (victim: int)
      requires ValidBut(taken)
      modifies this`firstFree, this`g, this`lruFirst, this`lruLast, this`numBytes, this`numEntries
      modifies chain, lru, info, indexTable
      ensures victim == NIL <==> L.EvictOne(old(Abs())).None?
      ensures victim != NIL ==>
                && ValidBut(taken)
                && 0 <= victim < info.Length && g.free == [victim] + old(g.free)
                && Abs() == L.EvictOne(old(Abs())).value
    {
      hide Threaded, Freed, ChainCut, LruCut, InUse, Entries;
      hide L.Bytes, L.WorkingSet, L.Victim, L.Weight;
      HeadsInRange(Now(), g, taken, 0, hash);
      ghost var t, c, v: int := Now(), Abs(), L.Victim(Abs());
      victim := Victim(taken);
      if victim != NIL {
        ListedSlot(t, g, taken, v, hash);
        Discard(victim);
        EvictThreaded(t, g, taken, v, Now(), hash);
        g := Unthreaded(g, v, info[victim].hashTo);
        L.SumsEvict(c);
      }
    }

    // ----------------------------------------------------------------
    // Requests

    /** Fill the slot just taken and put it in front of its chain and of the LRU list. */
    method Store(index: int, hashTo: int, uri: string, size: nat)
      requires ValidBut(index) && index != NIL && hashTo == hash(uri) % lim.buckets
      requires forall i :: 0 <= i < |g.order| ==> Abs()[i].name != uri
      modifies this`g, this`lruFirst, this`lruLast, this`numBytes, this`numEntries, this`workingSetCur
      modifies chain, lru, info, indexTable
      ensures Valid() && g.order == [index] + old(g.order)
      ensures Abs() == [L.Entry(uri, size, 1)] + old(Abs())
    {
      hide Threaded, Pushed, Entries, L.Bytes, L.WorkingSet;
      HeadsInRange(Now(), g, index, hashTo, hash);
      TakenSlot(Now(), g, index, hash);
      ghost var t, c := Now(), Abs();
      info[index] := info[index].(name := uri);
      AddElement(index, hashTo);
      LruAdd(index);
      info[index] := info[index].(bufLen := size, refCount := info[index].refCount + 1);
      numEntries := numEntries + 1;
      numBytes := numBytes + size;
      workingSetCur := workingSetCur + size;
      assert info[index] == Info(uri, size, 1, hashTo);
      PutTwice(t, index, uri, Info(uri, size, 1, hashTo));
      assert Stores(t, index, Info(uri, size, 1, hashTo), Now());
      StoreThreaded(t, g, index, Info(uri, size, 1, hashTo), Now(), hash);
      g := Rethreaded(g, index, hashTo);
      L.SumsFront(L.Entry(uri, size, 1), c);
    }

    /** Move a slot to the recent end of the LRU list. */
    method LruAccess(index: int)
      requires Shape() && 0 <= index < lru.Length
      requires NIL <= lru[index].next < lru.Length && NIL <= lru[index].prev < lru.Length
      requires lruFirst == index <==> lru[index].prev == NIL
      requires lruLast == index <==> lru[index].next == NIL
      requires NIL <= lruFirst < lru.Length
      modifies this`lruFirst, this`lruLast, lru
      ensures Moves(old(Now()), index, Now())
    {
      LruDelete(index);
      LruAdd(index);
    }

    method IncRefCount(index: int)
      requires Shape() && 0 <= index < info.Length
      modifies this`workingSetCur, info
      ensures Now() == old(Now()).(info := Recounted(old(info[..]), index, old(info[index].refCount) + 1))
      ensures workingSetCur == old(workingSetCur) + old(info[index].bufLen)
    {
      info[index] := info[index].(refCount := info[index].refCount + 1);
      workingSetCur := workingSetCur + info[index].bufLen;
    }

    method DecRefCount(index: int)
      requires Shape() && 0 <= index < info.Length
      modifies this`workingSetCur, info
      ensures Now() == old(Now()).(info := Recounted(old(info[..]), index, old(info[index].refCount) - 1))
      ensures workingSetCur == old(workingSetCur) - old(info[index].bufLen)
    {
      info[index] := info[index].(refCount := info[index].refCount - 1);
      workingSetCur := workingSetCur - info[index].bufLen;
    }

    /** The hit's two changes: the slot moves, then its count goes up. */
    method Touch(index: int) returns (ghost moved: Table)
      requires Shape() && 0 <= index < lru.Length
      requires NIL <= lru[index].next < lru.Length && NIL <= lru[index].prev < lru.Length
      requires lruFirst == index <==> lru[index].prev == NIL
      requires lruLast == index <==> lru[index].next == NIL
      requires NIL <= lruFirst < lru.Length
      modifies this`lruFirst, this`lruLast, this`workingSetCur, lru, info
      ensures Moves(old(Now()), index, moved) && moved.info == old(info[..])
      ensures Now() == moved.(info := Recounted(old(info[..]), index, old(info[index].refCount) + 1))
      ensures workingSetCur == old(workingSetCur) + old(info[index].bufLen)
    {
      LruAccess(index);
      moved := Now();
      IncRefCount(index);
    }

    /** A cached file is used once more: it becomes the most recent. */
    method Reuse(index: int, ghost k: nat)
      requires Valid() && k < |g.order| && index == g.order[k]
      modifies this`g, this`lruFirst, this`lruLast, this`workingSetCur, lru, info
      ensures Valid() && g.order == [index] + RemoveAt(old(g.order), k)
      ensures Abs() == L.Reuse(old(Abs()), k)
    {
      hide Threaded, Entries, Moves, RemoveAt, Recounted, L.Reuse, L.Bytes, L.WorkingSet;
      ghost var t := Now();
      HeadsInRange(t, g, NIL, 0, hash);
      ListedSlot(t, g, NIL, k, hash);
      ReuseSums(t, g, k, hash);
      ghost var t1 := Touch(index);
      ReuseThreaded(t, g, k, t1, Now(), hash);
      g := Fronted(g, k);
    }

    /** The caller's side of DecRefCount: one reference fewer on the entry. */
    method Release(index: int, ghost k: nat)
      requires Valid() && k < |g.order| && index == g.order[k] && 0 <= index < info.Length && info[index].refCount > 0
      modifies this`workingSetCur, info
      ensures Valid() && g.order == old(g.order)
      ensures L.Release(old(Abs()), old(info[index]).name) == Some(Abs())
    {
      hide Threaded, Entries, L.Bytes, L.WorkingSet;
      HeadsInRange(Now(), g, NIL, 0, hash);
      ghost var t := Now();
      ListedSlot(t, g, NIL, k, hash);
      DecRefCount(index);
      ReleaseThreaded(t, g, k, hash);
    }

    /** Evict, oldest first, until the file fits; false stands for the exit when
        the files in use leave too little space. */
    method MakeRoom(ghost taken: int, size: nat) returns (ok: bool)
      requires ValidBut(taken)
      modifies this`firstFree, this`g, this`lruFirst, this`lruLast, this`numBytes, this`numEntries
      modifies chain, lru, info, indexTable
      ensures var r := L.MakeRoom(old(Abs()), size, lim.maxBytes);
              ok == r.Some? && (ok ==> ValidBut(taken) && Abs() == r.value)
    {
      hide Threaded, Entries, L.Bytes, L.WorkingSet, L.EvictOne;
      while lim.maxBytes - numBytes < size
        invariant ValidBut(taken)
        invariant L.MakeRoom(Abs(), size, lim.maxBytes) == L.MakeRoom(old(Abs()), size, lim.maxBytes)
        decreases |g.order|
      {
        var victim := Evict(taken);
        if victim == NIL {
          return false;
        }
      }
      return true;
    }

    /** The slot taken for a file that cannot be cached goes back on the free list. */
    method GiveBack(index: int)
      requires ValidBut(index) && index != NIL
      modifies this`firstFree, this`g, chain
      ensures Valid() && Abs() == old(Abs())
    {
      hide Threaded, Entries, L.Bytes, L.WorkingSet;
      TakenSlot(Now(), g, index, hash);
      FreedThreaded(Now(), g, index, hash);
      FreeElement(index);
      g := g.(free := [index as nat] + g.free);
    }

    /** Room for a new file: first for its bytes, then, if the table was full when
        the name was looked up, a slot from one more victim. */
    method Insert(uri: string, size: nat, taken: int, hashTo: int) returns (outcome: L.Outcome, index: int)
      requires ValidBut(taken) && hashTo == hash(uri) % lim.buckets
      requires L.Find(Abs(), uri) == |g.order| && (taken == NIL <==> |g.order| == lim.slots)
      modifies this`firstFree, this`g, this`lruFirst, this`lruLast, this`numBytes, this`numEntries, this`workingSetCur
      modifies chain, lru, info, indexTable
      ensures var r := L.Insert(old(Abs()), lim, uri, size);
              && outcome == r.outcome
              && (outcome == L.Stored ==> Valid() && g.order != [] && index == g.order[0] && Abs() == r.cache)
              && outcome in {L.Stored, L.Halted}
    {
      hide Threaded, Entries, L.Bytes, L.WorkingSet, L.MakeRoom, L.EvictOne, L.Find, L.Survives;
      ghost var c := Abs();
      index := taken;
      var ok := MakeRoom(taken, size);
      if !ok {
        return L.Halted, NIL;
      }
      L.RoomNames(c, size, lim.maxBytes, uri);
      if index == NIL {
        L.EvictNames(Abs(), uri);
        index := Evict(NIL);
        if index == NIL {
          return L.Halted, NIL;
        }
        HeadsInRange(Now(), g, NIL, 0, hash);
        FirstFree(Now(), g, hash);
        TookThreaded(Now(), g, hash);
        g := g.(free := g.free[1..]);
        var tmp := GetElement();
      }
      if |uri| >= L.NAME_MAX {
        return L.Halted, NIL;
      }
      Store(index, hashTo, uri, size);
      outcome := L.Stored;
    }

    method LoadExceeded() returns (b: bool)
      requires Valid()
      ensures b == L.Overloaded(Abs(), lim)
    {
      hide Threaded, Entries, L.Bytes, L.WorkingSet;
      b := numEntries as real > lim.maxLoad * lim.buckets as real;
    }

    /** The request for a file.  Halted stands for the source's exits and for
        its failed assertion on index -1; otherwise the table refines the
        recency list, and a file handed out is in front of it. */
    method Add(uri: string, file: L.File) returns (outcome: L.Outcome, index: int)
      requires Valid()
      modifies this`firstFree, this`g, this`lruFirst, this`lruLast, this`numBytes, this`numEntries, this`workingSetCur
      modifies chain, lru, info, indexTable
      ensures outcome == L.Add(old(Abs()), lim, uri, file).outcome
      ensures outcome != L.Halted ==> Valid() && Abs() == L.Add(old(Abs()), lim, uri, file).cache
      ensures outcome in {L.Hit, L.Stored} ==> g.order != [] && index == g.order[0]
    {
      hide Threaded, Entries, L.Bytes, L.WorkingSet, L.MakeRoom, L.EvictOne, L.Find, L.Overloaded, L.Cacheable;
      hide RemoveAt, L.Reuse, L.Insert;
      var halt := LoadExceeded();
      if halt {
        return L.Halted, NIL;
      }
      var found, hashTo;
      found, index, hashTo := Lookup(uri);
      if found {
        Reuse(index, L.Find(Abs(), uri));
        return L.Hit, index;
      }
      if !L.Cacheable(lim, file) {
        if index == NIL {
          return L.Halted, NIL;
        }
        GiveBack(index);
        return L.Refused, index;
      }
      L.CacheableIsFile(lim, file);
      outcome, index := Insert(uri, file.size, index, hashTo);
    }
  }
}
