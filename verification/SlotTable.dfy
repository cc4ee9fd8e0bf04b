/** The slot table of the userver file cache as a value: hash chains, LRU list
    and free list threaded through the slots by index, and what each rewiring
    of the indices does to those lists. */
module SlotTable {
  import opened Lists
  import L = LruCache

  /** The part of a slot that is not list structure. */
  datatype Info = Info(name: string, bufLen: int, refCount: int, hashTo: int)

  /** The table: per slot its chain links, LRU links and contents; per bucket
      the head of its chain; and the heads of the other lists. */
  datatype Table = Table(chain: seq<Link>, lru: seq<Link>, info: seq<Info>, index: seq<int>,
                         firstFree: int, lruFirst: int, lruLast: int)

  /** The lists that the indices spell out. */
  datatype Threads = Threads(free: seq<nat>, buckets: seq<seq<nat>>, order: seq<nat>)

  /** What a slot in use stands for. */
  function EntryOf(i: Info): (e: L.Entry) {
    L.Entry(i.name, if i.bufLen < 0 then 0 else i.bufLen, if i.refCount < 0 then 0 else i.refCount)
  }

  /** The LRU list read off the slots. */
  ghost function Entries(info: seq<Info>, order: seq<nat>): (c: seq<L.Entry>)
    ensures |c| == |order|
    ensures forall i :: 0 <= i < |c| && order[i] < |info| ==> c[i] == EntryOf(info[order[i]])
  {
    seq(|order|, i requires 0 <= i < |order| => if order[i] < |info| then EntryOf(info[order[i]])
      else L.Entry("", 0, 0))
  }

  // ------------------------------------------------------------------
  // The lists

  ghost predicate FreeList(chain: seq<Link>, firstFree: int, free: seq<nat>) {
    Singly(chain, free) && firstFree == At(free, 0)
  }

  ghost predicate Chained(chain: seq<Link>, index: seq<int>, buckets: seq<seq<nat>>) {
    && |index| == |buckets|
    && forall h :: 0 <= h < |buckets| ==> Doubly(chain, buckets[h]) && index[h] == At(buckets[h], 0)
  }

  ghost predicate LruList(lru: seq<Link>, first: int, last: int, order: seq<nat>) {
    Doubly(lru, order) && first == At(order, 0) && last == At(order, |order| - 1)
  }

  /** The slots split into the free list, the slots in use, and at most the
      one just taken. */
  ghost predicate Split(n: nat, order: seq<nat>, free: seq<nat>, taken: int) {
    && (forall s :: 0 <= s < n ==> s in free || s in order || s == taken)
    && (forall s :: s in free ==> s !in order)
    && (taken != NIL ==> 0 <= taken < n && taken !in free && taken !in order)
  }

  /** The slots in use are those on the hash chains, each on its own. */
  ghost predicate Hashed(info: seq<Info>, buckets: seq<seq<nat>>, order: seq<nat>) {
    && (forall s :: s in order ==> s < |info| && 0 <= info[s].hashTo < |buckets| && s in buckets[info[s].hashTo])
    && (forall h, i :: 0 <= h < |buckets| && 0 <= i < |buckets[h]| ==>
         buckets[h][i] in order && info[buckets[h][i]].hashTo == h)
  }

  ghost predicate InUse(i: Info, size: nat, hash: string -> nat)
    requires size > 0
  {
    i.refCount >= 0 && i.bufLen >= 0 && i.hashTo == hash(i.name) % size
  }

  /** Contents of the slots in use and of the idle ones. */
  ghost predicate Filled(info: seq<Info>, lru: seq<Link>, order: seq<nat>, size: nat, hash: string -> nat)
    requires |info| == |lru| && size > 0
  {
    && (forall s :: 0 <= s < |info| && s !in order ==> info[s].refCount == 0 && lru[s] == Link(NIL, NIL))
    && (forall s :: 0 <= s < |info| && s in order ==> InUse(info[s], size, hash))
  }

  ghost predicate NamesDiffer(c: seq<L.Entry>) {
    L.DistinctNames(c)
  }

  ghost predicate Threaded(t: Table, g: Threads, taken: int, hash: string -> nat) {
    && |t.chain| == |t.lru| == |t.info| && |t.index| == |g.buckets| > 0
    && FreeList(t.chain, t.firstFree, g.free)
    && Chained(t.chain, t.index, g.buckets)
    && LruList(t.lru, t.lruFirst, t.lruLast, g.order)
    && Split(|t.info|, g.order, g.free, taken)
    && Hashed(t.info, g.buckets, g.order)
    && Filled(t.info, t.lru, g.order, |g.buckets|, hash)
    && NamesDiffer(Entries(t.info, g.order))
    && (taken != NIL ==> t.chain[taken] == Link(NIL, NIL))
  }

  // ------------------------------------------------------------------
  // Chains keep apart

  lemma {:induction false} FrameChained(chain: seq<Link>, chain': seq<Link>, index: seq<int>, buckets: seq<seq<nat>>)
    requires Chained(chain, index, buckets) && |chain'| == |chain|
    requires forall h, i :: 0 <= h < |buckets| && 0 <= i < |buckets[h]| ==>
               chain'[buckets[h][i]] == chain[buckets[h][i]]
    ensures Chained(chain', index, buckets)
  {
    forall h | 0 <= h < |buckets| ensures Doubly(chain', buckets[h]) {
      FrameDoubly(chain, chain', buckets[h]);
    }
  }

  /** Replacing one chain by another leaves the remaining chains in order. */
  lemma {:induction false} RechainOne(chain: seq<Link>, chain': seq<Link>, index: seq<int>, buckets: seq<seq<nat>>,
                                      h: nat, l: seq<nat>)
    requires Chained(chain, index, buckets) && h < |buckets| && |chain'| == |chain|
    requires Doubly(chain', l)
    requires forall g, i :: 0 <= g < |buckets| && g != h && 0 <= i < |buckets[g]| ==>
               chain'[buckets[g][i]] == chain[buckets[g][i]]
    ensures Chained(chain', index[h := At(l, 0)], buckets[h := l])
  {
    forall g | 0 <= g < |buckets| && g != h ensures Doubly(chain', buckets[g]) {
      FrameDoubly(chain, chain', buckets[g]);
    }
  }

  /** A slot stands on no chain but its own. */
  lemma {:induction false} OwnChain(info: seq<Info>, buckets: seq<seq<nat>>, order: seq<nat>, g: nat, i: nat)
    requires Hashed(info, buckets, order) && g < |buckets| && i < |buckets[g]|
    ensures buckets[g][i] in order && buckets[g][i] < |info| && info[buckets[g][i]].hashTo == g
  {
    assert buckets[g][i] in order;
  }

  // ------------------------------------------------------------------
  // Taking a slot off the free list

  function Took(t: Table, s: nat): (r: Table)
    requires s < |t.chain|
  {
    t.(chain := t.chain[s := Link(NIL, NIL)], firstFree := t.chain[s].next)
  }

  lemma {:induction false} PopFree(chain: seq<Link>, firstFree: int, free: seq<nat>)
    requires FreeList(chain, firstFree, free) && free != []
    ensures free[0] < |chain|
    ensures FreeList(chain[free[0] := Link(NIL, NIL)], chain[free[0]].next, free[1..])
  {
    var rest, chain' := free[1..], chain[free[0] := Link(NIL, NIL)];
    assert chain[free[0]] == Link(At(free, 1), NIL);
    forall i | 0 <= i < |rest| ensures chain'[rest[i]] == Link(At(rest, i + 1), NIL) {
      assert chain[free[i + 1]] == Link(At(free, i + 2), NIL);
    }
  }

  lemma {:induction false} PopSplit(n: nat, order: seq<nat>, free: seq<nat>)
    requires Split(n, order, free, NIL) && free != [] && Distinct(free) && free[0] < n
    ensures Split(n, order, free[1..], free[0])
  {
    assert forall x :: x in free <==> x == free[0] || x in free[1..];
  }

  /** Rewriting an unused slot's link disturbs no chain. */
  lemma {:induction false} FrameUnused(chain: seq<Link>, index: seq<int>, info: seq<Info>, g: Threads, s: nat, l: Link)
    requires Chained(chain, index, g.buckets) && Hashed(info, g.buckets, g.order) && s < |chain| && s !in g.order
    ensures Chained(chain[s := l], index, g.buckets)
  {
    forall h, i | 0 <= h < |g.buckets| && 0 <= i < |g.buckets[h]| ensures g.buckets[h][i] != s {
      OwnChain(info, g.buckets, g.order, h, i);
    }
    FrameChained(chain, chain[s := l], index, g.buckets);
  }

  lemma {:induction false} FirstFree(t: Table, g: Threads, hash: string -> nat)
    requires Threaded(t, g, NIL, hash)
    ensures t.firstFree == At(g.free, 0)
    ensures g.free != [] ==> g.free[0] < |t.chain| && Distinct(g.free) && g.free[0] !in g.order
  {
    assert g.free != [] ==> g.free[0] in g.free;
  }

  lemma {:induction false} TookThreaded(t: Table, g: Threads, hash: string -> nat)
    requires Threaded(t, g, NIL, hash) && g.free != []
    ensures g.free[0] < |t.chain| && t.firstFree == g.free[0]
    ensures Threaded(Took(t, g.free[0]), g.(free := g.free[1..]), g.free[0], hash)
  {
    hide Filled, NamesDiffer, LruList, FreeList, Chained, Split, Hashed, Distinct;
    FirstFree(t, g, hash);
    PopFree(t.chain, t.firstFree, g.free);
    PopSplit(|t.info|, g.order, g.free);
    FrameUnused(t.chain, t.index, t.info, g, g.free[0], Link(NIL, NIL));
  }

  // ------------------------------------------------------------------
  // Putting the slot just taken back

  function Freed(t: Table, s: nat): (r: Table)
    requires s < |t.chain|
  {
    t.(chain := t.chain[s := Link(t.firstFree, NIL)], firstFree := s)
  }

  lemma {:induction false} PushFree(chain: seq<Link>, firstFree: int, free: seq<nat>, s: nat)
    requires FreeList(chain, firstFree, free) && s < |chain| && s !in free
    ensures FreeList(chain[s := Link(firstFree, NIL)], s, [s] + free)
  {
    var l, chain' := [s] + free, chain[s := Link(firstFree, NIL)];
    forall i | 0 <= i < |l| ensures chain'[l[i]] == Link(At(l, i + 1), NIL) {
      if i > 0 {
        assert chain[free[i - 1]] == Link(At(free, i), NIL);
      }
    }
  }

  lemma {:induction false} FreedThreaded(t: Table, g: Threads, s: nat, hash: string -> nat)
    requires Threaded(t, g, s, hash)
    ensures s < |t.chain| && Threaded(Freed(t, s), g.(free := [s] + g.free), NIL, hash)
  {
    hide Filled, NamesDiffer, LruList, FreeList, Chained, Hashed;
    PushFree(t.chain, t.firstFree, g.free, s);
    FrameUnused(t.chain, t.index, t.info, g, s, Link(t.firstFree, NIL));
  }

  // ------------------------------------------------------------------
  // The LRU list

  /** Off the LRU list. */
  function LruCut(t: Table, s: nat): (r: Table)
    requires s < |t.lru| && NIL <= t.lru[s].next < |t.lru| && NIL <= t.lru[s].prev < |t.lru|
  {
    t.(lru := Unlinked(t.lru, s),
       lruFirst := if t.lruFirst == s then t.lru[s].next else t.lruFirst,
       lruLast := if t.lruLast == s then t.lru[s].prev else t.lruLast)
  }

  /** To the recent end of the LRU list. */
  function LruPut(t: Table, s: nat): (r: Table)
    requires s < |t.lru| && NIL <= t.lruFirst < |t.lru|
  {
    t.(lru := Pushed(t.lru, s, t.lruFirst),
       lruFirst := s,
       lruLast := if t.lruFirst == NIL then s else t.lruLast)
  }

  /** Where a listed slot stands, as its own links tell. */
  lemma {:induction false} LruAt(t: Table, order: seq<nat>, k: nat)
    requires LruList(t.lru, t.lruFirst, t.lruLast, order) && k < |order|
    ensures order[k] < |t.lru|
    ensures t.lru[order[k]] == Link(At(order, k + 1), At(order, k as int - 1))
    ensures NIL <= t.lru[order[k]].next < |t.lru| && NIL <= t.lru[order[k]].prev < |t.lru|
    ensures t.lruFirst == order[k] <==> k == 0
    ensures t.lruLast == order[k] <==> k == |order| - 1
  {
  }

  lemma {:induction false} LruCutListed(t: Table, order: seq<nat>, k: nat)
    requires LruList(t.lru, t.lruFirst, t.lruLast, order) && k < |order|
    ensures order[k] < |t.lru| && NIL <= t.lru[order[k]].next < |t.lru| && NIL <= t.lru[order[k]].prev < |t.lru|
    ensures var t' := LruCut(t, order[k]);
            && LruList(t'.lru, t'.lruFirst, t'.lruLast, RemoveAt(order, k))
            && t'.lru[order[k]] == Link(NIL, NIL)
            && (forall s :: 0 <= s < |t.lru| && s !in order ==> t'.lru[s] == t.lru[s])
  {
    LruAt(t, order, k);
    UnlinkDoubly(t.lru, order, k);
  }

  lemma {:induction false} LruPutListed(t: Table, order: seq<nat>, s: nat)
    requires LruList(t.lru, t.lruFirst, t.lruLast, order) && s < |t.lru| && s !in order
    ensures NIL <= t.lruFirst < |t.lru|
    ensures var t' := LruPut(t, s);
            && LruList(t'.lru, t'.lruFirst, t'.lruLast, [s] + order)
            && (forall x :: 0 <= x < |t.lru| && x !in order && x != s ==> t'.lru[x] == t.lru[x])
  {
    PushDoubly(t.lru, order, s);
  }

  // ------------------------------------------------------------------
  // The hash chains

  function ChainCut(t: Table, s: nat): (r: Table)
    requires s < |t.chain| == |t.info| && 0 <= t.info[s].hashTo < |t.index|
    requires NIL <= t.chain[s].next < |t.chain| && NIL <= t.chain[s].prev < |t.chain|
  {
    var h := t.info[s].hashTo;
    t.(chain := Unlinked(t.chain, s), index := t.index[h := if t.index[h] == s then t.chain[s].next else t.index[h]])
  }

  function ChainPut(t: Table, s: nat, h: nat): (r: Table)
    requires s < |t.chain| == |t.info| && h < |t.index| && NIL <= t.index[h] < |t.chain|
  {
    t.(chain := Pushed(t.chain, s, t.index[h]), index := t.index[h := s], info := t.info[s := t.info[s].(hashTo := h)])
  }

  lemma {:induction false} ChainAt(t: Table, g: Threads, s: nat)
    requires Chained(t.chain, t.index, g.buckets) && Hashed(t.info, g.buckets, g.order)
    requires |t.chain| == |t.info| && s in g.order
    ensures s < |t.info| && 0 <= t.info[s].hashTo < |t.index| && s in g.buckets[t.info[s].hashTo]
    ensures var l := g.buckets[t.info[s].hashTo];
            var k := IndexOf(l, s);
            && t.chain[s] == Link(At(l, k + 1), At(l, k as int - 1))
            && NIL <= t.chain[s].next < |t.chain| && NIL <= t.chain[s].prev < |t.chain|
            && (t.index[t.info[s].hashTo] == s <==> t.chain[s].prev == NIL)
  {
    var l := g.buckets[t.info[s].hashTo];
    var k := IndexOf(l, s);
    assert Doubly(t.chain, l);
    assert t.chain[l[k]] == Link(At(l, k + 1), At(l, k as int - 1));
  }

  lemma {:induction false} ChainCutListed(t: Table, g: Threads, s: nat)
    requires Chained(t.chain, t.index, g.buckets) && Hashed(t.info, g.buckets, g.order)
    requires |t.chain| == |t.info| && s in g.order
    ensures s < |t.info| && 0 <= t.info[s].hashTo < |t.index| && s in g.buckets[t.info[s].hashTo]
    ensures NIL <= t.chain[s].next < |t.chain| && NIL <= t.chain[s].prev < |t.chain|
    ensures var t' := ChainCut(t, s);
            var h := t.info[s].hashTo;
            && Chained(t'.chain, t'.index, g.buckets[h := Without(g.buckets[h], s)])
            && (forall x :: 0 <= x < |t.chain| && x !in g.order ==> t'.chain[x] == t.chain[x])
  {
    ChainAt(t, g, s);
    var h := t.info[s].hashTo;
    var l := g.buckets[h];
    var k := IndexOf(l, s);
    assert Doubly(t.chain, l);
    UnlinkDoubly(t.chain, l, k);
    forall i, j | 0 <= i < |g.buckets| && i != h && 0 <= j < |g.buckets[i]|
      ensures ChainCut(t, s).chain[g.buckets[i][j]] == t.chain[g.buckets[i][j]]
    {
      OwnChain(t.info, g.buckets, g.order, i, j);
      OffChain(t.info, g.buckets, g.order, h, g.buckets[i][j]);
    }
    RechainOne(t.chain, ChainCut(t, s).chain, t.index, g.buckets, h, Without(l, s));
    forall x | 0 <= x < |t.chain| && x !in g.order ensures x !in l {
      OffChain(t.info, g.buckets, g.order, h, x);
    }
  }

  lemma {:induction false} OffChain(info: seq<Info>, buckets: seq<seq<nat>>, order: seq<nat>, h: nat, x: nat)
    requires Hashed(info, buckets, order) && h < |buckets|
    requires x !in order || (x < |info| && info[x].hashTo != h)
    ensures x !in buckets[h]
  {
  }

  lemma {:induction false} ChainPutListed(t: Table, g: Threads, s: nat, h: nat)
    requires Chained(t.chain, t.index, g.buckets) && Hashed(t.info, g.buckets, g.order)
    requires s < |t.chain| == |t.info| && h < |t.index| && s !in g.order
    ensures NIL <= t.index[h] < |t.chain|
    ensures var t' := ChainPut(t, s, h);
            && Chained(t'.chain, t'.index, g.buckets[h := [s] + g.buckets[h]])
            && (forall x :: 0 <= x < |t.chain| && x !in g.order && x != s ==> t'.chain[x] == t.chain[x])
  {
    var l := g.buckets[h];
    assert Doubly(t.chain, l);
    OffChain(t.info, g.buckets, g.order, h, s);
    PushDoubly(t.chain, l, s);
    forall i, j | 0 <= i < |g.buckets| && i != h && 0 <= j < |g.buckets[i]|
      ensures ChainPut(t, s, h).chain[g.buckets[i][j]] == t.chain[g.buckets[i][j]]
    {
      OwnChain(t.info, g.buckets, g.order, i, j);
      OffChain(t.info, g.buckets, g.order, h, g.buckets[i][j]);
    }
    RechainOne(t.chain, ChainPut(t, s, h).chain, t.index, g.buckets, h, [s] + l);
    forall x | 0 <= x < |t.chain| && x !in g.order ensures x !in l {
      OffChain(t.info, g.buckets, g.order, h, x);
    }
  }

  // ------------------------------------------------------------------
  // Evicting a slot

  function Wiped(i: Info): (r: Info) {
    i.(name := "", bufLen := -1)
  }

  /** Indices and contents after slot s has been wiped, cut from both lists and freed. */
  ghost predicate Evicts(t: Table, g: Threads, k: nat, t': Table) {
    && k < |g.order| && g.order[k] < |t.info| == |t.lru| == |t.chain|
    && var s := g.order[k];
       && 0 <= t.info[s].hashTo < |t.index|
       && NIL <= t.lru[s].next < |t.lru| && NIL <= t.lru[s].prev < |t.lru|
       && NIL <= t.chain[s].next < |t.chain| && NIL <= t.chain[s].prev < |t.chain|
       && t' == Freed(ChainCut(LruCut(t.(info := t.info[s := Wiped(t.info[s])]), s), s), s)
  }

  ghost function Unthreaded(g: Threads, k: nat, h: nat): (r: Threads)
    requires k < |g.order| && h < |g.buckets| && g.order[k] in g.buckets[h]
  {
    Threads([g.order[k]] + g.free, g.buckets[h := Without(g.buckets[h], g.order[k])], RemoveAt(g.order, k))
  }

  lemma {:induction false} CutSplit(n: nat, order: seq<nat>, free: seq<nat>, taken: int, k: nat)
    requires Split(n, order, free, taken) && Distinct(order) && k < |order|
    ensures Split(n, RemoveAt(order, k), [order[k]] + free, taken)
    ensures order[k] !in free && order[k] != taken
  {
    RemoveAtMembers(order, k);
    assert order[k] in order;
  }

  lemma {:induction false} CutHashed(info: seq<Info>, buckets: seq<seq<nat>>, order: seq<nat>, k: nat)
    requires Hashed(info, buckets, order) && Distinct(order) && k < |order|
    requires forall h :: 0 <= h < |buckets| ==> Distinct(buckets[h])
    ensures order[k] < |info| && 0 <= info[order[k]].hashTo < |buckets| && order[k] in buckets[info[order[k]].hashTo]
    ensures var s := order[k];
            var h := info[s].hashTo;
            Hashed(info[s := Wiped(info[s])], buckets[h := Without(buckets[h], s)], RemoveAt(order, k))
  {
    var s := order[k];
    assert s in order;
    var h := info[s].hashTo;
    RemoveAtMembers(order, k);
    RemoveAtMembers(buckets[h], IndexOf(buckets[h], s));
    var buckets' := buckets[h := Without(buckets[h], s)];
    forall g, i | 0 <= g < |buckets'| && 0 <= i < |buckets'[g]|
      ensures buckets'[g][i] in buckets[g] && buckets'[g][i] != s {
      assert buckets'[g][i] in buckets'[g];
    }
  }

  lemma {:induction false} CutFilled(info: seq<Info>, lru: seq<Link>, lru': seq<Link>, order: seq<nat>, k: nat,
                                     size: nat, hash: string -> nat)
    requires |info| == |lru| == |lru'| && size > 0 && Filled(info, lru, order, size, hash)
    requires Distinct(order) && InRange(order, |info|) && k < |order| && info[order[k]].refCount == 0
    requires lru'[order[k]] == Link(NIL, NIL)
    requires forall s :: 0 <= s < |lru| && s !in order ==> lru'[s] == lru[s]
    ensures Filled(info[order[k] := Wiped(info[order[k]])], lru', RemoveAt(order, k), size, hash)
  {
    RemoveAtMembers(order, k);
  }

  lemma {:induction false} CutEntries(info: seq<Info>, order: seq<nat>, k: nat)
    requires Distinct(order) && InRange(order, |info|) && k < |order| && NamesDiffer(Entries(info, order))
    ensures var info' := info[order[k] := Wiped(info[order[k]])];
            && Entries(info', RemoveAt(order, k)) == RemoveAt(Entries(info, order), k)
            && NamesDiffer(Entries(info', RemoveAt(order, k)))
  {
    var info' := info[order[k] := Wiped(info[order[k]])];
    assert Entries(info', RemoveAt(order, k)) == RemoveAt(Entries(info, order), k);
  }

  lemma {:induction false} ListedFacts(t: Table, g: Threads, taken: int, hash: string -> nat)
    requires Threaded(t, g, taken, hash)
    ensures Distinct(g.order) && InRange(g.order, |t.info|)
    ensures forall h :: 0 <= h < |g.buckets| ==> Distinct(g.buckets[h])
  {
  }

  /** Evicting the slot at position k of the LRU list takes out its entry and
      leaves everything else threaded. */
  lemma {:induction false} EvictThreaded(t: Table, g: Threads, taken: int, k: nat, t': Table, hash: string -> nat)
    requires Threaded(t, g, taken, hash) && Evicts(t, g, k, t') && t.info[g.order[k]].refCount == 0
    ensures var h := t.info[g.order[k]].hashTo;
            && 0 <= h < |g.buckets| && g.order[k] in g.buckets[h]
            && Threaded(t', Unthreaded(g, k, h), taken, hash)
            && Entries(t'.info, RemoveAt(g.order, k)) == RemoveAt(Entries(t.info, g.order), k)
  {
    hide Filled, NamesDiffer, LruList, FreeList, Chained, Split, Hashed, Distinct, InRange;
    ListedFacts(t, g, taken, hash);
    var s := g.order[k];
    assert s in g.order;
    CutSplit(|t.info|, g.order, g.free, taken, k);
    CutHashed(t.info, g.buckets, g.order, k);
    LruCutListed(t, g.order, k);
    CutFilled(t.info, t.lru, LruCut(t, s).lru, g.order, k, |g.buckets|, hash);
    CutEntries(t.info, g.order, k);
    ChainCutListed(t, g, s);
    ChainCutFree(t, g, taken, s, hash);
    var h := t.info[s].hashTo;
    var cut := ChainCut(t, s);
    PushFree(cut.chain, t.firstFree, g.free, s);
    CutUnused(g, k);
    FrameUnused(cut.chain, cut.index, t'.info, Unthreaded(g, k, h), s, Link(t.firstFree, NIL));
  }

  lemma {:induction false} CutUnused(g: Threads, k: nat)
    requires Distinct(g.order) && k < |g.order|
    ensures g.order[k] !in RemoveAt(g.order, k)
  {
    RemoveAtMembers(g.order, k);
  }

  /** Cutting a chain leaves the free list and the slot just taken alone. */
  lemma {:induction false} ChainCutFree(t: Table, g: Threads, taken: int, s: nat, hash: string -> nat)
    requires Threaded(t, g, taken, hash) && s in g.order
    requires s < |t.info| && 0 <= t.info[s].hashTo < |t.index|
    requires NIL <= t.chain[s].next < |t.chain| && NIL <= t.chain[s].prev < |t.chain|
    requires forall x :: 0 <= x < |t.chain| && x !in g.order ==> ChainCut(t, s).chain[x] == t.chain[x]
    ensures FreeList(ChainCut(t, s).chain, t.firstFree, g.free)
    ensures taken != NIL ==> ChainCut(t, s).chain[taken] == Link(NIL, NIL)
  {
    forall i | 0 <= i < |g.free| ensures ChainCut(t, s).chain[g.free[i]] == t.chain[g.free[i]] {
      assert g.free[i] in g.free;
    }
    FrameSingly(t.chain, ChainCut(t, s).chain, g.free);
  }

  // ------------------------------------------------------------------
  // Storing a file in the slot just taken

  /** The table after slot s has been filled and put in front of both lists. */
  ghost predicate Stores(t: Table, s: nat, i: Info, t': Table) {
    && s < |t.info| == |t.lru| == |t.chain| && 0 <= i.hashTo < |t.index|
    && NIL <= t.index[i.hashTo] < |t.chain| && NIL <= t.lruFirst < |t.lru|
    && t' == LruPut(ChainPut(t, s, i.hashTo), s).(info := t.info[s := i])
  }

  ghost function Rethreaded(g: Threads, s: nat, h: nat): (r: Threads)
    requires h < |g.buckets|
  {
    Threads(g.free, g.buckets[h := [s] + g.buckets[h]], [s] + g.order)
  }

  lemma {:induction false} PutSplit(n: nat, order: seq<nat>, free: seq<nat>, s: nat)
    requires Split(n, order, free, s)
    ensures Split(n, [s] + order, free, NIL)
  {
    assert forall x :: x in [s] + order <==> x == s || x in order;
  }

  lemma {:induction false} PutHashed(info: seq<Info>, buckets: seq<seq<nat>>, order: seq<nat>, s: nat, i: Info)
    requires Hashed(info, buckets, order) && s < |info| && s !in order && 0 <= i.hashTo < |buckets|
    ensures Hashed(info[s := i], buckets[i.hashTo := [s] + buckets[i.hashTo]], [s] + order)
  {
    var h, info', order' := i.hashTo, info[s := i], [s] + order;
    var buckets' := buckets[h := [s] + buckets[h]];
    assert forall x :: x in order' <==> x == s || x in order;
    forall x | x in order' ensures x < |info'| && 0 <= info'[x].hashTo < |buckets'| && x in buckets'[info'[x].hashTo] {
      if x != s {
        assert x in buckets[info[x].hashTo];
      }
    }
    forall g, j | 0 <= g < |buckets'| && 0 <= j < |buckets'[g]|
      ensures buckets'[g][j] in order' && info'[buckets'[g][j]].hashTo == g {
      if g != h {
        OwnChain(info, buckets, order, g, j);
      } else if j > 0 {
        OwnChain(info, buckets, order, g, j - 1);
      }
    }
  }

  lemma {:induction false} PutFilled(info: seq<Info>, lru: seq<Link>, lru': seq<Link>, order: seq<nat>, s: nat,
                                     i: Info, size: nat, hash: string -> nat)
    requires |info| == |lru| == |lru'| && size > 0 && Filled(info, lru, order, size, hash)
    requires s < |info| && s !in order && InUse(i, size, hash)
    requires forall x :: 0 <= x < |lru| && x !in order && x != s ==> lru'[x] == lru[x]
    ensures Filled(info[s := i], lru', [s] + order, size, hash)
  {
    assert forall x :: x in [s] + order <==> x == s || x in order;
  }

  lemma {:induction false} PutEntries(info: seq<Info>, order: seq<nat>, s: nat, i: Info)
    requires InRange(order, |info|) && s < |info| && s !in order && NamesDiffer(Entries(info, order))
    requires forall k :: 0 <= k < |order| ==> Entries(info, order)[k].name != i.name
    ensures InRange([s] + order, |info|)
    ensures Entries(info[s := i], [s] + order) == [EntryOf(i)] + Entries(info, order)
    ensures NamesDiffer(Entries(info[s := i], [s] + order))
  {
    forall k | 0 <= k < |order| ensures order[k] != s { assert order[k] in order; }
    assert Entries(info[s := i], [s] + order) == [EntryOf(i)] + Entries(info, order);
  }

  /** Filling the slot just taken puts its entry in front. */
  lemma {:induction false} StoreThreaded(t: Table, g: Threads, s: nat, i: Info, t': Table, hash: string -> nat)
    requires Threaded(t, g, s, hash) && Stores(t, s, i, t') && InUse(i, |g.buckets|, hash)
    requires forall k :: 0 <= k < |g.order| ==> Entries(t.info, g.order)[k].name != i.name
    ensures Threaded(t', Rethreaded(g, s, i.hashTo), NIL, hash)
    ensures Entries(t'.info, [s] + g.order) == [EntryOf(i)] + Entries(t.info, g.order)
  {
    hide Filled, NamesDiffer, LruList, FreeList, Chained, Hashed, Distinct, InRange;
    ListedFacts(t, g, s, hash);
    PutSplit(|t.info|, g.order, g.free, s);
    PutHashed(t.info, g.buckets, g.order, s, i);
    LruPutListed(t, g.order, s);
    PutFilled(t.info, t.lru, LruPut(t, s).lru, g.order, s, i, |g.buckets|, hash);
    PutEntries(t.info, g.order, s, i);
    ChainPutListed(t, g, s, i.hashTo);
    ChainPutFree(t, g, s, i.hashTo, hash);
  }

  lemma {:induction false} ChainPutFree(t: Table, g: Threads, s: nat, h: nat, hash: string -> nat)
    requires Threaded(t, g, s, hash) && h < |t.index| && NIL <= t.index[h] < |t.chain|
    requires forall x :: 0 <= x < |t.chain| && x !in g.order && x != s ==> ChainPut(t, s, h).chain[x] == t.chain[x]
    ensures FreeList(ChainPut(t, s, h).chain, t.firstFree, g.free)
  {
    forall i | 0 <= i < |g.free| ensures ChainPut(t, s, h).chain[g.free[i]] == t.chain[g.free[i]] {
      assert g.free[i] in g.free;
    }
    FrameSingly(t.chain, ChainPut(t, s, h).chain, g.free);
  }

  // ------------------------------------------------------------------
  // Using a cached file, and giving it back

  function Recounted(info: seq<Info>, s: nat, refs: int): (r: seq<Info>)
    requires s < |info|
  {
    info[s := info[s].(refCount := refs)]
  }

  lemma {:induction false} RecountThreaded(t: Table, g: Threads, k: nat, refs: nat, hash: string -> nat)
    requires Threaded(t, g, NIL, hash) && k < |g.order|
    ensures g.order[k] < |t.info|
    ensures var t' := t.(info := Recounted(t.info, g.order[k], refs));
            var c := Entries(t.info, g.order);
            && Threaded(t', g, NIL, hash)
            && Entries(t'.info, g.order) == c[k := c[k].(refs := refs)]
  {
    hide LruList, FreeList, Chained, Split, Filled, NamesDiffer, Distinct;
    ListedFacts(t, g, NIL, hash);
    RecountHashed(t.info, g.buckets, g.order, g.order[k], refs);
    RecountFilled(t.info, t.lru, g.order, g.order[k], refs, |g.buckets|, hash);
    RecountEntries(t.info, g.order, k, refs);
  }

  lemma {:induction false} RecountHashed(info: seq<Info>, buckets: seq<seq<nat>>, order: seq<nat>, s: nat, refs: nat)
    requires Hashed(info, buckets, order) && s < |info|
    ensures Hashed(Recounted(info, s, refs), buckets, order)
  {
    forall h, i | 0 <= h < |buckets| && 0 <= i < |buckets[h]| ensures buckets[h][i] in order && buckets[h][i] < |info| {
      OwnChain(info, buckets, order, h, i);
    }
  }

  lemma {:induction false} RecountFilled(info: seq<Info>, lru: seq<Link>, order: seq<nat>, s: nat, refs: nat,
                                         size: nat, hash: string -> nat)
    requires |info| == |lru| && size > 0 && Filled(info, lru, order, size, hash) && s < |info| && s in order
    ensures Filled(Recounted(info, s, refs), lru, order, size, hash)
  {
  }

  lemma {:induction false} RecountEntries(info: seq<Info>, order: seq<nat>, k: nat, refs: nat)
    requires Distinct(order) && InRange(order, |info|) && k < |order| && NamesDiffer(Entries(info, order))
    ensures var info', c := Recounted(info, order[k], refs), Entries(info, order);
            && Entries(info', order) == c[k := c[k].(refs := refs)]
            && NamesDiffer(Entries(info', order))
  {
    var info', c := Recounted(info, order[k], refs), Entries(info, order);
    assert Entries(info', order) == c[k := c[k].(refs := refs)];
  }

  /** The table after slot s has moved to the recent end of the LRU list. */
  ghost predicate Moves(t: Table, s: nat, t': Table) {
    && s < |t.lru| && NIL <= t.lru[s].next < |t.lru| && NIL <= t.lru[s].prev < |t.lru|
    && NIL <= LruCut(t, s).lruFirst < |t.lru|
    && t' == LruPut(LruCut(t, s), s)
  }

  lemma {:induction false} MoveThreaded(t: Table, g: Threads, k: nat, t': Table, hash: string -> nat)
    requires Threaded(t, g, NIL, hash) && k < |g.order| && Moves(t, g.order[k], t')
    ensures var g' := g.(order := [g.order[k]] + RemoveAt(g.order, k));
            && Threaded(t', g', NIL, hash)
            && Entries(t'.info, g'.order) == [Entries(t.info, g.order)[k]] + RemoveAt(Entries(t.info, g.order), k)
  {
    hide FreeList, Chained, LruList, Split, Filled, NamesDiffer, Hashed, Distinct, InRange;
    ListedFacts(t, g, NIL, hash);
    var s, rest := g.order[k], RemoveAt(g.order, k);
    MoveMembers(g.order, k);
    MoveListed(t, g.order, k, t');
    SameMembers(t, g, [s] + rest, t'.lru, hash);
    MoveEntries(t.info, g.order, k);
  }

  lemma {:induction false} MoveListed(t: Table, order: seq<nat>, k: nat, t': Table)
    requires LruList(t.lru, t.lruFirst, t.lruLast, order) && k < |order| && Moves(t, order[k], t')
    ensures LruList(t'.lru, t'.lruFirst, t'.lruLast, [order[k]] + RemoveAt(order, k))
    ensures forall x :: 0 <= x < |t.lru| && x !in order ==> t'.lru[x] == t.lru[x]
  {
    hide LruList;
    LruDistinct(t, order);
    MoveMembers(order, k);
    LruCutListed(t, order, k);
    LruPutListed(LruCut(t, order[k]), RemoveAt(order, k), order[k]);
  }

  lemma {:induction false} LruDistinct(t: Table, order: seq<nat>)
    requires LruList(t.lru, t.lruFirst, t.lruLast, order)
    ensures Distinct(order)
  {
  }

  lemma {:induction false} MoveMembers(order: seq<nat>, k: nat)
    requires Distinct(order) && k < |order|
    ensures order[k] !in RemoveAt(order, k)
    ensures forall x :: x in [order[k]] + RemoveAt(order, k) <==> x in order
    ensures forall x :: x in RemoveAt(order, k) ==> x in order
  {
    RemoveAtMembers(order, k);
  }

  lemma {:induction false} MoveEntries(info: seq<Info>, order: seq<nat>, k: nat)
    requires InRange(order, |info|) && k < |order| && NamesDiffer(Entries(info, order))
    ensures InRange([order[k]] + RemoveAt(order, k), |info|)
    ensures var c, d := Entries(info, order), Entries(info, [order[k]] + RemoveAt(order, k));
            d == [c[k]] + RemoveAt(c, k) && NamesDiffer(d)
  {
    var c := Entries(info, order);
    assert Entries(info, [order[k]] + RemoveAt(order, k)) == [c[k]] + RemoveAt(c, k);
  }

  /** Reordering the LRU list keeps what depends only on its members. */
  lemma {:induction false} SameMembers(t: Table, g: Threads, order: seq<nat>, lru: seq<Link>, hash: string -> nat)
    requires Threaded(t, g, NIL, hash) && |lru| == |t.lru|
    requires forall x :: x in order <==> x in g.order
    requires forall x :: 0 <= x < |lru| && x !in g.order ==> lru[x] == t.lru[x]
    ensures Split(|t.info|, order, g.free, NIL)
    ensures Hashed(t.info, g.buckets, order)
    ensures Filled(t.info, lru, order, |g.buckets|, hash)
  {
  }

  // ------------------------------------------------------------------
  // Looking a name up

  /** A walk of the right chain finds the name exactly when the cache holds it. */
  lemma {:induction false} ChainFinds(t: Table, g: Threads, hash: string -> nat, uri: string, k: int)
    requires Threaded(t, g, NIL, hash)
    requires var l := g.buckets[hash(uri) % |g.buckets|];
             && InRange(l, |t.info|) && NIL <= k < |l|
             && if k == NIL then forall i :: 0 <= i < |l| ==> t.info[l[i]].name != uri else t.info[l[k]].name == uri
    ensures var h, f := hash(uri) % |g.buckets|, L.Find(Entries(t.info, g.order), uri);
            if k == NIL then f == |g.order| else f < |g.order| && g.order[f] == g.buckets[h][k]
  {
    hide Split, FreeList, Doubly, NamesDiffer;
    OneName(t, g, hash);
    var c, h := Entries(t.info, g.order), hash(uri) % |g.buckets|;
    var f := L.Find(c, uri);
    if k == NIL {
      forall j | 0 <= j < |g.order| ensures c[j].name != uri {
        var s := g.order[j];
        assert s in g.order;
        assert InUse(t.info[s], |g.buckets|, hash);
      }
    } else {
      OwnChain(t.info, g.buckets, g.order, h, k);
      var j := IndexOf(g.order, g.buckets[h][k]);
      assert c[j].name == uri;
      assert f <= j;
    }
  }

  lemma {:induction false} OneName(t: Table, g: Threads, hash: string -> nat)
    requires Threaded(t, g, NIL, hash)
    ensures InRange(g.order, |t.info|)
    ensures var c := Entries(t.info, g.order);
            forall i, j :: 0 <= i < |c| && 0 <= j < |c| && c[i].name == c[j].name ==> i == j
  {
    hide Split, FreeList, Chained, Hashed, Filled;
    var c := Entries(t.info, g.order);
    assert L.DistinctNames(c);
  }

  /** A full table is one with an empty free list. */
  lemma {:induction false} FreeCount(t: Table, g: Threads, hash: string -> nat)
    requires Threaded(t, g, NIL, hash)
    ensures |g.order| + |g.free| == |t.info|
  {
    hide Hashed, Chained, Filled, NamesDiffer;
    CoverCount(g.order, g.free, |t.info|);
  }

  /** What the source reads at a listed slot before it cuts it out. */
  lemma {:induction false} ListedSlot(t: Table, g: Threads, taken: int, k: nat, hash: string -> nat)
    requires Threaded(t, g, taken, hash) && k < |g.order|
    ensures var s := g.order[k];
            && s < |t.info| && 0 <= t.info[s].hashTo < |t.index| && InUse(t.info[s], |g.buckets|, hash)
            && NIL <= t.lru[s].next < |t.lru| && NIL <= t.lru[s].prev < |t.lru|
            && (t.lruFirst == s <==> t.lru[s].prev == NIL) && (t.lruLast == s <==> t.lru[s].next == NIL)
            && t.lru[s].prev == At(g.order, k as int - 1)
            && NIL <= t.chain[s].next < |t.chain| && NIL <= t.chain[s].prev < |t.chain|
            && (t.index[t.info[s].hashTo] == s <==> t.chain[s].prev == NIL)
  {
    assert g.order[k] in g.order;
    LruAt(t, g.order, k);
    ChainAt(t, g, g.order[k]);
  }

  lemma {:induction false} HeadsInRange(t: Table, g: Threads, taken: int, h: nat, hash: string -> nat)
    requires Threaded(t, g, taken, hash) && (h < |t.index| || h == 0)
    ensures h < |t.index|
    ensures NIL <= t.firstFree < |t.chain| && NIL <= t.lruFirst < |t.lru| && NIL <= t.index[h] < |t.chain|
    ensures t.lruLast == At(g.order, |g.order| - 1)
    ensures InRange(g.order, |t.info|)
    ensures |g.buckets| == |t.index|
  {
    hide Split, Hashed, Filled, NamesDiffer;
    assert Doubly(t.chain, g.buckets[h]);
  }

  lemma {:induction false} TakenSlot(t: Table, g: Threads, s: int, hash: string -> nat)
    requires Threaded(t, g, s, hash) && s != NIL
    ensures 0 <= s < |t.info| && t.info[s].refCount == 0
  {
    hide Chained, Hashed, LruList, FreeList;
  }

  /** Naming the slot before chaining it and filling it afterwards comes to storing it. */
  lemma {:induction false} PutTwice(t: Table, s: nat, name: string, i: Info)
    requires s < |t.info| == |t.lru| == |t.chain| && 0 <= i.hashTo < |t.index|
    requires NIL <= t.index[i.hashTo] < |t.chain| && NIL <= t.lruFirst < |t.lru|
    ensures var t1 := t.(info := t.info[s := t.info[s].(name := name)]);
            var t2 := LruPut(ChainPut(t1, s, i.hashTo), s);
            t2.(info := t2.info[s := i]) == LruPut(ChainPut(t, s, i.hashTo), s).(info := t.info[s := i])
  {
  }

  /** A slot's name finds that slot. */
  lemma {:induction false} OnlyName(t: Table, g: Threads, k: nat, hash: string -> nat)
    requires Threaded(t, g, NIL, hash) && k < |g.order|
    ensures g.order[k] < |t.info| && L.Find(Entries(t.info, g.order), t.info[g.order[k]].name) == k
  {
    hide Chained, Hashed, Filled, FreeList, Split;
    var c := Entries(t.info, g.order);
    assert c[k].name == t.info[g.order[k]].name;
  }

  /** The threads after the k-th slot has moved to the front of the LRU list. */
  ghost function Fronted(g: Threads, k: nat): (r: Threads)
    requires k < |g.order|
  {
    g.(order := [g.order[k]] + RemoveAt(g.order, k))
  }

  /** Moving a slot to the front and counting one more reference: the hit. */
  lemma {:induction false} ReuseThreaded(t: Table, g: Threads, k: nat, t1: Table, t2: Table, hash: string -> nat)
    requires k < |g.order| && g.order[k] < |t.info| && t1.info == t.info
    requires Moves(t, g.order[k], t1)
    requires t2 == t1.(info := Recounted(t.info, g.order[k], t.info[g.order[k]].refCount + 1))
    requires Threaded(t, g, NIL, hash)
    ensures Threaded(t2, Fronted(g, k), NIL, hash)
    ensures Entries(t2.info, Fronted(g, k).order) == L.Reuse(Entries(t.info, g.order), k)
  {
    hide Threaded, Moves, Recounted;
    HeadsInRange(t, g, NIL, 0, hash);
    ListedSlot(t, g, NIL, k, hash);
    var s, c := g.order[k], Entries(t.info, g.order);
    MoveThreaded(t, g, k, t1, hash);
    RecountThreaded(t1, Fronted(g, k), 0, t1.info[s].refCount + 1, hash);
    assert ([c[k]] + RemoveAt(c, k))[0 := c[k].(refs := c[k].refs + 1)] == L.Reuse(c, k);
  }

  /** The sums after a hit. */
  lemma {:induction false} ReuseSums(t: Table, g: Threads, k: nat, hash: string -> nat)
    requires Threaded(t, g, NIL, hash) && k < |g.order| && g.order[k] < |t.info|
    ensures var c := Entries(t.info, g.order);
            && L.Bytes(L.Reuse(c, k)) == L.Bytes(c)
            && L.WorkingSet(L.Reuse(c, k)) == L.WorkingSet(c) + t.info[g.order[k]].bufLen
  {
    hide Threaded, L.Bytes, L.WorkingSet;
    ListedSlot(t, g, NIL, k, hash);
    L.SumsReuse(Entries(t.info, g.order), k);
  }

  lemma {:induction false} ReleaseThreaded(t: Table, g: Threads, k: nat, hash: string -> nat)
    requires Threaded(t, g, NIL, hash) && k < |g.order| && g.order[k] < |t.info| && t.info[g.order[k]].refCount > 0
    ensures var s, c := g.order[k], Entries(t.info, g.order);
            var t' := t.(info := Recounted(t.info, s, t.info[s].refCount - 1));
            && Threaded(t', g, NIL, hash)
            && L.Release(c, t.info[s].name) == Some(Entries(t'.info, g.order))
            && L.Bytes(Entries(t'.info, g.order)) == L.Bytes(c)
            && L.WorkingSet(Entries(t'.info, g.order)) == L.WorkingSet(c) - t.info[s].bufLen
  {
    hide Threaded, L.Bytes, L.WorkingSet;
    HeadsInRange(t, g, NIL, 0, hash);
    ListedSlot(t, g, NIL, k, hash);
    OnlyName(t, g, k, hash);
    RecountThreaded(t, g, k, t.info[g.order[k]].refCount - 1, hash);
    L.SumsRelease(Entries(t.info, g.order), k);
  }

  /** The first n slots, freed in turn: the last one freed comes first. */
  ghost function Down(n: nat): (l: seq<nat>)
    ensures |l| == n && forall i :: 0 <= i < n ==> l[i] == n - 1 - i
  {
    seq(n, i requires 0 <= i < n => n - 1 - i)
  }

  const BLANK := Info("", 0, 0, 0)

  lemma {:induction false} BlankThreaded(t: Table, hash: string -> nat)
    requires |t.chain| == |t.lru| == |t.info| && |t.index| > 0
    requires FreeList(t.chain, t.firstFree, Down(|t.info|))
    requires forall h :: 0 <= h < |t.index| ==> t.index[h] == NIL
    requires forall s :: 0 <= s < |t.info| ==> t.info[s] == BLANK && t.lru[s] == Link(NIL, NIL)
    requires t.lruFirst == t.lruLast == NIL
    ensures Threaded(t, Threads(Down(|t.info|), seq(|t.index|, _ => []), []), NIL, hash)
  {
    var free := Down(|t.info|);
    forall s | 0 <= s < |t.info| ensures s in free {
      assert free[|t.info| - 1 - s] == s;
    }
  }
}
