/** Flash's cache of mapped file chunks: locked chunks stay, unlocked ones wait
    on a list from whose end they are unmapped when the cache is over budget. */
module ChunkCache {
  import opened Lists

  const BLOCK := 65536

  /** Locks on a chunk, whether its data is mapped, and whether it is on the list. */
  datatype Chunk = Chunk(refs: int, mapped: bool, listed: bool)

  datatype Entry = Entry(size: nat, refs: int, invalid: bool, inMem: int, chunks: seq<Chunk>)

  /** A chunk record: its entry and its number in it. */
  datatype Ref = Ref(e: nat, k: nat)

  /** ents is the memory for entries, None where it has been freed; list is the
      list of chunks that may be unmapped, the next to go at its end. */
  datatype Cache = Cache(ents: seq<Option<Entry>>, list: seq<Ref>, all: int, free: int)

  function NumChunks(size: nat): (n: nat)
    ensures n >= 1
  {
    if size == 0 then 1 else (size + BLOCK - 1) / BLOCK
  }

  /** The size of a chunk as the counters see it: 0 for the last chunk of a file
      of several whole blocks. */
  function Rounded(page: nat, size: nat, n: nat, k: nat): (b: nat)
    requires page > 0
  {
    if k + 1 < n then BLOCK
    else
      var s := (if k == 0 then size else size % BLOCK) + page - 1;
      s - s % page
  }

  /** The bytes of the file in chunk k. */
  function Actual(size: nat, k: nat): (b: int) {
    if k + 1 < NumChunks(size) then BLOCK else size - k * BLOCK
  }

  /** The counted size covers the chunk, with less than a page to spare, except
      for the last chunk of a file of two or more whole blocks. */
  lemma {:induction false} RoundedCovers(page: nat, size: nat, k: nat)
    requires page > 0 && k < NumChunks(size)
    ensures var r := Rounded(page, size, NumChunks(size), k);
            && (Actual(size, k) <= r < Actual(size, k) + page
                <==> !(k > 0 && k + 1 == NumChunks(size) && size % BLOCK == 0))
            && (k > 0 && k + 1 == NumChunks(size) && size % BLOCK == 0 ==> r == 0)
            && (if k + 1 < NumChunks(size) then r == BLOCK else r % page == 0)
  {
    if k + 1 == NumChunks(size) {
      var s := if k == 0 then size else size % BLOCK;
      assert 0 <= (s + page - 1) % page < page;
      LastActual(size, k);
      RoundedDown(s + page - 1, page);
      if s == 0 {
        SmallRemainder(page);
      }
    }
  }

  lemma {:induction false} RoundedDown(x: nat, page: nat)
    requires page > 0
    ensures (x - x % page) % page == 0
  {
    var q := x / page;
    assert x - x % page == q * page;
    MultipleOf(q, page);
  }

  lemma {:induction false} MultipleOf(q: nat, page: nat)
    requires page > 0
    ensures q * page % page == 0
  {
    if q > 0 {
      MultipleOf(q - 1, page);
      assert q * page == (q - 1) * page + page;
      AddPage((q - 1) * page, page);
    }
  }

  lemma {:induction false} AddPage(x: nat, page: nat)
    requires page > 0 && x % page == 0
    ensures (x + page) % page == 0
  {
    var q := x / page;
    assert x == q * page;
    assert x + page == (q + 1) * page;
    var d := (x + page) / page - (q + 1);
    assert d * page + (x + page) % page == 0;
    assert d >= 1 ==> d * page >= page;
    assert d <= -1 ==> d * page + page <= 0;
  }

  lemma {:induction false} SmallRemainder(page: nat)
    requires page > 0
    ensures (page - 1) % page == page - 1
  {
    var d := (page - 1) / page;
    assert d >= 1 ==> d * page >= page;
  }

  lemma {:induction false} LastActual(size: nat, k: nat)
    requires k + 1 == NumChunks(size)
    ensures size - k * BLOCK == if k == 0 then size else if size % BLOCK == 0 then BLOCK else size % BLOCK
  {
  }

  // ------------------------------------------------------------------
  // Looking up and changing one chunk

  predicate Present(ents: seq<Option<Entry>>, r: Ref) {
    r.e < |ents| && ents[r.e].Some? && r.k < |ents[r.e].value.chunks|
  }

  function ChunkOf(ents: seq<Option<Entry>>, r: Ref): (c: Chunk)
    requires Present(ents, r)
  {
    ents[r.e].value.chunks[r.k]
  }

  function SizeOf(page: nat, ents: seq<Option<Entry>>, r: Ref): (b: nat)
    requires page > 0
  {
    if Present(ents, r) then Rounded(page, ents[r.e].value.size, |ents[r.e].value.chunks|, r.k) else 0
  }

  function WithChunk(ents: seq<Option<Entry>>, r: Ref, c: Chunk): (u: seq<Option<Entry>>)
    requires Present(ents, r)
    ensures |u| == |ents|
  {
    ents[r.e := Some(ents[r.e].value.(chunks := ents[r.e].value.chunks[r.k := c]))]
  }

  // ------------------------------------------------------------------
  // Sums

  function ListBytes(page: nat, ents: seq<Option<Entry>>, list: seq<Ref>): (b: nat)
    requires page > 0
  {
    if list == [] then 0 else SizeOf(page, ents, list[0]) + ListBytes(page, ents, list[1..])
  }

  /** Bytes and number of the mapped chunks of an entry, from chunk k on. */
  function MappedFrom(page: nat, ent: Entry, k: nat): (b: nat)
    requires page > 0
    decreases |ent.chunks| - k
  {
    if k >= |ent.chunks| then 0
    else (if ent.chunks[k].mapped then Rounded(page, ent.size, |ent.chunks|, k) else 0) + MappedFrom(page, ent, k + 1)
  }

  function NumMapped(chunks: seq<Chunk>): (n: nat) {
    if chunks == [] then 0 else OneIf(chunks[0].mapped) + NumMapped(chunks[1..])
  }

  function EntryBytes(page: nat, ent: Option<Entry>): (b: nat)
    requires page > 0
  {
    if ent.Some? then MappedFrom(page, ent.value, 0) else 0
  }

  function AllBytes(page: nat, ents: seq<Option<Entry>>): (b: nat)
    requires page > 0
  {
    if ents == [] then 0 else EntryBytes(page, ents[0]) + AllBytes(page, ents[1..])
  }

  lemma {:induction false} ListBytesSame(page: nat, ents: seq<Option<Entry>>, ents': seq<Option<Entry>>, list: seq<Ref>)
    requires page > 0 && forall r :: r in list ==> SizeOf(page, ents', r) == SizeOf(page, ents, r)
    ensures ListBytes(page, ents', list) == ListBytes(page, ents, list)
  {
    if list != [] {
      ListBytesSame(page, ents, ents', list[1..]);
    }
  }

  lemma {:induction false} ListBytesRemove(page: nat, ents: seq<Option<Entry>>, list: seq<Ref>, i: nat)
    requires page > 0 && i < |list|
    ensures ListBytes(page, ents, RemoveAt(list, i)) == ListBytes(page, ents, list) - SizeOf(page, ents, list[i])
  {
    if i == 0 {
      assert RemoveAt(list, 0) == list[1..];
    } else {
      ListBytesRemove(page, ents, list[1..], i - 1);
      assert RemoveAt(list, i) == [list[0]] + RemoveAt(list[1..], i - 1);
      assert RemoveAt(list, i)[1..] == RemoveAt(list[1..], i - 1);
    }
  }

  lemma {:induction false} MappedSet(page: nat, ent: Entry, k: nat, c: Chunk, from: nat)
    requires page > 0 && k < |ent.chunks|
    ensures var ent' := ent.(chunks := ent.chunks[k := c]);
            MappedFrom(page, ent', from) == MappedFrom(page, ent, from)
              + (if from > k then 0
                 else Delta(ent.chunks[k].mapped, c.mapped, Rounded(page, ent.size, |ent.chunks|, k)))
    decreases |ent.chunks| - from
  {
    if from < |ent.chunks| {
      MappedSet(page, ent, k, c, from + 1);
    }
  }

  lemma {:induction false} NumMappedSet(chunks: seq<Chunk>, k: nat, c: Chunk)
    requires k < |chunks|
    ensures NumMapped(chunks[k := c]) == NumMapped(chunks) + OneIf(c.mapped) - OneIf(chunks[k].mapped)
  {
    if k == 0 {
      assert chunks[k := c][1..] == chunks[1..];
    } else {
      assert chunks[k := c][1..] == chunks[1..][k - 1 := c];
      NumMappedSet(chunks[1..], k - 1, c);
    }
  }

  lemma {:induction false} NumMappedZero(chunks: seq<Chunk>)
    ensures NumMapped(chunks) == 0 <==> forall k :: 0 <= k < |chunks| ==> !chunks[k].mapped
  {
    if chunks != [] {
      NumMappedZero(chunks[1..]);
      assert chunks == [chunks[0]] + chunks[1..];
    }
  }

  lemma {:induction false} MappedZero(page: nat, ent: Entry, k: nat)
    requires page > 0 && forall j :: 0 <= j < |ent.chunks| ==> !ent.chunks[j].mapped
    ensures MappedFrom(page, ent, k) == 0
    decreases |ent.chunks| - k
  {
    if k < |ent.chunks| {
      MappedZero(page, ent, k + 1);
    }
  }

  lemma {:induction false} AllBytesSet(page: nat, ents: seq<Option<Entry>>, e: nat, ent: Option<Entry>)
    requires page > 0 && e < |ents|
    ensures AllBytes(page, ents[e := ent]) == AllBytes(page, ents) - EntryBytes(page, ents[e]) + EntryBytes(page, ent)
  {
    if e == 0 {
      assert ents[e := ent][1..] == ents[1..];
    } else {
      assert ents[e := ent][1..] == ents[1..][e - 1 := ent];
      AllBytesSet(page, ents[1..], e - 1, ent);
    }
  }

  lemma {:induction false} AllBytesAppend(page: nat, ents: seq<Option<Entry>>, ent: Option<Entry>)
    requires page > 0
    ensures AllBytes(page, ents + [ent]) == AllBytes(page, ents) + EntryBytes(page, ent)
  {
    if ents == [] {
      assert ents + [ent] == [ent];
      assert [ent][1..] == [];
    } else {
      assert (ents + [ent])[1..] == ents[1..] + [ent];
      AllBytesAppend(page, ents[1..], ent);
    }
  }

  // ------------------------------------------------------------------
  // What holds at all times

  /** The list holds exactly the chunks flagged as being on it. */
  ghost predicate ListInv(c: Cache) {
    && Distinct(c.list)
    && (forall r :: r in c.list ==> Present(c.ents, r) && ChunkOf(c.ents, r).listed)
    && (forall r :: Present(c.ents, r) && ChunkOf(c.ents, r).listed ==> r in c.list)
  }

  ghost predicate ChunkInv(ch: Chunk) {
    && ch.refs >= 0
    && (ch.listed ==> ch.refs == 0)
    && (ch.mapped && ch.refs == 0 ==> ch.listed)
  }

  /** An entry nobody uses has no locks, and unlocked data is on the list. */
  ghost predicate EntryInv(ent: Entry) {
    && |ent.chunks| == NumChunks(ent.size)
    && ent.refs >= 0
    && ent.inMem == NumMapped(ent.chunks)
    && (forall k :: 0 <= k < |ent.chunks| ==> ChunkInv(ent.chunks[k]))
    && (ent.refs == 0 ==> forall k :: 0 <= k < |ent.chunks| ==> ent.chunks[k].refs == 0)
  }

  ghost predicate EntriesInv(ents: seq<Option<Entry>>) {
    forall e :: 0 <= e < |ents| && ents[e].Some? ==> EntryInv(ents[e].value)
  }

  ghost predicate Inv(page: nat, c: Cache) {
    && page > 0
    && ListInv(c)
    && EntriesInv(c.ents)
    && c.free == ListBytes(page, c.ents, c.list)
    && c.all == AllBytes(page, c.ents)
  }

  // ------------------------------------------------------------------
  // One chunk changes

  /** The list after the flag of r has become on: it joins in front or leaves. */
  function Relisted(list: seq<Ref>, r: Ref, on: bool): (l: seq<Ref>) {
    if on then (if r in list then list else [r] + list)
    else if r in list then Without(list, r) else list
  }

  /** What a counter gains when a flag that stands for size goes from was to now. */
  function Delta(was: bool, now: bool, size: int): (d: int) {
    if was == now then 0 else if now then size else -size
  }

  /** The chunk becomes ch; the list and the counters follow. */
  function Change(page: nat, c: Cache, r: Ref, ch: Chunk): (c': Cache)
    requires page > 0 && Present(c.ents, r)
  {
    var ent, was := c.ents[r.e].value, ChunkOf(c.ents, r);
    var size := SizeOf(page, c.ents, r);
    var inMem := ent.inMem + Delta(was.mapped, ch.mapped, 1);
    Cache(c.ents[r.e := Some(ent.(chunks := ent.chunks[r.k := ch], inMem := inMem))],
          if ch.listed == was.listed then c.list else Relisted(c.list, r, ch.listed),
          c.all + Delta(was.mapped, ch.mapped, size), c.free + Delta(was.listed, ch.listed, size))
  }

  lemma {:induction false} ChangeShape(page: nat, c: Cache, r: Ref, ch: Chunk)
    requires page > 0 && Present(c.ents, r)
    ensures var c' := Change(page, c, r, ch);
            && |c'.ents| == |c.ents| && Present(c'.ents, r) && ChunkOf(c'.ents, r) == ch
            && (forall q :: Present(c'.ents, q) <==> Present(c.ents, q))
            && (forall q :: SizeOf(page, c'.ents, q) == SizeOf(page, c.ents, q))
            && (forall q :: q != r && Present(c.ents, q) ==> ChunkOf(c'.ents, q) == ChunkOf(c.ents, q))
  {
  }

  lemma {:induction false} ChangeList(page: nat, c: Cache, r: Ref, ch: Chunk)
    requires page > 0 && Present(c.ents, r) && ListInv(c) && c.free == ListBytes(page, c.ents, c.list)
    ensures var c' := Change(page, c, r, ch);
            ListInv(c') && c'.free == ListBytes(page, c'.ents, c'.list)
  {
    hide SizeOf;
    var c' := Change(page, c, r, ch);
    ChangeShape(page, c, r, ch);
    ListBytesSame(page, c.ents, c'.ents, c.list);
    ListBytesSame(page, c.ents, c'.ents, c'.list);
    assert r in c.list <==> ChunkOf(c.ents, r).listed;
    if r in c.list && !ch.listed {
      var i := IndexOf(c.list, r);
      RemoveAtMembers(c.list, i);
      ListBytesRemove(page, c.ents, c.list, i);
    } else if r !in c.list && ch.listed {
      assert c'.list[1..] == c.list;
    }
  }

  lemma {:induction false} ChangeSums(page: nat, c: Cache, r: Ref, ch: Chunk)
    requires page > 0 && Present(c.ents, r) && c.all == AllBytes(page, c.ents)
    ensures var c' := Change(page, c, r, ch);
            c'.all == AllBytes(page, c'.ents)
            && (c.ents[r.e].value.inMem == NumMapped(c.ents[r.e].value.chunks)
                ==> c'.ents[r.e].value.inMem == NumMapped(c'.ents[r.e].value.chunks))
  {
    var c', ent := Change(page, c, r, ch), c.ents[r.e].value;
    var mid := ent.(chunks := ent.chunks[r.k := ch]);
    AllBytesSet(page, c.ents, r.e, c'.ents[r.e]);
    MappedSet(page, ent, r.k, ch, 0);
    MappedFields(page, mid, c'.ents[r.e].value, 0);
    NumMappedSet(ent.chunks, r.k, ch);
  }

  /** The bytes mapped depend on the size and the chunks alone. */
  lemma {:induction false} MappedFields(page: nat, ent: Entry, ent': Entry, k: nat)
    requires page > 0 && ent'.size == ent.size && ent'.chunks == ent.chunks
    ensures MappedFrom(page, ent', k) == MappedFrom(page, ent, k)
    decreases |ent.chunks| - k
  {
    if k < |ent.chunks| {
      MappedFields(page, ent, ent', k + 1);
    }
  }

  lemma {:induction false} ChangeInv(page: nat, c: Cache, r: Ref, ch: Chunk)
    requires Inv(page, c) && Present(c.ents, r) && ChunkInv(ch)
    requires c.ents[r.e].value.refs == 0 ==> ch.refs == 0
    ensures Inv(page, Change(page, c, r, ch))
  {
    hide ListInv, ListBytes, AllBytes, NumMapped;
    ChangeList(page, c, r, ch);
    ChangeSums(page, c, r, ch);
  }

  // ------------------------------------------------------------------
  // Locking, mapping, unmapping

  function Locked(ch: Chunk): (r: Chunk) { ch.(refs := ch.refs + 1, listed := ch.listed && ch.refs != 0) }

  function Unlocked(ch: Chunk): (r: Chunk) { ch.(refs := ch.refs - 1, listed := ch.listed || ch.refs == 1) }

  function Dropped(ch: Chunk): (r: Chunk) { ch.(mapped := false, listed := false) }

  /** The chunks from k on lose their data, as TryFreeChunk does one by one. */
  function DropFrom(page: nat, c: Cache, e: nat, k: nat): (c': Cache)
    requires page > 0
    decreases if e < |c.ents| && c.ents[e].Some? then |c.ents[e].value.chunks| - k else 0
  {
    var r := Ref(e, k);
    if !Present(c.ents, r) then c
    else if !ChunkOf(c.ents, r).mapped then DropFrom(page, c, e, k + 1)
    else DropFrom(page, Change(page, c, r, Dropped(ChunkOf(c.ents, r))), e, k + 1)
  }

  /** The entry is freed. */
  function Kill(page: nat, c: Cache, e: nat): (c': Cache)
    requires page > 0 && e < |c.ents|
  {
    var d := DropFrom(page, c, e, 0);
    if e < |d.ents| then d.(ents := d.ents[e := None]) else d
  }

  /** A chunk on the list that has no data: KillEntry would leave it there. */
  predicate Bare(ent: Entry, k: nat) {
    k < |ent.chunks| && ent.chunks[k].listed && !ent.chunks[k].mapped
  }

  predicate HasBare(ent: Entry) {
    exists k: nat | k < |ent.chunks| :: Bare(ent, k)
  }

  lemma {:induction false} BareSame(a: Entry, b: Entry)
    requires a.chunks == b.chunks
    ensures HasBare(a) <==> HasBare(b)
  {
    assert forall k: nat :: Bare(a, k) <==> Bare(b, k);
  }

  lemma {:induction false} ChangeEntry(page: nat, c: Cache, r: Ref, ch: Chunk)
    requires page > 0 && Present(c.ents, r)
    ensures var c', ent := Change(page, c, r, ch), c.ents[r.e].value;
            && |c'.ents| == |c.ents| && (forall x :: 0 <= x < |c.ents| && x != r.e ==> c'.ents[x] == c.ents[x])
            && c'.ents[r.e].Some? && c'.ents[r.e].value.(inMem := ent.inMem) == ent.(chunks := ent.chunks[r.k := ch])
            && (!ch.listed ==> |c'.list| <= |c.list|)
  {
  }

  lemma {:induction false} DropFromInv(page: nat, c: Cache, e: nat, k: nat)
    requires page > 0 && Inv(page, c) && e < |c.ents| && c.ents[e].Some? && c.ents[e].value.refs == 0
    requires forall j :: 0 <= j < k && j < |c.ents[e].value.chunks| ==> !c.ents[e].value.chunks[j].mapped
    ensures var d := DropFrom(page, c, e, k);
            && Inv(page, d) && |d.ents| == |c.ents| && |d.list| <= |c.list|
            && d.ents[e].Some? && d.ents[e].value.refs == 0 && |d.ents[e].value.chunks| == |c.ents[e].value.chunks|
            && (forall j :: 0 <= j < |d.ents[e].value.chunks| ==> !d.ents[e].value.chunks[j].mapped)
            && (forall j: nat :: Bare(d.ents[e].value, j) <==> Bare(c.ents[e].value, j))
            && (forall x :: 0 <= x < |c.ents| && x != e ==> d.ents[x] == c.ents[x])
    decreases |c.ents[e].value.chunks| - k
  {
    hide Inv, Change;
    var r := Ref(e, k);
    if Present(c.ents, r) {
      var ch := ChunkOf(c.ents, r);
      if !ch.mapped {
        DropFromInv(page, c, e, k + 1);
      } else {
        UnlockedListed(page, c, r);
        ChangeInv(page, c, r, Dropped(ch));
        ChangeEntry(page, c, r, Dropped(ch));
        DropFromInv(page, Change(page, c, r, Dropped(ch)), e, k + 1);
      }
    }
  }

  lemma {:induction false} UnlockedListed(page: nat, c: Cache, r: Ref)
    requires Inv(page, c) && Present(c.ents, r)
    ensures ChunkInv(ChunkOf(c.ents, r)) && c.ents[r.e].value.refs >= 0
    ensures c.ents[r.e].value.refs == 0 ==> ChunkOf(c.ents, r).refs == 0
    ensures ChunkOf(c.ents, r).listed <==> r in c.list
  {
    assert EntryInv(c.ents[r.e].value);
  }

  /** Freeing an entry that nobody uses keeps everything in order exactly when
      none of its chunks is on the list without data. */
  lemma {:induction false} KillExactly(page: nat, c: Cache, e: nat)
    requires page > 0 && Inv(page, c) && e < |c.ents| && c.ents[e].Some? && c.ents[e].value.refs == 0
    ensures Inv(page, Kill(page, c, e)) <==> forall k: nat :: !Bare(c.ents[e].value, k)
  {
    hide Inv;
    DropFromInv(page, c, e, 0);
    FreeExactly(page, DropFrom(page, c, e, 0), e);
  }

  lemma {:induction false} FreeExactly(page: nat, c: Cache, e: nat)
    requires Inv(page, c) && e < |c.ents| && c.ents[e].Some?
    requires forall j :: 0 <= j < |c.ents[e].value.chunks| ==> !c.ents[e].value.chunks[j].mapped
    ensures Inv(page, c.(ents := c.ents[e := None])) <==> forall k: nat :: !Bare(c.ents[e].value, k)
  {
    var c', ent := c.(ents := c.ents[e := None]), c.ents[e].value;
    MappedZero(page, ent, 0);
    AllBytesSet(page, c.ents, e, None);
    if k: nat :| Bare(ent, k) {
      assert ChunkOf(c.ents, Ref(e, k)).listed;
      assert Ref(e, k) in c'.list && !Present(c'.ents, Ref(e, k));
    } else {
      forall r | r in c.list ensures r.e != e {
        assert Present(c.ents, r) && ChunkOf(c.ents, r).listed;
        assert r.e == e ==> Bare(ent, r.k);
      }
      forall r | Present(c'.ents, r) ensures ChunkOf(c'.ents, r) == ChunkOf(c.ents, r) {}
      ListBytesSame(page, c.ents, c'.ents, c.list);
    }
  }

  // ------------------------------------------------------------------
  // Getting under budget

  /** Freeing an entry, or None when one of its chunk records would stay on the list. */
  ghost function Freed(page: nat, c: Cache, e: nat): (c': Option<Cache>)
    requires page > 0 && e < |c.ents| && c.ents[e].Some?
  {
    if HasBare(c.ents[e].value) then None else Some(Kill(page, c, e))
  }

  /** The chunk at the end of the list goes, and its entry with it when nobody
      uses the entry and no chunk of it is mapped any more. */
  ghost function ReduceOnce(page: nat, c: Cache): (c': Option<Cache>)
    requires page > 0 && c.list != [] && Present(c.ents, c.list[|c.list| - 1])
  {
    var r := c.list[|c.list| - 1];
    ChangeEntry(page, c, r, Dropped(ChunkOf(c.ents, r)));
    var d := Change(page, c, r, Dropped(ChunkOf(c.ents, r)));
    if d.ents[r.e].value.inMem == 0 && d.ents[r.e].value.refs == 0 then Freed(page, d, r.e) else Some(d)
  }

  predicate OverBudget(budget: nat, c: Cache) {
    budget > 0 && c.all > budget && c.free > 0
  }

  /** ReduceCacheIfNeeded, or None when it leaves a freed chunk on the list. */
  ghost function Reduce(page: nat, budget: nat, c: Cache): (c': Option<Cache>)
    requires Inv(page, c)
    ensures c'.Some? ==> Inv(page, c'.value)
    decreases |c.list|
  {
    if !OverBudget(budget, c) then Some(c)
    else
      FreeMeansListed(page, c);
      ListedPresent(page, c, c.list[|c.list| - 1]);
      var d := ReduceOnce(page, c);
      if d.None? then None
      else
        ReduceStep(page, c);
        Reduce(page, budget, d.value)
  }

  /** A chunk on the list without data is its entry's only one on the list. */
  ghost predicate TidyEntry(ent: Entry) {
    forall j: nat, k: nat :: Bare(ent, k) && j < |ent.chunks| && j != k ==> !ent.chunks[j].listed
  }

  /** Entries that nobody uses are tidy, so that freeing them is in order. */
  ghost predicate Tidy(c: Cache) {
    forall e :: 0 <= e < |c.ents| && c.ents[e].Some? && c.ents[e].value.refs == 0 ==> TidyEntry(c.ents[e].value)
  }

  /** What is left alone: entries in use, their locks, and locked chunks. */
  ghost predicate SparesEntry(a: Entry, b: Entry) {
    && b.size == a.size && b.refs == a.refs && b.invalid == a.invalid && |b.chunks| == |a.chunks|
    && (forall k :: 0 <= k < |a.chunks| ==> b.chunks[k].refs == a.chunks[k].refs)
    && (forall k :: 0 <= k < |a.chunks| && a.chunks[k].refs > 0 ==> b.chunks[k] == a.chunks[k])
  }

  ghost predicate Spares(c: Cache, d: Cache) {
    && |d.ents| == |c.ents|
    && forall e :: 0 <= e < |c.ents| ==>
         && (c.ents[e].None? ==> d.ents[e].None?)
         && (c.ents[e].Some? && c.ents[e].value.refs > 0 ==> d.ents[e].Some?)
         && (c.ents[e].Some? && d.ents[e].Some? ==> SparesEntry(c.ents[e].value, d.ents[e].value))
  }

  lemma {:induction false} SparesTrans(b: Cache, c: Cache, d: Cache)
    requires Spares(b, c) && Spares(c, d)
    ensures Spares(b, d)
  {
    forall e | 0 <= e < |b.ents| && b.ents[e].Some? && d.ents[e].Some?
      ensures SparesEntry(b.ents[e].value, d.ents[e].value) {
      assert SparesEntry(b.ents[e].value, c.ents[e].value) && SparesEntry(c.ents[e].value, d.ents[e].value);
    }
  }

  /** A listed chunk goes. */
  lemma {:induction false} DropSpares(page: nat, c: Cache, r: Ref)
    requires page > 0 && Inv(page, c) && Present(c.ents, r) && r in c.list
    ensures var d := Change(page, c, r, Dropped(ChunkOf(c.ents, r)));
            Inv(page, d) && Spares(c, d) && |d.list| == |c.list| - 1
  {
    hide Inv, Change;
    var ch := ChunkOf(c.ents, r);
    UnlockedListed(page, c, r);
    ChangeInv(page, c, r, Dropped(ch));
    ChangeEntry(page, c, r, Dropped(ch));
    ShorterList(page, c, r);
  }

  lemma {:induction false} ShorterList(page: nat, c: Cache, r: Ref)
    requires page > 0 && Inv(page, c) && Present(c.ents, r) && r in c.list
    ensures |Change(page, c, r, Dropped(ChunkOf(c.ents, r))).list| == |c.list| - 1
  {
  }

  lemma {:induction false} FreedSpares(page: nat, c: Cache, e: nat)
    requires page > 0 && Inv(page, c) && e < |c.ents| && c.ents[e].Some? && c.ents[e].value.refs == 0
    requires Freed(page, c, e).Some?
    ensures var d := Freed(page, c, e).value;
            Inv(page, d) && Spares(c, d) && |d.list| <= |c.list| && d.ents == c.ents[e := None]
  {
    hide Inv;
    KillExactly(page, c, e);
    DropFromInv(page, c, e, 0);
    assert Kill(page, c, e).ents == c.ents[e := None];
  }

  lemma {:induction false} ReduceStep(page: nat, c: Cache)
    requires Inv(page, c) && c.list != [] && Present(c.ents, c.list[|c.list| - 1]) && ReduceOnce(page, c).Some?
    ensures var d := ReduceOnce(page, c).value;
            Inv(page, d) && Spares(c, d) && |d.list| < |c.list|
  {
    hide Inv, Change, Spares, Freed;
    PagePositive(page, c);
    var r := c.list[|c.list| - 1];
    var d := Change(page, c, r, Dropped(ChunkOf(c.ents, r)));
    DropSpares(page, c, r);
    ChangeEntry(page, c, r, Dropped(ChunkOf(c.ents, r)));
    if d.ents[r.e].value.inMem == 0 && d.ents[r.e].value.refs == 0 {
      FreedSpares(page, d, r.e);
      SparesTrans(c, d, Freed(page, d, r.e).value);
    }
  }

  lemma {:induction false} PagePositive(page: nat, c: Cache)
    requires Inv(page, c)
    ensures page > 0
  {
  }

  lemma {:induction false} ListedPresent(page: nat, c: Cache, r: Ref)
    requires Inv(page, c) && r in c.list
    ensures Present(c.ents, r) && ChunkOf(c.ents, r).listed && ChunkOf(c.ents, r).refs == 0
  {
    assert EntryInv(c.ents[r.e].value);
    assert ChunkInv(ChunkOf(c.ents, r));
  }

  lemma {:induction false} FreeBytes(page: nat, c: Cache)
    requires Inv(page, c)
    ensures c.free >= 0
  {
  }

  lemma {:induction false} FreeMeansListed(page: nat, c: Cache)
    requires Inv(page, c) && c.free > 0
    ensures c.list != [] && page > 0
  {
  }

  /** Reducing ends within budget or with no bytes left that could go.  It
      touches no lock, no locked chunk and no entry in use. */
  lemma {:induction false} ReduceHolds(page: nat, budget: nat, c: Cache)
    requires Inv(page, c) && Reduce(page, budget, c).Some?
    ensures var d := Reduce(page, budget, c).value;
            Inv(page, d) && Spares(c, d) && (budget == 0 || d.all <= budget || d.free == 0)
    decreases |c.list|
  {
    hide Inv, ReduceOnce, Spares;
    if OverBudget(budget, c) {
      FreeMeansListed(page, c);
      ListedPresent(page, c, c.list[|c.list| - 1]);
      ReduceStep(page, c);
      var d := ReduceOnce(page, c).value;
      ReduceHolds(page, budget, d);
      SparesTrans(c, d, Reduce(page, budget, d).value);
    } else {
      FreeBytes(page, c);
      SparesSelf(c);
    }
  }

  lemma {:induction false} SparesSelf(c: Cache)
    ensures Spares(c, c)
  {
  }

  // ------------------------------------------------------------------
  // Tidy caches reduce in order

  /** When a chunk of a tidy entry goes, no bare chunk of it is left on the list. */
  lemma {:induction false} NothingBare(page: nat, c: Cache, d: Cache, r: Ref)
    requires page > 0 && Inv(page, c) && Present(c.ents, r) && r in c.list
    requires d == Change(page, c, r, Dropped(ChunkOf(c.ents, r)))
    requires TidyEntry(c.ents[r.e].value)
    ensures forall k: nat :: !Bare(d.ents[r.e].value, k)
  {
    var ent, ent' := c.ents[r.e].value, d.ents[r.e].value;
    assert ent.chunks[r.k].listed by { UnlockedListed(page, c, r); }
    forall k: nat ensures !Bare(ent', k) {
      if k < |ent.chunks| && k != r.k {
        assert ent'.chunks[k] == ent.chunks[k];
        assert !Bare(ent, k);
      }
    }
  }

  lemma {:induction false} ReduceOnceTidy(page: nat, c: Cache)
    requires Inv(page, c) && Tidy(c) && c.list != [] && Present(c.ents, c.list[|c.list| - 1])
    ensures ReduceOnce(page, c).Some? && Tidy(ReduceOnce(page, c).value)
  {
    hide Inv, Change;
    PagePositive(page, c);
    var r := c.list[|c.list| - 1];
    var d := Change(page, c, r, Dropped(ChunkOf(c.ents, r)));
    ChangeEntry(page, c, r, Dropped(ChunkOf(c.ents, r)));
    if c.ents[r.e].value.refs == 0 {
      NothingBare(page, c, d, r);
      assert TidyEntry(d.ents[r.e].value);
      DropSpares(page, c, r);
      FreedSpares(page, d, r.e);
    }
  }

  /** A tidy cache can be reduced, whatever the budget, and stays tidy. */
  lemma {:induction false} ReduceTidy(page: nat, budget: nat, c: Cache)
    requires Inv(page, c) && Tidy(c)
    ensures Reduce(page, budget, c).Some? && Tidy(Reduce(page, budget, c).value)
    decreases |c.list|
  {
    hide Inv, ReduceOnce, Tidy;
    if OverBudget(budget, c) {
      FreeMeansListed(page, c);
      ListedPresent(page, c, c.list[|c.list| - 1]);
      ReduceOnceTidy(page, c);
      ReduceStep(page, c);
      ReduceTidy(page, budget, ReduceOnce(page, c).value);
    }
  }

  /** Every chunk on the list has its data. */
  ghost predicate NoBare(c: Cache) {
    forall r :: Present(c.ents, r) && ChunkOf(c.ents, r).listed ==> ChunkOf(c.ents, r).mapped
  }

  lemma {:induction false} NoBareTidy(c: Cache)
    requires NoBare(c)
    ensures Tidy(c) && forall e: nat, k: nat :: e < |c.ents| && c.ents[e].Some? ==> !Bare(c.ents[e].value, k)
  {
    forall e: nat, k: nat | e < |c.ents| && c.ents[e].Some? ensures !Bare(c.ents[e].value, k) {
      assert Present(c.ents, Ref(e, k)) && ChunkOf(c.ents, Ref(e, k)).listed ==> ChunkOf(c.ents, Ref(e, k)).mapped;
    }
  }

  lemma {:induction false} ChangeNoBare(page: nat, c: Cache, r: Ref, ch: Chunk)
    requires page > 0 && Present(c.ents, r) && NoBare(c) && (ch.listed ==> ch.mapped)
    ensures NoBare(Change(page, c, r, ch))
  {
    ChangeShape(page, c, r, ch);
  }

  lemma {:induction false} DropFromNoBare(page: nat, c: Cache, e: nat, k: nat)
    requires page > 0 && NoBare(c)
    ensures NoBare(DropFrom(page, c, e, k)) && |DropFrom(page, c, e, k).ents| == |c.ents|
    decreases if e < |c.ents| && c.ents[e].Some? then |c.ents[e].value.chunks| - k else 0
  {
    hide NoBare, Change;
    var r := Ref(e, k);
    if Present(c.ents, r) {
      if ChunkOf(c.ents, r).mapped {
        ChangeNoBare(page, c, r, Dropped(ChunkOf(c.ents, r)));
        ChangeEntry(page, c, r, Dropped(ChunkOf(c.ents, r)));
        DropFromNoBare(page, Change(page, c, r, Dropped(ChunkOf(c.ents, r))), e, k + 1);
      } else {
        DropFromNoBare(page, c, e, k + 1);
      }
    }
  }

  lemma {:induction false} FreedNoBare(page: nat, c: Cache, e: nat)
    requires page > 0 && e < |c.ents| && c.ents[e].Some? && NoBare(c)
    ensures Freed(page, c, e).Some? && NoBare(Freed(page, c, e).value)
  {
    NoBareTidy(c);
    DropFromNoBare(page, c, e, 0);
    var m, d := DropFrom(page, c, e, 0), Freed(page, c, e).value;
    forall r | Present(d.ents, r) && ChunkOf(d.ents, r).listed ensures ChunkOf(d.ents, r).mapped {
      assert Present(m.ents, r) && ChunkOf(d.ents, r) == ChunkOf(m.ents, r);
    }
  }

  /** A cache whose listed chunks all have data can be reduced and stays so. */
  lemma {:induction false} ReduceNoBare(page: nat, budget: nat, c: Cache)
    requires Inv(page, c) && NoBare(c)
    ensures Reduce(page, budget, c).Some? && NoBare(Reduce(page, budget, c).value)
    decreases |c.list|
  {
    hide Inv, Change, NoBare, Freed;
    if OverBudget(budget, c) {
      FreeMeansListed(page, c);
      var r := c.list[|c.list| - 1];
      ListedPresent(page, c, r);
      var d := Change(page, c, r, Dropped(ChunkOf(c.ents, r)));
      ChangeNoBare(page, c, r, Dropped(ChunkOf(c.ents, r)));
      ChangeEntry(page, c, r, Dropped(ChunkOf(c.ents, r)));
      DropSpares(page, c, r);
      if d.ents[r.e].value.inMem == 0 && d.ents[r.e].value.refs == 0 {
        FreedNoBare(page, d, r.e);
      }
      ReduceStep(page, c);
      ReduceNoBare(page, budget, ReduceOnce(page, c).value);
    }
  }

  // ------------------------------------------------------------------
  // When reducing goes wrong

  predicate HasData(ents: seq<Option<Entry>>, r: Ref) { Present(ents, r) && ChunkOf(ents, r).mapped }

  /** The counted bytes of the listed chunks that have their data. */
  function DataBytes(page: nat, ents: seq<Option<Entry>>, list: seq<Ref>): (b: nat)
    requires page > 0
  {
    if list == [] then 0
    else DataBytes(page, ents, list[..|list| - 1])
         + (if HasData(ents, list[|list| - 1]) then SizeOf(page, ents, list[|list| - 1]) else 0)
  }

  /** The chunk at place p is the last of an unused entry that can have data,
      and nearer the head the list has others of that entry, all without data. */
  ghost predicate Unsafe(c: Cache, p: nat) {
    && p < |c.list| && Present(c.ents, c.list[p]) && c.ents[c.list[p].e].value.refs == 0
    && (exists q :: 0 <= q < p && c.list[q].e == c.list[p].e)
    && (forall q :: 0 <= q < p && c.list[q].e == c.list[p].e ==> !HasData(c.ents, c.list[q]))
  }

  /** When all behind place p has gone, the cache is still over budget. */
  ghost predicate OverAt(page: nat, budget: nat, c: Cache, p: nat)
    requires page > 0
  {
    && p < |c.list| && budget > 0 && c.all - DataBytes(page, c.ents, c.list[p + 1..]) > budget
    && ListBytes(page, c.ents, c.list[..p + 1]) > 0
  }

  /** Some chunk is unsafe and will have to go. */
  ghost predicate Doomed(page: nat, budget: nat, c: Cache)
    requires page > 0
  {
    exists p: nat :: Unsafe(c, p) && OverAt(page, budget, c, p)
  }

  lemma {:induction false} ListBytesSplit(page: nat, ents: seq<Option<Entry>>, list: seq<Ref>, p: nat)
    requires page > 0 && p <= |list|
    ensures ListBytes(page, ents, list) == ListBytes(page, ents, list[..p]) + ListBytes(page, ents, list[p..])
  {
    if p > 0 {
      ListBytesSplit(page, ents, list[1..], p - 1);
      assert list[..p][1..] == list[1..][..p - 1] && list[1..][p - 1..] == list[p..];
    } else {
      assert list[..0] == [] && list[0..] == list;
    }
  }

  lemma {:induction false} DataBytesSame(page: nat, ents: seq<Option<Entry>>, ents': seq<Option<Entry>>, list: seq<Ref>)
    requires page > 0 && forall r :: r in list ==> SameChunkAt(page, ents, ents', r)
    ensures DataBytes(page, ents', list) == DataBytes(page, ents, list)
  {
    if list != [] {
      assert list[|list| - 1] in list;
      DataBytesSame(page, ents, ents', list[..|list| - 1]);
    }
  }

  /** The chunk record is the same one, in an entry of the same size and uses. */
  ghost predicate SameChunkAt(page: nat, ents: seq<Option<Entry>>, ents': seq<Option<Entry>>, r: Ref)
    requires page > 0
  {
    && Present(ents, r) && Present(ents', r) && ChunkOf(ents', r) == ChunkOf(ents, r)
    && ents'[r.e].value.refs == ents[r.e].value.refs && SizeOf(page, ents', r) == SizeOf(page, ents, r)
  }

  /** With no data left in an entry there is nothing to drop. */
  lemma {:induction false} DropNothing(page: nat, c: Cache, e: nat, k: nat)
    requires page > 0 && e < |c.ents| && c.ents[e].Some?
    requires forall j :: 0 <= j < |c.ents[e].value.chunks| ==> !c.ents[e].value.chunks[j].mapped
    ensures DropFrom(page, c, e, k) == c
    decreases |c.ents[e].value.chunks| - k
  {
    if k < |c.ents[e].value.chunks| {
      DropNothing(page, c, e, k + 1);
    }
  }

  /** The last chunk of the list goes: the rest stays as it is. */
  lemma {:induction false} DropLastView(page: nat, c: Cache)
    requires page > 0 && Inv(page, c) && c.list != [] && Present(c.ents, c.list[|c.list| - 1])
    ensures var n, r := |c.list| - 1, c.list[|c.list| - 1];
            var d := Change(page, c, r, Dropped(ChunkOf(c.ents, r)));
            && Inv(page, d) && d.list == c.list[..n] && Present(d.ents, r)
            && d.ents[r.e].value.refs == c.ents[r.e].value.refs
            && d.all == c.all - DataBytes(page, c.ents, [r])
            && (forall q :: q in d.list ==> SameChunkAt(page, c.ents, d.ents, q))
  {
    var n, r := |c.list| - 1, c.list[|c.list| - 1];
    var d := Change(page, c, r, Dropped(ChunkOf(c.ents, r)));
    DropSpares(page, c, r);
    ChangeShape(page, c, r, Dropped(ChunkOf(c.ents, r)));
    ChangeEntry(page, c, r, Dropped(ChunkOf(c.ents, r)));
    LastWithout(c.list);
    assert [r][..0] == [];
    forall q | q in d.list ensures SameChunkAt(page, c.ents, d.ents, q) {
      assert q in c.list && q != r;
      ListedPresent(page, c, q);
    }
  }

  lemma {:induction false} LastWithout(l: seq<Ref>)
    requires l != [] && Distinct(l)
    ensures Without(l, l[|l| - 1]) == l[..|l| - 1] && l[|l| - 1] !in l[..|l| - 1]
  {
    assert IndexOf(l, l[|l| - 1]) == |l| - 1;
  }

  /** Taking the last chunk goes wrong exactly when it is unsafe. */
  lemma {:induction false} OnceExactly(page: nat, c: Cache)
    requires Inv(page, c) && c.list != [] && Present(c.ents, c.list[|c.list| - 1])
    ensures ReduceOnce(page, c).None? <==> Unsafe(c, |c.list| - 1)
  {
    hide Inv, Change, Kill;
    PagePositive(page, c);
    var n, r := |c.list| - 1, c.list[|c.list| - 1];
    var d := Change(page, c, r, Dropped(ChunkOf(c.ents, r)));
    DropLastView(page, c);
    var ent := d.ents[r.e].value;
    EntryData(page, d, r.e);
    if ent.refs == 0 && ent.inMem == 0 && HasBare(ent) {
      var k: nat :| k < |ent.chunks| && Bare(ent, k);
      InList(page, d, Ref(r.e, k));
      forall q | 0 <= q < n && c.list[q].e == r.e ensures !HasData(c.ents, c.list[q]) {
        assert c.list[q] in d.list;
      }
      assert Unsafe(c, n);
    }
    if Unsafe(c, n) {
      var q :| 0 <= q < n && c.list[q].e == r.e;
      assert c.list[q] in d.list;
      ListedPresent(page, d, c.list[q]);
      assert Bare(ent, c.list[q].k);
      forall k | 0 <= k < |ent.chunks| ensures !ent.chunks[k].mapped {
        InList(page, d, Ref(r.e, k));
        assert Ref(r.e, k) in d.list ==> SameChunkAt(page, c.ents, d.ents, Ref(r.e, k));
      }
    }
  }

  /** In an entry that nobody uses, data is on the list. */
  lemma {:induction false} InList(page: nat, c: Cache, r: Ref)
    requires Inv(page, c) && Present(c.ents, r) && c.ents[r.e].value.refs == 0
    ensures ChunkOf(c.ents, r).mapped || ChunkOf(c.ents, r).listed ==> exists q :: 0 <= q < |c.list| && c.list[q] == r
  {
    UnlockedListed(page, c, r);
  }

  lemma {:induction false} EntryData(page: nat, c: Cache, e: nat)
    requires Inv(page, c) && e < |c.ents| && c.ents[e].Some?
    ensures c.ents[e].value.inMem == 0
            <==> forall k :: 0 <= k < |c.ents[e].value.chunks| ==> !c.ents[e].value.chunks[k].mapped
  {
    assert EntryInv(c.ents[e].value);
    NumMappedZero(c.ents[e].value.chunks);
  }

  /** What taking the last chunk leaves behind. */
  lemma {:induction false} OnceView(page: nat, c: Cache)
    requires page > 0 && Inv(page, c) && c.list != [] && Present(c.ents, c.list[|c.list| - 1])
             && ReduceOnce(page, c).Some?
    ensures var n, d := |c.list| - 1, ReduceOnce(page, c).value;
            && Inv(page, d) && d.list == c.list[..n] && d.all == c.all - DataBytes(page, c.ents, [c.list[n]])
            && (forall q :: q in d.list ==> SameChunkAt(page, c.ents, d.ents, q))
  {
    hide Inv, Change;
    var r := c.list[|c.list| - 1];
    var m := Change(page, c, r, Dropped(ChunkOf(c.ents, r)));
    var d := ReduceOnce(page, c).value;
    DropLastView(page, c);
    ReduceStep(page, c);
    if m.ents[r.e].value.inMem == 0 && m.ents[r.e].value.refs == 0 {
      EntryData(page, m, r.e);
      DropNothing(page, m, r.e, 0);
      assert d == m.(ents := m.ents[r.e := None]);
      forall q | q in d.list ensures SameChunkAt(page, c.ents, d.ents, q) {
        ListedPresent(page, d, q);
      }
    }
  }

  /** Places nearer the head are judged as before. */
  lemma {:induction false} PlaceSame(page: nat, budget: nat, c: Cache, d: Cache, p: nat)
    requires page > 0 && Inv(page, c) && Inv(page, d) && c.list != [] && d.list == c.list[..|c.list| - 1]
             && p < |d.list|
    requires d.all == c.all - DataBytes(page, c.ents, [c.list[|c.list| - 1]])
    requires forall q :: q in d.list ==> SameChunkAt(page, c.ents, d.ents, q)
    ensures Unsafe(d, p) <==> Unsafe(c, p)
    ensures OverAt(page, budget, d, p) <==> OverAt(page, budget, c, p)
  {
    hide Inv, ListBytes;
    forall q | 0 <= q <= p ensures d.list[q] == c.list[q] && SameChunkAt(page, c.ents, d.ents, c.list[q]) {
      assert d.list[q] in d.list;
    }
    OverSame(page, c, d, p);
  }

  lemma {:induction false} OverSame(page: nat, c: Cache, d: Cache, p: nat)
    requires page > 0 && c.list != [] && d.list == c.list[..|c.list| - 1] && p < |d.list|
    requires forall q :: q in d.list ==> SameChunkAt(page, c.ents, d.ents, q)
    ensures DataBytes(page, c.ents, c.list[p + 1..])
            == DataBytes(page, d.ents, d.list[p + 1..]) + DataBytes(page, c.ents, [c.list[|c.list| - 1]])
    ensures ListBytes(page, d.ents, d.list[..p + 1]) == ListBytes(page, c.ents, c.list[..p + 1])
  {
    hide SameChunkAt;
    SlicesSame(c.list, p + 1);
    DataBytesLast(page, c.ents, c.list[p + 1..]);
    DataBytesSame(page, c.ents, d.ents, d.list[p + 1..]);
    forall q | q in d.list[..p + 1] ensures SizeOf(page, d.ents, q) == SizeOf(page, c.ents, q) {
      SameSize(page, c.ents, d.ents, q);
    }
    ListBytesSame(page, c.ents, d.ents, d.list[..p + 1]);
  }

  /** A list without its last, seen from place k on and up to place k. */
  lemma {:induction false} SlicesSame<T>(l: seq<T>, k: nat)
    requires k < |l|
    ensures var m := l[..|l| - 1];
            && m[..k] == l[..k]
            && l[k..] != [] && l[k..][..|l[k..]| - 1] == m[k..] && l[k..][|l[k..]| - 1] == l[|l| - 1]
  {
  }

  lemma {:induction false} DataBytesLast(page: nat, ents: seq<Option<Entry>>, l: seq<Ref>)
    requires page > 0 && l != []
    ensures DataBytes(page, ents, l)
            == DataBytes(page, ents, l[..|l| - 1]) + DataBytes(page, ents, [l[|l| - 1]])
  {
    assert [l[|l| - 1]][..0] == [];
  }

  lemma {:induction false} SameSize(page: nat, ents: seq<Option<Entry>>, ents': seq<Option<Entry>>, r: Ref)
    requires page > 0 && SameChunkAt(page, ents, ents', r)
    ensures SizeOf(page, ents', r) == SizeOf(page, ents, r)
  {
  }

  /** Over budget with all behind p gone means over budget now. */
  lemma {:induction false} OverBefore(page: nat, budget: nat, c: Cache, p: nat)
    requires page > 0 && Inv(page, c)
    ensures OverAt(page, budget, c, p) ==> OverBudget(budget, c)
    ensures p + 1 == |c.list| ==> (OverAt(page, budget, c, p) <==> OverBudget(budget, c))
  {
    if p < |c.list| {
      ListBytesSplit(page, c.ents, c.list, p + 1);
      if p + 1 == |c.list| {
        assert c.list[..p + 1] == c.list && c.list[p + 1..] == [];
      }
    }
  }

  /** Getting under budget goes wrong exactly when an unsafe chunk has to go. */
  lemma {:induction false} ReduceExactly(page: nat, budget: nat, c: Cache)
    requires Inv(page, c)
    ensures page > 0 && (Reduce(page, budget, c).None? <==> Doomed(page, budget, c))
    decreases |c.list|
  {
    hide Inv, ReduceOnce, Unsafe, OverAt;
    PagePositive(page, c);
    if !OverBudget(budget, c) {
      forall p: nat ensures !OverAt(page, budget, c, p) {
        OverBefore(page, budget, c, p);
      }
    } else {
      FreeMeansListed(page, c);
      var n := |c.list| - 1;
      ListedPresent(page, c, c.list[n]);
      OnceExactly(page, c);
      OverBefore(page, budget, c, n);
      if ReduceOnce(page, c).Some? {
        var d := ReduceOnce(page, c).value;
        OnceView(page, c);
        ReduceStep(page, c);
        ReduceExactly(page, budget, d);
        DoomedSame(page, budget, c, d);
      }
    }
  }

  /** What getting under budget leaves of the list: the chunks up to some place, as
      long as it is still over budget with all behind that place gone, and no
      longer.  The data of those behind it is gone. */
  lemma {:induction false} ReduceCut(page: nat, budget: nat, c: Cache) returns (m: nat)
    requires Inv(page, c) && Reduce(page, budget, c).Some?
    ensures page > 0 && m <= |c.list|
    ensures var d := Reduce(page, budget, c).value;
            && d.list == c.list[..m] && d.all == c.all - DataBytes(page, c.ents, c.list[m..])
            && (budget == 0 || d.all <= budget || d.free == 0)
            && (forall r :: r in d.list ==> SameChunkAt(page, c.ents, d.ents, r))
    ensures forall p :: m <= p < |c.list| ==> OverAt(page, budget, c, p)
    decreases |c.list|
  {
    hide Inv, ReduceOnce, OverAt, ListBytes, SameChunkAt;
    PagePositive(page, c);
    var n := |c.list|;
    assert c.list[..n] == c.list && c.list[n..] == [];
    if !OverBudget(budget, c) {
      FreeBytes(page, c);
      SameItself(page, c);
      return n;
    }
    FreeMeansListed(page, c);
    ListedPresent(page, c, c.list[n - 1]);
    var d := ReduceOnce(page, c).value;
    OnceView(page, c);
    ReduceStep(page, c);
    m := ReduceCut(page, budget, d);
    var e := Reduce(page, budget, d).value;
    assert d.list[..m] == c.list[..m];
    OverBefore(page, budget, c, n - 1);
    forall p | m <= p < n ensures OverAt(page, budget, c, p) {
      if p < n - 1 {
        PlaceSame(page, budget, c, d, p);
      }
    }
    CutSums(page, c, d, m);
    forall r | r in e.list ensures SameChunkAt(page, c.ents, e.ents, r) {
      assert r in d.list by { assert r in d.list[..m]; }
      SameTwice(page, c.ents, d.ents, e.ents, r);
    }
  }

  lemma {:induction false} CutSums(page: nat, c: Cache, d: Cache, m: nat)
    requires page > 0 && c.list != [] && d.list == c.list[..|c.list| - 1] && m <= |d.list|
    requires forall q :: q in d.list ==> SameChunkAt(page, c.ents, d.ents, q)
    ensures DataBytes(page, c.ents, c.list[m..])
            == DataBytes(page, d.ents, d.list[m..]) + DataBytes(page, c.ents, [c.list[|c.list| - 1]])
  {
    hide SameChunkAt;
    SlicesSame(c.list, m);
    DataBytesLast(page, c.ents, c.list[m..]);
    forall q | q in d.list[m..] ensures q in d.list {}
    DataBytesSame(page, c.ents, d.ents, d.list[m..]);
  }

  lemma {:induction false} SameTwice(page: nat, a: seq<Option<Entry>>, b: seq<Option<Entry>>, c: seq<Option<Entry>>,
                                     r: Ref)
    requires page > 0 && SameChunkAt(page, a, b, r) && SameChunkAt(page, b, c, r)
    ensures SameChunkAt(page, a, c, r)
  {
  }

  lemma {:induction false} SameItself(page: nat, c: Cache)
    requires Inv(page, c)
    ensures page > 0 && forall r :: r in c.list ==> SameChunkAt(page, c.ents, c.ents, r)
  {
  }

  lemma {:induction false} DoomedSame(page: nat, budget: nat, c: Cache, d: Cache)
    requires page > 0 && Inv(page, c) && Inv(page, d) && c.list != [] && d.list == c.list[..|c.list| - 1]
    requires d.all == c.all - DataBytes(page, c.ents, [c.list[|c.list| - 1]])
    requires forall q :: q in d.list ==> SameChunkAt(page, c.ents, d.ents, q)
    requires !Unsafe(c, |c.list| - 1)
    ensures Doomed(page, budget, d) <==> Doomed(page, budget, c)
  {
    hide Inv, OverAt, DataBytes;
    forall p: nat | p < |d.list|
      ensures (Unsafe(d, p) <==> Unsafe(c, p)) && (OverAt(page, budget, d, p) <==> OverAt(page, budget, c, p)) {
      PlaceSame(page, budget, c, d, p);
    }
    if p: nat :| Unsafe(c, p) && OverAt(page, budget, c, p) {
      assert p < |d.list|;
      assert Unsafe(d, p) && OverAt(page, budget, d, p);
    }
    if p: nat :| Unsafe(d, p) && OverAt(page, budget, d, p) {
      assert Unsafe(c, p) && OverAt(page, budget, c, p);
    }
  }

  // ------------------------------------------------------------------
  // What connections do to the cache

  /** The entry is there and in use. */
  ghost predicate InUse(c: Cache, e: nat) {
    e < |c.ents| && c.ents[e].Some? && c.ents[e].value.refs > 0
  }

  /** The chunk of a byte position, which a file need not have. */
  function ChunkAt(e: nat, bytes: nat): (r: Ref) { Ref(e, bytes / BLOCK) }

  function Inc(page: nat, c: Cache, e: nat, bytes: nat): (c': Cache)
    requires page > 0
  {
    var r := ChunkAt(e, bytes);
    if Present(c.ents, r) then Change(page, c, r, Locked(ChunkOf(c.ents, r))) else c
  }

  ghost predicate Unlockable(page: nat, c: Cache, e: nat, bytes: nat) {
    && Inv(page, c) && InUse(c, e)
    && (Present(c.ents, ChunkAt(e, bytes)) ==> ChunkOf(c.ents, ChunkAt(e, bytes)).refs > 0)
  }

  /** A chunk that loses its last lock goes on the list, and the list is reduced. */
  ghost function Dec(page: nat, budget: nat, c: Cache, e: nat, bytes: nat): (c': Option<Cache>)
    requires Unlockable(page, c, e, bytes)
    ensures c'.Some? ==> Inv(page, c'.value)
  {
    var r := ChunkAt(e, bytes);
    if !Present(c.ents, r) then Some(c)
    else
      var ch := ChunkOf(c.ents, r);
      UnlockedListed(page, c, r);
      ChangeInv(page, c, r, Unlocked(ch));
      if ch.refs == 1 then Reduce(page, budget, Change(page, c, r, Unlocked(ch)))
      else Some(Change(page, c, r, Unlocked(ch)))
  }

  /** The chunk of a position gets its data, if the file has any. */
  ghost function Read(page: nat, budget: nat, c: Cache, e: nat, pos: nat): (c': Option<Cache>)
    requires Unlockable(page, c, e, pos)
    ensures c'.Some? ==> Inv(page, c'.value)
  {
    var r := ChunkAt(e, pos);
    if c.ents[e].value.size == 0 || !Present(c.ents, r) || ChunkOf(c.ents, r).mapped then Some(c)
    else
      UnlockedListed(page, c, r);
      ChangeInv(page, c, r, ChunkOf(c.ents, r).(mapped := true));
      Reduce(page, budget, Change(page, c, r, ChunkOf(c.ents, r).(mapped := true)))
  }

  const NEW_CHUNK := Chunk(0, false, false)

  /** A new entry, used by the connection that asked for it. */
  function AddEntry(c: Cache, size: nat): (c': Cache) {
    c.(ents := c.ents + [Some(Entry(size, 1, false, 0, seq(NumChunks(size), _ => NEW_CHUNK)))])
  }

  /** The entry with other use counts. */
  function Recounted(c: Cache, e: nat, refs: int, invalid: bool): (c': Cache)
    requires e < |c.ents| && c.ents[e].Some?
  {
    c.(ents := c.ents[e := Some(c.ents[e].value.(refs := refs, invalid := invalid))])
  }

  /** One use less; an invalid entry goes with its last use. */
  ghost function Release(page: nat, c: Cache, e: nat): (c': Option<Cache>)
    requires page > 0 && InUse(c, e)
  {
    var ent := c.ents[e].value;
    var d := Recounted(c, e, ent.refs - 1, ent.invalid);
    if ent.refs == 1 && ent.invalid then Freed(page, d, e) else Some(d)
  }

  ghost function Invalidate(page: nat, c: Cache, e: nat): (c': Option<Cache>)
    requires page > 0 && e < |c.ents| && c.ents[e].Some?
  {
    if c.ents[e].value.refs == 0 then Freed(page, c, e) else Some(Recounted(c, e, c.ents[e].value.refs, true))
  }

  // ------------------------------------------------------------------
  // What each of these does, record by record

  /** The number of chunks is the least that covers the file, and at least one. */
  lemma {:induction false} NumChunksMeans(size: nat, n: nat)
    ensures n == NumChunks(size) <==> n >= 1 && size <= n * BLOCK && (n == 1 || (n - 1) * BLOCK < size)
  {
  }

  /** Only that chunk of that entry differs, and with it the number of mapped ones. */
  ghost predicate OneChunk(c: Cache, d: Cache, r: Ref, ch: Chunk) {
    && Present(c.ents, r) && |d.ents| == |c.ents|
    && (forall x :: 0 <= x < |c.ents| && x != r.e ==> d.ents[x] == c.ents[x])
    && Present(d.ents, r) && ChunkOf(d.ents, r) == ch
    && var a, b := c.ents[r.e].value, d.ents[r.e].value;
       && b.size == a.size && b.refs == a.refs && b.invalid == a.invalid && |b.chunks| == |a.chunks|
       && b.inMem == a.inMem + (if ch.mapped then 1 else 0) - (if a.chunks[r.k].mapped then 1 else 0)
       && (forall k :: 0 <= k < |a.chunks| && k != r.k ==> b.chunks[k] == a.chunks[k])
  }

  lemma {:induction false} ChangeMeans(page: nat, c: Cache, r: Ref, ch: Chunk)
    requires Inv(page, c) && Present(c.ents, r)
    ensures page > 0
    ensures var d, was := Change(page, c, r, ch), ChunkOf(c.ents, r);
            && OneChunk(c, d, r, ch)
            && (was.listed == ch.listed ==> d.list == c.list)
            && (!was.listed && ch.listed ==> d.list == [r] + c.list)
            && (forall q :: q != r ==> (q in d.list <==> q in c.list))
  {
    UnlockedListed(page, c, r);
    if r in c.list && !ch.listed {
      RemoveAtMembers(c.list, IndexOf(c.list, r));
    }
  }

  /** Locking: one lock more on the chunk of the byte, if the file has it, which is
      then not on the list. */
  lemma {:induction false} IncMeans(page: nat, c: Cache, e: nat, bytes: nat)
    requires Inv(page, c) && InUse(c, e)
    ensures page > 0
    ensures var d, r := Inc(page, c, e, bytes), Ref(e, bytes / BLOCK);
            && (!Present(c.ents, r) ==> d == c)
            && (Present(c.ents, r) ==>
                 && OneChunk(c, d, r, Chunk(ChunkOf(c.ents, r).refs + 1, ChunkOf(c.ents, r).mapped, false))
                 && forall q :: q != r ==> (q in d.list <==> q in c.list))
  {
    hide Change, OneChunk;
    var r := Ref(e, bytes / BLOCK);
    PagePositive(page, c);
    if Present(c.ents, r) {
      UnlockedListed(page, c, r);
      ChangeMeans(page, c, r, Locked(ChunkOf(c.ents, r)));
      assert Locked(ChunkOf(c.ents, r)) == Chunk(ChunkOf(c.ents, r).refs + 1, ChunkOf(c.ents, r).mapped, false);
    }
  }

  /** Unlocking: one lock less; with the last one the chunk goes to the front of
      the list, and then the cache gets under budget. */
  lemma {:induction false} DecMeans(page: nat, budget: nat, c: Cache, e: nat, bytes: nat) returns (d: Cache)
    requires Unlockable(page, c, e, bytes) && Present(c.ents, Ref(e, bytes / BLOCK))
    ensures var r := Ref(e, bytes / BLOCK);
            var ch := ChunkOf(c.ents, r);
            && Inv(page, d) && OneChunk(c, d, r, Chunk(ch.refs - 1, ch.mapped, ch.refs == 1))
            && d.list == (if ch.refs == 1 then [r] + c.list else c.list)
            && Dec(page, budget, c, e, bytes) == if ch.refs == 1 then Reduce(page, budget, d) else Some(d)
  {
    hide Change, OneChunk, Reduce, Inv;
    var r := Ref(e, bytes / BLOCK);
    var ch := ChunkOf(c.ents, r);
    PagePositive(page, c);
    UnlockedListed(page, c, r);
    ChangeInv(page, c, r, Unlocked(ch));
    ChangeMeans(page, c, r, Unlocked(ch));
    d := Change(page, c, r, Unlocked(ch));
    assert Unlocked(ch) == Chunk(ch.refs - 1, ch.mapped, ch.refs == 1);
  }

  /** Reading: the chunk of a position that has data gets it, and, locked as it is,
      keeps it while the cache gets under budget. */
  lemma {:induction false} ReadMaps(page: nat, budget: nat, c: Cache, e: nat, pos: nat)
    requires Unlockable(page, c, e, pos) && Present(c.ents, Ref(e, pos / BLOCK)) && c.ents[e].value.size > 0
    requires Read(page, budget, c, e, pos).Some?
    ensures var d, r := Read(page, budget, c, e, pos).value, Ref(e, pos / BLOCK);
            Present(d.ents, r) && ChunkOf(d.ents, r) == ChunkOf(c.ents, r).(mapped := true)
  {
    hide Change, Reduce, Inv;
    var r := Ref(e, pos / BLOCK);
    var ch := ChunkOf(c.ents, r);
    if !ch.mapped {
      PagePositive(page, c);
      UnlockedListed(page, c, r);
      ChangeInv(page, c, r, ch.(mapped := true));
      ChangeShape(page, c, r, ch.(mapped := true));
      ChangeEntry(page, c, r, ch.(mapped := true));
      var d := Change(page, c, r, ch.(mapped := true));
      ReduceHolds(page, budget, d);
      LockedSpared(d, Reduce(page, budget, d).value, r);
    }
  }

  lemma {:induction false} LockedSpared(c: Cache, d: Cache, r: Ref)
    requires Spares(c, d) && Present(c.ents, r) && ChunkOf(c.ents, r).refs > 0 && c.ents[r.e].value.refs > 0
    ensures Present(d.ents, r) && ChunkOf(d.ents, r) == ChunkOf(c.ents, r)
  {
    assert SparesEntry(c.ents[r.e].value, d.ents[r.e].value);
  }

  /** Taking the last chunk of the list: its data and its place go, and its entry
      with it exactly when nobody uses the entry and none of its other chunks has data. */
  lemma {:induction false} OnceMeans(page: nat, c: Cache)
    requires Inv(page, c) && c.list != [] && Present(c.ents, c.list[|c.list| - 1]) && ReduceOnce(page, c).Some?
    ensures var d, r := ReduceOnce(page, c).value, c.list[|c.list| - 1];
            var ent := c.ents[r.e].value;
            && |d.ents| == |c.ents| && (forall x :: 0 <= x < |c.ents| && x != r.e ==> d.ents[x] == c.ents[x])
            && (d.ents[r.e].None?
                <==> ent.refs == 0 && forall k :: 0 <= k < |ent.chunks| && k != r.k ==> !ent.chunks[k].mapped)
            && (d.ents[r.e].Some? ==> OneChunk(c, d, r, Chunk(ent.chunks[r.k].refs, false, false)))
  {
    hide Inv, Change, Kill, OneChunk, Spares;
    PagePositive(page, c);
    var r := c.list[|c.list| - 1];
    var ch := Dropped(ChunkOf(c.ents, r));
    var m := Change(page, c, r, ch);
    ChangeMeans(page, c, r, ch);
    DropSpares(page, c, r);
    ChangeEntry(page, c, r, ch);
    EntryData(page, m, r.e);
    if m.ents[r.e].value.inMem == 0 && m.ents[r.e].value.refs == 0 {
      FreedSpares(page, m, r.e);
    }
  }

  /** Giving up a use: one less; the entry goes exactly when it was the last and the
      entry is invalid. */
  lemma {:induction false} ReleaseMeans(page: nat, c: Cache, e: nat)
    requires Inv(page, c) && InUse(c, e) && Release(page, c, e).Some?
    requires c.ents[e].value.refs == 1 ==>
               forall k :: 0 <= k < |c.ents[e].value.chunks| ==> c.ents[e].value.chunks[k].refs == 0
    ensures var d, ent := Release(page, c, e).value, c.ents[e].value;
            d.ents == c.ents[e := if ent.refs == 1 && ent.invalid then None else Some(ent.(refs := ent.refs - 1))]
  {
    hide Inv, Kill, Spares;
    PagePositive(page, c);
    var ent := c.ents[e].value;
    RecountedInv(page, c, e, ent.refs - 1, ent.invalid);
    if ent.refs == 1 && ent.invalid {
      FreedSpares(page, Recounted(c, e, ent.refs - 1, ent.invalid), e);
    }
  }

  /** Finding an entry stale: it goes exactly when nobody uses it, and is invalid otherwise. */
  lemma {:induction false} InvalidateMeans(page: nat, c: Cache, e: nat)
    requires Inv(page, c) && e < |c.ents| && c.ents[e].Some? && Invalidate(page, c, e).Some?
    ensures page > 0
    ensures var d, ent := Invalidate(page, c, e).value, c.ents[e].value;
            d.ents == c.ents[e := if ent.refs == 0 then None else Some(ent.(invalid := true))]
  {
    hide Inv, Kill, Spares;
    PagePositive(page, c);
    if c.ents[e].value.refs == 0 {
      FreedSpares(page, c, e);
    }
  }

  /** A new entry: one use, no locks and no data, one record for each chunk. */
  lemma {:induction false} AddEntryMeans(c: Cache, size: nat)
    ensures var d := AddEntry(c, size);
            && |d.ents| == |c.ents| + 1 && d.ents[..|c.ents|] == c.ents && d.list == c.list
            && d.all == c.all && d.free == c.free
            && d.ents[|c.ents|].Some?
            && var ent := d.ents[|c.ents|].value;
               && ent.size == size && ent.refs == 1 && !ent.invalid && ent.inMem == 0 && |ent.chunks| == NumChunks(size)
               && forall k :: 0 <= k < |ent.chunks| ==> ent.chunks[k] == Chunk(0, false, false)
  {
  }

  // When each of these goes wrong, as the state before it tells.
  ghost predicate DecHazard(page: nat, budget: nat, c: Cache, e: nat, bytes: nat)
    requires page > 0
  {
    var r := ChunkAt(e, bytes);
    Present(c.ents, r) && ChunkOf(c.ents, r).refs == 1
    && Doomed(page, budget, Change(page, c, r, Unlocked(ChunkOf(c.ents, r))))
  }

  ghost predicate ReadHazard(page: nat, budget: nat, c: Cache, e: nat, pos: nat)
    requires page > 0
  {
    var r := ChunkAt(e, pos);
    Present(c.ents, r) && c.ents[e].value.size != 0 && !ChunkOf(c.ents, r).mapped
    && Doomed(page, budget, Change(page, c, r, ChunkOf(c.ents, r).(mapped := true)))
  }

  ghost predicate LeaveHazard(c: Cache, e: nat) {
    InUse(c, e) && c.ents[e].value.refs == 1 && c.ents[e].value.invalid && HasBare(c.ents[e].value)
  }

  ghost predicate StaleHazard(c: Cache, e: nat) {
    e < |c.ents| && c.ents[e].Some? && c.ents[e].value.refs == 0 && HasBare(c.ents[e].value)
  }

  /** Giving up a lock goes wrong exactly when it is the last one on its chunk
      and with the chunk on the list an unsafe chunk has to go. */
  lemma {:induction false} DecExactly(page: nat, budget: nat, c: Cache, e: nat, bytes: nat)
    requires page > 0 && Unlockable(page, c, e, bytes)
    ensures Dec(page, budget, c, e, bytes).None? <==> DecHazard(page, budget, c, e, bytes)
  {
    hide Inv, Change, Doomed, Reduce;
    var r := ChunkAt(e, bytes);
    if Present(c.ents, r) {
      UnlockedListed(page, c, r);
      ChangeInv(page, c, r, Unlocked(ChunkOf(c.ents, r)));
      ReduceExactly(page, budget, Change(page, c, r, Unlocked(ChunkOf(c.ents, r))));
    }
  }

  /** Reading goes wrong exactly when there is data to map and with its bytes
      counted an unsafe chunk has to go. */
  lemma {:induction false} ReadExactly(page: nat, budget: nat, c: Cache, e: nat, pos: nat)
    requires page > 0 && Unlockable(page, c, e, pos)
    ensures Read(page, budget, c, e, pos).None? <==> ReadHazard(page, budget, c, e, pos)
  {
    hide Inv, Change, Doomed, Reduce;
    var r := ChunkAt(e, pos);
    if Present(c.ents, r) {
      UnlockedListed(page, c, r);
      ChangeInv(page, c, r, ChunkOf(c.ents, r).(mapped := true));
      ReduceExactly(page, budget, Change(page, c, r, ChunkOf(c.ents, r).(mapped := true)));
    }
  }

  lemma {:induction false} IncInv(page: nat, c: Cache, e: nat, bytes: nat)
    requires page > 0 && Inv(page, c) && InUse(c, e)
    ensures Inv(page, Inc(page, c, e, bytes))
  {
    hide Inv, Change;
    var r := ChunkAt(e, bytes);
    if Present(c.ents, r) {
      UnlockedListed(page, c, r);
      ChangeInv(page, c, r, Locked(ChunkOf(c.ents, r)));
    }
  }

  lemma {:induction false} AddEntryInv(page: nat, c: Cache, size: nat)
    requires Inv(page, c)
    ensures Inv(page, AddEntry(c, size)) && InUse(AddEntry(c, size), |c.ents|)
  {
    var c' := AddEntry(c, size);
    var ent := c'.ents[|c.ents|].value;
    AllBytesAppend(page, c.ents, Some(ent));
    MappedZero(page, ent, 0);
    NumMappedZero(ent.chunks);
    ListBytesSame(page, c.ents, c'.ents, c.list);
    forall r | Present(c'.ents, r) && ChunkOf(c'.ents, r).listed ensures r in c.list {
      assert r.e < |c.ents| ==> Present(c.ents, r);
    }
  }

  /** Use counts may change as long as an entry with locks stays in use. */
  lemma {:induction false} RecountedInv(page: nat, c: Cache, e: nat, refs: int, invalid: bool)
    requires Inv(page, c) && e < |c.ents| && c.ents[e].Some? && refs >= 0
    requires refs == 0 ==> forall k :: 0 <= k < |c.ents[e].value.chunks| ==> c.ents[e].value.chunks[k].refs == 0
    ensures Inv(page, Recounted(c, e, refs, invalid))
  {
    var c' := Recounted(c, e, refs, invalid);
    AllBytesSet(page, c.ents, e, c'.ents[e]);
    MappedFields(page, c.ents[e].value, c'.ents[e].value, 0);
    ListBytesSame(page, c.ents, c'.ents, c.list);
    assert forall r :: Present(c'.ents, r) <==> Present(c.ents, r);
    assert forall r :: Present(c.ents, r) ==> ChunkOf(c'.ents, r) == ChunkOf(c.ents, r);
  }
}
