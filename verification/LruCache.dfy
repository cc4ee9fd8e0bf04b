/** What the userver file cache means to its callers: a list of entries, most
    recently used first, with reference counts.  Hash chains, slots and free
    lists do not appear here; MappedCache proves that they refine this list. */
module LruCache {
  import opened Lists

  datatype Entry = Entry(name: string, size: nat, refs: nat)

  /** What opening and examining a file can yield. */
  datatype File = OpenFails | StatFails | IsDirectory | Regular(size: nat)

  datatype Limits = Limits(slots: nat, buckets: nat, maxBytes: int, maxFile: int, maxLoad: real)

  /** Halted covers the source's exits and failed assertions. */
  datatype Outcome = Hit | Stored | Refused | Halted

  datatype Reply = Reply(cache: seq<Entry>, outcome: Outcome)

  const NAME_MAX := 64

  function Bytes(c: seq<Entry>): (n: nat) {
    if c == [] then 0 else c[0].size + Bytes(c[1..])
  }

  /** What an entry adds to the working set: its bytes once per reference. */
  function Weight(e: Entry): (n: nat) {
    e.refs * e.size
  }

  function WorkingSet(c: seq<Entry>): (n: nat) {
    if c == [] then 0 else Weight(c[0]) + WorkingSet(c[1..])
  }

  function Find(c: seq<Entry>, name: string): (k: nat)
    ensures k <= |c|
    ensures k < |c| ==> c[k].name == name
    ensures forall i :: 0 <= i < k ==> c[i].name != name
  {
    if c == [] || c[0].name == name then 0 else 1 + Find(c[1..], name)
  }

  /** The oldest entry that nobody holds. */
  function Victim(c: seq<Entry>): (v: int)
    ensures NIL <= v < |c|
    ensures v != NIL ==> c[v].refs == 0
    ensures forall i :: v < i < |c| ==> c[i].refs > 0
  {
    if c == [] then NIL
    else if c[|c| - 1].refs == 0 then |c| - 1
    else Victim(c[..|c| - 1])
  }

  function EvictOne(c: seq<Entry>): (r: Option<seq<Entry>>)
    ensures r.Some? ==> |r.value| == |c| - 1
  {
    var v := Victim(c);
    if v == NIL then None else Some(RemoveAt(c, v))
  }

  /** Evict, oldest first, until size more bytes fit. */
  function MakeRoom(c: seq<Entry>, size: nat, maxBytes: int): (r: Option<seq<Entry>>)
    decreases |c|
  {
    if maxBytes - Bytes(c) >= size then Some(c)
    else
      var d := EvictOne(c);
      if d.None? then None else MakeRoom(d.value, size, maxBytes)
  }

  predicate Cacheable(lim: Limits, file: File) {
    file.Regular? && file.size <= lim.maxFile && file.size <= lim.maxBytes
  }

  lemma {:induction false} CacheableIsFile(lim: Limits, file: File)
    requires Cacheable(lim, file)
    ensures file.Regular?
  {
  }

  predicate Overloaded(c: seq<Entry>, lim: Limits) {
    |c| as real > lim.maxLoad * lim.buckets as real
  }

  /** A hit on the k-th entry: it moves to the front and gains a reference. */
  function Reuse(c: seq<Entry>, k: nat): (r: seq<Entry>)
    requires k < |c|
  {
    [c[k].(refs := c[k].refs + 1)] + RemoveAt(c, k)
  }

  /** A miss is stored in front after evictions. */
  function Insert(c: seq<Entry>, lim: Limits, name: string, size: nat): (r: Reply) {
    var room := MakeRoom(c, size, lim.maxBytes);
    var kept := if room.Some? && |c| == lim.slots then EvictOne(room.value) else room;
    if kept.None? || |name| >= NAME_MAX then Reply(c, Halted)
    else Reply([Entry(name, size, 1)] + kept.value, Stored)
  }

  /** The request for a file: a hit, or a store unless it cannot be cached. */
  function Add(c: seq<Entry>, lim: Limits, name: string, file: File): (r: Reply) {
    var k := Find(c, name);
    if Overloaded(c, lim) then Reply(c, Halted)
    else if k < |c| then Reply(Reuse(c, k), Hit)
    else if !Cacheable(lim, file) then Reply(c, if |c| == lim.slots then Halted else Refused)
    else Insert(c, lim, name, file.size)
  }

  /** The caller gives back one reference. */
  function Release(c: seq<Entry>, name: string): (r: Option<seq<Entry>>) {
    var k := Find(c, name);
    if k == |c| || c[k].refs == 0 then None else Some(c[k := c[k].(refs := c[k].refs - 1)])
  }

  /** A reference can be given back exactly when one is out, and then nothing but
      the count of that entry changes. */
  lemma {:induction false} ReleaseExactly(c: seq<Entry>, name: string, k: nat)
    requires k < |c| && c[k].name == name && forall i :: 0 <= i < k ==> c[i].name != name
    ensures Release(c, name)
            == if c[k].refs > 0 then Some(c[..k] + [Entry(name, c[k].size, c[k].refs - 1)] + c[k + 1..]) else None
  {
    assert Find(c, name) == k;
    if c[k].refs > 0 {
      assert c[k := c[k].(refs := c[k].refs - 1)] == c[..k] + [Entry(name, c[k].size, c[k].refs - 1)] + c[k + 1..];
    }
  }

  // ------------------------------------------------------------------
  // Sums

  lemma {:induction false} SumsAppend(a: seq<Entry>, b: seq<Entry>)
    ensures Bytes(a + b) == Bytes(a) + Bytes(b)
    ensures WorkingSet(a + b) == WorkingSet(a) + WorkingSet(b)
  {
    hide Weight;
    if a == [] {
      assert a + b == b;
    } else {
      assert (a + b)[1..] == a[1..] + b;
      SumsAppend(a[1..], b);
    }
  }

  lemma {:induction false} SumsSplit(c: seq<Entry>, k: nat)
    requires k < |c|
    ensures Bytes(c) == Bytes(RemoveAt(c, k)) + c[k].size
    ensures WorkingSet(c) == WorkingSet(RemoveAt(c, k)) + Weight(c[k])
  {
    hide Weight;
    if k == 0 {
      assert RemoveAt(c, k) == c[1..];
    } else {
      SumsSplit(c[1..], k - 1);
      assert RemoveAt(c, k)[1..] == RemoveAt(c[1..], k - 1);
    }
  }

  lemma {:induction false} SumsEvict(c: seq<Entry>)
    requires Victim(c) != NIL
    ensures var d := RemoveAt(c, Victim(c));
            Bytes(d) == Bytes(c) - c[Victim(c)].size && WorkingSet(d) == WorkingSet(c)
  {
    SumsSplit(c, Victim(c));
  }

  lemma {:induction false} SumsFront(e: Entry, c: seq<Entry>)
    ensures Bytes([e] + c) == e.size + Bytes(c)
    ensures WorkingSet([e] + c) == Weight(e) + WorkingSet(c)
  {
    hide Weight;
    assert ([e] + c)[1..] == c;
  }

  /** One reference more or less is one size more or less. */
  lemma {:induction false} WeightStep(e: Entry)
    ensures Weight(e.(refs := e.refs + 1)) == Weight(e) + e.size
    ensures e.refs > 0 ==> Weight(e.(refs := e.refs - 1)) == Weight(e) - e.size
  {
    assert (e.refs + 1) * e.size == e.refs * e.size + e.size;
    assert (e.refs - 1) * e.size == e.refs * e.size - e.size;
  }

  lemma {:induction false} SumsReuse(c: seq<Entry>, k: nat)
    requires k < |c|
    ensures Bytes(Reuse(c, k)) == Bytes(c) && WorkingSet(Reuse(c, k)) == WorkingSet(c) + c[k].size
  {
    hide Weight, Bytes, WorkingSet;
    WeightStep(c[k]);
    SumsSplit(c, k);
    SumsFront(c[k].(refs := c[k].refs + 1), RemoveAt(c, k));
  }

  lemma {:induction false} SumsRelease(c: seq<Entry>, k: nat)
    requires k < |c| && c[k].refs > 0
    ensures var d := c[k := c[k].(refs := c[k].refs - 1)];
            Bytes(d) == Bytes(c) && WorkingSet(d) == WorkingSet(c) - c[k].size
  {
    hide Weight, Bytes, WorkingSet;
    WeightStep(c[k]);
    SumsUpdate(c, k, c[k].(refs := c[k].refs - 1));
  }

  lemma {:induction false} SumsUpdate(c: seq<Entry>, k: nat, e: Entry)
    requires k < |c|
    ensures Bytes(c[k := e]) == Bytes(c) - c[k].size + e.size
    ensures WorkingSet(c[k := e]) == WorkingSet(c) - Weight(c[k]) + Weight(e)
  {
    hide Weight, Bytes, WorkingSet;
    SumsSplit(c, k);
    SumsSplit(c[k := e], k);
    assert RemoveAt(c[k := e], k) == RemoveAt(c, k);
  }

  // ------------------------------------------------------------------
  // Which entries an eviction drops

  /** The entries that are in use or among the cut most recent ones. */
  function Keep(c: seq<Entry>, cut: nat): (r: seq<Entry>) {
    if c == [] then []
    else (if cut > 0 || c[0].refs > 0 then [c[0]] else []) + Keep(c[1..], if cut > 0 then cut - 1 else 0)
  }

  lemma {:induction false} KeepAll(c: seq<Entry>, cut: nat)
    requires forall i :: cut <= i < |c| ==> c[i].refs > 0
    ensures Keep(c, cut) == c
  {
    if c != [] {
      KeepAll(c[1..], if cut > 0 then cut - 1 else 0);
    }
  }

  lemma {:induction false} KeepTwice(c: seq<Entry>, cut: nat, small: nat)
    requires small <= cut
    ensures Keep(Keep(c, cut), small) == Keep(c, small)
  {
    if c != [] {
      var cut', small' := if cut > 0 then cut - 1 else 0, if small > 0 then small - 1 else 0;
      KeepTwice(c[1..], cut', small');
      var head := if cut > 0 || c[0].refs > 0 then [c[0]] else [];
      assert (head + Keep(c[1..], cut'))[|head|..] == Keep(c[1..], cut');
    }
  }

  lemma {:induction false} KeepDrops(c: seq<Entry>, v: nat)
    requires v < |c| && c[v].refs == 0
    requires forall i :: v < i < |c| ==> c[i].refs > 0
    ensures Keep(c, v) == RemoveAt(c, v)
  {
    var d := RemoveAt(c, v);
    if v == 0 {
      KeepAll(c[1..], 0);
      assert d == c[1..];
    } else {
      KeepDrops(c[1..], v - 1);
      assert d == [c[0]] + RemoveAt(c[1..], v - 1);
    }
  }

  lemma {:induction false} KeepMonotone(c: seq<Entry>, small: nat, cut: nat)
    requires small <= cut
    ensures Bytes(Keep(c, small)) <= Bytes(Keep(c, cut))
  {
    if c != [] {
      var cut', small' := if cut > 0 then cut - 1 else 0, if small > 0 then small - 1 else 0;
      KeepMonotone(c[1..], small', cut');
      SumsAppend(if cut > 0 || c[0].refs > 0 then [c[0]] else [], Keep(c[1..], cut'));
      SumsAppend(if small > 0 || c[0].refs > 0 then [c[0]] else [], Keep(c[1..], small'));
    }
  }

  /** Keeping cut recent entries leaves the room asked for, and keeping one
      more unreferenced entry would not. */
  ghost predicate RoomCut(c: seq<Entry>, size: nat, maxBytes: int, cut: nat) {
    && cut <= |c|
    && maxBytes - Bytes(Keep(c, cut)) >= size
    && (cut < |c| ==> c[cut].refs == 0 && maxBytes - Bytes(Keep(c, cut + 1)) < size)
  }

  /** Making room drops exactly the unreferenced entries past some age, no
      more of them than the bytes ask for. */
  lemma {:induction false} MakeRoomDropsOldest(c: seq<Entry>, size: nat, maxBytes: int) returns (cut: nat)
    requires MakeRoom(c, size, maxBytes).Some?
    ensures RoomCut(c, size, maxBytes, cut)
    ensures MakeRoom(c, size, maxBytes).value == Keep(c, cut)
    decreases |c|
  {
    if maxBytes - Bytes(c) >= size {
      KeepAll(c, |c|);
      return |c|;
    }
    var cut' := MakeRoomDropsOldest(RemoveAt(c, Victim(c)), size, maxBytes);
    cut := RoomCutBack(c, Victim(c), size, maxBytes, cut');
  }

  /** A cut of what one eviction leaves is a cut of the whole list. */
  lemma {:induction false} RoomCutBack(c: seq<Entry>, v: nat, size: nat, maxBytes: int, cut': nat) returns (cut: nat)
    requires maxBytes - Bytes(c) < size
    requires v < |c| && c[v].refs == 0
    requires forall i :: v < i < |c| ==> c[i].refs > 0
    requires RoomCut(RemoveAt(c, v), size, maxBytes, cut')
    ensures RoomCut(c, size, maxBytes, cut)
    ensures Keep(c, cut) == Keep(RemoveAt(c, v), cut')
  {
    if cut' < |c| - 1 {
      CutBelow(c, v, cut');
      cut := cut';
    } else {
      KeepAll(RemoveAt(c, v), cut');
      KeepDrops(c, v);
      KeepAll(c, v + 1);
      cut := v;
    }
  }

  /** Making room fails exactly when the entries in use leave too little space. */
  lemma {:induction false} MakeRoomFails(c: seq<Entry>, size: nat, maxBytes: int)
    ensures MakeRoom(c, size, maxBytes).None? <==> maxBytes - Bytes(Keep(c, 0)) < size
    decreases |c|
  {
    if maxBytes - Bytes(c) >= size {
      KeepAll(c, |c|);
      KeepMonotone(c, 0, |c|);
    } else if Victim(c) == NIL {
      KeepAll(c, 0);
    } else {
      var v := Victim(c);
      KeepDrops(c, v);
      KeepTwice(c, v, 0);
      MakeRoomFails(RemoveAt(c, v), size, maxBytes);
    }
  }

  /** A cut inside the survivors of an eviction lies below the evicted position. */
  lemma {:induction false} CutBelow(c: seq<Entry>, v: nat, cut: nat)
    requires v < |c| && c[v].refs == 0
    requires forall i :: v < i < |c| ==> c[i].refs > 0
    requires cut < |c| - 1 && RemoveAt(c, v)[cut].refs == 0
    ensures cut < v && c[cut].refs == 0
    ensures Keep(RemoveAt(c, v), cut) == Keep(c, cut)
    ensures Keep(RemoveAt(c, v), cut + 1) == Keep(c, cut + 1)
  {
    KeepDrops(c, v);
    assert cut < v;
    KeepTwice(c, v, cut);
    KeepTwice(c, v, cut + 1);
  }

  // ------------------------------------------------------------------
  // When a request brings the server down

  /** The most recent entry that nobody holds. */
  function Newest(c: seq<Entry>): (f: nat)
    ensures f <= |c|
    ensures f < |c| ==> c[f].refs == 0
    ensures forall i :: 0 <= i < f ==> c[i].refs > 0
  {
    if c == [] || c[0].refs == 0 then 0 else 1 + Newest(c[1..])
  }

  lemma {:induction false} KeepHasVictim(c: seq<Entry>, cut: nat)
    requires cut <= |c|
    ensures Victim(Keep(c, cut)) == NIL <==> cut <= Newest(c)
  {
    if c != [] {
      var rest := Keep(c[1..], if cut > 0 then cut - 1 else 0);
      KeepHasVictim(c[1..], if cut > 0 then cut - 1 else 0);
      if cut > 0 || c[0].refs > 0 {
        VictimCons(c[0], rest);
        assert Keep(c, cut) == [c[0]] + rest;
      } else {
        assert Keep(c, cut) == rest;
        KeepPins(c[1..]);
      }
    }
  }

  lemma {:induction false} KeepPins(c: seq<Entry>)
    ensures Victim(Keep(c, 0)) == NIL
  {
    if c != [] {
      KeepPins(c[1..]);
      if c[0].refs > 0 {
        VictimCons(c[0], Keep(c[1..], 0));
      } else {
        assert Keep(c, 0) == Keep(c[1..], 0);
      }
    }
  }

  lemma {:induction false} VictimCons(e: Entry, c: seq<Entry>)
    ensures Victim([e] + c) == NIL <==> e.refs > 0 && Victim(c) == NIL
  {
    var v := Victim([e] + c);
    assert ([e] + c)[0] == e;
    forall i | 0 <= i < |c| ensures c[i] == ([e] + c)[i + 1] {}
  }

  /** Some entry has the name. */
  ghost predicate Holds(c: seq<Entry>, name: string) { exists i :: 0 <= i < |c| && c[i].name == name }

  /** What a caller could check beforehand: the request halts the server. */
  ghost predicate WouldHalt(c: seq<Entry>, lim: Limits, name: string, file: File) {
    || |c| as real > lim.maxLoad * lim.buckets as real
    || (&& !Holds(c, name)
        && if file.Regular? && file.size <= lim.maxFile && file.size <= lim.maxBytes then
             || |name| >= 64
             || Bytes(Keep(c, 0)) + file.size > lim.maxBytes
             || (&& |c| == lim.slots
                 && (Newest(c) == |c| || Bytes(Keep(c, Newest(c) + 1)) + file.size > lim.maxBytes))
           else |c| == lim.slots)
  }

  lemma {:induction false} FindHolds(c: seq<Entry>, name: string)
    ensures Find(c, name) < |c| <==> Holds(c, name)
  {
    if Find(c, name) < |c| {
      assert c[Find(c, name)].name == name;
    }
  }

  /** A request halts the server exactly when the table is overloaded; or the
      name is missing and either the table is full and the file cannot be
      cached, or the name is too long, or the entries in use leave too little
      space, or the full table would have to give up its last free entry twice. */
  lemma {:induction false} HaltsExactly(c: seq<Entry>, lim: Limits, name: string, file: File)
    ensures Add(c, lim, name, file).outcome == Halted <==> WouldHalt(c, lim, name, file)
  {
    hide MakeRoom, EvictOne, Bytes, Keep, Newest, Find, Reuse;
    FindHolds(c, name);
    if Cacheable(lim, file) {
      MakeRoomFails(c, file.size, lim.maxBytes);
      if MakeRoom(c, file.size, lim.maxBytes).Some? {
        SecondVictim(c, file.size, lim.maxBytes);
      }
    }
  }

  /** Every other answer, for every cache and request: a file that is held is
      handed out, whoever else is using it; one that is not is stored if it is a
      regular file within both limits, and refused otherwise. */
  lemma {:induction false} AnswersExactly(c: seq<Entry>, lim: Limits, name: string, file: File)
    ensures var o, halts := Add(c, lim, name, file).outcome, WouldHalt(c, lim, name, file);
            var fits := file.Regular? && file.size <= lim.maxFile && file.size <= lim.maxBytes;
            && (o == Hit <==> Holds(c, name) && |c| as real <= lim.maxLoad * lim.buckets as real)
            && (o == Stored <==> !halts && !Holds(c, name) && fits)
            && (o == Refused <==> !halts && !Holds(c, name) && !fits)
  {
    hide MakeRoom, EvictOne, Bytes, Keep, Newest, Find, Reuse;
    FindHolds(c, name);
    HaltsExactly(c, lim, name, file);
  }

  /** What the cache holds after a hit or a refusal. */
  lemma {:induction false} HitContents(c: seq<Entry>, lim: Limits, name: string, file: File, k: nat)
    requires k < |c| && c[k].name == name && forall i :: 0 <= i < k ==> c[i].name != name
    requires Add(c, lim, name, file).outcome == Hit
    ensures Add(c, lim, name, file).cache == [Entry(name, c[k].size, c[k].refs + 1)] + (c[..k] + c[k + 1..])
  {
    assert Find(c, name) == k;
  }

  lemma {:induction false} RefusalContents(c: seq<Entry>, lim: Limits, name: string, file: File)
    requires Add(c, lim, name, file).outcome == Refused
    ensures Add(c, lim, name, file).cache == c
  {
  }

  /** What it holds after a store: the new file in front, and behind it all but the
      unreferenced entries past some age.  As many go as the bytes ask for, and
      in a table that was full the oldest one that these leave. */
  lemma {:induction false} StoreContents(c: seq<Entry>, lim: Limits, name: string, file: File)
      returns (cut: nat, room: nat)
    requires Add(c, lim, name, file).outcome == Stored
    ensures file.Regular? && RoomCut(c, file.size, lim.maxBytes, room)
    ensures Add(c, lim, name, file).cache == [Entry(name, file.size, 1)] + Keep(c, cut)
    ensures |c| != lim.slots ==> cut == room
    ensures |c| == lim.slots ==> cut < room && c[cut].refs == 0 && forall i :: cut < i < room ==> c[i].refs > 0
  {
    hide MakeRoom, EvictOne, Keep, Bytes, Find;
    room := MakeRoomDropsOldest(c, file.size, lim.maxBytes);
    cut := room;
    if |c| == lim.slots {
      cut := OneMore(c, room);
    }
  }

  /** The oldest unreferenced entry of those kept goes. */
  lemma {:induction false} OneMore(c: seq<Entry>, room: nat) returns (cut: nat)
    requires room <= |c| && EvictOne(Keep(c, room)).Some?
    ensures cut < room && c[cut].refs == 0 && forall i :: cut < i < room ==> c[i].refs > 0
    ensures EvictOne(Keep(c, room)).value == Keep(c, cut)
  {
    hide Keep;
    KeepPrefix(c, room);
    cut := Victim(Keep(c, room));
    KeepDrops(Keep(c, room), cut);
    KeepTwice(c, room, cut);
  }

  /** The recent entries are kept in their places, and behind them only entries in use. */
  lemma {:induction false} KeepPrefix(c: seq<Entry>, cut: nat)
    requires cut <= |c|
    ensures cut <= |Keep(c, cut)| && forall i :: 0 <= i < cut ==> Keep(c, cut)[i] == c[i]
    ensures forall i :: cut <= i < |Keep(c, cut)| ==> Keep(c, cut)[i].refs > 0
  {
    if c != [] {
      var cut' := if cut > 0 then cut - 1 else 0;
      KeepPrefix(c[1..], cut');
      var k, rest := Keep(c, cut), Keep(c[1..], cut');
      if cut > 0 || c[0].refs > 0 {
        assert k == [c[0]] + rest;
      } else {
        assert k == rest;
      }
    }
  }

  /** Which entries Keep keeps. */
  lemma {:induction false} KeepMeans(c: seq<Entry>, cut: nat, e: Entry)
    ensures e in Keep(c, cut) <==> exists i :: 0 <= i < |c| && c[i] == e && (i < cut || e.refs > 0)
  {
    if c != [] {
      var cut' := if cut > 0 then cut - 1 else 0;
      KeepMeans(c[1..], cut', e);
      if i :| 0 <= i < |c[1..]| && c[1..][i] == e && (i < cut' || e.refs > 0) {
        assert c[i + 1] == e;
      }
      if i :| 0 <= i < |c| && c[i] == e && (i < cut || e.refs > 0) {
        assert i > 0 ==> c[1..][i - 1] == e;
      }
    }
  }

  /** No entry before the most recent unreferenced one is unreferenced. */
  lemma {:induction false} NewestIsFirst(c: seq<Entry>, i: nat)
    requires i <= Newest(c) && i < |c| && c[i].refs == 0
    ensures i == Newest(c)
  {
    if c[0].refs != 0 {
      NewestIsFirst(c[1..], i - 1);
    }
  }

  /** After the bytes have been freed, one more victim is missing exactly when
      even the most recent unreferenced entry had to go. */
  lemma {:induction false} SecondVictim(c: seq<Entry>, size: nat, maxBytes: int)
    requires MakeRoom(c, size, maxBytes).Some?
    ensures EvictOne(MakeRoom(c, size, maxBytes).value).None?
            <==> Newest(c) == |c| || Bytes(Keep(c, Newest(c) + 1)) + size > maxBytes
  {
    hide Keep, Bytes, MakeRoom, Victim;
    var cut := MakeRoomDropsOldest(c, size, maxBytes);
    KeepHasVictim(c, cut);
    if Newest(c) < cut {
      KeepMonotone(c, Newest(c) + 1, cut);
    } else if cut < |c| {
      NewestIsFirst(c, cut);
    }
  }

  /** A full table refuses nothing: asking it for a file that does not exist
      runs cache_free_element on index -1. */
  lemma {:induction false} FullTableHalts()
    ensures var c := [Entry("a", 1, 0)];
            Add(c, Limits(1, 1, 10, 10, 1.0), "b", OpenFails).outcome == Halted
  {
    assert Find([Entry("a", 1, 0)], "b") == 1;
  }

  // ------------------------------------------------------------------
  // What every request keeps

  ghost predicate Ordered(c: seq<Entry>, f: string -> int) {
    forall i, j :: 0 <= i < j < |c| ==> f(c[i].name) > f(c[j].name)
  }

  ghost predicate DistinctNames(c: seq<Entry>) {
    forall i, j :: 0 <= i < j < |c| ==> c[i].name != c[j].name
  }

  ghost predicate Sound(c: seq<Entry>, lim: Limits) {
    && |c| <= lim.slots
    && Bytes(c) <= lim.maxBytes
    && DistinctNames(c)
  }

  /** c' lists some of the entries of c, in the same order, all those in use among them. */
  ghost predicate Survives(c: seq<Entry>, c': seq<Entry>) {
    && |c'| <= |c|
    && (forall e :: e in c' ==> e in c)
    && (forall e :: e in c && e.refs > 0 ==> e in c')
    && (DistinctNames(c) ==> DistinctNames(c'))
    && (forall f :: Ordered(c, f) ==> Ordered(c', f))
  }

  lemma {:induction false} SurvivesTwice(c: seq<Entry>, c': seq<Entry>, c'': seq<Entry>)
    requires Survives(c, c') && Survives(c', c'')
    ensures Survives(c, c'')
  {
  }

  lemma {:induction false} EvictOneSurvives(c: seq<Entry>)
    requires EvictOne(c).Some?
    ensures Survives(c, EvictOne(c).value)
  {
    var v := Victim(c);
    var d := RemoveAt(c, v);
    forall e | e in c && e.refs > 0 ensures e in d {
      var i :| 0 <= i < |c| && c[i] == e;
      assert d[if i < v then i else i - 1] == e;
    }
    forall f | Ordered(c, f) ensures Ordered(d, f) {
      OrderedRemove(c, v, f);
    }
  }

  lemma {:induction false} OrderedRemove(c: seq<Entry>, v: nat, f: string -> int)
    requires v < |c| && Ordered(c, f)
    ensures Ordered(RemoveAt(c, v), f)
  {
  }

  lemma {:induction false} MakeRoomSurvives(c: seq<Entry>, size: nat, maxBytes: int)
    requires MakeRoom(c, size, maxBytes).Some?
    ensures Survives(c, MakeRoom(c, size, maxBytes).value)
    ensures Bytes(MakeRoom(c, size, maxBytes).value) + size <= maxBytes
    decreases |c|
  {
    if maxBytes - Bytes(c) < size {
      EvictOneSurvives(c);
      MakeRoomSurvives(EvictOne(c).value, size, maxBytes);
      SurvivesTwice(c, EvictOne(c).value, MakeRoom(c, size, maxBytes).value);
    }
  }

  /** The names left after evictions were there before. */
  lemma {:induction false} RoomNames(c: seq<Entry>, size: nat, maxBytes: int, name: string)
    requires Find(c, name) == |c| && MakeRoom(c, size, maxBytes).Some?
    ensures forall i :: 0 <= i < |MakeRoom(c, size, maxBytes).value| ==>
            MakeRoom(c, size, maxBytes).value[i].name != name
  {
    MakeRoomSurvives(c, size, maxBytes);
    var d := MakeRoom(c, size, maxBytes).value;
    forall i | 0 <= i < |d| ensures d[i].name != name {
      assert d[i] in c;
    }
  }

  lemma {:induction false} EvictNames(c: seq<Entry>, name: string)
    requires forall i :: 0 <= i < |c| ==> c[i].name != name
    ensures EvictOne(c).Some? ==> forall i :: 0 <= i < |EvictOne(c).value| ==> EvictOne(c).value[i].name != name
  {
  }

  /** Storing a file keeps every entry in use and the order of the rest, and
      stays within the byte and slot limits. */
  lemma {:induction false} StoreSurvives(c: seq<Entry>, lim: Limits, name: string, file: File)
    requires Sound(c, lim) && Add(c, lim, name, file).outcome == Stored
    ensures var r := Add(c, lim, name, file).cache;
            && r[0] == Entry(name, file.size, 1)
            && Survives(c, r[1..])
            && Find(c, name) == |c|
            && Sound(r, lim)
  {
    hide MakeRoom, EvictOne, Survives, Bytes, Find, DistinctNames, Overloaded;
    var r := Add(c, lim, name, file).cache;
    var room := MakeRoom(c, file.size, lim.maxBytes);
    MakeRoomSurvives(c, file.size, lim.maxBytes);
    if |c| == lim.slots {
      EvictOneSurvives(room.value);
      EvictOneBytes(room.value);
      SurvivesTwice(c, room.value, EvictOne(room.value).value);
    }
    assert r[1..] == if |c| == lim.slots then EvictOne(room.value).value else room.value;
    FrontSound(c, r[1..], Entry(name, file.size, 1));
    assert r == [Entry(name, file.size, 1)] + r[1..];
  }

  lemma {:induction false} EvictOneBytes(c: seq<Entry>)
    requires EvictOne(c).Some?
    ensures Bytes(EvictOne(c).value) <= Bytes(c) && |EvictOne(c).value| == |c| - 1
  {
    SumsSplit(c, Victim(c));
  }

  /** A new name in front of survivors is the only entry of that name. */
  lemma {:induction false} FrontSound(c: seq<Entry>, rest: seq<Entry>, e: Entry)
    requires Survives(c, rest) && DistinctNames(c) && Find(c, e.name) == |c|
    ensures DistinctNames([e] + rest) && Bytes([e] + rest) == e.size + Bytes(rest) && |rest| <= |c|
  {
    SumsFront(e, rest);
    forall i | 0 <= i < |rest| ensures rest[i].name != e.name {
      assert rest[i] in c;
    }
  }

  lemma {:induction false} HitMoves(c: seq<Entry>, lim: Limits, name: string, file: File)
    requires DistinctNames(c) && Add(c, lim, name, file).outcome == Hit
    ensures var k, r := Find(c, name), Add(c, lim, name, file).cache;
            && k < |c|
            && r[0] == Entry(name, c[k].size, c[k].refs + 1)
            && (forall e :: e in r[1..] <==> e in c && e.name != name)
            && Bytes(r) == Bytes(c)
            && |r| == |c|
            && DistinctNames(r)
  {
    var k, r := Find(c, name), Add(c, lim, name, file).cache;
    assert r[1..] == RemoveAt(c, k);
    SumsSplit(c, k);
    OthersRemain(c, k);
    forall i | 0 <= i < |r[1..]| ensures r[1..][i].name != name {
      assert r[1..][i] in RemoveAt(c, k);
    }
  }

  lemma {:induction false} OthersRemain(c: seq<Entry>, k: nat)
    requires DistinctNames(c) && k < |c|
    ensures forall e :: e in RemoveAt(c, k) <==> e in c && e.name != c[k].name
    ensures DistinctNames(RemoveAt(c, k))
  {
    var r := RemoveAt(c, k);
    forall e | e in c && e.name != c[k].name ensures e in r {
      var i :| 0 <= i < |c| && c[i] == e;
      assert r[if i < k then i else i - 1] == e;
    }
  }

  // ------------------------------------------------------------------
  // Histories

  datatype Event = Get(name: string, file: File) | Put(name: string)

  function Step(c: seq<Entry>, lim: Limits, e: Event): (r: Option<seq<Entry>>) {
    match e
    case Get(name, file) =>
      var a := Add(c, lim, name, file);
      if a.outcome == Halted then None else Some(a.cache)
    case Put(name) => Release(c, name)
  }

  /** The cache after a history of requests and releases; None once halted. */
  function Run(lim: Limits, h: seq<Event>): (r: Option<seq<Entry>>) {
    if h == [] then Some([])
    else
      var c := Run(lim, h[..|h| - 1]);
      if c.None? then None else Step(c.value, lim, h[|h| - 1])
  }

  /** A history goes on with every request that does not halt the server and with
      every release of a reference that is out. */
  lemma {:induction false} HistoryGoesOn(lim: Limits, h: seq<Event>, e: Event)
    requires Run(lim, h).Some?
    ensures var c := Run(lim, h).value;
            && (e.Get? ==> (Run(lim, h + [e]).None? <==> WouldHalt(c, lim, e.name, e.file)))
            && (e.Get? && Run(lim, h + [e]).Some? ==>
                 Run(lim, h + [e]).value == Add(c, lim, e.name, e.file).cache)
            && (e.Put? ==> Run(lim, h + [e]) == Release(c, e.name))
  {
    hide WouldHalt, Add, Release;
    assert (h + [e])[..|h|] == h;
    if e.Get? {
      HaltsExactly(Run(lim, h).value, lim, e.name, e.file);
    }
  }

  /** The last event of the history handed out the named file. */
  predicate Serves(lim: Limits, h: seq<Event>, name: string) {
    && h != []
    && h[|h| - 1].Get? && h[|h| - 1].name == name
    && var c := Run(lim, h[..|h| - 1]);
       c.Some? && Add(c.value, lim, name, h[|h| - 1].file).outcome in {Hit, Stored}
  }

  /** When the named file was last handed out; -1 for never. */
  function LastUse(lim: Limits, h: seq<Event>, name: string): (t: int)
    ensures -1 <= t < |h|
  {
    if h == [] then -1
    else if Serves(lim, h, name) then |h| - 1
    else LastUse(lim, h[..|h| - 1], name)
  }

  /** How many handles to the named file are out. */
  function Handles(lim: Limits, h: seq<Event>, name: string): (n: int) {
    if h == [] then 0
    else
      (if Serves(lim, h, name) then 1 else if h[|h| - 1] == Put(name) then -1 else 0)
      + Handles(lim, h[..|h| - 1], name)
  }

  ghost predicate HandlesMatch(c: seq<Entry>, lim: Limits, h: seq<Event>) {
    && (forall i :: 0 <= i < |c| ==> c[i].refs == Handles(lim, h, c[i].name))
    && (forall name :: Handles(lim, h, name) != 0 ==> Find(c, name) < |c|)
  }

  ghost predicate Recent(c: seq<Entry>, lim: Limits, h: seq<Event>) {
    && (forall i :: 0 <= i < |c| ==> LastUse(lim, h, c[i].name) >= 0)
    && Ordered(c, name => LastUse(lim, h, name))
  }

  lemma {:induction false} FindIn(c: seq<Entry>, e: Entry)
    requires e in c
    ensures Find(c, e.name) < |c|
    ensures DistinctNames(c) ==> c[Find(c, e.name)] == e
  {
    var i :| 0 <= i < |c| && c[i] == e;
  }

  /** Serving a file makes its last use the latest of all. */
  lemma {:induction false} ServedUse(lim: Limits, h: seq<Event>, name: string, x: string)
    requires Serves(lim, h, name)
    ensures h != [] && LastUse(lim, h, x) == if x == name then |h| - 1 else LastUse(lim, h[..|h| - 1], x)
    ensures LastUse(lim, h[..|h| - 1], x) < |h| - 1
  {
  }

  /** A served file in front of older entries keeps the recency order. */
  lemma {:induction false} FrontRecent(lim: Limits, h: seq<Event>, e: Entry, rest: seq<Entry>)
    requires Serves(lim, h, e.name)
    requires forall i :: 0 <= i < |rest| ==> rest[i].name != e.name
    requires Recent(rest, lim, h[..|h| - 1])
    ensures Recent([e] + rest, lim, h)
  {
    hide LastUse, Serves;
    ServedUse(lim, h, e.name, e.name);
    var c, f := [e] + rest, name requires |h| > 0 => LastUse(lim, h[..|h| - 1], name);
    forall i | 0 < i < |c|
      ensures LastUse(lim, h, c[i].name) == f(rest[i - 1].name) && 0 <= f(rest[i - 1].name) < |h| - 1 {
      assert c[i] == rest[i - 1];
      ServedUse(lim, h, e.name, c[i].name);
    }
    forall i, j | 0 <= i < j < |c| ensures LastUse(lim, h, c[i].name) > LastUse(lim, h, c[j].name) {
      if i > 0 {
        assert f(rest[i - 1].name) > f(rest[j - 1].name);
      }
    }
  }

  lemma {:induction false} ServedCount(lim: Limits, h: seq<Event>, name: string)
    requires Serves(lim, h, name)
    ensures forall n :: Handles(lim, h, n) == Handles(lim, h[..|h| - 1], n) + (if n == name then 1 else 0)
  {
  }

  /** The handle counts after serving e.name: the entry served is in front, and
      behind it stand entries of c, all those in use among them. */
  lemma {:induction false} FrontHandles(lim: Limits, h: seq<Event>, c: seq<Entry>, e: Entry, rest: seq<Entry>)
    requires Serves(lim, h, e.name)
    requires HandlesMatch(c, lim, h[..|h| - 1])
    requires e.refs == Handles(lim, h[..|h| - 1], e.name) + 1
    requires forall d :: d in rest ==> d in c && d.name != e.name
    requires forall d :: d in c && d.refs > 0 && d.name != e.name ==> d in rest
    ensures HandlesMatch([e] + rest, lim, h)
  {
    var r := [e] + rest;
    ServedCount(lim, h, e.name);
    forall i | 0 <= i < |r| ensures r[i].refs == Handles(lim, h, r[i].name) {
      if i > 0 {
        assert r[i] == rest[i - 1] && r[i] in c;
      }
    }
    forall name | Handles(lim, h, name) != 0 ensures Find(r, name) < |r| {
      if name == e.name {
        FindIn(r, e);
      } else {
        var d := c[Find(c, name)];
        assert d in c && d.refs == Handles(lim, h[..|h| - 1], name);
        FindIn(r, d);
      }
    }
  }

  lemma {:induction false} ServedHistory(lim: Limits, h: seq<Event>, c: seq<Entry>, e: Entry, rest: seq<Entry>)
    requires Serves(lim, h, e.name)
    requires Recent(c, lim, h[..|h| - 1]) && HandlesMatch(c, lim, h[..|h| - 1])
    requires e.refs == Handles(lim, h[..|h| - 1], e.name) + 1
    requires forall d :: d in rest ==> d in c && d.name != e.name
    requires forall d :: d in c && d.refs > 0 && d.name != e.name ==> d in rest
    requires forall f :: Ordered(c, f) ==> Ordered(rest, f)
    ensures Recent([e] + rest, lim, h) && HandlesMatch([e] + rest, lim, h)
  {
    assert Recent(rest, lim, h[..|h| - 1]) by {
      var f := n => LastUse(lim, h[..|h| - 1], n);
      assert Ordered(c, f);
      forall i | 0 <= i < |rest| ensures f(rest[i].name) >= 0 {
        assert rest[i] in c;
      }
    }
    FrontRecent(lim, h, e, rest);
    FrontHandles(lim, h, c, e, rest);
  }

  lemma {:induction false} StoreHistory(lim: Limits, h: seq<Event>, c: seq<Entry>, name: string, file: File)
    requires Serves(lim, h, name)
    requires Sound(c, lim) && Recent(c, lim, h[..|h| - 1]) && HandlesMatch(c, lim, h[..|h| - 1])
    requires Add(c, lim, name, file).outcome == Stored
    ensures var r := Add(c, lim, name, file).cache;
            Sound(r, lim) && Recent(r, lim, h) && HandlesMatch(r, lim, h)
  {
    StoreSurvives(c, lim, name, file);
    var r := Add(c, lim, name, file).cache;
    assert r == [r[0]] + r[1..];
    SurvivorsHistory(lim, h, c, r[0], r[1..]);
  }

  lemma {:induction false} SurvivorsHistory(lim: Limits, h: seq<Event>, c: seq<Entry>, e: Entry, rest: seq<Entry>)
    requires Serves(lim, h, e.name)
    requires Recent(c, lim, h[..|h| - 1]) && HandlesMatch(c, lim, h[..|h| - 1])
    requires Find(c, e.name) == |c| && e.refs == 1 && Survives(c, rest)
    ensures Recent([e] + rest, lim, h) && HandlesMatch([e] + rest, lim, h)
  {
    forall d | d in rest ensures d in c && d.name != e.name {
      var i :| 0 <= i < |c| && c[i] == d;
    }
    ServedHistory(lim, h, c, e, rest);
  }

  lemma {:induction false} HitHistory(lim: Limits, h: seq<Event>, c: seq<Entry>, name: string, file: File)
    requires Serves(lim, h, name)
    requires Sound(c, lim) && Recent(c, lim, h[..|h| - 1]) && HandlesMatch(c, lim, h[..|h| - 1])
    requires Add(c, lim, name, file).outcome == Hit
    ensures var r := Add(c, lim, name, file).cache;
            Sound(r, lim) && Recent(r, lim, h) && HandlesMatch(r, lim, h)
  {
    HitMoves(c, lim, name, file);
    var r, k := Add(c, lim, name, file).cache, Find(c, name);
    assert r == [r[0]] + r[1..] && r[1..] == RemoveAt(c, k);
    forall f | Ordered(c, f) ensures Ordered(RemoveAt(c, k), f) {
      OrderedRemove(c, k, f);
    }
    ServedHistory(lim, h, c, r[0], r[1..]);
  }

  /** An event that serves nothing changes no last use. */
  lemma {:induction false} QuietRecent(lim: Limits, h: seq<Event>, c: seq<Entry>, r: seq<Entry>)
    requires h != [] && forall n :: !Serves(lim, h, n)
    requires Recent(c, lim, h[..|h| - 1])
    requires |r| == |c| && forall i :: 0 <= i < |c| ==> r[i].name == c[i].name
    ensures Recent(r, lim, h)
  {
    var f := n => LastUse(lim, h[..|h| - 1], n);
    assert Ordered(c, f);
    forall n ensures LastUse(lim, h, n) == f(n) {}
  }

  lemma {:induction false} PutHistory(lim: Limits, h: seq<Event>, c: seq<Entry>, name: string)
    requires h != [] && h[|h| - 1] == Put(name) && Run(lim, h[..|h| - 1]) == Some(c)
    requires Sound(c, lim) && Recent(c, lim, h[..|h| - 1]) && HandlesMatch(c, lim, h[..|h| - 1])
    requires Release(c, name).Some?
    ensures var r := Release(c, name).value;
            Sound(r, lim) && Recent(r, lim, h) && HandlesMatch(r, lim, h)
  {
    var r, k := Release(c, name).value, Find(c, name);
    SumsUpdate(c, k, c[k].(refs := c[k].refs - 1));
    forall i | 0 <= i < |c| ensures r[i].name == c[i].name {}
    QuietRecent(lim, h, c, r);
    PutHandles(lim, h, c, name);
  }

  lemma {:induction false} PutHandles(lim: Limits, h: seq<Event>, c: seq<Entry>, name: string)
    requires h != [] && h[|h| - 1] == Put(name)
    requires DistinctNames(c) && HandlesMatch(c, lim, h[..|h| - 1])
    requires Release(c, name).Some?
    ensures HandlesMatch(Release(c, name).value, lim, h)
  {
    var r, k := Release(c, name).value, Find(c, name);
    forall n ensures Handles(lim, h, n) == Handles(lim, h[..|h| - 1], n) - (if n == name then 1 else 0) {}
    forall n | Handles(lim, h, n) != 0 ensures Find(r, n) < |r| {
      var i := if n == name then k else Find(c, n);
      assert n == name || Handles(lim, h[..|h| - 1], n) != 0;
      assert r[i].name == n;
      FindIn(r, r[i]);
    }
  }

  lemma {:induction false} RefusedHistory(lim: Limits, h: seq<Event>, c: seq<Entry>, name: string, file: File)
    requires h != [] && h[|h| - 1] == Get(name, file) && Run(lim, h[..|h| - 1]) == Some(c)
    requires Recent(c, lim, h[..|h| - 1]) && HandlesMatch(c, lim, h[..|h| - 1])
    requires Add(c, lim, name, file).outcome == Refused
    ensures Recent(c, lim, h) && HandlesMatch(c, lim, h)
  {
    QuietRecent(lim, h, c, c);
    forall n ensures Handles(lim, h, n) == Handles(lim, h[..|h| - 1], n) {}
  }

  lemma {:induction false} GetHistory(lim: Limits, h: seq<Event>, c: seq<Entry>, name: string, file: File)
    requires h != [] && h[|h| - 1] == Get(name, file) && Run(lim, h[..|h| - 1]) == Some(c)
    requires Sound(c, lim) && Recent(c, lim, h[..|h| - 1]) && HandlesMatch(c, lim, h[..|h| - 1])
    requires Add(c, lim, name, file).outcome != Halted
    ensures var r := Add(c, lim, name, file).cache;
            Sound(r, lim) && Recent(r, lim, h) && HandlesMatch(r, lim, h)
  {
    match Add(c, lim, name, file).outcome {
      case Refused => RefusedHistory(lim, h, c, name, file);
      case Stored => StoreHistory(lim, h, c, name, file);
      case Hit => HitHistory(lim, h, c, name, file);
    }
  }

  /** Over every history the cache stays within its limits, lists its entries
      from the latest last use to the oldest, and counts as references exactly
      the handles that are out. */
  lemma {:induction false} HistoryHolds(lim: Limits, h: seq<Event>)
    requires lim.maxBytes >= 0
    requires Run(lim, h).Some?
    ensures Sound(Run(lim, h).value, lim)
    ensures Recent(Run(lim, h).value, lim, h)
    ensures HandlesMatch(Run(lim, h).value, lim, h)
  {
    if h != [] {
      HistoryHolds(lim, h[..|h| - 1]);
      var c, e := Run(lim, h[..|h| - 1]).value, h[|h| - 1];
      if e.Get? {
        GetHistory(lim, h, c, e.name, e.file);
      } else {
        PutHistory(lim, h, c, e.name);
      }
    }
  }

  /** Over every history the next victim is the unreferenced entry whose last
      use is the oldest. */
  lemma {:induction false} VictimIsOldest(lim: Limits, h: seq<Event>, i: nat)
    requires lim.maxBytes >= 0 && Run(lim, h).Some?
    requires i < |Run(lim, h).value| && Run(lim, h).value[i].refs == 0
    ensures var c := Run(lim, h).value;
            && Victim(c) != NIL && c[Victim(c)].refs == 0
            && (i != Victim(c) ==> LastUse(lim, h, c[Victim(c)].name) < LastUse(lim, h, c[i].name))
  {
    HistoryHolds(lim, h);
    var c := Run(lim, h).value;
    var f := name => LastUse(lim, h, name);
    assert Ordered(c, f);
    if i != Victim(c) {
      assert f(c[i].name) > f(c[Victim(c)].name);
    }
  }
}
