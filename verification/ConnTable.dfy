/** Flash's table of connections: bits for the free numbers, a hint below which
    none is free, and entries that are allocated as they are first needed. */
module ConnTable {
  import opened Bits

  const BYTE := 8

  predicate IsFree(bits: seq<nat>, c: nat) {
    c / BYTE < |bits| && Bit(bits[c / BYTE], c % BYTE)
  }

  /** Busy numbers among the first n. */
  function Busy(bits: seq<nat>, n: nat): (b: nat) {
    if n == 0 then 0 else Busy(bits, n - 1) + (if IsFree(bits, n - 1) then 0 else 1)
  }

  ghost predicate Bytes(bits: seq<nat>) {
    forall i :: 0 <= i < |bits| ==> bits[i] < Pow2(BYTE)
  }

  ghost predicate Flipped(bits: seq<nat>, bits': seq<nat>, c: nat, free: bool) {
    |bits'| == |bits| && forall d: nat :: IsFree(bits', d) <==> if c == d then free else IsFree(bits, d)
  }

  lemma {:induction false} BusyFlipped(bits: seq<nat>, bits': seq<nat>, c: nat, free: bool, n: nat)
    requires Flipped(bits, bits', c, free) && IsFree(bits, c) != free
    ensures Busy(bits', n) == Busy(bits, n) + (if c >= n then 0 else if free then -1 else 1)
  {
    if n > 0 {
      BusyFlipped(bits, bits', c, free, n - 1);
    }
  }

  /** Fewer busy numbers than numbers: one is free. */
  lemma {:induction false} SomeFree(bits: seq<nat>, n: nat) returns (c: nat)
    requires Busy(bits, n) < n
    ensures c < n && IsFree(bits, c)
  {
    if IsFree(bits, n - 1) {
      c := n - 1;
    } else {
      c := SomeFree(bits, n - 1);
    }
  }

  /** Numbers from m on that are all free add nothing. */
  lemma {:induction false} BusyBelow(bits: seq<nat>, m: nat, n: nat)
    requires m <= n && forall c: nat :: m <= c < n ==> IsFree(bits, c)
    ensures Busy(bits, n) == Busy(bits, m)
  {
    if m < n {
      BusyBelow(bits, m, n - 1);
    }
  }

  lemma {:induction false} NoneBusy(bits: seq<nat>, n: nat)
    requires forall c: nat :: c < n ==> IsFree(bits, c)
    ensures Busy(bits, n) == 0
  {
    BusyBelow(bits, 0, n);
  }

  lemma {:induction false} ByteFlipped(bits: seq<nat>, c: nat, free: bool)
    requires Bytes(bits) && c / BYTE < |bits|
    ensures var i, j := c / BYTE, c % BYTE;
            var bits' := bits[i := if free then Or(bits[i], Pow2(j)) else AndNot(bits[i], Pow2(j))];
            Bytes(bits') && Flipped(bits, bits', c, free)
  {
    var i, j := c / BYTE, c % BYTE;
    var x := if free then Or(bits[i], Pow2(j)) else AndNot(bits[i], Pow2(j));
    var bits' := bits[i := x];
    Pow2Grows(j + 1, BYTE);
    OrSmall(bits[i], Pow2(j), BYTE);
    AndNotSmall(bits[i], Pow2(j));
    forall d: nat ensures IsFree(bits', d) <==> if c == d then free else IsFree(bits, d) {
      var m := d % BYTE;
      OrBits(bits[i], Pow2(j), m);
      AndNotBits(bits[i], Pow2(j), m);
      Pow2Bits(j, m);
    }
  }

  function Lowest(w: nat): (j: nat)
    requires w > 0
  {
    if w % 2 == 1 then 0 else 1 + Lowest(w / 2)
  }

  lemma {:induction false} LowestIs(w: nat, k: nat)
    requires w > 0
    ensures Bit(w, Lowest(w)) && (k < Lowest(w) ==> !Bit(w, k))
  {
    if w % 2 == 0 {
      LowestIs(w / 2, if k > 0 then k - 1 else 0);
    }
  }

  /** The position of the lowest bit of a byte. */
  method LowestBit(byte: nat) returns (j: nat)
    requires 0 < byte < Pow2(BYTE)
    ensures j < BYTE && Bit(byte, j) && forall k: nat :: k < j ==> !Bit(byte, k)
  {
    j := 0;
    var val := byte;
    while val % 2 == 0
      invariant val > 0 && j + Lowest(val) == Lowest(byte)
      decreases val
    {
      val, j := val / 2, j + 1;
    }
    forall k: nat ensures Bit(byte, j) && (k < j ==> !Bit(byte, k)) {
      LowestIs(byte, k);
    }
    LowestSmall(byte, BYTE);
  }

  lemma {:induction false} LowestSmall(w: nat, n: nat)
    requires 0 < w < Pow2(n)
    ensures Lowest(w) < n
  {
    if w % 2 == 0 {
      LowestSmall(w / 2, n - 1);
    }
  }

  class Table {
    const maxConnects: nat
    /** New entries are allocated so many at a time. */
    const batch: nat
    const freeBits: array<nat>
    var hint: nat
    var numConnects: int
    /** The entries below this have been allocated. */
    var entries: nat

    ghost predicate Valid() reads this, freeBits {
      && Bytes(freeBits[..]) && maxConnects <= freeBits.Length * BYTE && batch > 0
      && numConnects == Busy(freeBits[..], freeBits.Length * BYTE)
      && entries <= maxConnects
      && (forall c: nat :: c < freeBits.Length * BYTE && !IsFree(freeBits[..], c) ==> c < entries)
      && hint <= freeBits.Length && (forall i :: 0 <= i < hint ==> freeBits[i] == 0)
    }

    constructor (max: nat, setSize: nat, many: nat)
      requires max <= setSize * BYTE && many > 0
      ensures Valid() && fresh(freeBits) && maxConnects == max && numConnects == 0 && entries == 0
    {
      maxConnects, batch := max, many;
      freeBits := new nat[setSize](i => Pow2(BYTE) - 1);
      hint, numConnects, entries := 0, 0, 0;
      new;
      forall c: nat | c < setSize * BYTE ensures IsFree(freeBits[..], c) {
        OnesBits(BYTE, c % BYTE);
      }
      NoneBusy(freeBits[..], setSize * BYTE);
    }

    /** The search of AcceptConnections, which never comes to the end of the bits. */
    method FindFree() returns (cnum: nat)
      requires Valid() && numConnects < maxConnects
      modifies this`hint
      ensures Valid() && cnum < maxConnects && cnum <= entries
      ensures IsFree(freeBits[..], cnum) && forall d: nat :: d < cnum ==> !IsFree(freeBits[..], d)
    {
      ghost var bits := freeBits[..];
      ghost var free := FreeBelow(bits, entries, maxConnects);
      var i := hint;
      while freeBits[i] == 0
        invariant 0 <= i <= free / BYTE && forall k :: 0 <= k < i ==> freeBits[k] == 0
        decreases free / BYTE - i
      {
        ByteFull(bits, i, free);
        i := i + 1;
      }
      var j := LowestBit(freeBits[i]);
      cnum := i * BYTE + j;
      assert cnum / BYTE == i && cnum % BYTE == j;
      LowestFree(bits, i, j);
      assert cnum <= free;
      hint := i;
    }

    /** A new connection gets the lowest free number, below maxConnects, and an
        entry; entries stay a prefix of the table. */
    method Accept() returns (cnum: nat)
      requires Valid() && numConnects < maxConnects
      modifies this, freeBits
      ensures Valid() && cnum < maxConnects && cnum < entries && numConnects == old(numConnects) + 1
      ensures IsFree(old(freeBits[..]), cnum) && forall d: nat :: d < cnum ==> !IsFree(old(freeBits[..]), d)
      ensures Flipped(old(freeBits[..]), freeBits[..], cnum, false)
      ensures entries == if cnum < old(entries) then old(entries)
                         else if cnum + batch > maxConnects then maxConnects else cnum + batch
    {
      cnum := FindFree();
      ghost var bits := freeBits[..];
      if cnum >= entries {
        entries := if batch + cnum > maxConnects then maxConnects else cnum + batch;
      }
      ByteFlipped(bits, cnum, false);
      freeBits[cnum / BYTE] := AndNot(freeBits[cnum / BYTE], Pow2(cnum % BYTE));
      assert freeBits[..] == bits[cnum / BYTE := AndNot(bits[cnum / BYTE], Pow2(cnum % BYTE))];
      BusyFlipped(bits, freeBits[..], cnum, false, freeBits.Length * BYTE);
      numConnects := numConnects + 1;
    }

    /** DoneWithConnection: the number is free again. */
    method Close(cnum: nat)
      requires Valid() && cnum < freeBits.Length * BYTE && !IsFree(freeBits[..], cnum)
      modifies this, freeBits
      ensures Valid() && numConnects == old(numConnects) - 1 && Flipped(old(freeBits[..]), freeBits[..], cnum, true)
    {
      ghost var bits := freeBits[..];
      ByteFlipped(bits, cnum, true);
      freeBits[cnum / BYTE] := Or(freeBits[cnum / BYTE], Pow2(cnum % BYTE));
      assert freeBits[..] == bits[cnum / BYTE := Or(bits[cnum / BYTE], Pow2(cnum % BYTE))];
      BusyFlipped(bits, freeBits[..], cnum, true, freeBits.Length * BYTE);
      if cnum / BYTE < hint {
        hint := cnum / BYTE;
      }
      numConnects := numConnects - 1;
    }
  }

  /** A number below maxConnects is free while fewer are busy, and it is in or
      right behind the allocated entries. */
  lemma {:induction false} FreeBelow(bits: seq<nat>, entries: nat, max: nat) returns (c: nat)
    requires entries <= max <= |bits| * BYTE && Busy(bits, |bits| * BYTE) < max
    requires forall d: nat :: d < |bits| * BYTE && !IsFree(bits, d) ==> d < entries
    ensures c < max && c <= entries && IsFree(bits, c)
  {
    BusyBelow(bits, max, |bits| * BYTE);
    if entries < max {
      c := entries;
    } else {
      c := SomeFree(bits, max);
    }
  }

  /** The byte of a free number is not zero. */
  lemma {:induction false} ByteFull(bits: seq<nat>, i: nat, free: nat)
    requires i < |bits| && bits[i] == 0 && IsFree(bits, free)
    ensures free / BYTE != i
  {
    ZeroBits(free % BYTE);
  }

  lemma {:induction false} LowestFree(bits: seq<nat>, i: nat, j: nat)
    requires i < |bits| && j < BYTE && (forall k :: 0 <= k < i ==> bits[k] == 0)
    requires Bit(bits[i], j) && forall k: nat :: k < j ==> !Bit(bits[i], k)
    ensures forall d: nat :: d < i * BYTE + j ==> !IsFree(bits, d)
  {
    forall d: nat | d < i * BYTE + j ensures !IsFree(bits, d) {
      ZeroBits(d % BYTE);
    }
  }
}
