/** The userver's bitmap of free blocks: words of 32 bits, the bits past the end
    of the last word set for good. */
module Bitmap {
  import opened Bits
  import opened Lists

  const WORD_BITS := 32

  function UintMax(): (m: nat)
    ensures m > 0 && m + 1 == Pow2(WORD_BITS)
  {
    Pow2(WORD_BITS) - 1
  }

  function NumWords(size: nat): (n: nat) { (size + WORD_BITS - 1) / WORD_BITS }

  predicate SetAt(ws: seq<nat>, i: nat) {
    i / WORD_BITS < |ws| && Bit(ws[i / WORD_BITS], i % WORD_BITS)
  }

  /** Clear bits among the first n. */
  function Free(ws: seq<nat>, n: nat): (f: nat) {
    if n == 0 then 0 else Free(ws, n - 1) + (if SetAt(ws, n - 1) then 0 else 1)
  }

  ghost predicate Words(ws: seq<nat>, size: nat) {
    |ws| == NumWords(size) && forall w :: 0 <= w < |ws| ==> ws[w] < Pow2(WORD_BITS)
  }

  ghost predicate Padded(ws: seq<nat>, size: nat) {
    forall i: nat :: size <= i < |ws| * WORD_BITS ==> SetAt(ws, i)
  }

  /** The maps differ in bit i at most, which is on or off in the second. */
  ghost predicate Changed(ws: seq<nat>, ws': seq<nat>, i: nat, on: bool) {
    |ws'| == |ws| && forall j: nat :: SetAt(ws', j) <==> if i == j then on else SetAt(ws, j)
  }

  lemma {:induction false} FreeChanged(ws: seq<nat>, ws': seq<nat>, i: nat, on: bool, n: nat)
    requires Changed(ws, ws', i, on) && SetAt(ws, i) != on
    ensures Free(ws', n) == Free(ws, n) + (if i >= n then 0 else if on then -1 else 1)
  {
    if n > 0 {
      FreeChanged(ws, ws', i, on, n - 1);
    }
  }

  lemma {:induction false} FreeBounds(ws: seq<nat>, n: nat)
    ensures Free(ws, n) <= n
    ensures Free(ws, n) == 0 <==> forall i: nat :: i < n ==> SetAt(ws, i)
    ensures Free(ws, n) == n <==> forall i: nat :: i < n ==> !SetAt(ws, i)
  {
    if n > 0 {
      FreeBounds(ws, n - 1);
      assert SetAt(ws, n - 1) || !SetAt(ws, n - 1);
    }
  }

  /** Turning one bit of one word on or off. */
  lemma {:induction false} WordChanged(ws: seq<nat>, size: nat, i: nat, on: bool)
    requires Words(ws, size) && i < size
    ensures i / WORD_BITS < |ws|
    ensures var w, k := i / WORD_BITS, i % WORD_BITS;
            var ws' := ws[w := if on then Or(ws[w], Pow2(k)) else AndNot(ws[w], Pow2(k))];
            Words(ws', size) && Changed(ws, ws', i, on)
  {
    var w, k := i / WORD_BITS, i % WORD_BITS;
    var x := if on then Or(ws[w], Pow2(k)) else AndNot(ws[w], Pow2(k));
    var ws' := ws[w := x];
    Pow2Below(k, WORD_BITS);
    OrSmall(ws[w], Pow2(k), WORD_BITS);
    AndNotSmall(ws[w], Pow2(k));
    forall j: nat ensures SetAt(ws', j) <==> if i == j then on else SetAt(ws, j) {
      var m := j % WORD_BITS;
      OrBits(ws[w], Pow2(k), m);
      AndNotBits(ws[w], Pow2(k), m);
      Pow2Bits(k, m);
    }
  }

  lemma {:induction false} Pow2Below(s: nat, n: nat)
    requires s < n
    ensures Pow2(s) < Pow2(n)
  {
    Pow2Grows(s, n - 1);
  }

  lemma {:induction false} PaddedStill(ws: seq<nat>, ws': seq<nat>, size: nat, i: nat, on: bool)
    requires Padded(ws, size) && Changed(ws, ws', i, on) && i < size
    ensures Padded(ws', size)
  {
  }

  // ------------------------------------------------------------------
  // The last word

  /** The shift w << k of a 32-bit word, one place at a time: the top bit is lost. */
  function ShiftLeft(w: nat, k: nat): (r: nat)
    requires w <= UintMax()
    ensures r <= UintMax()
  {
    if k == 0 then w
    else
      var v := ShiftLeft(w, k - 1);
      if 2 * v > UintMax() then 2 * v - (UintMax() + 1) else 2 * v
  }

  /** The source's (UINT_MAX - 1) << (n - 1) sets exactly the bits from n on. */
  lemma {:induction false} PadWord(n: nat, i: nat)
    requires 0 < n < WORD_BITS
    ensures Bit(ShiftLeft(UintMax() - 1, n - 1), i) <==> n <= i < WORD_BITS
  {
    hide Pow2, Bit, ShiftLeft;
    PadWordIs(n);
    HighBits(n, WORD_BITS, i);
  }

  lemma {:induction false} PadWordIs(n: nat)
    requires 0 < n < WORD_BITS
    ensures Pow2(n) <= Pow2(WORD_BITS)
    ensures ShiftLeft(UintMax() - 1, n - 1) == Pow2(WORD_BITS) - Pow2(n)
  {
    hide Pow2, UintMax;
    Pow2Grows(n + 1, WORD_BITS);
    Pow2Step(n);
    if n > 1 {
      PadWordIs(n - 1);
      Pow2Step(n - 1);
    } else {
      assert Pow2(0) == 1 by { Pow2Zero(); }
    }
  }

  lemma {:induction false} Pow2Zero()
    ensures Pow2(0) == 1
  {
  }

  lemma {:induction false} Pow2Step(n: nat)
    ensures Pow2(n + 1) == 2 * Pow2(n) && (n > 0 ==> Pow2(n) == 2 * Pow2(n - 1))
  {
  }

  /** Words that are zero but for the padding of the last one. */
  ghost predicate Blank(ws: seq<nat>, size: nat) {
    && |ws| == NumWords(size)
    && forall w :: 0 <= w < |ws| ==>
         ws[w] == if w == |ws| - 1 && size % WORD_BITS != 0 then ShiftLeft(UintMax() - 1, size % WORD_BITS - 1) else 0
  }

  lemma {:induction false} BlankIs(ws: seq<nat>, size: nat, left: nat, w: nat)
    requires |ws| == NumWords(size) && size == left + w * WORD_BITS && left < WORD_BITS
    requires (forall v :: 0 <= v < w ==> ws[v] == 0) && (left > 0 ==> ws[w] == ShiftLeft(UintMax() - 1, left - 1))
    ensures Blank(ws, size)
  {
    hide ShiftLeft, Pow2, UintMax;
    assert |ws| == if left > 0 then w + 1 else w;
    assert size % WORD_BITS == left;
  }

  lemma {:induction false} BlankBit(ws: seq<nat>, size: nat, i: nat)
    requires Blank(ws, size) && i < |ws| * WORD_BITS
    ensures SetAt(ws, i) <==> size <= i
  {
    hide Bit, ShiftLeft, Pow2;
    var n, w := size % WORD_BITS, i / WORD_BITS;
    assert 0 <= w < |ws|;
    if w == |ws| - 1 && n != 0 {
      PadWord(n, i % WORD_BITS);
    } else {
      ZeroBits(i % WORD_BITS);
    }
  }

  lemma {:induction false} StartsClear(ws: seq<nat>, size: nat)
    requires Blank(ws, size)
    ensures Words(ws, size) && Padded(ws, size) && Free(ws, size) == size
    ensures forall i: nat :: i < size ==> !SetAt(ws, i)
  {
    hide Bit, ShiftLeft, Pow2, Free;
    forall i: nat | i < |ws| * WORD_BITS ensures SetAt(ws, i) <==> size <= i {
      BlankBit(ws, size, i);
    }
    forall i: nat | i < size ensures !SetAt(ws, i) {
      assert i < |ws| * WORD_BITS;
    }
    FreeBounds(ws, size);
  }

  /** All bits of a word that is UINT_MAX are set. */
  lemma {:induction false} FullWord(ws: seq<nat>, w: nat)
    requires w < |ws| && ws[w] == UintMax()
    ensures forall j: nat :: w * WORD_BITS <= j < (w + 1) * WORD_BITS ==> SetAt(ws, j)
  {
    forall j: nat | w * WORD_BITS <= j < (w + 1) * WORD_BITS ensures SetAt(ws, j) {
      OnesBits(WORD_BITS, j % WORD_BITS);
    }
  }

  /** The first n bits of the word are set. */
  ghost predicate SetUpTo(word: nat, n: int) {
    forall k: nat :: k < n ==> Bit(word, k)
  }

  /** The clear bit found in a word that is not full is a bit of that word. */
  lemma {:induction false} InWord(ws: seq<nat>, size: nat, w: nat, index: nat)
    requires Words(ws, size) && Padded(ws, size) && w < |ws| && ws[w] != UintMax() && w * WORD_BITS <= index < size
    requires SetUpTo(ws[w], index - w * WORD_BITS) && !Bit(ws[w], index - w * WORD_BITS)
    ensures index / WORD_BITS == w && index % WORD_BITS == index - w * WORD_BITS
    ensures !SetAt(ws, index) && forall j: nat :: w * WORD_BITS <= j < index ==> SetAt(ws, j)
  {
    var k := ClearBit(ws[w], WORD_BITS);
    var p := w * WORD_BITS + k;
    assert p / WORD_BITS == w && p % WORD_BITS == k;
    assert !SetAt(ws, p);
    assert p < size;
    assert index <= p;
    forall j: nat | w * WORD_BITS <= j < index ensures SetAt(ws, j) {
      assert j / WORD_BITS == w && j % WORD_BITS == j - w * WORD_BITS;
    }
  }

  /** Finding none up to the end, the search has seen the last word. */
  lemma {:induction false} NoneInWord(ws: seq<nat>, size: nat, w: nat)
    requires Words(ws, size) && w < |ws| && w * WORD_BITS < size && SetUpTo(ws[w], size - w * WORD_BITS)
    ensures forall j: nat :: w * WORD_BITS <= j < size ==> SetAt(ws, j)
  {
    SmallBits(ws[w], WORD_BITS, WORD_BITS);
    var next := (w + 1) * WORD_BITS;
    assert size <= next;
    forall j: nat | w * WORD_BITS <= j < size ensures SetAt(ws, j) {
      assert j / WORD_BITS == w && j % WORD_BITS == j - w * WORD_BITS;
    }
  }

  // ------------------------------------------------------------------
  // The bitmap

  class Bitmap {
    const size: nat
    const words: array<nat>
    var numFree: int

    ghost predicate Valid() reads this, words {
      && Words(words[..], size) && Padded(words[..], size)
      && numFree == Free(words[..], size)
    }

    constructor (blocks: nat)
      ensures fresh(words) && size == blocks && words.Length == NumWords(blocks)
    {
      size := blocks;
      words := new nat[NumWords(blocks)](i => 0);
    }

    /** bitmap_init: every block free, the padding set. */
    method Init()
      requires words.Length == NumWords(size)
      modifies this`numFree, words
      ensures Valid() && numFree == size && forall i: nat :: i < size ==> !SetAt(words[..], i)
    {
      hide ShiftLeft, Bit, Pow2, Free, Blank;
      var left, w := size, 0;
      while left >= WORD_BITS
        invariant left >= 0 && w >= 0 && size == left + w * WORD_BITS
        invariant forall v :: 0 <= v < w ==> words[v] == 0
      {
        words[w] := 0;
        left, w := left - WORD_BITS, w + 1;
      }
      if left > 0 {
        words[w] := ShiftLeft(UintMax() - 1, left - 1);
      }
      BlankIs(words[..], size, left, w);
      StartsClear(words[..], size);
      numFree := size;
    }

    /** First place from index on, below size, whose bit of the word is clear; size if there is none. */
    method FirstClear(word: nat, index: nat) returns (i: nat)
      requires index <= size
      ensures index <= i <= size
      ensures SetUpTo(word, i - index)
      ensures i < size ==> !Bit(word, i - index)
    {
      i := index;
      var mask := 1;
      while i < size
        invariant index <= i <= size && mask == Pow2(i - index)
        invariant SetUpTo(word, i - index)
      {
        AndPow2(word, i - index);
        if And(word, mask) == 0 {
          return;
        }
        mask, i := 2 * mask, i + 1;
      }
    }

    /** Takes the lowest free block; NIL when there is none. */
    method FindAndSet() returns (index: int)
      requires Valid()
      modifies this`numFree, words
      ensures Valid()
      ensures index == NIL <==> old(numFree) == 0
      ensures index == NIL ==> words[..] == old(words[..]) && numFree == old(numFree)
      ensures index != NIL ==> 0 <= index < size && !SetAt(old(words[..]), index) && numFree == old(numFree) - 1
      ensures index != NIL ==>
                && (forall j: nat :: j < index ==> SetAt(old(words[..]), j))
                && Changed(old(words[..]), words[..], index, true)
    {
      ghost var ws := words[..];
      FreeBounds(ws, size);
      index := 0;
      var w := 0;
      while index < size
        invariant 0 <= index && (index == w * WORD_BITS || index >= size)
        invariant forall j: nat :: j < index && j < size ==> SetAt(ws, j)
        invariant words[..] == ws && numFree == Free(ws, size)
        decreases size - index
      {
        if words[w] != UintMax() {
          var start := index;
          index := FirstClear(words[w], index);
          if index < size {
            InWord(ws, size, w, index);
            Take(index, index - start);
            return;
          }
          NoneInWord(ws, size, w);
        } else {
          FullWord(ws, w);
        }
        index, w := index + WORD_BITS, w + 1;
      }
      return NIL;
    }

    /** Sets a clear bit. */
    method Take(index: nat, k: nat)
      requires Valid() && index < size && k == index % WORD_BITS && !SetAt(words[..], index)
      modifies this`numFree, words
      ensures Valid() && Changed(old(words[..]), words[..], index, true) && numFree == old(numFree) - 1
    {
      ghost var ws := words[..];
      var w := index / WORD_BITS;
      WordChanged(ws, size, index, true);
      words[w] := Or(words[w], Pow2(k));
      assert words[..] == ws[w := Or(ws[w], Pow2(k))];
      FreeChanged(ws, words[..], index, true, size);
      PaddedStill(ws, words[..], size, index, true);
      numFree := numFree - 1;
    }

    method IsSet(index: nat) returns (b: bool)
      requires Valid() && index < size
      ensures b == SetAt(words[..], index)
    {
      AndPow2(words[index / WORD_BITS], index % WORD_BITS);
      b := And(words[index / WORD_BITS], Pow2(index % WORD_BITS)) != 0;
    }

    /** Gives a block back; a free one stays as it is. */
    method Clear(index: nat)
      requires Valid() && index < size
      modifies this`numFree, words
      ensures Valid() && Changed(old(words[..]), words[..], index, false)
      ensures numFree == old(numFree) + if SetAt(old(words[..]), index) then 1 else 0
    {
      ghost var ws := words[..];
      var w, k := index / WORD_BITS, index % WORD_BITS;
      WordChanged(ws, size, index, false);
      AndPow2(words[w], k);
      if And(words[w], Pow2(k)) != 0 {
        words[w] := AndNot(words[w], Pow2(k));
        assert words[..] == ws[w := AndNot(ws[w], Pow2(k))];
        FreeChanged(ws, words[..], index, false, size);
        PaddedStill(ws, words[..], size, index, false);
        numFree := numFree + 1;
      }
    }
  }
}
