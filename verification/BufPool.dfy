/** The userver's pool of equal blocks on top of the bitmap. */
module BufPool {
  import opened Bitmap
  import opened Lists

  /** Where block i is. */
  function Address(base: int, blockSize: nat, i: nat): (a: int) { base + i * blockSize }

  /** Blocks with different numbers have no byte in common. */
  lemma {:induction false} Disjoint(base: int, blockSize: nat, i: nat, j: nat, x: int)
    requires i != j && Address(base, blockSize, i) <= x < Address(base, blockSize, i) + blockSize
    ensures !(Address(base, blockSize, j) <= x < Address(base, blockSize, j) + blockSize)
  {
    if i < j {
      Apart(blockSize, i, j);
    } else {
      Apart(blockSize, j, i);
    }
  }

  lemma {:induction false} Apart(blockSize: nat, i: nat, j: nat)
    requires i < j
    ensures (i + 1) * blockSize <= j * blockSize && (i + 1) * blockSize == i * blockSize + blockSize
  {
    if i + 1 < j {
      Apart(blockSize, i, j - 1);
      assert j * blockSize == (j - 1) * blockSize + blockSize;
    }
  }

  /** A block lies inside the pool. */
  lemma {:induction false} Inside(base: int, blockSize: nat, i: nat, n: nat)
    requires i < n
    ensures base <= Address(base, blockSize, i) && Address(base, blockSize, i) + blockSize <= base + n * blockSize
  {
    if i + 1 < n {
      Apart(blockSize, i, n);
    }
    assert i * blockSize >= 0;
    assert (i + 1) * blockSize == i * blockSize + blockSize;
  }

  /** The number of a block is found again from its address. */
  lemma {:induction false} NumberOf(blockSize: nat, i: nat)
    requires blockSize > 0
    ensures i * blockSize / blockSize == i && i * blockSize >= 0
  {
    var q := i * blockSize / blockSize;
    Times(i - q, blockSize);
    Times(i, blockSize);
    assert i * blockSize == q * blockSize + i * blockSize % blockSize;
    assert (i - q) * blockSize == i * blockSize - q * blockSize;
  }

  lemma {:induction false} Times(d: int, b: nat)
    ensures d >= 1 ==> d * b >= b
    ensures d <= -1 ==> d * b + b <= 0
    ensures d >= 0 ==> d * b >= 0
  {
  }

  /** Taking a block and giving it back leaves every bit as it was. */
  lemma {:induction false} BackAgain(a: seq<nat>, b: seq<nat>, c: seq<nat>, i: nat, on: bool)
    requires SetAt(a, i) != on && Changed(a, b, i, on) && Changed(b, c, i, !on)
    ensures |c| == |a| && forall j: nat :: SetAt(c, j) <==> SetAt(a, j)
  {
    forall j: nat ensures SetAt(c, j) <==> SetAt(a, j) {
      assert SetAt(b, j) <==> if i == j then on else SetAt(a, j);
    }
  }

  class Pool {
    const base: int
    const blockSize: nat
    const blocks: Bitmap

    ghost predicate Valid() reads this, blocks, blocks.words {
      blockSize > 0 && blocks.Valid()
    }

    /** Block i has been handed out. */
    ghost predicate Live(i: nat) reads this, blocks, blocks.words {
      i < blocks.size && SetAt(blocks.words[..], i)
    }

    constructor (start: int, size: nat, n: nat)
      requires size > 0
      ensures Valid() && fresh(blocks) && fresh(blocks.words) && base == start && blockSize == size && blocks.size == n
      ensures forall i: nat :: !Live(i)
    {
      var b := new Bitmap(n);
      b.Init();
      base, blockSize, blocks := start, size, b;
    }

    /** The address of a block that was free, which is handed out; None when all are. */
    method Alloc() returns (buf: Option<int>)
      requires Valid()
      modifies blocks`numFree, blocks.words
      ensures Valid()
      ensures buf.None? <==> old(blocks.numFree) == 0
      ensures buf.None? ==> blocks.words[..] == old(blocks.words[..])
      ensures buf.Some? ==> exists i: nat ::
                && i < blocks.size && buf.value == Address(base, blockSize, i) && !old(Live(i))
                && Changed(old(blocks.words[..]), blocks.words[..], i, true)
    {
      var index := blocks.FindAndSet();
      if index < 0 {
        return None;
      }
      return Some(Address(base, blockSize, index));
    }

    /** Gives back block i by its address. */
    method Release(buf: int, ghost i: nat)
      requires Valid() && Live(i) && buf == Address(base, blockSize, i)
      modifies blocks`numFree, blocks.words
      ensures Valid() && Changed(old(blocks.words[..]), blocks.words[..], i, false)
              && blocks.numFree == old(blocks.numFree) + 1
    {
      NumberOf(blockSize, i);
      var index := (buf - base) / blockSize;
      blocks.Clear(index);
    }
  }
}
