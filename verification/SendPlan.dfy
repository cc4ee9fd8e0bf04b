/** What flash sends at a time, and what a client receives: the sizes of sends,
    and the bytes on the wire after any sequence of partial writes. */
module SendPlan {
  import opened Bits
  import opened ChunkCache

  // ------------------------------------------------------------------
  // Powers of two

  predicate IsPower(x: int) {
    x == 1 || (x > 1 && x % 2 == 0 && IsPower(x / 2))
  }

  lemma {:induction false} AndSame(a: nat)
    ensures And(a, a) == a
  {
    if a > 0 {
      AndSame(a / 2);
    }
  }

  /** The source's bit test is a test for powers of two. */
  lemma {:induction false} AndPred(x: nat)
    requires x > 0
    ensures And(x, x - 1) == 0 <==> IsPower(x)
  {
    if x == 1 {
    } else if x % 2 == 0 {
      AndPred(x / 2);
      assert (x - 1) / 2 == x / 2 - 1;
    } else {
      AndSame(x / 2);
      assert (x - 1) / 2 == x / 2;
    }
  }

  /** The largest power of two that is no larger than x, or 0 if there is none. */
  method PowerOf2LessThanEqual(x: int) returns (r: int)
    ensures x <= 0 ==> r == 0
    ensures x > 0 ==> IsPower(r) && r <= x < 2 * r
  {
    if x >= 0 && And(x, if x == 0 then 0 else x - 1) == 0 {
      if x > 0 {
        AndPred(x);
      }
      return x;
    }
    hide And, IsPower;
    var y := 1;
    assert IsPower(1) by { PowerOne(); }
    while y <= x
      invariant y >= 1 && IsPower(y) && (y == 1 || (y % 2 == 0 && IsPower(y / 2) && y / 2 <= x))
      decreases 2 * x - y
    {
      PowerTwice(y);
      y := 2 * y;
    }
    return y / 2;
  }

  lemma {:induction false} PowerOne()
    ensures IsPower(1)
  {
  }

  lemma {:induction false} PowerTwice(y: int)
    requires y >= 1 && IsPower(y)
    ensures IsPower(2 * y) && 2 * y % 2 == 0 && 2 * y / 2 == y
  {
  }

  // ------------------------------------------------------------------
  // How much is sent

  /** Bytes from the position to the end of its chunk. */
  function Left(size: nat, position: nat): (n: int) {
    if position / BLOCK == NumChunks(size) - 1 then size - position else BLOCK - position % BLOCK
  }

  /** The rest of the chunk is the rest of the block or of the file. */
  lemma {:induction false} LeftIs(size: nat, position: nat)
    requires position < size
    ensures position / BLOCK < NumChunks(size)
    ensures Left(size, position) == if size - position < BLOCK - position % BLOCK then size - position
            else BLOCK - position % BLOCK
    ensures Left(size, position) > 0
  {
  }

  /** Whether there is data, how much of it to send, and where in the chunk. */
  method GetDataToSend(size: nat, mapped: bool, position: nat, desiredSize: int, maxSize: int)
    returns (data: bool, actualSize: int, startOffset: int)
    requires size > 0 ==> position < size
    requires desiredSize <= maxSize || desiredSize == 0
    requires desiredSize >= 0
    ensures data <==> size > 0 && mapped
    ensures size == 0 ==> actualSize == 0
    ensures size > 0 && !mapped ==> actualSize == Left(size, position)
    ensures data ==> startOffset == position % BLOCK && 0 <= actualSize <= Left(size, position)
    ensures data && Left(size, position) <= maxSize ==> actualSize == Left(size, position)
    ensures data && Left(size, position) > maxSize ==>
              && actualSize == (if Left(size, position) >= 2 * desiredSize then desiredSize
                                else Left(size, position) / 2)
              && actualSize <= desiredSize <= 2 * actualSize + 1
              && (actualSize == 0 <==> desiredSize == 0)
  {
    startOffset := 0;
    if size == 0 {
      return false, 0, 0;
    }
    LeftIs(size, position);
    var chunkNum, posMod := position / BLOCK, position % BLOCK;
    var bytesLeft := if chunkNum == NumChunks(size) - 1 then size - position else BLOCK - posMod;
    if !mapped {
      return false, bytesLeft, 0;
    }
    if bytesLeft > maxSize {
      if bytesLeft >= desiredSize * 2 {
        bytesLeft := desiredSize;
      } else {
        while bytesLeft > desiredSize
          invariant 0 < bytesLeft <= Left(size, position) && bytesLeft < 2 * desiredSize <= 4 * bytesLeft + 2
          invariant bytesLeft == Left(size, position) || bytesLeft == Left(size, position) / 2 <= desiredSize
        {
          bytesLeft := bytesLeft / 2;
        }
      }
    }
    return true, bytesLeft, posMod;
  }

  /** The mapped data of the chunk of a position. */
  function ChunkData<T>(file: seq<T>, position: nat): (d: seq<T>)
    requires position < |file|
  {
    var start := position / BLOCK * BLOCK;
    file[start..if start + BLOCK < |file| then start + BLOCK else |file|]
  }

  /** A send lies within its chunk and is the next piece of the file. */
  lemma {:induction false} SendsNextBytes<T>(file: seq<T>, position: nat, n: nat)
    requires position < |file| && n <= Left(|file|, position)
    ensures position % BLOCK + n <= |ChunkData(file, position)|
    ensures ChunkData(file, position)[position % BLOCK..position % BLOCK + n] == file[position..position + n]
  {
    LeftIs(|file|, position);
    var start := position / BLOCK * BLOCK;
    SliceOfSlice(file, start, start + |ChunkData(file, position)|, position % BLOCK, n);
  }

  lemma {:induction false} SliceOfSlice<T>(f: seq<T>, a: nat, b: nat, d: nat, n: nat)
    requires a <= b <= |f| && d + n <= b - a
    ensures f[a..b][d..d + n] == f[a + d..a + d + n]
  {
    var x, y := f[a..b][d..d + n], f[a + d..a + d + n];
    forall i | 0 <= i < n ensures x[i] == y[i] {
      assert x[i] == f[a..b][d + i];
    }
  }

  // ------------------------------------------------------------------
  // What is on the wire

  /** A connection that is sending: how much of the file it has sent, and all
      bytes that have gone to the client. */
  datatype Sender<T> = Sender(sent: nat, wire: seq<T>, status: Status)
  datatype Status = Open | Complete | Cut

  /** A call of writev with n body bytes offered: how many bytes it took, header
      included, or that it failed. */
  datatype Result = Took(n: nat, k: nat) | Failed

  /** The header goes in front as long as no body byte has been counted. */
  function Offered<T>(head: seq<T>, file: seq<T>, s: Sender<T>, n: nat): (b: seq<T>)
    requires s.sent + n <= |file|
  {
    (if s.sent == 0 then head else []) + file[s.sent..s.sent + n]
  }

  predicate Possible<T>(head: seq<T>, file: seq<T>, s: Sender<T>, r: Result) {
    && s.status == Open && s.sent <= |file|
    && (r.Took? ==>
         && s.sent + r.n <= |file| && (s.sent < |file| ==> 0 < r.n <= Left(|file|, s.sent))
         && r.k <= |Offered(head, file, s, r.n)|)
  }

  /** One pass of DoSingleWriteBackend from the writev on, for a GET. */
  function Write<T>(head: seq<T>, file: seq<T>, s: Sender<T>, r: Result): (s': Sender<T>)
    requires Possible(head, file, s, r)
  {
    if r.Failed? then s.(status := Cut)
    else
      var wire := s.wire + Offered(head, file, s, r.n)[..r.k];
      var sz := if s.sent == 0 && r.k > 0 then r.k - |head| else r.k;
      if sz < 0 then Sender(s.sent, wire, Cut)
      else Sender(s.sent + sz, wire, if s.sent + sz >= |file| then Complete else Open)
  }

  /** What a write does: a connection is cut when the call fails or takes a part of
      the header only, is complete when the file has been counted to its end, and
      goes on otherwise; what it took has gone out. */
  lemma {:induction false} WriteExactly<T>(head: seq<T>, file: seq<T>, s: Sender<T>, r: Result)
    requires Possible(head, file, s, r)
    ensures var s' := Write(head, file, s, r);
            && (s'.status == Cut <==> r.Failed? || (s.sent == 0 && 0 < r.k < |head|))
            && (s'.status == Complete <==> s'.status != Cut && s'.sent == |file|)
            && (r.Failed? ==> s'.sent == s.sent && s'.wire == s.wire)
            && (r.Took? && s.sent > 0 ==>
                 s'.sent == s.sent + r.k <= |file| && s'.wire == s.wire + file[s.sent..s.sent + r.k])
            && (r.Took? && s.sent == 0 && r.k < |head| ==> s'.sent == 0 && s'.wire == s.wire + head[..r.k])
            && (r.Took? && s.sent == 0 && r.k >= |head| ==>
                 s'.sent == r.k - |head| <= |file| && s'.wire == s.wire + head + file[..r.k - |head|])
  {
    if r.Took? {
      var b, wire := Offered(head, file, s, r.n), s.wire;
      if s.sent > 0 {
        assert b == file[s.sent..s.sent + r.n];
        assert b[..r.k] == file[s.sent..s.sent + r.k];
      } else {
        assert b == head + file[..r.n];
        if r.k < |head| {
          assert b[..r.k] == head[..r.k];
        } else {
          assert b[..r.k] == head + file[..r.k - |head|];
          assert wire + (head + file[..r.k - |head|]) == wire + head + file[..r.k - |head|];
        }
      }
    }
  }

  ghost predicate AllPossible<T>(head: seq<T>, file: seq<T>, s: Sender<T>, rs: seq<Result>)
    decreases |rs|
  {
    rs == [] || (Possible(head, file, s, rs[0]) && AllPossible(head, file, Write(head, file, s, rs[0]), rs[1..]))
  }

  function Run<T>(head: seq<T>, file: seq<T>, s: Sender<T>, rs: seq<Result>): (s': Sender<T>)
    requires AllPossible(head, file, s, rs)
    decreases |rs|
  {
    if rs == [] then s else Run(head, file, Write(head, file, s, rs[0]), rs[1..])
  }

  /** How many writes took exactly the header. */
  function HeaderOnly<T>(head: seq<T>, file: seq<T>, s: Sender<T>, rs: seq<Result>): (m: nat)
    requires AllPossible(head, file, s, rs)
    decreases |rs|
  {
    if rs == [] then 0
    else
      (if s.sent == 0 && rs[0].Took? && rs[0].k == |head| > 0 then 1 else 0)
      + HeaderOnly(head, file, Write(head, file, s, rs[0]), rs[1..])
  }

  function Repeat<T>(head: seq<T>, m: nat): (r: seq<T>) {
    if m == 0 then [] else head + Repeat(head, m - 1)
  }

  lemma {:induction false} RepeatLast<T>(head: seq<T>, m: nat)
    ensures Repeat(head, m) + head == Repeat(head, m + 1)
  {
    if m > 0 {
      RepeatLast(head, m - 1);
      assert Repeat(head, m) + head == head + (Repeat(head, m - 1) + head);
    } else {
      assert Repeat(head, 1) == head + [];
    }
  }

  /** Copies of the header on the wire when so many writes took just the header. */
  function Copies<T>(s: Sender<T>, m: nat): (n: nat) { if s.sent > 0 then m + 1 else m }

  ghost predicate Shape<T>(head: seq<T>, file: seq<T>, s: Sender<T>, m: nat) {
    && s.sent <= |file|
    && (s.status != Cut ==> s.wire == Repeat(head, Copies(s, m)) + file[..s.sent])
    && (s.status == Cut ==> s.wire <= Repeat(head, m + 1) + file)
  }

  lemma {:induction false} WriteShape<T>(head: seq<T>, file: seq<T>, s: Sender<T>, r: Result, m: nat)
    requires Possible(head, file, s, r) && Shape(head, file, s, m)
    ensures var once := if s.sent == 0 && r.Took? && r.k == |head| > 0 then 1 else 0;
            Shape(head, file, Write(head, file, s, r), m + once)
  {
    hide Repeat, Offered;
    if r.Failed? {
      CutIsPrefix(head, file, s, m);
    } else if s.sent > 0 {
      WriteLater(head, file, s, r, m);
    } else {
      WriteFirst(head, file, s, r, m);
    }
  }

  lemma {:induction false} WriteLater<T>(head: seq<T>, file: seq<T>, s: Sender<T>, r: Result, m: nat)
    requires Possible(head, file, s, r) && Shape(head, file, s, m) && r.Took? && s.sent > 0
    ensures Shape(head, file, Write(head, file, s, r), m)
  {
    hide Repeat;
    var b := Offered(head, file, s, r.n);
    assert b == file[s.sent..s.sent + r.n];
    SliceOfSlice(file, s.sent, s.sent + r.n, 0, r.k);
    assert b[..r.k] == b[0..0 + r.k];
    Longer(Repeat(head, m + 1), file, s.sent, r.k);
  }

  lemma {:induction false} Longer<T>(a: seq<T>, file: seq<T>, i: nat, k: nat)
    requires i + k <= |file|
    ensures a + file[..i] + file[i..i + k] == a + file[..i + k]
  {
    assert file[..i] + file[i..i + k] == file[..i + k];
  }

  lemma {:induction false} WriteFirst<T>(head: seq<T>, file: seq<T>, s: Sender<T>, r: Result, m: nat)
    requires Possible(head, file, s, r) && Shape(head, file, s, m) && r.Took? && s.sent == 0
    ensures Shape(head, file, Write(head, file, s, r), m + if r.k == |head| > 0 then 1 else 0)
  {
    hide Repeat;
    var s', a := Write(head, file, s, r), Repeat(head, m);
    assert file[..0] == [];
    assert s.wire == a;
    OfferedFirst(head, file, r.n, r.k);
    RepeatLast(head, m);
    if r.k == 0 {
      assert Offered(head, file, s, r.n)[..0] == [];
      assert s'.wire == a;
    } else if r.k < |head| {
      assert a + head[..r.k] <= a + head + file;
    } else {
      assert s'.wire == a + head + file[..r.k - |head|];
      if r.k == |head| {
        assert s'.wire == a + head;
      }
    }
  }

  lemma {:induction false} OfferedFirst<T>(head: seq<T>, file: seq<T>, n: nat, k: nat)
    requires n <= |file| && k <= |head| + n
    ensures (head + file[0..0 + n])[..k] == if k <= |head| then head[..k] else head + file[..k - |head|]
  {
  }

  lemma {:induction false} CutIsPrefix<T>(head: seq<T>, file: seq<T>, s: Sender<T>, m: nat)
    requires s.sent <= |file| && s.wire == Repeat(head, Copies(s, m)) + file[..s.sent]
    ensures s.wire <= Repeat(head, m + 1) + file
  {
    RepeatLast(head, m);
    if s.sent == 0 {
      assert Repeat(head, m + 1) + file == Repeat(head, m) + (head + file);
    }
  }

  lemma {:induction false} RunShape<T>(head: seq<T>, file: seq<T>, s: Sender<T>, rs: seq<Result>, m: nat)
    requires AllPossible(head, file, s, rs) && Shape(head, file, s, m)
    ensures Shape(head, file, Run(head, file, s, rs), m + HeaderOnly(head, file, s, rs))
    decreases |rs|
  {
    hide Shape, Write, Possible;
    if rs != [] {
      WriteShape(head, file, s, rs[0], m);
      var once := if s.sent == 0 && rs[0].Took? && rs[0].k == |head| > 0 then 1 else 0;
      RunShape(head, file, Write(head, file, s, rs[0]), rs[1..], m + once);
    }
  }

  function Start<T>(): (s: Sender<T>) { Sender(0, [], Open) }

  /** However the writes are cut up, the body bytes received are always the
      beginning of the file that has been counted as sent, behind the header. */
  lemma {:induction false} ReceivesPrefix<T>(head: seq<T>, file: seq<T>, rs: seq<Result>)
    requires AllPossible(head, file, Start<T>(), rs)
    ensures Shape(head, file, Run(head, file, Start<T>(), rs), HeaderOnly(head, file, Start<T>(), rs))
  {
    RunShape(head, file, Start(), rs, 0);
  }

  lemma {:induction false} RepeatLength<T>(head: seq<T>, m: nat)
    ensures |Repeat(head, m)| == m * |head|
  {
    if m > 0 {
      RepeatLength(head, m - 1);
      assert m * |head| == |head| + (m - 1) * |head|;
    }
  }

  /** A complete reply is the header and the file exactly when no write took the
      header alone, or, for an empty file, exactly one did. */
  lemma {:induction false} CompleteExactly<T>(head: seq<T>, file: seq<T>, rs: seq<Result>)
    requires |head| > 0 && AllPossible(head, file, Start<T>(), rs) && Run(head, file, Start<T>(), rs).status == Complete
    ensures Run(head, file, Start<T>(), rs).wire == head + file
            <==> HeaderOnly(head, file, Start<T>(), rs) == if file == [] then 1 else 0
  {
    var s, m := Run(head, file, Start<T>(), rs), HeaderOnly(head, file, Start<T>(), rs);
    ReceivesPrefix(head, file, rs);
    EndsAtEnd(head, file, Start(), rs);
    assert file[..|file|] == file;
    var n := Copies(s, m);
    RepeatLength(head, n);
    if n == 1 {
      assert Repeat(head, 1) == head + Repeat(head, 0);
      assert Repeat(head, 1) == head;
    } else if n == 0 {
      assert |s.wire| == |file|;
    } else {
      assert n * |head| >= 2 * |head|;
      assert |s.wire| > |head + file|;
    }
  }

  /** The other case on the smallest input: the first write takes the header and
      nothing else, the second sends it again. */
  lemma {:induction false} HeaderSentTwice()
    ensures var rs := [Took(1, 1), Took(1, 2)];
            && AllPossible("H", "b", Start(), rs)
            && Run("H", "b", Start(), rs) == Sender(1, "HHb", Complete) && HeaderOnly("H", "b", Start(), rs) == 1
  {
    var r1, r2 := Took(1, 1), Took(1, 2);
    var s0: Sender<char>, s1, s2 := Start(), Sender(0, "H", Open), Sender(1, "HHb", Complete);
    LeftIs(1, 0);
    assert Offered("H", "b", s0, 1) == "Hb" && "Hb"[..1] == "H" && "Hb"[..2] == "Hb";
    assert Write("H", "b", s0, r1) == s1;
    assert Offered("H", "b", s1, 1) == "Hb" && "H" + "Hb" == "HHb";
    assert Write("H", "b", s1, r2) == s2;
    assert [r1, r2][1..] == [r2] && [r2][1..] == [];
    assert AllPossible("H", "b", s2, []) && AllPossible("H", "b", s1, [r2]) && AllPossible("H", "b", s0, [r1, r2]);
    assert Run("H", "b", s1, [r2]) == s2;
  }

  /** Complete means that the whole file has been counted as sent. */
  lemma {:induction false} EndsAtEnd<T>(head: seq<T>, file: seq<T>, s: Sender<T>, rs: seq<Result>)
    requires AllPossible(head, file, s, rs) && s.sent <= |file| && (s.status == Complete ==> s.sent == |file|)
    ensures Run(head, file, s, rs).status == Complete ==> Run(head, file, s, rs).sent == |file|
    decreases |rs|
  {
    if rs != [] {
      EndsAtEnd(head, file, Write(head, file, s, rs[0]), rs[1..]);
    }
  }
}
