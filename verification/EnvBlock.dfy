/** Flash's block of environment strings: built in a buffer that doubles, sent to
    the process that runs the program, and taken apart there. */
module EnvBlock {
  import opened Lists

  /** The two counters in front of the strings. */
  const HEAD := 8
  const FIRST_ALLOC := 2000
  const NUL := '\0'

  predicate NulFree(s: string) { NUL !in s }

  ghost predicate AllNulFree(ss: seq<string>) {
    forall i :: 0 <= i < |ss| ==> NulFree(ss[i])
  }

  /** Each string with its terminator, one behind the other. */
  function Encode(ss: seq<string>): (t: string) {
    if ss == [] then "" else ss[0] + [NUL] + Encode(ss[1..])
  }

  lemma {:induction false} EncodeAppend(ss: seq<string>, s: string)
    ensures Encode(ss + [s]) == Encode(ss) + s + [NUL]
  {
    if ss == [] {
      assert ss + [s] == [s] && [s][1..] == [];
      assert Encode([s]) == s + [NUL] + "";
      assert "" + s + [NUL] == s + [NUL];
    } else {
      assert (ss + [s])[1..] == ss[1..] + [s];
      EncodeAppend(ss[1..], s);
      assert Encode(ss + [s]) == ss[0] + [NUL] + (Encode(ss[1..]) + s + [NUL]);
    }
  }

  /** Different lists of strings have different blocks: the strings can be read
      off the block in only one way. */
  lemma {:induction false} EncodeInjective(ss: seq<string>, ts: seq<string>)
    requires AllNulFree(ss) && AllNulFree(ts) && Encode(ss) == Encode(ts)
    ensures ss == ts
  {
    EncodeEmpty(ss);
    EncodeEmpty(ts);
    if ss != [] && ts != [] {
      var t := Encode(ss);
      FirstNul(ss);
      FirstNul(ts);
      assert ss[0] == t[..|ss[0]|] && ts[0] == t[..|ts[0]|];
      assert |ss[0]| == |ts[0]|;
      assert Encode(ss[1..]) == t[|ss[0]| + 1..] && Encode(ts[1..]) == t[|ts[0]| + 1..];
      EncodeInjective(ss[1..], ts[1..]);
      assert ss == [ss[0]] + ss[1..] && ts == [ts[0]] + ts[1..];
    }
  }

  lemma {:induction false} EncodeEmpty(ss: seq<string>)
    ensures Encode(ss) == "" <==> ss == []
  {
    if ss != [] {
      assert |Encode(ss)| == |ss[0]| + 1 + |Encode(ss[1..])|;
    }
  }

  /** The first terminator of a block ends its first string. */
  lemma {:induction false} FirstNul(ss: seq<string>)
    requires AllNulFree(ss) && ss != []
    ensures var t := Encode(ss);
            |ss[0]| < |t| && t[|ss[0]|] == NUL && forall i :: 0 <= i < |ss[0]| ==> t[i] != NUL
  {
    var t := Encode(ss);
    forall i | 0 <= i < |ss[0]| ensures t[i] != NUL {
      assert t[i] == ss[0][i];
    }
  }

  // ------------------------------------------------------------------
  // Taking it apart

  /** strlen: the length of the string that starts at a place. */
  method StringLength(t: array<char>, start: nat) returns (n: nat)
    requires exists k: nat :: start <= k < t.Length && t[k] == NUL
    ensures start + n < t.Length && t[start + n] == NUL && forall i :: start <= i < start + n ==> t[i] != NUL
  {
    ghost var k: nat :| start <= k < t.Length && t[k] == NUL;
    n := 0;
    while t[start + n] != NUL
      invariant start + n <= k && forall i :: start <= i < start + n ==> t[i] != NUL
      decreases k - n
    {
      n := n + 1;
    }
  }

  /** The receiving loop finds exactly the strings that were put in. */
  method TakeStrings(t: array<char>, num: nat, ghost ss: seq<string>) returns (found: seq<string>)
    requires t[..] == Encode(ss) && num == |ss| && AllNulFree(ss)
    ensures found == ss
  {
    found := [];
    var i, pos := 0, 0;
    assert ss[0..] == ss;
    while i < num
      invariant 0 <= i <= num && 0 <= pos <= t.Length && t[pos..] == Encode(ss[i..]) && found == ss[..i]
    {
      ghost var rest := ss[i..];
      FirstNul(rest);
      assert t[pos + |rest[0]|] == t[pos..][|rest[0]|];
      var n := StringLength(t, pos);
      LengthIs(t, pos, n, rest);
      TakeOne(t[..], pos, n, rest);
      assert rest[1..] == ss[i + 1..];
      found := found + [t[pos..pos + n]];
      pos := pos + n + 1;
      i := i + 1;
    }
  }

  /** The first string of what is left, and what is left behind it. */
  lemma {:induction false} TakeOne(t: string, pos: nat, n: nat, rest: seq<string>)
    requires pos <= |t| && rest != [] && t[pos..] == Encode(rest) && n == |rest[0]|
    ensures pos + n + 1 <= |t| && t[pos..pos + n] == rest[0] && t[pos + n + 1..] == Encode(rest[1..])
  {
    var e := t[pos..];
    assert e[..n] == rest[0] && e[n + 1..] == Encode(rest[1..]);
    assert t[pos..pos + n] == e[..n] && t[pos + n + 1..] == e[n + 1..];
  }

  lemma {:induction false} LengthIs(t: array<char>, pos: nat, n: nat, rest: seq<string>)
    requires pos + n < t.Length && t[pos + n] == NUL && (forall i :: pos <= i < pos + n ==> t[i] != NUL)
    requires rest != [] && AllNulFree(rest) && t[pos..] == Encode(rest)
    ensures n == |rest[0]|
  {
    FirstNul(rest);
    var e := t[pos..];
    assert e[n] == t[pos + n];
    assert e[|rest[0]|] == t[pos + |rest[0]|];
  }

  // ------------------------------------------------------------------
  // Building it

  class Block {
    /** The buffer, the bytes used of it with the counters, and the strings in it. */
    var env: array<char>
    var size: nat
    var num: nat
    ghost var strings: seq<string>

    ghost predicate Valid() reads this, env {
      && HEAD <= size <= env.Length
      && env[HEAD..size] == Encode(strings)
      && num == |strings|
    }

    constructor ()
      ensures Valid() && strings == [] && fresh(env)
    {
      env := new char[FIRST_ALLOC](_ => NUL);
      size, num, strings := HEAD, 0, [];
      new;
      assert env[HEAD..HEAD] == [];
    }

    /** AddEnvPair; the name comes with its equals sign. */
    method Add(name: string, value: string)
      requires Valid()
      modifies this, env
      ensures Valid() && strings == old(strings) + [name + value]
      ensures env == old(env) || fresh(env)
    {
      var len := |name| + |value| + 1;
      num := num + 1;
      strings := strings + [name + value];
      EncodeAppend(old(strings), name + value);
      AddText(name, value, len);
    }

    /** Doubles the buffer until len more bytes fit, keeping what is in it. */
    method Grow(len: nat)
      requires HEAD <= size <= env.Length
      modifies this`env
      ensures size + len <= env.Length && env[HEAD..size] == old(env[HEAD..size])
      ensures env == old(env) || fresh(env)
      ensures size + len <= old(env.Length) ==> env == old(env)
      ensures size + len > old(env.Length) ==> env.Length < 2 * (size + len)
    {
      while size + len > env.Length
        invariant HEAD <= size <= env.Length && env[HEAD..size] == old(env[HEAD..size])
        invariant env == old(env) || (fresh(env) && env.Length < 2 * (size + len) && old(env.Length) < size + len)
        decreases size + len - env.Length
      {
        ghost var was := env[HEAD..size];
        env := Reallocated(env, 2 * env.Length);
        assert env[HEAD..size] == was;
      }
    }

    /** The bytes of a string that has just been counted. */
    method AddText(name: string, value: string, len: nat)
      requires len == |name| + |value| + 1 && HEAD <= size <= env.Length
      requires num == |strings| && Encode(strings) == env[HEAD..size] + (name + value) + [NUL]
      modifies this`env, this`size, env
      ensures Valid()
      ensures env == old(env) || fresh(env)
    {
      hide Encode;
      Grow(len);
      ghost var m := env[..];
      assert m[HEAD..size] == env[HEAD..size];
      PutThree(m, HEAD, size, name, value, [NUL]);
      CopyInto(env, size, name);
      CopyInto(env, size + |name|, value);
      CopyInto(env, size + |name| + |value|, [NUL]);
      size := size + len;
      assert env[HEAD..size] == env[..][HEAD..size];
    }
  }

  lemma {:induction false} PutThree(m: string, h: nat, at: nat, a: string, b: string, c: string)
    requires h <= at && at + |a| + |b| + |c| <= |m|
    ensures var r := Overwrite(Overwrite(Overwrite(m, at, a), at + |a|, b), at + |a| + |b|, c);
            r[h..at + |a| + |b| + |c|] == m[h..at] + (a + b) + c
  {
    var m1 := Overwrite(m, at, a);
    assert m1[..at + |a|] == m[..at] + a;
    var m2 := Overwrite(m1, at + |a|, b);
    assert m2[..at + |a| + |b|] == m[..at] + a + b;
    var r := Overwrite(m2, at + |a| + |b|, c);
    var end := at + |a| + |b| + |c|;
    assert r[..end] == m[..at] + a + b + c;
    assert r[h..end] == r[..end][h..];
    assert m[..at][h..] == m[h..at];
  }

  /** realloc to a larger size. */
  method Reallocated(a: array<char>, n: nat) returns (b: array<char>)
    requires a.Length <= n
    ensures fresh(b) && b.Length == n && forall i :: 0 <= i < a.Length ==> b[i] == a[i]
  {
    b := new char[n](_ => NUL);
    var i := 0;
    while i < a.Length
      invariant 0 <= i <= a.Length && forall j :: 0 <= j < i ==> b[j] == a[j]
    {
      b[i] := a[i];
      i := i + 1;
    }
  }

  /** memcpy of a string to a place in the buffer. */
  method CopyInto(a: array<char>, at: nat, s: string)
    requires at + |s| <= a.Length
    modifies a
    ensures a[..] == Overwrite(old(a[..]), at, s)
  {
    var i := 0;
    ghost var m := a[..];
    while i < |s|
      invariant 0 <= i <= |s| && forall j :: 0 <= j < a.Length ==> a[j] == if at <= j < at + i then s[j - at] else m[j]
    {
      a[at + i] := s[i];
      i := i + 1;
    }
  }

  // ------------------------------------------------------------------
  // From one process to the other

  function Joined(pairs: seq<(string, string)>): (ss: seq<string>) {
    seq(|pairs|, i requires 0 <= i < |pairs| => pairs[i].0 + pairs[i].1)
  }

  /** What is taken out of the strings that one process builds and the other
      receives is exactly the pairs that were added. */
  method Transfer(pairs: seq<(string, string)>) returns (found: seq<string>)
    requires AllNulFree(Joined(pairs))
    ensures found == Joined(pairs)
  {
    var block := new Block();
    var i := 0;
    while i < |pairs|
      invariant 0 <= i <= |pairs| && block.Valid() && fresh(block) && fresh(block.env)
                && block.strings == Joined(pairs[..i])
    {
      block.Add(pairs[i].0, pairs[i].1);
      assert Joined(pairs[..i + 1]) == Joined(pairs[..i]) + [pairs[i].0 + pairs[i].1];
      i := i + 1;
    }
    assert pairs[..|pairs|] == pairs;
    var received := new char[block.size - HEAD](
      k requires 0 <= k < block.size - HEAD && block.size <= block.env.Length reads block, block.env =>
        block.env[HEAD + k]);
    assert received[..] == block.env[HEAD..block.size];
    found := TakeStrings(received, block.num, block.strings);
  }
}
