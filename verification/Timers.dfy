/** Flash's connection timers: how many are pending in each second modulo 512,
    so that the table of connections is scanned only when one may be due. */
module Timers {
  import opened Lists

  const MAX_HOP := 512

  /** How many of the connections have a pending timer in bucket k; 0 is no timer. */
  function Pending(exp: seq<int>, k: nat): (n: nat) {
    if exp == [] then 0 else OneIf(InBucket(exp[0], k)) + Pending(exp[1..], k)
  }

  predicate InBucket(e: int, k: nat) { e != 0 && e % MAX_HOP == k }

  lemma {:induction false} PendingSet(exp: seq<int>, c: nat, e: int, k: nat)
    requires c < |exp|
    ensures Pending(exp[c := e], k) == Pending(exp, k) - OneIf(InBucket(exp[c], k)) + OneIf(InBucket(e, k))
  {
    if c == 0 {
      assert exp[c := e][1..] == exp[1..];
    } else {
      assert exp[c := e][1..] == exp[1..][c - 1 := e];
      PendingSet(exp[1..], c - 1, e, k);
    }
  }

  lemma {:induction false} PendingMember(exp: seq<int>, c: nat)
    requires c < |exp| && exp[c] != 0
    ensures Pending(exp, exp[c] % MAX_HOP) > 0
  {
    PendingSet(exp, c, 0, exp[c] % MAX_HOP);
  }

  lemma {:induction false} NonePending(exp: seq<int>, k: nat)
    requires forall c :: 0 <= c < |exp| ==> exp[c] == 0
    ensures Pending(exp, k) == 0
  {
    if exp != [] {
      NonePending(exp[1..], k);
    }
  }

  /** The buckets count the pending timers. */
  ghost predicate Counts(active: seq<int>, exp: seq<int>) {
    |active| == MAX_HOP && forall k :: 0 <= k < MAX_HOP ==> active[k] == Pending(exp, k)
  }

  /** Every pending timer is later than the last check. */
  ghost predicate After(exp: seq<int>, last: int) {
    forall c :: 0 <= c < |exp| && exp[c] != 0 ==> exp[c] > last
  }

  /** No bucket between two times has a timer: then no timer is due. */
  lemma {:induction false} SkipMissesNothing(active: seq<int>, exp: seq<int>, last: int, now: int)
    requires Counts(active, exp) && After(exp, last)
    requires forall t :: last <= t <= now ==> active[t % MAX_HOP] == 0
    ensures After(exp, now)
  {
    forall c | 0 <= c < |exp| && exp[c] != 0 ensures exp[c] > now {
      PendingMember(exp, c);
      assert active[exp[c] % MAX_HOP] > 0;
    }
  }

  /** What an expire function does: the clock may move on, and the timer is
      cleared or, with seconds, set again. */
  datatype Expire = Expire(elapsed: nat, seconds: nat)

  /** The clock when a pass over the connections has come to place c. */
  function ClockAt(exp: seq<int>, acts: seq<Expire>, now: int, c: nat): (t: int)
    requires c <= |exp| == |acts|
    ensures now <= t
  {
    if c == 0 then now
    else
      var t := ClockAt(exp, acts, now, c - 1);
      if 0 != exp[c - 1] <= t then t + acts[c - 1].elapsed else t
  }

  /** The pass finds the timer due: it is pending, and not later than the clock by then. */
  predicate Fires(exp: seq<int>, acts: seq<Expire>, now: int, c: nat)
    requires c < |exp| == |acts|
  {
    0 != exp[c] <= ClockAt(exp, acts, now, c)
  }

  /** The timer at place c after the pass. */
  function TimerAfter(exp: seq<int>, acts: seq<Expire>, now: int, c: nat): (e: int)
    requires c < |exp| == |acts|
  {
    if !Fires(exp, acts, now, c) then exp[c]
    else if acts[c].seconds == 0 then 0
    else ClockAt(exp, acts, now, c + 1) + acts[c].seconds
  }

  ghost predicate Ascending(l: seq<nat>) { forall i, j :: 0 <= i < j < |l| ==> l[i] < l[j] }

  /** A pass has come to place k: the timers that fired are those it found due,
      each fired once and in the order of the connections, and the timers and the
      clock are as the pass left them. */
  ghost predicate PassedTo(exp: seq<int>, acts: seq<Expire>, now: int, k: nat, fired: seq<nat>, exp': seq<int>,
                           now': int)
    requires k <= |exp| == |acts|
  {
    && Ascending(fired) && (forall c: nat :: c in fired <==> c < k && Fires(exp, acts, now, c))
    && |exp'| == |exp| && (forall c :: 0 <= c < k ==> exp'[c] == TimerAfter(exp, acts, now, c)) && exp'[k..] == exp[k..]
    && now' == ClockAt(exp, acts, now, k)
  }

  /** The pass has been over all connections. */
  ghost predicate Passed(exp: seq<int>, acts: seq<Expire>, now: int, fired: seq<nat>, exp': seq<int>, now': int)
    requires |exp| == |acts|
  {
    PassedTo(exp, acts, now, |exp|, fired, exp', now')
  }

  lemma {:induction false} PassStarts(exp: seq<int>, acts: seq<Expire>, now: int)
    requires |exp| == |acts|
    ensures PassedTo(exp, acts, now, 0, [], exp, now)
  {
  }

  /** The pass leaves alone a timer that is not due. */
  lemma {:induction false} PassesBy(exp: seq<int>, acts: seq<Expire>, now: int, k: nat, fired: seq<nat>,
                                    exp': seq<int>, now': int)
    requires k < |exp| == |acts| && PassedTo(exp, acts, now, k, fired, exp', now') && !(0 != exp'[k] <= now')
    ensures PassedTo(exp, acts, now, k + 1, fired, exp', now')
  {
    assert exp'[k] == exp'[k..][0] == exp[k];
    assert exp'[k + 1..] == exp'[k..][1..] && exp[k + 1..] == exp[k..][1..];
  }

  /** The pass fires a timer that is due. */
  lemma {:induction false} PassFires(exp: seq<int>, acts: seq<Expire>, now: int, k: nat, fired: seq<nat>,
                                     exp': seq<int>, now': int)
    requires k < |exp| == |acts| && PassedTo(exp, acts, now, k, fired, exp', now') && 0 != exp'[k] <= now'
    ensures var t := now' + acts[k].elapsed;
            var e := if acts[k].seconds == 0 then 0 else t + acts[k].seconds;
            PassedTo(exp, acts, now, k + 1, fired + [k], exp'[k := e], t)
  {
    assert exp'[k] == exp'[k..][0] == exp[k];
    var t := now' + acts[k].elapsed;
    var e := if acts[k].seconds == 0 then 0 else t + acts[k].seconds;
    assert ClockAt(exp, acts, now, k + 1) == t && TimerAfter(exp, acts, now, k) == e;
    assert exp'[k := e][k + 1..] == exp'[k..][1..] && exp[k + 1..] == exp[k..][1..];
    forall i | 0 <= i < |fired| ensures fired[i] < k {
      assert fired[i] in fired;
    }
  }

  /** Places without a timer may be left out. */
  lemma {:induction false} RestPassed(exp: seq<int>, acts: seq<Expire>, now: int, k: nat, fired: seq<nat>,
                                      exp': seq<int>, now': int)
    requires k <= |exp| == |acts| && PassedTo(exp, acts, now, k, fired, exp', now')
    requires forall c :: k <= c < |exp'| ==> exp'[c] == 0 || exp'[c] > now'
    ensures Passed(exp, acts, now, fired, exp', now')
    decreases |exp| - k
  {
    hide PassedTo;
    if k < |exp| {
      assert |exp'| == |exp| by { Shape(exp, acts, now, k, fired, exp', now'); }
      PassesBy(exp, acts, now, k, fired, exp', now');
      RestPassed(exp, acts, now, k + 1, fired, exp', now');
    }
  }

  lemma {:induction false} Shape(exp: seq<int>, acts: seq<Expire>, now: int, k: nat, fired: seq<nat>, exp': seq<int>,
                                 now': int)
    requires k <= |exp| == |acts| && PassedTo(exp, acts, now, k, fired, exp', now')
    ensures |exp'| == |exp| && now <= now'
  {
  }

  /** When nothing is due, a pass would do nothing. */
  lemma {:induction false} NoneDue(exp: seq<int>, acts: seq<Expire>, now: int)
    requires |exp| == |acts| && After(exp, now)
    ensures Passed(exp, acts, now, [], exp, now)
  {
    hide PassedTo;
    PassStarts(exp, acts, now);
    RestPassed(exp, acts, now, 0, [], exp, now);
  }

  /** What a pass means for one connection: it fires if its timer was due when the
      pass began, and only if it was due when the pass ended; fired, the timer is
      off or set so many seconds past the time it had run to, and not fired it
      stays as it was.  The clock moves on by what the fired functions took. */
  lemma {:induction false} PassMeans(exp: seq<int>, acts: seq<Expire>, now: int, fired: seq<nat>, exp': seq<int>,
                                     now': int, c: nat)
    requires c < |exp| == |acts| && Passed(exp, acts, now, fired, exp', now')
    ensures |exp'| == |exp| && now <= now' && now' == now + Taken(acts, fired)
    ensures 0 != exp[c] <= now ==> c in fired
    ensures c in fired ==> 0 != exp[c] <= now'
    ensures c !in fired ==> exp'[c] == exp[c]
    ensures c in fired && acts[c].seconds == 0 ==> exp'[c] == 0
    ensures c in fired && acts[c].seconds > 0 ==> now + acts[c].seconds <= exp'[c] <= now' + acts[c].seconds
  {
    ClockGrows(exp, acts, now, c, |exp|);
    ClockGrows(exp, acts, now, 0, c);
    if Fires(exp, acts, now, c) {
      ClockGrows(exp, acts, now, c + 1, |exp|);
    }
    assert exp'[c] == TimerAfter(exp, acts, now, c);
    ClockSums(exp, acts, now, |exp|, fired);
  }

  /** What the functions of these connections took. */
  function Taken(acts: seq<Expire>, fired: seq<nat>): (t: nat) {
    if fired == [] then 0
    else Taken(acts, fired[..|fired| - 1]) + (var c := fired[|fired| - 1]; if c < |acts| then acts[c].elapsed else 0)
  }

  lemma {:induction false} ClockGrows(exp: seq<int>, acts: seq<Expire>, now: int, c: nat, d: nat)
    requires c <= d <= |exp| == |acts|
    ensures ClockAt(exp, acts, now, c) <= ClockAt(exp, acts, now, d)
    decreases d
  {
    if c < d {
      ClockGrows(exp, acts, now, c, d - 1);
    }
  }

  lemma {:induction false} ClockSums(exp: seq<int>, acts: seq<Expire>, now: int, k: nat, fired: seq<nat>)
    requires k <= |exp| == |acts| && Ascending(fired)
    requires forall c: nat :: c in fired <==> c < k && Fires(exp, acts, now, c)
    ensures ClockAt(exp, acts, now, k) == now + Taken(acts, fired)
    decreases k
  {
    assert fired != [] ==> fired[0] in fired;
    if k > 0 {
      var n := |fired|;
      if Fires(exp, acts, now, k - 1) {
        assert k - 1 in fired;
        LastIs(fired, k - 1);
        ClockSums(exp, acts, now, k - 1, fired[..n - 1]);
      } else {
        ClockSums(exp, acts, now, k - 1, fired);
      }
    }
  }

  /** The largest of an ascending list is its last. */
  lemma {:induction false} LastIs(l: seq<nat>, m: nat)
    requires Ascending(l) && m in l && forall c :: c in l ==> c <= m
    ensures l != [] && l[|l| - 1] == m && Ascending(l[..|l| - 1])
    ensures forall c :: c in l[..|l| - 1] <==> c in l && c != m
  {
    var i :| 0 <= i < |l| && l[i] == m;
    assert l[|l| - 1] in l;
    assert i == |l| - 1;
    forall c | c in l && c != m ensures c in l[..|l| - 1] {
      var j :| 0 <= j < |l| && l[j] == c;
      assert l[..|l| - 1][j] == c;
    }
  }

  /** After a pass every timer is later than the time at which it began. */
  lemma {:induction false} PassedAfter(exp: seq<int>, acts: seq<Expire>, now: int, fired: seq<nat>, exp': seq<int>,
                                       now': int)
    requires |exp| == |acts| && now >= 0 && Passed(exp, acts, now, fired, exp', now')
    ensures After(exp', now)
  {
    forall c | 0 <= c < |exp'| && exp'[c] != 0 ensures exp'[c] > now {
      assert exp'[c] == TimerAfter(exp, acts, now, c);
    }
  }

  class Table {
    /** Expiration times of the connections, of which the first have been allocated. */
    const expiration: array<int>
    var ready: nat
    const numActive: array<int>
    var lastCheck: int
    var now: int

    ghost predicate Counted() reads this, expiration, numActive {
      && expiration != numActive && Counts(numActive[..], expiration[..])
      && ready <= expiration.Length && forall c :: ready <= c < expiration.Length ==> expiration[c] == 0
    }

    /** Between checks the clock has not gone back and is past zero. */
    ghost predicate Valid() reads this, expiration, numActive {
      Counted() && After(expiration[..], lastCheck) && 0 <= lastCheck <= now
    }

    constructor (connections: nat, time: nat)
      ensures Valid() && ready == 0 && fresh(expiration) && fresh(numActive) && expiration.Length == connections
      ensures lastCheck == now == time && forall c :: 0 <= c < connections ==> expiration[c] == 0
    {
      expiration := new int[connections](i => 0);
      numActive := new int[MAX_HOP](i => 0);
      lastCheck, now, ready := time, time, 0;
      new;
      forall k: nat ensures Pending(expiration[..], k) == 0 {
        NonePending(expiration[..], k);
      }
    }

    /** The entries of so many more connections are allocated, and have no timers. */
    method Allocate(numEntries: nat)
      requires Valid() && ready + numEntries <= expiration.Length
      modifies this`ready
      ensures Valid() && ready == old(ready) + numEntries
      ensures forall c :: old(ready) <= c < ready ==> expiration[c] == 0
    {
      ready := ready + numEntries;
    }

    method ClearTimer(c: nat)
      requires Counted() && c < ready
      modifies expiration, numActive
      ensures Counted() && expiration[..] == old(expiration[..])[c := 0]
    {
      ghost var exp, act := expiration[..], numActive[..];
      if expiration[c] != 0 {
        numActive[expiration[c] % MAX_HOP] := numActive[expiration[c] % MAX_HOP] - 1;
      }
      expiration[c] := 0;
      assert expiration[..] == exp[c := 0];
      forall k | 0 <= k < MAX_HOP ensures numActive[k] == Pending(exp[c := 0], k) {
        PendingSet(exp, c, 0, k);
      }
    }

    /** Sets a timer; false is the source's exit on a bad number of seconds. */
    method SetTimer(c: nat, numSecs: int) returns (ok: bool)
      requires Counted() && c < ready && now >= 0
      modifies expiration, numActive
      ensures ok <==> 1 <= numSecs < MAX_HOP
      ensures Counted() && expiration[..] == if ok then old(expiration[..])[c := now + numSecs] else old(expiration[..])
    {
      if numSecs < 1 || numSecs >= MAX_HOP {
        return false;
      }
      ghost var exp := expiration[..];
      var expTime, newTime := expiration[c], now + numSecs;
      if expTime == newTime {
        return true;
      }
      if expTime != 0 {
        numActive[expTime % MAX_HOP] := numActive[expTime % MAX_HOP] - 1;
      }
      expiration[c] := newTime;
      numActive[newTime % MAX_HOP] := numActive[newTime % MAX_HOP] + 1;
      assert expiration[..] == exp[c := newTime];
      forall k | 0 <= k < MAX_HOP ensures numActive[k] == Pending(exp[c := newTime], k) {
        PendingSet(exp, c, newTime, k);
      }
      return true;
    }

    /** Runs the expire function of every connection whose timer is due; acts
        says what the functions do. Whether or not the buckets let it skip the
        pass over the connections, the effect is that of the pass. */
    method CheckTimers(acts: seq<Expire>) returns (fired: seq<nat>)
      requires Valid() && |acts| == expiration.Length
      requires forall c :: 0 <= c < |acts| ==> acts[c].seconds < MAX_HOP
      modifies this`lastCheck, this`now, expiration, numActive
      ensures Valid() && lastCheck == old(now) <= now
      ensures Passed(old(expiration[..]), acts, old(now), fired, expiration[..], now)
    {
      fired := [];
      if lastCheck == now {
        NoneDue(expiration[..], acts, now);
        return;
      }
      var i := lastCheck;
      lastCheck := now;
      while i <= now
        invariant old(lastCheck) <= i && forall t :: old(lastCheck) <= t < i ==> numActive[t % MAX_HOP] == 0
        invariant expiration[..] == old(expiration[..]) && numActive[..] == old(numActive[..])
        invariant now == old(now) && lastCheck == old(now)
      {
        if numActive[i % MAX_HOP] != 0 {
          fired := ScanConnections(acts);
          return;
        }
        i := i + 1;
      }
      SkipMissesNothing(numActive[..], expiration[..], old(lastCheck), now);
      NoneDue(expiration[..], acts, now);
    }

    /** The expire function of a connection: time passes, and it clears its timer or sets it again. */
    method RunExpire(c: nat, act: Expire)
      requires Counted() && c < ready && now >= 0 && act.seconds < MAX_HOP
      modifies this`now, expiration, numActive
      ensures Counted() && now == old(now) + act.elapsed
      ensures expiration[..] == old(expiration[..])[c := if act.seconds == 0 then 0 else now + act.seconds]
    {
      now := now + act.elapsed;
      if act.seconds == 0 {
        ClearTimer(c);
      } else {
        var _ := SetTimer(c, act.seconds);
      }
    }

    /** Checks the connections up to the first that has not been allocated. */
    method ScanConnections(acts: seq<Expire>) returns (fired: seq<nat>)
      requires Counted() && |acts| == expiration.Length && lastCheck == now >= 0
      requires forall c :: 0 <= c < |acts| ==> acts[c].seconds < MAX_HOP
      modifies this`now, expiration, numActive
      ensures Valid() && old(now) <= now
      ensures Passed(old(expiration[..]), acts, old(now), fired, expiration[..], now)
    {
      hide PassedTo, Counts;
      fired := [];
      ghost var exp := expiration[..];
      PassStarts(exp, acts, now);
      var conn := 0;
      while conn < expiration.Length && conn < ready
        invariant 0 <= conn <= expiration.Length && lastCheck == old(now) <= now && Counted() && ready == old(ready)
        invariant PassedTo(exp, acts, old(now), conn, fired, expiration[..], now)
      {
        if expiration[conn] != 0 && expiration[conn] <= now {
          PassFires(exp, acts, old(now), conn, fired, expiration[..], now);
          fired := fired + [conn];
          RunExpire(conn, acts[conn]);
        } else {
          PassesBy(exp, acts, old(now), conn, fired, expiration[..], now);
        }
        conn := conn + 1;
      }
      RestPassed(exp, acts, old(now), conn, fired, expiration[..], now);
      PassedAfter(exp, acts, old(now), fired, expiration[..], now);
    }
  }
}
