/** Timers: the swap-removal sweep that fires those that are due. */
module Timers {
  import opened Bytes

  datatype Timespec = Timespec(sec: int, nsec: int)

  /** `TIMESPEC_GREATER_EQUAL(now, t)`. */
  predicate AtOrAfter(now: Timespec, t: Timespec) {
    now.sec > t.sec || (now.sec == t.sec && now.nsec >= t.nsec)
  }

  datatype Timer = Timer(expires: Timespec, iptr: u32)

  predicate Due(now: Timespec, t: Timer) {
    AtOrAfter(now, t.expires)
  }

  /** Removing position `i` by moving the last timer there. */
  function SwapRemove(ts: seq<Timer>, i: nat): (r: seq<Timer>)
    requires i < |ts|
    ensures |r| == |ts| - 1
  {
    ts[i := ts[|ts| - 1]][..|ts| - 1]
  }

  /** The sweep from position `i` on: what is left, and what fired in order. */
  function Sweep(ts: seq<Timer>, i: nat, now: Timespec): (r: (seq<Timer>, seq<Timer>))
    requires i <= |ts|
    decreases |ts| - i
  {
    if i == |ts| then (ts, [])
    else if Due(now, ts[i]) then
      var (left, fired) := Sweep(SwapRemove(ts, i), i, now);
      (left, [ts[i]] + fired)
    else Sweep(ts, i + 1, now)
  }

  lemma SwapRemoveContents(ts: seq<Timer>, i: nat)
    requires i < |ts|
    ensures multiset(SwapRemove(ts, i)) + multiset{ts[i]} == multiset(ts)
  {
    var n := |ts| - 1;
    var front := ts[..n];
    assert ts == front + [ts[n]];
    if i == n {
      assert SwapRemove(ts, i) == front;
    } else {
      assert SwapRemove(ts, i) == front[i := ts[n]];
    }
  }

  /** Removing behind the front part leaves the front part. */
  lemma SwapRemoveFront(ts: seq<Timer>, i: nat)
    requires i < |ts|
    ensures forall k :: 0 <= k < i ==> SwapRemove(ts, i)[k] == ts[k]
  {}

  lemma FiredFirst(t: Timer, left: multiset<Timer>, fired: seq<Timer>, rest: multiset<Timer>)
    requires left + multiset(fired) == rest
    ensures left + multiset([t] + fired) == rest + multiset{t}
  {
    assert multiset([t] + fired) == multiset{t} + multiset(fired);
  }

  /** The clock shows `e` or a later time. */
  predicate Come(e: Timespec, now: Timespec) {
    e.sec < now.sec || (e.sec == now.sec && e.nsec <= now.nsec)
  }

  lemma DueMeansCome(now: Timespec, t: Timer)
    ensures Due(now, t) <==> Come(t.expires, now)
  {}

  /** Firing partitions the timers: nothing is lost or duplicated, and only the due ones fire. */
  lemma {:induction false} SweepPartitions(ts: seq<Timer>, i: nat, now: Timespec)
    requires i <= |ts| && forall k :: 0 <= k < i ==> !Come(ts[k].expires, now)
    ensures var (left, fired) := Sweep(ts, i, now);
            && multiset(left) + multiset(fired) == multiset(ts)
            && (forall k :: 0 <= k < |left| ==> !Come(left[k].expires, now))
            && (forall k :: 0 <= k < |fired| ==> Come(fired[k].expires, now))
    decreases |ts| - i
  {
    hide Due, Come, SwapRemove;
    if i == |ts| {
    } else if Due(now, ts[i]) {
      DueMeansCome(now, ts[i]);
      var rest := SwapRemove(ts, i);
      SwapRemoveFront(ts, i);
      SweepPartitions(rest, i, now);
      SwapRemoveContents(ts, i);
      var (left, fired) := Sweep(rest, i, now);
      FiredFirst(ts[i], multiset(left), fired, multiset(rest));
    } else {
      DueMeansCome(now, ts[i]);
      SweepPartitions(ts, i + 1, now);
    }
  }

  /** If the time of all has come, the first fires first, and then the others from the last one back. */
  lemma {:induction false} AllFireBackwards(ts: seq<Timer>, i: nat, now: Timespec)
    requires i < |ts| && forall k :: i <= k < |ts| ==> Come(ts[k].expires, now)
    ensures var (left, fired) := Sweep(ts, i, now);
            && left == ts[..i] && |fired| == |ts| - i && fired[0] == ts[i]
            && forall k :: 0 < k < |fired| ==> fired[k] == ts[|ts| - k]
    decreases |ts| - i
  {
    hide Due, Come;
    DueMeansCome(now, ts[i]);
    var rest := SwapRemove(ts, i);
    assert forall k :: i < k < |rest| ==> rest[k] == ts[k];
    if i < |rest| {
      assert rest[i] == ts[|ts| - 1];
      AllFireBackwards(rest, i, now);
      assert rest[..i] == ts[..i];
    } else {
      assert rest == ts[..i];
    }
  }
}
