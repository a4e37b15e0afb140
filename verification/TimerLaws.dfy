/** When a timer fires, in seconds and nanoseconds and in milliseconds from the call that made it. */
module TimerLaws {
  import opened Bytes
  import opened Decoder
  import opened Timers
  import opened Children
  import opened World
  import opened EventLaunch
  import opened SyscallLaws

  /**
   * Firing takes away every timer whose time has come and leaves all others; each event is one timer taken away. A
   * timer taken away starts its callback, if that is inside the code, and nothing else is started. A clock that
   * cannot be read counts as showing zero.
   */
  lemma FiresWhatHasCome(w: World, clock: Clock, codesz: nat, t: Timer)
    ensures var now := if clock.Now? then clock.t else Timespec(0, 0);
            var r := FireTimerEvents(w, clock, codesz);
            && multiset(r.w.timers)[t] == (if Come(t.expires, now) then 0 else multiset(w.timers)[t])
            && r.events == |w.timers| - |r.w.timers|
            && r.w.errno == (if clock.Now? then w.errno else clock.errno)
            && (t in w.timers && Come(t.expires, now) && t.iptr < codesz ==> Plain(t.iptr) in r.spawns)
    ensures var now := if clock.Now? then clock.t else Timespec(0, 0);
            forall sp :: sp in FireTimerEvents(w, clock, codesz).spawns ==>
              sp.Plain? && sp.entry < codesz
              && exists u :: u in w.timers && Come(u.expires, now) && u.iptr == sp.entry
  {
    hide Sweep, Due, Admit, Admitted, Come;
    var now := if clock.Now? then clock.t else Timespec(0, 0);
    var fired := DueTimers(w, clock);
    var r := FireTimerEvents(w, clock, codesz);
    TimersFireOnce(w, clock, codesz);
    assert |multiset(r.w.timers) + multiset(fired)| == |multiset(w.timers)|;
    if Come(t.expires, now) {
      NotAmong(r.w.timers, now, t);
    } else {
      AllCome(fired, now, t);
    }
    if t in w.timers && Come(t.expires, now) && t.iptr < codesz {
      assert t in multiset(r.w.timers) + multiset(fired);
      LaunchedOf(fired, t);
      AdmittedMembers(Launched(fired), codesz, Plain(t.iptr));
    }
    forall sp | sp in r.spawns
      ensures sp.Plain? && sp.entry < codesz
              && exists u :: u in w.timers && Come(u.expires, now) && u.iptr == sp.entry
    {
      AdmittedMembers(Launched(fired), codesz, sp);
      var k :| 0 <= k < |fired| && Launched(fired)[k] == sp;
      assert fired[k] in multiset(r.w.timers) + multiset(fired);
      assert fired[k] in w.timers;
    }
  }

  lemma NotAmong(left: seq<Timer>, now: Timespec, t: Timer)
    requires (forall k :: 0 <= k < |left| ==> !Come(left[k].expires, now)) && Come(t.expires, now)
    ensures multiset(left)[t] == 0
  {}

  lemma AllCome(fired: seq<Timer>, now: Timespec, t: Timer)
    requires (forall k :: 0 <= k < |fired| ==> Come(fired[k].expires, now)) && !Come(t.expires, now)
    ensures multiset(fired)[t] == 0
  {}

  lemma LaunchedOf(fired: seq<Timer>, t: Timer)
    requires t in fired
    ensures Plain(t.iptr) in Launched(fired)
  {
    var k :| 0 <= k < |fired| && fired[k] == t;
    assert Launched(fired)[k] == Plain(t.iptr);
  }

  /**
   * From the call to the firing: a `timeout` of `m` milliseconds at time `t` adds one timer. Firing at any later clock
   * reading `now` takes it away and starts its callback exactly when `now` has reached `t` plus `m / 1000` seconds and
   * `m % 1000` million nanoseconds, compared as they stand; otherwise the timer is still there.
   */
  lemma TimeoutFires(w: World, argv: u32, retv: u32, codesz: nat, t: Timespec, m: u64, entry: u32, w1: World,
                     later: World, now: Timespec)
    requires SysTimeout(w, argv, retv, codesz, Now(t)) == Some(w1) && |w1.timers| == |w.timers| + 1
    requires Load32(w.mem, argv) == Some(entry) && Load64(w.mem, argv + 4) == Some(m)
    requires later.timers == w1.timers
    ensures var timer := w1.timers[|w.timers|];
            var r := FireTimerEvents(later, Now(now), codesz);
            var (sec, nsec) := (t.sec + m / 1000, t.nsec + 1_000_000 * (m % 1000));
            var late := now.sec > sec || (now.sec == sec && now.nsec >= nsec);
            && w1.timers == w.timers + [timer] && timer.iptr == entry
            && multiset(r.w.timers)[timer] == (if late then 0 else multiset(w.timers)[timer] + 1)
            && (late && entry < codesz ==> Plain(entry) in r.spawns)
            && (w.timers == [] ==> r.spawns == (if late && entry < codesz then [Plain(entry)] else []))
  {
    hide SysTimeout, FireTimerEvents, Load32, Load64, Answers, DerefOk;
    TimeoutRegisters(w, argv, retv, codesz, Now(t));
    var timer := w1.timers[|w.timers|];
    assert timer == Timer(Timespec(t.sec + m / 1000, t.nsec + 1_000_000 * (m % 1000)), entry);
    FiresWhatHasCome(later, Now(now), codesz, timer);
    assert multiset(later.timers) == multiset(w.timers) + multiset{timer};
    if w.timers == [] {
      OneTimer(later, timer, Now(now), codesz);
    }
  }

  lemma OnlyAdmitted(sp: Spawn, codesz: nat)
    ensures Admitted([], codesz) == [] && Admitted([sp], codesz) == if sp.entry < codesz then [sp] else []
  {
    assert [sp][..0] == [];
  }

  lemma NothingToSweep(now: Timespec)
    ensures Sweep([], 0, now) == ([], [])
  {}

  lemma OneTimer(w: World, t: Timer, clock: Clock, codesz: nat)
    requires w.timers == [t] && clock.Now?
    ensures FireTimerEvents(w, clock, codesz).spawns
            == if Come(t.expires, clock.t) && t.iptr < codesz then [Plain(t.iptr)] else []
  {
    DueMeansCome(clock.t, t);
    var (left, fired) := Sweep([t], 0, clock.t);
    assert SwapRemove([t], 0) == [];
    NothingToSweep(clock.t);
    assert Sweep([t], 1, clock.t) == ([t], []);
    assert fired == if Due(clock.t, t) then [t] else [];
    assert Launched(fired) == if Due(clock.t, t) then [Plain(t.iptr)] else [];
    OnlyAdmitted(Plain(t.iptr), codesz);
    assert FireTimerEvents(w, clock, codesz).spawns == Admitted(Launched(fired), codesz);
  }

  /**
   * In milliseconds, both clock readings being well formed: if the nanoseconds do not carry, the timer fires exactly
   * from `m` milliseconds after the call on. If they do, the carry is missing: it fires exactly from the next full
   * second on, which is early by what the nanoseconds exceed a second.
   */
  lemma MillisecondsLater(t: Timespec, m: u64, now: Timespec)
    requires 0 <= t.nsec < 1_000_000_000 && 0 <= now.nsec < 1_000_000_000
    ensures var (sec, nsec) := (t.sec + m / 1000, t.nsec + 1_000_000 * (m % 1000));
            var late := now.sec > sec || (now.sec == sec && now.nsec >= nsec);
            var elapsed := (now.sec - t.sec) * 1_000_000_000 + now.nsec - t.nsec;
            && (elapsed >= m * 1_000_000 ==> late)
            && (nsec < 1_000_000_000 ==> (late <==> elapsed >= m * 1_000_000))
            && (nsec >= 1_000_000_000 ==> (late <==> now.sec > sec))
            && (late && elapsed < m * 1_000_000
                <==> nsec >= 1_000_000_000 && now.sec == sec + 1 && now.nsec < nsec - 1_000_000_000)
  {
    assert m == 1000 * (m / 1000) + m % 1000;
  }
}
