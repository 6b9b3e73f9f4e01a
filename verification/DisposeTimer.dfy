/**
 The keep counter and the dispose timer of src/common/gsignond-disposable.c.  The
 set armed holds the timer sources that GLib would still run; the object itself
 knows at most one of them, by timerId.
 */
module DisposeTimer {

  datatype Timer = Timer(keep: int, timeout: nat, timerId: nat, nextSource: nat, armed: set<nat>, disposed: bool)

  const NEW_TIMER := Timer(0, 0, 0, 1, {}, false)

  /** _update_timer */
  function TimerUpdated(d: Timer): Timer {
    if d.keep == 0 then
      if d.timeout != 0 then
        d.(timerId := d.nextSource, armed := d.armed + {d.nextSource}, nextSource := d.nextSource + 1)
      else d
    else if d.timerId != 0 then d.(timerId := 0, armed := d.armed - {d.timerId})
    else d
  }

  function AutoDisposeSet(d: Timer, dispose: bool): Timer {
    if d.keep == 0 && dispose then d
    else TimerUpdated(d.(keep := if dispose then d.keep - 1 else d.keep + 1))
  }

  function TimeoutSet(d: Timer, timeout: nat): Timer {
    if d.timeout == timeout then d else TimerUpdated(d.(timeout := timeout))
  }

  /** _timer_dispose, for any source that is armed */
  function Fire(d: Timer, source: nat): Timer {
    d.(timerId := 0, armed := d.armed - {source}, disposed := true)
  }

  /** The timer is armed, once, exactly when nothing holds the object and there is a timeout. */
  predicate Sound(d: Timer) {
    && d.keep >= 0 && d.nextSource > 0 && d.timerId < d.nextSource
    && (d.timerId != 0 <==> d.keep == 0 && d.timeout != 0)
    && d.armed == (if d.timerId == 0 then {} else {d.timerId})
  }

  lemma AutoDisposeKeepsSound(d: Timer, dispose: bool)
    requires Sound(d)
    ensures Sound(AutoDisposeSet(d, dispose))
    ensures AutoDisposeSet(d, dispose).keep == if !dispose then d.keep + 1 else if d.keep == 0 then 0 else d.keep - 1
    ensures AutoDisposeSet(d, dispose).timeout == d.timeout
  {
  }

  /** Changing the timeout of an object whose timer runs leaves the old source armed. */
  lemma SetTimeoutKeepsSoundIff(d: Timer, timeout: nat)
    requires Sound(d)
    ensures Sound(TimeoutSet(d, timeout)) <==> timeout == d.timeout || d.timerId == 0
  {
    if timeout != d.timeout && d.timerId != 0 {
      var d' := TimeoutSet(d, timeout);
      assert d.timerId in d'.armed;
      if timeout != 0 { assert d.timerId != d'.timerId && d'.timerId in d'.armed; }
    }
  }

  datatype Call = Hold | Release | Timeout(timeout: nat)

  function Do(d: Timer, c: Call): Timer {
    match c
    case Hold => AutoDisposeSet(d, false)
    case Release => AutoDisposeSet(d, true)
    case Timeout(t) => TimeoutSet(d, t)
  }

  function Run(d: Timer, calls: seq<Call>): Timer {
    if calls == [] then d else Do(Run(d, calls[..|calls| - 1]), calls[|calls| - 1])
  }

  /** The holds that releases have not taken back; a release without a hold does nothing. */
  function Balance(calls: seq<Call>): nat {
    if calls == [] then 0 else
      var b := Balance(calls[..|calls| - 1]);
      match calls[|calls| - 1]
      case Hold => b + 1
      case Release => if b == 0 then 0 else b - 1
      case Timeout(_) => b
  }

  function Timeouts(calls: seq<Call>): nat {
    if calls == [] then 0 else
      Timeouts(calls[..|calls| - 1]) + if calls[|calls| - 1].Timeout? then 1 else 0
  }

  /** With the timeout set once, the timer runs exactly while the holds balance. */
  lemma {:induction false} TimerFollowsBalance(calls: seq<Call>)
    requires Timeouts(calls) <= 1
    ensures var d := Run(NEW_TIMER, calls);
            && Sound(d) && d.keep == Balance(calls) && (Timeouts(calls) == 0 ==> d.timeout == 0)
            && d.armed == (if Balance(calls) == 0 && d.timeout != 0 then {d.timerId} else {})
  {
    if calls == [] {
    } else {
      var before := calls[..|calls| - 1];
      TimerFollowsBalance(before);
      var d := Run(NEW_TIMER, before);
      match calls[|calls| - 1]
      case Hold => AutoDisposeKeepsSound(d, false);
      case Release => AutoDisposeKeepsSound(d, true);
      case Timeout(t) => SetTimeoutKeepsSoundIff(d, t);
    }
  }

  /** Two timeouts, one after the other: both timers are armed, and the object knows one. */
  lemma SecondTimeoutLeavesFirstArmed()
    ensures var d := Run(NEW_TIMER, [Timeout(5), Timeout(7)]);
            d.armed == {1, 2} && d.timerId == 2 && !Sound(d)
  {
    var calls := [Timeout(5), Timeout(7)];
    assert calls[..1] == [Timeout(5)] && calls[..1][..0] == [];
    assert Run(NEW_TIMER, calls[..1]) == Timer(0, 5, 1, 2, {1}, false);
    assert 1 in Run(NEW_TIMER, calls).armed;
  }
}
