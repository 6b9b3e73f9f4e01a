/** src/common/gsignond-disposable.c: the object. */
module Disposable {
  import opened DisposeTimer

  class Disposable {
    var keep: int
    var timeout: nat
    var timerId: nat
    var nextSource: nat
    ghost var armed: set<nat>
    ghost var disposed: bool

    ghost function State(): Timer
      reads this
    {
      Timer(keep, timeout, timerId, nextSource, armed, disposed)
    }

    constructor ()
      ensures State() == NEW_TIMER
    {
      keep, timeout, timerId, nextSource := 0, 0, 0, 1;
      armed, disposed := {}, false;
    }

    method UpdateTimer()
      modifies this
      ensures State() == TimerUpdated(old(State()))
    {
      if keep == 0 {
        if timeout != 0 {
          timerId, nextSource := nextSource, nextSource + 1;
          armed := armed + {timerId};
        }
      } else if timerId != 0 {
        armed := armed - {timerId};
        timerId := 0;
      }
    }

    method SetAutoDispose(dispose: bool)
      modifies this
      ensures State() == AutoDisposeSet(old(State()), dispose)
      ensures Sound(old(State())) ==> Sound(State())
      ensures keep == (if !dispose then old(keep) + 1 else if old(keep) == 0 then 0 else old(keep) - 1)
      ensures timeout == old(timeout) && disposed == old(disposed)
      ensures Sound(old(State())) ==> armed == if keep == 0 && timeout != 0 then {timerId} else {}
    {
      if keep == 0 && dispose { return; }
      keep := keep + if dispose then -1 else 1;
      UpdateTimer();
    }

    method SetTimeout(seconds: nat)
      modifies this
      ensures State() == TimeoutSet(old(State()), seconds)
      ensures Sound(old(State())) ==> (Sound(State()) <==> seconds == old(timeout) || old(timerId) == 0)
      ensures timeout == seconds && keep == old(keep) && disposed == old(disposed)
      ensures seconds != old(timeout) && keep == 0 && seconds != 0 ==>
                timerId == old(nextSource) && armed == old(armed) + {timerId}
      ensures keep == 0 && seconds in {0, old(timeout)} ==> timerId == old(timerId) && armed == old(armed)
    {
      if Sound(State()) { SetTimeoutKeepsSoundIff(State(), seconds); }
      if timeout == seconds { return; }
      timeout := seconds;
      UpdateTimer();
    }

    /** _timer_dispose, when the source fires */
    method TimerDispose(ghost source: nat)
      requires source in armed
      modifies this
      ensures State() == Fire(old(State()), source)
      ensures disposed && timerId == 0 && armed == old(armed) - {source}
      ensures keep == old(keep) && timeout == old(timeout) && nextSource == old(nextSource)
    {
      timerId := 0;
      armed, disposed := armed - {source}, true;
    }
  }
}
