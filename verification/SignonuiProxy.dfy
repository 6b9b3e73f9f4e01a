/** src/daemon/gsignond-signonui-proxy.c: the object that takes the steps of DialogQueue. */
module SignonuiProxy {
  import opened Ordering
  import opened WaitingLine
  import opened DialogQueue

  class SignonuiProxy {
    var idle: bool
    var active: Option<Entry>
    var queue: seq<Entry>
    var timerId: nat
    var connected: bool
    /** The number of the next request, and the next id GLib gives to a timer. */
    var next: nat
    var nextSource: nat
    ghost var armed: set<nat>
    ghost var outstanding: Option<nat>
    ghost var log: seq<Note>

    ghost function State(): Proxy
      reads this
    {
      Proxy(idle, active, queue, timerId, connected, next, nextSource, armed, outstanding, log)
    }

    ghost predicate Valid()
      reads this
    {
      Inv(State())
    }

    constructor ()
      ensures Valid() && State() == NEW_PROXY
    {
      idle, active, queue, timerId, connected, next, nextSource := true, None, [], 0, false, 0, 1;
      armed, outstanding, log := {}, None, [];
      new;
      NewProxyInv();
    }

    method ProcessNextRequest(fate: nat -> Fate)
      modifies this
      ensures State() == ProcessNext(old(State()), fate)
      decreases |queue|, 0
    {
      if queue == [] {
        idle, active := true, None;
        timerId, nextSource := nextSource, nextSource + 1;
        armed := armed + {timerId};
        return;
      }
      var request := queue[0];
      queue := queue[1..];
      active := Some(request);
      if timerId != 0 {
        armed := armed - {timerId};
        timerId := 0;
      }
      assert State() == Pop(old(State()));
      if !connected {
        connected := fate(request.id).connects;
      }
      if !connected {
        QueryDialogCbInternal(NoSignonui, fate);
        return;
      }
      if !fate(request.id).sends {
        QueryDialogCbInternal(General, fate);
        return;
      }
      outstanding, log := Some(request.id), log + [Shown(request.id)];
      idle := false;
    }

    /** The outcome is what the callback is given; the dialog a reply belongs to is not visible here. */
    method QueryDialogCbInternal(ghost outcome: Outcome, fate: nat -> Fate)
      modifies this
      ensures State() == CbInternal(old(State()), outcome, fate)
      ensures old(active).Some? ==>
                State() == ProcessNext(old(State()).(active := None,
                                                     log := old(log) + [Called(old(active).value.id, outcome)]), fate)
      ensures old(active) == None && outcome.Replied? ==>
                State() == ProcessNext(old(State()).(log := old(log) + [Dropped(outcome.dialog)]), fate)
      decreases |queue|, 1
    {
      var request := active;
      active := None;
      if request.Some? {
        log := log + [Called(request.value.id, outcome)];
      } else if outcome.Replied? {
        log := log + [Dropped(outcome.dialog)];
      }
      ProcessNextRequest(fate);
    }

    /** gsignond_signonui_proxy_query_dialog */
    method QueryDialog(caller: nat, fate: nat -> Fate)
      requires Valid()
      modifies this
      ensures Valid() && State() == Step(old(State()), Query(caller), fate)
      ensures !old(idle) ==>
                State() == old(State()).(queue := old(queue) + [Entry(old(next), caller)], next := old(next) + 1,
                                         log := old(log) + [Queued(old(next))])
    {
      StepKeepsInv(State(), Query(caller), fate);
      log := log + [Queued(next)];
      queue := queue + [Entry(next, caller)];
      next := next + 1;
      if idle { ProcessNextRequest(fate); }
    }

    /** The UI answers the dialog that is outstanding. */
    method QueryDialogCb(fate: nat -> Fate)
      requires Valid() && outstanding.Some?
      modifies this
      ensures Valid() && State() == Step(old(State()), Reply, fate)
      ensures old(active).Some? ==>
                var d := old(active).value.id;
                State() == ProcessNext(old(State()).(outstanding := None, active := None,
                                                     log := old(log) + [Called(d, Replied(d))]), fate)
      ensures old(active) == None ==>
                State() == ProcessNext(old(State()).(outstanding := None,
                                                     log := old(log) + [Dropped(old(outstanding).value)]), fate)
    {
      StepKeepsInv(State(), Reply, fate);
      ghost var dialog := outstanding.value;
      outstanding := None;
      QueryDialogCbInternal(Replied(dialog), fate);
    }

    /** gsignond_signonui_proxy_cancel_request */
    method CancelRequest(caller: nat, sends: bool, ghost fate: nat -> Fate) returns (ok: bool)
      requires Valid()
      modifies this
      ensures Valid() && State() == Step(old(State()), Cancel(caller, sends), fate)
      ensures ok == CancelAccepted(old(State()), caller, sends)
      ensures ok <==> old(active).Some? &&
                      if old(active).value.owner == caller then sends
                      else exists i :: 0 <= i < |old(queue)| && old(queue)[i].owner == caller
      ensures !ok ==> State() == old(State())
      ensures ok && old(active).value.owner == caller ==>
                State() == old(State()).(active := None, log := old(log) + [CancelAsked(old(active).value.id)])
      ensures ok && old(active).value.owner != caller ==>
                exists i :: 0 <= i < |old(queue)| && old(queue)[i].owner == caller
                  && (forall j :: 0 <= j < i ==> old(queue)[j].owner != caller)
                  && State() == old(State()).(queue := old(queue)[..i] + old(queue)[i + 1..],
                                              log := old(log) + [Called(old(queue)[i].id, Canceled)])
    {
      StepKeepsInv(State(), Cancel(caller, sends), fate);
      if active == None { return false; }
      if active.value.owner == caller {
        if !sends { return false; }
        log := log + [CancelAsked(active.value.id)];
        active := None;
        return true;
      }
      var i := Find(queue, caller);
      if i == |queue| { return false; }
      var request := queue[i];
      queue := Without(queue, i);
      log := log + [Called(request.id, Canceled)];
      return true;
    }

    /** _close_ui_connection, when the armed timer fires */
    method CloseUiConnection(ghost fate: nat -> Fate)
      requires Valid() && timerId != 0
      modifies this
      ensures Valid() && State() == Step(old(State()), TimerFires, fate)
      ensures State() == old(State()).(timerId := 0, armed := {}, connected := false)
    {
      StepKeepsInv(State(), TimerFires, fate);
      armed := armed - {timerId};
      timerId := 0;
      connected := false;
    }
  }
}
