/** src/daemon/plugins/gsignond-plugin-proxy.c: the object that takes the steps of SessionQueue. */
module PluginProxy {
  import opened Ordering
  import opened WaitingLine
  import opened SessionQueue

  class PluginProxy {
    var sessionQueue: seq<Entry>
    var activeSession: Option<nat>
    var activeUserdata: Option<nat>
    var expectingRequest: bool
    /** The ticket of the next call of process. */
    var next: nat
    ghost var log: seq<Note>

    ghost function State(): Proxy
      reads this
    {
      Proxy(sessionQueue, activeSession, activeUserdata, expectingRequest, next, log)
    }

    ghost predicate Valid()
      reads this
    {
      Inv(State())
    }

    constructor ()
      ensures Valid() && State() == NEW_PROXY
    {
      sessionQueue, activeSession, activeUserdata, expectingRequest, next := [], None, None, false, 0;
      log := [];
      new;
      RunKeepsInv([]);
    }

    method ProcessQueue()
      modifies this
      ensures State() == SessionQueue.ProcessQueue(old(State()))
      ensures old(sessionQueue) == [] ==> State() == old(State())
      ensures old(sessionQueue) != [] ==>
                sessionQueue == old(sessionQueue)[1..] && activeSession == Some(old(sessionQueue)[0].owner) &&
                activeUserdata == Some(old(sessionQueue)[0].id) && !expectingRequest && next == old(next) &&
                log == old(log) + [Started(old(sessionQueue)[0].id)]
    {
      if sessionQueue != [] {
        var e := sessionQueue[0];
        sessionQueue := sessionQueue[1..];
        expectingRequest := false;
        activeUserdata, activeSession := Some(e.id), Some(e.owner);
        log := log + [Started(e.id)];
      }
    }

    /** gsignond_plugin_proxy_process */
    method Process(session: nat) returns (ticket: nat)
      requires Valid()
      modifies this
      ensures Valid() && ticket == old(next)
      ensures State() == Step(old(State()), Event.Process(session))
      ensures old(activeSession) == None ==>
                sessionQueue == [] && activeSession == Some(session) && activeUserdata == Some(ticket) &&
                !expectingRequest && log == old(log) + [Queued(ticket)] + [Started(ticket)]
      ensures old(activeSession) == Some(session) && old(expectingRequest) ==>
                State() == old(State()).(expecting := false, next := next,
                                         log := old(log) + [Continued(ticket, old(activeUserdata).value)])
      ensures old(activeSession).Some? && !(old(activeSession) == Some(session) && old(expectingRequest)) ==>
                State() == old(State()).(queue := old(sessionQueue) + [Entry(ticket, session)], next := next,
                                         log := old(log) + [Queued(ticket)])
      ensures next == old(next) + 1
    {
      StepKeepsInv(State(), Event.Process(session));
      ticket, next := next, next + 1;
      if activeSession == Some(session) && expectingRequest {
        expectingRequest := false;
        log := log + [Continued(ticket, activeUserdata.value)];
        return;
      }
      sessionQueue := sessionQueue + [Entry(ticket, session)];
      log := log + [Queued(ticket)];
      assert State() == Enqueue(old(State()), session);
      if activeSession == None { ProcessQueue(); }
    }

    /** gsignond_plugin_proxy_response_callback */
    method ResponseCallback()
      requires Valid()
      modifies this
      ensures Valid() && State() == Step(old(State()), Response)
      ensures old(activeSession) == None ==> State() == old(State())
      ensures old(activeSession).Some? ==>
                State() == old(State()).(expecting := true, log := old(log) + [Answered(old(activeUserdata).value)])
    {
      StepKeepsInv(State(), Response);
      if activeSession == None { return; }
      expectingRequest := true;
      log := log + [Answered(activeUserdata.value)];
    }

    /** gsignond_plugin_proxy_response_final_callback */
    method ResponseFinalCallback()
      requires Valid()
      modifies this
      ensures Valid() && State() == Step(old(State()), ResponseFinal)
      ensures old(activeSession) == None ==> State() == old(State())
      ensures old(activeSession).Some? && old(sessionQueue) == [] ==>
                State() == old(State()).(session := None, userdata := None,
                                         log := old(log) + [Finished(old(activeUserdata).value, true)])
      ensures old(activeSession).Some? && old(sessionQueue) != [] ==>
                sessionQueue == old(sessionQueue)[1..] && activeSession == Some(old(sessionQueue)[0].owner) &&
                activeUserdata == Some(old(sessionQueue)[0].id) && !expectingRequest && next == old(next) &&
                log == old(log) + [Finished(old(activeUserdata).value, true)] + [Started(old(sessionQueue)[0].id)]
    {
      StepKeepsInv(State(), ResponseFinal);
      if activeSession == None { return; }
      log := log + [Finished(activeUserdata.value, true)];
      activeSession, activeUserdata := None, None;
      ProcessQueue();
    }

    /** gsignond_plugin_proxy_error_callback */
    method ErrorCallback()
      requires Valid()
      modifies this
      ensures Valid() && State() == Step(old(State()), Error)
      ensures old(activeSession) == None ==> State() == old(State())
      ensures old(activeSession).Some? && old(sessionQueue) == [] ==>
                State() == old(State()).(session := None, userdata := None,
                                         log := old(log) + [Finished(old(activeUserdata).value, false)])
      ensures old(activeSession).Some? && old(sessionQueue) != [] ==>
                sessionQueue == old(sessionQueue)[1..] && activeSession == Some(old(sessionQueue)[0].owner) &&
                activeUserdata == Some(old(sessionQueue)[0].id) && !expectingRequest && next == old(next) &&
                log == old(log) + [Finished(old(activeUserdata).value, false)] + [Started(old(sessionQueue)[0].id)]
    {
      StepKeepsInv(State(), Error);
      if activeSession == None { return; }
      log := log + [Finished(activeUserdata.value, false)];
      activeSession, activeUserdata := None, None;
      ProcessQueue();
    }

    /** gsignond_plugin_proxy_cancel: an unknown session is told so. */
    method Cancel(session: nat) returns (known: bool)
      requires Valid()
      modifies this
      ensures Valid() && State() == Step(old(State()), Event.Cancel(session))
      ensures known <==> old(activeSession) == Some(session) ||
                         exists i :: 0 <= i < |old(sessionQueue)| && old(sessionQueue)[i].owner == session
      ensures !known ==> State() == old(State())
      ensures old(activeSession) == Some(session) ==>
                State() == old(State()).(log := old(log) + [PluginCancelled(old(activeUserdata).value)])
      ensures known && old(activeSession) != Some(session) ==>
                exists i :: 0 <= i < |old(sessionQueue)| && old(sessionQueue)[i].owner == session
                  && (forall j :: 0 <= j < i ==> old(sessionQueue)[j].owner != session)
                  && State() == old(State()).(queue := old(sessionQueue)[..i] + old(sessionQueue)[i + 1..],
                                              log := old(log) + [Removed(old(sessionQueue)[i].id)])
    {
      StepKeepsInv(State(), Event.Cancel(session));
      known := true;
      if activeSession == Some(session) {
        log := log + [PluginCancelled(activeUserdata.value)];
      } else {
        var i := Find(sessionQueue, session);
        if i == |sessionQueue| { return false; }
        log := log + [Removed(sessionQueue[i].id)];
        sessionQueue := Without(sessionQueue, i);
      }
    }
  }
}
