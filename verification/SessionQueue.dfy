/**
 The session queue of src/daemon/plugins/gsignond-plugin-proxy.c as a state
 machine, and its properties over whole runs.  Class PluginProxy in
 PluginProxy.dfy is the object; its methods take these steps.  Callbacks do not
 call back into the proxy, and the plugin answers later, not inside a request.

 Every call of process brings its own userdata, here a ticket; tickets are
 numbered in the order of the calls.  Cancelling a waiting session removes its
 first entry: the code means to, but passes the queue's link where the entry
 is expected.
 */
module SessionQueue {
  import opened Ordering
  import opened WaitingLine

  datatype Note =
    | Queued(ticket: nat)               // process put the call in the queue
    | Started(ticket: nat)              // the plugin got the initial request
    | Continued(ticket: nat, of: nat)   // the plugin got a further request, for a call already active
    | Answered(ticket: nat)             // the ready callback, after an intermediate response
    | Finished(ticket: nat, ok: bool)   // the ready callback, with the final response or an error
    | Removed(ticket: nat)              // cancelled while waiting
    | PluginCancelled(ticket: nat)      // the plugin was asked to cancel

  datatype Proxy = Proxy(queue: seq<Entry>, session: Option<nat>, userdata: Option<nat>, expecting: bool,
                         next: nat, log: seq<Note>)

  const NEW_PROXY := Proxy([], None, None, false, 0, [])

  // ----------------------------------------------------------------- steps

  function Noted(s: Proxy, n: Note): Proxy { s.(log := s.log + [n]) }

  /** gsignond_plugin_proxy_process_queue */
  function ProcessQueue(s: Proxy): Proxy {
    if s.queue == [] then s else
      var e := s.queue[0];
      Noted(s, Started(e.id)).(queue := s.queue[1..], session := Some(e.owner),
                                   userdata := Some(e.id), expecting := false)
  }

  predicate Continues(s: Proxy, session: nat) { s.session == Some(session) && s.expecting }

  function Enqueue(s: Proxy, session: nat): Proxy {
    Noted(s, Queued(s.next)).(queue := s.queue + [Entry(s.next, session)], next := s.next + 1)
  }

  function Dequeue(s: Proxy, i: nat): Proxy
    requires i < |s.queue|
  {
    Noted(s, Removed(s.queue[i].id)).(queue := Without(s.queue, i))
  }

  datatype Event = Process(session: nat) | Response | ResponseFinal | Error | Cancel(session: nat)

  /** The number that the active request's userdata stands for. */
  function Active(s: Proxy): nat { if s.userdata.Some? then s.userdata.value else 0 }

  function Finish(s: Proxy, ok: bool): Proxy {
    Noted(s, Finished(Active(s), ok)).(session := None, userdata := None)
  }

  function Step(s: Proxy, e: Event): Proxy {
    match e
    case Process(session) =>
      if Continues(s, session) then
        Noted(s, Continued(s.next, Active(s))).(expecting := false, next := s.next + 1)
      else if s.session == None then ProcessQueue(Enqueue(s, session)) else Enqueue(s, session)
    case Response =>
      if s.session == None then s else Noted(s, Answered(Active(s))).(expecting := true)
    case ResponseFinal => if s.session == None then s else ProcessQueue(Finish(s, true))
    case Error => if s.session == None then s else ProcessQueue(Finish(s, false))
    case Cancel(session) =>
      if s.session == Some(session) then Noted(s, PluginCancelled(Active(s)))
      else if Find(s.queue, session) == |s.queue| then s
      else Dequeue(s, Find(s.queue, session))
  }

  function Run(events: seq<Event>): Proxy {
    if events == [] then NEW_PROXY else Step(Run(events[..|events| - 1]), events[|events| - 1])
  }

  // --------------------------------------------------- the life of a call

  datatype Phase =
    | Unborn | Waiting | Running(answers: nat, expecting: bool) | Closed(answers: nat, ok: bool)
    | Gone | Merged | Bad

  function Advance(p: Phase, n: Note, t: nat): Phase {
    match n
    case Queued(i) => if i != t then p else if p == Unborn then Waiting else Bad
    case Started(i) => if i != t then p else if p == Waiting then Running(0, false) else Bad
    case Continued(i, of) =>
      if i == t then (if p == Unborn then Merged else Bad)
      else if of != t then p
      else if p.Running? && p.expecting then p.(expecting := false) else Bad
    case Answered(i) => if i != t then p else if p.Running? then Running(p.answers + 1, true) else Bad
    case Finished(i, ok) => if i != t then p else if p.Running? then Closed(p.answers, ok) else Bad
    case Removed(i) => if i != t then p else if p == Waiting then Gone else Bad
    case PluginCancelled(i) => if i != t then p else if p.Running? then p else Bad
  }

  function PhaseIn(log: seq<Note>, t: nat): Phase {
    if log == [] then Unborn else Advance(PhaseIn(log[..|log| - 1], t), log[|log| - 1], t)
  }

  /** Does the phase of a ticket agree with the state? */
  predicate Agrees(p: Phase, s: Proxy, t: nat) {
    if t >= s.next then p == Unborn
    else if InQueue(s.queue, t) then p == Waiting
    else if s.userdata == Some(t) then p.Running? && p.expecting == s.expecting
    else p.Closed? || p.Gone? || p.Merged?
  }

  /** How often the ready callback of a ticket has run: each time it consumes the userdata. */
  function Callbacks(log: seq<Note>, t: nat): nat {
    if log == [] then 0 else
      var n := log[|log| - 1];
      Callbacks(log[..|log| - 1], t) + if n == Answered(t) || (n.Finished? && n.ticket == t) then 1 else 0
  }

  function CallbacksIn(p: Phase): nat {
    match p
    case Running(answers, _) => answers
    case Closed(answers, _) => answers + 1
    case _ => 0
  }

  /** The calls the plugin has started, in order. */
  function StartedIn(log: seq<Note>): seq<nat> {
    if log == [] then [] else
      var before, n := StartedIn(log[..|log| - 1]), log[|log| - 1];
      if n.Started? then before + [n.ticket] else before
  }

  datatype Plugin = Free | Busy(ticket: nat) | Clash

  /** What the plugin is working on. */
  function WorkOf(log: seq<Note>): Plugin {
    if log == [] then Free else
      var w, n := WorkOf(log[..|log| - 1]), log[|log| - 1];
      match n
      case Started(t) => if w == Free then Busy(t) else Clash
      case Finished(t, _) => if w == Busy(t) then Free else Clash
      case _ => w
  }

  datatype Tally = Tally(queued: nat, finished: nat, removed: nat)

  function Count(log: seq<Note>): Tally {
    if log == [] then Tally(0, 0, 0) else
      var c, n := Count(log[..|log| - 1]), log[|log| - 1];
      match n
      case Queued(_) => c.(queued := c.queued + 1)
      case Finished(_, _) => c.(finished := c.finished + 1)
      case Removed(_) => c.(removed := c.removed + 1)
      case _ => c
  }

  ghost predicate Tracked(s: Proxy) {
    && (forall t :: Agrees(PhaseIn(s.log, t), s, t))
    && (forall i :: 0 <= i < |s.queue| ==> s.queue[i].id < s.next)
    && Ascending(s.queue)
    && (s.userdata.Some? ==> s.userdata.value < s.next && !InQueue(s.queue, s.userdata.value))
    && (s.session.Some? <==> s.userdata.Some?)
  }

  ghost predicate Ordered(s: Proxy) {
    && Increasing(StartedIn(s.log))
    && (forall i :: 0 <= i < |StartedIn(s.log)| ==> StartedIn(s.log)[i] < s.next)
    && (forall i, j :: 0 <= i < |StartedIn(s.log)| && 0 <= j < |s.queue| ==> StartedIn(s.log)[i] < s.queue[j].id)
  }

  predicate Balanced(s: Proxy) {
    && WorkOf(s.log) == (if s.userdata.Some? then Busy(s.userdata.value) else Free)
    && Count(s.log).queued ==
         Count(s.log).finished + (if s.session.Some? then 1 else 0) + |s.queue| + Count(s.log).removed
  }

  ghost predicate Between(s: Proxy) { Tracked(s) && Ordered(s) && Balanced(s) }

  ghost predicate Inv(s: Proxy) { Between(s) && (s.session == None ==> s.queue == []) }

  // ---------------------------------------------------------------- proofs

  lemma NotedLog(log: seq<Note>, n: Note, t: nat)
    ensures PhaseIn(log + [n], t) == Advance(PhaseIn(log, t), n, t)
    ensures StartedIn(log + [n]) == if n.Started? then StartedIn(log) + [n.ticket] else StartedIn(log)
  {
    assert (log + [n])[..|log|] == log;
  }

  lemma NotedBalance(log: seq<Note>, n: Note)
    ensures var w := WorkOf(log);
            WorkOf(log + [n]) == match n
              case Started(t) => if w == Free then Busy(t) else Clash
              case Finished(t, _) => if w == Busy(t) then Free else Clash
              case _ => w
    ensures var c := Count(log);
            Count(log + [n]) == match n
              case Queued(_) => c.(queued := c.queued + 1)
              case Finished(_, _) => c.(finished := c.finished + 1)
              case Removed(_) => c.(removed := c.removed + 1)
              case _ => c
  {
    assert (log + [n])[..|log|] == log;
  }

  lemma EnqueueKeeps(s: Proxy, session: nat)
    requires Between(s)
    ensures Between(Enqueue(s, session))
  {
    NotedBalance(s.log, Queued(s.next));
    NotedLog(s.log, Queued(s.next), 0);
    EnqueueIsTracked(s, session);
  }

  lemma EnqueueIsTracked(s: Proxy, session: nat)
    requires Tracked(s)
    ensures Tracked(Enqueue(s, session))
  {
    forall t: nat ensures Agrees(PhaseIn(Enqueue(s, session).log, t), Enqueue(s, session), t) {
      QueueGrows(s.queue, Entry(s.next, session), t);
      NotedLog(s.log, Queued(s.next), t);
      assert Agrees(PhaseIn(s.log, t), s, t);
    }
    if s.userdata.Some? { QueueGrows(s.queue, Entry(s.next, session), s.userdata.value); }
  }

  lemma StartPhase(s: Proxy, t: nat)
    requires Between(s) && s.session == None && s.queue != []
    ensures Agrees(PhaseIn(ProcessQueue(s).log, t), ProcessQueue(s), t)
    ensures InQueue(s.queue[1..], t) <==> InQueue(s.queue, t) && t != s.queue[0].id
  {
    assert InQueue(s.queue, s.queue[0].id);
    HeadLeaves(s.queue, t);
    NotedLog(s.log, Started(s.queue[0].id), t);
    assert Agrees(PhaseIn(s.log, t), s, t);
  }

  lemma StartIsTracked(s: Proxy)
    requires Between(s) && s.session == None && s.queue != []
    ensures Tracked(ProcessQueue(s))
  {
    forall t ensures Agrees(PhaseIn(ProcessQueue(s).log, t), ProcessQueue(s), t) { StartPhase(s, t); }
    StartPhase(s, s.queue[0].id);
  }

  lemma ProcessQueueSettles(s: Proxy)
    requires Between(s) && s.session == None
    ensures Inv(ProcessQueue(s))
  {
    if s.queue != [] {
      StartIsTracked(s);
      NotedLog(s.log, Started(s.queue[0].id), 0);
      NotedBalance(s.log, Started(s.queue[0].id));
    }
  }

  /** A note about the active call alone. */
  lemma ActivePhase(s: Proxy, n: Note, t: nat)
    requires Agrees(PhaseIn(s.log, t), s, t)
    requires s.userdata.Some? && s.userdata.value < s.next && !InQueue(s.queue, s.userdata.value)
    ensures n == Answered(Active(s)) ==> Agrees(PhaseIn(s.log + [n], t), Noted(s, n).(expecting := true), t)
    ensures n == PluginCancelled(Active(s)) ==> Agrees(PhaseIn(s.log + [n], t), Noted(s, n), t)
    ensures n.Finished? && n.ticket == Active(s) ==> Agrees(PhaseIn(s.log + [n], t), Finish(s, n.ok), t)
    ensures n == Continued(s.next, Active(s)) && s.expecting && !InQueue(s.queue, s.next) ==>
              Agrees(PhaseIn(s.log + [n], t), Noted(s, n).(expecting := false, next := s.next + 1), t)
  {
    NotedLog(s.log, n, t);
  }

  lemma AnswerKeeps(s: Proxy)
    requires Inv(s) && s.session.Some?
    ensures Inv(Noted(s, Answered(Active(s))).(expecting := true))
  {
    NotedBalance(s.log, Answered(Active(s)));
    NotedLog(s.log, Answered(Active(s)), 0);
    forall t: nat { ActivePhase(s, Answered(Active(s)), t); }
  }

  lemma PluginCancelKeeps(s: Proxy)
    requires Inv(s) && s.session.Some?
    ensures Inv(Noted(s, PluginCancelled(Active(s))))
  {
    NotedBalance(s.log, PluginCancelled(Active(s)));
    NotedLog(s.log, PluginCancelled(Active(s)), 0);
    forall t: nat { ActivePhase(s, PluginCancelled(Active(s)), t); }
  }

  lemma ContinueKeeps(s: Proxy)
    requires Inv(s) && s.session.Some? && s.expecting
    ensures Inv(Noted(s, Continued(s.next, Active(s))).(expecting := false, next := s.next + 1))
  {
    NotedBalance(s.log, Continued(s.next, Active(s)));
    NotedLog(s.log, Continued(s.next, Active(s)), 0);
    InQueueIff(s.queue, s.next);
    forall t: nat { ActivePhase(s, Continued(s.next, Active(s)), t); }
  }

  lemma FinishKeeps(s: Proxy, ok: bool)
    requires Inv(s) && s.session.Some?
    ensures Between(Finish(s, ok))
  {
    NotedBalance(s.log, Finished(Active(s), ok));
    NotedLog(s.log, Finished(Active(s), ok), 0);
    forall t: nat { ActivePhase(s, Finished(Active(s), ok), t); }
  }

  lemma DequeueKeeps(s: Proxy, i: nat)
    requires Inv(s) && i < |s.queue|
    ensures Inv(Dequeue(s, i))
  {
    NotedBalance(s.log, Removed(s.queue[i].id));
    NotedLog(s.log, Removed(s.queue[i].id), 0);
    DequeueIsTracked(s, i);
  }

  lemma DequeueIsTracked(s: Proxy, i: nat)
    requires Tracked(s) && i < |s.queue|
    ensures Tracked(Dequeue(s, i))
  {
    InQueueIff(s.queue, s.queue[i].id);
    QueueShrinks(s.queue, i, Active(s));
    forall t ensures Agrees(PhaseIn(Dequeue(s, i).log, t), Dequeue(s, i), t) {
      QueueShrinks(s.queue, i, t);
      DequeuedPhase(s, i, t);
    }
  }

  lemma DequeuedPhase(s: Proxy, i: nat, t: nat)
    requires i < |s.queue| && s.queue[i].id < s.next && Agrees(PhaseIn(s.log, t), s, t)
    requires InQueue(s.queue, s.queue[i].id) && s.userdata != Some(s.queue[i].id)
    requires InQueue(Dequeue(s, i).queue, t) <==> InQueue(s.queue, t) && t != s.queue[i].id
    ensures Agrees(PhaseIn(Dequeue(s, i).log, t), Dequeue(s, i), t)
  {
    NotedLog(s.log, Removed(s.queue[i].id), t);
  }

  lemma StepKeepsInv(s: Proxy, e: Event)
    requires Inv(s)
    ensures Inv(Step(s, e))
  {
    match e
    case Process(session) =>
      if Continues(s, session) {
        ContinueKeeps(s);
      } else {
        EnqueueKeeps(s, session);
        if s.session == None { ProcessQueueSettles(Enqueue(s, session)); }
      }
    case Response =>
      if s.session.Some? { AnswerKeeps(s); }
    case ResponseFinal =>
      if s.session.Some? {
        FinishKeeps(s, true);
        ProcessQueueSettles(Finish(s, true));
      }
    case Error =>
      if s.session.Some? {
        FinishKeeps(s, false);
        ProcessQueueSettles(Finish(s, false));
      }
    case Cancel(session) =>
      if s.session == Some(session) {
        PluginCancelKeeps(s);
      } else if Find(s.queue, session) < |s.queue| {
        DequeueKeeps(s, Find(s.queue, session));
      }
  }

  lemma {:induction false} RunKeepsInv(events: seq<Event>)
    ensures Inv(Run(events))
  {
    if events == [] {
    } else {
      RunKeepsInv(events[..|events| - 1]);
      StepKeepsInv(Run(events[..|events| - 1]), events[|events| - 1]);
    }
  }

  /** The phases count the callbacks. */
  lemma {:induction false} CallbacksCounted(log: seq<Note>, t: nat)
    requires PhaseIn(log, t) != Bad
    ensures Callbacks(log, t) == CallbacksIn(PhaseIn(log, t))
  {
    if log == [] {
    } else {
      CallbacksCounted(log[..|log| - 1], t);
    }
  }

  /**
   After any run: with nothing active nothing waits; the plugin has at most one
   initial request, and got them in the order of the calls; and accepted calls
   are finished, active, waiting or removed.
   */
  lemma EveryRunIsOrderly(events: seq<Event>)
    ensures var s := Run(events);
            && (s.session == None ==> s.queue == [])
            && WorkOf(s.log) == (if s.userdata.Some? then Busy(s.userdata.value) else Free)
            && Increasing(StartedIn(s.log))
            && Count(s.log).queued ==
                 Count(s.log).finished + (if s.session.Some? then 1 else 0) + |s.queue| + Count(s.log).removed
            && (forall t: nat :: Agrees(PhaseIn(s.log, t), s, t))
  {
    RunKeepsInv(events);
  }

  /**
   A call's ready callback runs once for each intermediate response and once at
   the end: exactly once exactly when there was no intermediate response, and
   never for a call that was removed or merged into the active one.
   */
  lemma ReadyCallbacks(events: seq<Event>, t: nat)
    ensures var s := Run(events);
            var p := PhaseIn(s.log, t);
            && Callbacks(s.log, t) == CallbacksIn(p)
            && (p.Closed? ==> (Callbacks(s.log, t) == 1 <==> p.answers == 0))
            && (p.Gone? || p.Merged? ==> Callbacks(s.log, t) == 0)
  {
    RunKeepsInv(events);
    var s := Run(events);
    assert Agrees(PhaseIn(s.log, t), s, t);
    CallbacksCounted(s.log, t);
  }

  lemma CallbackNoted(log: seq<Note>, n: Note, t: nat)
    ensures Callbacks(log + [n], t) ==
            Callbacks(log, t) + if n == Answered(t) || (n.Finished? && n.ticket == t) then 1 else 0
  {
    assert (log + [n])[..|log|] == log;
  }

  const CONTINUED: seq<Event> := [Process(7), Response, Process(7), ResponseFinal]

  lemma ContinuedRun()
    ensures Run(CONTINUED).log == [Queued(0)] + [Started(0)] + [Answered(0)] + [Continued(1, 0)] + [Finished(0, true)]
  {
    var e := CONTINUED;
    assert e[..3][..2] == e[..2] && e[..2][..1] == e[..1] && e[..1][..0] == [];
    var s1, s2, s3 := Run(e[..1]), Run(e[..2]), Run(e[..3]);
    assert e[..1] == [Process(7)] && Run(e[..1][..0]) == NEW_PROXY;
    assert s1 == Step(NEW_PROXY, Process(7)) == ProcessQueue(Enqueue(NEW_PROXY, 7));
    assert Enqueue(NEW_PROXY, 7) == Proxy([Entry(0, 7)], None, None, false, 1, [Queued(0)]);
    assert s1 == Proxy([], Some(7), Some(0), false, 1, [Queued(0)] + [Started(0)]);
    assert s2 == s1.(expecting := true, log := s1.log + [Answered(0)]);
    assert s3 == s2.(expecting := false, next := 2, log := s2.log + [Continued(1, 0)]);
    assert Run(e) == Step(s3, ResponseFinal);
  }

  /** A call that continues an active one gets no answer, and the first call's callback runs twice. */
  lemma IntermediateResponseUsesUserdataTwice()
    ensures Callbacks(Run(CONTINUED).log, 0) == 2 && Callbacks(Run(CONTINUED).log, 1) == 0
  {
    ContinuedRun();
    var log := [Queued(0)] + [Started(0)];
    forall t: nat ensures Callbacks(log, t) == 0 {
      CallbackNoted([Queued(0)], Started(0), t);
      CallbackNoted([], Queued(0), t);
      assert [] + [Queued(0)] == [Queued(0)];
    }
    forall t: nat ensures Callbacks(Run(CONTINUED).log, t) == if t == 0 then 2 else 0 {
      CallbackNoted(log, Answered(0), t);
      CallbackNoted(log + [Answered(0)], Continued(1, 0), t);
      CallbackNoted(log + [Answered(0)] + [Continued(1, 0)], Finished(0, true), t);
    }
  }
}
