/**
 The dialog queue of src/daemon/gsignond-signonui-proxy.c as a state machine, and
 its properties over whole runs.  Class SignonuiProxy in SignonuiProxy.dfy is the
 object; its methods take these steps.  Callbacks do not call back into the proxy.

 Requests are numbered in the order in which they are accepted.  The log and the
 dialog that is outstanding at the UI are what an observer knows; the proxy
 itself sees neither, and matches a reply to whatever request is active.
 */
module DialogQueue {
  import opened Ordering
  import opened WaitingLine

  /** What happens when a request's turn comes: can the UI be reached, does the call go out? */
  datatype Fate = Fate(connects: bool, sends: bool)

  datatype Outcome = Replied(dialog: nat) | NoSignonui | General | Canceled

  datatype Note =
    | Queued(id: nat) | Shown(id: nat) | CancelAsked(id: nat)
    | Called(id: nat, outcome: Outcome) | Dropped(dialog: nat)

  datatype Proxy = Proxy(
    idle: bool, active: Option<Entry>, queue: seq<Entry>, timerId: nat, connected: bool,
    next: nat, nextSource: nat, armed: set<nat>, outstanding: Option<nat>, log: seq<Note>)

  const NEW_PROXY := Proxy(true, None, [], 0, false, 0, 1, {}, None, [])

  // ----------------------------------------------------------------- steps

  function Noted(s: Proxy, n: Note): Proxy { s.(log := s.log + [n]) }

  /** The end of a request: its callback, or nothing if it was cancelled. */
  function Call(s: Proxy, o: Outcome): Proxy {
    if s.active.Some? then Noted(s, Called(s.active.value.id, o)).(active := None)
    else if o.Replied? then Noted(s, Dropped(o.dialog))
    else s
  }

  /** _query_dialog_cb_internal */
  function CbInternal(s: Proxy, o: Outcome, fate: nat -> Fate): Proxy
    decreases |s.queue|, 1
  {
    ProcessNext(Call(s, o), fate)
  }

  function TurnIdle(s: Proxy): Proxy {
    s.(idle := true, active := None, timerId := s.nextSource, armed := s.armed + {s.nextSource},
       nextSource := s.nextSource + 1)
  }

  function Pop(s: Proxy): Proxy
    requires s.queue != []
  {
    s.(queue := s.queue[1..], active := Some(s.queue[0]), timerId := 0,
       armed := if s.timerId != 0 then s.armed - {s.timerId} else s.armed)
  }

  function Show(s: Proxy, id: nat): Proxy {
    Noted(s, Shown(id)).(connected := true, idle := false, outstanding := Some(id))
  }

  /** _process_next_request */
  function ProcessNext(s: Proxy, fate: nat -> Fate): Proxy
    decreases |s.queue|, 0
  {
    if s.queue == [] then TurnIdle(s) else
      var id := s.queue[0].id;
      if !s.connected && !fate(id).connects then CbInternal(Pop(s), NoSignonui, fate)
      else if !fate(id).sends then CbInternal(Pop(s).(connected := true), General, fate)
      else Show(Pop(s), id)
  }

  function Enqueue(s: Proxy, caller: nat): Proxy {
    Noted(s, Queued(s.next)).(queue := s.queue + [Entry(s.next, caller)], next := s.next + 1)
  }

  function Dequeue(s: Proxy, i: nat): Proxy
    requires i < |s.queue|
  {
    Noted(s, Called(s.queue[i].id, Canceled)).(queue := Without(s.queue, i))
  }

  predicate CancelAccepted(s: Proxy, caller: nat, sends: bool) {
    s.active.Some? && if s.active.value.owner == caller then sends else Find(s.queue, caller) < |s.queue|
  }

  datatype Event = Query(caller: nat) | Reply | Cancel(caller: nat, sends: bool) | TimerFires

  predicate Enabled(s: Proxy, e: Event) {
    match e
    case Query(_) => true
    case Reply => s.outstanding.Some?
    case Cancel(_, _) => true
    case TimerFires => s.timerId != 0
  }

  function Step(s: Proxy, e: Event, fate: nat -> Fate): Proxy
    requires Enabled(s, e)
  {
    match e
    case Query(caller) => if s.idle then ProcessNext(Enqueue(s, caller), fate) else Enqueue(s, caller)
    case Reply => CbInternal(s.(outstanding := None), Replied(s.outstanding.value), fate)
    case Cancel(caller, sends) =>
      if !CancelAccepted(s, caller, sends) then s
      else if s.active.value.owner == caller then
        Noted(s, CancelAsked(s.active.value.id)).(active := None)
      else
        Dequeue(s, Find(s.queue, caller))
    case TimerFires => s.(timerId := 0, armed := s.armed - {s.timerId}, connected := false)
  }

  /** The states that runs from the start reach; each step has its own fates. */
  function RunFrom(s: Proxy, events: seq<Event>, fates: seq<nat -> Fate>): Option<Proxy>
    requires |events| == |fates|
    decreases |events|
  {
    if events == [] then Some(s)
    else if !Enabled(s, events[0]) then None
    else RunFrom(Step(s, events[0], fates[0]), events[1..], fates[1..])
  }

  // ------------------------------------------------- the life of a request

  datatype Phase = Unborn | Waiting | Showing | Abandoned | Over | Bad

  function Advance(p: Phase, n: Note, id: nat): Phase {
    match n
    case Queued(i) => if i != id then p else if p == Unborn then Waiting else Bad
    case Shown(i) => if i != id then p else if p == Waiting then Showing else Bad
    case CancelAsked(i) => if i != id then p else if p == Showing then Abandoned else Bad
    case Called(i, Replied(d)) => if i != id then p else if p == Showing && d == id then Over else Bad
    case Called(i, _) => if i != id then p else if p == Waiting then Over else Bad
    case Dropped(d) => if d != id then p else if p == Abandoned then Over else Bad
  }

  function PhaseIn(log: seq<Note>, id: nat): Phase {
    if log == [] then Unborn else Advance(PhaseIn(log[..|log| - 1], id), log[|log| - 1], id)
  }

  /** The phase that the state implies. */
  function Where(s: Proxy, id: nat): Phase {
    if id >= s.next then Unborn
    else if InQueue(s.queue, id) then Waiting
    else if s.outstanding != Some(id) then Over
    else if s.active.Some? then Showing else Abandoned
  }

  ghost predicate Tracked(s: Proxy) {
    && (forall id :: PhaseIn(s.log, id) == Where(s, id))
    && (forall i :: 0 <= i < |s.queue| ==> s.queue[i].id < s.next)
    && Ascending(s.queue)
    && (s.outstanding.Some? ==> s.outstanding.value < s.next && !InQueue(s.queue, s.outstanding.value))
    && (s.active.Some? ==> s.outstanding == Some(s.active.value.id))
  }

  /** The requests whose turn has come, in order. */
  function Started(log: seq<Note>): seq<nat> {
    if log == [] then [] else
      var before, n := Started(log[..|log| - 1]), log[|log| - 1];
      if n.Shown? then before + [n.id]
      else if n.Called? && (n.outcome.NoSignonui? || n.outcome.General?) then before + [n.id]
      else before
  }

  ghost predicate InOrder(s: Proxy) {
    && Increasing(Started(s.log))
    && (forall i :: 0 <= i < |Started(s.log)| ==> Started(s.log)[i] < s.next)
    && (forall i, j :: 0 <= i < |Started(s.log)| && 0 <= j < |s.queue| ==> Started(s.log)[i] < s.queue[j].id)
  }

  /** The timer source that the proxy knows is the only one armed. */
  predicate TimerKnown(s: Proxy) {
    s.nextSource > 0 && s.timerId < s.nextSource && s.armed == if s.timerId == 0 then {} else {s.timerId}
  }

  ghost predicate Inv(s: Proxy) {
    && Tracked(s) && InOrder(s) && TimerKnown(s)
    && (s.idle <==> s.outstanding == None)
    && (s.idle ==> s.active == None && s.queue == [])
    && (s.timerId != 0 ==> s.idle)
    && (!s.idle ==> s.connected)
  }

  /** Between requests: nothing is active or outstanding, but the queue may hold more. */
  ghost predicate Between(s: Proxy) {
    Tracked(s) && InOrder(s) && TimerKnown(s) && s.active == None && s.outstanding == None
  }

  // ---------------------------------------------------------------- proofs

  lemma NotedPhase(log: seq<Note>, n: Note, id: nat)
    ensures PhaseIn(log + [n], id) == Advance(PhaseIn(log, id), n, id)
  {
    assert (log + [n])[..|log|] == log;
  }

  /** The phase of one request, as far as its place in the queue decides it. */
  lemma PhaseFollows(s: Proxy, n: Note, s': Proxy, id: nat)
    requires s'.log == s.log + [n] && PhaseIn(s.log, id) == Where(s, id)
    requires Advance(Where(s, id), n, id) == Where(s', id)
    ensures PhaseIn(s'.log, id) == Where(s', id)
  {
    NotedPhase(s.log, n, id);
  }

  lemma NotedStarted(log: seq<Note>, n: Note)
    ensures Started(log + [n]) ==
            if n.Shown? || (n.Called? && (n.outcome.NoSignonui? || n.outcome.General?)) then Started(log) + [n.id]
            else Started(log)
  {
    assert (log + [n])[..|log|] == log;
  }

  /** Can the UI be reached once the first n requests have had their turns? */
  ghost predicate Reached(s: Proxy, fate: nat -> Fate, n: nat)
    requires n <= |s.queue|
  {
    s.connected || exists j :: 0 <= j < n && fate(s.queue[j].id).connects
  }

  /** The first n requests fail in turn, each told why. */
  ghost predicate TurnsFail(s: Proxy, fate: nat -> Fate, n: nat, log: seq<Note>)
    requires n <= |s.queue|
  {
    && |s.log| + n <= |log| && log[..|s.log|] == s.log
    && forall i :: 0 <= i < n ==>
         && log[|s.log| + i] == Called(s.queue[i].id, if Reached(s, fate, i + 1) then General else NoSignonui)
         && !(Reached(s, fate, i + 1) && fate(s.queue[i].id).sends)
  }

  lemma ReachedLater(s: Proxy, fate: nat -> Fate, later: Proxy, n: nat)
    requires s.queue != [] && later.queue == s.queue[1..] && n < |s.queue|
    requires later.connected == (s.connected || fate(s.queue[0].id).connects)
    ensures Reached(later, fate, n) == Reached(s, fate, n + 1)
  {
    assert forall j :: 0 < j < |s.queue| ==> s.queue[j] == later.queue[j - 1];
    assert forall j :: 0 <= j < |later.queue| ==> later.queue[j] == s.queue[j + 1];
  }

  lemma TurnsFailLater(s: Proxy, fate: nat -> Fate, o: Outcome, later: Proxy, n: nat, log: seq<Note>)
    requires s.queue != [] && later.queue == s.queue[1..] && later.log == s.log + [Called(s.queue[0].id, o)]
    requires later.connected == (s.connected || fate(s.queue[0].id).connects)
    requires o == (if later.connected then General else NoSignonui)
    requires !(later.connected && fate(s.queue[0].id).sends)
    requires n < |s.queue| && TurnsFail(later, fate, n, log)
    ensures TurnsFail(s, fate, n + 1, log)
  {
    assert log[..|s.log|] == later.log[..|s.log|] == s.log;
    assert log[|s.log|] == later.log[|s.log|];
    assert Reached(s, fate, 1) == later.connected;
    forall i | 0 <= i < n + 1
      ensures log[|s.log| + i] == Called(s.queue[i].id, if Reached(s, fate, i + 1) then General else NoSignonui)
      ensures !(Reached(s, fate, i + 1) && fate(s.queue[i].id).sends)
    {
      if i > 0 {
        ReachedLater(s, fate, later, i);
        assert later.queue[i - 1] == s.queue[i];
        assert log[|later.log| + (i - 1)] == log[|s.log| + i];
      }
    }
  }

  /** After n failed turns, the next request is shown, or with none left the proxy is idle. */
  ghost predicate TurnsEnd(s: Proxy, fate: nat -> Fate, n: nat, s': Proxy)
    requires n <= |s.queue|
  {
    if n < |s.queue| then
      var e := s.queue[n];
      && Reached(s, fate, n + 1) && fate(e.id).sends
      && s' == s.(queue := s.queue[n + 1..], active := Some(e), outstanding := Some(e.id), idle := false,
                  connected := true, timerId := 0, armed := s'.armed, log := s'.log)
      && |s'.log| == |s.log| + n + 1 && s'.log[|s.log| + n] == Shown(e.id)
    else
      && s' == s.(queue := [], active := None, idle := true, connected := Reached(s, fate, n),
                  timerId := s.nextSource, nextSource := s.nextSource + 1, armed := s'.armed, log := s'.log)
      && |s'.log| == |s.log| + n && s.nextSource in s'.armed
  }

  lemma TurnsEndLater(s: Proxy, fate: nat -> Fate, later: Proxy, n: nat, s': Proxy)
    requires s.queue != [] && |later.log| == |s.log| + 1
    requires later == s.(queue := s.queue[1..], connected := later.connected, active := None, timerId := 0,
                         armed := later.armed, log := later.log)
    requires later.connected == (s.connected || fate(s.queue[0].id).connects)
    requires n < |s.queue| && TurnsEnd(later, fate, n, s')
    ensures TurnsEnd(s, fate, n + 1, s')
  {
    ReachedLater(s, fate, later, n);
    if n < |later.queue| {
      ReachedLater(s, fate, later, n + 1);
      assert later.queue[n] == s.queue[n + 1];
      assert later.queue[n + 1..] == s.queue[n + 2..];
    }
  }

  /** A request whose turn fails leaves the call to go on with the next one. */
  lemma TurnFails(s: Proxy, fate: nat -> Fate)
    requires s.queue != []
    requires !((s.connected || fate(s.queue[0].id).connects) && fate(s.queue[0].id).sends)
    ensures var reached := s.connected || fate(s.queue[0].id).connects;
            ProcessNext(s, fate) == ProcessNext(Failed(s, if reached then General else NoSignonui, reached), fate)
  {
    if !(s.connected || fate(s.queue[0].id).connects) { assert Pop(s).(connected := false) == Pop(s); }
  }

  /** One call of _process_next_request takes n turns that fail, in the order of the queue, and one that ends it. */
  lemma {:induction false} TurnsTaken(s: Proxy, fate: nat -> Fate) returns (n: nat)
    ensures n <= |s.queue|
    ensures TurnsFail(s, fate, n, ProcessNext(s, fate).log) && TurnsEnd(s, fate, n, ProcessNext(s, fate))
    decreases |s.queue|
  {
    n := 0;
    if s.queue != [] {
      var id := s.queue[0].id;
      var reached := s.connected || fate(id).connects;
      if !(reached && fate(id).sends) {
        var o := if reached then General else NoSignonui;
        var later := Failed(s, o, reached);
        TurnFails(s, fate);
        var m := TurnsTaken(later, fate);
        TurnsFailLater(s, fate, o, later, m, ProcessNext(later, fate).log);
        TurnsEndLater(s, fate, later, m, ProcessNext(later, fate));
        return m + 1;
      }
      assert Reached(s, fate, 1);
    }
  }

  /** An idle proxy takes a request up at once. */
  lemma FirstRequest(s: Proxy, caller: nat, fate: nat -> Fate)
    requires s.idle && Inv(s)
    ensures var id := s.next;
            var s', reached := Step(s, Query(caller), fate), s.connected || fate(id).connects;
            && s'.queue == [] && s'.next == id + 1
            && (reached && fate(id).sends ==>
                  !s'.idle && s'.active == Some(Entry(id, caller)) && s'.outstanding == Some(id) && s'.timerId == 0
                  && s'.log == s.log + [Queued(id)] + [Shown(id)])
            && (!(reached && fate(id).sends) ==>
                  s'.idle && s'.active == None && s'.timerId == s.nextSource
                  && s'.log == s.log + [Queued(id)] + [Called(id, if reached then General else NoSignonui)])
  {
    var q := Enqueue(s, caller);
    assert q.queue == [Entry(s.next, caller)];
    if !((s.connected || fate(s.next).connects) && fate(s.next).sends) {
      TurnFails(q, fate);
    }
  }

  /** The state after a request whose turn failed. */
  function Failed(s: Proxy, o: Outcome, connected: bool): Proxy
    requires s.queue != []
  {
    Call(Pop(s).(connected := connected), o)
  }

  lemma FailedTurn(s: Proxy, o: Outcome, connected: bool)
    requires Between(s) && s.queue != [] && (o.NoSignonui? || o.General?)
    ensures Between(Failed(s, o, connected)) && Failed(s, o, connected).timerId == 0
  {
    FailedInOrder(s, o, connected);
    FailedIsTracked(s, o, connected);
  }

  lemma FailedInOrder(s: Proxy, o: Outcome, connected: bool)
    requires Tracked(s) && InOrder(s) && s.queue != [] && (o.NoSignonui? || o.General?)
    ensures InOrder(Failed(s, o, connected))
  {
    var id := s.queue[0].id;
    NotedStarted(s.log, Called(id, o));
    NextIsLater(Started(s.log), id, s.queue[1..], s.next);
    assert Started(Failed(s, o, connected).log) == Started(s.log) + [id];
  }

  lemma FailedPhase(s: Proxy, o: Outcome, connected: bool, t: nat)
    requires s.queue != [] && (o.NoSignonui? || o.General?) && s.active == None && s.outstanding == None
    requires s.queue[0].id < s.next && PhaseIn(s.log, t) == Where(s, t)
    requires InQueue(s.queue[1..], t) <==> InQueue(s.queue, t) && t != s.queue[0].id
    ensures PhaseIn(Failed(s, o, connected).log, t) == Where(Failed(s, o, connected), t)
  {
    PhaseFollows(s, Called(s.queue[0].id, o), Failed(s, o, connected), t);
  }

  lemma FailedIsTracked(s: Proxy, o: Outcome, connected: bool)
    requires Between(s) && s.queue != [] && (o.NoSignonui? || o.General?)
    ensures Tracked(Failed(s, o, connected))
  {
    forall t: nat ensures PhaseIn(Failed(s, o, connected).log, t) == Where(Failed(s, o, connected), t) {
      HeadLeaves(s.queue, t);
      FailedPhase(s, o, connected, t);
    }
  }

  /** A request whose dialog is shown. */
  lemma ShownTurn(s: Proxy)
    requires Between(s) && s.queue != []
    ensures Inv(Show(Pop(s), s.queue[0].id))
  {
    ShownInOrder(s);
    ShownIsTracked(s);
  }

  lemma ShownInOrder(s: Proxy)
    requires Between(s) && s.queue != []
    ensures InOrder(Show(Pop(s), s.queue[0].id))
  {
    var id, s' := s.queue[0].id, Show(Pop(s), s.queue[0].id);
    NotedStarted(s.log, Shown(id));
    NextIsLater(Started(s.log), id, s.queue[1..], s.next);
    assert Started(s'.log) == Started(s.log) + [id];
  }

  lemma NextIsLater(started: seq<nat>, id: nat, queue: seq<Entry>, next: nat)
    requires Increasing(started) && id < next && forall i :: 0 <= i < |started| ==> started[i] < id
    requires forall j :: 0 <= j < |queue| ==> id < queue[j].id
    ensures Increasing(started + [id])
    ensures forall i :: 0 <= i < |started + [id]| ==> (started + [id])[i] < next
    ensures forall i, j :: 0 <= i < |started + [id]| && 0 <= j < |queue| ==> (started + [id])[i] < queue[j].id
  {
  }

  lemma ShownIsTracked(s: Proxy)
    requires Between(s) && s.queue != []
    ensures Tracked(Show(Pop(s), s.queue[0].id))
  {
    var s' := Show(Pop(s), s.queue[0].id);
    HeadLeaves(s.queue, s.queue[0].id);
    forall id ensures PhaseIn(s'.log, id) == Where(s', id) {
      HeadLeaves(s.queue, id);
      ShownPhase(s, id);
    }
  }

  lemma ShownPhase(s: Proxy, t: nat)
    requires s.queue != [] && s.active == None && s.outstanding == None
    requires s.queue[0].id < s.next && PhaseIn(s.log, t) == Where(s, t)
    requires InQueue(s.queue[1..], t) <==> InQueue(s.queue, t) && t != s.queue[0].id
    ensures PhaseIn(Show(Pop(s), s.queue[0].id).log, t) == Where(Show(Pop(s), s.queue[0].id), t)
  {
    PhaseFollows(s, Shown(s.queue[0].id), Show(Pop(s), s.queue[0].id), t);
  }

  lemma IdleTurn(s: Proxy)
    requires Between(s) && s.queue == [] && s.timerId == 0
    ensures Inv(TurnIdle(s))
  {
    forall id ensures PhaseIn(TurnIdle(s).log, id) == Where(TurnIdle(s), id) {
      assert PhaseIn(s.log, id) == Where(s, id);
    }
  }

  lemma {:induction false} ProcessNextSettles(s: Proxy, fate: nat -> Fate)
    requires Between(s) && (s.queue == [] ==> s.timerId == 0)
    ensures Inv(ProcessNext(s, fate))
    decreases |s.queue|
  {
    if s.queue == [] {
      IdleTurn(s);
    } else {
      var id := s.queue[0].id;
      if !s.connected && !fate(id).connects {
        FailedTurn(s, NoSignonui, s.connected);
        assert Failed(s, NoSignonui, s.connected) == Call(Pop(s), NoSignonui);
        ProcessNextSettles(Call(Pop(s), NoSignonui), fate);
      } else if !fate(id).sends {
        FailedTurn(s, General, true);
        ProcessNextSettles(Call(Pop(s).(connected := true), General), fate);
      } else {
        ShownTurn(s);
      }
    }
  }

  lemma EnqueueKeeps(s: Proxy, caller: nat)
    requires Tracked(s) && InOrder(s)
    ensures Tracked(Enqueue(s, caller)) && InOrder(Enqueue(s, caller))
  {
    NotedStarted(s.log, Queued(s.next));
    EnqueueIsTracked(s, caller);
  }

  lemma EnqueueIsTracked(s: Proxy, caller: nat)
    requires Tracked(s)
    ensures Tracked(Enqueue(s, caller))
  {
    forall id: nat ensures PhaseIn(Enqueue(s, caller).log, id) == Where(Enqueue(s, caller), id) {
      QueueGrows(s.queue, Entry(s.next, caller), id);
      EnqueuedPhase(s, caller, id);
    }
    if s.outstanding.Some? { QueueGrows(s.queue, Entry(s.next, caller), s.outstanding.value); }
  }

  lemma EnqueuedPhase(s: Proxy, caller: nat, t: nat)
    requires PhaseIn(s.log, t) == Where(s, t)
    requires InQueue(Enqueue(s, caller).queue, t) <==> InQueue(s.queue, t) || t == s.next
    ensures PhaseIn(Enqueue(s, caller).log, t) == Where(Enqueue(s, caller), t)
  {
    PhaseFollows(s, Queued(s.next), Enqueue(s, caller), t);
  }

  lemma ReplySettles(s: Proxy, fate: nat -> Fate)
    requires Inv(s) && s.outstanding.Some?
    ensures Inv(Step(s, Reply, fate))
  {
    AnsweredIsBetween(s);
    ProcessNextSettles(Answered(s), fate);
  }

  /** The state after the callback of a reply, before the next request. */
  function Answered(s: Proxy): Proxy
    requires s.outstanding.Some?
  {
    Call(s.(outstanding := None), Replied(s.outstanding.value))
  }

  lemma AnsweredIsBetween(s: Proxy)
    requires Inv(s) && s.outstanding.Some?
    ensures Between(Answered(s)) && Answered(s).timerId == 0
  {
    var d := s.outstanding.value;
    NotedStarted(s.log, if s.active.Some? then Called(d, Replied(d)) else Dropped(d));
    forall id: nat ensures PhaseIn(Answered(s).log, id) == Where(Answered(s), id) { AnsweredPhase(s, id); }
  }

  lemma AnsweredPhase(s: Proxy, t: nat)
    requires s.outstanding.Some? && s.outstanding.value < s.next && !InQueue(s.queue, s.outstanding.value)
    requires s.active.Some? ==> s.outstanding == Some(s.active.value.id)
    requires PhaseIn(s.log, t) == Where(s, t)
    ensures PhaseIn(Answered(s).log, t) == Where(Answered(s), t)
  {
    var d := s.outstanding.value;
    PhaseFollows(s, if s.active.Some? then Called(d, Replied(d)) else Dropped(d), Answered(s), t);
  }

  lemma CancelActiveKeeps(s: Proxy)
    requires Inv(s) && s.active.Some?
    ensures Inv(Noted(s, CancelAsked(s.active.value.id)).(active := None))
  {
    NotedStarted(s.log, CancelAsked(s.active.value.id));
    forall id: nat { CancelledPhase(s, id); }
  }

  lemma CancelledPhase(s: Proxy, t: nat)
    requires s.active.Some? && s.outstanding == Some(s.active.value.id)
    requires s.active.value.id < s.next && !InQueue(s.queue, s.active.value.id)
    requires PhaseIn(s.log, t) == Where(s, t)
    ensures var s' := Noted(s, CancelAsked(s.active.value.id)).(active := None);
            PhaseIn(s'.log, t) == Where(s', t)
  {
    PhaseFollows(s, CancelAsked(s.active.value.id), Noted(s, CancelAsked(s.active.value.id)).(active := None), t);
  }

  lemma DequeueIsTracked(s: Proxy, i: nat)
    requires Tracked(s) && i < |s.queue|
    ensures Tracked(Dequeue(s, i))
  {
    var s' := Dequeue(s, i);
    if s.outstanding.Some? { QueueShrinks(s.queue, i, s.outstanding.value); }
    InQueueIff(s.queue, s.queue[i].id);
    forall id ensures PhaseIn(s'.log, id) == Where(s', id) {
      QueueShrinks(s.queue, i, id);
      DequeuedPhase(s, i, id);
    }
  }

  lemma DequeuedPhase(s: Proxy, i: nat, t: nat)
    requires i < |s.queue| && s.queue[i].id < s.next && PhaseIn(s.log, t) == Where(s, t)
    requires InQueue(s.queue, s.queue[i].id) && s.outstanding != Some(s.queue[i].id)
    requires InQueue(Dequeue(s, i).queue, t) <==> InQueue(s.queue, t) && t != s.queue[i].id
    ensures PhaseIn(Dequeue(s, i).log, t) == Where(Dequeue(s, i), t)
  {
    PhaseFollows(s, Called(s.queue[i].id, Canceled), Dequeue(s, i), t);
  }

  lemma CancelPendingKeeps(s: Proxy, i: nat)
    requires Inv(s) && i < |s.queue|
    ensures Inv(Dequeue(s, i))
  {
    NotedStarted(s.log, Called(s.queue[i].id, Canceled));
    DequeueIsTracked(s, i);
  }

  lemma StepKeepsInv(s: Proxy, e: Event, fate: nat -> Fate)
    requires Inv(s) && Enabled(s, e)
    ensures Inv(Step(s, e, fate))
  {
    match e
    case Query(caller) =>
      EnqueueKeeps(s, caller);
      if s.idle { ProcessNextSettles(Enqueue(s, caller), fate); }
    case Reply =>
      ReplySettles(s, fate);
    case Cancel(caller, sends) =>
      if CancelAccepted(s, caller, sends) {
        if s.active.value.owner == caller {
          CancelActiveKeeps(s);
        } else {
          CancelPendingKeeps(s, Find(s.queue, caller));
        }
      }
    case TimerFires =>
      forall id ensures PhaseIn(Step(s, e, fate).log, id) == Where(Step(s, e, fate), id) {
        assert PhaseIn(s.log, id) == Where(s, id);
      }
  }

  lemma NewProxyInv()
    ensures Inv(NEW_PROXY)
  {
  }

  /** The invariant holds in every state that a run reaches. */
  lemma {:induction false} RunKeepsInv(s: Proxy, events: seq<Event>, fates: seq<nat -> Fate>)
    requires Inv(s) && |events| == |fates|
    ensures RunFrom(s, events, fates).Some? ==> Inv(RunFrom(s, events, fates).value)
    decreases |events|
  {
    if events == [] || !Enabled(s, events[0]) {
    } else {
      StepKeepsInv(s, events[0], fates[0]);
      RunKeepsInv(Step(s, events[0], fates[0]), events[1..], fates[1..]);
    }
  }

  // ------------------------------------------------ what the phases promise

  lemma {:induction false} BadStays(log: seq<Note>, more: seq<Note>, id: nat)
    requires PhaseIn(log, id) == Bad || PhaseIn(log, id) == Over
    ensures PhaseIn(log, id) == Bad ==> PhaseIn(log + more, id) == Bad
    ensures PhaseIn(log, id) == Over ==> PhaseIn(log + more, id) in {Over, Bad}
  {
    if more == [] {
      assert log + more == log;
    } else {
      var init := more[..|more| - 1];
      BadStays(log, init, id);
      NotedPhase(log + init, more[|more| - 1], id);
      assert log + more == log + init + [more[|more| - 1]];
    }
  }

  /** Each position of a log in which nothing went wrong was a proper step of its request. */
  lemma NoteWasProper(log: seq<Note>, i: nat, id: nat)
    requires i < |log| && PhaseIn(log, id) != Bad
    ensures PhaseIn(log[..i], id) != Bad && PhaseIn(log[..i + 1], id) != Bad
    ensures PhaseIn(log[..i + 1], id) == Advance(PhaseIn(log[..i], id), log[i], id)
  {
    assert log[..i + 1] == log[..i] + [log[i]];
    NotedPhase(log[..i], log[i], id);
    assert log == log[..i + 1] + log[i + 1..] && log == log[..i] + log[i..];
    if PhaseIn(log[..i + 1], id) == Bad { BadStays(log[..i + 1], log[i + 1..], id); }
    if PhaseIn(log[..i], id) == Bad { BadStays(log[..i], log[i..], id); }
  }

  /** A callback that got a dialog's reply is the one of the request that the dialog was shown for. */
  lemma RepliesAreCorrelated(s: Proxy, i: nat)
    requires Inv(s) && i < |s.log| && s.log[i].Called? && s.log[i].outcome.Replied?
    ensures s.log[i].outcome.dialog == s.log[i].id
  {
    assert PhaseIn(s.log, s.log[i].id) == Where(s, s.log[i].id);
    NoteWasProper(s.log, i, s.log[i].id);
  }

  /** A reply is dropped only for a request that was cancelled while its dialog was up. */
  lemma DroppedMeansCancelled(s: Proxy, i: nat)
    requires Inv(s) && i < |s.log| && s.log[i].Dropped?
    ensures PhaseIn(s.log[..i], s.log[i].dialog) == Abandoned
  {
    assert PhaseIn(s.log, s.log[i].dialog) == Where(s, s.log[i].dialog);
    NoteWasProper(s.log, i, s.log[i].dialog);
  }

  /** No callback runs twice, and none after its request was cancelled at the UI. */
  lemma NoCallbackTwice(s: Proxy, i: nat, j: nat)
    requires Inv(s) && i < j < |s.log| && s.log[j].Called?
    requires s.log[i].Called? || s.log[i].CancelAsked?
    ensures s.log[i].id != s.log[j].id
  {
    var id := s.log[j].id;
    if s.log[i].id == id {
      assert PhaseIn(s.log, id) == Where(s, id);
      NoteWasProper(s.log, i, id);
      NoteWasProper(s.log, j, id);
      NeverBackToLife(s.log, i + 1, j, id);
    }
  }

  lemma {:induction false} NeverBackToLife(log: seq<Note>, i: nat, j: nat, id: nat)
    requires i <= j <= |log| && PhaseIn(log[..i], id) in {Abandoned, Over}
    ensures PhaseIn(log[..j], id) in {Abandoned, Over, Bad}
    decreases j
  {
    if i == j {
    } else {
      NeverBackToLife(log, i, j - 1, id);
      assert log[..j][..j - 1] == log[..j - 1];
    }
  }

  /**
   In every state a run reaches: one dialog at most is outstanding, and idle
   means none; then nothing waits.  The close timer is armed only then, once.
   Turns come in the order of acceptance, and every accepted request is waiting,
   showing, cancelled at the UI, or over.
   */
  lemma EveryRunIsOrderly(events: seq<Event>, fates: seq<nat -> Fate>)
    requires |events| == |fates| && RunFrom(NEW_PROXY, events, fates).Some?
    ensures var s := RunFrom(NEW_PROXY, events, fates).value;
            && Inv(s)
            && (s.idle <==> s.outstanding == None) && (s.idle ==> s.queue == [])
            && (s.armed != {} ==> s.idle && s.armed == {s.timerId})
            && Increasing(Started(s.log))
            && (forall id: nat :: PhaseIn(s.log, id) == Unborn <==> id >= s.next)
            && (forall id: nat :: PhaseIn(s.log, id) != Bad)
  {
    NewProxyInv();
    RunKeepsInv(NEW_PROXY, events, fates);
    var s := RunFrom(NEW_PROXY, events, fates).value;
    assert forall id: nat :: PhaseIn(s.log, id) == Where(s, id);
  }

  /**
   In any state that a run reaches, the cancel of a caller whose request waits is
   refused exactly while the dialog that is up is one that was itself cancelled.
   */
  lemma NoCancelWhileAbandoned(s: Proxy, caller: nat, sends: bool)
    requires Inv(s) && Find(s.queue, caller) < |s.queue|
    requires s.active.Some? ==> s.active.value.owner != caller
    ensures s.outstanding.Some?
    ensures !CancelAccepted(s, caller, sends) <==> PhaseIn(s.log, s.outstanding.value) == Abandoned
  {
    assert s.queue != [];
    assert PhaseIn(s.log, s.outstanding.value) == Where(s, s.outstanding.value);
  }

  const REFUSED: seq<Event> := [Query(1), Query(2), Cancel(1, true)]
  const ANSWERED: nat -> Fate := id => Fate(true, true)

  /** A run after which the second caller's request waits and its cancel is refused. */
  lemma WaitingRequestIsRefused()
    ensures var end := RunFrom(NEW_PROXY, REFUSED, [ANSWERED, ANSWERED, ANSWERED]);
            end.Some? && Find(end.value.queue, 2) < |end.value.queue| && !CancelAccepted(end.value, 2, true)
  {
    var fates := [ANSWERED, ANSWERED, ANSWERED];
    var s1 := Step(NEW_PROXY, Query(1), ANSWERED);
    var s2 := Step(s1, Query(2), ANSWERED);
    var s3 := Step(s2, Cancel(1, true), ANSWERED);
    assert Enqueue(NEW_PROXY, 1).queue == [Entry(0, 1)];
    assert s1 == Show(Pop(Enqueue(NEW_PROXY, 1)), 0) && s1.queue == [];
    assert s2.queue == [Entry(1, 2)] && s2.active == Some(Entry(0, 1));
    assert s3.queue == [Entry(1, 2)] && s3.active == None;
    assert REFUSED[1..] == [Query(2), Cancel(1, true)] && REFUSED[1..][1..] == [Cancel(1, true)];
    assert RunFrom(s2, REFUSED[1..][1..], fates[1..][1..]) == Some(s3);
    assert RunFrom(s1, REFUSED[1..], fates[1..]) == Some(s3);
  }
}
