/** ControllerClientImpl's use of subscription sockets: one is kept by a weak pointer and shared, a
    handle keeps its socket alive, and the destructor of a socket runs some time after its last
    handle let go. */
module ControllerClient {
  import opened Json
  import opened Text
  import S = Subscription

  /** A socket: everything that happened to it, the subscriptions whose handles hold it, and whether
      its destructor has closed it. */
  datatype Stream = Stream(history: seq<S.Action>, holders: set<string>, destroyed: bool)

  /** `cached` is where the weak pointer points, or -1. */
  datatype Client = Client(streams: seq<Stream>, cached: int)

  datatype Action =
    /** `between` happens to the socket after it was found open (or connected) and before the start;
        `order` is that of the notices if the new socket is given up. */
    | Execute(start: S.Action, connects: bool, between: seq<S.Action>, order: seq<string>)
    /** SetProxy or SetUnixEndpoint */
    | SetEndpoint(between: seq<S.Action>, order: seq<string>)
    | Background(stream: nat, step: S.Action)
    | StopHandle(stream: nat, id: string, write: S.Write)
    | DropHandle(stream: nat, id: string)
    | Destroy(stream: nat, order: seq<string>)

  const INITIAL := Client([], -1)

  predicate Open(s: Stream) {
    S.Run(s.history).open
  }

  predicate Valid(c: Client) {
    -1 <= c.cached < |c.streams|
  }

  /** The weak pointer locks and the socket is open. */
  predicate Reusable(c: Client)
    requires Valid(c)
  {
    c.cached >= 0 && c.streams[c.cached].holders != {} && Open(c.streams[c.cached])
  }

  predicate Throws(history: seq<S.Action>, start: S.Action) {
    S.Run(history).open && start.StartSubscription? && start.write.Fails?
  }

  function Put(c: Client, i: nat, s: Stream): Client
    requires i < |c.streams|
  {
    c.(streams := c.streams[i := s])
  }

  function Next(c: Client, a: Action): (r: Client)
    requires Valid(c) && Fits(c, a)
    ensures Valid(r)
  {
    match a
    case Execute(start, connects, between, order) =>
      if Reusable(c) then
        var s := c.streams[c.cached];
        var history := s.history + between;
        var holders := if Throws(history, start) then s.holders else s.holders + {start.id};
        Put(c, c.cached, Stream(history + [start], holders, s.destroyed))
      else if !connects then c
      else if Throws(between, start) then
        c.(streams := c.streams + [Stream(between + [start] + [S.StopAllSubscriptions(order)], {}, true)])
      else Client(c.streams + [Stream(between + [start], {start.id}, false)], |c.streams|)
    case SetEndpoint(between, order) =>
      if Reusable(c) then
        var s := c.streams[c.cached];
        Put(c, c.cached, s.(history := s.history + between + [S.StopAllSubscriptions(order)])).(cached := -1)
      else c
    case Background(i, step) =>
      Put(c, i, c.streams[i].(history := c.streams[i].history + [step]))
    case StopHandle(i, id, write) =>
      Put(c, i, c.streams[i].(history := c.streams[i].history + [S.StopSubscription(id, write)]))
    case DropHandle(i, id) =>
      Put(c, i, c.streams[i].(holders := c.streams[i].holders - {id}))
    case Destroy(i, order) =>
      Put(c, i, c.streams[i].(history := c.streams[i].history + [S.StopAllSubscriptions(order)], destroyed := true))
  }

  predicate Fits(c: Client, a: Action) {
    match a
    case Execute(start, _, _, _) => start.StartSubscription?
    case SetEndpoint(_, _) => true
    case Background(i, _) => i < |c.streams|
    case StopHandle(i, _, _) => i < |c.streams|
    case DropHandle(i, _) => i < |c.streams|
    case Destroy(i, _) => i < |c.streams|
  }

  /** What the background thread, the peer and other handles do to a socket. */
  predicate FromOutside(a: S.Action) {
    !a.StartSubscription? && !a.StopAllSubscriptions?
  }

  predicate AllFromOutside(actions: seq<S.Action>) {
    forall k | 0 <= k < |actions| :: FromOutside(actions[k])
  }

  /** Only a handle stops a subscription, and the handle holds the socket while it does. */
  predicate StopsHeld(actions: seq<S.Action>, holders: set<string>) {
    forall k | 0 <= k < |actions| && actions[k].StopSubscription? :: actions[k].id in holders
  }

  function HoldersToReuse(c: Client): set<string>
    requires Valid(c)
  {
    if Reusable(c) then c.streams[c.cached].holders else {}
  }

  ghost predicate Histories(c: Client) {
    forall i | 0 <= i < |c.streams| :: S.IsRun(c.streams[i].history)
  }

  ghost predicate UsedNowhere(c: Client, id: string) {
    forall i | 0 <= i < |c.streams| :: !S.Started(c.streams[i].history, id)
  }

  /** A handle is released by stopping its subscription and then letting go of the socket. */
  ghost predicate Enabled(c: Client, a: Action)
    requires Valid(c)
  {
    && Fits(c, a)
    && Histories(Next(c, a))
    && match a
       case Execute(start, _, between, _) =>
         AllFromOutside(between) && StopsHeld(between, HoldersToReuse(c)) && UsedNowhere(c, start.id)
       case SetEndpoint(between, _) => AllFromOutside(between) && StopsHeld(between, HoldersToReuse(c))
       case Background(_, step) => FromOutside(step) && !step.StopSubscription?
       case StopHandle(i, id, _) => id in c.streams[i].holders
       case DropHandle(i, id) =>
         && id in c.streams[i].holders
         && StoppedAfterStart(c.streams[i].history, id)
       case Destroy(i, _) => c.streams[i].holders == {} && !c.streams[i].destroyed
  }

  predicate StoppedAfterStart(history: seq<S.Action>, id: string) {
    exists j, k :: 0 <= j < k < |history| && S.Starts(history[j], id) && S.Stops(history[k], id)
  }

  function Front(actions: seq<Action>): seq<Action>
    requires actions != []
  {
    actions[..|actions| - 1]
  }

  function Last(actions: seq<Action>): Action
    requires actions != []
  {
    actions[|actions| - 1]
  }

  ghost predicate IsRun(actions: seq<Action>) {
    actions == [] || (IsRun(Front(actions)) && Enabled(State(Front(actions)), Last(actions)))
  }

  ghost function State(actions: seq<Action>): (c: Client)
    ensures Valid(c)
  {
    if actions == [] then INITIAL
    else
      var c := State(Front(actions));
      if Fits(c, Last(actions)) then Next(c, Last(actions)) else c
  }

  // ----- Sockets close for good -----

  lemma LongerHistory(history: seq<S.Action>, more: seq<S.Action>)
    ensures S.Run(history + more).open ==> S.Run(history).open
  {
    assert (history + more)[..|history|] == history;
    if !S.Run(history).open {
      S.NeverReopens(history + more, |history|);
    }
  }

  lemma ClosedAtEnd(history: seq<S.Action>, order: seq<string>)
    ensures !S.Run(history + [S.StopAllSubscriptions(order)]).open
  {
    assert S.Front(history + [S.StopAllSubscriptions(order)]) == history;
  }

  /** What every step keeps: a socket that a handle holds and that is open is the cached one, and a
      socket whose destructor ran is closed and held by nobody. */
  ghost predicate Inv(c: Client) {
    && Valid(c)
    && Histories(c)
    && (forall i | 0 <= i < |c.streams| :: c.streams[i].holders != {} && Open(c.streams[i]) ==> i == c.cached)
    && (forall i | 0 <= i < |c.streams| :: c.streams[i].destroyed ==> c.streams[i].holders == {} && !Open(c.streams[i]))
  }

  /** Going on with a socket that nobody else takes hold of, and that is not reopened. */
  lemma PutKeepsInv(c: Client, i: nat, t: Stream)
    requires Inv(c) && i < |c.streams| && S.IsRun(t.history)
    requires t.holders <= c.streams[i].holders && (Open(t) ==> Open(c.streams[i]))
    requires t.destroyed ==> t.holders == {} && !Open(t)
    ensures Inv(Put(c, i, t))
  {
  }

  lemma ExecuteKeepsInv(c: Client, a: Action)
    requires Inv(c) && Enabled(c, a) && a.Execute?
    ensures Inv(Next(c, a))
  {
    if Reusable(c) {
      var h := c.streams[c.cached].history;
      LongerHistory(h, a.between);
      LongerHistory(h + a.between, [a.start]);
    } else if a.connects {
      ClosedAtEnd(a.between + [a.start], a.order);
    }
  }

  /** A step on an existing socket adds to its history and may only take holders away, except that a
      reused socket gains the new handle. */
  lemma StepKeepsInv(c: Client, a: Action)
    requires Inv(c) && Enabled(c, a)
    ensures Inv(Next(c, a))
  {
    match a
    case Execute(_, _, _, _) => ExecuteKeepsInv(c, a);
    case SetEndpoint(between, order) =>
      if Reusable(c) {
        ClosedAtEnd(c.streams[c.cached].history + between, order);
      }
    case Background(i, step) =>
      LongerHistory(c.streams[i].history, [step]);
      PutKeepsInv(c, i, Next(c, a).streams[i]);
    case StopHandle(i, id, write) =>
      LongerHistory(c.streams[i].history, [S.StopSubscription(id, write)]);
      PutKeepsInv(c, i, Next(c, a).streams[i]);
    case DropHandle(i, id) =>
      PutKeepsInv(c, i, Next(c, a).streams[i]);
    case Destroy(i, order) =>
      ClosedAtEnd(c.streams[i].history, order);
      PutKeepsInv(c, i, Next(c, a).streams[i]);
  }

  /** In every reachable state. */
  lemma {:induction false} HeldAndOpenIsCached(actions: seq<Action>)
    requires IsRun(actions)
    ensures Inv(State(actions))
    decreases |actions|
  {
    if actions != [] {
      HeldAndOpenIsCached(Front(actions));
      StepKeepsInv(State(Front(actions)), Last(actions));
    }
  }

  // ----- How many sockets are open -----

  /** No handle holds the socket any more, but its destructor has not closed it yet. */
  predicate AwaitsDestructor(s: Stream) {
    s.holders == {} && !s.destroyed
  }

  ghost predicate OnlyCachedIsOpen(c: Client) {
    forall i | 0 <= i < |c.streams| :: Open(c.streams[i]) ==> i == c.cached
  }

  /** The cached socket is the only open one exactly when no other open socket awaits its destructor. */
  lemma OnlyCachedIsOpenIff(actions: seq<Action>)
    requires IsRun(actions)
    ensures var c := State(actions);
            OnlyCachedIsOpen(c) <==>
            forall i | 0 <= i < |c.streams| && i != c.cached :: AwaitsDestructor(c.streams[i]) ==> !Open(c.streams[i])
  {
    HeldAndOpenIsCached(actions);
  }

  /** The step that leaves a second socket open: a new one is cached in place of one that is open but
      that no handle holds any more. */
  predicate Crowds(c: Client, a: Action)
    requires Valid(c)
  {
    && a.Execute? && !Reusable(c) && a.connects
    && c.cached >= 0 && Open(c.streams[c.cached])
    && !Throws(a.between, a.start)
  }

  /** A step keeps the cached socket the only open one exactly unless it is of that kind. */
  lemma OneOpenUnlessCrowded(c: Client, a: Action)
    requires Inv(c) && Enabled(c, a) && OnlyCachedIsOpen(c)
    ensures OnlyCachedIsOpen(Next(c, a)) <==> !Crowds(c, a)
  {
    match a
    case Execute(start, connects, between, order) =>
      if Reusable(c) {
        var h := c.streams[c.cached].history;
        LongerHistory(h, between);
        LongerHistory(h + between, [start]);
      } else if connects {
        ClosedAtEnd(between + [start], order);
        if Crowds(c, a) {
          assert Open(Next(c, a).streams[c.cached]);
        }
      }
    case SetEndpoint(between, order) =>
      if Reusable(c) {
        ClosedAtEnd(c.streams[c.cached].history + between, order);
      }
    case Background(i, step) => LongerHistory(c.streams[i].history, [step]);
    case StopHandle(i, id, write) => LongerHistory(c.streams[i].history, [S.StopSubscription(id, write)]);
    case DropHandle(i, id) =>
    case Destroy(i, order) => ClosedAtEnd(c.streams[i].history, order);
  }

  ghost predicate NeverCrowds(actions: seq<Action>)
  {
    actions == [] || (NeverCrowds(Front(actions)) && !Crowds(State(Front(actions)), Last(actions)))
  }

  /** In a run without such a step at most one socket is ever open, the cached one. */
  lemma {:induction false} OneOpenInUncrowdedRun(actions: seq<Action>)
    requires IsRun(actions) && NeverCrowds(actions)
    ensures OnlyCachedIsOpen(State(actions))
    decreases |actions|
  {
    if actions != [] {
      OneOpenInUncrowdedRun(Front(actions));
      HeldAndOpenIsCached(Front(actions));
      OneOpenUnlessCrowded(State(Front(actions)), Last(actions));
    }
  }

  /** After SetProxy or SetUnixEndpoint the open sockets are those that await their destructors. */
  lemma EndpointClosesHeldSockets(actions: seq<Action>)
    requires IsRun(actions) && actions != [] && Last(actions).SetEndpoint?
    ensures var c := State(actions);
            !Reusable(c) &&
            forall i | 0 <= i < |c.streams| && Open(c.streams[i]) :: AwaitsDestructor(c.streams[i])
  {
    var c := State(Front(actions));
    HeldAndOpenIsCached(Front(actions));
    HeldAndOpenIsCached(actions);
    if Reusable(c) {
      ClosedAtEnd(c.streams[c.cached].history + Last(actions).between, Last(actions).order);
    }
  }

  // ----- Who hears of it -----

  /** What the callback `h` of subscription `id` is called with when its socket is closed. */
  function ClosedCalls(id: string, h: S.Handler): seq<S.Call> {
    if h.NoFunction? then []
    else
      var text := "The WebSocket stream was gracefully closed at both endpoints";
      [S.Call(id, h.target, Array([Object([Member("message", String(text))])]), Null)]
  }

  /** From history `h` to history `t` every callback of the table is called once, to say that the
      socket is closed, and nobody else is. */
  ghost predicate AllHear(h: seq<S.Action>, t: seq<S.Action>) {
    forall id ::
      S.CallsFor(S.Run(t).calls, id) == S.CallsFor(S.Run(h).calls, id) +
        if id in S.Run(h).handlers then ClosedCalls(id, S.Run(h).handlers[id]) else []
  }

  lemma ClosingIsHeard(h: seq<S.Action>, order: seq<string>)
    requires S.IsRun(h + [S.StopAllSubscriptions(order)])
    ensures AllHear(h, h + [S.StopAllSubscriptions(order)])
  {
    forall id
      ensures S.CallsFor(S.Run(h + [S.StopAllSubscriptions(order)]).calls, id) == S.CallsFor(S.Run(h).calls, id) +
                if id in S.Run(h).handlers then ClosedCalls(id, S.Run(h).handlers[id]) else []
    {
      S.EndCallsEveryCallback(h, S.StopAllSubscriptions(order), id);
    }
  }

  /** SetProxy and SetUnixEndpoint tell every callback of the socket they close, and change nothing when
      there is none to close. */
  lemma EndpointIsHeard(actions: seq<Action>)
    requires IsRun(actions) && actions != [] && Last(actions).SetEndpoint?
    ensures var (c, d, between) := (State(Front(actions)), State(actions), Last(actions).between);
            if !Reusable(c) then d == c
            else
              && |d.streams| == |c.streams|
              && AllHear(c.streams[c.cached].history + between, d.streams[c.cached].history)
              && forall i | 0 <= i < |c.streams| && i != c.cached :: d.streams[i] == c.streams[i]
  {
    var (c, a) := (State(Front(actions)), Last(actions));
    if Reusable(c) {
      assert S.IsRun(Next(c, a).streams[c.cached].history);
      ClosingIsHeard(c.streams[c.cached].history + a.between, a.order);
    }
  }

  /** The destructor of a socket tells every callback that is still in its table. */
  lemma DestructorIsHeard(actions: seq<Action>)
    requires IsRun(actions) && actions != [] && Last(actions).Destroy?
    ensures var (c, d, i) := (State(Front(actions)), State(actions), Last(actions).stream);
            i < |c.streams| == |d.streams| && AllHear(c.streams[i].history, d.streams[i].history)
  {
    var (c, a) := (State(Front(actions)), Last(actions));
    assert S.IsRun(Next(c, a).streams[a.stream].history);
    ClosingIsHeard(c.streams[a.stream].history, a.order);
  }

  /** A subscription that connects anew and whose start message cannot be sent: the callback hears that
      the socket is closed before the caller gets the exception, and no socket is cached for it. */
  lemma FailedStartIsHeard(actions: seq<Action>)
    requires IsRun(actions) && actions != [] && Last(actions).Execute? && Last(actions).connects
    requires !Reusable(State(Front(actions))) && Throws(Last(actions).between, Last(actions).start)
    ensures var (c, d, a) := (State(Front(actions)), State(actions), Last(actions));
            && |d.streams| == |c.streams| + 1 && d.cached == c.cached
            && AllHear(a.between + [a.start], d.streams[|c.streams|].history)
            && a.start.id in S.Run(a.between + [a.start]).handlers
            && S.Run(a.between + [a.start]).handlers[a.start.id] == a.start.handler
  {
    var (c, a) := (State(Front(actions)), Last(actions));
    assert S.IsRun(Next(c, a).streams[|c.streams|].history);
    ClosingIsHeard(a.between + [a.start], a.order);
    S.RunOnce(a.between, a.start);
  }

  /** A subscription that is not given up: its callback is in the table of the socket it shares or
      connects, its start message was handed to that socket if it was open, its handle holds it, and
      that socket is the cached one. Nothing happens to the others. */
  lemma SubscriptionIsStarted(actions: seq<Action>)
    requires IsRun(actions) && actions != [] && Last(actions).Execute?
    requires var (c, a) := (State(Front(actions)), Last(actions));
             if Reusable(c) then !Throws(c.streams[c.cached].history + a.between, a.start)
             else a.connects && !Throws(a.between, a.start)
    ensures var (c, d, a) := (State(Front(actions)), State(actions), Last(actions));
            var i := if Reusable(c) then c.cached else |c.streams|;
            var before := if Reusable(c) then c.streams[i].history + a.between else a.between;
            && |d.streams| == (if Reusable(c) then |c.streams| else |c.streams| + 1) && d.cached == i
            && IsStarted(a.start, before, d.streams[i])
            && d.streams[i].holders == (if Reusable(c) then c.streams[i].holders else {}) + {a.start.id}
            && forall k | 0 <= k < |c.streams| && k != i :: d.streams[k] == c.streams[k]
  {
    var (c, a) := (State(Front(actions)), Last(actions));
    var i := if Reusable(c) then c.cached else |c.streams|;
    StartIs(a.start, if Reusable(c) then c.streams[i].history + a.between else a.between, State(actions).streams[i]);
  }

  /** A subscription that does not connect changes nothing. One whose start message cannot be sent on a
      reused socket leaves its callback in the table there, and neither a handle nor another socket. */
  lemma SubscriptionFails(actions: seq<Action>)
    requires IsRun(actions) && actions != [] && Last(actions).Execute?
    ensures var (c, d, a) := (State(Front(actions)), State(actions), Last(actions));
            if Reusable(c) then
              Throws(c.streams[c.cached].history + a.between, a.start) ==>
                && d.cached == c.cached && |d.streams| == |c.streams|
                && d.streams[c.cached].holders == c.streams[c.cached].holders
                && IsStarted(a.start, c.streams[c.cached].history + a.between, d.streams[c.cached])
                && forall k | 0 <= k < |c.streams| && k != c.cached :: d.streams[k] == c.streams[k]
            else
              !a.connects ==> d == c
  {
    var (c, a) := (State(Front(actions)), Last(actions));
    if Reusable(c) {
      StartIs(a.start, c.streams[c.cached].history + a.between, State(actions).streams[c.cached]);
    }
  }

  lemma StartIs(start: S.Action, before: seq<S.Action>, s: Stream)
    requires start.StartSubscription? && s.history == before + [start]
    ensures IsStarted(start, before, s)
  {
    S.RunOnce(before, start);
  }

  /** Letting go of a handle stops its subscription: the callback is out of the table and has not been
      called, and the stop message was handed to the socket if that was open. */
  lemma HandleStops(actions: seq<Action>)
    requires IsRun(actions) && actions != [] && Last(actions).StopHandle?
    ensures var (c, d, a) := (State(Front(actions)), State(actions), Last(actions));
            && a.stream < |c.streams| == |d.streams|
            && var (h, t) := (S.Run(c.streams[a.stream].history), S.Run(d.streams[a.stream].history));
            && t.handlers == h.handlers - {a.id} && t.calls == h.calls
            && t.sent == h.sent + if h.open && a.id in h.handlers then [S.StopMessage(a.id)] else []
  {
    var (c, a) := (State(Front(actions)), Last(actions));
    S.RunOnce(c.streams[a.stream].history, S.StopSubscription(a.id, a.write));
  }

  /** From `before` on the subscription joined the socket, and nothing else happened to it. */
  ghost predicate IsStarted(start: S.Action, before: seq<S.Action>, s: Stream)
    requires start.StartSubscription?
  {
    var (h, t) := (S.Run(before), S.Run(s.history));
    && t.handlers == h.handlers[start.id := start.handler] && t.calls == h.calls
    && t.sent == h.sent +
         if h.open then [S.StartMessage(start.id, UpToNul(start.operationName), UpToNul(start.query), start.variables)]
         else []
  }

  /** A call of SetProxy or SetUnixEndpoint leaves no socket open exactly when no open socket awaits its
      destructor before it. */
  lemma EndpointClosesAllIff(c: Client, a: Action)
    requires Inv(c) && Enabled(c, a) && a.SetEndpoint?
    ensures NoneOpen(Next(c, a)) <==> NoneAwaited(c)
  {
    if Reusable(c) {
      EndpointClosesCached(c, a);
    }
  }

  lemma EndpointClosesCached(c: Client, a: Action)
    requires Valid(c) && a.SetEndpoint? && Reusable(c)
    ensures var d := Next(c, a);
            |d.streams| == |c.streams| && !Open(d.streams[c.cached]) &&
            forall i | 0 <= i < |c.streams| && i != c.cached :: d.streams[i] == c.streams[i]
  {
    ClosedAtEnd(c.streams[c.cached].history + a.between, a.order);
  }

  ghost predicate NoneOpen(c: Client) {
    forall i | 0 <= i < |c.streams| :: !Open(c.streams[i])
  }

  ghost predicate NoneAwaited(c: Client) {
    forall i | 0 <= i < |c.streams| :: AwaitsDestructor(c.streams[i]) ==> !Open(c.streams[i])
  }

  /** The same in every run. */
  lemma EndpointInRun(actions: seq<Action>)
    requires IsRun(actions) && actions != [] && Last(actions).SetEndpoint?
    ensures NoneOpen(State(actions)) <==> NoneAwaited(State(Front(actions)))
  {
    HeldAndOpenIsCached(Front(actions));
    EndpointClosesAllIff(State(Front(actions)), Last(actions));
  }

  /** A socket that is not held and open never gets another subscription. */
  lemma NoNewStart(c: Client, a: Action, i: nat)
    requires Inv(c) && Enabled(c, a) && i < |c.streams| && (c.streams[i].holders == {} || !Open(c.streams[i]))
    ensures i < |Next(c, a).streams|
    ensures var (s, t) := (c.streams[i], Next(c, a).streams[i]);
            t.holders <= s.holders && (t.holders == {} || !Open(t)) &&
            forall id :: S.Started(t.history, id) <==> S.Started(s.history, id)
  {
    match a
    case Execute(start, connects, between, order) =>
    case SetEndpoint(between, order) =>
    case Background(j, step) =>
      LongerHistory(c.streams[j].history, [step]);
      SameStarts(c.streams[j].history, step);
    case StopHandle(j, id, write) =>
      LongerHistory(c.streams[j].history, [S.StopSubscription(id, write)]);
      SameStarts(c.streams[j].history, S.StopSubscription(id, write));
    case DropHandle(j, id) =>
    case Destroy(j, order) =>
      ClosedAtEnd(c.streams[j].history, order);
      SameStarts(c.streams[j].history, S.StopAllSubscriptions(order));
  }

  lemma SameStarts(history: seq<S.Action>, step: S.Action)
    requires !step.StartSubscription?
    ensures forall id :: S.Started(history + [step], id) <==> S.Started(history, id)
  {
    forall id ensures S.Started(history + [step], id) <==> S.Started(history, id) {
      if S.Started(history, id) {
        var j :| 0 <= j < |history| && S.Starts(history[j], id);
        assert S.Starts((history + [step])[j], id);
      }
    }
  }

  /** Later subscriptions never share a socket with those from before SetProxy or SetUnixEndpoint:
      whatever happens afterwards, no socket of that time gets a subscription or a handle more. */
  lemma {:induction false} EndpointsDoNotShareSockets(actions: seq<Action>, k: nat, i: nat)
    requires IsRun(actions) && k < |actions| && actions[k].SetEndpoint? && i < |State(actions[..k + 1]).streams|
    ensures IsRun(actions[..k + 1]) && i < |State(actions).streams|
    ensures var (past, now) := (State(actions[..k + 1]).streams[i], State(actions).streams[i]);
            now.holders <= past.holders && (now.holders == {} || !Open(now)) &&
            forall id :: S.Started(now.history, id) <==> S.Started(past.history, id)
    decreases |actions|
  {
    HeldAndOpenIsCached(actions);
    if k == |actions| - 1 {
      assert actions[..k + 1] == actions;
      EndpointClosesHeldSockets(actions);
    } else {
      var front := Front(actions);
      assert front[..k + 1] == actions[..k + 1];
      EndpointsDoNotShareSockets(front, k, i);
      HeldAndOpenIsCached(front);
      NoNewStart(State(front), Last(actions), i);
    }
  }

  // ----- Destroyed sockets and callbacks left behind -----

  /** The destructor has returned: it closed the socket and waited for the background thread, which runs
      until no read is outstanding. */
  predicate Destructed(s: Stream) {
    s.destroyed && S.Run(s.history).pending == 0
  }

  lemma EnabledLast(history: seq<S.Action>, step: S.Action)
    requires S.IsRun(history + [step])
    ensures S.Enabled(S.Run(history), step) && S.Run(history + [step]) == S.Step(S.Run(history), step)
  {
    assert S.Front(history + [step]) == history && S.Last(history + [step]) == step;
  }

  /** No step calls a callback of a socket whose destructor has returned. */
  lemma NothingCalledOnDestructed(c: Client, a: Action, i: nat)
    requires Inv(c) && Enabled(c, a) && i < |c.streams| && Destructed(c.streams[i])
    ensures i < |Next(c, a).streams|
    ensures Destructed(Next(c, a).streams[i])
    ensures S.Run(Next(c, a).streams[i].history).calls == S.Run(c.streams[i].history).calls
  {
    if a.Background? && a.stream == i {
      var h := c.streams[i].history;
      assert Next(c, a).streams[i].history == h + [a.step];
      EnabledLast(h, a.step);
    }
  }

  lemma {:induction false} DestructedIsSilent(actions: seq<Action>, k: nat, i: nat)
    requires IsRun(actions) && k <= |actions| && i < |State(actions[..k]).streams|
    requires Destructed(State(actions[..k]).streams[i])
    ensures i < |State(actions).streams| && Destructed(State(actions).streams[i])
    ensures S.Run(State(actions).streams[i].history).calls == S.Run(State(actions[..k]).streams[i].history).calls
    decreases |actions|
  {
    if k == |actions| {
      assert actions[..k] == actions;
    } else {
      var front := Front(actions);
      assert front[..k] == actions[..k];
      DestructedIsSilent(front, k, i);
      HeldAndOpenIsCached(front);
      NothingCalledOnDestructed(State(front), Last(actions), i);
    }
  }

  /** The write of the start message of `id` failed, so no handle was made for it. */
  ghost predicate StartThrew(history: seq<S.Action>, id: string) {
    exists j: nat :: ThrewAt(history, id, j)
  }

  predicate ThrewAt(history: seq<S.Action>, id: string, j: nat) {
    j < |history| && S.Starts(history[j], id) && Throws(history[..j], history[j])
  }

  function Table(s: Stream): map<string, S.Handler> {
    S.Run(s.history).handlers
  }

  /** Whoever is in the table of a socket has a handle, or its start threw; whoever has a handle was
      started, and the start did not throw. */
  ghost predicate Accounted(s: Stream) {
    && (forall id :: id in Table(s) ==> id in s.holders || StartThrew(s.history, id))
    && (forall id :: id in s.holders ==> S.Started(s.history, id) && !StartThrew(s.history, id))
  }

  predicate NoStart(actions: seq<S.Action>) {
    forall k | 0 <= k < |actions| :: !actions[k].StartSubscription?
  }

  lemma ThrewEarlier(history: seq<S.Action>, more: seq<S.Action>, id: string)
    requires StartThrew(history, id)
    ensures StartThrew(history + more, id)
  {
    var j: nat :| ThrewAt(history, id, j);
    assert (history + more)[..j] == history[..j];
    assert ThrewAt(history + more, id, j);
  }

  lemma ThrewBefore(history: seq<S.Action>, more: seq<S.Action>, id: string)
    requires forall k | 0 <= k < |more| :: !S.Starts(more[k], id)
    ensures StartThrew(history + more, id) ==> StartThrew(history, id)
    ensures S.Started(history + more, id) <==> S.Started(history, id)
  {
    var all := history + more;
    assert forall k | |history| <= k < |all| :: all[k] == more[k - |history|];
    if j: nat :| ThrewAt(all, id, j) {
      assert all[..j] == history[..j] && all[j] == history[j];
      assert ThrewAt(history, id, j);
    }
    if S.Started(history, id) {
      var j :| 0 <= j < |history| && S.Starts(history[j], id);
      assert S.Starts(all[j], id);
    }
    if S.Started(all, id) {
      var j :| 0 <= j < |all| && S.Starts(all[j], id);
      assert S.Starts(history[j], id);
    }
  }

  /** Only a start adds to the table, and only a stop takes away. */
  lemma {:induction false} TableShrinks(history: seq<S.Action>, more: seq<S.Action>)
    requires NoStart(more)
    ensures S.Run(history + more).handlers.Keys <= S.Run(history).handlers.Keys
    decreases |more|
  {
    if more == [] {
      assert history + more == history;
    } else {
      var front := more[..|more| - 1];
      TableShrinks(history, front);
      assert S.Front(history + more) == history + front;
    }
  }

  lemma {:induction false} TableKeeps(history: seq<S.Action>, more: seq<S.Action>, id: string)
    requires id in S.Run(history).handlers && forall k | 0 <= k < |more| :: !S.Stops(more[k], id)
    ensures id in S.Run(history + more).handlers
    decreases |more|
  {
    if more == [] {
      assert history + more == history;
    } else {
      var front := more[..|more| - 1];
      TableKeeps(history, front, id);
      assert S.Front(history + more) == history + front && S.Last(history + more) == more[|more| - 1];
    }
  }

  lemma StaysAccounted(s: Stream, more: seq<S.Action>, t: Stream)
    requires Accounted(s) && t.history == s.history + more && t.holders == s.holders && NoStart(more)
    ensures Accounted(t)
  {
    TableShrinks(s.history, more);
    forall id | id in Table(t) ensures id in t.holders || StartThrew(t.history, id) {
      if id !in s.holders {
        ThrewEarlier(s.history, more, id);
      }
    }
    forall id | id in t.holders ensures S.Started(t.history, id) && !StartThrew(t.history, id) {
      ThrewBefore(s.history, more, id);
    }
  }

  lemma StartedTable(s: Stream, start: S.Action, t: Stream)
    requires Accounted(s) && start.StartSubscription? && t.history == s.history + [start]
    requires t.holders == if Throws(s.history, start) then s.holders else s.holders + {start.id}
    ensures forall id :: id in Table(t) ==> id in t.holders || StartThrew(t.history, id)
  {
    var n := |s.history|;
    assert S.Front(t.history) == s.history && S.Last(t.history) == start && t.history[..n] == s.history;
    if Throws(s.history, start) {
      assert ThrewAt(t.history, start.id, n);
    }
    forall id | id in Table(t) ensures id in t.holders || StartThrew(t.history, id) {
      if id != start.id && id !in s.holders {
        ThrewEarlier(s.history, [start], id);
      }
    }
  }

  lemma StartedHolders(s: Stream, start: S.Action, t: Stream)
    requires Accounted(s) && start.StartSubscription? && t.history == s.history + [start]
    requires !S.Started(s.history, start.id)
    requires t.holders == if Throws(s.history, start) then s.holders else s.holders + {start.id}
    ensures forall id :: id in t.holders ==> S.Started(t.history, id) && !StartThrew(t.history, id)
  {
    var n := |s.history|;
    assert t.history[n] == start && t.history[..n] == s.history;
    forall id | id in t.holders ensures S.Started(t.history, id) && !StartThrew(t.history, id) {
      if id != start.id {
        ThrewBefore(s.history, [start], id);
      } else {
        assert S.Starts(t.history[n], id);
        forall j: nat ensures !ThrewAt(t.history, id, j) {
          if j < n {
            assert t.history[j] == s.history[j] && !S.Starts(s.history[j], id);
          }
        }
      }
    }
  }

  lemma DroppedAccounted(s: Stream, id: string, t: Stream)
    requires Accounted(s) && S.IsRun(s.history) && StoppedAfterStart(s.history, id)
    requires t.history == s.history && t.holders == s.holders - {id}
    ensures Accounted(t)
  {
    var j, k :| 0 <= j < k < |s.history| && S.Starts(s.history[j], id) && S.Stops(s.history[k], id);
    S.StoppedIsUnregistered(s.history, id, j, k);
  }

  ghost predicate AllAccounted(c: Client) {
    forall i | 0 <= i < |c.streams| :: Accounted(c.streams[i])
  }

  lemma PutAccounted(c: Client, i: nat, t: Stream)
    requires i < |c.streams| && AllAccounted(c) && Accounted(t)
    ensures AllAccounted(Put(c, i, t))
  {
  }

  lemma ExecuteAccounted(s: Stream, start: S.Action, between: seq<S.Action>, t: Stream)
    requires Accounted(s) && start.StartSubscription? && AllFromOutside(between) && !S.Started(s.history, start.id)
    requires t.history == s.history + between + [start]
    requires t.holders == if Throws(s.history + between, start) then s.holders else s.holders + {start.id}
    ensures Accounted(t)
  {
    var m := s.(history := s.history + between);
    StaysAccounted(s, between, m);
    ThrewBefore(s.history, between, start.id);
    StartedTable(m, start, t);
    StartedHolders(m, start, t);
  }

  lemma NewAccounted(start: S.Action, between: seq<S.Action>, order: seq<string>, t: Stream)
    requires start.StartSubscription? && AllFromOutside(between)
    requires if Throws(between, start)
             then t == Stream(between + [start] + [S.StopAllSubscriptions(order)], {}, true)
             else t == Stream(between + [start], {start.id}, false)
    ensures Accounted(t)
  {
    var empty := Stream([], {}, false);
    assert [] + between == between && {} + {start.id} == {start.id};
    assert Table(empty) == map[];
    var started := Stream(between + [start], if Throws(between, start) then {} else {start.id}, false);
    ExecuteAccounted(empty, start, between, started);
    if Throws(between, start) {
      StaysAccounted(started, [S.StopAllSubscriptions(order)], t);
    }
  }

  lemma ExecuteKeepsAccounts(c: Client, a: Action)
    requires Inv(c) && Enabled(c, a) && AllAccounted(c) && a.Execute?
    ensures AllAccounted(Next(c, a))
  {
    var d := Next(c, a);
    if Reusable(c) {
      ExecuteAccounted(c.streams[c.cached], a.start, a.between, d.streams[c.cached]);
      PutAccounted(c, c.cached, d.streams[c.cached]);
    } else if a.connects {
      NewAccounted(a.start, a.between, a.order, d.streams[|c.streams|]);
    }
  }

  lemma EndpointKeepsAccounts(c: Client, a: Action)
    requires Inv(c) && Enabled(c, a) && AllAccounted(c) && a.SetEndpoint?
    ensures AllAccounted(Next(c, a))
  {
    if Reusable(c) {
      var s, more := c.streams[c.cached], a.between + [S.StopAllSubscriptions(a.order)];
      var t := s.(history := s.history + a.between + [S.StopAllSubscriptions(a.order)]);
      assert t.history == s.history + more;
      StaysAccounted(s, more, t);
      PutAccounted(c, c.cached, t);
    }
  }

  lemma StepKeepsAccounts(c: Client, a: Action)
    requires Inv(c) && Enabled(c, a) && AllAccounted(c)
    ensures AllAccounted(Next(c, a))
  {
    match a
    case Execute(_, _, _, _) => ExecuteKeepsAccounts(c, a);
    case SetEndpoint(_, _) => EndpointKeepsAccounts(c, a);
    case Background(i, step) => StaysAccounted(c.streams[i], [step], Next(c, a).streams[i]);
    case StopHandle(i, id, write) =>
      StaysAccounted(c.streams[i], [S.StopSubscription(id, write)], Next(c, a).streams[i]);
    case DropHandle(i, id) => DroppedAccounted(c.streams[i], id, Next(c, a).streams[i]);
    case Destroy(i, order) =>
      StaysAccounted(c.streams[i], [S.StopAllSubscriptions(order)], Next(c, a).streams[i]);
  }

  lemma {:induction false} AlwaysAccounted(actions: seq<Action>)
    requires IsRun(actions)
    ensures AllAccounted(State(actions))
    decreases |actions|
  {
    if actions != [] {
      AlwaysAccounted(Front(actions));
      HeldAndOpenIsCached(Front(actions));
      StepKeepsAccounts(State(Front(actions)), Last(actions));
    }
  }

  /** In every reachable state whoever is in the table of a socket has a handle, which will stop it,
      exactly when its start did not throw. */
  lemma TableIsHeld(actions: seq<Action>, i: nat, id: string)
    requires IsRun(actions) && i < |State(actions).streams| && id in Table(State(actions).streams[i])
    ensures var s := State(actions).streams[i];
            id in s.holders <==> !StartThrew(s.history, id)
  {
    AlwaysAccounted(actions);
  }

  /** A callback that nothing stops: it is in the table and its start threw. */
  ghost predicate LeftBehind(s: Stream, id: string) {
    id in Table(s) && StartThrew(s.history, id)
  }

  lemma GoesOnLeftBehind(s: Stream, more: seq<S.Action>, t: Stream, id: string)
    requires LeftBehind(s, id) && t.history == s.history + more && forall k | 0 <= k < |more| :: !S.Stops(more[k], id)
    ensures LeftBehind(t, id)
  {
    TableKeeps(s.history, more, id);
    ThrewEarlier(s.history, more, id);
  }

  lemma ReuseLeavesBehind(c: Client, a: Action, id: string)
    requires Inv(c) && Enabled(c, a) && AllAccounted(c) && (a.Execute? || a.SetEndpoint?) && Reusable(c)
    requires LeftBehind(c.streams[c.cached], id)
    ensures LeftBehind(Next(c, a).streams[c.cached], id)
  {
    var (s, t) := (c.streams[c.cached], Next(c, a).streams[c.cached]);
    var last := if a.Execute? then a.start else S.StopAllSubscriptions(a.order);
    assert t.history == s.history + (a.between + [last]);
    GoesOnLeftBehind(s, a.between + [last], t, id);
  }

  lemma StepLeavesBehind(c: Client, a: Action, i: nat, id: string)
    requires Inv(c) && Enabled(c, a) && AllAccounted(c) && i < |c.streams| && LeftBehind(c.streams[i], id)
    ensures i < |Next(c, a).streams| && LeftBehind(Next(c, a).streams[i], id)
  {
    var s := c.streams[i];
    assert id !in s.holders;
    match a
    case Execute(_, _, _, _) => if Reusable(c) && i == c.cached { ReuseLeavesBehind(c, a, id); }
    case SetEndpoint(_, _) => if Reusable(c) && i == c.cached { ReuseLeavesBehind(c, a, id); }
    case Background(j, step) => if i == j { GoesOnLeftBehind(s, [step], Next(c, a).streams[i], id); }
    case StopHandle(j, other, write) =>
      if i == j { GoesOnLeftBehind(s, [S.StopSubscription(other, write)], Next(c, a).streams[i], id); }
    case DropHandle(j, other) =>
    case Destroy(j, order) =>
      if i == j { GoesOnLeftBehind(s, [S.StopAllSubscriptions(order)], Next(c, a).streams[i], id); }
  }

  /** It stays in the table whatever happens afterwards. */
  lemma {:induction false} LeftBehindForGood(actions: seq<Action>, k: nat, i: nat, id: string)
    requires IsRun(actions) && k <= |actions| && i < |State(actions[..k]).streams|
    requires LeftBehind(State(actions[..k]).streams[i], id)
    ensures i < |State(actions).streams| && LeftBehind(State(actions).streams[i], id)
    decreases |actions|
  {
    if k == |actions| {
      assert actions[..k] == actions;
    } else {
      var front := Front(actions);
      assert front[..k] == actions[..k];
      LeftBehindForGood(front, k, i, id);
      HeldAndOpenIsCached(front);
      AlwaysAccounted(front);
      StepLeavesBehind(State(front), Last(actions), i, id);
    }
  }

  /** What holds of one socket holds of all of them: every subscription gets the calls it is owed. */
  lemma CallsOnEverySocket(actions: seq<Action>, i: nat, id: string)
    requires IsRun(actions) && i < |State(actions).streams|
    ensures var h := State(actions).streams[i].history;
            S.CallsFor(S.Run(h).calls, id) == S.Owed(h, id) && S.StartThenStop(S.SentFor(S.Run(h).sent, id), id)
  {
    HeldAndOpenIsCached(actions);
    var h := State(actions).streams[i].history;
    S.CallsAreOwed(h, id);
    S.OneStartOneStop(h, id);
  }

  // ----- Runs that go wrong -----

  lemma OneStepOn(front: seq<Action>, a: Action) returns (actions: seq<Action>)
    requires IsRun(front) && Enabled(State(front), a)
    ensures IsRun(actions) && State(actions) == Next(State(front), a)
  {
    actions := front + [a];
    assert Front(actions) == front && Last(actions) == a;
  }

  predicate PlainStart(a: S.Action) {
    a.StartSubscription? && a.write == S.Written
  }

  lemma SingleStart(a: S.Action)
    requires PlainStart(a)
    ensures S.IsRun([] + [a]) && S.Run([] + [a]).open
    ensures S.Run([] + [a]).handlers == map[a.id := a.handler]
  {
    var h := [] + [a];
    assert S.Front(h) == [] && S.Last(h) == a && !S.Started([], a.id);
    assert S.IsRun([]) && S.Run([]) == S.INITIAL;
    assert S.Enabled(S.INITIAL, a) && S.Step(S.INITIAL, a).open;
  }

  /** A first subscription. */
  lemma Subscribed(start: S.Action) returns (actions: seq<Action>)
    requires PlainStart(start)
    ensures IsRun(actions) && State(actions) == Client([Stream([] + [start], {start.id}, false)], 0)
  {
    SingleStart(start);
    var a := Execute(start, true, [], []);
    assert Next(INITIAL, a) == Client([Stream([] + [start], {start.id}, false)], 0);
    assert State([]) == INITIAL && IsRun([]);
    actions := OneStepOn([], a);
  }

  function StoppedHistory(start: S.Action): seq<S.Action>
    requires start.StartSubscription?
  {
    [] + [start] + [S.StopSubscription(start.id, S.Written)]
  }

  lemma StoppedRun(start: S.Action)
    requires PlainStart(start)
    ensures S.IsRun(StoppedHistory(start)) && S.Run(StoppedHistory(start)).open
    ensures StoppedAfterStart(StoppedHistory(start), start.id)
    ensures forall id | id != start.id :: !S.Started(StoppedHistory(start), id)
  {
    var h := StoppedHistory(start);
    SingleStart(start);
    assert S.Front(h) == [] + [start] && S.Last(h) == S.StopSubscription(start.id, S.Written);
    assert S.Starts(h[0], start.id) && S.Stops(h[1], start.id);
  }

  /** Its handle stops it. */
  lemma Unsubscribed(start: S.Action) returns (actions: seq<Action>)
    requires PlainStart(start)
    ensures IsRun(actions) && State(actions) == Client([Stream(StoppedHistory(start), {start.id}, false)], 0)
  {
    var front := Subscribed(start);
    StoppedRun(start);
    var a := StopHandle(0, start.id, S.Written);
    assert Next(State(front), a) == Client([Stream(StoppedHistory(start), {start.id}, false)], 0);
    actions := OneStepOn(front, a);
  }

  /** The last handle lets go, and the destructor is still to run. */
  lemma Abandoned(start: S.Action) returns (actions: seq<Action>)
    requires PlainStart(start)
    ensures IsRun(actions) && State(actions) == Client([Stream(StoppedHistory(start), {}, false)], 0)
  {
    var front := Unsubscribed(start);
    StoppedRun(start);
    var a := DropHandle(0, start.id);
    assert {start.id} - {start.id} == {};
    assert Next(State(front), a).streams == [Stream(StoppedHistory(start), {}, false)];
    actions := OneStepOn(front, a);
  }

  function Begin(id: string, write: S.Write): S.Action {
    S.StartSubscription(id, "", "", Null, S.Calls(1), write)
  }

  /** Two sockets can be open at once: a second subscription comes between the last handle letting go
      and the destructor closing the socket. */
  lemma TwoSocketsOpen() returns (actions: seq<Action>)
    ensures IsRun(actions)
    ensures var c := State(actions);
            |c.streams| == 2 && Open(c.streams[0]) && Open(c.streams[1]) && !OnlyCachedIsOpen(c)
  {
    actions := SecondSocket(Begin("1", S.Written), Begin("2", S.Written));
  }

  lemma SecondSocket(first: S.Action, second: S.Action) returns (actions: seq<Action>)
    requires PlainStart(first) && PlainStart(second) && first.id != second.id
    ensures IsRun(actions)
    ensures var c := State(actions);
            |c.streams| == 2 && Open(c.streams[0]) && Open(c.streams[1]) && !OnlyCachedIsOpen(c)
  {
    var front := Abandoned(first);
    var a := Execute(second, true, [], []);
    ConnectsAnew(State(front), first, second, a);
    actions := OneStepOn(front, a);
  }

  lemma ConnectsAnew(c: Client, first: S.Action, second: S.Action, a: Action)
    requires PlainStart(first) && PlainStart(second) && first.id != second.id
    requires c == Client([Stream(StoppedHistory(first), {}, false)], 0) && a == Execute(second, true, [], [])
    ensures Enabled(c, a)
    ensures var d := Next(c, a);
            |d.streams| == 2 && d.cached == 1 && Open(d.streams[0]) && Open(d.streams[1])
  {
    StoppedRun(first);
    NextSocket(c, StoppedHistory(first), second, a);
  }

  lemma NextSocket(c: Client, h: seq<S.Action>, start: S.Action, a: Action)
    requires S.IsRun(h) && S.Run(h).open && PlainStart(start) && !S.Started(h, start.id)
    requires c == Client([Stream(h, {}, false)], 0) && a == Execute(start, true, [], [])
    ensures Enabled(c, a)
    ensures var d := Next(c, a);
            |d.streams| == 2 && d.cached == 1 && Open(d.streams[0]) && Open(d.streams[1])
  {
    SingleStart(start);
    var d := Client([Stream(h, {}, false), Stream([] + [start], {start.id}, false)], 1);
    assert !Reusable(c) && !Throws([], start);
    assert Next(c, a) == d;
    assert Histories(d) && UsedNowhere(c, start.id);
  }

  /** SetProxy or SetUnixEndpoint can leave a socket open: one that awaits its destructor. */
  lemma EndpointLeavesOneOpen() returns (actions: seq<Action>)
    ensures IsRun(actions) && actions != [] && Last(actions).SetEndpoint?
    ensures |State(actions).streams| == 1 && Open(State(actions).streams[0])
  {
    var front := Abandoned(Begin("1", S.Written));
    StoppedRun(Begin("1", S.Written));
    var a := SetEndpoint([], []);
    assert Next(State(front), a) == State(front);
    actions := front + [a];
    assert Front(actions) == front && Last(actions) == a;
  }

  /** A subscription whose start threw on a reused socket: its callback stays in the table. */
  lemma CallbackLeftBehind() returns (actions: seq<Action>)
    ensures IsRun(actions) && |State(actions).streams| == 1
    ensures var s := State(actions).streams[0];
            Open(s) && LeftBehind(s, "2") && "2" !in s.holders
  {
    actions := ThrownStart(Begin("1", S.Written), Begin("2", S.Fails(false)));
  }

  lemma ThrownRun(first: S.Action, second: S.Action, h: seq<S.Action>)
    requires PlainStart(first) && second.StartSubscription? && second.write == S.Fails(false) && first.id != second.id
    requires h == [] + [first] + [second]
    ensures S.IsRun(h) && S.Run(h).open && second.id in S.Run(h).handlers && ThrewAt(h, second.id, 1)
    ensures Throws([] + [first], second) && !S.Started([] + [first], second.id)
  {
    SingleStart(first);
    assert S.Front(h) == [] + [first] && S.Last(h) == second;
    assert h[..1] == [] + [first] && h[1] == second;
  }

  lemma ThrownStart(first: S.Action, second: S.Action) returns (actions: seq<Action>)
    requires PlainStart(first) && second.StartSubscription? && second.write == S.Fails(false) && first.id != second.id
    ensures IsRun(actions) && |State(actions).streams| == 1
    ensures var s := State(actions).streams[0];
            Open(s) && LeftBehind(s, second.id) && second.id !in s.holders
  {
    var front := Subscribed(first);
    var h := [] + [first] + [second];
    ThrownRun(first, second, h);
    SingleStart(first);
    var a := Execute(second, true, [], []);
    assert ([] + [first]) + [] == [] + [first];
    assert Next(State(front), a) == Client([Stream(h, {first.id}, false)], 0);
    actions := OneStepOn(front, a);
  }

  // ----- The class -----

  class ControllerClientImpl {
    var streams: seq<Stream>
    var graphSubscriptionWebSocketHandler: int

    function View(): Client
      reads this
    {
      Client(streams, graphSubscriptionWebSocketHandler)
    }

    constructor ()
      ensures View() == INITIAL
    {
      streams, graphSubscriptionWebSocketHandler := [], -1;
    }

    /** Locks the weak pointer and asks whether the socket is open. */
    method LockOpen() returns (found: bool)
      requires Valid(View())
      ensures found == Reusable(View())
    {
      found := false;
      if graphSubscriptionWebSocketHandler >= 0 {
        var s := streams[graphSubscriptionWebSocketHandler];
        if s.holders != {} {
          found := Open(s);
        }
      }
    }

    /** A subscription that starts has its handle hold the socket; `stream` is the socket used. */
    method ExecuteGraphSubscription(start: S.Action, connects: bool, between: seq<S.Action>, order: seq<string>)
      returns (r: Result<string>, stream: int)
      requires Valid(View()) && start.StartSubscription?
      modifies this
      ensures View() == Next(old(View()), Execute(start, connects, between, order))
      ensures r.Ok? ==> r.value == start.id && 0 <= stream < |streams| && start.id in streams[stream].holders &&
                        graphSubscriptionWebSocketHandler == stream
      ensures r.Err? ==> graphSubscriptionWebSocketHandler == old(graphSubscriptionWebSocketHandler)
    {
      var reuse := LockOpen();
      if reuse {
        stream := graphSubscriptionWebSocketHandler;
      } else {
        if !connects {
          return Err, -1;
        }
        stream := |streams|;
        streams := streams + [Stream([], {}, false)];
      }
      var s := streams[stream];
      var history := s.history + between;
      assert !reuse ==> history == between;
      if S.Run(history).open && start.write.Fails? {
        if reuse {
          streams := streams[stream := s.(history := history + [start])];
        } else {
          streams := streams[stream := Stream(history + [start] + [S.StopAllSubscriptions(order)], {}, true)];
        }
        return Err, stream;
      }
      assert !reuse ==> s.holders + {start.id} == {start.id};
      streams := streams[stream := s.(history := history + [start], holders := s.holders + {start.id})];
      graphSubscriptionWebSocketHandler := stream;
      return Ok(start.id), stream;
    }

    /** The common end of SetProxy and SetUnixEndpoint. */
    method StopExistingSubscriptions(between: seq<S.Action>, order: seq<string>)
      requires Valid(View())
      modifies this
      ensures View() == Next(old(View()), SetEndpoint(between, order))
    {
      var found := LockOpen();
      if found {
        var s := streams[graphSubscriptionWebSocketHandler];
        streams := streams[graphSubscriptionWebSocketHandler :=
          s.(history := s.history + between + [S.StopAllSubscriptions(order)])];
        graphSubscriptionWebSocketHandler := -1;
      }
    }
  }
}
