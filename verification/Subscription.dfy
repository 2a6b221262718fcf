/** GraphSubscriptionWebSocketHandler: one websocket shared by the callers of StartSubscription,
    StopSubscription and StopAllSubscriptions and by the read loop of a background thread. Every
    critical section of the mutex is one step. */
module Subscription {
  import opened Json
  import opened Text

  /** A std::function, which may hold no function. */
  datatype Handler = NoFunction | Calls(target: nat)

  /** What a read hands over; an empty message parses as null. */
  datatype Incoming = Unparseable | Document(json: Json)

  datatype Outgoing =
    | ConnectionInit
    | StartMessage(id: string, operationName: string, query: string, variables: Json)
    | StopMessage(id: string)

  /** One invocation of a callback. */
  datatype Call = Call(id: string, target: nat, errors: Json, data: Json)

  /** How a write ends: a failure throws, and may leave the stream closed. */
  datatype Write = Written | Fails(closes: bool)

  /** A step of the caller, of the background thread or of the peer. A walk over the table of
      callbacks happens in some order of its ids. */
  datatype Action =
    | StartSubscription(id: string, operationName: string, query: string, variables: Json, handler: Handler,
        write: Write)
    | StopSubscription(id: string, write: Write)
    | StopAllSubscriptions(order: seq<string>)
    | MessageArrives(message: Incoming)
    | ReadFails(reason: string, order: seq<string>, closes: bool)
    | StreamDies

  datatype State = State(
    handlers: map<string, Handler>,
    open: bool,
    pending: nat,             // asynchronous reads outstanding
    sent: seq<Outgoing>,      // what was handed to the stream's write
    calls: seq<Call>)

  /** After the handshake: the connection is initialized and the first read is started. */
  const INITIAL := State(map[], true, 1, [ConnectionInit], [])

  const CLOSED_REASON := "The WebSocket stream was gracefully closed at both endpoints"

  // ----- Messages -----

  predicate HasString(j: Json, name: string) {
    HasMember(j, name) && GetMember(j, name).String?
  }

  /** C++ reads a string member up to its first NUL. */
  function StringOf(j: Json, name: string): string
    requires HasString(j, name)
  {
    UpToNul(GetMember(j, name).s)
  }

  /** A message for `id` that is not a keep-alive. */
  predicate Addressed(m: Incoming, id: string) {
    && m.Document?
    && HasString(m.json, "type") && StringOf(m.json, "type") != "pong" && StringOf(m.json, "type") != "ka"
    && HasString(m.json, "id") && StringOf(m.json, "id") == id
  }

  /** It carries errors or data. */
  predicate Carries(j: Json) {
    HasMember(j, "payload") && (HasErrors(GetMember(j, "payload")) || HasData(GetMember(j, "payload")))
  }

  predicate Usable(m: Incoming, id: string) {
    Addressed(m, id) && Carries(m.json)
  }

  predicate HasErrors(payload: Json) {
    HasMember(payload, "errors") && GetMember(payload, "errors").Array?
  }

  predicate HasData(payload: Json) {
    HasMember(payload, "data") && GetMember(payload, "data").Object?
  }

  /** The call a usable message makes: errors win over data. */
  function Delivery(m: Incoming, id: string, target: nat): Call
    requires Usable(m, id)
  {
    var payload := GetMember(m.json, "payload");
    if HasErrors(payload) then Call(id, target, GetMember(payload, "errors"), Null)
    else Call(id, target, Null, GetMember(payload, "data"))
  }

  /** `_ConstructErrorsFromErrorCode` */
  function Notice(id: string, target: nat, reason: string): Call {
    Call(id, target, Array([Object([Member("message", String(reason))])]), Null)
  }

  // ----- Steps -----

  function Send(s: State, m: Outgoing, write: Write): State {
    if s.open then s.(sent := s.sent + [m], open := write.Written? || !write.closes) else s
  }

  predicate Callable(handlers: map<string, Handler>, id: string) {
    id in handlers && handlers[id].Calls?
  }

  function Notices(handlers: map<string, Handler>, order: seq<string>, reason: string): seq<Call> {
    if order == [] then []
    else
      var (front, id) := (order[..|order| - 1], order[|order| - 1]);
      Notices(handlers, front, reason) +
      (if Callable(handlers, id) then [Notice(id, handlers[id].target, reason)] else [])
  }

  function IdOf(m: Incoming): string {
    if m.Document? && HasString(m.json, "id") then StringOf(m.json, "id") else ""
  }

  function Step(s: State, a: Action): State {
    match a
    case StartSubscription(id, operationName, query, variables, handler, write) =>
      var message := StartMessage(id, UpToNul(operationName), UpToNul(query), variables);
      Send(s.(handlers := s.handlers[id := handler]), message, write)
    case StopSubscription(id, write) =>
      if id in s.handlers then Send(s.(handlers := s.handlers - {id}), StopMessage(id), write) else s
    case StopAllSubscriptions(order) =>
      s.(open := false, calls := s.calls + Notices(s.handlers, order, CLOSED_REASON))
    case MessageArrives(m) =>
      var id := IdOf(m);
      if Usable(m, id) && Callable(s.handlers, id) then
        s.(calls := s.calls + [Delivery(m, id, s.handlers[id].target)])
      else s
    case ReadFails(reason, order, closes) =>
      s.(pending := if s.pending == 0 then 0 else s.pending - 1, open := s.open && !closes,
         calls := s.calls + Notices(s.handlers, order, reason))
    case StreamDies => s.(open := false)
  }

  /** `order` lists the table, each id once. */
  ghost predicate Lists(order: seq<string>, handlers: map<string, Handler>) {
    && (forall i, j | 0 <= i < j < |order| :: order[i] != order[j])
    && (forall id :: id in order <==> id in handlers)
  }

  ghost predicate Enabled(s: State, a: Action) {
    match a
    case StopAllSubscriptions(order) => Lists(order, s.handlers)
    case MessageArrives(_) => s.pending > 0
    case ReadFails(_, order, _) => s.pending > 0 && Lists(order, s.handlers)
    case _ => true
  }

  predicate Starts(a: Action, id: string) {
    a.StartSubscription? && a.id == id
  }

  predicate Stops(a: Action, id: string) {
    a.StopSubscription? && a.id == id
  }

  /** Some action starts `id`. */
  predicate Started(actions: seq<Action>, id: string) {
    exists j | 0 <= j < |actions| :: Starts(actions[j], id)
  }

  function Run(actions: seq<Action>): State {
    if actions == [] then INITIAL else Step(Run(Front(actions)), Last(actions))
  }

  function Front(actions: seq<Action>): seq<Action>
    requires actions != []
  {
    actions[..|actions| - 1]
  }

  function Last(actions: seq<Action>): Action
    requires actions != []
  {
    actions[|actions| - 1]
  }

  /** Ids are random UUIDs: no two subscriptions get the same one. */
  ghost predicate IsRun(actions: seq<Action>) {
    actions == [] ||
    (&& IsRun(Front(actions))
     && Enabled(Run(Front(actions)), Last(actions))
     && (Last(actions).StartSubscription? ==> !Started(Front(actions), Last(actions).id)))
  }

  // ----- Who is called -----

  /** Action j registered `id` and no later one stopped it. */
  predicate RegisteredAt(actions: seq<Action>, id: string, j: nat) {
    && j < |actions| && Starts(actions[j], id)
    && forall k | j < k < |actions| :: !Stops(actions[k], id)
  }

  ghost predicate Registered(actions: seq<Action>, id: string, h: Handler) {
    exists j: nat :: RegisteredAt(actions, id, j) && actions[j].handler == h
  }

  lemma RegisteredEarlier(actions: seq<Action>, id: string, h: Handler)
    requires actions != [] && !Starts(Last(actions), id) && !Stops(Last(actions), id)
    ensures Registered(actions, id, h) <==> Registered(Front(actions), id, h)
  {
    var front := Front(actions);
    if Registered(actions, id, h) {
      var j: nat :| RegisteredAt(actions, id, j) && actions[j].handler == h;
      assert RegisteredAt(front, id, j);
    }
    if Registered(front, id, h) {
      var j: nat :| RegisteredAt(front, id, j) && front[j].handler == h;
      assert RegisteredAt(actions, id, j);
    }
  }

  lemma RegisteredNow(actions: seq<Action>, id: string, h: Handler)
    requires actions != [] && Starts(Last(actions), id) && !Started(Front(actions), id)
    ensures Registered(actions, id, h) <==> h == Last(actions).handler
  {
    assert RegisteredAt(actions, id, |actions| - 1);
    if Registered(actions, id, h) {
      var j: nat :| RegisteredAt(actions, id, j) && actions[j].handler == h;
      if j < |actions| - 1 {
        StartedEarlier(actions, id, j);
      }
    }
  }

  lemma StartedEarlier(actions: seq<Action>, id: string, j: nat)
    requires j < |actions| - 1 && Starts(actions[j], id)
    ensures Started(Front(actions), id)
  {
    assert Starts(Front(actions)[j], id);
  }

  /** The table holds the callbacks given at the start of the subscriptions not yet stopped. */
  lemma {:induction false} TableHoldsRegistered(actions: seq<Action>, id: string, h: Handler)
    requires IsRun(actions)
    ensures id in Run(actions).handlers && Run(actions).handlers[id] == h <==> Registered(actions, id, h)
    decreases |actions|
  {
    if actions != [] {
      var a := Last(actions);
      TableHoldsRegistered(Front(actions), id, h);
      if Starts(a, id) {
        RegisteredNow(actions, id, h);
      } else if Stops(a, id) {
        assert actions[|actions| - 1] == a;
      } else {
        RegisteredEarlier(actions, id, h);
      }
    }
  }

  function CallsFor(calls: seq<Call>, id: string): seq<Call> {
    if calls == [] then []
    else
      var (front, c) := (calls[..|calls| - 1], calls[|calls| - 1]);
      if c.id == id then CallsFor(front, id) + [c] else CallsFor(front, id)
  }

  /** What action `a` calls a registered callback with. */
  function Reaction(a: Action, id: string, h: Handler): seq<Call> {
    if h.NoFunction? then []
    else match a
      case MessageArrives(m) => if Usable(m, id) then [Delivery(m, id, h.target)] else []
      case StopAllSubscriptions(_) => [Notice(id, h.target, CLOSED_REASON)]
      case ReadFails(reason, _, _) => [Notice(id, h.target, reason)]
      case _ => []
  }

  /** The callback registered for `id`, by the actions alone. */
  ghost function Listener(actions: seq<Action>, id: string): Handler {
    if exists h :: Registered(actions, id, h) then (var h :| Registered(actions, id, h); h) else NoFunction
  }

  /** The calls a subscription is owed: its callback's reaction to every action while registered. */
  ghost function Owed(actions: seq<Action>, id: string): seq<Call> {
    if actions == [] then []
    else Owed(Front(actions), id) + Reaction(Last(actions), id, Listener(Front(actions), id))
  }

  lemma ListenerIsInTable(actions: seq<Action>, id: string)
    requires IsRun(actions)
    ensures Listener(actions, id) == if id in Run(actions).handlers then Run(actions).handlers[id] else NoFunction
  {
    var handlers := Run(actions).handlers;
    if id in handlers {
      TableHoldsRegistered(actions, id, handlers[id]);
    }
    TableHoldsRegistered(actions, id, Listener(actions, id));
  }

  lemma {:induction false} CallsForAppend(calls: seq<Call>, more: seq<Call>, id: string)
    ensures CallsFor(calls + more, id) == CallsFor(calls, id) + CallsFor(more, id)
  {
    if more == [] {
      assert calls + more == calls;
    } else {
      var n := |more| - 1;
      CallsForAppend(calls, more[..n], id);
      assert (calls + more)[..|calls + more| - 1] == calls + more[..n];
    }
  }

  lemma {:induction false} CallsInNotices(handlers: map<string, Handler>, order: seq<string>, reason: string,
      id: string)
    requires forall i, j | 0 <= i < j < |order| :: order[i] != order[j]
    ensures CallsFor(Notices(handlers, order, reason), id) ==
            if id in order && Callable(handlers, id) then [Notice(id, handlers[id].target, reason)] else []
  {
    if order != [] {
      var (front, last) := (order[..|order| - 1], order[|order| - 1]);
      CallsInNotices(handlers, front, reason, id);
      assert id in order <==> id in front || id == last;
      if Callable(handlers, last) {
        var notice := Notice(last, handlers[last].target, reason);
        CallsForAppend(Notices(handlers, front, reason), [notice], id);
        assert [notice][..0] == [] && CallsFor([notice], id) == if last == id then [notice] else [];
      } else {
        assert Notices(handlers, order, reason) == Notices(handlers, front, reason);
      }
    }
  }

  lemma StepMakesReaction(s: State, a: Action, id: string)
    requires Enabled(s, a)
    ensures CallsFor(Step(s, a).calls, id) ==
            CallsFor(s.calls, id) + Reaction(a, id, if id in s.handlers then s.handlers[id] else NoFunction)
  {
    match a
    case StopAllSubscriptions(order) =>
      CallsForAppend(s.calls, Notices(s.handlers, order, CLOSED_REASON), id);
      CallsInNotices(s.handlers, order, CLOSED_REASON, id);
    case ReadFails(reason, order, _) =>
      CallsForAppend(s.calls, Notices(s.handlers, order, reason), id);
      CallsInNotices(s.handlers, order, reason, id);
    case MessageArrives(m) =>
      var to := IdOf(m);
      if Usable(m, to) && Callable(s.handlers, to) {
        var call := Delivery(m, to, s.handlers[to].target);
        CallsForAppend(s.calls, [call], id);
        assert [call][..0] == [] && CallsFor([call], id) == if to == id then [call] else [];
      }
    case _ =>
  }

  /** In every run each subscription gets exactly the calls it is owed, in order. */
  lemma {:induction false} CallsAreOwed(actions: seq<Action>, id: string)
    requires IsRun(actions)
    ensures CallsFor(Run(actions).calls, id) == Owed(actions, id)
    decreases |actions|
  {
    if actions != [] {
      CallsAreOwed(Front(actions), id);
      ListenerIsInTable(Front(actions), id);
      StepMakesReaction(Run(Front(actions)), Last(actions), id);
    }
  }

  // ----- What a call hands over, read off the message itself -----

  /** A member, or null when the value is no object or has no such member. */
  function Part(j: Json, name: string): Json {
    if HasMember(j, name) then GetMember(j, name) else Null
  }

  /** A message with a type other than the keep-alives and with the id `id`. */
  predicate IsFor(j: Json, id: string) {
    var (kind, to) := (Part(j, "type"), Part(j, "id"));
    && kind.String? && UpToNul(kind.s) != "pong" && UpToNul(kind.s) != "ka"
    && to.String? && UpToNul(to.s) == id
  }

  lemma RunOnce(actions: seq<Action>, a: Action)
    ensures Run(actions + [a]) == Step(Run(actions), a)
    ensures !a.StartSubscription? ==> (IsRun(actions + [a]) <==> IsRun(actions) && Enabled(Run(actions), a))
  {
    assert Front(actions + [a]) == actions && Last(actions + [a]) == a;
  }

  /** In every run a message for a registered callback makes one call: with the errors of the payload if
      they are an array, whatever its data are; else with its data if they are an object; none otherwise.
      It changes nothing else. */
  lemma MessageCalls(actions: seq<Action>, j: Json, id: string)
    requires IsRun(actions) && Run(actions).pending > 0 && IsFor(j, id)
    requires id in Run(actions).handlers && Run(actions).handlers[id].Calls?
    ensures var (s, a) := (Run(actions), MessageArrives(Document(j)));
            var (errors, data) := (Part(Part(j, "payload"), "errors"), Part(Part(j, "payload"), "data"));
            && IsRun(actions + [a])
            && Run(actions + [a]) == s.(calls := s.calls +
                 if errors.Array? then [Call(id, s.handlers[id].target, errors, Null)]
                 else if data.Object? then [Call(id, s.handlers[id].target, Null, data)]
                 else [])
  {
    RunOnce(actions, MessageArrives(Document(j)));
    IsForIsAddressed(j, id);
    CarriesParts(j, Document(j), id, Run(actions).handlers[id].target);
  }

  lemma IsForIsAddressed(j: Json, id: string)
    ensures IsFor(j, id) <==> Addressed(Document(j), id)
    ensures IsFor(j, id) ==> IdOf(Document(j)) == id
  {
  }

  /** A member that is no object has no members, so the payload need not be tested first. */
  lemma CarriesParts(j: Json, m: Incoming, id: string, target: nat)
    requires m == Document(j) && Addressed(m, id)
    ensures var (errors, data) := (Part(Part(j, "payload"), "errors"), Part(Part(j, "payload"), "data"));
            && (Usable(m, id) <==> errors.Array? || data.Object?)
            && (errors.Array? ==> Delivery(m, id, target) == Call(id, target, errors, Null))
            && (!errors.Array? && data.Object? ==> Delivery(m, id, target) == Call(id, target, Null, data))
  {
  }

  /** Any other message, parseable or not, changes nothing. */
  lemma OtherMessagesDoNothing(actions: seq<Action>, m: Incoming)
    requires IsRun(actions) && Run(actions).pending > 0
    requires forall id | id in Run(actions).handlers && Run(actions).handlers[id].Calls? ::
               m.Unparseable? || !IsFor(m.json, id)
    ensures IsRun(actions + [MessageArrives(m)]) && Run(actions + [MessageArrives(m)]) == Run(actions)
  {
    RunOnce(actions, MessageArrives(m));
    if m.Document? {
      IsForIsAddressed(m.json, IdOf(m));
    }
  }

  /** In every run the end of the stream, by StopAllSubscriptions or by a failed read, calls every
      callback of the table exactly once, with an array of one error that holds the reason. */
  lemma EndCallsEveryCallback(actions: seq<Action>, a: Action, id: string)
    requires IsRun(actions + [a]) && (a.StopAllSubscriptions? || a.ReadFails?)
    ensures var (s, later) := (Run(actions), Run(actions + [a]));
            var text := if a.ReadFails? then a.reason
                        else "The WebSocket stream was gracefully closed at both endpoints";
            CallsFor(later.calls, id) == CallsFor(s.calls, id) +
              if id in s.handlers && s.handlers[id].Calls?
              then [Call(id, s.handlers[id].target, Array([Object([Member("message", String(text))])]), Null)]
              else []
    ensures var (s, later) := (Run(actions), Run(actions + [a]));
            && later.handlers == s.handlers && later.sent == s.sent
            && (later.open <==> a.ReadFails? && s.open && !a.closes)
  {
    RunOnce(actions, a);
    StepMakesReaction(Run(actions), a, id);
  }

  /** No other step of a run calls anybody. */
  lemma OtherStepsCallNobody(actions: seq<Action>, a: Action)
    requires a.StartSubscription? || a.StopSubscription? || a.StreamDies?
    ensures Run(actions + [a]).calls == Run(actions).calls
  {
    RunOnce(actions, a);
  }

  lemma {:induction false} RunPrefix(actions: seq<Action>, k: nat)
    requires IsRun(actions) && k <= |actions|
    ensures IsRun(actions[..k])
    decreases |actions|
  {
    if k < |actions| {
      RunPrefix(Front(actions), k);
      assert Front(actions)[..k] == actions[..k];
    } else {
      assert actions[..k] == actions;
    }
  }

  lemma {:induction false} StartedOnce(actions: seq<Action>, id: string, i: nat, j: nat)
    requires IsRun(actions) && i < j < |actions| && Starts(actions[i], id)
    ensures !Starts(actions[j], id)
    decreases |actions|
  {
    if j == |actions| - 1 {
      assert Starts(Front(actions)[i], id);
    } else {
      StartedOnce(Front(actions), id, i, j);
    }
  }

  /** Once StopSubscription has returned, no step calls the callback again. */
  lemma NoCallAfterStop(actions: seq<Action>, id: string, j: nat, k: nat)
    requires IsRun(actions) && j < k < |actions| && Starts(actions[j], id) && Stops(actions[k], id)
    ensures CallsFor(Run(actions).calls, id) == CallsFor(Run(actions[..k + 1]).calls, id)
    ensures Owed(actions, id) == Owed(actions[..k + 1], id)
  {
    var stopped := actions[..k + 1];
    RunPrefix(actions, k + 1);
    NothingOwedAfterStop(actions, id, j, k);
    CallsAreOwed(actions, id);
    CallsAreOwed(stopped, id);
  }

  lemma {:induction false} NothingOwedAfterStop(actions: seq<Action>, id: string, j: nat, k: nat)
    requires IsRun(actions) && j < k < |actions| && Starts(actions[j], id) && Stops(actions[k], id)
    ensures Owed(actions, id) == Owed(actions[..k + 1], id)
    decreases |actions|
  {
    if k == |actions| - 1 {
      assert actions[..k + 1] == actions;
    } else {
      var front := Front(actions);
      NothingOwedAfterStop(front, id, j, k);
      assert front[..k + 1] == actions[..k + 1];
      NotListening(front, id, j, k);
    }
  }

  lemma NotListening(actions: seq<Action>, id: string, j: nat, k: nat)
    requires IsRun(actions) && j < k < |actions| && Starts(actions[j], id) && Stops(actions[k], id)
    ensures Listener(actions, id) == NoFunction
  {
    if h :| Registered(actions, id, h) {
      var i: nat :| RegisteredAt(actions, id, i) && actions[i].handler == h;
      if i < j {
        StartedOnce(actions, id, i, j);
      } else if j < i {
        StartedOnce(actions, id, j, i);
      }
    }
  }

  /** A subscription started and then stopped is not in the table. */
  lemma StoppedIsUnregistered(actions: seq<Action>, id: string, j: nat, k: nat)
    requires IsRun(actions) && j < k < |actions| && Starts(actions[j], id) && Stops(actions[k], id)
    ensures id !in Run(actions).handlers
  {
    if id in Run(actions).handlers {
      var h := Run(actions).handlers[id];
      TableHoldsRegistered(actions, id, h);
      var i: nat :| RegisteredAt(actions, id, i) && actions[i].handler == h;
      if i < j {
        StartedOnce(actions, id, i, j);
      } else if j < i {
        StartedOnce(actions, id, j, i);
      }
    }
  }

  // ----- What is sent -----

  /** The connection is initialized before anything else is sent, and once. */
  lemma {:induction false} InitializedFirst(actions: seq<Action>)
    ensures var sent := Run(actions).sent;
            && sent != [] && sent[0] == ConnectionInit
            && forall k | 0 < k < |sent| :: !sent[k].ConnectionInit?
    decreases |actions|
  {
    if actions != [] {
      InitializedFirst(Front(actions));
    }
  }

  /** The messages about `id`: nothing, its start, or its start and its stop. */
  function SentFor(sent: seq<Outgoing>, id: string): seq<Outgoing> {
    if sent == [] then []
    else
      var (front, m) := (sent[..|sent| - 1], sent[|sent| - 1]);
      if !m.ConnectionInit? && m.id == id then SentFor(front, id) + [m] else SentFor(front, id)
  }

  ghost predicate StartThenStop(messages: seq<Outgoing>, id: string) {
    || messages == []
    || (|messages| == 1 && messages[0].StartMessage? && messages[0].id == id)
    || (|messages| == 2 && messages[0].StartMessage? && messages[0].id == id && messages[1] == StopMessage(id))
  }

  lemma SentForAppend(sent: seq<Outgoing>, m: Outgoing, id: string)
    ensures SentFor(sent + [m], id) ==
            if !m.ConnectionInit? && m.id == id then SentFor(sent, id) + [m] else SentFor(sent, id)
  {
    assert (sent + [m])[..|sent|] == sent;
  }

  function StartOf(a: Action): Outgoing
    requires a.StartSubscription?
  {
    StartMessage(a.id, UpToNul(a.operationName), UpToNul(a.query), a.variables)
  }

  lemma StartedByLast(actions: seq<Action>, id: string)
    requires actions != []
    ensures Started(actions, id) <==> Started(Front(actions), id) || Starts(Last(actions), id)
  {
    assert actions[|actions| - 1] == Last(actions);
    if Started(Front(actions), id) {
      var j :| 0 <= j < |Front(actions)| && Starts(Front(actions)[j], id);
      assert Starts(actions[j], id);
    }
    if j :| 0 <= j < |actions| - 1 && Starts(actions[j], id) {
      StartedEarlier(actions, id, j);
    }
  }

  /** In every run the messages about a subscription are at most one start and, behind it, at most one
      stop; while the stream is open they are exactly those of the starts and stops that took place. */
  lemma {:induction false} OneStartOneStop(actions: seq<Action>, id: string)
    requires IsRun(actions)
    ensures StartThenStop(SentFor(Run(actions).sent, id), id)
    ensures !Started(actions, id) ==> SentFor(Run(actions).sent, id) == [] && id !in Run(actions).handlers
    ensures id in Run(actions).handlers ==> |SentFor(Run(actions).sent, id)| <= 1
    ensures Run(actions).open ==>
              |SentFor(Run(actions).sent, id)| ==
              if !Started(actions, id) then 0 else if id in Run(actions).handlers then 1 else 2
    decreases |actions|
  {
    if actions != [] {
      OneStartOneStop(Front(actions), id);
      StartedByLast(actions, id);
      SentStep(Run(Front(actions)), Last(actions), id, Started(Front(actions), id));
    } else {
      assert [ConnectionInit][..0] == [];
    }
  }

  ghost predicate SentSoFar(s: State, id: string, started: bool) {
    var messages := SentFor(s.sent, id);
    && StartThenStop(messages, id)
    && (!started ==> messages == [] && id !in s.handlers)
    && (id in s.handlers ==> |messages| <= 1)
    && (s.open ==> |messages| == if !started then 0 else if id in s.handlers then 1 else 2)
  }

  lemma SentStep(s: State, a: Action, id: string, started: bool)
    requires SentSoFar(s, id, started) && (Starts(a, id) ==> !started)
    ensures SentSoFar(Step(s, a), id, started || Starts(a, id))
  {
    if a.StartSubscription? {
      SentForAppend(s.sent, StartOf(a), id);
    } else if a.StopSubscription? {
      SentForAppend(s.sent, StopMessage(a.id), id);
    }
  }

  /** The start message carries what the subscription was started with, its texts cut at a NUL. */
  lemma {:induction false} StartMessageIsOwn(actions: seq<Action>, id: string, j: nat)
    requires IsRun(actions) && j < |actions| && Starts(actions[j], id)
    ensures var messages := SentFor(Run(actions).sent, id); messages != [] ==> messages[0] == StartOf(actions[j])
    decreases |actions|
  {
    OneStartOneStop(Front(actions), id);
    if j < |actions| - 1 {
      StartMessageIsOwn(Front(actions), id, j);
      StartedEarlier(actions, id, j);
    }
    StartStaysFirst(Run(Front(actions)), Last(actions), id, Started(Front(actions), id), StartOf(actions[j]));
  }

  lemma StartStaysFirst(s: State, a: Action, id: string, started: bool, start: Outgoing)
    requires SentSoFar(s, id, started) && (if Starts(a, id) then !started && StartOf(a) == start else started)
    requires SentFor(s.sent, id) != [] ==> SentFor(s.sent, id)[0] == start
    ensures SentFor(Step(s, a).sent, id) != [] ==> SentFor(Step(s, a).sent, id)[0] == start
  {
    if a.StartSubscription? {
      SentForAppend(s.sent, StartOf(a), id);
    } else if a.StopSubscription? {
      SentForAppend(s.sent, StopMessage(a.id), id);
    }
  }

  // ----- The read loop -----

  predicate ReadFailed(actions: seq<Action>) {
    exists k | 0 <= k < |actions| :: actions[k].ReadFails?
  }

  /** Exactly one asynchronous read is outstanding until the first read error, and none after it; so
      there is at most one read error and nothing arrives behind it. */
  lemma {:induction false} OneReadOutstanding(actions: seq<Action>)
    requires IsRun(actions)
    ensures Run(actions).pending == if ReadFailed(actions) then 0 else 1
    decreases |actions|
  {
    if actions != [] {
      OneReadOutstanding(Front(actions));
      assert ReadFailed(actions) <==> ReadFailed(Front(actions)) || Last(actions).ReadFails? by {
        assert actions[|actions| - 1] == Last(actions);
        if ReadFailed(Front(actions)) {
          var k :| 0 <= k < |Front(actions)| && Front(actions)[k].ReadFails?;
          assert actions[k].ReadFails?;
        }
        if ReadFailed(actions) {
          var k :| 0 <= k < |actions| && actions[k].ReadFails?;
          assert k < |actions| - 1 ==> Front(actions)[k].ReadFails?;
        }
      }
    }
  }

  lemma {:induction false} EnabledAt(actions: seq<Action>, k: nat)
    requires IsRun(actions) && k < |actions|
    ensures IsRun(actions[..k]) && Enabled(Run(actions[..k]), actions[k])
    decreases |actions|
  {
    if k < |actions| - 1 {
      EnabledAt(Front(actions), k);
      assert Front(actions)[..k] == actions[..k];
    }
  }

  lemma NothingBehindReadError(actions: seq<Action>, j: nat, k: nat)
    requires IsRun(actions) && j < k < |actions| && actions[j].ReadFails?
    ensures !actions[k].ReadFails? && !actions[k].MessageArrives?
  {
    EnabledAt(actions, k);
    assert actions[..k][j].ReadFails?;
    OneReadOutstanding(actions[..k]);
  }

  /** A stream that is closed stays closed. */
  lemma {:induction false} NeverReopens(actions: seq<Action>, k: nat)
    requires k <= |actions| && !Run(actions[..k]).open
    ensures !Run(actions).open && Run(actions).sent == Run(actions[..k]).sent
    decreases |actions|
  {
    if k < |actions| {
      assert Front(actions)[..k] == actions[..k];
      NeverReopens(Front(actions), k);
      StaysClosed(Run(Front(actions)), Last(actions));
    } else {
      assert actions[..k] == actions;
    }
  }

  lemma StaysClosed(s: State, a: Action)
    requires !s.open
    ensures !Step(s, a).open && Step(s, a).sent == s.sent
  {
  }

  // ----- The class -----

  lemma MessageStep(s: State, m: Incoming, id: Result<string>)
    requires id == if Addressed(m, IdOf(m)) then Ok(IdOf(m)) else Err
    ensures id.Ok? ==> Addressed(m, id.value)
    ensures Step(s, MessageArrives(m)) ==
            if id.Ok? && Callable(s.handlers, id.value) && Carries(m.json) then
              s.(calls := s.calls + [Delivery(m, id.value, s.handlers[id.value].target)])
            else s
  {
  }

  ghost predicate Walked(handlers: map<string, Handler>, order: seq<string>, left: set<string>) {
    && left <= handlers.Keys
    && (forall i, j | 0 <= i < j < |order| :: order[i] != order[j])
    && (forall id :: id in order <==> id in handlers && id !in left)
  }

  lemma WalkOne(handlers: map<string, Handler>, order: seq<string>, left: set<string>, id: string)
    requires Walked(handlers, order, left) && id in left
    ensures Walked(handlers, order + [id], left - {id})
  {
    forall i | 0 <= i < |order| ensures order[i] != id {
      assert order[i] in order;
    }
  }

  lemma NoticesAppend(handlers: map<string, Handler>, order: seq<string>, id: string, reason: string)
    ensures Notices(handlers, order + [id], reason) ==
            Notices(handlers, order, reason) +
            (if Callable(handlers, id) then [Notice(id, handlers[id].target, reason)] else [])
  {
    assert (order + [id])[..|order|] == order;
  }

  class GraphSubscriptionWebSocketHandler {
    var onReadHandlers: map<string, Handler>
    var streamOpen: bool
    var readsOutstanding: nat
    ghost var sent: seq<Outgoing>
    ghost var calls: seq<Call>

    ghost function View(): State
      reads this
    {
      State(onReadHandlers, streamOpen, readsOutstanding, sent, calls)
    }

    /** The connection is made and acknowledged. */
    constructor ()
      ensures View() == INITIAL
    {
      onReadHandlers, streamOpen, readsOutstanding := map[], true, 1;
      sent, calls := [ConnectionInit], [];
    }

    /** `SendMessage`; the result says whether the write threw. */
    method SendMessage(message: Outgoing, write: Write) returns (thrown: bool)
      modifies this`streamOpen, this`sent
      ensures View() == Send(old(View()), message, write)
      ensures thrown == (old(streamOpen) && write.Fails?)
    {
      thrown := false;
      if streamOpen {
        sent := sent + [message];
        if write.Fails? {
          streamOpen := !write.closes;
          thrown := true;
        }
      }
    }

    /** `subscriptionId` is the fresh UUID. When the write throws, no id is returned. */
    method StartSubscription(subscriptionId: string, operationName: string, query: string, variables: Json,
                             onReadHandler: Handler, write: Write) returns (r: Result<string>)
      modifies this
      ensures View() == Step(old(View()), Action.StartSubscription(
                                            subscriptionId, operationName, query, variables, onReadHandler, write))
      ensures r == if old(streamOpen) && write.Fails? then Err else Ok(subscriptionId)
    {
      var message := StartMessage(subscriptionId, UpToNul(operationName), UpToNul(query), variables);
      onReadHandlers := onReadHandlers[subscriptionId := onReadHandler];
      var thrown := SendMessage(message, write);
      r := if thrown then Err else Ok(subscriptionId);
    }

    method StopSubscription(subscriptionId: string, write: Write)
      modifies this
      ensures View() == Step(old(View()), Action.StopSubscription(subscriptionId, write))
    {
      if subscriptionId !in onReadHandlers {
        return;
      }
      onReadHandlers := onReadHandlers - {subscriptionId};
      var thrown := SendMessage(StopMessage(subscriptionId), write);
    }

    /** Calls every callback, in whatever order the table yields them. */
    method NotifyAll(reason: string) returns (order: seq<string>)
      modifies this`calls
      ensures Lists(order, onReadHandlers)
      ensures calls == old(calls) + Notices(onReadHandlers, order, reason)
    {
      order := [];
      var left := onReadHandlers.Keys;
      while left != {}
        invariant Walked(onReadHandlers, order, left)
        invariant calls == old(calls) + Notices(onReadHandlers, order, reason)
        decreases |left|
      {
        var id :| id in left;
        left := left - {id};
        WalkOne(onReadHandlers, order, left + {id}, id);
        assert left + {id} - {id} == left;
        NoticesAppend(onReadHandlers, order, id, reason);
        if onReadHandlers[id].Calls? {
          calls := calls + [Notice(id, onReadHandlers[id].target, reason)];
        }
        order := order + [id];
      }
    }

    method StopAllSubscriptions() returns (order: seq<string>)
      modifies this
      ensures Enabled(old(View()), Action.StopAllSubscriptions(order))
      ensures View() == Step(old(View()), Action.StopAllSubscriptions(order))
    {
      if streamOpen {
        streamOpen := false;
      }
      order := NotifyAll(CLOSED_REASON);
    }

    /** The completion of a read that failed: no further read is started. */
    method OnReadError(reason: string, closes: bool) returns (order: seq<string>)
      requires readsOutstanding > 0
      modifies this
      ensures Enabled(old(View()), ReadFails(reason, order, closes))
      ensures View() == Step(old(View()), ReadFails(reason, order, closes))
    {
      readsOutstanding := readsOutstanding - 1;
      streamOpen := streamOpen && !closes;
      order := NotifyAll(reason);
    }

    /** The id a message is for, unless it does not say or is a keep-alive. */
    static method MessageId(message: Incoming) returns (r: Result<string>)
      ensures r == if Addressed(message, IdOf(message)) then Ok(IdOf(message)) else Err
    {
      if message.Unparseable? {
        return Err;
      }
      var result := message.json;
      if !result.Object? || !HasMember(result, "type") || !GetMember(result, "type").String? {
        return Err;
      }
      var messageType := StringOf(result, "type");
      if messageType == "pong" || messageType == "ka" {
        return Err;
      }
      if !HasMember(result, "id") || !GetMember(result, "id").String? {
        return Err;
      }
      return Ok(StringOf(result, "id"));
    }

    method Invoke(id: string, target: nat, message: Incoming)
      requires Addressed(message, id)
      modifies this`calls
      ensures calls == if Carries(message.json) then old(calls) + [Delivery(message, id, target)] else old(calls)
    {
      var result := message.json;
      if HasMember(result, "payload") && GetMember(result, "payload").Object? {
        var payload := GetMember(result, "payload");
        if HasMember(payload, "errors") && GetMember(payload, "errors").Array? {
          calls := calls + [Call(id, target, GetMember(payload, "errors"), Null)];
        } else if HasMember(payload, "data") && GetMember(payload, "data").Object? {
          calls := calls + [Call(id, target, Null, GetMember(payload, "data"))];
        }
      }
    }

    /** The completion of a read that brought a message; every way out starts the next read. */
    method OnMessage(message: Incoming)
      requires readsOutstanding > 0
      modifies this
      ensures View() == Step(old(View()), MessageArrives(message))
    {
      readsOutstanding := readsOutstanding - 1;
      var id := MessageId(message);
      MessageStep(old(View()), message, id);
      if id.Err? {
        readsOutstanding := readsOutstanding + 1;
        return;
      }
      if id.value in onReadHandlers && onReadHandlers[id.value].Calls? {
        Invoke(id.value, onReadHandlers[id.value].target, message);
      }
      readsOutstanding := readsOutstanding + 1;
    }
  }
}
