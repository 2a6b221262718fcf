/** ZmqClient::Call over a REQ socket (ZeroMQ specification 28/REQREP, section "The REQ Socket
    Type"). Times are milliseconds since the call began. */
module ReqRep {

  /** A REQ socket is idle or waits for the reply to one request; `Gone` is a null pointer. */
  datatype Socket = Idle | Awaiting(request: nat) | Gone

  /** What replacing the socket does: it works, the new socket does not connect, or there is no new
      socket. The last two throw. */
  datatype Reconnect = Connects | NotConnected | NoSocket

  /** What send does: it takes the message, returns false, throws EAGAIN or throws another error. */
  datatype SendAnswer = Accepted | WouldBlock | SendAgain | Refused

  /** What recv does on a readable socket; an empty-handed return leaves the reply empty. */
  datatype ReceiveAnswer = Got | Nothing | ReceiveAgain | ReceiveError

  datatype PollAnswer = PollAgain | PollError | NotReadable | Readable(answer: ReceiveAnswer)

  /** The surroundings of one iteration: how long it takes, apart from sleeping, and whether the
      preemption check throws. */
  datatype SendStep = SendStep(answer: SendAnswer, wait: nat, preempts: bool, reconnect: Reconnect)
  datatype ReceiveStep = ReceiveStep(answer: PollAnswer, wait: nat, preempts: bool, reconnect: Reconnect)

  /** The surroundings of one call: the time before the first guard, the iterations, and the time
      between leaving each loop and the check behind it. */
  datatype Surroundings = Surroundings(begin: nat, sends: seq<SendStep>, late: nat, receives: seq<ReceiveStep>,
      later: nat)

  datatype Outcome =
    | Reply(request: nat)   // the reply to that request
    | EmptyReply | NoReply  // the empty string
    | SendTimeout | SendFailed | ReceiveTimeout | ReceiveFailed | LateTimeout | Preempted
    | RecreateFailed        // replacing the socket threw
    | NullSocket            // a null socket was used
    | Pending               // the surroundings end here

  datatype Exit = Left | Ends(outcome: Outcome)

  /** Where a loop stands: `again` counts the iterations after the first poll returned. */
  datatype Progress = Progress(socket: Socket, now: nat, recreated: bool, receivedOnce: bool,
                               tries: nat, again: nat, accepted: nat, recreations: nat)

  const SLEEP := 100

  function Answer(s: Socket, a: SendAnswer): SendAnswer {
    if s.Awaiting? then Refused else a
  }

  /** A poll without a timeout returns only when the socket is readable. */
  function PollResult(s: Socket, a: PollAnswer): PollAnswer {
    if a.Readable? && !s.Awaiting? then NotReadable else a
  }

  /** `_InitializeSocket` */
  function Recreated(p: Progress, reconnect: Reconnect): Progress {
    p.(socket := if reconnect.NoSocket? then Gone else Idle, recreated := true, recreations := p.recreations + 1)
  }

  // ----- The send loop -----

  function Sending(timeout: real, request: nat, steps: seq<SendStep>, i: nat, p: Progress): (Progress, Exit)
    requires i <= |steps|
    decreases |steps| - i
  {
    if p.now as real >= timeout then (p, Left)
    else if p.socket.Gone? then (p, Ends(NullSocket))
    else if i == |steps| then (p, Ends(Pending))
    else
      var q := p.(tries := p.tries + 1, now := p.now + steps[i].wait);
      match Answer(p.socket, steps[i].answer)
      case Accepted => (q.(socket := Awaiting(request), accepted := p.accepted + 1), Left)
      case WouldBlock => (q, Left)
      case SendAgain => Sending(timeout, request, steps, i + 1, q.(now := q.now + SLEEP))
      case Refused =>
        if p.recreated then (q, Ends(SendFailed))
        else
          var r := Recreated(q, steps[i].reconnect);
          if !steps[i].reconnect.Connects? then (r, Ends(RecreateFailed))
          else if steps[i].preempts then (r, Ends(Preempted)) else Sending(timeout, request, steps, i + 1, r)
  }

  // ----- The receive loop -----

  /** One more iteration. */
  function Turn(p: Progress, wait: nat): Progress {
    p.(tries := p.tries + 1, again := if p.receivedOnce then p.again + 1 else p.again, now := p.now + wait)
  }

  function Receiving(timeout: real, steps: seq<ReceiveStep>, i: nat, p: Progress): (Progress, Exit)
    requires i <= |steps|
    decreases |steps| - i
  {
    if p.receivedOnce && p.now as real >= timeout then (p, Left)
    else if i == |steps| then (p, Ends(Pending))
    else
      var q := Turn(p, steps[i].wait);
      if steps[i].preempts then (q, Ends(Preempted))
      else if p.socket.Gone? then (q, Ends(NullSocket))
      else match PollResult(p.socket, steps[i].answer)
        case PollAgain => Receiving(timeout, steps, i + 1, q.(now := q.now + SLEEP))
        case PollError => Recreating(timeout, steps, i, q)
        case NotReadable =>
          if timeout <= 0.0 then (q, Ends(Pending)) else (q.(receivedOnce := true), Ends(ReceiveTimeout))
        case Readable(a) =>
          var r := q.(receivedOnce := true);
          match a
          case Got => (r.(socket := Idle), Ends(Reply(p.socket.request)))
          case Nothing => (r, Ends(EmptyReply))
          case ReceiveAgain => Receiving(timeout, steps, i + 1, r.(now := r.now + SLEEP))
          case ReceiveError => Recreating(timeout, steps, i, r)
  }

  /** The socket is replaced once; the request is not sent again. */
  function Recreating(timeout: real, steps: seq<ReceiveStep>, i: nat, q: Progress): (Progress, Exit)
    requires i < |steps|
    decreases |steps| - i, 0
  {
    if q.recreated then (q, Ends(ReceiveFailed))
    else if !steps[i].reconnect.Connects? then (Recreated(q, steps[i].reconnect), Ends(RecreateFailed))
    else Receiving(timeout, steps, i + 1, Recreated(q, Connects))
  }

  // ----- One call -----

  /** What a call did: how and when it ended, the socket it left, and its counters. */
  datatype Result = Result(outcome: Outcome, endTime: nat, socket: Socket, sends: nat, accepted: nat,
                           receivesAgain: nat, recreatedSending: nat, recreatedReceiving: nat)

  function Start(s: Socket, now: nat): Progress {
    Progress(s, now, false, false, 0, 0, 0, 0)
  }

  function CallResult(timeout: real, request: nat, s: Socket, e: Surroundings): Result {
    var (p, exit) := Sending(timeout, request, e.sends, 0, Start(s, e.begin));
    if exit.Ends? then Result(exit.outcome, p.now, p.socket, p.tries, p.accepted, 0, p.recreations, 0)
    else if (p.now + e.late) as real > timeout then
      Result(SendTimeout, p.now + e.late, p.socket, p.tries, p.accepted, 0, p.recreations, 0)
    else
      var (q, end) := Receiving(timeout, e.receives, 0, Start(p.socket, p.now + e.late));
      Result(if end.Ends? then end.outcome else if (q.now + e.later) as real > timeout then LateTimeout else NoReply,
             if end.Ends? then q.now else q.now + e.later,
             q.socket, p.tries, p.accepted, q.again, p.recreations, q.recreations)
  }

  // ----- What one call keeps -----

  /** Behind the send loop: the request was accepted once and its reply is awaited, or it was not and
      the socket is idle unless nothing was tried. */
  lemma {:induction false} SendLeaves(timeout: real, request: nat, steps: seq<SendStep>, i: nat, p: Progress)
    requires i <= |steps| && p.accepted == 0 && (p.tries > 0 ==> !p.socket.Awaiting?)
    ensures var (q, exit) := Sending(timeout, request, steps, i, p);
            && q.tries >= p.tries && q.accepted <= 1
            && (q.accepted == 1 ==> q.socket == Awaiting(request) && exit.Left? && q.tries > 0)
            && (q.accepted == 0 ==> q.socket == p.socket || !q.socket.Awaiting?)
            && (q.accepted == 0 && q.tries > 0 && exit.Left? ==> !q.socket.Awaiting?)
            && (q.tries == 0 ==> q.socket == p.socket)
            && (p.now as real >= timeout ==> q == p)
            && (p.now as real < timeout && exit.Left? ==> q.tries > 0)
            && (exit.Ends? ==> exit.outcome != NoReply && !exit.outcome.Reply?)
    decreases |steps| - i
  {
    if (p.now as real) < timeout && i < |steps| {
      var q := p.(tries := p.tries + 1, now := p.now + steps[i].wait);
      match Answer(p.socket, steps[i].answer)
      case SendAgain =>
        SendLeaves(timeout, request, steps, i + 1, q.(now := q.now + SLEEP));
      case Refused =>
        if !p.recreated && !steps[i].preempts {
          SendLeaves(timeout, request, steps, i + 1, Recreated(q, Connects));
        }
      case _ =>
    }
  }

  /** A reply is the one the socket waited for when the loop began, and it leaves the socket idle. */
  lemma {:induction false} ReceiveKeeps(timeout: real, steps: seq<ReceiveStep>, i: nat, p: Progress)
    requires i <= |steps|
    ensures var (q, exit) := Receiving(timeout, steps, i, p);
            && (q.socket == p.socket || !q.socket.Awaiting?)
            && (exit.Ends? && exit.outcome.Reply? ==> p.socket == Awaiting(exit.outcome.request) && q.socket.Idle?)
    decreases |steps| - i
  {
    if !(p.receivedOnce && p.now as real >= timeout) && i < |steps| && !steps[i].preempts {
      var q := Turn(p, steps[i].wait);
      var r := q.(receivedOnce := true);
      match PollResult(p.socket, steps[i].answer)
      case PollAgain => ReceiveKeeps(timeout, steps, i + 1, q.(now := q.now + SLEEP));
      case PollError => ReceiveKeeps(timeout, steps, i + 1, Recreated(q, Connects));
      case NotReadable =>
      case Readable(a) =>
        match a {
          case ReceiveAgain => ReceiveKeeps(timeout, steps, i + 1, r.(now := r.now + SLEEP));
          case ReceiveError => ReceiveKeeps(timeout, steps, i + 1, Recreated(r, Connects));
          case _ =>
        }
    }
  }

  /** One call: it sends its request at most once; a reply is its own exactly when it tried to send,
      which it does exactly when the first guard finds time left. */
  lemma CallKeeps(timeout: real, request: nat, s: Socket, e: Surroundings)
    ensures var r := CallResult(timeout, request, s, e);
            && r.accepted <= 1 && (r.accepted == 1 ==> r.sends > 0)
            && (e.begin as real >= timeout ==> r.sends == 0)
            && (r.outcome.Reply? && r.sends == 0 ==> e.begin as real >= timeout)
            && (r.outcome.Reply? && r.sends > 0 ==> r.outcome.request == request && r.accepted == 1)
            && (r.outcome.Reply? && r.sends == 0 ==> s == Awaiting(r.outcome.request))
            && (r.outcome.Reply? ==> r.socket.Idle?)
            && (!r.socket.Awaiting? || r.socket == s || (r.accepted == 1 && r.socket == Awaiting(request)))
  {
    SendLeaves(timeout, request, e.sends, 0, Start(s, e.begin));
    var (p, exit) := Sending(timeout, request, e.sends, 0, Start(s, e.begin));
    ReceiveKeeps(timeout, e.receives, 0, Start(p.socket, p.now + e.late));
  }

  /** A socket replaced while receiving never brings a reply: the request is lost with the old one. */
  lemma {:induction false} LostWithSocket(timeout: real, steps: seq<ReceiveStep>, i: nat, p: Progress)
    requires i <= |steps| && (p.recreated ==> !p.socket.Awaiting?)
    ensures var (q, exit) := Receiving(timeout, steps, i, p);
            && (q.recreated ==> !q.socket.Awaiting?)
            && (q.recreated && exit.Ends? ==> !exit.outcome.Reply? && exit.outcome != EmptyReply)
    decreases |steps| - i
  {
    if !(p.receivedOnce && p.now as real >= timeout) && i < |steps| && !steps[i].preempts {
      var q := Turn(p, steps[i].wait);
      var r := q.(receivedOnce := true);
      match PollResult(p.socket, steps[i].answer)
      case PollAgain => LostWithSocket(timeout, steps, i + 1, q.(now := q.now + SLEEP));
      case PollError => LostWithSocket(timeout, steps, i + 1, Recreated(q, Connects));
      case NotReadable =>
      case Readable(a) =>
        match a {
          case ReceiveAgain => LostWithSocket(timeout, steps, i + 1, r.(now := r.now + SLEEP));
          case ReceiveError => LostWithSocket(timeout, steps, i + 1, Recreated(r, Connects));
          case _ =>
        }
    }
  }

  lemma {:induction false} ReceiveOutcomes(timeout: real, steps: seq<ReceiveStep>, i: nat, p: Progress)
    requires i <= |steps|
    ensures var (q, exit) := Receiving(timeout, steps, i, p);
            && (exit == Ends(ReceiveFailed) || exit == Ends(RecreateFailed) ==> q.recreated)
            && (exit == Ends(EmptyReply) ==> q.socket.Awaiting?)
            && (exit.Left? ==> q.now as real >= timeout)
            && (exit.Ends? ==> exit.outcome !in {SendTimeout, SendFailed, LateTimeout, NoReply})
            && (q.socket.Gone? ==> p.socket.Gone? || exit == Ends(RecreateFailed))
            && (exit == Ends(NullSocket) ==> p.socket.Gone?)
    decreases |steps| - i
  {
    if !(p.receivedOnce && p.now as real >= timeout) && i < |steps| && !steps[i].preempts {
      var q := Turn(p, steps[i].wait);
      var r := q.(receivedOnce := true);
      match PollResult(p.socket, steps[i].answer)
      case PollAgain => ReceiveOutcomes(timeout, steps, i + 1, q.(now := q.now + SLEEP));
      case PollError => ReceiveOutcomes(timeout, steps, i + 1, Recreated(q, Connects));
      case NotReadable =>
      case Readable(a) =>
        match a {
          case ReceiveAgain => ReceiveOutcomes(timeout, steps, i + 1, r.(now := r.now + SLEEP));
          case ReceiveError => ReceiveOutcomes(timeout, steps, i + 1, Recreated(r, Connects));
          case _ =>
        }
    }
  }

  lemma {:induction false} SendOutcomes(timeout: real, request: nat, steps: seq<SendStep>, i: nat, p: Progress)
    requires i <= |steps| && (p.recreated ==> p.recreations > 0)
    ensures var (q, exit) := Sending(timeout, request, steps, i, p);
            && (exit.Ends? ==> exit.outcome in {SendFailed, Preempted, Pending, RecreateFailed, NullSocket})
            && (exit.Ends? && exit.outcome in {SendFailed, Preempted, RecreateFailed} ==>
                  q.recreations > 0 && q.accepted == p.accepted)
            && (exit == Ends(RecreateFailed) ==> !q.socket.Awaiting?)
            && (q.socket.Gone? ==> p.socket.Gone? || exit == Ends(RecreateFailed))
            && (exit == Ends(NullSocket) ==> p.socket.Gone?)
    decreases |steps| - i
  {
    if (p.now as real) < timeout && i < |steps| {
      var q := p.(tries := p.tries + 1, now := p.now + steps[i].wait);
      match Answer(p.socket, steps[i].answer)
      case SendAgain => SendOutcomes(timeout, request, steps, i + 1, q.(now := q.now + SLEEP));
      case Refused =>
        if !p.recreated && !steps[i].preempts {
          SendOutcomes(timeout, request, steps, i + 1, Recreated(q, Connects));
        }
      case _ =>
    }
  }

  /** What the ways a call can end tell the caller. */
  lemma OutcomesMean(timeout: real, request: nat, s: Socket, e: Surroundings)
    ensures var r := CallResult(timeout, request, s, e);
            && (r.outcome == SendFailed ==> r.recreatedSending > 0 && r.accepted == 0)
            && (r.outcome == ReceiveFailed ==> r.recreatedReceiving > 0)
            && (r.outcome == NoReply ==> r.endTime as real == timeout)
            && (r.outcome == SendTimeout || r.outcome == LateTimeout ==> r.endTime as real > timeout)
            && (r.outcome == EmptyReply ==> r.socket.Awaiting?)
            && (r.recreatedReceiving > 0 ==> !r.outcome.Reply? && r.outcome != EmptyReply && !r.socket.Awaiting?)
            && (r.outcome == RecreateFailed ==> r.recreatedSending + r.recreatedReceiving > 0 && !r.socket.Awaiting?)
            && (r.outcome == NullSocket ==> s.Gone?)
            && (r.socket.Gone? ==> s.Gone? || r.outcome == RecreateFailed)
  {
    var start := Start(s, e.begin);
    SendOutcomes(timeout, request, e.sends, 0, start);
    var (p, _) := Sending(timeout, request, e.sends, 0, start);
    SendLeaves(timeout, request, e.sends, 0, start);
    LostWithSocket(timeout, e.receives, 0, Start(p.socket, p.now + e.late));
    ReceiveOutcomes(timeout, e.receives, 0, Start(p.socket, p.now + e.late));
    ReceiveRecreates(timeout, e.receives, 0, Start(p.socket, p.now + e.late));
    var (q, _) := Receiving(timeout, e.receives, 0, Start(p.socket, p.now + e.late));
    assert (q.now + e.later) as real == q.now as real + e.later as real;
  }

  // ----- Any sequence of calls on one client -----

  datatype Call = Call(timeout: real, surroundings: Surroundings)

  /** Call k sends request k on the socket its predecessors left. */
  function SocketAfter(calls: seq<Call>, k: nat): Socket
    requires k <= |calls|
    decreases k, 0
  {
    if k == 0 then Idle else ResultOf(calls, k - 1).socket
  }

  function ResultOf(calls: seq<Call>, k: nat): Result
    requires k < |calls|
    decreases k, 1
  {
    CallResult(calls[k].timeout, k, SocketAfter(calls, k), calls[k].surroundings)
  }

  predicate Replies(calls: seq<Call>, k: nat, request: nat) {
    k < |calls| && ResultOf(calls, k).outcome == Reply(request)
  }

  /** An awaited reply is that to an earlier, accepted request, and no call has returned it. */
  lemma {:induction false} AwaitedReply(calls: seq<Call>, k: nat)
    requires k <= |calls|
    ensures SocketAfter(calls, k).Awaiting? ==>
              var j := SocketAfter(calls, k).request;
              j < k && ResultOf(calls, j).accepted == 1 && forall i: nat | i < k :: !Replies(calls, i, j)
    ensures forall i: nat, j: nat | i < k && j >= k :: !Replies(calls, i, j)
  {
    if k > 0 {
      AwaitedReply(calls, k - 1);
      CallKeeps(calls[k - 1].timeout, k - 1, SocketAfter(calls, k - 1), calls[k - 1].surroundings);
    }
  }

  /** Over every sequence of calls, timed out and preempted ones included: a call that returns a reply
      returns the reply to its own request exactly when it got to send, that is when its first guard
      found time left; otherwise the reply is a stale one, to an earlier request. */
  lemma RepliesAreOwn(calls: seq<Call>, k: nat, request: nat)
    requires Replies(calls, k, request)
    ensures request == k <==> ResultOf(calls, k).accepted == 1
    ensures request == k <==> calls[k].surroundings.begin as real < calls[k].timeout
    ensures request <= k && ResultOf(calls, request).accepted == 1
  {
    AwaitedReply(calls, k);
    CallKeeps(calls[k].timeout, k, SocketAfter(calls, k), calls[k].surroundings);
  }

  /** No reply is returned twice. */
  lemma RepliesOnce(calls: seq<Call>, i: nat, k: nat, request: nat)
    requires Replies(calls, i, request) && Replies(calls, k, request)
    ensures i == k
  {
    if i < k {
      NotRepliedAgain(calls, i, k, request);
    } else if k < i {
      NotRepliedAgain(calls, k, i, request);
    }
  }

  lemma NotRepliedAgain(calls: seq<Call>, i: nat, k: nat, request: nat)
    requires i < k && Replies(calls, i, request)
    ensures !Replies(calls, k, request)
  {
    if k < |calls| {
      AwaitedReply(calls, k);
      CallKeeps(calls[k].timeout, k, SocketAfter(calls, k), calls[k].surroundings);
    }
  }

  /** A timeout of 0, meant as "wait for ever", never sends, and returns a stale reply if there is one:
      the first call sends and is preempted, the second returns the reply to it. */
  lemma StaleReply() returns (calls: seq<Call>)
    ensures |calls| == 2 && calls[1].timeout == 0.0
    ensures Replies(calls, 1, 0)
  {
    var (send, receive) := (SendStep(Accepted, 0, false, Connects), ReceiveStep(PollAgain, 0, true, Connects));
    var first := Surroundings(0, [send], 0, [receive], 0);
    var second := Surroundings(0, [], 0, [ReceiveStep(Readable(Got), 0, false, Connects)], 0);
    calls := [Call(1.0, first), Call(0.0, second)];
    assert ResultOf(calls, 0) == Result(Preempted, 0, Awaiting(0), 1, 1, 0, 0, 0);
    assert SocketAfter(calls, 1) == Awaiting(0);
    assert ResultOf(calls, 1).outcome == Reply(0);
  }

  // ----- Calls without a socket -----

  /** Whether a call gets to use its socket: it has time to send, or it comes to poll at once. */
  predicate UsesSocket(call: Call) {
    var e := call.surroundings;
    e.begin as real < call.timeout
    || ((e.begin + e.late) as real <= call.timeout && e.receives != [] && !e.receives[0].preempts)
  }

  /** When there is no socket, a call uses the null pointer exactly when it gets to use a socket at
      all, and no call ever makes a new one. */
  lemma NullSocketIff(call: Call, request: nat, s: Socket)
    requires s.Gone?
    ensures var r := CallResult(call.timeout, request, s, call.surroundings);
            (r.outcome == NullSocket <==> UsesSocket(call)) && r.socket.Gone?
  {
  }

  /** After a call that could not make a new socket every later call finds none, and uses the null
      pointer exactly when it gets to use a socket. */
  lemma {:induction false} NullSocketForGood(calls: seq<Call>, j: nat, k: nat)
    requires j < k < |calls|
    requires ResultOf(calls, j).socket.Gone?
    ensures SocketAfter(calls, k).Gone?
    ensures ResultOf(calls, k).outcome == NullSocket <==> UsesSocket(calls[k])
  {
    if k > j + 1 {
      NullSocketForGood(calls, j, k - 1);
      NullSocketIff(calls[k - 1], k - 1, SocketAfter(calls, k - 1));
    }
    NullSocketIff(calls[k], k, SocketAfter(calls, k));
  }

  /** Two calls: the send of the first is refused and no new socket can be made; the second, like any
      call with time left, uses the null pointer. */
  lemma NullSocketUsed(timeout: real, second: Call) returns (calls: seq<Call>)
    requires timeout > 0.0 && second.surroundings.begin as real < second.timeout
    ensures |calls| == 2 && calls[0].timeout == timeout && calls[1] == second
    ensures ResultOf(calls, 0).outcome == RecreateFailed && ResultOf(calls, 1).outcome == NullSocket
  {
    var first := Surroundings(0, [SendStep(Refused, 0, false, NoSocket)], 0, [], 0);
    calls := [Call(timeout, first), second];
    assert ResultOf(calls, 0) == CallResult(timeout, 0, Idle, first);
    NullSocketForGood(calls, 0, 1);
  }

  // ----- How often the loops turn -----

  /** ceil(timeout / 100) */
  function Hundreds(timeout: real): int {
    -((-timeout / 100.0).Floor)
  }

  lemma HundredsBound(timeout: real, n: int)
    requires (n * SLEEP) as real < timeout
    ensures n < Hundreds(timeout)
  {
    assert (n as real) < timeout / 100.0;
  }

  /** Every try but one took a sleep. */
  ghost predicate SleptBetween(p: Progress) {
    (p.tries - (if p.recreated then 1 else 0)) * SLEEP <= p.now
  }

  lemma {:induction false} SendTries(timeout: real, request: nat, steps: seq<SendStep>, i: nat, p: Progress)
    requires i <= |steps| && SleptBetween(p) && (p.tries == 0 || p.tries <= Hundreds(timeout) + 1)
    ensures var (q, _) := Sending(timeout, request, steps, i, p); q.tries == 0 || q.tries <= Hundreds(timeout) + 1
    decreases |steps| - i
  {
    if (p.now as real) < timeout && i < |steps| {
      HundredsBound(timeout, p.tries - if p.recreated then 1 else 0);
      var q := p.(tries := p.tries + 1, now := p.now + steps[i].wait);
      match Answer(p.socket, steps[i].answer)
      case SendAgain =>
        SendTries(timeout, request, steps, i + 1, q.(now := q.now + SLEEP));
      case Refused =>
        if !p.recreated && !steps[i].preempts {
          SendTries(timeout, request, steps, i + 1, Recreated(q, Connects));
        }
      case _ =>
    }
  }

  ghost predicate SleptBetweenReceives(p: Progress) {
    (p.again - (if p.recreated then 1 else 0)) * SLEEP <= p.now
  }

  lemma {:induction false} ReceiveTries(timeout: real, steps: seq<ReceiveStep>, i: nat, p: Progress)
    requires i <= |steps| && SleptBetweenReceives(p) && (p.again == 0 || p.again <= Hundreds(timeout) + 1)
    ensures var (q, _) := Receiving(timeout, steps, i, p); q.again == 0 || q.again <= Hundreds(timeout) + 1
    decreases |steps| - i
  {
    if !(p.receivedOnce && p.now as real >= timeout) && i < |steps| {
      var q := Turn(p, steps[i].wait);
      if p.receivedOnce {
        HundredsBound(timeout, p.again - if p.recreated then 1 else 0);
      }
      if !steps[i].preempts {
        var r := q.(receivedOnce := true);
        match PollResult(p.socket, steps[i].answer)
        case PollAgain => ReceiveTries(timeout, steps, i + 1, q.(now := q.now + SLEEP));
        case PollError => ReceiveTriesOn(timeout, steps, i, p, q);
        case NotReadable =>
        case Readable(a) =>
          match a {
            case ReceiveAgain => ReceiveTries(timeout, steps, i + 1, r.(now := r.now + SLEEP));
            case ReceiveError => ReceiveTriesOn(timeout, steps, i, p, r);
            case _ =>
          }
      }
    }
  }

  lemma {:induction false} ReceiveTriesOn(timeout: real, steps: seq<ReceiveStep>, i: nat, p: Progress, q: Progress)
    requires i < |steps| && SleptBetweenReceives(p) && q.now >= p.now && q.recreated == p.recreated
    requires q.again <= p.again + 1 && (q.again == 0 || q.again <= Hundreds(timeout) + 1)
    ensures var (r, _) := Recreating(timeout, steps, i, q); r.again == 0 || r.again <= Hundreds(timeout) + 1
    decreases |steps| - i, 0
  {
    if !q.recreated {
      ReceiveTries(timeout, steps, i + 1, Recreated(q, Connects));
    }
  }

  lemma {:induction false} SendRecreates(timeout: real, request: nat, steps: seq<SendStep>, i: nat, p: Progress)
    requires i <= |steps| && p.recreations == if p.recreated then 1 else 0
    ensures Sending(timeout, request, steps, i, p).0.recreations <= 1
    decreases |steps| - i
  {
    if (p.now as real) < timeout && i < |steps| {
      var q := p.(tries := p.tries + 1, now := p.now + steps[i].wait);
      match Answer(p.socket, steps[i].answer)
      case SendAgain => SendRecreates(timeout, request, steps, i + 1, q.(now := q.now + SLEEP));
      case Refused =>
        if !p.recreated && !steps[i].preempts {
          SendRecreates(timeout, request, steps, i + 1, Recreated(q, Connects));
        }
      case _ =>
    }
  }

  lemma {:induction false} ReceiveRecreates(timeout: real, steps: seq<ReceiveStep>, i: nat, p: Progress)
    requires i <= |steps| && p.recreations == if p.recreated then 1 else 0
    ensures var (q, _) := Receiving(timeout, steps, i, p); q.recreations == if q.recreated then 1 else 0
    decreases |steps| - i
  {
    if !(p.receivedOnce && p.now as real >= timeout) && i < |steps| && !steps[i].preempts {
      var q := Turn(p, steps[i].wait);
      var r := q.(receivedOnce := true);
      match PollResult(p.socket, steps[i].answer)
      case PollAgain => ReceiveRecreates(timeout, steps, i + 1, q.(now := q.now + SLEEP));
      case PollError =>
        if !q.recreated {
          ReceiveRecreates(timeout, steps, i + 1, Recreated(q, Connects));
        }
      case NotReadable =>
      case Readable(a) =>
        match a {
          case ReceiveAgain => ReceiveRecreates(timeout, steps, i + 1, r.(now := r.now + SLEEP));
          case ReceiveError =>
            if !q.recreated {
              ReceiveRecreates(timeout, steps, i + 1, Recreated(r, Connects));
            }
          case _ =>
        }
    }
  }

  /** Every call: at most ceil(T/100) + 1 send attempts and, once one poll has returned, at most
      ceil(T/100) + 1 further receive iterations; one new socket per loop. */
  lemma CallIsBounded(timeout: real, request: nat, s: Socket, e: Surroundings)
    ensures var r := CallResult(timeout, request, s, e);
            && (r.sends == 0 || r.sends <= Hundreds(timeout) + 1)
            && (r.receivesAgain == 0 || r.receivesAgain <= Hundreds(timeout) + 1)
            && r.recreatedSending <= 1 && r.recreatedReceiving <= 1
  {
    var start := Start(s, e.begin);
    var (p, _) := Sending(timeout, request, e.sends, 0, start);
    SendTries(timeout, request, e.sends, 0, start);
    SendRecreates(timeout, request, e.sends, 0, start);
    var again := Start(p.socket, p.now + e.late);
    ReceiveTries(timeout, e.receives, 0, again);
    ReceiveRecreates(timeout, e.receives, 0, again);
  }

  function Repeat(n: nat): seq<ReceiveStep> {
    seq(n, _ => ReceiveStep(PollAgain, 0, false, Connects))
  }

  /** Until a poll returns there is no bound: however often it reports EAGAIN, the loop goes on, long
      past the timeout. */
  lemma {:induction false} NoBoundBeforePoll(timeout: real, n: nat, i: nat, p: Progress)
    requires i <= n && !p.receivedOnce && !p.socket.Gone?
    ensures var (q, exit) := Receiving(timeout, Repeat(n), i, p);
            q.tries == p.tries + n - i && q.now == p.now + SLEEP * (n - i) && exit == Ends(Pending)
    decreases n - i
  {
    if i < n {
      NoBoundBeforePoll(timeout, n, i + 1, p.(tries := p.tries + 1, now := p.now + SLEEP));
    }
  }

  // ----- ZmqClient -----

  class ZmqClient {
    var socket: Socket

    constructor ()
      ensures socket == Idle
    {
      socket := Idle;
    }

    /** The old socket is closed and let go before the new one is made; `ok` is false when this throws. */
    method InitializeSocket(reconnect: Reconnect) returns (ok: bool)
      modifies this
      ensures socket == (if reconnect.NoSocket? then Gone else Idle) && (ok <==> reconnect.Connects?)
    {
      socket := Gone;
      if reconnect.NoSocket? {
        return false;
      }
      socket := Idle;
      ok := reconnect.Connects?;
    }

    method Call(timeout: real, request: nat, e: Surroundings) returns (r: Result)
      modifies this
      ensures r == CallResult(timeout, request, old(socket), e)
      ensures socket == r.socket
    {
      var p, exit := SendLoop(timeout, request, e);
      if exit.Ends? {
        return Result(exit.outcome, p.now, socket, p.tries, p.accepted, 0, p.recreations, 0);
      }
      var now := p.now + e.late;
      if now as real > timeout {
        return Result(SendTimeout, now, socket, p.tries, p.accepted, 0, p.recreations, 0);
      }
      var q, end := ReceiveLoop(timeout, e.receives, now);
      if end.Ends? {
        return Result(end.outcome, q.now, socket, p.tries, p.accepted, q.again, p.recreations, q.recreations);
      }
      now := q.now + e.later;
      var outcome := if now as real > timeout then LateTimeout else NoReply;
      return Result(outcome, now, socket, p.tries, p.accepted, q.again, p.recreations, q.recreations);
    }

    method SendLoop(timeout: real, request: nat, e: Surroundings) returns (p: Progress, exit: Exit)
      modifies this
      ensures (p, exit) == Sending(timeout, request, e.sends, 0, Start(old(socket), e.begin))
      ensures socket == p.socket
    {
      var now: nat, recreatedOnce, tries: nat, recreations: nat := e.begin, false, 0, 0;
      var i := 0;
      while (now as real) < timeout
        invariant i <= |e.sends|
        invariant Sending(timeout, request, e.sends, 0, Start(old(socket), e.begin)) ==
                  Sending(timeout, request, e.sends, i, Progress(socket, now, recreatedOnce, false, tries, 0, 0,
                      recreations))
        decreases |e.sends| - i
      {
        if socket.Gone? {
          return Progress(socket, now, recreatedOnce, false, tries, 0, 0, recreations), Ends(NullSocket);
        }
        if i == |e.sends| {
          return Progress(socket, now, recreatedOnce, false, tries, 0, 0, recreations), Ends(Pending);
        }
        var step := e.sends[i];
        tries := tries + 1;
        now := now + step.wait;
        i := i + 1;
        var answer := Answer(socket, step.answer);
        if answer == Accepted {
          socket := Awaiting(request);
          return Progress(socket, now, recreatedOnce, false, tries, 0, 1, recreations), Left;
        } else if answer == WouldBlock {
          break;
        } else if answer == SendAgain {
          now := now + SLEEP;
          continue;
        }
        if !recreatedOnce {
          var ok := InitializeSocket(step.reconnect);
          recreatedOnce := true;
          recreations := recreations + 1;
          if !ok {
            return Progress(socket, now, recreatedOnce, false, tries, 0, 0, recreations), Ends(RecreateFailed);
          }
        } else {
          return Progress(socket, now, recreatedOnce, false, tries, 0, 0, recreations), Ends(SendFailed);
        }
        if step.preempts {
          return Progress(socket, now, recreatedOnce, false, tries, 0, 0, recreations), Ends(Preempted);
        }
      }
      return Progress(socket, now, recreatedOnce, false, tries, 0, 0, recreations), Left;
    }

    method ReceiveLoop(timeout: real, steps: seq<ReceiveStep>, start: nat) returns (q: Progress, exit: Exit)
      modifies this
      ensures (q, exit) == Receiving(timeout, steps, 0, Start(old(socket), start))
      ensures socket == q.socket
    {
      var now: nat, tries: nat, again: nat, recreations: nat := start, 0, 0, 0;
      var recreatedOnce, receivedOnce := false, false;
      var i := 0;
      while !receivedOnce || (now as real) < timeout
        invariant i <= |steps|
        invariant Receiving(timeout, steps, 0, Start(old(socket), start)) ==
                  Receiving(timeout, steps, i, Progress(socket, now, recreatedOnce, receivedOnce, tries, again, 0,
                      recreations))
        decreases |steps| - i
      {
        if i == |steps| {
          return Progress(socket, now, recreatedOnce, receivedOnce, tries, again, 0, recreations), Ends(Pending);
        }
        var step := steps[i];
        tries := tries + 1;
        again := if receivedOnce then again + 1 else again;
        now := now + step.wait;
        i := i + 1;
        if step.preempts {
          return Progress(socket, now, recreatedOnce, receivedOnce, tries, again, 0, recreations), Ends(Preempted);
        }
        if socket.Gone? {
          return Progress(socket, now, recreatedOnce, receivedOnce, tries, again, 0, recreations), Ends(NullSocket);
        }
        var poll := PollResult(socket, step.answer);
        if poll == PollAgain {
          now := now + SLEEP;
          continue;
        }
        if poll == NotReadable {
          if timeout <= 0.0 {
            return Progress(socket, now, recreatedOnce, receivedOnce, tries, again, 0, recreations), Ends(Pending);
          }
          return Progress(socket, now, recreatedOnce, true, tries, again, 0, recreations), Ends(ReceiveTimeout);
        }
        if poll.Readable? {
          receivedOnce := true;
          if poll.answer == Got {
            var reply := Reply(socket.request);
            socket := Idle;
            return Progress(socket, now, recreatedOnce, receivedOnce, tries, again, 0, recreations), Ends(reply);
          } else if poll.answer == Nothing {
            return Progress(socket, now, recreatedOnce, receivedOnce, tries, again, 0, recreations), Ends(EmptyReply);
          } else if poll.answer == ReceiveAgain {
            now := now + SLEEP;
            continue;
          }
        }
        if !recreatedOnce {
          var ok := InitializeSocket(step.reconnect);
          recreatedOnce := true;
          recreations := recreations + 1;
          if !ok {
            q := Progress(socket, now, recreatedOnce, receivedOnce, tries, again, 0, recreations);
            return q, Ends(RecreateFailed);
          }
        } else {
          return Progress(socket, now, recreatedOnce, receivedOnce, tries, again, 0, recreations), Ends(ReceiveFailed);
        }
      }
      return Progress(socket, now, recreatedOnce, receivedOnce, tries, again, 0, recreations), Left;
    }
  }
}
