/** How one call of ZmqClient goes, told by the answers of the socket one after the other, without the
    loops: which try is the last, which iteration of the receive loop is the last, and what each way of
    ending leaves. */
module Exchange {
  import opened ReqRep

  // ----- Sending -----

  /** What send says to try k: a socket that awaits a reply refuses, and is then replaced. */
  function Said(s: Socket, sends: seq<SendStep>, k: nat): SendAnswer
    requires k < |sends|
  {
    if k == 0 && s.Awaiting? then Refused else sends[k].answer
  }

  /** When try k begins: the code sleeps 100 ms behind EAGAIN. */
  function TryBegins(s: Socket, begin: nat, sends: seq<SendStep>, k: nat): nat
    requires k <= |sends|
  {
    if k == 0 then begin
    else TryBegins(s, begin, sends, k - 1) + sends[k - 1].wait + if Said(s, sends, k - 1).SendAgain? then 100 else 0
  }

  /** An earlier try was refused, so the socket was replaced. */
  predicate RefusedBefore(s: Socket, sends: seq<SendStep>, k: nat)
    requires k <= |sends|
  {
    exists j: nat :: j < k && Said(s, sends, j).Refused?
  }

  /** Another try follows try k: behind EAGAIN, and behind the first refusal if the socket can be
      replaced and the preemption check does not throw. */
  predicate TriedAgain(s: Socket, sends: seq<SendStep>, k: nat)
    requires k < |sends|
  {
    || Said(s, sends, k).SendAgain?
    || (&& Said(s, sends, k).Refused? && !RefusedBefore(s, sends, k)
        && sends[k].reconnect.Connects? && !sends[k].preempts)
  }

  /** Tries 0 to n - 1 were made, each in time, and each was followed by another. */
  predicate TriesReach(timeout: real, s: Socket, begin: nat, sends: seq<SendStep>, n: nat) {
    n <= |sends| &&
    forall k: nat | k < n :: TryBegins(s, begin, sends, k) as real < timeout && TriedAgain(s, sends, k)
  }

  /** The socket of try n: the given one, until a refusal replaces it. */
  function TriedOn(s: Socket, sends: seq<SendStep>, n: nat): Socket
    requires n <= |sends|
  {
    if RefusedBefore(s, sends, n) then Idle else s
  }

  function AfterTries(s: Socket, begin: nat, sends: seq<SendStep>, n: nat): Progress
    requires n <= |sends|
  {
    var replaced := RefusedBefore(s, sends, n);
    Progress(TriedOn(s, sends, n), TryBegins(s, begin, sends, n), replaced, false, n, 0, 0,
      if replaced then 1 else 0)
  }

  lemma {:induction false} SendReaches(timeout: real, request: nat, s: Socket, begin: nat, sends: seq<SendStep>, n: nat)
    requires !s.Gone? && TriesReach(timeout, s, begin, sends, n)
    ensures Sending(timeout, request, sends, 0, Start(s, begin)) ==
            Sending(timeout, request, sends, n, AfterTries(s, begin, sends, n))
  {
    if n > 0 {
      SendReaches(timeout, request, s, begin, sends, n - 1);
      assert TriedAgain(s, sends, n - 1);
      OneMoreTry(s, begin, sends, n - 1);
    }
  }

  lemma OneMoreTry(s: Socket, begin: nat, sends: seq<SendStep>, n: nat)
    requires !s.Gone? && n < |sends|
    ensures RefusedBefore(s, sends, n + 1) <==> RefusedBefore(s, sends, n) || Said(s, sends, n).Refused?
    ensures Answer(AfterTries(s, begin, sends, n).socket, sends[n].answer) == Said(s, sends, n)
  {
    if n > 0 && s.Awaiting? {
      assert Said(s, sends, 0).Refused?;
    }
  }

  /** Try n is the last: time is over, nobody knows its answer, or no other try follows it. */
  predicate LastTry(timeout: real, s: Socket, begin: nat, sends: seq<SendStep>, n: nat) {
    && TriesReach(timeout, s, begin, sends, n)
    && (TryBegins(s, begin, sends, n) as real >= timeout || n == |sends| || !TriedAgain(s, sends, n))
  }

  /** There is a last try. */
  lemma SomeLastTry(timeout: real, s: Socket, begin: nat, sends: seq<SendStep>) returns (n: nat)
    ensures LastTry(timeout, s, begin, sends, n)
  {
    n := 0;
    while n < |sends| && TryBegins(s, begin, sends, n) as real < timeout && TriedAgain(s, sends, n)
      invariant TriesReach(timeout, s, begin, sends, n)
    {
      n := n + 1;
    }
  }

  /** How the send loop ends with its last try. */
  lemma SendEnds(timeout: real, request: nat, s: Socket, begin: nat, sends: seq<SendStep>, n: nat)
    requires !s.Gone? && LastTry(timeout, s, begin, sends, n)
    ensures var (q, exit) := Sending(timeout, request, sends, 0, Start(s, begin));
            var now := TryBegins(s, begin, sends, n);
            if now as real >= timeout then
              exit.Left? && q.accepted == 0 && q.tries == n && q.now == now && q.socket == TriedOn(s, sends, n)
            else if n == |sends| then
              exit == Ends(Pending) && q.accepted == 0
            else
              && q.tries == n + 1 && q.now == now + sends[n].wait
              && match Said(s, sends, n)
                 case Accepted => exit.Left? && q.accepted == 1 && q.socket == Awaiting(request)
                 case WouldBlock => exit.Left? && q.accepted == 0 && q.socket == TriedOn(s, sends, n)
                 case SendAgain => false
                 case Refused =>
                   && q.accepted == 0
                   && if RefusedBefore(s, sends, n) then exit == Ends(SendFailed)
                      else if sends[n].reconnect.Connects? then exit == Ends(Preempted)
                      else exit == Ends(RecreateFailed) && (q.socket.Gone? <==> sends[n].reconnect.NoSocket?)
  {
    SendReaches(timeout, request, s, begin, sends, n);
    if n < |sends| {
      OneMoreTry(s, begin, sends, n);
    }
  }

  /** Unless send itself returns without sending, the loop goes on until the message is accepted or time
      is over, or an exception ends the call. */
  lemma GivesUpOnlyInTime(timeout: real, request: nat, s: Socket, begin: nat, sends: seq<SendStep>)
    requires !s.Gone? && forall k | 0 <= k < |sends| :: !sends[k].answer.WouldBlock?
    ensures var (q, exit) := Sending(timeout, request, sends, 0, Start(s, begin));
            exit.Left? ==> q.accepted == 1 || q.now as real >= timeout
  {
    var n := SomeLastTry(timeout, s, begin, sends);
    SendEnds(timeout, request, s, begin, sends, n);
  }

  // ----- Receiving -----

  predicate Breaks(a: PollAnswer) {
    a.PollError? || a == Readable(ReceiveError)
  }

  /** What poll and recv say in iteration k: a socket that awaits nothing is never readable, and the one
      that replaces a broken one awaits nothing. */
  function Heard(s: Socket, receives: seq<ReceiveStep>, k: nat): PollAnswer
    requires k < |receives|
    decreases k, 1
  {
    if receives[k].answer.Readable? && (!s.Awaiting? || BrokenBefore(s, receives, k)) then NotReadable
    else receives[k].answer
  }

  /** The socket broke in an earlier iteration and was replaced. */
  predicate BrokenBefore(s: Socket, receives: seq<ReceiveStep>, k: nat)
    requires k <= |receives|
    decreases k, 0
  {
    k > 0 && (BrokenBefore(s, receives, k - 1) || Breaks(Heard(s, receives, k - 1)))
  }

  function TurnBegins(s: Socket, start: nat, receives: seq<ReceiveStep>, k: nat): nat
    requires k <= |receives|
  {
    if k == 0 then start
    else
      TurnBegins(s, start, receives, k - 1) + receives[k - 1].wait +
      if Heard(s, receives, k - 1) in {PollAgain, Readable(ReceiveAgain)} then 100 else 0
  }

  /** A poll returned in an earlier iteration. */
  predicate PolledBefore(s: Socket, receives: seq<ReceiveStep>, k: nat)
    requires k <= |receives|
  {
    exists j: nat :: j < k && Heard(s, receives, j).Readable?
  }

  /** Time counts only once a poll has returned. */
  predicate InTime(timeout: real, s: Socket, start: nat, receives: seq<ReceiveStep>, k: nat)
    requires k <= |receives|
  {
    PolledBefore(s, receives, k) ==> TurnBegins(s, start, receives, k) as real < timeout
  }

  /** Another iteration follows iteration k: behind EAGAIN from poll or recv, and behind the first
      error if the socket can be replaced. */
  predicate GoesRound(s: Socket, receives: seq<ReceiveStep>, k: nat)
    requires k < |receives|
  {
    && !receives[k].preempts
    && (|| Heard(s, receives, k) in {PollAgain, Readable(ReceiveAgain)}
        || (Breaks(Heard(s, receives, k)) && !BrokenBefore(s, receives, k) && receives[k].reconnect.Connects?))
  }

  predicate TurnsReach(timeout: real, s: Socket, start: nat, receives: seq<ReceiveStep>, m: nat) {
    m <= |receives| && forall k: nat | k < m :: InTime(timeout, s, start, receives, k) && GoesRound(s, receives, k)
  }

  ghost predicate IsAfterTurns(p: Progress, s: Socket, start: nat, receives: seq<ReceiveStep>, m: nat)
    requires m <= |receives|
  {
    && p.now == TurnBegins(s, start, receives, m)
    && p.recreated == BrokenBefore(s, receives, m)
    && p.receivedOnce == PolledBefore(s, receives, m)
    && p.socket == if p.recreated then Idle else s
  }

  lemma {:induction false} ReceiveReaches(timeout: real, s: Socket, start: nat, receives: seq<ReceiveStep>, m: nat)
    returns (p: Progress)
    requires !s.Gone? && TurnsReach(timeout, s, start, receives, m)
    ensures IsAfterTurns(p, s, start, receives, m)
    ensures Receiving(timeout, receives, 0, Start(s, start)) == Receiving(timeout, receives, m, p)
  {
    if m == 0 {
      p := Start(s, start);
    } else {
      var q := ReceiveReaches(timeout, s, start, receives, m - 1);
      assert InTime(timeout, s, start, receives, m - 1) && GoesRound(s, receives, m - 1);
      p := OneMoreTurn(timeout, s, start, receives, m - 1, q);
    }
  }

  lemma OneMoreTurn(timeout: real, s: Socket, start: nat, receives: seq<ReceiveStep>, m: nat, q: Progress)
    returns (p: Progress)
    requires !s.Gone? && m < |receives| && IsAfterTurns(q, s, start, receives, m)
    requires InTime(timeout, s, start, receives, m) && GoesRound(s, receives, m)
    ensures IsAfterTurns(p, s, start, receives, m + 1)
    ensures Receiving(timeout, receives, m, q) == Receiving(timeout, receives, m + 1, p)
  {
    HeardNow(s, start, receives, m, q);
    var r := Turn(q, receives[m].wait);
    match Heard(s, receives, m)
    case PollAgain => p := r.(now := r.now + SLEEP);
    case PollError => p := Recreated(r, Connects);
    case Readable(a) =>
      r := r.(receivedOnce := true);
      p := if a == ReceiveAgain then r.(now := r.now + SLEEP) else Recreated(r, Connects);
    case NotReadable =>
  }

  lemma HeardNow(s: Socket, start: nat, receives: seq<ReceiveStep>, m: nat, q: Progress)
    requires !s.Gone? && m < |receives| && IsAfterTurns(q, s, start, receives, m)
    ensures PollResult(q.socket, receives[m].answer) == Heard(s, receives, m)
    ensures PolledBefore(s, receives, m + 1) <==> PolledBefore(s, receives, m) || Heard(s, receives, m).Readable?
  {
  }

  /** Iteration m is the last: time is over, nobody knows its answer, or no other follows it. */
  predicate LastTurn(timeout: real, s: Socket, start: nat, receives: seq<ReceiveStep>, m: nat) {
    && TurnsReach(timeout, s, start, receives, m)
    && (!InTime(timeout, s, start, receives, m) || m == |receives| || !GoesRound(s, receives, m))
  }

  lemma SomeLastTurn(timeout: real, s: Socket, start: nat, receives: seq<ReceiveStep>) returns (m: nat)
    ensures LastTurn(timeout, s, start, receives, m)
  {
    m := 0;
    while m < |receives| && InTime(timeout, s, start, receives, m) && GoesRound(s, receives, m)
      invariant TurnsReach(timeout, s, start, receives, m)
    {
      m := m + 1;
    }
  }

  /** How the receive loop ends with its last iteration. */
  ghost predicate ReceiveEndsSo(timeout: real, s: Socket, start: nat, receives: seq<ReceiveStep>, m: nat,
                                q: Progress, exit: Exit)
    requires m <= |receives|
  {
    var now := TurnBegins(s, start, receives, m);
    if !InTime(timeout, s, start, receives, m) then exit.Left? && q.now == now
    else if m == |receives| then exit == Ends(Pending)
    else
      && q.now == now + receives[m].wait
      && if receives[m].preempts then exit == Ends(Preempted)
         else match Heard(s, receives, m)
           case PollAgain => false
           case NotReadable => exit == Ends(if timeout <= 0.0 then Pending else ReceiveTimeout)
           case PollError => exit == Ends(if BrokenBefore(s, receives, m) then ReceiveFailed else RecreateFailed)
           case Readable(a) =>
             match a
             case Got => s.Awaiting? && exit == Ends(Reply(s.request)) && q.socket.Idle?
             case Nothing => exit == Ends(EmptyReply)
             case ReceiveAgain => false
             case ReceiveError => exit == Ends(RecreateFailed)
  }

  lemma ReceiveEnds(timeout: real, s: Socket, start: nat, receives: seq<ReceiveStep>, m: nat)
    requires !s.Gone? && LastTurn(timeout, s, start, receives, m)
    ensures var (q, exit) := Receiving(timeout, receives, 0, Start(s, start));
            ReceiveEndsSo(timeout, s, start, receives, m, q, exit)
  {
    var p := ReceiveReaches(timeout, s, start, receives, m);
    if m < |receives| {
      HeardNow(s, start, receives, m, p);
    }
  }

  // ----- One call -----

  /** Try n is the one whose message is accepted. */
  predicate AcceptedBy(timeout: real, s: Socket, e: Surroundings, n: nat) {
    && TriesReach(timeout, s, e.begin, e.sends, n)
    && TryBegins(s, e.begin, e.sends, n) as real < timeout
    && n < |e.sends| && Said(s, e.sends, n).Accepted?
  }

  /** When the receive loop begins behind that try. */
  function ListensFrom(s: Socket, e: Surroundings, n: nat): nat
    requires n < |e.sends|
  {
    TryBegins(s, e.begin, e.sends, n) + e.sends[n].wait + e.late
  }

  /** However often EAGAIN came before, the call that gets its message accepted has tried once more than
      that. If there is time left, its end is that of the receive loop; else it is a timeout. */
  lemma AcceptedCall(timeout: real, request: nat, s: Socket, e: Surroundings, n: nat, m: nat)
    requires !s.Gone? && AcceptedBy(timeout, s, e, n)
    requires LastTurn(timeout, Awaiting(request), ListensFrom(s, e, n), e.receives, m)
    ensures var r := CallResult(timeout, request, s, e);
            && r.sends == n + 1 && r.accepted == 1
            && EndsSo(timeout, Awaiting(request), ListensFrom(s, e, n), e, m, r)
  {
    SendEnds(timeout, request, s, e.begin, e.sends, n);
    EndsAsReceiving(timeout, request, s, e, Awaiting(request), ListensFrom(s, e, n), m);
  }

  /** Behind a send loop that is left, the call ends as the receive loop does. */
  lemma EndsAsReceiving(timeout: real, request: nat, s: Socket, e: Surroundings, u: Socket, start: nat, m: nat)
    requires var (q, exit) := Sending(timeout, request, e.sends, 0, Start(s, e.begin));
             exit.Left? && q.socket == u && q.now + e.late == start
    requires !u.Gone? && LastTurn(timeout, u, start, e.receives, m)
    ensures EndsSo(timeout, u, start, e, m, CallResult(timeout, request, s, e))
  {
    ReceiveEnds(timeout, u, start, e.receives, m);
  }

  /** How a call ends whose receive loop would begin at `start` with the socket `u`. */
  ghost predicate EndsSo(timeout: real, u: Socket, start: nat, e: Surroundings, m: nat, r: Result)
    requires m <= |e.receives|
  {
    if start as real > timeout then r.outcome == SendTimeout && r.endTime == start
    else if !InTime(timeout, u, start, e.receives, m) then
      && r.endTime == TurnBegins(u, start, e.receives, m) + e.later
      && r.outcome == if r.endTime as real > timeout then LateTimeout else NoReply
    else
      ReceiveEndsSo(timeout, u, start, e.receives, m, Start(r.socket, r.endTime), Ends(r.outcome))
  }

  /** Try n sends nothing and yet leaves the loop: time is over, or send returns false. */
  predicate UnsentAt(timeout: real, s: Socket, e: Surroundings, n: nat) {
    && TriesReach(timeout, s, e.begin, e.sends, n)
    && (|| TryBegins(s, e.begin, e.sends, n) as real >= timeout
        || (n < |e.sends| && Said(s, e.sends, n).WouldBlock?))
  }

  /** When the receive loop begins behind that try. */
  function WaitsFrom(timeout: real, s: Socket, e: Surroundings, n: nat): nat
    requires UnsentAt(timeout, s, e, n)
  {
    var now := TryBegins(s, e.begin, e.sends, n);
    (if now as real >= timeout then now else now + e.sends[n].wait) + e.late
  }

  /** A call that sends nothing then waits for the reply to an earlier request, if there is one. */
  lemma UnsentCall(timeout: real, request: nat, s: Socket, e: Surroundings, n: nat, m: nat)
    requires !s.Gone? && UnsentAt(timeout, s, e, n)
    requires LastTurn(timeout, TriedOn(s, e.sends, n), WaitsFrom(timeout, s, e, n), e.receives, m)
    ensures var r := CallResult(timeout, request, s, e);
            r.accepted == 0 && EndsSo(timeout, TriedOn(s, e.sends, n), WaitsFrom(timeout, s, e, n), e, m, r)
  {
    SendEnds(timeout, request, s, e.begin, e.sends, n);
    EndsAsReceiving(timeout, request, s, e, TriedOn(s, e.sends, n), WaitsFrom(timeout, s, e, n), m);
  }

  /** Try n ends the call with an exception, or nobody knows its answer. */
  predicate StoppedAt(timeout: real, s: Socket, e: Surroundings, n: nat) {
    && LastTry(timeout, s, e.begin, e.sends, n)
    && TryBegins(s, e.begin, e.sends, n) as real < timeout
    && (n == |e.sends| || Said(s, e.sends, n).Refused?)
  }

  /** A call that an exception ends while it sends: the second refusal, the socket that could not be
      replaced, or the preemption check. */
  lemma StoppedCall(timeout: real, request: nat, s: Socket, e: Surroundings, n: nat)
    requires !s.Gone? && StoppedAt(timeout, s, e, n)
    ensures var r := CallResult(timeout, request, s, e);
            && r.accepted == 0
            && r.outcome == if n == |e.sends| then Pending
                            else if RefusedBefore(s, e.sends, n) then SendFailed
                            else if e.sends[n].reconnect.Connects? then Preempted else RecreateFailed
  {
    SendEnds(timeout, request, s, e.begin, e.sends, n);
  }

  /** Every call is of one of these kinds. */
  lemma EveryCallEnds(timeout: real, s: Socket, e: Surroundings) returns (n: nat)
    requires !s.Gone?
    ensures AcceptedBy(timeout, s, e, n) || UnsentAt(timeout, s, e, n) || StoppedAt(timeout, s, e, n)
  {
    n := SomeLastTry(timeout, s, e.begin, e.sends);
  }

  /** The reply that the socket gets in iteration m. */
  predicate AnsweredBy(timeout: real, s: Socket, start: nat, receives: seq<ReceiveStep>, m: nat) {
    && TurnsReach(timeout, s, start, receives, m) && InTime(timeout, s, start, receives, m)
    && m < |receives| && !receives[m].preempts && Heard(s, receives, m) == Readable(Got)
  }

  predicate Succeeds(timeout: real, request: nat, s: Socket, e: Surroundings, n: nat, m: nat) {
    && AcceptedBy(timeout, s, e, n)
    && ListensFrom(s, e, n) as real <= timeout
    && AnsweredBy(timeout, Awaiting(request), ListensFrom(s, e, n), e.receives, m)
  }

  /** A call returns the reply to its own request exactly when some try is accepted, after any number of
      EAGAIN and at most one replaced socket, time is left then, and some iteration of the receive loop
      gets the reply, after any number of EAGAIN from poll or recv while time is left. */
  lemma RepliesIff(timeout: real, request: nat, s: Socket, e: Surroundings)
    requires !s.Gone?
    ensures var r := CallResult(timeout, request, s, e);
            r.outcome == Reply(request) && r.accepted == 1 <==>
            exists n, m :: Succeeds(timeout, request, s, e, n, m)
  {
    var r := CallResult(timeout, request, s, e);
    if n, m :| Succeeds(timeout, request, s, e, n, m) {
      AcceptedCall(timeout, request, s, e, n, m);
    }
    if r.outcome == Reply(request) && r.accepted == 1 {
      var n := EveryCallEnds(timeout, s, e);
      if AcceptedBy(timeout, s, e, n) {
        var m := SomeLastTurn(timeout, Awaiting(request), ListensFrom(s, e, n), e.receives);
        AcceptedCall(timeout, request, s, e, n, m);
        assert Succeeds(timeout, request, s, e, n, m);
      } else if UnsentAt(timeout, s, e, n) {
        var m := SomeLastTurn(timeout, TriedOn(s, e.sends, n), WaitsFrom(timeout, s, e, n), e.receives);
        UnsentCall(timeout, request, s, e, n, m);
      } else {
        StoppedCall(timeout, request, s, e, n);
      }
    }
  }

  /** In plain terms: n sends that report EAGAIN and then one that is accepted, m polls or receives that
      report EAGAIN and then a reply, all in time and without preemption, give the caller that reply. */
  lemma EagainIsPatient(timeout: real, request: nat, e: Surroundings, n: nat, m: nat)
    requires n < |e.sends| && e.sends[n].answer.Accepted?
    requires forall k: nat | k < n :: e.sends[k].answer.SendAgain?
    requires forall k: nat | k <= n :: TryBegins(Idle, e.begin, e.sends, k) as real < timeout
    requires m < |e.receives| && e.receives[m].answer == Readable(Got)
    requires forall k: nat | k < m :: e.receives[k].answer in {PollAgain, Readable(ReceiveAgain)}
    requires forall k: nat | k <= m :: !e.receives[k].preempts
    requires ListensFrom(Idle, e, n) as real <= timeout
    requires forall k: nat | k <= m ::
               TurnBegins(Awaiting(request), ListensFrom(Idle, e, n), e.receives, k) as real < timeout
    ensures CallResult(timeout, request, Idle, e).outcome == Reply(request)
  {
    var (u, start) := (Awaiting(request), ListensFrom(Idle, e, n));
    forall k: nat | k <= m ensures Heard(u, e.receives, k) == e.receives[k].answer {
      NeverBroken(u, e.receives, m, k);
    }
    assert TurnsReach(timeout, u, start, e.receives, m);
    assert Succeeds(timeout, request, Idle, e, n, m);
    RepliesIff(timeout, request, Idle, e);
  }

  lemma {:induction false} NeverBroken(s: Socket, receives: seq<ReceiveStep>, m: nat, k: nat)
    requires s.Awaiting? && k <= m < |receives|
    requires forall j: nat | j < m :: receives[j].answer in {PollAgain, Readable(ReceiveAgain)}
    ensures !BrokenBefore(s, receives, k) && Heard(s, receives, k) == receives[k].answer
    decreases k
  {
    if k > 0 {
      NeverBroken(s, receives, m, k - 1);
    }
  }
}
