/** The move job's two tasks: a front desk that answers clients, and a worker that moves files. They
    share a queue, one-shot reply channels, the `is_moving` flag and the timer of the last scan.
    Every step of either task, of a client or of the clock is one action of a state machine. */
module MoveJob {
  import opened FileSystem

  datatype Request = Start | Status | Stop

  datatype Reply = TimeLeft(seconds: nat) | InProgress | Ok | Failed

  /** What a one-shot reply channel holds: nothing yet, a reply, or its sender is gone. */
  datatype Channel = Waiting | Answered(reply: Reply) | Closed

  /** Clients are told apart by tickets, one per request. */
  type Ticket = nat

  /** A message to the worker; the source's type allows any request, with or without a reply channel. */
  datatype Message = Message(request: Request, reply: Option<Ticket>)

  datatype Desk =
    | Listening
    | Handling(ticket: Ticket, request: Request)
    | ReadingTimer(ticket: Ticket)
    | Sending(ticket: Ticket, request: Request)
    | Awaiting(ticket: Ticket, request: Request)
    | Ended

  datatype Worker =
    | Top                                   // about to raise the flag for a scheduled pass
    | Scanning                              // disk usage and listings; an error here ends the task
    | AutoBatch(left: nat)                  // scheduled moves still to be made
    | ClearFlag
    | SetTimer
    | Selecting(deadline: nat)              // until the period is over or a message arrives
    | GotStart(ticket: Ticket)
    | AckStart(ticket: Ticket)              // flag raised, Ok not sent yet
    | Starting(ticket: Ticket)              // Ok sent, no move made yet
    | Batch(ticket: Ticket, left: nat)      // explicit moves still to be made
    | EndBatch
    | GotStop(ticket: Ticket)
    | Stopped
    | Died                                  // left through an error
    | Panicked                              // the arm marked unreachable

  datatype Config = Config(period: nat, overflowChecks: bool)

  datatype State = State(
    flag: bool,
    timer: nat,
    now: nat,
    sendersAlive: bool,
    queue: seq<(Ticket, Request)>,
    desk: Desk,
    line: seq<Message>,
    worker: Worker,
    requests: map<Ticket, Request>,
    replies: map<Ticket, Channel>,   // to the clients
    acks: map<Ticket, Channel>,      // from the worker to the front desk
    begun: seq<Ticket>,              // explicit batches, in the order they began
    touches: nat)                    // how often the worker has used the filesystem

  const CAPACITY: nat := 100
  const U64: nat := 0x1_0000_0000_0000_0000

  function Init(): State {
    State(false, 0, 0, true, [], Listening, [], Top, map[], map[], map[], [], 0)
  }

  datatype Choice = Go(moves: nat) | Fail | TimerFires | Receive

  datatype Action =
    | Submit(ticket: Ticket, request: Request)
    | DropSenders
    | Tick
    | DeskStep
    | WorkerStep(choice: Choice)

  predicate Alive(w: Worker) {
    !(w.Stopped? || w.Died? || w.Panicked?)
  }

  /** A channel whose sender has gone away without sending. */
  function Close(channels: map<Ticket, Channel>): map<Ticket, Channel> {
    map t | t in channels :: if channels[t].Waiting? then Closed else channels[t]
  }

  /** The front desk ends: what it holds and what is queued is dropped. */
  function EndDesk(s: State): State {
    s.(desk := Ended, queue := [], replies := Close(s.replies))
  }

  /** The worker ends: unanswered messages are dropped with its queue. */
  function EndWorker(s: State, w: Worker): State {
    s.(worker := w, line := [], acks := Close(s.acks))
  }

  function Answer(s: State, t: Ticket, r: Reply): State {
    s.(desk := Listening, replies := s.replies[t := Answered(r)])
  }

  /** `move_job_period - elapsed` on unsigned 64-bit integers, as a build without overflow checks has it. */
  function TimeUntilNextScan(period: nat, elapsed: nat): nat {
    (period - elapsed) % U64
  }

  function DeskAct(c: Config, s: State): Option<State> {
    match s.desk
    case Listening =>
      if s.queue != [] then
        Some(s.(desk := Handling(s.queue[0].0, s.queue[0].1), queue := s.queue[1..]))
      else if !s.sendersAlive then Some(EndDesk(s)) else None
    case Handling(t, Start) =>
      Some(if s.flag then Answer(s, t, InProgress) else s.(desk := Sending(t, Start)))
    case Handling(t, Status) =>
      Some(if s.flag then Answer(s, t, InProgress) else s.(desk := ReadingTimer(t)))
    case Handling(t, Stop) =>
      Some(s.(desk := Sending(t, Stop)))
    case ReadingTimer(t) =>
      var elapsed := if s.timer <= s.now then s.now - s.timer else 0;
      if c.overflowChecks && elapsed > c.period then Some(EndDesk(s))
      else Some(Answer(s, t, TimeLeft(TimeUntilNextScan(c.period, elapsed))))
    case Sending(t, r) =>
      if !Alive(s.worker) then Some(s.(desk := Listening, replies := s.replies[t := Closed]))
      else if |s.line| >= CAPACITY then None
      else Some(s.(desk := Awaiting(t, r), line := s.line + [Message(r, Some(t))], acks := s.acks[t := Waiting]))
    case Awaiting(t, r) =>
      if t !in s.acks || s.acks[t].Waiting? then None
      else if r.Stop? then
        if s.acks[t] == Answered(Ok) then Some(EndDesk(Answer(s, t, Ok))) else Some(Answer(s, t, Failed))
      else
        if s.acks[t].Answered? then Some(Answer(s, t, s.acks[t].reply)) else Some(EndDesk(s))
    case Ended => None
  }

  function WorkerAct(c: Config, s: State, choice: Choice): Option<State> {
    match s.worker
    case Top => Some(s.(flag := true, worker := Scanning))
    case Scanning =>
      if choice.Fail? then Some(EndWorker(s.(touches := s.touches + 1), Died))
      else if choice.Go? then Some(s.(worker := AutoBatch(choice.moves), touches := s.touches + 1)) else None
    case AutoBatch(left) =>
      if left == 0 then Some(s.(worker := ClearFlag))
      else Some(s.(worker := AutoBatch(left - 1), touches := s.touches + 1))
    case ClearFlag => Some(s.(flag := false, worker := SetTimer))
    case SetTimer => Some(s.(timer := s.now, worker := Selecting(s.now + c.period)))
    case Selecting(deadline) =>
      if choice.TimerFires? then
        if s.now >= deadline then Some(s.(worker := Top)) else None
      else if !choice.Receive? then None
      else if s.line != [] then
        var m := s.line[0];
        var s' := s.(line := s.line[1..]);
        if m.request.Start? && m.reply.Some? then Some(s'.(worker := GotStart(m.reply.value)))
        else if m.request.Stop? && m.reply.Some? then Some(s'.(worker := GotStop(m.reply.value)))
        else Some(EndWorker(s', Panicked))
      else if s.desk.Ended? then Some(s.(worker := Top)) else None
    case GotStart(t) => Some(s.(flag := true, worker := AckStart(t)))
    case AckStart(t) => Some(s.(acks := s.acks[t := Answered(Ok)], worker := Starting(t)))
    case Starting(t) =>
      if choice.Go? then Some(s.(worker := Batch(t, choice.moves), begun := s.begun + [t])) else None
    case Batch(t, left) =>
      if left == 0 then Some(s.(worker := EndBatch))
      else Some(s.(worker := Batch(t, left - 1), touches := s.touches + 1))
    case EndBatch => Some(s.(flag := false, worker := Top))
    case GotStop(t) => Some(EndWorker(s.(acks := s.acks[t := Answered(Ok)]), Stopped))
    case Stopped => None
    case Died => None
    case Panicked => None
  }

  function Act(c: Config, s: State, a: Action): Option<State> {
    match a
    case Submit(t, r) =>
      if t in s.replies || s.desk.Ended? || !s.sendersAlive || |s.queue| >= CAPACITY then None
      else Some(s.(queue := s.queue + [(t, r)], requests := s.requests[t := r], replies := s.replies[t := Waiting]))
    case DropSenders => Some(s.(sendersAlive := false))
    case Tick => Some(s.(now := s.now + 1))
    case DeskStep => DeskAct(c, s)
    case WorkerStep(choice) => WorkerAct(c, s, choice)
  }

  /** Runs the actions one after the other; None if one of them is not possible. */
  function Run(c: Config, s: State, actions: seq<Action>): Option<State>
    decreases |actions|
  {
    if actions == [] then Some(s)
    else
      var next := Act(c, s, actions[0]);
      if next.None? then None else Run(c, next.value, actions[1..])
  }

  // ----- The invariant -----

  /** The worker is scanning or moving, or has left the flag up for good. */
  predicate Moving(w: Worker) {
    match w
    case Scanning => true
    case AutoBatch(_) => true
    case ClearFlag => true
    case AckStart(_) => true
    case Starting(_) => true
    case Batch(_, _) => true
    case EndBatch => true
    case Died => true
    case _ => false
  }

  predicate Holds(desk: Desk, t: Ticket) {
    match desk
    case Handling(u, _) => u == t
    case ReadingTimer(u) => u == t
    case Sending(u, _) => u == t
    case Awaiting(u, _) => u == t
    case _ => false
  }

  function Tickets(queue: seq<(Ticket, Request)>): set<Ticket> {
    set x | x in queue :: x.0
  }

  /** Every ticket in line or in the front desk's hands is waiting for its one reply, and no other is. */
  ghost predicate ClientsInv(
    queue: seq<(Ticket, Request)>, desk: Desk, requests: map<Ticket, Request>, replies: map<Ticket, Channel>,
    passed: set<Ticket>)
  {
    && requests.Keys == replies.Keys
    && (forall x :: x in queue ==> x.0 in requests && requests[x.0] == x.1)
    && (forall i, j :: 0 <= i < j < |queue| ==> queue[i].0 != queue[j].0)
    && (forall t :: t in replies && replies[t].Waiting? <==> t in Tickets(queue) || Holds(desk, t))
    && (forall t :: t in Tickets(queue) ==> !Holds(desk, t) && t !in passed)
    && (desk.Ended? ==> queue == [])
  }

  /** What the front desk holds was asked for, and has been passed on to the worker only while it waits. */
  ghost predicate DeskInv(desk: Desk, requests: map<Ticket, Request>, passed: set<Ticket>) {
    match desk
    case Handling(t, r) => t in requests && requests[t] == r && t !in passed
    case ReadingTimer(t) => t in requests && requests[t] == Status && t !in passed
    case Sending(t, r) => t in requests && requests[t] == r && !r.Status? && t !in passed
    case Awaiting(t, r) => t in requests && requests[t] == r && !r.Status? && t in passed
    case _ => true
  }

  predicate Pending(desk: Desk, acks: map<Ticket, Channel>) {
    desk.Awaiting? && desk.ticket in acks && acks[desk.ticket].Waiting?
  }

  ghost predicate AcksInv(desk: Desk, acks: map<Ticket, Channel>, known: set<Ticket>) {
    && acks.Keys <= known
    && (forall t :: t in acks && acks[t].Answered? ==> acks[t] == Answered(Ok))
    && (forall t :: t in acks && acks[t].Waiting? ==> desk.Awaiting? && desk.ticket == t)
  }

  /** The worker's queue and hands hold at most the one message the front desk is waiting on. */
  predicate LineInv(desk: Desk, line: seq<Message>, worker: Worker, pending: bool)
    requires pending ==> desk.Awaiting?
  {
    match worker
    case GotStart(t) => line == [] && pending && desk == Awaiting(t, Start)
    case AckStart(t) => line == [] && pending && desk == Awaiting(t, Start)
    case GotStop(t) => line == [] && pending && desk == Awaiting(t, Stop)
    case Stopped => line == [] && !pending
    case Died => line == [] && !pending
    case Panicked => false
    case _ => line == if pending then [Message(desk.request, Some(desk.ticket))] else []
  }

  predicate OkTo(acks: map<Ticket, Channel>, requests: map<Ticket, Request>, t: Ticket, r: Request) {
    t in acks && acks[t] == Answered(Ok) && t in requests && requests[t] == r
  }

  function StartingOf(w: Worker): Option<Ticket> {
    if w.Starting? then Some(w.ticket) else None
  }

  /** Explicit batches and Ok replies to Start correspond one to one. */
  ghost predicate BatchInv(
    begun: seq<Ticket>, starting: Option<Ticket>, acks: map<Ticket, Channel>, requests: map<Ticket, Request>)
  {
    && (forall i, j :: 0 <= i < j < |begun| ==> begun[i] != begun[j])
    && (starting.Some? ==> starting.value !in begun)
    && (forall t :: t in begun || starting == Some(t) <==> OkTo(acks, requests, t, Start))
  }

  /** A client is told Ok only after the worker has said so, and InProgress only without asking it. */
  ghost predicate RepliesInv(replies: map<Ticket, Channel>, acks: map<Ticket, Channel>) {
    && (forall t :: t in replies && replies[t] == Answered(Ok) ==> t in acks && acks[t] == Answered(Ok))
    && (forall t :: t in replies && replies[t] == Answered(InProgress) ==> t !in acks)
  }

  /** An Ok to Stop means the worker is gone, and the front desk is about to follow. */
  ghost predicate StopInv(stopped: bool, desk: Desk, acks: map<Ticket, Channel>, requests: map<Ticket, Request>) {
    && (forall t :: OkTo(acks, requests, t, Stop) ==> stopped)
    && (stopped ==> desk.Ended? || (desk.Awaiting? && desk.request.Stop? && OkTo(acks, requests, desk.ticket, Stop)))
  }

  ghost predicate Inv(s: State) {
    && (s.flag <==> Moving(s.worker))
    && s.timer <= s.now
    && ClientsInv(s.queue, s.desk, s.requests, s.replies, s.acks.Keys)
    && DeskInv(s.desk, s.requests, s.acks.Keys)
    && AcksInv(s.desk, s.acks, s.replies.Keys)
    && LineInv(s.desk, s.line, s.worker, Pending(s.desk, s.acks))
    && BatchInv(s.begun, StartingOf(s.worker), s.acks, s.requests)
    && (s.worker.Batch? ==> s.worker.ticket in s.begun)
    && RepliesInv(s.replies, s.acks)
    && StopInv(s.worker.Stopped?, s.desk, s.acks, s.requests)
  }

  // ----- The parts of the invariant, part by part -----

  lemma TicketsTail(queue: seq<(Ticket, Request)>)
    requires queue != []
    requires forall i, j :: 0 <= i < j < |queue| ==> queue[i].0 != queue[j].0
    ensures Tickets(queue[1..]) == Tickets(queue) - {queue[0].0} && queue[0].0 in Tickets(queue)
  {
    assert queue[0] in queue;
    forall t | t in Tickets(queue) && t != queue[0].0 ensures t in Tickets(queue[1..]) {
      var x :| x in queue && x.0 == t;
      assert x in queue[1..];
    }
    forall t | t in Tickets(queue[1..]) ensures t != queue[0].0 {
      var i :| 0 <= i < |queue[1..]| && queue[1..][i].0 == t;
      assert queue[i + 1].0 == t;
    }
  }

  lemma TicketsAppend(queue: seq<(Ticket, Request)>, x: (Ticket, Request))
    ensures Tickets(queue + [x]) == Tickets(queue) + {x.0}
  {
    assert x in queue + [x];
    forall t | t in Tickets(queue) ensures t in Tickets(queue + [x]) {
      var y :| y in queue && y.0 == t;
      assert y in queue + [x];
    }
  }

  lemma TakeClient(
    queue: seq<(Ticket, Request)>, requests: map<Ticket, Request>, replies: map<Ticket, Channel>, passed: set<Ticket>)
    requires queue != [] && ClientsInv(queue, Listening, requests, replies, passed)
    ensures ClientsInv(queue[1..], Handling(queue[0].0, queue[0].1), requests, replies, passed)
    ensures DeskInv(Handling(queue[0].0, queue[0].1), requests, passed)
  {
    TicketsTail(queue);
    assert queue[0] in queue;
    assert forall x :: x in queue[1..] ==> x in queue;
  }

  /** The front desk lets go of a ticket by answering it or dropping its channel. */
  lemma SettleClient(
    queue: seq<(Ticket, Request)>, desk: Desk, requests: map<Ticket, Request>, replies: map<Ticket, Channel>,
    passed: set<Ticket>, t: Ticket, c: Channel)
    requires ClientsInv(queue, desk, requests, replies, passed) && Holds(desk, t) && !c.Waiting?
    ensures t in replies && ClientsInv(queue, Listening, requests, replies[t := c], passed)
  {
    var replies' := replies[t := c];
    assert t in replies;
    forall u ensures u in replies' && replies'[u].Waiting? <==> u in Tickets(queue) || Holds(Listening, u) {
      assert u in replies && replies[u].Waiting? <==> u in Tickets(queue) || Holds(desk, u);
    }
  }

  lemma DropClients(
    queue: seq<(Ticket, Request)>, desk: Desk, requests: map<Ticket, Request>, replies: map<Ticket, Channel>,
    passed: set<Ticket>)
    requires ClientsInv(queue, desk, requests, replies, passed)
    ensures ClientsInv([], Ended, requests, Close(replies), passed)
  {
    assert Close(replies).Keys == replies.Keys;
  }

  /** The front desk goes on with the ticket it holds. */
  lemma CarryClient(
    queue: seq<(Ticket, Request)>, desk: Desk, desk': Desk, requests: map<Ticket, Request>,
    replies: map<Ticket, Channel>,
    passed: set<Ticket>, t: Ticket)
    requires ClientsInv(queue, desk, requests, replies, passed)
    requires Holds(desk, t) && Holds(desk', t)
    ensures ClientsInv(queue, desk', requests, replies, passed)
    ensures ClientsInv(queue, desk', requests, replies, passed + {t})
  {
    assert forall u :: Holds(desk, u) <==> u == t;
    assert forall u :: Holds(desk', u) <==> u == t;
  }

  lemma EnterClient(
    queue: seq<(Ticket, Request)>, desk: Desk, requests: map<Ticket, Request>, replies: map<Ticket, Channel>,
    passed: set<Ticket>, t: Ticket, r: Request)
    requires ClientsInv(queue, desk, requests, replies, passed) && t !in replies && t !in passed && !desk.Ended?
    ensures ClientsInv(queue + [(t, r)], desk, requests[t := r], replies[t := Waiting], passed)
  {
    TicketsAppend(queue, (t, r));
    var replies' := replies[t := Waiting];
    assert t !in Tickets(queue) && !Holds(desk, t);
    forall i | 0 <= i < |queue| ensures queue[i].0 != t {
      assert queue[i] in queue;
    }
    forall u ensures u in replies' && replies'[u].Waiting? <==> u in Tickets(queue + [(t, r)]) || Holds(desk, u) {
      assert u in replies && replies[u].Waiting? <==> u in Tickets(queue) || Holds(desk, u);
    }
  }

  // ----- Each action keeps it -----

  lemma ListeningKeeps(c: Config, s: State)
    requires Inv(s) && s.desk.Listening? && DeskAct(c, s).Some?
    ensures Inv(DeskAct(c, s).value)
  {
    if s.queue != [] {
      TakeClient(s.queue, s.requests, s.replies, s.acks.Keys);
    } else {
      EndDeskKeeps(s);
    }
  }

  lemma EndDeskKeeps(s: State)
    requires Inv(s) && !Pending(s.desk, s.acks)
    ensures Inv(EndDesk(s))
  {
    DropClients(s.queue, s.desk, s.requests, s.replies, s.acks.Keys);
    assert Close(s.replies).Keys == s.replies.Keys;
  }

  lemma AnswerKeeps(s: State, t: Ticket, r: Reply)
    requires Inv(s) && Holds(s.desk, t) && !Pending(s.desk, s.acks) && !s.worker.Stopped?
    requires r == Ok ==> t in s.acks && s.acks[t] == Answered(Ok)
    requires r == InProgress ==> t !in s.acks
    ensures Inv(Answer(s, t, r))
  {
    SettleClient(s.queue, s.desk, s.requests, s.replies, s.acks.Keys, t, Answered(r));
  }

  lemma HandlingKeeps(c: Config, s: State)
    requires Inv(s) && s.desk.Handling?
    ensures Inv(DeskAct(c, s).value)
  {
    var t := s.desk.ticket;
    if s.flag && !s.desk.request.Stop? {
      AnswerKeeps(s, t, InProgress);
    } else if s.desk.request.Status? {
      CarryKeeps(s, ReadingTimer(t));
    } else {
      CarryKeeps(s, Sending(t, s.desk.request));
    }
  }

  /** The front desk goes on with a request that it has not passed on yet. */
  lemma CarryKeeps(s: State, desk: Desk)
    requires Inv(s) && s.desk.Handling?
    requires
      desk == if s.desk.request.Status? then ReadingTimer(s.desk.ticket) else Sending(s.desk.ticket, s.desk.request)
    ensures Inv(s.(desk := desk))
  {
    CarryClient(s.queue, s.desk, desk, s.requests, s.replies, s.acks.Keys, s.desk.ticket);
  }

  lemma ReadingKeeps(c: Config, s: State)
    requires Inv(s) && s.desk.ReadingTimer?
    ensures Inv(DeskAct(c, s).value)
  {
    var told := TimeLeft(TimeUntilNextScan(c.period, s.now - s.timer));
    assert s.timer <= s.now;
    if DeskAct(c, s) == Some(EndDesk(s)) {
      EndDeskKeeps(s);
    } else {
      assert DeskAct(c, s) == Some(Answer(s, s.desk.ticket, told));
      AnswerKeeps(s, s.desk.ticket, told);
    }
  }

  lemma SendingKeeps(c: Config, s: State)
    requires Inv(s) && s.desk.Sending? && DeskAct(c, s).Some?
    ensures Inv(DeskAct(c, s).value)
  {
    if Alive(s.worker) {
      SentKeeps(s, s.desk.ticket, s.desk.request);
    } else {
      SettleClient(s.queue, s.desk, s.requests, s.replies, s.acks.Keys, s.desk.ticket, Closed);
    }
  }

  /** The message is in line, and the front desk waits for the worker's reply to it. */
  lemma SentKeeps(s: State, t: Ticket, r: Request)
    requires Inv(s) && s.desk == Sending(t, r) && Alive(s.worker)
    ensures Inv(s.(desk := Awaiting(t, r), line := s.line + [Message(r, Some(t))], acks := s.acks[t := Waiting]))
  {
    var acks := s.acks[t := Waiting];
    CarryClient(s.queue, s.desk, Awaiting(t, r), s.requests, s.replies, s.acks.Keys, t);
    assert acks.Keys == s.acks.Keys + {t};
    assert t !in s.acks && t in s.requests && t in s.replies && s.replies[t].Waiting?;
    forall u, q ensures OkTo(acks, s.requests, u, q) <==> OkTo(s.acks, s.requests, u, q) {}
    assert BatchInv(s.begun, StartingOf(s.worker), acks, s.requests);
    assert AcksInv(Awaiting(t, r), acks, s.replies.Keys);
    assert RepliesInv(s.replies, acks);
  }

  lemma AwaitingKeeps(c: Config, s: State)
    requires Inv(s) && s.desk.Awaiting? && DeskAct(c, s).Some?
    ensures Inv(DeskAct(c, s).value)
  {
    var t := s.desk.ticket;
    if s.desk.request.Stop? && s.acks[t] == Answered(Ok) {
      StoppingKeeps(s);
    } else {
      assert !s.worker.Stopped?;
      if s.desk.request.Stop? { AnswerKeeps(s, t, Failed); }
      else if s.acks[t].Answered? { AnswerKeeps(s, t, Ok); }
      else { EndDeskKeeps(s); }
    }
  }

  lemma StoppingKeeps(s: State)
    requires Inv(s) && s.desk.Awaiting? && s.acks[s.desk.ticket] == Answered(Ok) && s.desk.request.Stop?
    ensures Inv(EndDesk(Answer(s, s.desk.ticket, Ok)))
  {
    var t := s.desk.ticket;
    SettleClient(s.queue, s.desk, s.requests, s.replies, s.acks.Keys, t, Answered(Ok));
    var replies := s.replies[t := Answered(Ok)];
    DropClients(s.queue, Listening, s.requests, replies, s.acks.Keys);
    assert Close(replies).Keys == s.replies.Keys;
    assert OkTo(s.acks, s.requests, t, Stop);
  }

  lemma DeskKeepsInv(c: Config, s: State)
    requires Inv(s) && DeskAct(c, s).Some?
    ensures Inv(DeskAct(c, s).value)
  {
    match s.desk
    case Listening => ListeningKeeps(c, s);
    case Handling(_, _) => HandlingKeeps(c, s);
    case ReadingTimer(_) => ReadingKeeps(c, s);
    case Sending(_, _) => SendingKeeps(c, s);
    case Awaiting(_, _) => AwaitingKeeps(c, s);
    case Ended =>
  }

  /** Steps of the worker that leave its channels and the list of batches alone. */
  lemma QuietKeeps(s: State, s': State)
    requires Inv(s) && !s.worker.Stopped? && !s'.worker.Stopped?
    requires s' == s.(flag := s'.flag, timer := s'.timer, line := s'.line, worker := s'.worker, touches := s'.touches)
    requires (s'.flag <==> Moving(s'.worker)) && s'.timer <= s'.now
    requires StartingOf(s'.worker) == StartingOf(s.worker) && (s'.worker.Batch? ==> s'.worker.ticket in s.begun)
    requires LineInv(s.desk, s'.line, s'.worker, Pending(s.desk, s.acks))
    ensures Inv(s')
  {
  }

  lemma PassKeeps(c: Config, s: State, choice: Choice)
    requires Inv(s) && WorkerAct(c, s, choice).Some? && !choice.Fail?
    requires s.worker.Top? || s.worker.Scanning? || s.worker.AutoBatch? || s.worker.ClearFlag? || s.worker.SetTimer?
    ensures Inv(WorkerAct(c, s, choice).value)
  {
    QuietKeeps(s, WorkerAct(c, s, choice).value);
  }

  lemma ExplicitKeeps(c: Config, s: State, choice: Choice)
    requires Inv(s) && WorkerAct(c, s, choice).Some?
    requires s.worker.GotStart? || s.worker.Batch? || s.worker.EndBatch?
    ensures Inv(WorkerAct(c, s, choice).value)
  {
    var s' := WorkerAct(c, s, choice).value;
    match s.worker
    case GotStart(_) => StartedKeeps(s);
    case Batch(_, _) => QuietKeeps(s, s');
    case EndBatch => EndedKeeps(s);
  }

  lemma EndedKeeps(s: State)
    requires Inv(s) && s.worker.EndBatch?
    ensures Inv(s.(flag := false, worker := Top))
  {
    QuietKeeps(s, s.(flag := false, worker := Top));
  }

  lemma StartedKeeps(s: State)
    requires Inv(s) && s.worker.GotStart?
    ensures Inv(s.(flag := true, worker := AckStart(s.worker.ticket)))
  {
    QuietKeeps(s, s.(flag := true, worker := AckStart(s.worker.ticket)));
  }

  lemma SelectKeeps(c: Config, s: State, choice: Choice)
    requires Inv(s) && s.worker.Selecting? && WorkerAct(c, s, choice).Some?
    ensures Inv(WorkerAct(c, s, choice).value)
  {
    if choice.Receive? && s.line != [] {
      assert Pending(s.desk, s.acks) && s.line == [Message(s.desk.request, Some(s.desk.ticket))];
    }
    QuietKeeps(s, WorkerAct(c, s, choice).value);
  }

  lemma CloseAcks(desk: Desk, acks: map<Ticket, Channel>, requests: map<Ticket, Request>, known: set<Ticket>)
    requires AcksInv(desk, acks, known)
    ensures AcksInv(desk, Close(acks), known) && Close(acks).Keys == acks.Keys && !Pending(desk, Close(acks))
    ensures forall t, r :: OkTo(Close(acks), requests, t, r) <==> OkTo(acks, requests, t, r)
  {
  }

  lemma DyingKeeps(s: State)
    requires Inv(s) && s.worker.Scanning?
    ensures Inv(EndWorker(s.(touches := s.touches + 1), Died))
  {
    CloseAcks(s.desk, s.acks, s.requests, s.replies.Keys);
  }

  lemma AckKeeps(s: State, t: Ticket)
    requires Inv(s) && s.worker == AckStart(t)
    ensures Inv(s.(acks := s.acks[t := Answered(Ok)], worker := Starting(t)))
  {
    var acks := s.acks[t := Answered(Ok)];
    assert acks.Keys == s.acks.Keys && s.requests[t] == Start;
    assert forall u, r :: OkTo(acks, s.requests, u, r) <==> OkTo(s.acks, s.requests, u, r) || (u == t && r == Start);
  }

  lemma BeginKeeps(s: State, t: Ticket, moves: nat)
    requires Inv(s) && s.worker == Starting(t)
    ensures Inv(s.(worker := Batch(t, moves), begun := s.begun + [t]))
  {
    assert forall u :: u in s.begun + [t] <==> u in s.begun || u == t;
  }

  lemma StopKeeps(s: State, t: Ticket)
    requires Inv(s) && s.worker == GotStop(t)
    ensures Inv(EndWorker(s.(acks := s.acks[t := Answered(Ok)]), Stopped))
  {
    var acks := s.acks[t := Answered(Ok)];
    assert acks.Keys == s.acks.Keys && s.requests[t] == Stop;
    assert forall u, r :: OkTo(acks, s.requests, u, r) <==> OkTo(s.acks, s.requests, u, r) || (u == t && r == Stop);
    CloseAcks(s.desk, acks, s.requests, s.replies.Keys);
  }

  lemma WorkerKeepsInv(c: Config, s: State, choice: Choice)
    requires Inv(s) && WorkerAct(c, s, choice).Some?
    ensures Inv(WorkerAct(c, s, choice).value)
  {
    if s.worker.Scanning? && choice.Fail? {
      DyingKeeps(s);
    } else if s.worker.AckStart? {
      AckKeeps(s, s.worker.ticket);
    } else if s.worker.Starting? {
      BeginKeeps(s, s.worker.ticket, choice.moves);
    } else if s.worker.GotStop? {
      StopKeeps(s, s.worker.ticket);
    } else if s.worker.Selecting? {
      SelectKeeps(c, s, choice);
    } else if s.worker.GotStart? || s.worker.Batch? || s.worker.EndBatch? {
      ExplicitKeeps(c, s, choice);
    } else {
      PassKeeps(c, s, Go(if choice.Go? then choice.moves else 0));
    }
  }

  lemma SubmitKeepsInv(c: Config, s: State, t: Ticket, r: Request)
    requires Inv(s) && Act(c, s, Submit(t, r)).Some?
    ensures Inv(Act(c, s, Submit(t, r)).value)
  {
    EnterClient(s.queue, s.desk, s.requests, s.replies, s.acks.Keys, t, r);
    assert t !in s.acks;
    var s' := Act(c, s, Submit(t, r)).value;
    forall u, q ensures OkTo(s'.acks, s'.requests, u, q) <==> OkTo(s.acks, s.requests, u, q) {}
  }

  lemma ActKeepsInv(c: Config, s: State, a: Action)
    requires Inv(s) && Act(c, s, a).Some?
    ensures Inv(Act(c, s, a).value)
  {
    match a
    case Submit(t, r) => SubmitKeepsInv(c, s, t, r);
    case DropSenders =>
    case Tick =>
    case DeskStep => DeskKeepsInv(c, s);
    case WorkerStep(choice) => WorkerKeepsInv(c, s, choice);
  }

  /** The invariant holds in every state of every run. */
  lemma {:induction false} RunKeepsInv(c: Config, s: State, actions: seq<Action>)
    requires Inv(s) && Run(c, s, actions).Some?
    ensures Inv(Run(c, s, actions).value)
    decreases |actions|
  {
    if actions != [] {
      ActKeepsInv(c, s, actions[0]);
      RunKeepsInv(c, Act(c, s, actions[0]).value, actions[1..]);
    }
  }

  // ----- What every run guarantees -----

  ghost predicate Reachable(c: Config, s: State) {
    exists actions :: Run(c, Init(), actions) == Some(s)
  }

  lemma ReachableInv(c: Config, s: State)
    requires Reachable(c, s)
    ensures Inv(s)
  {
    var actions :| Run(c, Init(), actions) == Some(s);
    RunKeepsInv(c, Init(), actions);
  }

  /** The flag is up exactly while the worker scans or moves (or for good once it has died), so a running
      batch implies it; at most one message is in line, a Start or a Stop with a reply channel, and the
      worker's unreachable arm is dead. */
  lemma FlagAndLine(c: Config, s: State)
    requires Reachable(c, s)
    ensures s.flag <==> Moving(s.worker)
    ensures |s.line| <= 1
    ensures forall m :: m in s.line ==> (m.request.Start? || m.request.Stop?) && m.reply.Some?
    ensures s.line != [] ==> s.desk.Awaiting? && s.line[0] == Message(s.desk.request, Some(s.desk.ticket))
    ensures !s.worker.Panicked?
  {
    ReachableInv(c, s);
  }

  /** Explicit batches and Ok replies to Start match one to one, each reply sent before its batch begins;
      a client told InProgress never has a batch; and a client told Ok to its Start has one. */
  lemma BatchesMatchReplies(c: Config, s: State)
    requires Reachable(c, s)
    ensures forall i, j :: 0 <= i < j < |s.begun| ==> s.begun[i] != s.begun[j]
    ensures forall t :: t in s.begun || s.worker == Starting(t) <==>
      t in s.acks && s.acks[t] == Answered(Ok) && t in s.requests && s.requests[t] == Start
    ensures forall t :: t in s.replies && s.replies[t] == Answered(InProgress) ==>
      t !in s.begun && s.worker != Starting(t)
    ensures forall t :: t in s.replies && s.replies[t] == Answered(Ok) && t in s.requests && s.requests[t] == Start ==>
      t in s.begun || s.worker == Starting(t)
  {
    ReachableInv(c, s);
    forall t ensures t in s.begun || s.worker == Starting(t) <==> OkTo(s.acks, s.requests, t, Start) {}
  }

  /** No request is forgotten: one without an outcome is in line or in the front desk's hands, and once
      the front desk has ended there is none. */
  lemma EveryRequestSettled(c: Config, s: State)
    requires Reachable(c, s)
    ensures s.requests.Keys == s.replies.Keys
    ensures forall t :: t in s.replies && s.replies[t].Waiting? <==> t in Tickets(s.queue) || Holds(s.desk, t)
    ensures s.desk.Ended? ==> forall t :: t in s.replies ==> !s.replies[t].Waiting?
  {
    ReachableInv(c, s);
  }

  // ----- Stop -----

  /** From an Ok to Stop on, the worker is gone: whatever happens next it never uses the filesystem again. */
  lemma {:induction false} StoppedForGood(c: Config, s: State, actions: seq<Action>)
    requires s.worker.Stopped? && Run(c, s, actions).Some?
    ensures
      var s' := Run(c, s, actions).value;
      s'.worker.Stopped? && s'.touches == s.touches && s'.begun == s.begun
    decreases |actions|
  {
    if actions != [] {
      StoppedStays(c, s, actions[0]);
      StoppedForGood(c, Act(c, s, actions[0]).value, actions[1..]);
    }
  }

  lemma StoppedStays(c: Config, s: State, a: Action)
    requires s.worker.Stopped? && Act(c, s, a).Some?
    ensures
      var s' := Act(c, s, a).value;
      s'.worker.Stopped? && s'.touches == s.touches && s'.begun == s.begun
  {
    if a.DeskStep? { DeskLeavesWorker(c, s); }
  }

  /** What the front desk has no part in. */
  predicate SameWork(s: State, s': State) {
    s'.worker == s.worker && s'.touches == s.touches && s'.begun == s.begun && s'.requests == s.requests
  }

  lemma DeskLeavesWorker(c: Config, s: State)
    requires DeskAct(c, s).Some?
    ensures SameWork(s, DeskAct(c, s).value)
  {
    match s.desk
    case Listening =>
    case Handling(_, _) => HandlingLeavesWorker(c, s);
    case Awaiting(_, _) => AwaitingLeavesWorker(c, s);
    case _ => SendingLeavesWorker(c, s);
  }

  lemma HandlingLeavesWorker(c: Config, s: State)
    requires s.desk.Handling? && DeskAct(c, s).Some?
    ensures SameWork(s, DeskAct(c, s).value)
  {
  }

  lemma SendingLeavesWorker(c: Config, s: State)
    requires (s.desk.Sending? || s.desk.ReadingTimer?) && DeskAct(c, s).Some?
    ensures SameWork(s, DeskAct(c, s).value)
  {
  }

  lemma AwaitingLeavesWorker(c: Config, s: State)
    requires s.desk.Awaiting? && DeskAct(c, s).Some?
    ensures SameWork(s, DeskAct(c, s).value)
  {
  }

  /** A client told Ok to its Stop: the worker has ended, no batch runs, and the front desk has ended or
      ends with its next step. */
  lemma StopAnswered(c: Config, s: State, t: Ticket, actions: seq<Action>)
    requires Reachable(c, s) && t in s.acks && s.acks[t] == Answered(Ok) && t in s.requests && s.requests[t] == Stop
    requires Run(c, s, actions).Some?
    ensures s.worker.Stopped? && !s.flag
    ensures s.desk.Ended? || (DeskAct(c, s).Some? && DeskAct(c, s).value.desk.Ended?)
    ensures Run(c, s, actions).value.worker.Stopped? && Run(c, s, actions).value.touches == s.touches
  {
    ReachableInv(c, s);
    assert OkTo(s.acks, s.requests, t, Stop);
    StoppedForGood(c, s, actions);
  }

  // ----- Nobody waits for ever -----

  /** How far the worker is from taking the message in line, or from answering the one it has taken. */
  function Distance(w: Worker): (nat, nat) {
    match w
    case Starting(_) => (16, 0)
    case Batch(_, left) => (15, left)
    case EndBatch => (14, 0)
    case Top => (13, 0)
    case Scanning => (12, 0)
    case AutoBatch(left) => (11, left)
    case ClearFlag => (10, 0)
    case SetTimer => (9, 0)
    case Selecting(_) => (8, 0)
    case GotStart(_) => (7, 0)
    case AckStart(_) => (6, 0)
    case GotStop(_) => (6, 0)
    case _ => (0, 0)
  }

  predicate Closer(x: (nat, nat), y: (nat, nat)) {
    x.0 < y.0 || (x.0 == y.0 && x.1 < y.1)
  }

  /** While the front desk waits for the worker, either the wait is over (there is a reply, or the channel
      has closed because the worker is gone) and the front desk can go on; or the worker can take a step,
      and every step it can take ends the wait or brings the end closer, except that the end of the period
      may win the race against the message in line. */
  lemma WaitResolves(c: Config, s: State)
    requires Reachable(c, s) && s.desk.Awaiting?
    ensures !Pending(s.desk, s.acks) ==> DeskAct(c, s).Some?
    ensures Pending(s.desk, s.acks) ==> Alive(s.worker) && exists choice :: WorkerAct(c, s, choice).Some?
    ensures Pending(s.desk, s.acks) ==>
      forall choice :: WorkerAct(c, s, choice).Some? ==> Progress(s, WorkerAct(c, s, choice).value, choice)
  {
    ReachableInv(c, s);
    if Pending(s.desk, s.acks) {
      assert s.worker.Selecting? ==> s.line != [];
      assert WorkerAct(c, s, if s.worker.Selecting? then Receive else Go(0)).Some?;
      forall choice | WorkerAct(c, s, choice).Some?
        ensures Progress(s, WorkerAct(c, s, choice).value, choice)
      {
        StepCloser(c, s, choice);
      }
    }
  }

  /** A step ends the wait, or brings its end closer, or the end of the period wins the race. */
  predicate Progress(s: State, s': State, choice: Choice) {
    || !Pending(s'.desk, s'.acks)
    || Closer(Distance(s'.worker), Distance(s.worker))
    || (s.worker.Selecting? && choice.TimerFires? && s.now >= s.worker.deadline)
  }

  /** The worker is at a scheduled pass. */
  predicate Passing(w: Worker) {
    w.Top? || w.Scanning? || w.AutoBatch? || w.ClearFlag? || w.SetTimer?
  }

  lemma StepCloser(c: Config, s: State, choice: Choice)
    requires s.desk.Awaiting? && LineInv(s.desk, s.line, s.worker, true) && WorkerAct(c, s, choice).Some?
    requires Pending(s.desk, s.acks) && (s.desk.request.Start? || s.desk.request.Stop?)
    ensures Progress(s, WorkerAct(c, s, choice).value, choice)
  {
    if Passing(s.worker) {
      PassCloser(c, s, choice);
    } else if s.worker.Selecting? {
      SelectCloser(c, s, choice);
    } else {
      ExplicitCloser(c, s, choice);
    }
  }

  lemma PassCloser(c: Config, s: State, choice: Choice)
    requires Passing(s.worker) && WorkerAct(c, s, choice).Some? && Pending(s.desk, s.acks)
    ensures Progress(s, WorkerAct(c, s, choice).value, choice)
  {
  }

  lemma SelectCloser(c: Config, s: State, choice: Choice)
    requires s.worker.Selecting? && WorkerAct(c, s, choice).Some? && Pending(s.desk, s.acks)
    requires s.line == [Message(s.desk.request, Some(s.desk.ticket))] && (s.desk.request.Start? || s.desk.request.Stop?)
    ensures Progress(s, WorkerAct(c, s, choice).value, choice)
  {
  }

  lemma ExplicitCloser(c: Config, s: State, choice: Choice)
    requires !Passing(s.worker) && !s.worker.Selecting? && Pending(s.desk, s.acks) && WorkerAct(c, s, choice).Some?
    requires LineInv(s.desk, s.line, s.worker, true)
    ensures Progress(s, WorkerAct(c, s, choice).value, choice)
  {
  }

  lemma PassLeavesDesk(c: Config, s: State, choice: Choice)
    requires Passing(s.worker) && WorkerAct(c, s, choice).Some?
    ensures var s' := WorkerAct(c, s, choice).value; s'.desk == s.desk && s'.requests == s.requests
  {
  }

  lemma SelectLeavesDesk(c: Config, s: State, choice: Choice)
    requires s.worker.Selecting? && WorkerAct(c, s, choice).Some?
    ensures var s' := WorkerAct(c, s, choice).value; s'.desk == s.desk && s'.requests == s.requests
  {
  }

  lemma ExplicitLeavesDesk(c: Config, s: State, choice: Choice)
    requires !Passing(s.worker) && !s.worker.Selecting? && WorkerAct(c, s, choice).Some?
    ensures var s' := WorkerAct(c, s, choice).value; s'.desk == s.desk && s'.requests == s.requests
  {
  }

  lemma WorkerLeavesDesk(c: Config, s: State, choice: Choice)
    requires WorkerAct(c, s, choice).Some?
    ensures var s' := WorkerAct(c, s, choice).value; s'.desk == s.desk && s'.requests == s.requests
  {
    if Passing(s.worker) {
      PassLeavesDesk(c, s, choice);
    } else if s.worker.Selecting? {
      SelectLeavesDesk(c, s, choice);
    } else {
      ExplicitLeavesDesk(c, s, choice);
    }
  }

  /** From any state in which the front desk waits, the worker can end the wait by its own steps alone,
      with no client, clock or front desk moving; and then the front desk can go on. */
  lemma {:induction false} WaitEnds(c: Config, s: State) returns (actions: seq<Action>)
    requires Inv(s) && s.desk.Awaiting?
    ensures forall a :: a in actions ==> a.WorkerStep?
    ensures Run(c, s, actions).Some?
    ensures
      var e := Run(c, s, actions).value;
      e.desk == s.desk && !Pending(e.desk, e.acks) && DeskAct(c, e).Some?
    decreases Distance(s.worker).0, Distance(s.worker).1
  {
    actions := [];
    if Pending(s.desk, s.acks) {
      var choice, next := WaitStep(c, s);
      var rest := [];
      if Pending(next.desk, next.acks) {
        rest := WaitEnds(c, next);
      } else {
        assert DeskAct(c, next).Some?;
      }
      actions := [WorkerStep(choice)] + rest;
      assert actions[1..] == rest;
    } else {
      assert DeskAct(c, s).Some?;
    }
  }

  /** The worker's next step. */
  lemma WaitStep(c: Config, s: State) returns (choice: Choice, next: State)
    requires Inv(s) && s.desk.Awaiting? && Pending(s.desk, s.acks)
    ensures WorkerAct(c, s, choice) == Some(next) && Inv(next) && next.desk == s.desk
    ensures !Pending(next.desk, next.acks) || Closer(Distance(next.worker), Distance(s.worker))
  {
    choice := if s.worker.Selecting? then Receive else Go(0);
    assert s.worker.Selecting? ==> s.line != [];
    next := WorkerAct(c, s, choice).value;
    StepCloser(c, s, choice);
    WorkerLeavesDesk(c, s, choice);
    WorkerKeepsInv(c, s, choice);
  }

  /** During a batch the front desk is free for status requests exactly when no message is in line: it
      blocks on a Start or a Stop that it passed on and the worker has not got to. */
  lemma BlockedDuringBatch(c: Config, s: State)
    requires Reachable(c, s) && (s.worker.AutoBatch? || s.worker.Batch?)
    ensures s.desk.Awaiting? && DeskAct(c, s).None? <==> |s.line| == 1
  {
    ReachableInv(c, s);
  }

  // ----- The time until the next scan -----

  /** The subtraction gives a time within the period exactly if no more than the period has passed. */
  lemma TimeLeftExact(period: nat, elapsed: nat)
    requires period < U64 && elapsed < U64
    ensures elapsed <= period ==> TimeUntilNextScan(period, elapsed) == period - elapsed
    ensures elapsed > period ==> TimeUntilNextScan(period, elapsed) == U64 - (elapsed - period) > period
  {
    if elapsed > period {
      assert (period - elapsed) % U64 == period - elapsed + U64 by {
        WrapOnce(period - elapsed);
      }
    }
  }

  lemma WrapOnce(x: int)
    requires x < 0 < x + U64
    ensures x % U64 == x + U64
  {
  }

  /** What a client is told that asks for the status while nothing moves. Within a period of the last pass it is
      the rest of the period; later, a build with overflow checks ends the front desk without an answer, and one
      without answers with what wraps around. */
  lemma StatusReplyExact(c: Config, s: State)
    requires Reachable(c, s) && s.desk.ReadingTimer? && c.period < U64 && s.now < U64
    ensures
      var t, elapsed, s' := s.desk.ticket, s.now - s.timer, DeskAct(c, s).value;
      && t in s'.replies
      && if elapsed > c.period && c.overflowChecks then s'.replies[t] == Closed && s'.desk.Ended?
         else
           && s'.replies[t].Answered? && s'.replies[t].reply.TimeLeft?
           && s'.replies[t].reply.seconds + elapsed == if elapsed > c.period then c.period + U64 else c.period
  {
    ReachableInv(c, s);
    TimeLeftExact(c.period, s.now - s.timer);
    assert Holds(s.desk, s.desk.ticket);
  }

  /** A client that asks for a batch or the status is told that one is in progress if and only if the worker is at
      one, or at a pass, or has died at one; else the request stays in hand, and a Start goes on to the worker. A
      Stop always does. */
  lemma InProgressExactly(c: Config, s: State)
    requires Reachable(c, s) && s.desk.Handling?
    ensures
      var t, r, s' := s.desk.ticket, s.desk.request, DeskAct(c, s).value;
      && t in s'.replies
      && (s'.replies[t] == Answered(InProgress) <==> !r.Stop? && Moving(s.worker))
      && (r.Stop? || !Moving(s.worker) ==>
            s'.replies[t] == Waiting && s'.desk == if r.Status? then ReadingTimer(t) else Sending(t, r))
  {
    ReachableInv(c, s);
    assert Holds(s.desk, s.desk.ticket);
  }

  /** What becomes of a request that goes to the worker. One that finds no worker gets no answer. The worker's Ok is
      passed back, after a Stop as the front desk's last act; if the worker is gone without an answer, a Stop is
      answered Failed, and a Start ends the front desk without an answer. */
  lemma PassedOnExactly(c: Config, s: State)
    requires Reachable(c, s) && (s.desk.Sending? || s.desk.Awaiting?) && DeskAct(c, s).Some?
    ensures
      var t, r, s' := s.desk.ticket, s.desk.request, DeskAct(c, s).value;
      && t in s'.replies
      && (s.desk.Sending? ==>
            if Alive(s.worker) then s'.replies[t] == Waiting && s'.desk == Awaiting(t, r)
            else s'.replies[t] == Closed && s'.desk.Listening?)
      && (s.desk.Awaiting? && OkTo(s.acks, s.requests, t, r) ==>
            s'.replies[t] == Answered(Ok) && s'.desk == if r.Stop? then Ended else Listening)
      && (s.desk.Awaiting? && !OkTo(s.acks, s.requests, t, r) ==>
            && !Alive(s.worker)
            && if r.Stop? then s'.replies[t] == Answered(Failed) && s'.desk.Listening?
               else s'.replies[t] == Closed && s'.desk.Ended?)
  {
    ReachableInv(c, s);
    ReachableMeaning(c, s);
    assert Holds(s.desk, s.desk.ticket);
  }

  // ----- What a reply, and the deadline, mean -----

  predicate ReplyMeans(reply: Channel, request: Request, passed: bool, ack: Channel) {
    match reply
    case Answered(TimeLeft(_)) => request.Status?
    case Answered(InProgress) => !request.Stop?
    case Answered(Ok) => !request.Status?
    case Answered(Failed) => request.Stop? && passed && ack.Closed?
    case _ => true
  }

  function AckOf(acks: map<Ticket, Channel>, t: Ticket): Channel {
    if t in acks then acks[t] else Waiting
  }

  ghost predicate RepliesMean(
    replies: map<Ticket, Channel>, requests: map<Ticket, Request>, acks: map<Ticket, Channel>)
  {
    forall t :: t in replies && t in requests ==> ReplyMeans(replies[t], requests[t], t in acks, AckOf(acks, t))
  }

  /** Only a Start or a Stop is passed on, and a channel closes without an answer only if the worker is gone. */
  ghost predicate AcksMean(acks: map<Ticket, Channel>, requests: map<Ticket, Request>, alive: bool) {
    forall t :: t in acks ==> t in requests && !requests[t].Status? && (acks[t].Closed? ==> !alive)
  }

  ghost predicate Meaning(c: Config, s: State) {
    && (s.worker.Selecting? ==> s.worker.deadline == s.timer + c.period)
    && RepliesMean(s.replies, s.requests, s.acks)
    && AcksMean(s.acks, s.requests, Alive(s.worker))
  }

  lemma SettledMeans(
    replies: map<Ticket, Channel>, requests: map<Ticket, Request>, acks: map<Ticket, Channel>, t: Ticket, c: Channel)
    requires RepliesMean(replies, requests, acks)
    requires t in requests ==> ReplyMeans(c, requests[t], t in acks, AckOf(acks, t))
    ensures RepliesMean(replies[t := c], requests, acks) && RepliesMean(Close(replies[t := c]), requests, acks)
  {
    ClosedMean(replies[t := c], requests, acks);
  }

  lemma ClosedMean(replies: map<Ticket, Channel>, requests: map<Ticket, Request>, acks: map<Ticket, Channel>)
    requires RepliesMean(replies, requests, acks)
    ensures RepliesMean(Close(replies), requests, acks)
  {
    forall t | t in Close(replies) && t in requests
      ensures ReplyMeans(Close(replies)[t], requests[t], t in acks, AckOf(acks, t))
    {
      assert t in replies;
    }
  }

  lemma DeskKeepsMeaning(c: Config, s: State)
    requires Inv(s) && Meaning(c, s) && DeskAct(c, s).Some?
    ensures Meaning(c, DeskAct(c, s).value)
  {
    DeskLeavesWorker(c, s);
    match s.desk
    case Listening => if s.queue == [] { ClosedMean(s.replies, s.requests, s.acks); }
    case Handling(t, _) => SettledMeans(s.replies, s.requests, s.acks, t, Waiting); HandlingKeepsMeaning(c, s);
    case ReadingTimer(t) => ReadingKeepsMeaning(c, s);
    case Sending(t, r) => SendingKeepsMeaning(c, s);
    case Awaiting(t, r) => AwaitingKeepsMeaning(c, s);
    case Ended =>
  }

  lemma HandlingKeepsMeaning(c: Config, s: State)
    requires Inv(s) && Meaning(c, s) && s.desk.Handling?
    ensures Meaning(c, DeskAct(c, s).value)
  {
    if s.flag && !s.desk.request.Stop? {
      SettledMeans(s.replies, s.requests, s.acks, s.desk.ticket, Answered(InProgress));
    }
  }

  lemma ReadingKeepsMeaning(c: Config, s: State)
    requires Inv(s) && Meaning(c, s) && s.desk.ReadingTimer?
    ensures Meaning(c, DeskAct(c, s).value)
  {
    var told := TimeLeft(TimeUntilNextScan(c.period, s.now - s.timer));
    ClosedMean(s.replies, s.requests, s.acks);
    SettledMeans(s.replies, s.requests, s.acks, s.desk.ticket, Answered(told));
  }

  lemma SendingKeepsMeaning(c: Config, s: State)
    requires Inv(s) && Meaning(c, s) && s.desk.Sending? && DeskAct(c, s).Some?
    ensures Meaning(c, DeskAct(c, s).value)
  {
    var t := s.desk.ticket;
    if Alive(s.worker) {
      var acks := s.acks[t := Waiting];
      forall u | u in s.replies && u in s.requests
        ensures ReplyMeans(s.replies[u], s.requests[u], u in acks, AckOf(acks, u))
      {
        assert ReplyMeans(s.replies[u], s.requests[u], u in s.acks, AckOf(s.acks, u));
        assert t !in s.acks;
      }
    } else {
      SettledMeans(s.replies, s.requests, s.acks, t, Closed);
    }
  }

  lemma AwaitingKeepsMeaning(c: Config, s: State)
    requires Inv(s) && Meaning(c, s) && s.desk.Awaiting? && DeskAct(c, s).Some?
    ensures Meaning(c, DeskAct(c, s).value)
  {
    var t := s.desk.ticket;
    ClosedMean(s.replies, s.requests, s.acks);
    if s.acks[t] == Answered(Ok) {
      SettledMeans(s.replies, s.requests, s.acks, t, Answered(Ok));
    } else if s.desk.request.Stop? {
      SettledMeans(s.replies, s.requests, s.acks, t, Answered(Failed));
    }
  }

  lemma WorkerKeepsMeaning(c: Config, s: State, choice: Choice)
    requires Inv(s) && Meaning(c, s) && WorkerAct(c, s, choice).Some?
    ensures Meaning(c, WorkerAct(c, s, choice).value)
  {
    if s.worker.AckStart? {
      AckedMeans(s.replies, s.requests, s.acks, s.worker.ticket, Alive(s.worker));
    } else if s.worker.GotStop? {
      AckedMeans(s.replies, s.requests, s.acks, s.worker.ticket, Alive(s.worker));
      DroppedMean(s.replies, s.requests, s.acks[s.worker.ticket := Answered(Ok)], Alive(s.worker));
    } else if Passing(s.worker) {
      PassKeepsMeaning(c, s, choice);
    } else if s.worker.Selecting? {
      SelectKeepsMeaning(c, s, choice);
    }
  }

  lemma PassKeepsMeaning(c: Config, s: State, choice: Choice)
    requires Meaning(c, s) && Passing(s.worker) && WorkerAct(c, s, choice).Some?
    ensures Meaning(c, WorkerAct(c, s, choice).value)
  {
    DroppedMean(s.replies, s.requests, s.acks, Alive(s.worker));
  }

  lemma SelectKeepsMeaning(c: Config, s: State, choice: Choice)
    requires Inv(s) && Meaning(c, s) && s.worker.Selecting? && WorkerAct(c, s, choice).Some?
    ensures Meaning(c, WorkerAct(c, s, choice).value)
  {
    if WorkerAct(c, s, choice) == Some(s.(worker := Top)) {
      assert Alive(Top);
    } else {
      MessageTaken(c, s, choice);
    }
  }

  /** The worker takes a Start or a Stop from its line, and that is all. */
  lemma MessageTaken(c: Config, s: State, choice: Choice)
    requires s.worker.Selecting? && LineInv(s.desk, s.line, s.worker, Pending(s.desk, s.acks))
    requires DeskInv(s.desk, s.requests, s.acks.Keys)
    requires WorkerAct(c, s, choice).Some? && WorkerAct(c, s, choice) != Some(s.(worker := Top))
    ensures
      var s' := WorkerAct(c, s, choice).value;
      s' == s.(line := [], worker := s'.worker) && (s'.worker.GotStart? || s'.worker.GotStop?)
  {
    assert s.line == [Message(s.desk.request, Some(s.desk.ticket))];
  }

  lemma AckedMeans(
    replies: map<Ticket, Channel>, requests: map<Ticket, Request>, acks: map<Ticket, Channel>, t: Ticket, alive: bool)
    requires RepliesMean(replies, requests, acks) && AcksMean(acks, requests, alive)
    requires t in acks && acks[t].Waiting?
    ensures RepliesMean(replies, requests, acks[t := Answered(Ok)])
    ensures AcksMean(acks[t := Answered(Ok)], requests, alive)
  {
    forall u | u in replies && u in requests
      ensures ReplyMeans(replies[u], requests[u], u in acks[t := Answered(Ok)], AckOf(acks[t := Answered(Ok)], u))
    {
      assert ReplyMeans(replies[u], requests[u], u in acks, AckOf(acks, u));
    }
  }

  lemma DroppedMean(
    replies: map<Ticket, Channel>, requests: map<Ticket, Request>, acks: map<Ticket, Channel>, alive: bool)
    requires RepliesMean(replies, requests, acks) && AcksMean(acks, requests, alive)
    ensures RepliesMean(replies, requests, Close(acks)) && AcksMean(Close(acks), requests, false)
  {
    forall u | u in replies && u in requests
      ensures ReplyMeans(replies[u], requests[u], u in Close(acks), AckOf(Close(acks), u))
    {
      assert ReplyMeans(replies[u], requests[u], u in acks, AckOf(acks, u));
    }
  }

  lemma SubmitKeepsMeaning(c: Config, s: State, t: Ticket, r: Request)
    requires Inv(s) && Meaning(c, s) && Act(c, s, Submit(t, r)).Some?
    ensures Meaning(c, Act(c, s, Submit(t, r)).value)
  {
    assert t !in s.acks && t !in s.requests;
    var replies, requests := s.replies[t := Waiting], s.requests[t := r];
    forall u | u in replies && u in requests
      ensures ReplyMeans(replies[u], requests[u], u in s.acks, AckOf(s.acks, u))
    {
      assert u != t ==> ReplyMeans(s.replies[u], s.requests[u], u in s.acks, AckOf(s.acks, u));
    }
  }

  lemma ActKeepsMeaning(c: Config, s: State, a: Action)
    requires Inv(s) && Meaning(c, s) && Act(c, s, a).Some?
    ensures Meaning(c, Act(c, s, a).value)
  {
    match a
    case Submit(t, r) => SubmitKeepsMeaning(c, s, t, r);
    case DropSenders =>
    case Tick =>
    case DeskStep => DeskKeepsMeaning(c, s);
    case WorkerStep(choice) => WorkerKeepsMeaning(c, s, choice);
  }

  lemma {:induction false} RunKeepsMeaning(c: Config, s: State, actions: seq<Action>)
    requires Inv(s) && Meaning(c, s) && Run(c, s, actions).Some?
    ensures Meaning(c, Run(c, s, actions).value)
    decreases |actions|
  {
    if actions != [] {
      ActKeepsInv(c, s, actions[0]);
      ActKeepsMeaning(c, s, actions[0]);
      RunKeepsMeaning(c, Act(c, s, actions[0]).value, actions[1..]);
    }
  }

  lemma ReachableMeaning(c: Config, s: State)
    requires Reachable(c, s)
    ensures Meaning(c, s)
  {
    var actions :| Run(c, Init(), actions) == Some(s);
    RunKeepsMeaning(c, Init(), actions);
  }

  /** What a reply tells the client that gets it. A time answers a status request only; InProgress never a Stop, nor
      Ok a status request; Failed is for a Stop that reached the worker's line and no worker any more. */
  lemma RepliesTell(c: Config, s: State, t: Ticket)
    requires Reachable(c, s) && t in s.replies && s.replies[t].Answered?
    ensures t in s.requests
    ensures s.replies[t].reply.TimeLeft? ==> s.requests[t] == Status
    ensures s.replies[t].reply == InProgress ==> s.requests[t] != Stop
    ensures s.replies[t].reply == Ok ==> s.requests[t] != Status
    ensures s.replies[t].reply == Failed ==>
      s.requests[t] == Stop && t in s.acks && s.acks[t] == Closed && !Alive(s.worker)
  {
    ReachableInv(c, s);
    ReachableMeaning(c, s);
    assert ReplyMeans(s.replies[t], s.requests[t], t in s.acks, AckOf(s.acks, t));
  }

  // ----- The next pass -----

  /** While the worker idles, the time told is the time until its next pass: that begins when a period is over since
      the last one ended, or at once if the front desk has ended. Left alone, the worker is scanning, with the flag
      up, as soon as that time is over. */
  lemma NextPass(c: Config, s: State) returns (s': State)
    requires Reachable(c, s) && s.worker.Selecting? && c.period < U64 && s.now < U64
    ensures s.worker.deadline == s.timer + c.period
    ensures
      (exists choice :: WorkerAct(c, s, choice) == Some(s.(worker := Top))) <==>
        s.now - s.timer >= c.period || s.desk.Ended?
    ensures s.desk.ReadingTimer? && s.now <= s.worker.deadline ==>
      var t, after := s.desk.ticket, DeskAct(c, s).value.replies;
      t in after && exists x: nat :: after[t] == Answered(TimeLeft(x)) && s.now + x == s.worker.deadline
    ensures Reachable(c, s')
    ensures
      s' == s.(now := if s.now < s.worker.deadline then s.worker.deadline else s.now, flag := true, worker := Scanning)
  {
    assert s.worker.deadline == s.timer + c.period by { ReachableMeaning(c, s); }
    if s.desk.ReadingTimer? && s.now <= s.worker.deadline {
      ToldDeadline(c, s);
    }
    ReachableInv(c, s);
    ComesRound(c, s);
    s' := Later(c, s, if s.now < s.worker.deadline then s.worker.deadline - s.now else 0);
    s' := PassBegins(c, s');
  }

  lemma ToldDeadline(c: Config, s: State)
    requires Reachable(c, s) && s.worker.Selecting? && s.desk.ReadingTimer? && c.period < U64 && s.now < U64
    requires s.worker.deadline == s.timer + c.period && s.now <= s.worker.deadline
    ensures
      var t, after := s.desk.ticket, DeskAct(c, s).value.replies;
      t in after && exists x: nat :: after[t] == Answered(TimeLeft(x)) && s.now + x == s.worker.deadline
  {
    ReachableInv(c, s);
    StatusReplyExact(c, s);
    var told := DeskAct(c, s).value.replies[s.desk.ticket].reply;
    assert told == TimeLeft(told.seconds) && s.now + told.seconds == s.worker.deadline;
  }

  lemma ComesRound(c: Config, s: State)
    requires Inv(s) && s.worker.Selecting?
    ensures
      (exists choice :: WorkerAct(c, s, choice) == Some(s.(worker := Top))) <==>
        s.now >= s.worker.deadline || s.desk.Ended?
  {
    if s.now >= s.worker.deadline {
      assert WorkerAct(c, s, TimerFires) == Some(s.(worker := Top));
    } else if s.desk.Ended? {
      assert WorkerAct(c, s, Receive) == Some(s.(worker := Top));
    }
    if choice :| WorkerAct(c, s, choice) == Some(s.(worker := Top)) {
      if choice.Receive? && s.line != [] { MessageTaken(c, s, choice); }
    }
  }

  /** Once all clients are gone the front desk ends, and with nothing left to wait for one pass follows the other
      without any time in between. */
  lemma PassesWithoutPause(c: Config) returns (s: State)
    ensures Reachable(c, s) && s.desk.Ended? && s.worker.Top? && s.now == s.timer == 0 && s.touches > 0
  {
    s := FirstIdle(c);
    s := Then(c, s, DropSenders);
    s := Then(c, s, DeskStep);
    s := Then(c, s, WorkerStep(Receive));
  }

  lemma PassBegins(c: Config, s: State) returns (s': State)
    requires Reachable(c, s) && s.worker.Selecting? && s.now >= s.worker.deadline
    ensures Reachable(c, s') && s' == s.(flag := true, worker := Scanning)
  {
    s' := Then(c, s, WorkerStep(TimerFires));
    s' := Then(c, s', WorkerStep(Go(0)));
  }

  /** A Start that the front desk passes on to an idle worker is answered Ok and gets its batch. */
  lemma StartServed(c: Config, s: State, moves: nat) returns (s': State)
    requires Reachable(c, s) && s.desk.Sending? && s.desk.request == Start && s.worker.Selecting?
    ensures
      var t := s.desk.ticket;
      && Reachable(c, s') && s'.worker == Batch(t, moves) && s'.flag && s'.begun == s.begun + [t]
      && t in s'.replies && s'.replies[t] == Answered(Ok) && s'.desk.Listening?
  {
    s' := Delivered(c, s);
    s' := Then(c, s', WorkerStep(Receive));
    s' := BatchBegins(c, s', moves);
    s' := Then(c, s', DeskStep);
  }

  lemma BatchBegins(c: Config, s: State, moves: nat) returns (s': State)
    requires Reachable(c, s) && s.worker.AckStart?
    ensures
      var t := s.worker.ticket;
      Reachable(c, s') && s' == s.(worker := Batch(t, moves), begun := s.begun + [t], acks := s.acks[t := Answered(Ok)])
  {
    s' := Then(c, s, WorkerStep(Receive));
    s' := Then(c, s', WorkerStep(Go(moves)));
  }

  /** The message is sent, and the worker takes it. */
  lemma Delivered(c: Config, s: State) returns (s': State)
    requires Reachable(c, s) && s.desk.Sending? && s.worker.Selecting?
    ensures
      var t, r := s.desk.ticket, s.desk.request;
      && Reachable(c, s') && s'.desk == Awaiting(t, r) && s'.acks == s.acks[t := Waiting] && s'.begun == s.begun
      && s'.line == [] && s'.replies == s.replies && s'.flag == s.flag
      && s'.worker == (if r.Start? then GotStart(t) else GotStop(t)) && !r.Status?
  {
    assert s.line == [] && !s.desk.request.Status? by { ReachableInv(c, s); }
    s' := Sent(c, s);
    s' := Taken(c, s', s.desk.ticket, s.desk.request);
  }

  lemma Taken(c: Config, s: State, t: Ticket, r: Request) returns (s': State)
    requires Reachable(c, s) && s.worker.Selecting? && s.line == [Message(r, Some(t))] && !r.Status?
    ensures Reachable(c, s') && s' == s.(line := [], worker := if r.Start? then GotStart(t) else GotStop(t))
  {
    s' := Then(c, s, WorkerStep(Receive));
  }

  lemma Sent(c: Config, s: State) returns (s': State)
    requires Reachable(c, s) && s.desk.Sending? && s.worker.Selecting? && s.line == []
    ensures
      var t, r := s.desk.ticket, s.desk.request;
      Reachable(c, s') && s' == s.(desk := Awaiting(t, r), line := [Message(r, Some(t))], acks := s.acks[t := Waiting])
  {
    s' := Then(c, s, DeskStep);
  }

  /** And a Stop is answered Ok, the worker and the front desk ending. */
  lemma StopServed(c: Config, s: State) returns (s': State)
    requires Reachable(c, s) && s.desk.Sending? && s.desk.request == Stop && s.worker.Selecting?
    ensures
      var t := s.desk.ticket;
      && Reachable(c, s') && s'.worker.Stopped? && s'.desk.Ended?
      && t in s'.replies && s'.replies[t] == Answered(Ok)
  {
    s' := Delivered(c, s);
    s' := Then(c, s', WorkerStep(Receive));
    s' := Then(c, s', DeskStep);
  }

  // ----- Two runs that go differently from what one would hope -----

  lemma {:induction false} RunAppend(c: Config, s: State, actions: seq<Action>, a: Action)
    requires Run(c, s, actions).Some?
    ensures Run(c, s, actions + [a]) == Act(c, Run(c, s, actions).value, a)
    decreases |actions|
  {
    if actions == [] {
      var next := Act(c, s, a);
      assert ([] + [a])[1..] == [];
      assert next.Some? ==> Run(c, next.value, []) == next;
    } else {
      assert (actions + [a])[0] == actions[0] && (actions + [a])[1..] == actions[1..] + [a];
      RunAppend(c, Act(c, s, actions[0]).value, actions[1..], a);
    }
  }

  lemma Then(c: Config, s: State, a: Action) returns (s': State)
    requires Reachable(c, s) && Act(c, s, a).Some?
    ensures s' == Act(c, s, a).value && Reachable(c, s')
  {
    s' := Act(c, s, a).value;
    var actions :| Run(c, Init(), actions) == Some(s);
    RunAppend(c, Init(), actions, a);
  }

  lemma {:induction false} Later(c: Config, s: State, ticks: nat) returns (s': State)
    requires Reachable(c, s)
    ensures s' == s.(now := s.now + ticks) && Reachable(c, s')
    decreases ticks
  {
    s' := s;
    if ticks > 0 {
      s' := Then(c, s, Tick);
      s' := Later(c, s', ticks - 1);
    }
  }

  /** The worker idles for the first time. */
  lemma FirstIdle(c: Config) returns (s: State)
    ensures Reachable(c, s)
    ensures s == Init().(worker := Selecting(c.period), touches := 1)
  {
    assert Run(c, Init(), []) == Some(Init());
    s := Then(c, Init(), WorkerStep(Go(0)));
    s := Then(c, s, WorkerStep(Go(0)));
    s := EndPass(c, s);
  }

  lemma EndPass(c: Config, s: State) returns (s': State)
    requires Reachable(c, s) && s.worker == AutoBatch(0)
    ensures Reachable(c, s') && s' == s.(flag := false, timer := s.now, worker := Selecting(s.now + c.period))
  {
    s' := Then(c, s, WorkerStep(Go(0)));
    s' := GoIdle(c, s');
  }

  lemma GoIdle(c: Config, s: State) returns (s': State)
    requires Reachable(c, s) && s.worker == ClearFlag
    ensures Reachable(c, s') && s' == s.(flag := false, timer := s.now, worker := Selecting(s.now + c.period))
  {
    s' := Then(c, s, WorkerStep(Go(0)));
    s' := Then(c, s', WorkerStep(Go(0)));
  }

  /** A first client asks for a batch, and the front desk sees the flag down. */
  lemma FirstStart(c: Config) returns (s: State)
    ensures Reachable(c, s)
    ensures s == Init().(worker := Selecting(c.period), touches := 1, desk := Sending(0, Start),
                         requests := map[0 := Start], replies := map[0 := Waiting])
  {
    s := FirstIdle(c);
    s := Then(c, s, Submit(0, Start));
    s := Then(c, s, DeskStep);
    s := Then(c, s, DeskStep);
  }

  /** The worker takes that message. */
  lemma FirstDelivery(c: Config) returns (s: State)
    ensures Reachable(c, s)
    ensures s == Init().(worker := GotStart(0), touches := 1, desk := Awaiting(0, Start), requests := map[0 := Start],
                         replies := map[0 := Waiting], acks := map[0 := Waiting])
  {
    s := FirstStart(c);
    s := Then(c, s, DeskStep);
    s := Then(c, s, WorkerStep(Receive));
  }

  /** It acknowledges the message and begins; the client is told Ok. */
  lemma FirstBatch(c: Config) returns (s: State)
    ensures Reachable(c, s)
    ensures s == Init().(flag := true, worker := Batch(0, 0), touches := 1, requests := map[0 := Start],
                         replies := map[0 := Answered(Ok)], acks := map[0 := Answered(Ok)], begun := [0])
  {
    s := FirstDelivery(c);
    s := FirstAck(c, s);
    s := Then(c, s, DeskStep);
  }

  lemma FirstAck(c: Config, s: State) returns (s': State)
    requires Reachable(c, s) && s.worker == GotStart(0) && s.acks == map[0 := Waiting] && s.begun == []
    ensures Reachable(c, s')
    ensures s' == s.(flag := true, worker := Batch(0, 0), acks := map[0 := Answered(Ok)], begun := [0])
  {
    s' := Then(c, s, WorkerStep(Receive));
    s' := FirstMoves(c, s');
  }

  lemma FirstMoves(c: Config, s: State) returns (s': State)
    requires Reachable(c, s) && s.worker == AckStart(0) && s.acks == map[0 := Waiting] && s.begun == []
    ensures Reachable(c, s')
    ensures s' == s.(worker := Batch(0, 0), acks := map[0 := Answered(Ok)], begun := [0])
  {
    s' := Then(c, s, WorkerStep(Receive));
    s' := Then(c, s', WorkerStep(Go(0)));
  }

  /** An explicit batch longer than the period leaves the timer stale with the flag down: for every
      period, a status request can find more than the period on the timer. */
  lemma StatusCanOverflow(c: Config) returns (s: State)
    ensures Reachable(c, s) && s.desk.ReadingTimer? && s.now - s.timer > c.period
  {
    s := LateEnd(c);
    s := AskStatus(c, s, 1);
    s := Then(c, s, DeskStep);
  }

  lemma LateEnd(c: Config) returns (s: State)
    ensures Reachable(c, s) && s.worker.Top? && !s.flag && s.timer == 0 && s.now == c.period + 1
    ensures s.desk.Listening? && s.queue == [] && s.sendersAlive && s.replies.Keys == {0}
  {
    s := FirstBatch(c);
    s := Later(c, s, c.period + 1);
    s := BatchEnds(c, s);
  }

  lemma BatchEnds(c: Config, s: State) returns (s': State)
    requires Reachable(c, s) && s.worker == Batch(0, 0)
    ensures Reachable(c, s') && s' == s.(flag := false, worker := Top)
  {
    s' := Then(c, s, WorkerStep(Receive));
    s' := Then(c, s', WorkerStep(Receive));
  }

  lemma AskStatus(c: Config, s: State, t: Ticket) returns (s': State)
    requires Reachable(c, s) && s.desk.Listening? && s.queue == [] && s.sendersAlive && t !in s.replies
    ensures Reachable(c, s')
    ensures
      s' == s.(desk := Handling(t, Status), requests := s.requests[t := Status], replies := s.replies[t := Waiting])
  {
    s' := Then(c, s, Submit(t, Status));
    s' := Then(c, s', DeskStep);
  }

  /** A Start that races with the end of the period waits in line behind a whole scheduled pass, and a
      status request behind it goes unanswered while that pass moves files. */
  lemma StatusCanWaitForBatch(c: Config) returns (s: State)
    ensures Reachable(c, s) && s.worker.AutoBatch? && s.worker.left > 0
    ensures s.desk.Awaiting? && s.desk.request == Start && DeskAct(c, s).None?
    ensures s.queue == [(1, Status)]
  {
    s := StartRaces(c);
    s := Then(c, s, WorkerStep(Receive));
    s := Then(c, s, WorkerStep(Go(1)));
    s := Then(c, s, Submit(1, Status));
  }

  lemma StartRaces(c: Config) returns (s: State)
    ensures Reachable(c, s) && s.worker.Top? && s.desk == Awaiting(0, Start) && s.acks == map[0 := Waiting]
    ensures s.queue == [] && s.replies == map[0 := Waiting] && s.sendersAlive
  {
    s := FirstStart(c);
    s := Later(c, s, c.period);
    s := Then(c, s, WorkerStep(TimerFires));
    s := Then(c, s, DeskStep);
  }
}
