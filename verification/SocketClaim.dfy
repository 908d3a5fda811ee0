/** Claiming the CLI socket, as a state machine over any number of processes: daemons that take the lock,
    foreign ones that do not, crashes between any two system calls, and files that come and go. */
module SocketClaim {
  import opened FileSystem
  import opened SocketRecord

  type Pid = nat

  /** What stands at the socket's path. */
  datatype Place = Absent | Foreign | Sock(stamp: Stamp)   // Foreign: anything but a socket

  /** A socket is bound first, listens then, and is closed for good when its process lets go of it. */
  datatype Life = Bound | Listening | Closed

  datatype Bind = Bind(maker: Pid, locking: bool, life: Life)

  /** Where a process stands. `x` is the socket it found, `y` the one it made, `z` the one it found at the
      path after binding; `seen` is what the found socket was at the probe. */
  datatype Proc =
    | Opening
    | Locked
    | Probing(x: Stamp)
    | Comparing(x: Stamp, seen: Life)      // macOS only
    | Rechecking(x: Stamp, seen: Life)
    | Unlinking(x: Stamp, seen: Life)
    | Binding
    | Starting(y: Stamp)                   // bound, not listening yet
    | Checking(y: Stamp)                   // listening; about to look at the path
    | Truncating(y: Stamp, z: Stamp)
    | Writing(y: Stamp, z: Stamp)
    | Syncing(y: Stamp)
    | Owner(y: Stamp)
    | Failing                              // an error return: the listener is closed, the lock goes next
    | Outsider                             // a daemon that takes no lock
    | OutsiderStarting(y: Stamp)
    | OutsiderUp(y: Stamp)
    | Dead

  datatype State = State(
    place: Place,
    lock: Option<Pid>,
    record: Bytes,                  // content of the lock file
    sockets: map<Stamp, Bind>,      // every socket ever bound
    procs: map<Pid, Proc>)

  function Init(place: Place): State {
    State(place, None, [], map[], map[])
  }

  /** `Go` is the call doing its work, `Fail` its error, `Refuse` the probe's refused connection, `Fresh` the
      identity of a socket that gets bound, and `Part` a write that has only got so far. */
  datatype Choice = Go | Fail | Refuse | Fresh(stamp: Stamp) | Part(length: nat)

  datatype Action =
    | Spawn(pid: Pid)
    | SpawnOutsider(pid: Pid)
    | Step(pid: Pid, choice: Choice)
    | Exit(pid: Pid)                // a crash, an exit or an exec: all descriptors close at once
    | Remove                        // somebody removes whatever is at the path
    | Create                        // somebody creates something that is no socket there

  function Set(s: State, p: Pid, proc: Proc): State {
    s.(procs := s.procs[p := proc])
  }

  function CloseAll(sockets: map<Stamp, Bind>, p: Pid): map<Stamp, Bind> {
    map x | x in sockets :: if sockets[x].maker == p then sockets[x].(life := Closed) else sockets[x]
  }

  /** An error return: locals are dropped, the listener before the lock. */
  function GiveUp(s: State, p: Pid): State {
    s.(sockets := CloseAll(s.sockets, p), procs := s.procs[p := Failing])
  }

  /** Whether a connection to the path can be refused: nobody listens there; or, on macOS, somebody does
      but has a full backlog. */
  predicate CanRefuse(mac: bool, s: State) {
    match s.place
    case Absent => false
    case Foreign => true
    case Sock(x) => mac || (x in s.sockets && !s.sockets[x].life.Listening?)
  }

  function LifeOf(s: State, x: Stamp): Life {
    if x in s.sockets then s.sockets[x].life else Closed
  }

  function BindSocket(s: State, p: Pid, y: Stamp, locking: bool, proc: Proc): State {
    s.(place := Sock(y), sockets := s.sockets[y := Bind(p, locking, Bound)], procs := s.procs[p := proc])
  }

  /** The steps from opening the lock file to removing a stale socket. */
  function ClaimStep(mac: bool, s: State, p: Pid, choice: Choice): Option<State>
    requires p in s.procs
  {
    var proc := s.procs[p];
    match proc
    case Opening =>
      if choice.Go? && s.lock.None? then Some(Set(s, p, Locked).(lock := Some(p)))
      else if choice.Go? || choice.Fail? then Some(Set(s, p, Dead)) else None
    case Locked =>
      if choice.Fail? then Some(GiveUp(s, p))
      else if choice.Go? then
        match s.place
        case Absent => Some(Set(s, p, Binding))
        case Foreign => Some(GiveUp(s, p))
        case Sock(x) => Some(Set(s, p, Probing(x)))
      else None
    case Probing(x) =>
      if choice.Fail? then Some(GiveUp(s, p))
      else if choice.Go? && s.place.Sock? && LifeOf(s, s.place.stamp).Listening? then Some(GiveUp(s, p))
      else if choice.Refuse? && CanRefuse(mac, s) then
        Some(Set(s, p, if mac then Comparing(x, LifeOf(s, x)) else Rechecking(x, LifeOf(s, x))))
      else None
    case Comparing(x, seen) =>
      if choice.Fail? then Some(GiveUp(s, p))
      else if choice.Go? then
        Some(if Matches(s.record, Identity(x)) then Set(s, p, Rechecking(x, seen)) else GiveUp(s, p))
      else None
    case Rechecking(x, seen) =>
      if choice.Fail? then Some(GiveUp(s, p))
      else if choice.Go? then Some(if s.place == Sock(x) then Set(s, p, Unlinking(x, seen)) else GiveUp(s, p))
      else None
    case Unlinking(x, seen) =>
      if choice.Fail? then Some(GiveUp(s, p))
      else if choice.Go? then Some(Set(s, p, Binding).(place := Absent)) else None
    case _ => None
  }

  /** The steps from binding to ownership. */
  function BindStep(s: State, p: Pid, choice: Choice): Option<State>
    requires p in s.procs
  {
    var proc := s.procs[p];
    if
      choice.Fail? &&
      (proc.Binding? || proc.Starting? || proc.Checking? || proc.Truncating? || proc.Writing? || proc.Syncing?)
    then Some(GiveUp(s, p))
    else match proc
    case Binding =>
      if choice.Fresh? && s.place.Absent? && choice.stamp !in s.sockets
      then Some(BindSocket(s, p, choice.stamp, true, Starting(choice.stamp)))
      else if choice.Go? && !s.place.Absent? then Some(GiveUp(s, p)) else None
    case Starting(y) =>
      if choice.Go? && y in s.sockets
      then Some(Set(s, p, Checking(y)).(sockets := s.sockets[y := s.sockets[y].(life := Listening)])) else None
    case Checking(y) =>
      if choice.Go? then Some(if s.place.Sock? then Set(s, p, Truncating(y, s.place.stamp)) else GiveUp(s, p)) else None
    case Truncating(y, z) =>
      if choice.Go? then Some(Set(s, p, Writing(y, z)).(record := [])) else None
    case Writing(y, z) =>
      if choice.Go? then Some(Set(s, p, Syncing(y)).(record := Identity(z)))
      else if choice.Part? && choice.length < RECORD_SIZE then Some(s.(record := Identity(z)[..choice.length]))
      else None
    case Syncing(y) =>
      if choice.Go? then Some(Set(s, p, Owner(y))) else None
    case Failing =>
      if choice.Go? then Some(Set(s, p, Dead).(lock := None)) else None
    case _ => None
  }

  function OutsiderStep(s: State, p: Pid, choice: Choice): Option<State>
    requires p in s.procs
  {
    match s.procs[p]
    case Outsider =>
      if choice.Fresh? && s.place.Absent? && choice.stamp !in s.sockets
      then Some(BindSocket(s, p, choice.stamp, false, OutsiderStarting(choice.stamp))) else None
    case OutsiderStarting(y) =>
      if choice.Go? && y in s.sockets
      then Some(Set(s, p, OutsiderUp(y)).(sockets := s.sockets[y := s.sockets[y].(life := Listening)])) else None
    case _ => None
  }

  predicate Claiming(proc: Proc) {
    proc.Opening? || proc.Locked? || proc.Probing? || proc.Comparing? || proc.Rechecking? || proc.Unlinking?
  }

  predicate Outside(proc: Proc) {
    proc.Outsider? || proc.OutsiderStarting? || proc.OutsiderUp?
  }

  function ProcStep(mac: bool, s: State, p: Pid, choice: Choice): Option<State> {
    if p !in s.procs then None
    else if Claiming(s.procs[p]) then ClaimStep(mac, s, p, choice)
    else if Outside(s.procs[p]) then OutsiderStep(s, p, choice)
    else BindStep(s, p, choice)
  }

  /** The two short stretches in which nobody else may touch the path: between the second look at a stale
      socket and its removal, and between binding a new one and looking at it. */
  predicate Delicate(proc: Proc) {
    proc.Unlinking? || proc.Starting? || proc.Checking?
  }

  ghost predicate Quiet(s: State) {
    forall p :: p in s.procs ==> !Delicate(s.procs[p])
  }

  ghost function Act(mac: bool, s: State, a: Action): Option<State> {
    match a
    case Spawn(p) => if p in s.procs then None else Some(Set(s, p, Opening))
    case SpawnOutsider(p) => if p in s.procs then None else Some(Set(s, p, Outsider))
    case Step(p, choice) => ProcStep(mac, s, p, choice)
    case Exit(p) =>
      if p !in s.procs then None
      else Some(Set(s, p, Dead).(sockets := CloseAll(s.sockets, p), lock := if s.lock == Some(p) then None else s.lock))
    case Remove => if Quiet(s) then Some(s.(place := Absent)) else None
    case Create => if s.place.Absent? then Some(s.(place := Foreign)) else None
  }

  ghost function Run(mac: bool, s: State, actions: seq<Action>): Option<State>
    decreases |actions|
  {
    if actions == [] then Some(s)
    else
      var next := Act(mac, s, actions[0]);
      if next.None? then None else Run(mac, next.value, actions[1..])
  }

  // ----- The invariant -----

  /** The process holds the lock. */
  predicate Holding(proc: Proc) {
    !(proc.Opening? || Outside(proc) || proc.Dead?)
  }

  /** The socket a process has open. */
  function Kept(proc: Proc): Option<Stamp> {
    match proc
    case Starting(y) => Some(y)
    case Checking(y) => Some(y)
    case Truncating(y, _) => Some(y)
    case Writing(y, _) => Some(y)
    case Syncing(y) => Some(y)
    case Owner(y) => Some(y)
    case OutsiderStarting(y) => Some(y)
    case OutsiderUp(y) => Some(y)
    case _ => None
  }

  /** From the sync on, the record is complete. */
  predicate Recorded(proc: Proc) {
    proc.Syncing? || proc.Owner?
  }

  predicate AboutToListen(proc: Proc) {
    proc.Starting? || proc.OutsiderStarting?
  }

  /** What the path shows to a process in a delicate stretch. */
  predicate InPlace(place: Place, proc: Proc) {
    match proc
    case Unlinking(x, _) => place == Sock(x)
    case Starting(y) => place == Sock(y)
    case Checking(y) => place == Sock(y)
    case Truncating(y, z) => y == z
    case Writing(y, z) => y == z
    case _ => true
  }

  /** What a claim knows of the socket it found, as long as that is still at the path. */
  predicate FoundOk(mac: bool, place: Place, sockets: map<Stamp, Bind>, proc: Proc) {
    match proc
    case Probing(x) => x in sockets
    case Comparing(x, seen) => x in sockets && mac
    case Rechecking(x, seen) => x in sockets && (place == Sock(x) ==> Stale(mac, sockets[x], seen))
    case Unlinking(x, seen) => x in sockets && Stale(mac, sockets[x], seen)
    case _ => true
  }

  /** Closed; or, on Linux only, made by an outsider that had bound it but did not listen at the probe. */
  predicate Stale(mac: bool, b: Bind, seen: Life) {
    b.life.Closed? || (!mac && !b.locking && seen.Bound?)
  }

  predicate OpenBy(sockets: map<Stamp, Bind>, p: Pid, y: Stamp) {
    y in sockets && sockets[y].maker == p && !sockets[y].life.Closed?
  }

  /** A process keeps only a socket it has open, and is right about the path and the record. */
  ghost predicate ProcOk(mac: bool, s: State, p: Pid)
    requires p in s.procs
  {
    var proc := s.procs[p];
    && (Kept(proc).Some? ==>
          OpenBy(s.sockets, p, Kept(proc).value) && (s.sockets[Kept(proc).value].locking <==> Holding(proc)))
    && InPlace(s.place, proc) && FoundOk(mac, s.place, s.sockets, proc)
    && (Recorded(proc) ==> s.record == Identity(proc.y))
  }

  /** An open socket is kept by the process that made it, and listens unless that is just about to. */
  predicate SocketOk(sockets: map<Stamp, Bind>, procs: map<Pid, Proc>, y: Stamp)
    requires y in sockets
  {
    var b := sockets[y];
    !b.life.Closed? ==>
      && b.maker in procs && Kept(procs[b.maker]) == Some(y)
      && (b.life.Bound? ==> AboutToListen(procs[b.maker]))
  }

  ghost predicate LockInv(lock: Option<Pid>, procs: map<Pid, Proc>) {
    forall p :: (p in procs && Holding(procs[p])) <==> lock == Some(p)
  }

  ghost predicate ProcsInv(mac: bool, s: State) {
    forall p :: p in s.procs ==> ProcOk(mac, s, p)
  }

  ghost predicate SocketsInv(sockets: map<Stamp, Bind>, procs: map<Pid, Proc>) {
    forall y :: y in sockets ==> SocketOk(sockets, procs, y)
  }

  /** The path shows a known socket if any. */
  predicate PlaceInv(place: Place, sockets: map<Stamp, Bind>) {
    place.Sock? ==> place.stamp in sockets
  }

  predicate Vouches(record: Bytes, x: Stamp) {
    Matches(record, Identity(x))
  }

  /** A record that names any socket names one that a lock-taking process has made. */
  ghost predicate RecordInv(record: Bytes, sockets: map<Stamp, Bind>) {
    forall x {:trigger Vouches(record, x)} :: Vouches(record, x) ==> x in sockets && sockets[x].locking
  }

  ghost predicate Inv(mac: bool, s: State) {
    && LockInv(s.lock, s.procs) && ProcsInv(mac, s) && SocketsInv(s.sockets, s.procs)
    && PlaceInv(s.place, s.sockets) && RecordInv(s.record, s.sockets)
  }

  // ----- What a step of one process means for the others -----

  /** What process `p` may make of a socket: anything of its own, but a closed one stays closed. */
  predicate Later(b: Bind, b': Bind, p: Pid) {
    && b'.maker == b.maker && b'.locking == b.locking
    && (b.maker != p ==> b' == b)
    && (b.life.Closed? ==> b'.life.Closed?)
  }

  ghost predicate Evolves(sockets: map<Stamp, Bind>, sockets': map<Stamp, Bind>, p: Pid) {
    forall y :: y in sockets ==> y in sockets' && Later(sockets[y], sockets'[y], p)
  }

  /** The path may be cleared, or show something new. */
  predicate PathMoves(s: State, s': State) {
    s'.place == s.place || !s'.place.Sock? || s'.place.stamp !in s.sockets
  }

  /** Nobody but `p` relies on the path, or on the record, if that changes. */
  ghost predicate Undisturbed(s: State, s': State, p: Pid) {
    forall q :: q in s.procs && q != p ==>
      && (s'.place == s.place || !Delicate(s.procs[q]))
      && (s'.record == s.record || !Recorded(s.procs[q]))
  }

  lemma OtherProcOk(mac: bool, s: State, s': State, p: Pid, q: Pid)
    requires q in s.procs && q != p && ProcOk(mac, s, q)
    requires q in s'.procs && s'.procs[q] == s.procs[q]
    requires Evolves(s.sockets, s'.sockets, p) && PathMoves(s, s') && Undisturbed(s, s', p)
    ensures ProcOk(mac, s', q)
  {
    var proc := s.procs[q];
    if Kept(proc).Some? {
      assert Later(s.sockets[Kept(proc).value], s'.sockets[Kept(proc).value], p);
    }
    if proc.Probing? || proc.Comparing? || proc.Rechecking? || proc.Unlinking? {
      assert Later(s.sockets[proc.x], s'.sockets[proc.x], p);
    }
  }

  /** Sockets of others are as before. */
  lemma OtherSocketOk(s: State, s': State, p: Pid, y: Stamp)
    requires y in s.sockets && s.sockets[y].maker != p && SocketOk(s.sockets, s.procs, y)
    requires Evolves(s.sockets, s'.sockets, p)
    requires forall q :: q in s.procs && q != p ==> q in s'.procs && s'.procs[q] == s.procs[q]
    ensures y in s'.sockets && SocketOk(s'.sockets, s'.procs, y)
  {
    assert Later(s.sockets[y], s'.sockets[y], p);
  }

  lemma RecordStays(record: Bytes, sockets: map<Stamp, Bind>, sockets': map<Stamp, Bind>, p: Pid)
    requires RecordInv(record, sockets) && Evolves(sockets, sockets', p)
    ensures RecordInv(record, sockets')
  {
    forall x | Vouches(record, x) ensures x in sockets' && sockets'[x].locking {
      assert Later(sockets[x], sockets'[x], p);
    }
  }

  /** A step of process `p` keeps the invariant if it does so as far as `p` and its own sockets go. */
  lemma StepKeeps(mac: bool, s: State, s': State, p: Pid)
    requires Inv(mac, s) && p in s'.procs && s'.procs == s.procs[p := s'.procs[p]]
    requires Evolves(s.sockets, s'.sockets, p) && PathMoves(s, s') && Undisturbed(s, s', p)
    requires LockInv(s'.lock, s'.procs) && ProcOk(mac, s', p)
    requires forall y :: y in s'.sockets && (y in s.sockets ==> s.sockets[y].maker == p) ==>
      SocketOk(s'.sockets, s'.procs, y)
    requires PlaceInv(s'.place, s'.sockets) && RecordInv(s'.record, s.sockets)
    ensures Inv(mac, s')
  {
    forall q | q in s'.procs ensures ProcOk(mac, s', q) {
      if q != p { OtherProcOk(mac, s, s', p, q); }
    }
    forall y | y in s'.sockets ensures SocketOk(s'.sockets, s'.procs, y) {
      if y in s.sockets && s.sockets[y].maker != p { OtherSocketOk(s, s', p, y); }
    }
    RecordStays(s'.record, s.sockets, s'.sockets, p);
  }

  /** Only one process holds the lock. */
  lemma OnlyHolder(s: State, s': State, p: Pid)
    requires LockInv(s.lock, s.procs) && p in s.procs && Holding(s.procs[p])
    ensures Undisturbed(s, s', p)
  {
    forall q | q in s.procs && q != p ensures !Holding(s.procs[q]) {
      assert s.lock == Some(p);
    }
  }

  lemma LockStays(lock: Option<Pid>, procs: map<Pid, Proc>, p: Pid, proc: Proc)
    requires LockInv(lock, procs) && Holding(proc) == (p in procs && Holding(procs[p]))
    ensures LockInv(lock, procs[p := proc])
  {
  }

  lemma SameSockets(sockets: map<Stamp, Bind>, p: Pid)
    ensures Evolves(sockets, sockets, p)
  {
  }

  // ----- Every step keeps it -----

  /** A step that changes nothing but where a process stands. */
  lemma MoveKeeps(mac: bool, s: State, p: Pid, proc: Proc)
    requires Inv(mac, s) && Holding(proc) == (p in s.procs && Holding(s.procs[p]))
    requires Kept(proc) == if p in s.procs then Kept(s.procs[p]) else None
    requires p in s.procs ==> AboutToListen(proc) == AboutToListen(s.procs[p])
    requires FoundOk(mac, s.place, s.sockets, proc) && InPlace(s.place, proc)
    requires Recorded(proc) ==> s.record == Identity(proc.y)
    ensures Inv(mac, Set(s, p, proc))
  {
    var s' := Set(s, p, proc);
    LockStays(s.lock, s.procs, p, proc);
    SameSockets(s.sockets, p);
    if p in s.procs { assert ProcOk(mac, s, p); }
    forall y | y in s.sockets && s.sockets[y].maker == p ensures SocketOk(s.sockets, s'.procs, y) {
      assert SocketOk(s.sockets, s.procs, y);
    }
    StepKeeps(mac, s, s', p);
  }

  /** All that `p` has open is closed, and it may let go of the lock. */
  lemma CloseKeeps(mac: bool, s: State, p: Pid, proc: Proc, lock: Option<Pid>)
    requires Inv(mac, s) && p in s.procs && (proc.Failing? || proc.Dead?)
    requires LockInv(lock, s.procs[p := proc])
    ensures Inv(mac, s.(lock := lock, sockets := CloseAll(s.sockets, p), procs := s.procs[p := proc]))
  {
    var s' := s.(lock := lock, sockets := CloseAll(s.sockets, p), procs := s.procs[p := proc]);
    StepKeeps(mac, s, s', p);
  }

  lemma GiveUpKeeps(mac: bool, s: State, p: Pid)
    requires Inv(mac, s) && p in s.procs && Holding(s.procs[p])
    ensures Inv(mac, GiveUp(s, p))
  {
    LockStays(s.lock, s.procs, p, Failing);
    CloseKeeps(mac, s, p, Failing, s.lock);
  }

  lemma LockFreed(lock: Option<Pid>, procs: map<Pid, Proc>, p: Pid)
    requires LockInv(lock, procs)
    ensures LockInv(if lock == Some(p) then None else lock, procs[p := Dead])
  {
  }

  lemma ExitKeeps(mac: bool, s: State, p: Pid)
    requires Inv(mac, s) && Act(mac, s, Exit(p)).Some?
    ensures Inv(mac, Act(mac, s, Exit(p)).value)
  {
    LockFreed(s.lock, s.procs, p);
    CloseKeeps(mac, s, p, Dead, if s.lock == Some(p) then None else s.lock);
  }

  // ----- The steps of a claim -----

  lemma OpenKeeps(mac: bool, s: State, p: Pid, choice: Choice)
    requires Inv(mac, s) && p in s.procs && s.procs[p].Opening? && ClaimStep(mac, s, p, choice).Some?
    ensures Inv(mac, ClaimStep(mac, s, p, choice).value)
  {
    if choice.Go? && s.lock.None? {
      LockTaken(s.procs, p);
      OpenedKeeps(mac, s, Set(s, p, Locked).(lock := Some(p)), p);
    } else {
      MoveKeeps(mac, s, p, Dead);
    }
  }

  lemma LockTaken(procs: map<Pid, Proc>, p: Pid)
    requires LockInv(None, procs)
    ensures LockInv(Some(p), procs[p := Locked])
  {
  }

  /** The step of a process that keeps no socket, and changes only itself, the lock and the path. */
  lemma OpenedKeeps(mac: bool, s: State, s': State, p: Pid)
    requires Inv(mac, s) && p in s.procs && Kept(s.procs[p]).None?
    requires p in s'.procs && s'.procs == s.procs[p := s'.procs[p]] && ProcOk(mac, s', p)
    requires s'.sockets == s.sockets && s'.record == s.record && (s'.place == s.place || s'.place.Absent?)
    requires Undisturbed(s, s', p) && LockInv(s'.lock, s'.procs)
    ensures Inv(mac, s')
  {
    SameSockets(s.sockets, p);
    forall y | y in s.sockets && s.sockets[y].maker == p ensures SocketOk(s.sockets, s'.procs, y) {
      assert SocketOk(s.sockets, s.procs, y);
    }
    StepKeeps(mac, s, s', p);
  }

  /** While a claim goes on, no lock-taking process but its own can have a socket open, and it has none yet. */
  lemma LockedOutMakers(mac: bool, s: State, p: Pid, x: Stamp)
    requires Inv(mac, s) && p in s.procs && Holding(s.procs[p]) && Kept(s.procs[p]).None?
    requires x in s.sockets && s.sockets[x].locking
    ensures s.sockets[x].life.Closed?
  {
    assert SocketOk(s.sockets, s.procs, x);
    var q := s.sockets[x].maker;
    if q in s.procs {
      assert ProcOk(mac, s, q);
      assert s.lock == Some(p);
    }
  }

  lemma ProbeKeeps(mac: bool, s: State, p: Pid)
    requires Inv(mac, s) && p in s.procs && s.procs[p].Probing? && CanRefuse(mac, s)
    ensures
      var x := s.procs[p].x;
      Inv(mac, Set(s, p, if mac then Comparing(x, LifeOf(s, x)) else Rechecking(x, LifeOf(s, x))))
  {
    var x := s.procs[p].x;
    assert x in s.sockets by { assert ProcOk(mac, s, p); }
    if s.sockets[x].locking {
      LockedOutMakers(mac, s, p, x);
    }
    MoveKeeps(mac, s, p, if mac then Comparing(x, LifeOf(s, x)) else Rechecking(x, LifeOf(s, x)));
  }

  lemma CompareKeeps(mac: bool, s: State, p: Pid)
    requires Inv(mac, s) && p in s.procs && s.procs[p].Comparing? && Matches(s.record, Identity(s.procs[p].x))
    ensures Inv(mac, Set(s, p, Rechecking(s.procs[p].x, s.procs[p].seen)))
  {
    var x := s.procs[p].x;
    assert Vouches(s.record, x);
    LockedOutMakers(mac, s, p, x);
    MoveKeeps(mac, s, p, Rechecking(x, s.procs[p].seen));
  }

  lemma RecheckKeeps(mac: bool, s: State, p: Pid)
    requires Inv(mac, s) && p in s.procs && s.procs[p].Rechecking? && s.place == Sock(s.procs[p].x)
    ensures Inv(mac, Set(s, p, Unlinking(s.procs[p].x, s.procs[p].seen)))
  {
    assert ProcOk(mac, s, p);
    MoveKeeps(mac, s, p, Unlinking(s.procs[p].x, s.procs[p].seen));
  }

  lemma UnlinkKeeps(mac: bool, s: State, p: Pid)
    requires Inv(mac, s) && p in s.procs && s.procs[p].Unlinking?
    ensures Inv(mac, Set(s, p, Binding).(place := Absent))
  {
    var s' := Set(s, p, Binding).(place := Absent);
    LockStays(s.lock, s.procs, p, Binding);
    OnlyHolder(s, s', p);
    OpenedKeeps(mac, s, s', p);
  }

  lemma ClaimKeeps(mac: bool, s: State, p: Pid, choice: Choice)
    requires Inv(mac, s) && p in s.procs && Claiming(s.procs[p]) && ClaimStep(mac, s, p, choice).Some?
    ensures Inv(mac, ClaimStep(mac, s, p, choice).value)
  {
    var proc := s.procs[p];
    if proc.Opening? {
      OpenKeeps(mac, s, p, choice);
    } else if ClaimStep(mac, s, p, choice).value == GiveUp(s, p) {
      GiveUpKeeps(mac, s, p);
    } else {
      match proc
      case Locked => MoveKeeps(mac, s, p, if s.place.Absent? then Binding else Probing(s.place.stamp));
      case Probing(_) => ProbeKeeps(mac, s, p);
      case Comparing(_, _) => CompareKeeps(mac, s, p);
      case Rechecking(_, _) => RecheckKeeps(mac, s, p);
      case Unlinking(_, _) => UnlinkKeeps(mac, s, p);
      case _ =>
    }
  }

  // ----- The steps from binding on -----

  lemma BindSocketKeeps(mac: bool, s: State, p: Pid, y: Stamp, locking: bool, proc: Proc)
    requires Inv(mac, s) && p in s.procs && s.place.Absent? && y !in s.sockets
    requires
      if locking then s.procs[p].Binding? && proc == Starting(y)
      else s.procs[p].Outsider? && proc == OutsiderStarting(y)
    ensures Inv(mac, BindSocket(s, p, y, locking, proc))
  {
    var s' := BindSocket(s, p, y, locking, proc);
    assert LockInv(s'.lock, s'.procs) by { LockStays(s.lock, s.procs, p, proc); }
    assert Undisturbed(s, s', p) by { NobodyDelicate(mac, s, s', p); }
    BoundOk(mac, s, p, y, locking, proc);
    StepKeeps(mac, s, s', p);
  }

  lemma BoundOk(mac: bool, s: State, p: Pid, y: Stamp, locking: bool, proc: Proc)
    requires p in s.procs && Kept(s.procs[p]).None? && SocketsInv(s.sockets, s.procs) && y !in s.sockets
    requires proc == if locking then Starting(y) else OutsiderStarting(y)
    ensures
      var s' := BindSocket(s, p, y, locking, proc);
      && ProcOk(mac, s', p) && Evolves(s.sockets, s'.sockets, p) && SocketOk(s'.sockets, s'.procs, y)
      && forall x :: x in s.sockets && s.sockets[x].maker == p ==> SocketOk(s'.sockets, s'.procs, x)
  {
    var s' := BindSocket(s, p, y, locking, proc);
    forall x | x in s.sockets && s.sockets[x].maker == p ensures SocketOk(s'.sockets, s'.procs, x) {
      NothingOpen(s, p, x);
    }
  }

  /** What a process without an open socket has made is closed. */
  lemma NothingOpen(s: State, p: Pid, x: Stamp)
    requires SocketsInv(s.sockets, s.procs) && p in s.procs && Kept(s.procs[p]).None?
    requires x in s.sockets && s.sockets[x].maker == p
    ensures s.sockets[x].life.Closed?
  {
    assert SocketOk(s.sockets, s.procs, x);
  }

  /** While there is nothing at the path, nobody relies on it. */
  lemma NobodyDelicate(mac: bool, s: State, s': State, p: Pid)
    requires ProcsInv(mac, s) && s.place.Absent? && s'.record == s.record
    ensures Undisturbed(s, s', p)
  {
    forall q | q in s.procs ensures !Delicate(s.procs[q]) {
      assert ProcOk(mac, s, q);
    }
  }

  lemma ListenKeeps(mac: bool, s: State, p: Pid, y: Stamp, proc: Proc)
    requires Inv(mac, s) && p in s.procs && y in s.sockets
    requires
      || (s.procs[p] == Starting(y) && proc == Checking(y))
      || (s.procs[p] == OutsiderStarting(y) && proc == OutsiderUp(y))
    ensures Inv(mac, Set(s, p, proc).(sockets := s.sockets[y := s.sockets[y].(life := Listening)]))
  {
    var s' := Set(s, p, proc).(sockets := s.sockets[y := s.sockets[y].(life := Listening)]);
    LockStays(s.lock, s.procs, p, proc);
    ListeningOk(mac, s, p, y, proc);
    StepKeeps(mac, s, s', p);
  }

  lemma ListeningOk(mac: bool, s: State, p: Pid, y: Stamp, proc: Proc)
    requires p in s.procs && y in s.sockets && ProcOk(mac, s, p) && SocketsInv(s.sockets, s.procs)
    requires
      || (s.procs[p] == Starting(y) && proc == Checking(y))
      || (s.procs[p] == OutsiderStarting(y) && proc == OutsiderUp(y))
    ensures
      var s' := Set(s, p, proc).(sockets := s.sockets[y := s.sockets[y].(life := Listening)]);
      && ProcOk(mac, s', p) && Evolves(s.sockets, s'.sockets, p)
      && forall x :: x in s'.sockets && s.sockets[x].maker == p ==> SocketOk(s'.sockets, s'.procs, x)
  {
    var s' := Set(s, p, proc).(sockets := s.sockets[y := s.sockets[y].(life := Listening)]);
    forall x | x in s.sockets && s.sockets[x].maker == p ensures SocketOk(s'.sockets, s'.procs, x) {
      assert SocketOk(s.sockets, s.procs, x);
    }
  }

  /** Only the holder of the lock writes the record. */
  lemma RecordKeeps(mac: bool, s: State, p: Pid, proc: Proc, record: Bytes)
    requires Inv(mac, s) && p in s.procs && (s.procs[p].Truncating? || s.procs[p].Writing?)
    requires Holding(proc) && Kept(proc) == Kept(s.procs[p]) && InPlace(s.place, proc) && !AboutToListen(proc)
    requires FoundOk(mac, s.place, s.sockets, proc) && (Recorded(proc) ==> record == Identity(proc.y))
    requires RecordInv(record, s.sockets)
    ensures Inv(mac, Set(s, p, proc).(record := record))
  {
    var s' := Set(s, p, proc).(record := record);
    LockStays(s.lock, s.procs, p, proc);
    OnlyHolder(s, s', p);
    SameSockets(s.sockets, p);
    assert ProcOk(mac, s, p);
    forall x | x in s.sockets && s.sockets[x].maker == p ensures SocketOk(s.sockets, s'.procs, x) {
      assert SocketOk(s.sockets, s.procs, x);
    }
    StepKeeps(mac, s, s', p);
  }

  /** An unfinished record names nothing. */
  lemma PartialRecord(z: Stamp, k: nat, sockets: map<Stamp, Bind>)
    requires k < RECORD_SIZE
    ensures RecordInv(Identity(z)[..k], sockets)
  {
    forall x ensures !Vouches(Identity(z)[..k], x) {
      UnfinishedNeverMatches(z, k, x);
    }
  }

  lemma WholeRecord(z: Stamp, sockets: map<Stamp, Bind>)
    requires z in sockets && sockets[z].locking
    ensures RecordInv(Identity(z), sockets)
  {
    forall x | Vouches(Identity(z), x) ensures x == z {
      UnfinishedNeverMatches(z, 0, x);
    }
  }

  lemma WriteKeeps(mac: bool, s: State, p: Pid, choice: Choice)
    requires Inv(mac, s) && p in s.procs && s.procs[p].Writing? && !choice.Fail? && BindStep(s, p, choice).Some?
    ensures Inv(mac, BindStep(s, p, choice).value)
  {
    var proc := s.procs[p];
    assert ProcOk(mac, s, p);
    if choice.Go? {
      WholeRecord(proc.z, s.sockets);
      RecordKeeps(mac, s, p, Syncing(proc.y), Identity(proc.z));
    } else {
      assert s.procs[p := proc] == s.procs;
      PartialRecord(proc.z, choice.length, s.sockets);
      RecordKeeps(mac, s, p, proc, Identity(proc.z)[..choice.length]);
    }
  }

  lemma TruncateKeeps(mac: bool, s: State, p: Pid)
    requires Inv(mac, s) && p in s.procs && s.procs[p].Truncating?
    ensures Inv(mac, Set(s, p, Writing(s.procs[p].y, s.procs[p].z)).(record := []))
  {
    assert ProcOk(mac, s, p);
    PartialRecord(s.procs[p].z, 0, s.sockets);
    assert Identity(s.procs[p].z)[..0] == [];
    RecordKeeps(mac, s, p, Writing(s.procs[p].y, s.procs[p].z), []);
  }

  lemma ReleaseKeeps(mac: bool, s: State, p: Pid)
    requires Inv(mac, s) && p in s.procs && s.procs[p].Failing?
    ensures Inv(mac, Set(s, p, Dead).(lock := None))
  {
    var s' := Set(s, p, Dead).(lock := None);
    LockFreed(s.lock, s.procs, p);
    assert s.lock == Some(p);
    OpenedKeeps(mac, s, s', p);
  }

  lemma CheckKeeps(mac: bool, s: State, p: Pid)
    requires Inv(mac, s) && p in s.procs && s.procs[p].Checking? && s.place.Sock?
    ensures Inv(mac, Set(s, p, Truncating(s.procs[p].y, s.place.stamp)))
  {
    assert ProcOk(mac, s, p);
    MoveKeeps(mac, s, p, Truncating(s.procs[p].y, s.place.stamp));
  }

  lemma SyncKeeps(mac: bool, s: State, p: Pid)
    requires Inv(mac, s) && p in s.procs && s.procs[p].Syncing?
    ensures Inv(mac, Set(s, p, Owner(s.procs[p].y)))
  {
    assert ProcOk(mac, s, p);
    MoveKeeps(mac, s, p, Owner(s.procs[p].y));
  }

  lemma BindStepKeeps(mac: bool, s: State, p: Pid, choice: Choice)
    requires Inv(mac, s) && p in s.procs && !Claiming(s.procs[p]) && !Outside(s.procs[p])
    requires BindStep(s, p, choice).Some?
    ensures Inv(mac, BindStep(s, p, choice).value)
  {
    var proc := s.procs[p];
    if BindStep(s, p, choice).value == GiveUp(s, p) && Holding(proc) {
      GiveUpKeeps(mac, s, p);
    } else {
      match proc
      case Binding => BindSocketKeeps(mac, s, p, choice.stamp, true, Starting(choice.stamp));
      case Starting(y) => ListenKeeps(mac, s, p, y, Checking(y));
      case Checking(_) => CheckKeeps(mac, s, p);
      case Truncating(_, _) => TruncateKeeps(mac, s, p);
      case Writing(_, _) => WriteKeeps(mac, s, p, choice);
      case Syncing(_) => SyncKeeps(mac, s, p);
      case Failing => ReleaseKeeps(mac, s, p);
      case _ =>
    }
  }

  lemma OutsiderKeeps(mac: bool, s: State, p: Pid, choice: Choice)
    requires Inv(mac, s) && p in s.procs && Outside(s.procs[p]) && OutsiderStep(s, p, choice).Some?
    ensures Inv(mac, OutsiderStep(s, p, choice).value)
  {
    if s.procs[p].Outsider? {
      BindSocketKeeps(mac, s, p, choice.stamp, false, OutsiderStarting(choice.stamp));
    } else {
      ListenKeeps(mac, s, p, s.procs[p].y, OutsiderUp(s.procs[p].y));
    }
  }

  // ----- All steps -----

  /** Something that is no socket comes to the path, or nothing at all. */
  lemma PathKeeps(mac: bool, s: State, place: Place)
    requires Inv(mac, s) && !place.Sock? && (Quiet(s) || s.place.Absent?)
    ensures Inv(mac, s.(place := place))
  {
    var s' := s.(place := place);
    forall q | q in s.procs ensures ProcOk(mac, s', q) {
      assert ProcOk(mac, s, q);
      assert !Delicate(s.procs[q]);
    }
  }

  lemma ActKeepsInv(mac: bool, s: State, a: Action)
    requires Inv(mac, s) && Act(mac, s, a).Some?
    ensures Inv(mac, Act(mac, s, a).value)
  {
    match a
    case Spawn(p) => MoveKeeps(mac, s, p, Opening);
    case SpawnOutsider(p) => MoveKeeps(mac, s, p, Outsider);
    case Step(p, choice) =>
      if Claiming(s.procs[p]) { ClaimKeeps(mac, s, p, choice); }
      else if Outside(s.procs[p]) { OutsiderKeeps(mac, s, p, choice); }
      else { BindStepKeeps(mac, s, p, choice); }
    case Exit(p) => ExitKeeps(mac, s, p);
    case Remove => PathKeeps(mac, s, Absent);
    case Create => PathKeeps(mac, s, Foreign);
  }

  lemma {:induction false} RunKeepsInv(mac: bool, s: State, actions: seq<Action>)
    requires Inv(mac, s) && Run(mac, s, actions).Some?
    ensures Inv(mac, Run(mac, s, actions).value)
    decreases |actions|
  {
    if actions != [] {
      ActKeepsInv(mac, s, actions[0]);
      RunKeepsInv(mac, Act(mac, s, actions[0]).value, actions[1..]);
    }
  }

  // ----- What every run guarantees -----

  /** Whatever stood at the path in the beginning, there are no sockets, no processes and no record yet. */
  ghost predicate Reachable(mac: bool, s: State) {
    exists place: Place, actions: seq<Action> :: !place.Sock? && Run(mac, Init(place), actions) == Some(s)
  }

  lemma ReachableInv(mac: bool, s: State)
    requires Reachable(mac, s)
    ensures Inv(mac, s)
  {
    var place: Place, actions: seq<Action> :| !place.Sock? && Run(mac, Init(place), actions) == Some(s);
    RunKeepsInv(mac, Init(place), actions);
  }

  /** At most one lock-taking process is an owner, or anywhere else between taking the lock and letting it
      go; and an owner's socket is its own, open, and no one else's. */
  lemma OneOwner(mac: bool, s: State, p: Pid, q: Pid)
    requires Reachable(mac, s) && p in s.procs && q in s.procs && Holding(s.procs[p]) && Holding(s.procs[q])
    ensures p == q && s.lock == Some(p)
    ensures s.procs[p].Owner? ==>
      s.procs[p].y in s.sockets && s.sockets[s.procs[p].y].maker == p && !s.sockets[s.procs[p].y].life.Closed?
  {
    ReachableInv(mac, s);
    assert ProcOk(mac, s, p) && s.lock == Some(p);
  }

  /** What a claim removes is the very socket it has examined, and that socket is closed. The one exception
      is on Linux: a socket that a daemon without the lock had bound, but did not listen on yet when it was
      probed, refuses like a stale one. A socket that listened when it was probed is never removed, nor is
      any socket of a lock-taking process that has not exited; and on macOS no open socket at all. */
  lemma UnlinkIsSafe(mac: bool, s: State, p: Pid)
    requires Reachable(mac, s) && p in s.procs && s.procs[p].Unlinking?
    ensures
      var x := s.procs[p].x;
      && s.place == Sock(x) && x in s.sockets
      && (s.sockets[x].life.Closed? || (!mac && !s.sockets[x].locking && s.procs[p].seen.Bound?))
  {
    ReachableInv(mac, s);
    assert ProcOk(mac, s, p);
  }

  /** What macOS relies on: a record that matches the socket a claim has found was left by a lock-taking
      process that is gone. */
  lemma MatchingRecordIsStale(mac: bool, s: State, p: Pid, x: Stamp)
    requires Reachable(mac, s) && p in s.procs
    requires s.procs[p] == Probing(x) || (s.procs[p].Comparing? && s.procs[p].x == x)
    requires Matches(s.record, Identity(x))
    ensures x in s.sockets && s.sockets[x].locking && s.sockets[x].life.Closed?
  {
    ReachableInv(mac, s);
    assert Vouches(s.record, x);
    LockedOutMakers(mac, s, p, x);
  }

  /** A call of a claim that fails, the very last included, never makes an owner: the claim gives up, with the path
      and the record as they were and no socket of its own open any more. */
  lemma FailedCallGivesUp(mac: bool, s: State, p: Pid)
    requires Reachable(mac, s) && Act(mac, s, Step(p, Fail)).Some?
    ensures
      var s' := Act(mac, s, Step(p, Fail)).value;
      && p in s'.procs && (s'.procs[p].Failing? || s'.procs[p].Dead?)
      && s'.place == s.place && s'.record == s.record
      && forall y :: y in s'.sockets && s'.sockets[y].maker == p ==> s'.sockets[y].life.Closed?
  {
    FailedStep(mac, s, p);
    if s.procs[p].Opening? {
      forall y | y in s.sockets && s.sockets[y].maker == p ensures s.sockets[y].life.Closed? {
        OpeningHasNone(mac, s, p, y);
      }
    }
  }

  lemma FailedStep(mac: bool, s: State, p: Pid)
    requires Act(mac, s, Step(p, Fail)).Some?
    ensures
      p in s.procs && Act(mac, s, Step(p, Fail)).value == if s.procs[p].Opening? then Set(s, p, Dead) else GiveUp(s, p)
  {
  }

  lemma OpeningHasNone(mac: bool, s: State, p: Pid, y: Stamp)
    requires Reachable(mac, s) && p in s.procs && s.procs[p].Opening? && y in s.sockets && s.sockets[y].maker == p
    ensures s.sockets[y].life.Closed?
  {
    ReachableInv(mac, s);
    NothingOpen(s, p, y);
  }

  /** A claim that does not find again what it has found gives up: with nothing at the path any more at the probe,
      on Linux with somebody who listens there, or with anything but the same socket at the second look. */
  lemma ChangedPathGivesUp(mac: bool, s: State, p: Pid, choice: Choice)
    requires Act(mac, s, Step(p, choice)).Some? && p in s.procs
    requires
      || (s.procs[p].Probing? && s.place.Absent?)
      || (s.procs[p].Probing? && !mac && s.place.Sock? && LifeOf(s, s.place.stamp).Listening?)
      || (s.procs[p].Rechecking? && s.place != Sock(s.procs[p].x))
    ensures
      var s' := Act(mac, s, Step(p, choice)).value;
      p in s'.procs && s'.procs[p].Failing? && s'.place == s.place && s'.record == s.record && s'.lock == s.lock
  {
  }

  // ----- A claim that nothing disturbs -----

  /** What happens next to a process when no call fails and nobody else does anything; a live listener
      accepts the probe, and `y` is the identity a new socket gets. */
  function NextChoice(s: State, p: Pid, y: Stamp): Choice
    requires p in s.procs
  {
    match s.procs[p]
    case Probing(_) => if s.place.Sock? && LifeOf(s, s.place.stamp).Listening? then Go else Refuse
    case Binding => if s.place.Absent? then Fresh(y) else Go
    case _ => Go
  }

  /** The process runs until it has nothing more to do. */
  function Alone(mac: bool, s: State, p: Pid, y: Stamp, steps: nat): State
    requires p in s.procs
    decreases steps
  {
    var next := ProcStep(mac, s, p, NextChoice(s, p, y));
    if steps == 0 || next.None? || p !in next.value.procs then s else Alone(mac, next.value, p, y, steps - 1)
  }

  /** The socket at the path does not listen, and on macOS the record vouches for it. */
  predicate Reclaimable(mac: bool, s: State) {
    s.place.Sock? && !LifeOf(s, s.place.stamp).Listening? && (mac ==> Matches(s.record, Identity(s.place.stamp)))
  }

  /** The process owns the path, with a socket that listens and that the record names. */
  predicate Owns(s: State, p: Pid, y: Stamp) {
    && p in s.procs && s.procs[p] == Owner(y) && s.place == Sock(y) && s.lock == Some(p)
    && s.record == Identity(y) && y in s.sockets && s.sockets[y] == Bind(p, true, Listening)
  }

  lemma AloneStep(mac: bool, s: State, t: State, p: Pid, y: Stamp, steps: nat)
    requires p in s.procs && p in t.procs && steps > 0
    requires ProcStep(mac, s, p, NextChoice(s, p, y)) == Some(t)
    ensures Alone(mac, s, p, y, steps) == Alone(mac, t, p, y, steps - 1)
  {
  }

  /** A claim at `proc` that is about to fail. */
  lemma FailAlone(mac: bool, s: State, p: Pid, y: Stamp, steps: nat)
    requires p in s.procs && s.lock == Some(p) && steps >= 2
    requires ProcStep(mac, s, p, NextChoice(s, p, y)) == Some(GiveUp(s, p))
    ensures
      var e := Alone(mac, s, p, y, steps);
      p in e.procs && e.procs[p] == Dead && e.place == s.place && e.record == s.record && e.lock == None
  {
    var s1 := GiveUp(s, p);
    var s2 := Set(s1, p, Dead).(lock := None);
    AloneStep(mac, s, s1, p, y, steps);
    AloneStep(mac, s1, s2, p, y, steps - 1);
  }

  /** The second half of a claim: bind, listen, look, record. */
  lemma BindAlone(mac: bool, s: State, p: Pid, y: Stamp, steps: nat)
    requires p in s.procs && s.procs[p].Binding? && s.place.Absent?
    requires s.lock == Some(p) && y !in s.sockets && steps >= 6
    ensures Owns(Alone(mac, s, p, y, steps), p, y)
  {
    var s1 := BindSocket(s, p, y, true, Starting(y));
    AloneStep(mac, s, s1, p, y, steps);
    ListenAlone(mac, s1, p, y, steps - 1);
  }

  lemma ListenAlone(mac: bool, s: State, p: Pid, y: Stamp, steps: nat)
    requires p in s.procs && s.procs[p] == Starting(y) && s.place == Sock(y) && s.lock == Some(p) && steps >= 5
    requires y in s.sockets && s.sockets[y] == Bind(p, true, Bound)
    ensures Owns(Alone(mac, s, p, y, steps), p, y)
  {
    var s1 := Set(s, p, Checking(y)).(sockets := s.sockets[y := Bind(p, true, Listening)]);
    AloneStep(mac, s, s1, p, y, steps);
    RecordAlone(mac, s1, p, y, steps - 1);
  }

  lemma RecordAlone(mac: bool, s: State, p: Pid, y: Stamp, steps: nat)
    requires p in s.procs && s.procs[p] == Checking(y) && s.place == Sock(y) && s.lock == Some(p) && steps >= 4
    requires y in s.sockets && s.sockets[y] == Bind(p, true, Listening)
    ensures
      var e := Alone(mac, s, p, y, steps);
      && p in e.procs && e.procs[p] == Owner(y) && e.place == Sock(y) && e.lock == Some(p)
      && e.record == Identity(y) && e.sockets == s.sockets
  {
    var s1 := Set(s, p, Truncating(y, y));
    var s2 := Set(s1, p, Writing(y, y)).(record := []);
    AloneStep(mac, s, s1, p, y, steps);
    AloneStep(mac, s1, s2, p, y, steps - 1);
    WriteAlone(mac, s2, p, y, steps - 2);
  }

  lemma WriteAlone(mac: bool, s: State, p: Pid, y: Stamp, steps: nat)
    requires p in s.procs && s.procs[p] == Writing(y, y) && steps >= 2
    ensures
      var e := Alone(mac, s, p, y, steps);
      && p in e.procs && e.procs[p] == Owner(y) && e.place == s.place && e.lock == s.lock
      && e.record == Identity(y) && e.sockets == s.sockets
  {
    var s1 := Set(s, p, Syncing(y)).(record := Identity(y));
    var s2 := Set(s1, p, Owner(y));
    AloneStep(mac, s, s1, p, y, steps);
    AloneStep(mac, s1, s2, p, y, steps - 1);
    assert ProcStep(mac, s2, p, NextChoice(s2, p, y)).None?;
  }

  /** The first half on a socket that has been found: probe, compare, look again, remove. */
  lemma ProbeAlone(mac: bool, s: State, p: Pid, x: Stamp, y: Stamp, steps: nat)
    requires p in s.procs && s.procs[p] == Probing(x) && s.place == Sock(x) && x in s.sockets
    requires s.lock == Some(p) && y !in s.sockets && steps >= 10
    ensures
      var e := Alone(mac, s, p, y, steps);
      if Reclaimable(mac, s) then Owns(e, p, y)
      else
        p in e.procs && e.procs[p] == Dead && e.place == s.place && e.record == s.record && e.lock == None
  {
    var seen := LifeOf(s, x);
    if seen.Listening? {
      FailAlone(mac, s, p, y, steps);
    } else if mac {
      var s1 := Set(s, p, Comparing(x, seen));
      AloneStep(mac, s, s1, p, y, steps);
      if Matches(s.record, Identity(x)) {
        var s2 := Set(s1, p, Rechecking(x, seen));
        AloneStep(mac, s1, s2, p, y, steps - 1);
        UnlinkAlone(mac, s2, p, x, seen, y, steps - 2);
      } else {
        FailAlone(mac, s1, p, y, steps - 1);
      }
    } else {
      var s1 := Set(s, p, Rechecking(x, seen));
      AloneStep(mac, s, s1, p, y, steps);
      UnlinkAlone(mac, s1, p, x, seen, y, steps - 1);
    }
  }

  lemma UnlinkAlone(mac: bool, s: State, p: Pid, x: Stamp, seen: Life, y: Stamp, steps: nat)
    requires p in s.procs && s.procs[p] == Rechecking(x, seen) && s.place == Sock(x)
    requires s.lock == Some(p) && y !in s.sockets && steps >= 8
    ensures Owns(Alone(mac, s, p, y, steps), p, y)
  {
    var s1 := Set(s, p, Unlinking(x, seen));
    assert Alone(mac, s, p, y, steps) == Alone(mac, s1, p, y, steps - 1) by {
      RecheckStep(mac, s, p, y);
      AloneStep(mac, s, s1, p, y, steps);
    }
    RemoveAlone(mac, s1, p, x, seen, y, steps - 1);
  }

  lemma RecheckStep(mac: bool, s: State, p: Pid, y: Stamp)
    requires p in s.procs && s.procs[p].Rechecking? && s.place == Sock(s.procs[p].x)
    ensures ProcStep(mac, s, p, NextChoice(s, p, y)) == Some(Set(s, p, Unlinking(s.procs[p].x, s.procs[p].seen)))
  {
  }

  lemma RemoveAlone(mac: bool, s: State, p: Pid, x: Stamp, seen: Life, y: Stamp, steps: nat)
    requires p in s.procs && s.procs[p] == Unlinking(x, seen)
    requires s.lock == Some(p) && y !in s.sockets && steps >= 7
    ensures Owns(Alone(mac, s, p, y, steps), p, y)
  {
    var s1 := Set(s, p, Binding).(place := Absent);
    assert Alone(mac, s, p, y, steps) == Alone(mac, s1, p, y, steps - 1) by {
      AloneStep(mac, s, s1, p, y, steps);
    }
    BindAlone(mac, s1, p, y, steps - 1);
  }

  /** An undisturbed claim becomes the owner of a fresh, recorded, listening socket exactly if nobody holds
      the lock and the path is free or holds a stale socket which, on macOS, the record names. Otherwise it
      fails, and leaves the path, the record and the lock as they were. */
  lemma ClaimSucceedsExactly(mac: bool, s: State, p: Pid, y: Stamp, steps: nat)
    requires Inv(mac, s) && p in s.procs && s.procs[p].Opening? && y !in s.sockets && steps >= 12
    ensures
      var e := Alone(mac, s, p, y, steps);
      if s.lock.None? && (s.place.Absent? || Reclaimable(mac, s)) then
        Owns(e, p, y)
      else
        p in e.procs && e.procs[p] == Dead && e.place == s.place && e.record == s.record && e.lock == s.lock
  {
    if s.lock.None? {
      var s1 := Set(s, p, Locked).(lock := Some(p));
      AloneStep(mac, s, s1, p, y, steps);
      match s.place {
        case Absent =>
          var s2 := Set(s1, p, Binding);
          AloneStep(mac, s1, s2, p, y, steps - 1);
          BindAlone(mac, s2, p, y, steps - 2);
        case Foreign =>
          FailAlone(mac, s1, p, y, steps - 1);
        case Sock(x) =>
          var s2 := Set(s1, p, Probing(x));
          AloneStep(mac, s1, s2, p, y, steps - 1);
          ProbeAlone(mac, s2, p, x, y, steps - 2);
      }
    } else {
      var s1 := Set(s, p, Dead);
      AloneStep(mac, s, s1, p, y, steps);
    }
  }

  /** An owner that exits leaves a closed socket which the record vouches for. */
  lemma OwnerGone(mac: bool, s: State, p: Pid)
    requires Reachable(mac, s) && p in s.procs && s.procs[p].Owner? && s.place == Sock(s.procs[p].y)
    ensures
      var left := Act(mac, s, Exit(p)).value;
      Inv(mac, left) && left.lock.None? && Reclaimable(mac, left) && left.sockets.Keys == s.sockets.Keys
  {
    var left := Act(mac, s, Exit(p)).value;
    assert Inv(mac, left) by {
      ReachableInv(mac, s);
      ExitKeeps(mac, s, p);
    }
    OneOwner(mac, s, p, p);
    OwnerRecorded(mac, s, p);
    assert Act(mac, s, Exit(p)).value.sockets == CloseAll(s.sockets, p);
  }

  lemma OwnerRecorded(mac: bool, s: State, p: Pid)
    requires Reachable(mac, s) && p in s.procs && s.procs[p].Owner?
    ensures s.record == Identity(s.procs[p].y) && Matches(s.record, Identity(s.procs[p].y))
  {
    ReachableInv(mac, s);
    assert ProcOk(mac, s, p);
  }

  /** After an owner has exited with the path untouched, the next claim succeeds, on both platforms. */
  lemma NextClaimSucceeds(mac: bool, s: State, p: Pid, q: Pid, y: Stamp, steps: nat)
    requires Reachable(mac, s) && p in s.procs && s.procs[p].Owner?
    requires s.place == Sock(s.procs[p].y)
    requires q !in s.procs && y !in s.sockets && steps >= 12
    ensures
      var left := Act(mac, s, Exit(p)).value;
      var e := Alone(mac, Set(left, q, Opening), q, y, steps);
      Owns(e, q, y)
  {
    var left := Act(mac, s, Exit(p)).value;
    OwnerGone(mac, s, p);
    MoveKeeps(mac, left, q, Opening);
    assert y !in left.sockets;
    ClaimSucceedsExactly(mac, Set(left, q, Opening), q, y, steps);
  }

  // ----- Bound is not yet listening -----

  lemma {:induction false} RunAppend(mac: bool, s: State, actions: seq<Action>, a: Action)
    requires Run(mac, s, actions).Some?
    ensures Run(mac, s, actions + [a]) == Act(mac, Run(mac, s, actions).value, a)
    decreases |actions|
  {
    if actions == [] {
      assert ([] + [a])[1..] == [];
      var next := Act(mac, s, a);
      assert next.Some? ==> Run(mac, next.value, []) == next;
    } else {
      assert (actions + [a])[0] == actions[0] && (actions + [a])[1..] == actions[1..] + [a];
      RunAppend(mac, Act(mac, s, actions[0]).value, actions[1..], a);
    }
  }

  lemma Then(mac: bool, s: State, a: Action) returns (s': State)
    requires Reachable(mac, s) && Act(mac, s, a).Some?
    ensures s' == Act(mac, s, a).value && Reachable(mac, s')
  {
    s' := Act(mac, s, a).value;
    var place: Place, actions: seq<Action> :| !place.Sock? && Run(mac, Init(place), actions) == Some(s);
    RunAppend(mac, Init(place), actions, a);
  }

  /** What a run changes of a socket `x`: it may leave the path, for good. */
  ghost predicate SocketAfter(s: State, s': State, x: Stamp) {
    x in s.sockets ==>
      && x in s'.sockets && s'.sockets[x].locking == s.sockets[x].locking
      && (s'.place == Sock(x) ==> s.place == Sock(x))
  }

  /** And of a process past its probe: it never looks for another socket. */
  ghost predicate ProcAfter(s: State, s': State, p: Pid) {
    p in s.procs && PastProbe(s.procs[p]) ==> p in s'.procs && Onward(s.procs[p], s'.procs[p])
  }

  /** On Linux. */
  predicate PastProbe(proc: Proc) {
    !Outside(proc) && (!Claiming(proc) || Removing(proc))
  }

  predicate Removing(proc: Proc) {
    proc.Rechecking? || proc.Unlinking?
  }

  predicate Onward(proc: Proc, proc': Proc) {
    PastProbe(proc') && (Removing(proc') ==> Removing(proc) && proc'.x == proc.x && proc'.seen == proc.seen)
  }

  ghost predicate After(s: State, s': State, p: Pid, x: Stamp) {
    SocketAfter(s, s', x) && ProcAfter(s, s', p)
  }

  lemma ActAfter(s: State, a: Action, p: Pid, x: Stamp)
    requires Act(false, s, a).Some?
    ensures After(s, Act(false, s, a).value, p, x)
  {
    var s' := Act(false, s, a).value;
    match a
    case Step(q, choice) =>
      if Claiming(s.procs[q]) { ClaimAfter(s, q, choice, p, x); }
      else if Outside(s.procs[q]) {}
      else { BindAfter(s, q, choice, p, x); }
    case _ =>
  }

  lemma ClaimAfter(s: State, q: Pid, choice: Choice, p: Pid, x: Stamp)
    requires q in s.procs && Claiming(s.procs[q]) && ClaimStep(false, s, q, choice).Some?
    ensures After(s, ClaimStep(false, s, q, choice).value, p, x)
  {
    match s.procs[q]
    case Unlinking(_, _) =>
    case _ =>
  }

  lemma BindAfter(s: State, q: Pid, choice: Choice, p: Pid, x: Stamp)
    requires q in s.procs && !Claiming(s.procs[q]) && !Outside(s.procs[q]) && BindStep(s, q, choice).Some?
    ensures After(s, BindStep(s, q, choice).value, p, x)
  {
  }

  lemma AfterThen(s: State, s': State, s'': State, p: Pid, x: Stamp)
    requires After(s, s', p, x) && After(s', s'', p, x)
    ensures After(s, s'', p, x)
  {
  }

  lemma {:induction false} RunAfter(s: State, actions: seq<Action>, p: Pid, x: Stamp)
    requires Run(false, s, actions).Some?
    ensures After(s, Run(false, s, actions).value, p, x)
    decreases |actions|
  {
    if actions != [] {
      var s' := Act(false, s, actions[0]).value;
      ActAfter(s, actions[0], p, x);
      RunAfter(s', actions[1..], p, x);
      AfterThen(s, s', Run(false, s', actions[1..]).value, p, x);
    }
  }

  /** Process `p`, run on like this, is about to remove a socket that listens. */
  ghost predicate RemovesLive(s: State, p: Pid, actions: seq<Action>) {
    var end := Run(false, s, actions);
    && end.Some? && p in end.value.procs && end.value.procs[p].Unlinking?
    && LifeOf(end.value, end.value.procs[p].x).Listening?
  }

  /** On Linux, a claim that has been refused by the socket it found can go on to remove a socket that listens
      by then if and only if that socket was still at the path, bound, and not listened on yet. Its maker is then a
      daemon without the lock, and it takes no more than that daemon's next call and one of the claim's. */
  lemma GapExactly(s: State, p: Pid, x: Stamp)
    requires Reachable(false, s) && p in s.procs && s.procs[p] == Probing(x) && CanRefuse(false, s)
    ensures
      var refused := Act(false, s, Step(p, Refuse));
      var gap := s.place == Sock(x) && LifeOf(s, x).Bound?;
      && refused.Some?
      && (gap <==> exists actions :: RemovesLive(refused.value, p, actions))
      && (gap ==>
            && x in s.sockets && s.sockets[x].maker in s.procs && s.procs[s.sockets[x].maker] == OutsiderStarting(x)
            && RemovesLive(refused.value, p, [Step(p, Go), Step(s.sockets[x].maker, Go)]))
  {
    ReachableInv(false, s);
    assert ProcOk(false, s, p);
    var refused := Act(false, s, Step(p, Refuse)).value;
    if s.place == Sock(x) && LifeOf(s, x).Bound? {
      GapMaker(s, p, x);
      GapOpen(s, p, x);
    }
    if actions :| RemovesLive(refused, p, actions) {
      GapNeeded(s, p, x, actions);
    }
  }

  lemma GapOpen(s: State, p: Pid, x: Stamp)
    requires p in s.procs && s.procs[p] == Probing(x) && s.place == Sock(x)
    requires x in s.sockets && s.sockets[x].life.Bound?
    requires s.sockets[x].maker in s.procs && s.procs[s.sockets[x].maker] == OutsiderStarting(x)
    ensures RemovesLive(Act(false, s, Step(p, Refuse)).value, p, [Step(p, Go), Step(s.sockets[x].maker, Go)])
  {
    var q := s.sockets[x].maker;
    var s1 := Set(s, p, Rechecking(x, Bound));
    var s2 := Set(s1, p, Unlinking(x, Bound));
    var s3 := Set(s2, q, OutsiderUp(x)).(sockets := s.sockets[x := s.sockets[x].(life := Listening)]);
    assert Act(false, s, Step(p, Refuse)) == Some(s1);
    assert Act(false, s1, Step(p, Go)) == Some(s2);
    assert Act(false, s2, Step(q, Go)) == Some(s3);
    TwoActions(s1, s2, s3, Step(p, Go), Step(q, Go));
  }

  /** A claim that holds the lock has no rival that takes it. */
  lemma GapMaker(s: State, p: Pid, x: Stamp)
    requires LockInv(s.lock, s.procs) && p in s.procs && s.procs[p] == Probing(x)
    requires x in s.sockets && s.sockets[x].life.Bound? && SocketOk(s.sockets, s.procs, x)
    ensures s.sockets[x].maker in s.procs && s.procs[s.sockets[x].maker] == OutsiderStarting(x)
  {
    assert Holding(s.procs[p]) && s.lock == Some(p);
  }

  lemma TwoActions(s: State, s1: State, s2: State, a: Action, b: Action)
    requires Act(false, s, a) == Some(s1) && Act(false, s1, b) == Some(s2)
    ensures Run(false, s, [a, b]) == Some(s2)
  {
    assert [a, b][1..] == [b] && [b][1..] == [];
    assert Run(false, s2, []) == Some(s2);
    assert Run(false, s1, [b]) == Some(s2);
  }

  lemma GapNeeded(s: State, p: Pid, x: Stamp, actions: seq<Action>)
    requires Reachable(false, s) && p in s.procs && s.procs[p] == Probing(x) && x in s.sockets && CanRefuse(false, s)
    requires RemovesLive(Act(false, s, Step(p, Refuse)).value, p, actions)
    ensures s.place == Sock(x) && LifeOf(s, x).Bound?
  {
    var s1 := Then(false, s, Step(p, Refuse));
    var end := Run(false, s1, actions).value;
    assert s1 == Set(s, p, Rechecking(x, LifeOf(s, x)));
    RunReaches(s1, actions);
    UnlinkIsSafe(false, end, p);
    RunAfter(s1, actions, p, x);
    assert Onward(s1.procs[p], end.procs[p]);
  }

  lemma {:induction false} RunReaches(s: State, actions: seq<Action>)
    requires Reachable(false, s) && Run(false, s, actions).Some?
    ensures Reachable(false, Run(false, s, actions).value)
    decreases |actions|
  {
    if actions != [] {
      var s' := Then(false, s, actions[0]);
      RunReaches(s', actions[1..]);
    }
  }

  /** Such a state is reached: a claim finds what a daemon without the lock has just bound; and so it can come to
      be about to remove a socket that listens. */
  lemma GapWitness(y: Stamp) returns (s: State, end: State)
    ensures Reachable(false, s) && s.procs == map[0 := Probing(y), 1 := OutsiderStarting(y)]
    ensures s.place == Sock(y) && LifeOf(s, y).Bound?
    ensures Reachable(false, end) && 0 in end.procs && end.procs[0].Unlinking? && end.place == Sock(end.procs[0].x)
    ensures LifeOf(end, end.procs[0].x).Listening?
  {
    s := GapStart(y);
    s := GapClaim(y, s);
    GapOpen(s, 0, y);
    var s1 := Then(false, s, Step(0, Refuse));
    var actions := [Step(0, Go), Step(1, Go)];
    RunReaches(s1, actions);
    end := Run(false, s1, actions).value;
    UnlinkIsSafe(false, end, 0);
  }

  lemma GapStart(y: Stamp) returns (s: State)
    ensures Reachable(false, s) && s.procs == map[0 := Opening, 1 := OutsiderStarting(y)] && s.lock.None?
    ensures s.place == Sock(y) && s.sockets == map[y := Bind(1, false, Bound)]
  {
    s := Init(Absent);
    assert Run(false, s, []) == Some(s) && !Absent.Sock?;
    s := Then(false, s, SpawnOutsider(1));
    s := Then(false, s, Step(1, Fresh(y)));
    s := Then(false, s, Spawn(0));
    assert s.procs == map[0 := Opening, 1 := OutsiderStarting(y)];
  }

  lemma GapClaim(y: Stamp, s: State) returns (s': State)
    requires Reachable(false, s) && s.procs == map[0 := Opening, 1 := OutsiderStarting(y)] && s.lock.None?
    requires s.place == Sock(y) && s.sockets == map[y := Bind(1, false, Bound)]
    ensures Reachable(false, s') && s' == s.(procs := map[0 := Probing(y), 1 := OutsiderStarting(y)], lock := Some(0))
  {
    s' := GapLocked(s);
    s' := GapFound(y, s');
    assert s'.procs == map[0 := Probing(y), 1 := OutsiderStarting(y)];
  }

  lemma GapLocked(s: State) returns (s': State)
    requires Reachable(false, s) && 0 in s.procs && s.procs[0] == Opening && s.lock.None?
    ensures Reachable(false, s') && s' == s.(procs := s.procs[0 := Locked], lock := Some(0))
  {
    s' := Then(false, s, Step(0, Go));
  }

  lemma GapFound(y: Stamp, s: State) returns (s': State)
    requires Reachable(false, s) && 0 in s.procs && s.procs[0] == Locked && s.place == Sock(y)
    ensures Reachable(false, s') && s' == Set(s, 0, Probing(y))
  {
    s' := Then(false, s, Step(0, Go));
  }
}
