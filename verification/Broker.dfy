/**
The two-process model after login: the child asks (`vsf_two_process_*` in `twoprocess.c`) and
the privileged parent performs the operation and answers (`postprivparent.c`). The protocol
is an instance of `Lockstep`, so every call of the child returns what the privileged
operation done in one process would have returned.
*/
module Broker {
  import opened Lockstep
  import opened PrivSock
  import opened Privops
  import opened Process

  const CMD_CHOWN := Data(2)
  const CMD_GET_DATA_SOCK := Data(3)
  const CMD_PASV_CLEANUP := Data(10)
  const CMD_PASV_ACTIVE := Data(11)
  const CMD_PASV_LISTEN := Data(12)
  const CMD_PASV_ACCEPT := Data(13)
  const RESULT_OK := Data(1)
  const RESULT_BAD := Data(2)

  // ----- the child's side

  /** What the child writes. It names only the port of a data connection. */
  function Request(op: Op): seq<Cell> {
    match op
    case GetDataSock(to) => [CMD_GET_DATA_SOCK] + IntCells(to.port)
    case PasvCleanup => [CMD_PASV_CLEANUP]
    case PasvActive => [CMD_PASV_ACTIVE]
    case PasvListen => [CMD_PASV_LISTEN]
    case PasvAccept => [CMD_PASV_ACCEPT]
    case Chown(fd) => [CMD_CHOWN, Rights(fd)]
  }

  function ClientWants(op: Op, got: seq<Cell>): Want {
    match op
    case PasvActive => if |got| < 4 then WantByte else Ready
    case PasvListen => if |got| < 4 then WantByte else Ready
    case _ =>
      if |got| == 0 then WantByte
      else if got[0] == RESULT_BAD && op.GetDataSock? then Ready
      else if got[0] == RESULT_BAD && op.PasvAccept? then (if |got| < 5 then WantByte else Ready)
      else if got[0] != RESULT_OK then Reject
      else if op.PasvCleanup? || op.Chown? then Ready
      else if |got| == 1 then WantRights
      else Ready
  }

  /** What the call returns to the child's caller. */
  function ResultOf(op: Op, got: seq<Cell>): Result {
    match op
    case PasvActive => Active(IntOf(got) != 0)
    case PasvListen => Opened(Unsigned(IntOf(got)) % 0x1_0000)
    case PasvCleanup => Done
    case Chown(_) => Done
    case _ =>
      if |got| >= 2 && got[1].Rights? then Sock(got[1].fd)
      else if op.PasvAccept? && |got| == 5 then Sock(IntOf(got[1..]))
      else Sock(-1)
  }

  // ----- the parent's side

  function ServerWants(cfg: Config, got: seq<Cell>): Want {
    if |got| == 0 then WantByte
    else if cfg.chownUploads && got[0] == CMD_CHOWN then (if |got| == 1 then WantRights else Ready)
    else if got[0] == CMD_GET_DATA_SOCK then (if |got| < 5 then WantByte else Ready)
    else if got[0] in {CMD_PASV_CLEANUP, CMD_PASV_ACTIVE, CMD_PASV_LISTEN, CMD_PASV_ACCEPT} then Ready
    else Reject
  }

  /** The request as the parent understands it: a data connection goes to the address of the
      control connection, whatever address the child has in mind. */
  function Parse(cfg: Config, got: seq<Cell>): Op {
    if |got| == 2 && got[0] == CMD_CHOWN && got[1].Rights? then Chown(got[1].fd)
    else if |got| == 5 && got[0] == CMD_GET_DATA_SOCK then
      GetDataSock(Endpoint(cfg.remote, Unsigned(IntOf(got[1..])) % 0x1_0000))
    else if got == [CMD_PASV_CLEANUP] then PasvCleanup
    else if got == [CMD_PASV_LISTEN] then PasvListen
    else if got == [CMD_PASV_ACCEPT] then PasvAccept
    else PasvActive
  }

  /** The operation, after which the parent closes its copy of a socket it has passed on. */
  function Serve(cfg: Config, st: State, op: Op, a: Answer): Outcome<State, Result> {
    var o := Perform(cfg, st, op, a);
    if o.Served? && o.result.Sock? && o.result.fd >= 0
    then o.(state := o.state.(sockets := o.state.sockets - {o.result.fd}))
    else o
  }

  function Reply(op: Op, r: Result): seq<Cell> {
    match r
    case Sock(fd) =>
      if fd >= 0 then [RESULT_OK, Rights(fd)]
      else if op.PasvAccept? then [RESULT_BAD] + IntCells(fd)
      else [RESULT_BAD]
    case Active(flag) => IntCells(if flag then 1 else 0)
    case Opened(port) => IntCells(port)
    case Done => [RESULT_OK]
  }

  // ----- what the child knows

  /** An honest child, which knows whether the parent is listening: it asks for a data
      connection only to the peer of the control connection and only in active mode, listens
      once at a time, accepts only when listening, and passes uploads on only when the
      configuration says so. */
  predicate Permitted(cfg: Config, listening: bool, op: Op) {
    match op
    case GetDataSock(to) => !listening && to.ip == cfg.remote
    case PasvListen => !listening
    case PasvAccept => listening
    case Chown(fd) => cfg.chownUploads && fd >= 0
    case _ => true
  }

  function Advance(listening: bool, op: Op): bool {
    if op.PasvListen? then true else if op.PasvCleanup? then false else listening
  }

  /** The parent holds no open socket but the one it listens on. */
  predicate Agrees(listening: bool, st: State) {
    && listening == (st.listenFd != -1)
    && WellFormed(st)
    && st.sockets.Keys == if listening then {st.listenFd} else {}
  }

  /** A run of child and parent, and the pair of them with their channel. */
  type Run = seq<Step<Op, Answer>>
  type Pair = System<Op, State, Answer, Result, bool>

  function Protocol(cfg: Config): Protocol<Op, State, Answer, Result, bool> {
    Lockstep.Protocol(
      op => Request(op),
      got => ServerWants(cfg, got),
      got => Parse(cfg, got),
      (st, op, a) => Serve(cfg, st, op, a),
      (op, r) => Reply(op, r),
      op => (got => ClientWants(op, got)),
      (op, got) => ResultOf(op, got),
      (listening, op) => Permitted(cfg, listening, op),
      (listening, op, r) => Advance(listening, op),
      (listening, st) => Agrees(listening, st),
      (st, op, a) => Possible(cfg, st, op, a))
  }

  lemma PortRequestUnderstood(cfg: Config, to: Endpoint)
    requires to.ip == cfg.remote
    ensures Parse(cfg, Request(GetDataSock(to))) == GetDataSock(to)
  {
    hide IntCells, IntOf;
    IntRoundTrip(to.port);
    assert ([CMD_GET_DATA_SOCK] + IntCells(to.port))[1..] == IntCells(to.port);
  }

  lemma RequestUnderstood(cfg: Config, listening: bool, op: Op)
    requires Permitted(cfg, listening, op)
    ensures WellAsked(Protocol(cfg), op)
  {
    if op.GetDataSock? {
      PortRequestUnderstood(cfg, op.to);
      hide Parse, IntCells, IntOf;
    }
  }

  /** The result that goes with an operation. */
  predicate Suits(op: Op, r: Result) {
    match op
    case PasvActive => r.Active?
    case PasvListen => r.Opened?
    case GetDataSock(_) => r.Sock? && r.fd >= -1
    case PasvAccept => r.Sock?
    case _ => r.Done?
  }

  lemma ReplyUnderstood(op: Op, r: Result)
    requires Suits(op, r)
    ensures Reply(op, r) != [] && ResultOf(op, Reply(op, r)) == r
  {
    hide IntCells, IntOf;
    match r
    case Active(flag) => IntRoundTrip(if flag then 1 else 0);
    case Opened(port) => IntRoundTrip(port);
    case Sock(fd) =>
      IntRoundTrip(fd);
      assert ([RESULT_BAD] + IntCells(fd))[1..] == IntCells(fd);
    case Done =>
  }

  lemma ReplyFramed(op: Op, r: Result)
    requires Suits(op, r)
    ensures Framed(got => ClientWants(op, got), Reply(op, r))
  {
    hide IntCells, IntOf;
  }

  lemma RequestServed(cfg: Config, listening: bool, st: State, op: Op, a: Answer)
    requires Permitted(cfg, listening, op) && Agrees(listening, st) && Possible(cfg, st, op, a)
    ensures WellServed(Protocol(cfg), listening, op, Serve(cfg, st, op, a))
  {
    var o := Serve(cfg, st, op, a);
    if o.Served? {
      ReplyUnderstood(op, o.result);
      ReplyFramed(op, o.result);
      hide Reply, ResultOf, ClientWants, IntCells;
      assert Framed(Protocol(cfg).clientWants(op), Reply(op, o.result));
      assert Agrees(Advance(listening, op), o.state);
    }
  }

  /** Parent and child match, so all of `Lockstep` holds for them. */
  lemma BrokerMatches(cfg: Config)
    ensures WellMatched(Protocol(cfg))
  {
    forall listening: bool, op: Op | Protocol(cfg).permitted(listening, op) ensures WellAsked(Protocol(cfg), op) {
      RequestUnderstood(cfg, listening, op);
    }
    forall listening: bool, st: State, op: Op, a: Answer
      | Permitted(cfg, listening, op) && Agrees(listening, st) && Possible(cfg, st, op, a)
      ensures WellServed(Protocol(cfg), listening, op, Serve(cfg, st, op, a))
    {
      RequestServed(cfg, listening, st, op, a);
    }
  }

  // ----- one process and two

  /** The calls of `log`, made in one process that starts in `st`, return the same. */
  ghost predicate InOneProcess(cfg: Config, st: State, log: seq<Call<Op, Answer, Result>>)
    decreases |log|
  {
    if log == [] then true
    else
      var o := Perform(cfg, st, log[0].op, log[0].answer);
      o.Served? && o.result == log[0].result && InOneProcess(cfg, o.state, log[1..])
  }

  /** The parent's copies of passed sockets are gone, but no operation looks at them. */
  lemma {:induction false} DirectIsInOneProcess(
      cfg: Config, st: State, log: seq<Call<Op, Answer, Result>>, end: State, one: State)
    requires Direct(Protocol(cfg), st, log, end) && one.listenFd == st.listenFd
    ensures InOneProcess(cfg, one, log)
    decreases |log|
  {
    if log != [] {
      var op, a := log[0].op, log[0].answer;
      DirectIsInOneProcess(cfg, Serve(cfg, st, op, a).state, log[1..], end, Perform(cfg, one, op, a).state);
    }
  }

  /** Every call said what it should about its answer, so that none handed over a stranger's
      connection. */
  ghost predicate AllRightful(cfg: Config, log: seq<Call<Op, Answer, Result>>) {
    forall i :: 0 <= i < |log| ==> Rightful(cfg, log[i].op, log[i].answer, log[i].result)
  }

  lemma {:induction false} DirectIsRightful(
      cfg: Config, st: State, log: seq<Call<Op, Answer, Result>>, end: State)
    requires Direct(Protocol(cfg), st, log, end)
    ensures AllRightful(cfg, log)
    decreases |log|
  {
    if log != [] {
      var op, a := log[0].op, log[0].answer;
      CallsAreRightful(cfg, st, op, a);
      DirectIsRightful(cfg, Serve(cfg, st, op, a).state, log[1..], end);
      hide Rightful;
      assert forall i :: 1 <= i < |log| ==> log[i] == log[1..][i - 1];
    }
  }

  /** Every run of an honest child and its parent: no message is misread, no "listed fd" check
      fires, the calls made so far returned what they return in one process that gets the same
      answers from the operating system, and no connection but the client's was handed over. Between
      two calls the channel is empty and the parent holds no socket but the one it listens on. If the
      parent is dead, the operation fails in one process too. */
  lemma TwoProcessesAsOne(cfg: Config, s0: Pair, run: Run, s: Pair, one: State)
    requires Initial(Protocol(cfg), s0) && Reaches(Protocol(cfg), s0, run, s) && one.listenFd == s0.st.listenFd
    ensures !s.client.Confused? && !s.server.Puzzled? && !s.server.Trap?
    ensures InOneProcess(cfg, one, s.log) && AllRightful(cfg, s.log)
    ensures s.client.Idle? ==> s.up == [] && s.down == [] && s.server == Reading([]) && Agrees(s.cl, s.st)
    ensures s.server.Dead? ==>
      (s.client.Awaiting? || s.client.Gone?) && Perform(cfg, s.st, s.client.op, s.answer) == Died
  {
    BrokerMatches(cfg);
    LockStep(Protocol(cfg), s0, run, s);
    var st :| Direct(Protocol(cfg), s0.st, s.log, st);
    DirectIsInOneProcess(cfg, s0.st, s.log, st, one);
    DirectIsRightful(cfg, s0.st, s.log, st);
  }

  /** No call of the child blocks for ever: some step is possible until it returns, and
      `Lockstep.CallsEnd` bounds their number. */
  lemma CallsReturn(cfg: Config, s0: Pair, run: Run, s: Pair) returns (step: Step<Op, Answer>)
    requires Initial(Protocol(cfg), s0) && Reaches(Protocol(cfg), s0, run, s) && !s.client.Idle? && !s.client.Gone?
    ensures Enabled(Protocol(cfg), s, step) && !step.Begin?
    ensures Less(Remaining(After(Protocol(cfg), s, step)), Remaining(s))
  {
    BrokerMatches(cfg);
    forall st, op ensures Answerable(Protocol(cfg), st, op) {
      var a := match op
        case PasvAccept => NoConnection
        case GetDataSock(_) => Failed
        case PasvListen => Failed
        case Chown(_) => Owner(0, true)
        case _ => Nothing;
      assert Protocol(cfg).possible(st, op, a);
    }
    step := NoDeadlock(Protocol(cfg), s0, run, s);
    CallsEnd(Protocol(cfg), s0, run, s, step);
  }

  // ----- histories

  type History = seq<Call<Op, Answer, Result>>

  const START := State(-1, map[], [])

  /** Child and parent as they start after login. */
  function Launched(): Pair {
    System(Idle, Reading([]), [], [], START, Nothing, false, [])
  }

  /** The calls that an honest child has made so far. */
  ghost predicate Honest(cfg: Config, log: History) {
    Lockstep.Honest(Protocol(cfg), false, START, log)
  }

  /** The parent's state after the calls of `log`. */
  function ParentAfter(cfg: Config, log: History): State {
    Reached(Protocol(cfg), START, log)
  }

  /** The child knows whether the parent is listening. */
  lemma ChildKnows(cfg: Config, log: History)
    requires Honest(cfg, log)
    ensures var st := ParentAfter(cfg, log);
      Known(Protocol(cfg), false, log) == (st.listenFd != -1) && Agrees(st.listenFd != -1, st)
  {
    BrokerMatches(cfg);
    HonestAgrees(Protocol(cfg), false, START, log);
  }

  lemma ServedAsOne(cfg: Config, st: State, one: State, call: Call<Op, Answer, Result>)
    requires Agrees(st.listenFd != -1, st) && one.listenFd == st.listenFd
    requires WellFormed(one) && Permitted(cfg, one.listenFd != -1, call.op) && Possible(cfg, one, call.op, call.answer)
    requires var o := Perform(cfg, one, call.op, call.answer); o.Served? && o.result == call.result
    ensures Next(Protocol(cfg), st.listenFd != -1, st, call)
    ensures Serve(cfg, st, call.op, call.answer).Served?
    ensures Serve(cfg, st, call.op, call.answer).state.listenFd ==
            Perform(cfg, one, call.op, call.answer).state.listenFd
  {
    assert forall fd: Int32 :: Fresh(one, fd) ==> Fresh(st, fd);
  }

  /** What a process that has the listening socket and more does itself, a child can ask for
      with the same result. */
  lemma HonestStep(cfg: Config, log: History, one: State, call: Call<Op, Answer, Result>)
    requires Honest(cfg, log) && one.listenFd == ParentAfter(cfg, log).listenFd
    requires WellFormed(one) && Permitted(cfg, one.listenFd != -1, call.op) && Possible(cfg, one, call.op, call.answer)
    requires var o := Perform(cfg, one, call.op, call.answer); o.Served? && o.result == call.result
    ensures Honest(cfg, log + [call])
    ensures ParentAfter(cfg, log + [call]).listenFd == Perform(cfg, one, call.op, call.answer).state.listenFd
  {
    ChildKnows(cfg, log);
    ServedAsOne(cfg, ParentAfter(cfg, log), one, call);
    hide Next, Serve, Perform, Permitted, Possible, Agrees, WellFormed;
    OneMoreCall(Protocol(cfg), false, START, log, call);
  }

  /** Whatever an honest child can do, it does in some run of the two processes. */
  lemma HistoriesHappen(cfg: Config, log: History) returns (run: Run, s: Pair)
    requires Honest(cfg, log)
    ensures Reaches(Protocol(cfg), Launched(), run, s) && Inv(Protocol(cfg), START, s)
    ensures s.client.Idle? && s.log == log && s.st == ParentAfter(cfg, log)
  {
    BrokerMatches(cfg);
    run, s := Lockstep.HistoriesHappen(Protocol(cfg), Launched(), log);
  }

  /** And between two calls the parent of any run is in the state that the calls lead to. */
  lemma ParentFollows(cfg: Config, run: Run, s: Pair)
    requires Reaches(Protocol(cfg), Launched(), run, s) && s.client.Idle?
    ensures s.st == ParentAfter(cfg, s.log) && s.cl == (s.st.listenFd != -1)
  {
    BrokerMatches(cfg);
    ServerFollows(Protocol(cfg), Launched(), run, s);
    LockStep(Protocol(cfg), Launched(), run, s);
  }
}
