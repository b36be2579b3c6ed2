/**
The helper process that speaks TLS on behalf of a session (`sslslave.c`) and its consumer,
the process that runs the FTP commands (`readwrite.c` and the data connections of
`ftpdataio.c`). Another instance of `Lockstep`.
*/
module SslHelper {
  import opened Common
  import opened Lockstep
  import opened PrivSock
  import opened Process
  import opened Ascii

  const CMD_GET_USER_CMD := Data(4)
  const CMD_WRITE_USER_RESP := Data(5)
  const CMD_DO_SSL_HANDSHAKE := Data(6)
  const CMD_DO_SSL_CLOSE := Data(7)
  const CMD_DO_SSL_READ := Data(8)
  const CMD_DO_SSL_WRITE := Data(9)
  const RESULT_OK := Data(1)
  const RESULT_BAD := Data(2)
  const MAX_COMMAND_LINE := 4096
  const DATA_BUFSIZE := 65536
  const PRIVSOCK_MAXSTR := DATA_BUFSIZE * 2

  /** A string that fits into a message. */
  type Text = s: seq<Byte> | |s| <= PRIVSOCK_MAXSTR

  datatype Op =
    | GetUserCmd
    | WriteUserResp(text: Text)
    | Handshake(fd: Int32)
    | Read(size: Int32)
    | Write(data: Text)
    | Close

  /** A number, with the string that goes with it if any; or success and failure. */
  datatype Result = Number(n: Int32) | Lettered(n: Int32, text: Text) | Verdict(ok: bool)

  /** What the client's end and the TLS library answer: a returned number, a number with the
      bytes read, or success. */
  datatype Answer = Returned(n: Int32) | Got(n: Int32, text: Text) | Succeeded(ok: bool)

  /** The helper's `data_fd`, or -1, and whether it has a TLS object for it. */
  datatype State = State(dataFd: int, hasSsl: bool)

  const CLEAN := State(-1, false)

  predicate Attached(st: State) { st.dataFd != -1 && st.hasSsl }

  /** The helper's handling of a request, and of the state it keeps. */
  function Serve(st: State, op: Op, a: Answer): Outcome<State, Result> {
    match op
    case GetUserCmd =>
      if !a.Got? then Died else if a.n >= 0 then Served(st, Lettered(a.n, a.text)) else Served(st, Number(a.n))
    case WriteUserResp(_) => if !a.Returned? then Died else Served(st, Number(a.n))
    case Handshake(fd) =>
      if st.dataFd != -1 || st.hasSsl then Trapped
      else if !a.Succeeded? then Died
      else if a.ok then Served(State(fd, true), Verdict(true))
      else Served(State(-1, false), Verdict(false))
    case Read(size) =>
      if size <= 0 || size > DATA_BUFSIZE then Trapped
      else if st.dataFd == -1 || !st.hasSsl then Trapped
      else if !a.Got? then Died
      else Served(st, Lettered(a.n, if a.n >= 0 then a.text else []))
    case Write(_) =>
      if st.dataFd == -1 || !st.hasSsl then Trapped
      else if !a.Returned? then Died
      else Served(st, Number(a.n))
    case Close =>
      if st.dataFd == -1 && !st.hasSsl then Served(st, Verdict(true))
      else if st.dataFd == -1 || !st.hasSsl then Trapped
      else if !a.Succeeded? then Died
      else Served(State(-1, false), Verdict(a.ok))
  }

  /** A line is no longer than the reader's buffer; a read gives as many bytes as it says, and
      no more than were asked for. */
  predicate Possible(op: Op, a: Answer) {
    match op
    case GetUserCmd => a.Got? && |a.text| <= MAX_COMMAND_LINE
    case WriteUserResp(_) => a.Returned?
    case Handshake(_) => a.Succeeded?
    case Read(size) => a.Got? && a.n <= size && (a.n >= 0 ==> |a.text| == a.n)
    case Write(_) => a.Returned?
    case Close => a.Succeeded?
  }

  // ----- the wire

  function Request(op: Op): seq<Cell> {
    match op
    case GetUserCmd => [CMD_GET_USER_CMD]
    case WriteUserResp(text) => [CMD_WRITE_USER_RESP] + StrCells(text)
    case Handshake(fd) => [CMD_DO_SSL_HANDSHAKE, Rights(fd)]
    case Read(size) => [CMD_DO_SSL_READ] + IntCells(size)
    case Write(data) => [CMD_DO_SSL_WRITE] + StrCells(data)
    case Close => [CMD_DO_SSL_CLOSE]
  }

  function ServerWants(got: seq<Cell>): Want {
    if |got| == 0 then WantByte
    else if got[0] == CMD_GET_USER_CMD || got[0] == CMD_DO_SSL_CLOSE then Ready
    else if got[0] == CMD_WRITE_USER_RESP || got[0] == CMD_DO_SSL_WRITE then StrWants(got[1..], PRIVSOCK_MAXSTR)
    else if got[0] == CMD_DO_SSL_HANDSHAKE then (if |got| == 1 then WantRights else Ready)
    else if got[0] == CMD_DO_SSL_READ then (if |got| < 5 then WantByte else Ready)
    else Reject
  }

  function Parse(got: seq<Cell>): Op {
    if |got| == 0 then GetUserCmd
    else
      var text := StrOf(got[1..]);
      if got[0] == CMD_WRITE_USER_RESP && |text| <= PRIVSOCK_MAXSTR then WriteUserResp(text)
      else if got[0] == CMD_DO_SSL_WRITE && |text| <= PRIVSOCK_MAXSTR then Write(text)
      else if got[0] == CMD_DO_SSL_HANDSHAKE && |got| == 2 && got[1].Rights? then Handshake(got[1].fd)
      else if got[0] == CMD_DO_SSL_READ then Read(IntOf(got[1..]))
      else if got[0] == CMD_DO_SSL_CLOSE then Close
      else GetUserCmd
  }

  function Reply(r: Result): seq<Cell> {
    match r
    case Number(n) => IntCells(n)
    case Lettered(n, text) => IntCells(n) + StrCells(text)
    case Verdict(ok) => [if ok then RESULT_OK else RESULT_BAD]
  }

  /** The longest string the consumer takes as an answer: the limit of `priv_sock_get_str`,
      or the buffer that it reads data into. */
  function Room(op: Op): nat {
    if op.Read? && op.size >= 0 then op.size else PRIVSOCK_MAXSTR
  }

  function ClientWants(op: Op, got: seq<Cell>): Want {
    match op
    case GetUserCmd =>
      if |got| < 4 then WantByte
      else if IntOf(got[..4]) >= 0 then StrWants(got[4..], Room(op))
      else Ready
    case Read(_) => if |got| < 4 then WantByte else StrWants(got[4..], Room(op))
    case Handshake(_) => if |got| == 0 then WantByte else Ready
    case Close => if |got| == 0 then WantByte else Ready
    case _ => if |got| < 4 then WantByte else Ready
  }

  function ResultOf(op: Op, got: seq<Cell>): Result {
    if op.Handshake? || op.Close? then Verdict(got == [RESULT_OK])
    else if |got| <= 4 then Number(IntOf(got))
    else
      var text := StrOf(got[4..]);
      Lettered(IntOf(got[..4]), if |text| <= PRIVSOCK_MAXSTR then text else [])
  }

  // ----- what the consumer knows

  /** A consumer that knows whether its data connection has a TLS session: it starts one only
      when there is none, reads and writes only when there is one, and asks for no more than
      a buffer. It may close in either case. */
  predicate Permitted(secured: bool, op: Op) {
    match op
    case Handshake(fd) => !secured && fd >= 0
    case Read(size) => secured && 0 < size <= DATA_BUFSIZE
    case Write(_) => secured
    case _ => true
  }

  function Advance(secured: bool, op: Op, r: Result): bool {
    if op.Handshake? then r == Verdict(true) else if op.Close? then false else secured
  }

  predicate Agrees(secured: bool, st: State) {
    if secured then Attached(st) else st == CLEAN
  }

  /** A run of consumer and helper, the pair of them with their channel, and the calls made. */
  type Run = seq<Step<Op, Answer>>
  type Pair = System<Op, State, Answer, Result, bool>
  type History = seq<Call<Op, Answer, Result>>

  function Protocol(): Protocol<Op, State, Answer, Result, bool> {
    Lockstep.Protocol(
      op => Request(op),
      got => ServerWants(got),
      got => Parse(got),
      (st, op, a) => Serve(st, op, a),
      (op, r) => Reply(r),
      op => (got => ClientWants(op, got)),
      (op, got) => ResultOf(op, got),
      (secured, op) => Permitted(secured, op),
      (secured, op, r) => Advance(secured, op, r),
      (secured, st) => Agrees(secured, st),
      (st, op, a) => Possible(op, a))
  }

  // ----- message by message

  /** A string after a head of `h` cells. */
  lemma Tail(head: seq<Cell>, text: Text, max: nat)
    requires |text| <= max
    ensures var m := head + StrCells(text);
      && m[..|head|] == head && m[|head|..] == StrCells(text)
      && (forall i :: |head| <= i < |m| ==> m[i].Data? && StrWants(m[..i][|head|..], max) == WantByte)
      && StrWants(m[|head|..], max) == Ready && StrOf(m[|head|..]) == text
  {
    var s := StrCells(text);
    var m := head + s;
    StrRoundTrip(text, max);
    assert m[|head|..] == s && s[..|s|] == s;
    forall i | |head| <= i < |m| ensures m[i].Data? && StrWants(m[..i][|head|..], max) == WantByte {
      assert m[..i][|head|..] == s[..i - |head|];
    }
  }

  lemma StrRequestUnderstood(head: Cell, text: Text)
    requires head == CMD_WRITE_USER_RESP || head == CMD_DO_SSL_WRITE
    ensures var m := [head] + StrCells(text);
      && Framed(got => ServerWants(got), m)
      && Parse(m) == if head == CMD_DO_SSL_WRITE then Write(text) else WriteUserResp(text)
  {
    hide StrCells, StrWants, StrOf;
    Tail([head], text, PRIVSOCK_MAXSTR);
  }

  lemma RequestUnderstood(secured: bool, op: Op)
    requires Permitted(secured, op)
    ensures WellAsked(Protocol(), op)
  {
    match op
    case WriteUserResp(text) =>
      hide StrCells, StrWants, StrOf, ServerWants, Parse;
      StrRequestUnderstood(CMD_WRITE_USER_RESP, text);
    case Write(text) =>
      hide StrCells, StrWants, StrOf, ServerWants, Parse;
      StrRequestUnderstood(CMD_DO_SSL_WRITE, text);
    case Read(size) =>
      hide IntCells, IntOf, StrOf, StrCells, StrWants;
      IntRoundTrip(size);
      assert ([CMD_DO_SSL_READ] + IntCells(size))[1..] == IntCells(size);
    case _ =>
  }

  /** The result that goes with an operation. */
  predicate Suits(op: Op, r: Result) {
    match op
    case GetUserCmd => if r.Lettered? then r.n >= 0 else r.Number? && r.n < 0
    case Read(size) => r.Lettered? && size >= 0 && |r.text| <= size
    case Handshake(_) => r.Verdict?
    case Close => r.Verdict?
    case _ => r.Number?
  }

  lemma LetteredUnderstood(op: Op, r: Result)
    requires Suits(op, r) && r.Lettered?
    ensures Framed(got => ClientWants(op, got), Reply(r)) && ResultOf(op, Reply(r)) == r
  {
    hide StrWants, StrOf, IntCells, IntOf;
    var head := IntCells(r.n);
    IntRoundTrip(r.n);
    Tail(head, r.text, Room(op));
    var m := Reply(r);
    assert |m| >= 8;
    forall i | 0 <= i < |m| ensures Fits(ClientWants(op, m[..i]), m[i]) {
      if i >= 4 { assert m[..i][..4] == head; }
    }
  }

  lemma ReplyUnderstood(op: Op, r: Result)
    requires Suits(op, r)
    ensures Reply(r) != [] && ResultOf(op, Reply(r)) == r
    ensures Framed(got => ClientWants(op, got), Reply(r))
  {
    hide StrWants, StrOf, IntCells, IntOf, StrCells;
    match r
    case Lettered(_, _) => LetteredUnderstood(op, r);
    case Number(n) =>
      IntRoundTrip(n);
      assert IntCells(n)[..4] == IntCells(n);
    case Verdict(ok) =>
  }

  lemma RequestServed(secured: bool, st: State, op: Op, a: Answer)
    requires Permitted(secured, op) && Agrees(secured, st) && Possible(op, a)
    ensures WellServed(Protocol(), secured, op, Serve(st, op, a))
    ensures Serve(st, op, a).Served?
  {
    var o := Serve(st, op, a);
    ReplyUnderstood(op, o.result);
    hide Reply, ResultOf, ClientWants;
    assert Framed(Protocol().clientWants(op), Reply(o.result));
  }

  /** Of any consumer, honest or not, exactly these requests end the helper at a check: a handshake when
      there is a connection or a TLS object, a read of a bad size, a read or a write without both, and
      a close with only one of them. */
  lemma HelperChecks(st: State, op: Op, a: Answer)
    ensures Serve(st, op, a) == Trapped <==>
      || (op.Handshake? && st != CLEAN)
      || (op.Read? && !(1 <= op.size <= 65536))
      || ((op.Read? || op.Write?) && !Attached(st))
      || (op.Close? && !Attached(st) && st != CLEAN)
  {
  }

  lemma HelperMatches()
    ensures WellMatched(Protocol())
  {
    forall secured: bool, op: Op | Protocol().permitted(secured, op) ensures WellAsked(Protocol(), op) {
      RequestUnderstood(secured, op);
    }
    forall secured: bool, st: State, op: Op, a: Answer
      | Permitted(secured, op) && Agrees(secured, st) && Possible(op, a)
      ensures WellServed(Protocol(), secured, op, Serve(st, op, a))
    {
      RequestServed(secured, st, op, a);
    }
  }

  // ----- with the helper and without

  /** The functions of a session that have a branch for the helper: `ftp_write_str` on the data
      connection, `ftp_write_data`, `ftp_read_data`, `ftp_getline`, `ftp_write_str` on the control
      connection, `vsf_ftpdataio_post_mark_connect` and `vsf_ftpdataio_dispose_transfer_fd`. */
  datatype Routine =
    | WriteStr(text: Text)
    | WriteData(data: Text)
    | ReadData(size: Int32)
    | GetLine
    | WriteUser(text: Text)
    | PostMark(fd: Int32)
    | Dispose

  /** What they return, with the bytes they leave in a buffer if any. */
  datatype Value = Value(ret: int, bytes: seq<Byte>)

  /** With a helper: the request, */
  function Asks(r: Routine): Op {
    match r
    case WriteStr(text) => Write(text)
    case WriteData(data) => Write(data)
    case ReadData(size) => Read(size)
    case GetLine => GetUserCmd
    case WriteUser(text) => WriteUserResp(text)
    case PostMark(fd) => Handshake(fd)
    case Dispose => Close
  }

  /** and what is made of the reply. */
  function WithHelper(r: Routine, reply: Result): Value {
    match reply
    case Verdict(ok) => Value(if ok then 1 else 0, [])
    case Lettered(n, text) => Value(n, text)
    case Number(n) => if r.WriteStr? then Value(if n > 0 && n == |r.text| then 0 else -1, []) else Value(n, [])
  }

  /** Without a helper: the same functions on the TLS library, which answers `a`; `secured` says
      whether there is a TLS object for the data connection. */
  function WithoutHelper(secured: bool, r: Routine, a: Answer): Value {
    match r
    case WriteStr(text) => Value(if a.Returned? && Unsigned(a.n) == |text| then 0 else -1, [])
    case Dispose => Value(if !secured || (a.Succeeded? && a.ok) then 1 else 0, [])
    case _ =>
      match a
      case Returned(n) => Value(n, [])
      case Got(n, text) => Value(n, if n >= 0 then text else [])
      case Succeeded(ok) => Value(if ok then 1 else 0, [])
  }

  /** The write of an empty string to the data connection, which succeeds. */
  predicate EmptyWrite(r: Routine, a: Answer) {
    r.WriteStr? && r.text == [] && a == Returned(0)
  }

  /** A routine returns the same with the helper and without, except for an empty write: that is
      a success without the helper and a failure with it. */
  lemma SameUnlessEmpty(st: State, r: Routine, a: Answer)
    requires Serve(st, Asks(r), a).Served?
    ensures WithHelper(r, Serve(st, Asks(r), a).result) == WithoutHelper(Attached(st), r, a) <==> !EmptyWrite(r, a)
  {
  }

  /** The calls of `log`, from a helper in state `st` on, returned what the routines that made
      them would have returned without a helper. */
  ghost predicate AsWithout(st: State, log: History)
    decreases |log|
  {
    if log == [] then true
    else
      var call := log[0];
      var o := Serve(st, call.op, call.answer);
      && (forall r :: Asks(r) == call.op && !EmptyWrite(r, call.answer) ==>
            WithHelper(r, call.result) == WithoutHelper(Attached(st), r, call.answer))
      && o.Served? && AsWithout(o.state, log[1..])
  }

  lemma {:induction false} DirectIsAsWithout(st: State, log: History, end: State)
    requires Direct(Protocol(), st, log, end)
    ensures AsWithout(st, log)
    decreases |log|
  {
    if log != [] {
      var call := log[0];
      DirectIsAsWithout(Serve(st, call.op, call.answer).state, log[1..], end);
      forall r | Asks(r) == call.op && !EmptyWrite(r, call.answer)
        ensures WithHelper(r, call.result) == WithoutHelper(Attached(st), r, call.answer)
      {
        SameUnlessEmpty(st, r, call.answer);
      }
    }
  }

  // ----- every run

  /** Every run of consumer and helper, at every step of it: no message is misread, no check
      fires ("state not clean", "invalid state", "bad size", a string longer than its buffer),
      the helper does not die, it has a data descriptor exactly when it has a TLS object for
      it, and the routines that made the calls so far returned what they return without a helper.
      Between two calls the channel is empty. */
  lemma HelperInLockStep(s0: Pair, run: Run, s: Pair)
    requires Initial(Protocol(), s0) && Reaches(Protocol(), s0, run, s)
    ensures !s.client.Confused? && !s.server.Puzzled? && !s.server.Trap? && !s.server.Dead?
    ensures (s.st.dataFd == -1) == !s.st.hasSsl
    ensures exists end :: Direct(Protocol(), s0.st, s.log, end)
    ensures AsWithout(s0.st, s.log)
    ensures s.client.Idle? ==> s.up == [] && s.down == [] && s.server == Reading([]) && Agrees(s.cl, s.st)
  {
    HelperMatches();
    LockStep(Protocol(), s0, run, s);
    var end :| Direct(Protocol(), s0.st, s.log, end);
    DirectIsAsWithout(s0.st, s.log, end);
    var secured: bool :| Agrees(secured, s.st);
    if s.server.Dead? { RequestServed(s.cl, s.st, s.client.op, s.answer); }
  }

  // ----- histories

  /** Consumer and helper as they start after login. */
  function Launched(): Pair {
    System(Idle, Reading([]), [], [], CLEAN, Succeeded(true), false, [])
  }

  /** The requests that an honest consumer has made so far. */
  ghost predicate Honest(log: History) {
    Lockstep.Honest(Protocol(), false, CLEAN, log)
  }

  /** The helper's state after them. */
  function HelperAfter(log: History): State {
    Reached(Protocol(), CLEAN, log)
  }

  /** One request more: it is served, and leads where the helper's handling of it leads. */
  lemma HonestStep(log: History, op: Op, a: Answer)
    requires Honest(log) && Permitted(Attached(HelperAfter(log)), op) && Possible(op, a)
    ensures var o := Serve(HelperAfter(log), op, a);
      o.Served? && Honest(log + [Call(op, a, o.result)]) && HelperAfter(log + [Call(op, a, o.result)]) == o.state
  {
    HelperMatches();
    HonestAgrees(Protocol(), false, CLEAN, log);
    var st := HelperAfter(log);
    RequestServed(Attached(st), st, op, a);
    hide Serve, Permitted, Possible, Agrees;
    OneMoreCall(Protocol(), false, CLEAN, log, Call(op, a, Serve(st, op, a).result));
  }

  /** Whatever an honest consumer can ask, it asks in some run of the two processes. */
  lemma HistoriesHappen(log: History) returns (run: Run, s: Pair)
    requires Honest(log)
    ensures Reaches(Protocol(), Launched(), run, s) && s.client.Idle? && s.log == log
  {
    HelperMatches();
    run, s := Lockstep.HistoriesHappen(Protocol(), Launched(), log);
  }

  /** And between two requests of any run the helper is in the state that they lead to. */
  lemma HelperFollows(run: Run, s: Pair)
    requires Reaches(Protocol(), Launched(), run, s) && s.client.Idle?
    ensures s.st == HelperAfter(s.log) && s.cl == Attached(s.st)
  {
    HelperMatches();
    ServerFollows(Protocol(), Launched(), run, s);
    LockStep(Protocol(), Launched(), run, s);
  }

  // ----- the sizes of a transfer

  /** `get_chunk_size`. */
  function ChunkSize(transChunkSize: nat): nat {
    if 0 < transChunkSize < DATA_BUFSIZE then (if transChunkSize < 4096 then 4096 else transChunkSize) else DATA_BUFSIZE
  }

  /** Whatever is configured, a transfer asks for and sends only what the protocol allows:
      reads of a chunk, and writes of a chunk as it is or translated to ASCII. */
  lemma TransfersArePermitted(transChunkSize: nat, chunk: seq<Byte>, afterCr: bool)
    requires |chunk| <= ChunkSize(transChunkSize)
    ensures Permitted(true, Read(ChunkSize(transChunkSize)))
    ensures |chunk| <= PRIVSOCK_MAXSTR && |ToAscii(chunk, afterCr)| <= PRIVSOCK_MAXSTR
    ensures Permitted(true, Write(chunk)) && Permitted(true, Write(ToAscii(chunk, afterCr)))
  {
    FixedPoints(chunk, afterCr);
  }
}
