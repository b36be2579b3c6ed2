/**
A client and a server process on a pair of channels, running a request protocol at the
granularity of single cells: writes and reads of either side happen in any order and any
pieces. The theorem says that the two stay in lock-step: nobody ever reads a cell of the
wrong kind, every completed call returns what the operation itself, done directly, would
have returned, and the channels are empty whenever the client is between two calls.

The protocol is a parameter. `request` and `reply` are what the two sides write; the wants-
functions say what they read next, given what they have read of the message so far.
*/
module Lockstep {
  import opened PrivSock
  import opened Process

  /**
  `serve` is the operation itself, on the server's state and with what the operating system
  answers. `permitted` says which requests the client makes, judging by what it knows, and
  `advance` what it knows after a call; `agrees` relates that to the server's state.
  `possible` limits the answers to what the operating system can give.
  */
  datatype Protocol<!Op, !St, !An, !Re, !Cl> = Protocol(
    request: Op -> seq<Cell>,
    serverWants: seq<Cell> -> Want,
    parse: seq<Cell> -> Op,
    serve: (St, Op, An) -> Outcome<St, Re>,
    reply: (Op, Re) -> seq<Cell>,
    clientWants: Op -> seq<Cell> -> Want,
    result: (Op, seq<Cell>) -> Re,
    permitted: (Cl, Op) -> bool,
    advance: (Cl, Op, Re) -> Cl,
    agrees: (Cl, St) -> bool,
    possible: (St, Op, An) -> bool)

  /** The obligation on a protocol, call by call. */
  ghost predicate WellMatched<Op(!new), St(!new), An(!new), Re, Cl(!new)>(p: Protocol<Op, St, An, Re, Cl>) {
    && p.serverWants([]) == WantByte
    && (forall cl: Cl, op: Op :: p.permitted(cl, op) ==> WellAsked(p, op))
    && (forall cl: Cl, st: St, op: Op, a: An ::
          p.permitted(cl, op) && p.agrees(cl, st) && p.possible(st, op, a) ==>
            WellServed(p, cl, op, p.serve(st, op, a)))
  }

  /** The server reads exactly this request, and understands it. */
  ghost predicate WellAsked<Op, St, An, Re, Cl>(p: Protocol<Op, St, An, Re, Cl>, op: Op) {
    p.request(op) != [] && Framed(p.serverWants, p.request(op)) && p.parse(p.request(op)) == op
  }

  /** The server does not trap, the client reads exactly this reply, and the two still agree. */
  ghost predicate WellServed<Op, St, An, Re, Cl>(
      p: Protocol<Op, St, An, Re, Cl>, cl: Cl, op: Op, o: Outcome<St, Re>) {
    match o
    case Served(st, r) =>
      && p.reply(op, r) != []
      && Framed(p.clientWants(op), p.reply(op, r))
      && p.result(op, p.reply(op, r)) == r
      && p.agrees(p.advance(cl, op, r), st)
    case Died => true
    case Trapped => false
  }

  // ----- the two processes and the channels

  /** `Confused`: the client got a cell it did not ask for, or a reply it does not know.
      `Gone`: it found its peer dead. */
  datatype Client<Op> =
    | Idle
    | Sending(op: Op, unsent: seq<Cell>)
    | Awaiting(op: Op, got: seq<Cell>)
    | Confused
    | Gone(op: Op)

  datatype Server = Reading(got: seq<Cell>) | Replying(unsent: seq<Cell>) | Puzzled | Dead | Trap

  /** One completed call. */
  datatype Call<Op, An, Re> = Call(op: Op, answer: An, result: Re)

  /** `answer` is what the operating system said to the request served last. */
  datatype System<Op, St, An, Re, Cl> = System(
    client: Client<Op>, server: Server, up: seq<Cell>, down: seq<Cell>,
    st: St, answer: An, cl: Cl, log: seq<Call<Op, An, Re>>)

  datatype Step<Op, An> =
    | Begin(op: Op)
    | ClientSends
    | ClientReads
    | ClientFinds
    | ServerReads
    | ServerServes(answer: An)
    | ServerSends

  /** Which step can be taken. */
  predicate Enabled<Op, St, An, Re, Cl>(
      p: Protocol<Op, St, An, Re, Cl>, s: System<Op, St, An, Re, Cl>, step: Step<Op, An>)
  {
    match step
    case Begin(op) => s.client.Idle? && p.permitted(s.cl, op)
    case ClientSends => s.client.Sending? && s.client.unsent != [] && !s.server.Dead?
    case ClientReads => s.client.Awaiting? && s.down != []
    case ClientFinds => (s.client.Sending? || (s.client.Awaiting? && s.down == [])) && s.server.Dead?
    case ServerReads => s.server.Reading? && s.up != [] && p.serverWants(s.server.got) != Ready
    case ServerServes(a) =>
      s.server.Reading? && p.serverWants(s.server.got) == Ready && p.possible(s.st, p.parse(s.server.got), a)
    case ServerSends => s.server.Replying? && s.server.unsent != []
  }

  /** The state after a step. */
  function After<Op, St, An, Re, Cl>(p: Protocol<Op, St, An, Re, Cl>, s: System<Op, St, An, Re, Cl>, step: Step<Op, An>)
      : System<Op, St, An, Re, Cl>
    requires Enabled(p, s, step)
  {
    match step
    case Begin(op) => s.(client := Sending(op, p.request(op)))
    case ClientSends =>
      var rest := s.client.unsent[1..];
      s.(up := s.up + [s.client.unsent[0]],
         client := if rest == [] then Awaiting(s.client.op, []) else s.client.(unsent := rest))
    case ClientReads =>
      var op, cell := s.client.op, s.down[0];
      var got := s.client.got + [cell];
      if !Fits(p.clientWants(op)(s.client.got), cell) then s.(client := Confused, down := s.down[1..])
      else if p.clientWants(op)(got) == Ready then
        var r := p.result(op, got);
        s.(client := Idle, down := s.down[1..], cl := p.advance(s.cl, op, r), log := s.log + [Call(op, s.answer, r)])
      else s.(client := Awaiting(op, got), down := s.down[1..])
    case ClientFinds => s.(client := Gone(s.client.op))
    case ServerReads =>
      if Fits(p.serverWants(s.server.got), s.up[0])
      then s.(server := Reading(s.server.got + [s.up[0]]), up := s.up[1..])
      else s.(server := Puzzled, up := s.up[1..])
    case ServerServes(a) =>
      var op := p.parse(s.server.got);
      (match p.serve(s.st, op, a)
       case Served(st, r) => s.(server := Replying(p.reply(op, r)), st := st, answer := a)
       case Died => s.(server := Dead, answer := a)
       case Trapped => s.(server := Trap, answer := a))
    case ServerSends =>
      var rest := s.server.unsent[1..];
      s.(down := s.down + [s.server.unsent[0]], server := if rest == [] then Reading([]) else Replying(rest))
  }

  predicate Initial<Op, St, An, Re, Cl>(p: Protocol<Op, St, An, Re, Cl>, s: System<Op, St, An, Re, Cl>) {
    s.client.Idle? && s.server == Reading([]) && s.up == [] && s.down == [] && s.log == [] && p.agrees(s.cl, s.st)
  }

  /** `s` is the state after the steps of `run`, one after the other. */
  ghost predicate Reaches<Op, St, An, Re, Cl>(
      p: Protocol<Op, St, An, Re, Cl>, s0: System<Op, St, An, Re, Cl>, run: seq<Step<Op, An>>,
      s: System<Op, St, An, Re, Cl>)
    decreases |run|
  {
    if run == [] then s == s0
    else Enabled(p, s0, run[0]) && Reaches(p, After(p, s0, run[0]), run[1..], s)
  }

  // ----- the operations done directly

  /** Doing the operations of `log` one by one on `st`, with the same answers from the
      operating system (which it can give), gives the results of `log` and ends in `end`. */
  ghost predicate Direct<Op, St, An, Re, Cl>(
      p: Protocol<Op, St, An, Re, Cl>, st: St, log: seq<Call<Op, An, Re>>, end: St)
  {
    if log == [] then end == st
    else
      var o := p.serve(st, log[0].op, log[0].answer);
      && p.possible(st, log[0].op, log[0].answer)
      && o.Served? && o.result == log[0].result && Direct(p, o.state, log[1..], end)
  }

  lemma {:induction false} DirectAppend<Op, St, An, Re, Cl>(
      p: Protocol<Op, St, An, Re, Cl>, st: St, log: seq<Call<Op, An, Re>>, mid: St, call: Call<Op, An, Re>, end: St)
    requires Direct(p, st, log, mid) && p.possible(mid, call.op, call.answer)
    requires p.serve(mid, call.op, call.answer) == Served(end, call.result)
    ensures Direct(p, st, log + [call], end)
  {
    if log == [] {
      assert log + [call] == [call];
    } else {
      DirectAppend(p, p.serve(st, log[0].op, log[0].answer).state, log[1..], mid, call, end);
      assert (log + [call])[1..] == log[1..] + [call];
    }
  }

  lemma {:induction false} DirectLast<Op, St, An, Re, Cl>(
      p: Protocol<Op, St, An, Re, Cl>, st: St, log: seq<Call<Op, An, Re>>, end: St) returns (mid: St)
    requires log != [] && Direct(p, st, log, end)
    ensures var call := log[|log| - 1];
      Direct(p, st, log[..|log| - 1], mid) && p.serve(mid, call.op, call.answer) == Served(end, call.result)
  {
    if |log| == 1 {
      mid := st;
    } else {
      mid := DirectLast(p, p.serve(st, log[0].op, log[0].answer).state, log[1..], end);
      assert log[..|log| - 1][1..] == log[1..][..|log| - 2];
    }
  }

  // ----- the invariant

  /** Between two calls, or: while a request is under way (`got`, `up` and `unsent` are its
      three parts), while a reply is under way, or after the server's death. */
  ghost predicate Inv<Op, St(!new), An, Re(!new), Cl>(
      p: Protocol<Op, St, An, Re, Cl>, st0: St, s: System<Op, St, An, Re, Cl>)
  {
    match s.client
    case Idle =>
      s.server == Reading([]) && s.up == [] && s.down == [] && p.agrees(s.cl, s.st) && Direct(p, st0, s.log, s.st)
    case Sending(op, unsent) =>
      && p.permitted(s.cl, op) && s.down == [] && unsent != [] && s.server.Reading?
      && s.server.got + s.up + unsent == p.request(op) && p.agrees(s.cl, s.st) && Direct(p, st0, s.log, s.st)
    case Awaiting(op, got) =>
      && p.permitted(s.cl, op)
      && (if s.server.Dead? then
            got == [] && s.down == [] && Direct(p, st0, s.log, s.st) && Doomed(p, s, op)
          else if s.server.Reading? && s.server.got + s.up != [] then
            && got == [] && s.down == [] && s.server.got + s.up == p.request(op)
            && p.agrees(s.cl, s.st) && Direct(p, st0, s.log, s.st)
          else s.up == [] && exists r, before :: Answered(p, st0, s, r, before))
    case Confused => false
    case Gone(op) => s.server.Dead? && Direct(p, st0, s.log, s.st) && Doomed(p, s, op)
  }

  /** The request under way is one that fails. */
  ghost predicate Doomed<Op, St, An, Re, Cl>(p: Protocol<Op, St, An, Re, Cl>, s: System<Op, St, An, Re, Cl>, op: Op) {
    && p.permitted(s.cl, op) && p.agrees(s.cl, s.st)
    && p.possible(s.st, op, s.answer) && p.serve(s.st, op, s.answer) == Died
  }

  function Unsent(server: Server): seq<Cell> {
    if server.Replying? then server.unsent else []
  }

  /** The server has served the pending request with result `r`, from the state `before`;
      what is read, in the channel and unsent makes up the reply. */
  ghost predicate Answered<Op, St, An, Re, Cl>(
      p: Protocol<Op, St, An, Re, Cl>, st0: St, s: System<Op, St, An, Re, Cl>, r: Re, before: St)
  {
    && s.client.Awaiting?
    && (s.server == Reading([]) || (s.server.Replying? && s.server.unsent != []))
    && s.client.got + s.down + Unsent(s.server) == p.reply(s.client.op, r)
    && s.client.got != p.reply(s.client.op, r)
    && Direct(p, st0, s.log, before) && p.possible(before, s.client.op, s.answer)
    && p.serve(before, s.client.op, s.answer) == Served(s.st, r)
    && WellServed(p, s.cl, s.client.op, Served(s.st, r))
  }

  // ----- what every step keeps

  lemma AfterBegin<Op(!new), St(!new), An(!new), Re(!new), Cl(!new)>(
      p: Protocol<Op, St, An, Re, Cl>, st0: St, s: System<Op, St, An, Re, Cl>, op: Op)
    requires WellMatched(p) && Inv(p, st0, s) && Enabled(p, s, Begin(op))
    ensures Inv(p, st0, After(p, s, Begin(op)))
  {
    assert WellAsked(p, op);
  }

  lemma AfterClientSends<Op(!new), St(!new), An(!new), Re(!new), Cl(!new)>(
      p: Protocol<Op, St, An, Re, Cl>, st0: St, s: System<Op, St, An, Re, Cl>)
    requires WellMatched(p) && Inv(p, st0, s) && Enabled(p, s, ClientSends)
    ensures Inv(p, st0, After(p, s, ClientSends))
  {
    var got, up, unsent := s.server.got, s.up, s.client.unsent;
    assert unsent == [unsent[0]] + unsent[1..];
    assert got + (up + [unsent[0]]) + unsent[1..] == got + up + unsent;
    if |unsent| == 1 {
      assert got + (up + [unsent[0]]) == got + up + unsent;
    }
  }

  lemma AfterServerReads<Op(!new), St(!new), An(!new), Re(!new), Cl(!new)>(
      p: Protocol<Op, St, An, Re, Cl>, st0: St, s: System<Op, St, An, Re, Cl>)
    requires WellMatched(p) && Inv(p, st0, s) && Enabled(p, s, ServerReads)
    ensures Inv(p, st0, After(p, s, ServerReads))
  {
    var op, got, up := s.client.op, s.server.got, s.up;
    var unsent := if s.client.Sending? then s.client.unsent else [];
    assert WellAsked(p, op);
    assert up == [up[0]] + up[1..];
    assert got + [up[0]] + up[1..] == got + up;
    var m := p.request(op);
    assert m == got + up + unsent;
    assert m[..|got|] == got && m[|got|] == up[0];
  }

  /** The first cell of `b` passes over to `a`. */
  lemma FirstMoves(a: seq<Cell>, b: seq<Cell>, c: seq<Cell>)
    requires b != []
    ensures a + b + c == a + (b + c) == a + [b[0]] + (b[1..] + c) == a + [b[0]] + b[1..] + c
  {
    assert b == [b[0]] + b[1..];
  }

  /** A reader of `m` is not done before its end. */
  lemma NotReadyBefore(wants: seq<Cell> -> Want, m: seq<Cell>, got: seq<Cell>, rest: seq<Cell>)
    requires Framed(wants, m) && m == got + rest
    ensures rest != [] ==> Fits(wants(got), rest[0])
    ensures wants(got) == Ready ==> rest == []
  {
    if rest != [] {
      assert m[..|got|] == got && m[|got|] == rest[0];
    }
  }

  lemma AfterServerServes<Op(!new), St(!new), An(!new), Re(!new), Cl(!new)>(
      p: Protocol<Op, St, An, Re, Cl>, st0: St, s: System<Op, St, An, Re, Cl>, a: An)
    requires WellMatched(p) && Inv(p, st0, s) && Enabled(p, s, ServerServes(a))
    ensures Inv(p, st0, After(p, s, ServerServes(a)))
  {
    var op, got := s.client.op, s.server.got;
    assert WellAsked(p, op);
    var unsent := if s.client.Sending? then s.client.unsent else [];
    assert p.request(op) == got + (s.up + unsent);
    NotReadyBefore(p.serverWants, p.request(op), got, s.up + unsent);
    assert got + s.up == got;
    var o := p.serve(s.st, op, a);
    assert WellServed(p, s.cl, op, o);
    if o.Served? {
      var s' := After(p, s, ServerServes(a));
      assert s'.client.got + s'.down + Unsent(s'.server) == p.reply(op, o.result);
      assert Answered(p, st0, s', o.result, s.st);
    }
  }

  lemma AfterServerSends<Op(!new), St(!new), An(!new), Re(!new), Cl(!new)>(
      p: Protocol<Op, St, An, Re, Cl>, st0: St, s: System<Op, St, An, Re, Cl>)
    requires WellMatched(p) && Inv(p, st0, s) && Enabled(p, s, ServerSends)
    ensures Inv(p, st0, After(p, s, ServerSends))
  {
    var r, before :| Answered(p, st0, s, r, before);
    var got, down, unsent := s.client.got, s.down, s.server.unsent;
    var s' := After(p, s, ServerSends);
    assert unsent == [unsent[0]] + Unsent(s'.server);
    assert got + (down + [unsent[0]]) + Unsent(s'.server) == got + down + unsent;
    assert Answered(p, st0, s', r, before);
  }

  lemma AfterClientReads<Op(!new), St(!new), An(!new), Re(!new), Cl(!new)>(
      p: Protocol<Op, St, An, Re, Cl>, st0: St, s: System<Op, St, An, Re, Cl>)
    requires WellMatched(p) && Inv(p, st0, s) && Enabled(p, s, ClientReads)
    ensures Inv(p, st0, After(p, s, ClientReads))
  {
    hide WellMatched;
    var r, before :| Answered(p, st0, s, r, before);
    var op, got, down, rest := s.client.op, s.client.got, s.down, Unsent(s.server);
    var m, got' := p.reply(op, r), s.client.got + [s.down[0]];
    FirstMoves(got, down, rest);
    NotReadyBefore(p.clientWants(op), m, got, down + rest);
    NotReadyBefore(p.clientWants(op), m, got', down[1..] + rest);
    if p.clientWants(op)(got') == Ready {
      assert down[1..] == [] && rest == [] && got' == m;
      DirectAppend(p, st0, s.log, before, Call(op, s.answer, r), s.st);
    } else {
      assert Answered(p, st0, After(p, s, ClientReads), r, before);
    }
  }

  lemma StepKeepsInv<Op(!new), St(!new), An(!new), Re(!new), Cl(!new)>(
      p: Protocol<Op, St, An, Re, Cl>, st0: St, s: System<Op, St, An, Re, Cl>, step: Step<Op, An>)
    requires WellMatched(p) && Inv(p, st0, s) && Enabled(p, s, step)
    ensures Inv(p, st0, After(p, s, step))
  {
    match step
    case Begin(op) => AfterBegin(p, st0, s, op);
    case ClientSends => AfterClientSends(p, st0, s);
    case ClientReads => AfterClientReads(p, st0, s);
    case ClientFinds =>
    case ServerReads => AfterServerReads(p, st0, s);
    case ServerServes(a) => AfterServerServes(p, st0, s, a);
    case ServerSends => AfterServerSends(p, st0, s);
  }

  lemma {:induction false} RunKeepsInv<Op(!new), St(!new), An(!new), Re(!new), Cl(!new)>(
      p: Protocol<Op, St, An, Re, Cl>, st0: St, s0: System<Op, St, An, Re, Cl>, run: seq<Step<Op, An>>,
      s: System<Op, St, An, Re, Cl>)
    requires WellMatched(p) && Inv(p, st0, s0) && Reaches(p, s0, run, s)
    ensures Inv(p, st0, s)
    decreases |run|
  {
    if run != [] {
      StepKeepsInv(p, st0, s0, run[0]);
      RunKeepsInv(p, st0, After(p, s0, run[0]), run[1..], s);
    }
  }

  // ----- the theorems

  /** In every reachable state: nobody has read a cell of the wrong kind or has trapped; the
      calls completed so far returned what the operations done directly return; between two
      calls the channels are empty and the server waits for a command; and if the server is
      dead, the operation done directly dies as well. Some knowledge of a client always agrees
      with the server's state. */
  lemma LockStep<Op(!new), St(!new), An(!new), Re(!new), Cl(!new)>(
      p: Protocol<Op, St, An, Re, Cl>, s0: System<Op, St, An, Re, Cl>, run: seq<Step<Op, An>>,
      s: System<Op, St, An, Re, Cl>)
    requires WellMatched(p) && Initial(p, s0) && Reaches(p, s0, run, s)
    ensures !s.client.Confused? && !s.server.Puzzled? && !s.server.Trap?
    ensures exists st :: Direct(p, s0.st, s.log, st)
    ensures s.client.Idle? ==>
      s.up == [] && s.down == [] && s.server == Reading([]) && p.agrees(s.cl, s.st) && Direct(p, s0.st, s.log, s.st)
    ensures s.server.Dead? ==> (s.client.Awaiting? || s.client.Gone?) && Doomed(p, s, s.client.op)
    ensures exists cl :: p.agrees(cl, s.st)
  {
    RunKeepsInv(p, s0.st, s0, run, s);
    if s.client.Awaiting? && !s.server.Dead? && !(s.server.Reading? && s.server.got + s.up != []) {
      var r, before :| Answered(p, s0.st, s, r, before);
      assert Direct(p, s0.st, s.log, before);
      assert p.agrees(p.advance(s.cl, s.client.op, r), s.st);
    } else {
      assert p.agrees(s.cl, s.st);
    }
  }

  /** How much of the call under way is still to be done. */
  ghost function Remaining<Op, St, An, Re, Cl>(s: System<Op, St, An, Re, Cl>): (int, int) {
    match s.client
    case Sending(_, unsent) => (2, 2 * |unsent| + |s.up|)
    case Awaiting(_, _) =>
      if s.server.Dead? then (0, 1)
      else if s.server.Reading? && s.server.got + s.up != [] then (2, |s.up|)
      else (1, 2 * |Unsent(s.server)| + |s.down|)
    case _ => (0, 0)
  }

  ghost predicate Less(a: (int, int), b: (int, int)) {
    0 <= a.0 < b.0 || (a.0 == b.0 && 0 <= a.1 < b.1)
  }

  /** The operating system can answer the request. */
  ghost predicate Answerable<Op, St, An(!new), Re, Cl>(p: Protocol<Op, St, An, Re, Cl>, st: St, op: Op) {
    exists a: An :: p.possible(st, op, a)
  }

  /** No deadlock: while a call is under way some step can be taken. */
  lemma NoDeadlock<Op(!new), St(!new), An(!new), Re(!new), Cl(!new)>(
      p: Protocol<Op, St, An, Re, Cl>, s0: System<Op, St, An, Re, Cl>, run: seq<Step<Op, An>>,
      s: System<Op, St, An, Re, Cl>) returns (step: Step<Op, An>)
    requires WellMatched(p) && Initial(p, s0) && Reaches(p, s0, run, s)
    requires !s.client.Idle? && !s.client.Gone?
    requires forall st, op :: Answerable(p, st, op)
    ensures !step.Begin? && Enabled(p, s, step)
  {
    RunKeepsInv(p, s0.st, s0, run, s);
    if s.client.Sending? { return ClientSends; }
    if s.server.Dead? { return ClientFinds; }
    if s.server.Reading? && s.server.got + s.up != [] {
      var op := s.client.op;
      assert WellAsked(p, op);
      NotReadyBefore(p.serverWants, p.request(op), s.server.got, s.up);
      if s.up != [] { return ServerReads; }
      assert s.server.got + s.up == s.server.got;
      assert Answerable(p, s.st, op);
      var a: An :| p.possible(s.st, op, a);
      return ServerServes(a);
    }
    var r, before :| Answered(p, s0.st, s, r, before);
    if s.server.Replying? { return ServerSends; }
    var got := s.client.got;
    assert got + [] + [] == got;
    return ClientReads;
  }

  /** The server does not serve before the whole request is there. */
  lemma RequestFirst<Op(!new), St(!new), An(!new), Re(!new), Cl(!new)>(
      p: Protocol<Op, St, An, Re, Cl>, st0: St, s: System<Op, St, An, Re, Cl>, a: An)
    requires WellMatched(p) && Inv(p, st0, s) && Enabled(p, s, ServerServes(a))
    ensures s.client.Awaiting? && s.server.got + s.up != []
  {
    if s.client.Sending? {
      var op := s.client.op;
      assert WellAsked(p, op);
      assert s.server.got + s.up + s.client.unsent == s.server.got + (s.up + s.client.unsent);
      NotReadyBefore(p.serverWants, p.request(op), s.server.got, s.up + s.client.unsent);
    }
  }

  lemma StepIsNearer<Op(!new), St(!new), An(!new), Re(!new), Cl(!new)>(
      p: Protocol<Op, St, An, Re, Cl>, st0: St, s: System<Op, St, An, Re, Cl>, step: Step<Op, An>)
    requires WellMatched(p) && Inv(p, st0, s) && !s.client.Idle? && Enabled(p, s, step)
    ensures !step.Begin? && Less(Remaining(After(p, s, step)), Remaining(s))
  {
    StepKeepsInv(p, st0, s, step);
    hide Direct, WellMatched, Framed, WellServed, Reaches;
    var s' := After(p, s, step);
    match step
    case ClientSends => assert |s'.server.got + s'.up| > 0;
    case ServerReads => assert |s'.server.got + s'.up| > 0;
    case ServerServes(a) => RequestFirst(p, st0, s, a);
    case _ =>
  }

  /** No endless call: every step of a call brings its end nearer. */
  lemma CallsEnd<Op(!new), St(!new), An(!new), Re(!new), Cl(!new)>(
      p: Protocol<Op, St, An, Re, Cl>, s0: System<Op, St, An, Re, Cl>, run: seq<Step<Op, An>>,
      s: System<Op, St, An, Re, Cl>, step: Step<Op, An>)
    requires WellMatched(p) && Initial(p, s0) && Reaches(p, s0, run, s)
    requires !s.client.Idle? && Enabled(p, s, step)
    ensures !step.Begin? && Less(Remaining(After(p, s, step)), Remaining(s))
  {
    RunKeepsInv(p, s0.st, s0, run, s);
    StepIsNearer(p, s0.st, s, step);
  }

  // ----- every call can be made

  /** The request under way has not been served yet. */
  predicate Pending<Op, St, An, Re, Cl>(s: System<Op, St, An, Re, Cl>) {
    s.client.Sending? || (s.client.Awaiting? && s.server.Reading? && s.server.got + s.up != [])
  }

  /** The call under way will be answered, or has been, with `a` and the result `r`, after which
      the server's state is `end`. */
  ghost predicate Ends<Op, St, An, Re, Cl>(
      p: Protocol<Op, St, An, Re, Cl>, s: System<Op, St, An, Re, Cl>, op: Op, a: An, r: Re, end: St)
  {
    && (s.client.Sending? || s.client.Awaiting?) && s.client.op == op
    && if Pending(s) then p.possible(s.st, op, a) && p.serve(s.st, op, a) == Served(end, r)
       else
         && s.answer == a && s.st == end && !s.server.Dead?
         && s.client.got + s.down + Unsent(s.server) == p.reply(op, r) && p.result(op, p.reply(op, r)) == r
  }

  /** The step that brings such a call nearer to its end. */
  lemma NextStep<Op(!new), St(!new), An(!new), Re(!new), Cl(!new)>(
      p: Protocol<Op, St, An, Re, Cl>, st0: St, s: System<Op, St, An, Re, Cl>, op: Op, a: An, r: Re, end: St)
      returns (step: Step<Op, An>)
    requires WellMatched(p) && Inv(p, st0, s) && Ends(p, s, op, a, r, end)
    ensures Enabled(p, s, step)
    ensures var s' := After(p, s, step);
      || (s'.log == s.log && s'.cl == s.cl && Ends(p, s', op, a, r, end))
      || (s'.client.Idle? && s'.log == s.log + [Call(op, a, r)] && s'.st == end && s'.cl == p.advance(s.cl, op, r))
  {
    if s.client.Sending? {
      step := ClientSends;
      var s' := After(p, s, step);
      assert s'.server.got + s'.up != [];
    } else if Pending(s) {
      step := NextOfServer(p, st0, s, op, a, r, end);
    } else {
      step := NextOfReply(p, st0, s, op, a, r, end);
    }
  }

  lemma NextOfServer<Op(!new), St(!new), An(!new), Re(!new), Cl(!new)>(
      p: Protocol<Op, St, An, Re, Cl>, st0: St, s: System<Op, St, An, Re, Cl>, op: Op, a: An, r: Re, end: St)
      returns (step: Step<Op, An>)
    requires WellMatched(p) && Inv(p, st0, s) && Ends(p, s, op, a, r, end) && s.client.Awaiting? && Pending(s)
    ensures Enabled(p, s, step)
    ensures var s' := After(p, s, step); s'.log == s.log && s'.cl == s.cl && Ends(p, s', op, a, r, end)
  {
    assert WellAsked(p, op);
    NotReadyBefore(p.serverWants, p.request(op), s.server.got, s.up);
    if s.up != [] {
      step := ServerReads;
      var s' := After(p, s, step);
      assert s'.server.got + s'.up != [];
    } else {
      assert s.server.got + s.up == s.server.got;
      step := ServerServes(a);
      var s' := After(p, s, step);
      assert WellServed(p, s.cl, op, p.serve(s.st, op, a));
      assert s'.client.got + s'.down + Unsent(s'.server) == p.reply(op, r);
    }
  }

  lemma NextOfReply<Op(!new), St(!new), An(!new), Re(!new), Cl(!new)>(
      p: Protocol<Op, St, An, Re, Cl>, st0: St, s: System<Op, St, An, Re, Cl>, op: Op, a: An, r: Re, end: St)
      returns (step: Step<Op, An>)
    requires WellMatched(p) && Inv(p, st0, s) && Ends(p, s, op, a, r, end) && s.client.Awaiting? && !Pending(s)
    ensures Enabled(p, s, step)
    ensures var s' := After(p, s, step);
      || (s'.log == s.log && s'.cl == s.cl && Ends(p, s', op, a, r, end))
      || (s'.client.Idle? && s'.log == s.log + [Call(op, a, r)] && s'.st == end && s'.cl == p.advance(s.cl, op, r))
  {
    var r', before :| Answered(p, st0, s, r', before);
    hide WellMatched, Inv;
    if s.server.Replying? {
      step := ServerSends;
      var s' := After(p, s, step);
      var got, down, unsent := s.client.got, s.down, s.server.unsent;
      assert unsent == [unsent[0]] + Unsent(s'.server);
      assert got + (down + [unsent[0]]) + Unsent(s'.server) == got + down + unsent;
    } else {
      step := ClientReads;
      assert s.client.got + s.down + [] == s.client.got + s.down;
      ReplyIsRead(p, s, op, a, r, end);
    }
  }

  lemma ReplyIsRead<Op, St, An, Re, Cl>(
      p: Protocol<Op, St, An, Re, Cl>, s: System<Op, St, An, Re, Cl>, op: Op, a: An, r: Re, end: St)
    requires s.client.Awaiting? && s.client.op == op && s.answer == a && s.st == end
    requires s.server == Reading([]) && s.up == []
    requires s.client.got + s.down == p.reply(op, r) != s.client.got && p.result(op, p.reply(op, r)) == r
    requires Framed(p.clientWants(op), p.reply(op, r))
    ensures s.down != []
    ensures var s' := After(p, s, ClientReads);
      || (s'.log == s.log && s'.cl == s.cl && Ends(p, s', op, a, r, end))
      || (s'.client.Idle? && s'.log == s.log + [Call(op, a, r)] && s'.st == end && s'.cl == p.advance(s.cl, op, r))
  {
    var got, down, m := s.client.got, s.down, p.reply(op, r);
    assert got + [] == got;
    var got' := got + [down[0]];
    assert got + down == got' + down[1..];
    NotReadyBefore(p.clientWants(op), m, got, down);
    NotReadyBefore(p.clientWants(op), m, got', down[1..]);
    hide Framed;
    if p.clientWants(op)(got') == Ready {
      assert got' + [] == got';
    } else {
      var s' := After(p, s, ClientReads);
      assert s'.client == Awaiting(op, got') && s'.down == down[1..];
      assert s'.client.got + s'.down + Unsent(s'.server) == m;
      assert s'.server.got + s'.up == s.up;
    }
  }

  lemma {:induction false} ReachesTrans<Op, St, An, Re, Cl>(
      p: Protocol<Op, St, An, Re, Cl>, s0: System<Op, St, An, Re, Cl>, run: seq<Step<Op, An>>,
      s: System<Op, St, An, Re, Cl>, more: seq<Step<Op, An>>, s': System<Op, St, An, Re, Cl>)
    requires Reaches(p, s0, run, s) && Reaches(p, s, more, s')
    ensures Reaches(p, s0, run + more, s')
    decreases |run|
  {
    if run == [] {
      assert run + more == more;
    } else {
      ReachesTrans(p, After(p, s0, run[0]), run[1..], s, more, s');
      assert (run + more)[0] == run[0] && (run + more)[1..] == run[1..] + more;
    }
  }

  /** A call that the operation itself would answer is completed. */
  lemma {:induction false} CallCompletes<Op(!new), St(!new), An(!new), Re(!new), Cl(!new)>(
      p: Protocol<Op, St, An, Re, Cl>, st0: St, s: System<Op, St, An, Re, Cl>, op: Op, a: An, r: Re, end: St)
      returns (run: seq<Step<Op, An>>, s': System<Op, St, An, Re, Cl>)
    requires WellMatched(p) && Inv(p, st0, s) && Ends(p, s, op, a, r, end)
    ensures Reaches(p, s, run, s') && Inv(p, st0, s')
    ensures s'.client.Idle? && s'.log == s.log + [Call(op, a, r)] && s'.st == end && s'.cl == p.advance(s.cl, op, r)
    decreases Remaining(s).0, Remaining(s).1
  {
    assert !s.client.Idle?;
    hide WellMatched, Inv, Ends, Enabled, After, Remaining;
    var step := NextStep(p, st0, s, op, a, r, end);
    StepKeepsInv(p, st0, s, step);
    StepIsNearer(p, st0, s, step);
    var t := After(p, s, step);
    if t.client.Idle? {
      run, s' := [step], t;
    } else {
      run, s' := CallCompletes(p, st0, t, op, a, r, end);
      run := [step] + run;
    }
  }

  // ----- histories of calls

  /** What the client knows after the calls of `log`. */
  function Known<Op, St, An, Re, Cl>(p: Protocol<Op, St, An, Re, Cl>, cl: Cl, log: seq<Call<Op, An, Re>>): Cl {
    if log == [] then cl
    else
      var call := log[|log| - 1];
      p.advance(Known(p, cl, log[..|log| - 1]), call.op, call.result)
  }

  /** The server's state after them. */
  function Reached<Op, St, An, Re, Cl>(p: Protocol<Op, St, An, Re, Cl>, st: St, log: seq<Call<Op, An, Re>>): St {
    if log == [] then st
    else
      var before, call := Reached(p, st, log[..|log| - 1]), log[|log| - 1];
      var o := p.serve(before, call.op, call.answer);
      if o.Served? then o.state else before
  }

  /** A client that knows `cl` can make this call to a server in the state `st`, with this outcome. */
  ghost predicate Next<Op, St, An, Re, Cl>(
      p: Protocol<Op, St, An, Re, Cl>, cl: Cl, st: St, call: Call<Op, An, Re>)
  {
    var o := p.serve(st, call.op, call.answer);
    && p.permitted(cl, call.op) && p.possible(st, call.op, call.answer)
    && o.Served? && o.result == call.result
  }

  /** The calls that an honest client has made so far. */
  ghost predicate Honest<Op, St, An, Re, Cl>(
      p: Protocol<Op, St, An, Re, Cl>, cl: Cl, st: St, log: seq<Call<Op, An, Re>>)
  {
    if log == [] then true
    else
      var before := log[..|log| - 1];
      Honest(p, cl, st, before) && Next(p, Known(p, cl, before), Reached(p, st, before), log[|log| - 1])
  }

  lemma {:induction false} HonestAgrees<Op(!new), St(!new), An(!new), Re, Cl(!new)>(
      p: Protocol<Op, St, An, Re, Cl>, cl: Cl, st: St, log: seq<Call<Op, An, Re>>)
    requires WellMatched(p) && p.agrees(cl, st) && Honest(p, cl, st, log)
    ensures p.agrees(Known(p, cl, log), Reached(p, st, log))
  {
    if log != [] {
      var before, call := log[..|log| - 1], log[|log| - 1];
      HonestAgrees(p, cl, st, before);
      var cl1, st1 := Known(p, cl, before), Reached(p, st, before);
      assert WellServed(p, cl1, call.op, p.serve(st1, call.op, call.answer));
    }
  }

  lemma OneMoreCall<Op, St, An, Re, Cl>(
      p: Protocol<Op, St, An, Re, Cl>, cl: Cl, st: St, log: seq<Call<Op, An, Re>>, call: Call<Op, An, Re>)
    requires Honest(p, cl, st, log) && Next(p, Known(p, cl, log), Reached(p, st, log), call)
    ensures Honest(p, cl, st, log + [call])
    ensures Known(p, cl, log + [call]) == p.advance(Known(p, cl, log), call.op, call.result)
    ensures Reached(p, st, log + [call]) == p.serve(Reached(p, st, log), call.op, call.answer).state
  {
    assert (log + [call])[..|log|] == log;
  }

  lemma CallHappens<Op(!new), St(!new), An(!new), Re(!new), Cl(!new)>(
      p: Protocol<Op, St, An, Re, Cl>, st0: St, s: System<Op, St, An, Re, Cl>, call: Call<Op, An, Re>)
      returns (run: seq<Step<Op, An>>, s': System<Op, St, An, Re, Cl>)
    requires WellMatched(p) && Inv(p, st0, s) && s.client.Idle? && Next(p, s.cl, s.st, call)
    ensures Reaches(p, s, run, s') && Inv(p, st0, s')
    ensures s'.client.Idle? && s'.log == s.log + [call]
    ensures s'.st == p.serve(s.st, call.op, call.answer).state && s'.cl == p.advance(s.cl, call.op, call.result)
  {
    var t := After(p, s, Begin(call.op));
    StepKeepsInv(p, st0, s, Begin(call.op));
    var end := p.serve(s.st, call.op, call.answer).state;
    assert Ends(p, t, call.op, call.answer, call.result, end);
    run, s' := CallCompletes(p, st0, t, call.op, call.answer, call.result, end);
    run := [Begin(call.op)] + run;
  }

  /** Whatever an honest client can do, it does in some run of the two processes. */
  lemma {:induction false} HistoriesHappen<Op(!new), St(!new), An(!new), Re(!new), Cl(!new)>(
      p: Protocol<Op, St, An, Re, Cl>, s0: System<Op, St, An, Re, Cl>, log: seq<Call<Op, An, Re>>)
      returns (run: seq<Step<Op, An>>, s: System<Op, St, An, Re, Cl>)
    requires WellMatched(p) && Initial(p, s0) && Honest(p, s0.cl, s0.st, log)
    ensures Reaches(p, s0, run, s) && Inv(p, s0.st, s)
    ensures s.client.Idle? && s.log == log && s.cl == Known(p, s0.cl, log) && s.st == Reached(p, s0.st, log)
  {
    if log == [] {
      run, s := [], s0;
    } else {
      hide WellMatched, Inv, Reaches, Initial;
      var before, call := log[..|log| - 1], log[|log| - 1];
      run, s := HistoriesHappen(p, s0, before);
      var more, s' := CallHappens(p, s0.st, s, call);
      ReachesTrans(p, s0, run, s, more, s');
      assert log == before + [call];
      run, s := run + more, s';
    }
  }

  /** And between two calls of any run, client and server are where the calls lead to. */
  lemma ServerFollows<Op(!new), St(!new), An(!new), Re(!new), Cl(!new)>(
      p: Protocol<Op, St, An, Re, Cl>, s0: System<Op, St, An, Re, Cl>, run: seq<Step<Op, An>>,
      s: System<Op, St, An, Re, Cl>)
    requires WellMatched(p) && Initial(p, s0) && Reaches(p, s0, run, s) && s.client.Idle?
    ensures s.st == Reached(p, s0.st, s.log) && s.cl == Known(p, s0.cl, s.log)
  {
    LockStep(p, s0, run, s);
    DirectEnds(p, s0.st, s.log, s.st);
    KnowledgeFollows(p, s0.cl, s0, run, s);
  }

  lemma {:induction false} DirectEnds<Op, St, An, Re, Cl>(
      p: Protocol<Op, St, An, Re, Cl>, st: St, log: seq<Call<Op, An, Re>>, end: St)
    requires Direct(p, st, log, end)
    ensures end == Reached(p, st, log)
  {
    if log != [] {
      var mid := DirectLast(p, st, log, end);
      DirectEnds(p, st, log[..|log| - 1], mid);
    }
  }

  lemma {:induction false} KnowledgeFollows<Op, St, An, Re, Cl>(
      p: Protocol<Op, St, An, Re, Cl>, cl: Cl, s0: System<Op, St, An, Re, Cl>, run: seq<Step<Op, An>>,
      s: System<Op, St, An, Re, Cl>)
    requires s0.cl == Known(p, cl, s0.log) && Reaches(p, s0, run, s)
    ensures s.cl == Known(p, cl, s.log)
    decreases |run|
  {
    if run != [] {
      StepFollows(p, cl, s0, run[0]);
      KnowledgeFollows(p, cl, After(p, s0, run[0]), run[1..], s);
    }
  }

  lemma StepFollows<Op, St, An, Re, Cl>(
      p: Protocol<Op, St, An, Re, Cl>, cl: Cl, s: System<Op, St, An, Re, Cl>, step: Step<Op, An>)
    requires s.cl == Known(p, cl, s.log) && Enabled(p, s, step)
    ensures After(p, s, step).cl == Known(p, cl, After(p, s, step).log)
  {
    if step.ClientReads? {
      var r := p.result(s.client.op, s.client.got + [s.down[0]]);
      assert (s.log + [Call(s.client.op, s.answer, r)])[..|s.log|] == s.log;
    }
  }
}
