/**
The privileged operations of a session after login (`privops.c`): the listening socket of
passive mode, connections from and to the client, and the ownership of uploads. `Perform`
says what each operation does, given what the operating system answers; the methods are the
operations as written, and each is shown to do what `Perform` says for some possible answer.
*/
module Privops {
  import opened Common
  import opened PasvPort
  import opened PrivSock
  import opened Process

  type Ip = seq<Byte>
  type Port = p: int | 0 <= p <= TOP_PORT
  datatype Endpoint = Endpoint(ip: Ip, port: Port)

  /** `remote` is the peer of the control connection; the user ids are -1 when unset. */
  datatype Config = Config(
    remote: Ip, pasvMinPort: Tunable, pasvMaxPort: Tunable, pasvPromiscuous: bool,
    chownUploads: bool, chownUid: int, anonUid: int, guestUid: int)

  datatype Socket = Unbound | Bound(port: Port) | Listening(port: Port) | Connected(to: Endpoint) | Accepted(from: Ip)

  /** `listenFd` is `pasv_listen_fd`, or -1; `sockets` are the open sockets of the process
      and `chowned` the files given away so far. */
  datatype State = State(listenFd: int, sockets: map<int, Socket>, chowned: seq<int>)

  datatype Op =
    | GetDataSock(to: Endpoint)
    | PasvCleanup
    | PasvActive
    | PasvListen
    | PasvAccept
    | Chown(fd: Int32)

  datatype Result = Done | Active(flag: bool) | Opened(port: Port) | Sock(fd: Int32)

  /** What the operating system made of an operation. */
  datatype Answer =
    | Nothing
    | NoSocket
    | Failed
    | NewListener(fd: Int32, port: Port)
    | NewConnection(fd: Int32, from: Ip)
    | NoConnection
    | Owner(uid: int, regular: bool)

  function Perform(cfg: Config, st: State, op: Op, a: Answer): Outcome<State, Result> {
    match op
    case GetDataSock(to) =>
      if a.NoSocket? then Died
      else if st.listenFd != -1 then Trapped
      else if to.port < IPPORT_RESERVED || a.Failed? then Died
      else if a.NewConnection? then Served(st.(sockets := st.sockets[a.fd := Connected(to)]), Sock(a.fd))
      else Served(st, Sock(-1))
    case PasvCleanup =>
      Served(if st.listenFd != -1 then st.(listenFd := -1, sockets := st.sockets - {st.listenFd}) else st, Done)
    case PasvActive => Served(st, Active(st.listenFd != -1))
    case PasvListen =>
      if st.listenFd != -1 then Trapped
      else if a.NewListener? then
        Served(st.(listenFd := a.fd, sockets := st.sockets[a.fd := Listening(a.port)]), Opened(a.port))
      else Died
    case PasvAccept =>
      if st.listenFd == -1 then Trapped
      else if !a.NewConnection? then Served(st, Sock(-1))
      else if !cfg.pasvPromiscuous && a.from != cfg.remote then Served(st, Sock(-2))
      else Served(st.(sockets := st.sockets[a.fd := Accepted(a.from)]), Sock(a.fd))
    case Chown(fd) =>
      if a.Owner? && a.uid == cfg.chownUid then Served(st, Done)
      else if a.Owner? && cfg.chownUid != -1 && a.regular && (a.uid == cfg.anonUid || a.uid == cfg.guestUid) then
        Served(st.(chowned := st.chowned + [fd]), Done)
      else Died
  }

  /** The operating system hands out descriptors that are not in use. */
  predicate Fresh(st: State, fd: Int32) {
    fd >= 0 && fd !in st.sockets
  }

  predicate Possible(cfg: Config, st: State, op: Op, a: Answer) {
    match op
    case GetDataSock(to) =>
      a.NoSocket? || a.Failed? || a.NoConnection? || (a.NewConnection? && Fresh(st, a.fd) && a.from == to.ip)
    case PasvListen =>
      || a.Failed?
      || (a.NewListener? && Fresh(st, a.fd)
          && MinPort(cfg.pasvMinPort) <= a.port <= MaxPort(cfg.pasvMinPort, cfg.pasvMaxPort))
    case PasvAccept => a.NoConnection? || (a.NewConnection? && Fresh(st, a.fd))
    case Chown(_) => a.Owner?
    case _ => a.Nothing?
  }

  /** A listening socket is open and listens. */
  predicate WellFormed(st: State) {
    st.listenFd != -1 ==> st.listenFd >= 0 && st.listenFd in st.sockets && st.sockets[st.listenFd].Listening?
  }

  lemma PerformKeepsWellFormed(cfg: Config, st: State, op: Op, a: Answer)
    requires WellFormed(st) && Possible(cfg, st, op, a) && Perform(cfg, st, op, a).Served?
    ensures WellFormed(Perform(cfg, st, op, a).state)
  {
  }

  /** The client: the peer of the control connection, or anybody with `pasv_promiscuous`. */
  predicate IsClient(cfg: Config, from: Ip) {
    cfg.pasvPromiscuous || from == cfg.remote
  }

  /** A file that may be given away: a regular one of the anonymous or the guest user. */
  predicate MayGive(cfg: Config, uid: int, regular: bool) {
    cfg.chownUid != -1 && regular && uid in {cfg.anonUid, cfg.guestUid}
  }

  /** Every connection that came in is from the client. */
  ghost predicate FromClient(cfg: Config, st: State) {
    forall fd :: fd in st.sockets && st.sockets[fd].Accepted? ==> IsClient(cfg, st.sockets[fd].from)
  }

  /** No operation lets a stranger in: a connection of one is refused, and leaves nothing behind. */
  lemma StrangersAreRefused(cfg: Config, st: State, op: Op, a: Answer)
    requires FromClient(cfg, st) && Perform(cfg, st, op, a).Served?
    ensures FromClient(cfg, Perform(cfg, st, op, a).state)
    ensures op.PasvAccept? && a.NewConnection? && !IsClient(cfg, a.from) ==>
      Perform(cfg, st, op, a) == Served(st, Sock(-2))
  {
  }

  /** What a call that returned says about the answer that it got: a connection that came in is the
      client's, one that went out goes where it should and not to a reserved port, and an upload is
      given away only as it should be, if it is not the new owner's already. */
  predicate Rightful(cfg: Config, op: Op, a: Answer, r: Result) {
    match op
    case PasvAccept =>
      r.Sock? && (a.NewConnection? && IsClient(cfg, a.from) <==> r.fd >= 0) && (r.fd >= 0 ==> a.fd == r.fd)
    case GetDataSock(to) =>
      r.Sock? && to.port >= IPPORT_RESERVED && (r.fd >= 0 ==> a == NewConnection(r.fd, to.ip))
    case Chown(_) => a.Owner? && (a.uid == cfg.chownUid || MayGive(cfg, a.uid, a.regular))
    case PasvListen => a.NewListener? && r == Opened(a.port)
    case _ => true
  }

  lemma CallsAreRightful(cfg: Config, st: State, op: Op, a: Answer)
    requires Possible(cfg, st, op, a) && Perform(cfg, st, op, a).Served?
    ensures Rightful(cfg, op, a, Perform(cfg, st, op, a).result)
  {
  }

  /** A method that ended with this status, result and state did what the outcome says. */
  ghost predicate Shows(o: Outcome<State, Result>, status: Status, r: Result, st: State) {
    match o
    case Served(st', r') => status == Running && r == r' && st == st'
    case Died => status == Die
    case Trapped => status == Bug
  }

  class Privileged {
    const cfg: Config
    var listenFd: int
    var sockets: map<int, Socket>
    var chowned: seq<int>

    ghost function St(): State
      reads this
    {
      State(listenFd, sockets, chowned)
    }

    constructor (cfg: Config)
      ensures this.cfg == cfg && St() == State(-1, map[], [])
    {
      this.cfg := cfg;
      listenFd, sockets, chowned := -1, map[], [];
    }

    // ----- the operating system

    /** A random byte. */
    method RandomByte() returns (b: Byte)
    {
      b := *;
    }

    /** `vsf_sysutil_get_ipv4_sock` and `vsf_sysutil_get_ipv6_sock`. */
    method GetSock() returns (status: Status, fd: Int32)
      modifies `sockets
      ensures status == Running ==> fd >= 0 && fd !in old(sockets) && sockets == old(sockets)[fd := Unbound]
      ensures status != Running ==> status == Die && sockets == old(sockets)
    {
      var x: Int32 := *;
      if x < 0 || x in sockets { return Die, -1; }
      sockets := sockets[x := Unbound];
      return Running, x;
    }

    method Bind(fd: Int32, port: Port) returns (ok: bool)
      requires fd in sockets
      modifies `sockets
      ensures sockets == if ok then old(sockets)[fd := Bound(port)] else old(sockets)
    {
      ok := *;
      if ok { sockets := sockets[fd := Bound(port)]; }
    }

    method Listen(fd: Int32) returns (ok: bool)
      requires fd in sockets && sockets[fd].Bound?
      modifies `sockets
      ensures sockets == if ok then old(sockets)[fd := Listening(old(sockets)[fd].port)] else old(sockets)
    {
      ok := *;
      if ok { sockets := sockets[fd := Listening(sockets[fd].port)]; }
    }

    method Close(fd: int)
      requires fd in sockets
      modifies `sockets
      ensures sockets == old(sockets) - {fd}
    {
      sockets := sockets - {fd};
    }

    // ----- the operations

    /** `vsf_privop_pasv_cleanup`. */
    method DoPasvCleanup()
      requires WellFormed(St())
      modifies this
      ensures listenFd == -1 && chowned == old(chowned)
      ensures sockets == if old(listenFd) == -1 then old(sockets) else old(sockets - {listenFd})
      ensures Shows(Perform(cfg, old(St()), PasvCleanup, Nothing), Running, Done, St())
    {
      if listenFd != -1 {
        Close(listenFd);
        listenFd := -1;
      }
    }

    /** `vsf_privop_pasv_active`. */
    method DoPasvActive() returns (active: bool)
      ensures Shows(Perform(cfg, St(), PasvActive, Nothing), Running, Active(active), St())
    {
      if listenFd != -1 { return true; }
      return false;
    }

    /** `vsf_privop_pasv_listen`: nine tries, if the address is `taken` each time; only another
        failure ends it earlier. The port that is reported is the one that the new socket listens on,
        and the sockets that failed before it are closed. */
    method DoPasvListen()
        returns (status: Status, thePort: Port, ghost a: Answer, ghost taken: nat, ghost broken: bool)
      modifies this
      ensures status == Bug <==> old(listenFd) != -1
      ensures status == Die <==> taken == 9 || broken
      ensures taken <= 9 && (status == Bug ==> taken == 0)
      ensures status == Running ==>
        && listenFd in sockets && listenFd !in old(sockets)
        && sockets[listenFd] == Listening(thePort) && sockets - {listenFd} == old(sockets)
        && MinPort(cfg.pasvMinPort) <= thePort <= MaxPort(cfg.pasvMinPort, cfg.pasvMaxPort)
      ensures Possible(cfg, old(St()), PasvListen, a)
      ensures Shows(Perform(cfg, old(St()), PasvListen, a), status, Opened(thePort), St())
    {
      thePort, a, taken, broken := 0, Failed, 0, false;
      if listenFd != -1 { return Bug, thePort, a, taken, broken; }
      var minPort, maxPort := IPPORT_RESERVED, TOP_PORT;
      if cfg.pasvMinPort > minPort && cfg.pasvMinPort <= maxPort { minPort := cfg.pasvMinPort; }
      if cfg.pasvMaxPort >= minPort && cfg.pasvMaxPort < maxPort { maxPort := cfg.pasvMaxPort; }
      var bindRetries := 9;
      while bindRetries > 0
        invariant 0 <= bindRetries && taken == 9 - bindRetries && !broken && St() == old(St())
      {
        var hi: int := RandomByte();
        var lo: int := RandomByte();
        DrawInRange(minPort, maxPort, hi * 256 + lo);
        thePort := Draw(minPort, maxPort, hi * 256 + lo);
        var fd;
        status, fd := GetSock();
        if status != Running { return status, thePort, Failed, taken, true; }
        listenFd := fd;
        var ok := Bind(fd, thePort);
        if ok {
          ok := Listen(fd);
          if ok {
            a := NewListener(fd, thePort);
            return Running, thePort, a, taken, broken;
          }
        }
        var addressTaken: bool := *;
        if !addressTaken { return Die, thePort, Failed, taken, true; }
        taken := taken + 1;
        Close(fd);
        listenFd := -1;
        assert sockets == old(sockets);
        bindRetries := bindRetries - 1;
      }
      return Die, thePort, Failed, taken, broken;
    }

    /** `vsf_privop_get_ftp_port_sock`, connecting to `to`. */
    method DoGetDataSock(to: Endpoint) returns (status: Status, s: Int32, ghost a: Answer)
      modifies this
      ensures status == Bug <==> !a.NoSocket? && old(listenFd) != -1
      ensures status == Running ==> to.port >= IPPORT_RESERVED && listenFd == old(listenFd) && chowned == old(chowned)
      ensures status == Running && s >= 0 ==> s !in old(sockets) && sockets == old(sockets)[s := Connected(to)]
      ensures status == Running && s < 0 ==> s == -1 && a.NoConnection? && sockets == old(sockets)
      ensures Possible(cfg, old(St()), GetDataSock(to), a)
      ensures Shows(Perform(cfg, old(St()), GetDataSock(to), a), status, Sock(s), St())
    {
      a := NoSocket;
      status, s := GetSock();
      if status != Running { return; }
      a := Failed;
      if listenFd != -1 { return Bug, s, a; }
      if to.port < IPPORT_RESERVED { return Die, s, a; }
      var local: Port := *;
      for i := 0 to 2
        invariant s >= 0 && s in sockets && s !in old(sockets)
        invariant St() == old(St()).(sockets := old(sockets)[s := sockets[s]])
      {
        var ok := Bind(s, local);
        if ok { break; }
        var inUse: bool := *;
        if !inUse || i == 1 { return Die, s, a; }
      }
      var connected: bool := *;
      if connected {
        sockets := sockets[s := Connected(to)];
        return Running, s, NewConnection(s, to.ip);
      }
      Close(s);
      assert sockets == old(sockets);
      return Running, -1, NoConnection;
    }

    /** `vsf_privop_accept_pasv`. */
    method DoPasvAccept() returns (status: Status, remoteFd: Int32, ghost a: Answer)
      modifies this
      ensures status == if old(listenFd) == -1 then Bug else Running
      ensures listenFd == old(listenFd) && chowned == old(chowned)
      ensures remoteFd >= 0 ==>
        && a.NewConnection? && remoteFd !in old(sockets) && sockets == old(sockets)[remoteFd := Accepted(a.from)]
        && (!cfg.pasvPromiscuous ==> a.from == cfg.remote)
      ensures remoteFd < 0 ==> sockets == old(sockets)
      ensures status == Running && a.NewConnection? && !cfg.pasvPromiscuous && a.from != cfg.remote ==> remoteFd == -2
      ensures status == Running && a.NewConnection? && (cfg.pasvPromiscuous || a.from == cfg.remote) ==> remoteFd >= 0
      ensures status == Running && !a.NewConnection? ==> remoteFd == -1
      ensures Possible(cfg, old(St()), PasvAccept, a)
      ensures Shows(Perform(cfg, old(St()), PasvAccept, a), status, Sock(remoteFd), St())
    {
      a := NoConnection;
      if listenFd == -1 { return Bug, -1, a; }
      var from: Ip := *;
      status, remoteFd := GetSock();
      if status != Running { return Running, -1, a; }
      sockets := sockets[remoteFd := Accepted(from)];
      a := NewConnection(remoteFd, from);
      if !cfg.pasvPromiscuous {
        if from != cfg.remote {
          Close(remoteFd);
          assert sockets == old(sockets);
          return Running, -2, a;
        }
      }
    }

    /** `vsf_privop_do_file_chown`. */
    method DoChown(fd: Int32) returns (status: Status, ghost a: Answer)
      modifies this
      ensures listenFd == old(listenFd) && sockets == old(sockets) && a.Owner?
      ensures status == if a.uid == cfg.chownUid || MayGive(cfg, a.uid, a.regular) then Running else Die
      ensures chowned ==
        if a.uid != cfg.chownUid && MayGive(cfg, a.uid, a.regular) then old(chowned) + [fd] else old(chowned)
      ensures Possible(cfg, old(St()), Chown(fd), a)
      ensures Shows(Perform(cfg, old(St()), Chown(fd), a), status, Done, St())
    {
      var uid: int := *;
      var regular: bool := *;
      a := Owner(uid, regular);
      if uid == cfg.chownUid { return Running, a; }
      if cfg.chownUid == -1 || !regular || (uid != cfg.anonUid && uid != cfg.guestUid) { return Die, a; }
      chowned := chowned + [fd];
      return Running, a;
    }
  }

  /** Clean-up undoes a listen, whatever the operating system answered. */
  lemma CleanupUndoesListen(cfg: Config, st: State, a: Answer, b: Answer)
    requires Possible(cfg, st, PasvListen, a) && Perform(cfg, st, PasvListen, a).Served?
    ensures Perform(cfg, Perform(cfg, st, PasvListen, a).state, PasvCleanup, b) == Served(st, Done)
  {
    var fd := a.fd;
    assert st.sockets[fd := Listening(a.port)] - {fd} == st.sockets;
  }
}
