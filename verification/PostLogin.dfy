/**
A session after login (`postlogin.c`, `ftpdataio.c`, `logging.c`): the commands that set up,
use and tear down data connections, those that change files, and those that write the transfer
log. What the client and the network do is arbitrary, and so is the sequence of commands; the file
system may refuse anything, but only the session changes it.

Every check that the code ends with `bug()`, and every `die()` that guards a state held to be
impossible, ends in the status `Bug`. The theorem is that no session ever gets there. The
privileged operations are called directly, and noted: what a session asks for is a history of
`Broker`, so with two processes it gets the same from the parent. So are the requests to the TLS
helper, if there is one (`sslSlave`): they are a history of `SslHelper`. `dataSsl` stands for a TLS
object on the data connection, in this process or in the helper.
*/
module PostLogin {
  import Broker
  import opened Ascii
  import opened Commands
  import opened Common
  import opened Decimal
  import opened Eprt
  import opened Files
  import opened IpAddrParse
  import Lockstep
  import opened PasvPort
  import opened PrivSock
  import opened Privops
  import opened Process
  import SslHelper
  import opened TransferLog

  // ----- PASV and PORT at once

  datatype Activity = Yes | No | BugCalled | OutOfFuel

  /** `pasv_active` and `port_active`, which call each other, with a bound on the depth. */
  function PasvActiveWithin(listening: bool, port: bool, depth: nat): Activity {
    if depth == 0 then OutOfFuel
    else if !listening then No
    else match PortActiveWithin(listening, port, depth - 1)
      case Yes => BugCalled
      case No => Yes
      case other => other
  }

  function PortActiveWithin(listening: bool, port: bool, depth: nat): Activity {
    if depth == 0 then OutOfFuel
    else if !port then No
    else match PasvActiveWithin(listening, port, depth - 1)
      case Yes => BugCalled
      case No => Yes
      case other => other
  }

  /** The two functions return, at any depth from two on and with the right answer, if and only
      if not both modes are active. With both active neither returns at any depth, so the calls
      to `bug` in them are never reached. */
  lemma {:induction false} ActiveReturnsUnlessBoth(listening: bool, port: bool, depth: nat)
    ensures depth >= 2 && !(listening && port) ==>
      && PasvActiveWithin(listening, port, depth) == (if listening then Yes else No)
      && PortActiveWithin(listening, port, depth) == (if port then Yes else No)
    ensures listening && port ==>
      PasvActiveWithin(listening, port, depth) == OutOfFuel && PortActiveWithin(listening, port, depth) == OutOfFuel
  {
    if depth > 0 { ActiveReturnsUnlessBoth(listening, port, depth - 1); }
  }

  // ----- what becomes of a transfer

  /** What can go wrong with it: the connection, the local file, the end of TLS. */
  datatype Fault = Network | Local | Unclean

  /** The bytes that were to be moved and those that were, all that went wrong, and whether an ABOR
      or a timeout had come by the end. */
  datatype Report = Report(wanted: seq<Byte>, moved: seq<Byte>, faults: set<Fault>, stopped: bool)

  const NO_TRANSFER := Report([], [], {Network}, false)

  predicate Complete(r: Report) {
    r.faults == {} && !r.stopped
  }

  /** The bytes of a file from a position on, which may be behind its end. */
  function From(content: seq<Byte>, offset: nat): seq<Byte> {
    if offset <= |content| then content[offset..] else []
  }

  /** What is sent of them. */
  function Outgoing(bytes: seq<Byte>, ascii: bool): seq<Byte> {
    if ascii then ToAscii(bytes, false) else bytes
  }

  lemma OutgoingGrows(done: seq<Byte>, chunk: seq<Byte>, ascii: bool)
    ensures Outgoing(done + chunk, ascii) ==
      Outgoing(done, ascii) + (if ascii then ToAscii(chunk, EndsInCr(done, false)) else chunk)
    ensures EndsInCr(done + chunk, false) == EndsInCr(chunk, EndsInCr(done, false))
  {
    ToAsciiConcat(done, chunk, false);
    hide ToAscii;
    if chunk == [] {
      assert done + chunk == done;
    } else {
      assert (done + chunk)[|done| + |chunk| - 1] == chunk[|chunk| - 1];
    }
  }

  lemma NothingOutgoing(ascii: bool)
    ensures Outgoing([], ascii) == [] && !EndsInCr([], false)
  {
  }

  /** The trace of an upload: the name of its file, whether that was made or opened, whether it could
      be removed again, and the transfer. */
  datatype Trace = Trace(target: Name, made: bool, unlinkable: bool, report: Report)

  class Session {
    const cfg: Settings
    const access: Access
    const priv: Privileged
    /** `p_port_sockaddr`. */
    var portSockaddr: Option<Endpoint>
    var epsvAll: bool
    var restartPos: nat
    var isAscii: bool
    /** `rnfr_filename_str`: empty for none. */
    var rnfr: Name
    var dataFd: Int32
    var ioHandler: bool
    var dataUseSsl: bool
    var dataSsl: bool
    var aborReceived: bool
    var dataTimeout: bool
    /** `log_type`. */
    var logType: Option<Entry>
    var journal: seq<LogEvent>
    /** The local files and directories that are open. */
    var open: set<int>
    /** The files and directories that there are. */
    var tree: Tree
    /** The calls made to the privileged side so far. */
    ghost var calls: Broker.History
    /** The requests made to the helper so far. */
    ghost var asked: SslHelper.History
    /** What has gone wrong with the transfer under way. */
    ghost var faults: set<Fault>
    /** How many uploads have been given to another owner, or were his already. */
    ghost var given: nat

    // ----- what holds at all times

    /** The calls are those of an honest child, and have led to the listening socket there is. */
    ghost predicate Asked()
      reads `calls, priv
    {
      && priv.cfg == cfg.priv
      && WellFormed(priv.St())
      && Broker.Honest(cfg.priv, calls)
      && Broker.ParentAfter(cfg.priv, calls).listenFd == priv.listenFd
    }

    /** Active and passive mode are never set up at once, nor either if the settings forbid it, and a
        port to connect to has passed the checks of its command. */
    ghost predicate Modes()
      reads `portSockaddr, `calls, priv
    {
      && Asked()
      && (portSockaddr.None? || priv.listenFd == -1)
      && (!cfg.pasvEnable ==> priv.listenFd == -1)
      && (!cfg.portEnable ==> portSockaddr.None?)
      && (portSockaddr.Some? && !cfg.portPromiscuous ==>
            portSockaddr.value.ip == cfg.priv.remote && portSockaddr.value.port >= IPPORT_RESERVED)
    }

    /** At the other end of the data connection is the client, unless the settings let it be anybody. */
    ghost predicate ToClient()
      reads `dataFd, priv
    {
      dataFd != -1 ==>
        && dataFd in priv.sockets
        && match priv.sockets[dataFd]
           case Accepted(from) => cfg.priv.pasvPromiscuous || from == cfg.priv.remote
           case Connected(to) => cfg.portPromiscuous || to.ip == cfg.priv.remote
           case _ => false
    }

    /** The handler is installed exactly while there is a data connection; no socket is open
        but the listening one and that of the connection. */
    ghost predicate Wired()
      reads `dataFd, `ioHandler, `dataSsl, `dataUseSsl, priv
    {
      && ToClient()
      && ioHandler == (dataFd != -1)
      && (dataSsl ==> dataFd != -1 && dataUseSsl)
      && (dataFd != -1 ==> dataFd >= 0 && dataFd != priv.listenFd)
      && priv.sockets.Keys ==
         (if priv.listenFd != -1 then {priv.listenFd} else {}) + (if dataFd != -1 then {dataFd} else {})
    }

    /** The requests to the helper are those of an honest consumer, and it has a TLS object exactly
        when the session counts on one, for the same connection. */
    ghost predicate Helped()
      reads `asked, `dataSsl, `dataFd
    {
      cfg.sslSlave ==>
        && SslHelper.Honest(asked)
        && SslHelper.HelperAfter(asked) == if dataSsl then SslHelper.State(dataFd, true) else SslHelper.CLEAN
    }

    /** The log is in order up to the entry that is pending, if any. */
    ghost predicate Journaled()
      reads `logType, `journal
    {
      if logType.None? then WellLogged(journal)
      else
        && journal != []
        && journal[|journal| - 1] == Started(logType.value)
        && WellLogged(journal[..|journal| - 1])
    }

    ghost predicate Inv()
      reads `portSockaddr, `dataFd, `ioHandler, `dataSsl, `dataUseSsl, `logType, `journal, `calls, `asked, priv
    {
      Modes() && Wired() && Journaled() && Helped()
    }

    /** A name that RNFR has remembered may be used. */
    predicate Remembered()
      reads `rnfr
    {
      rnfr != [] ==> !access.denied(rnfr)
    }

    /** No transfer is under way and no local file is open. */
    ghost predicate Settled()
      reads `portSockaddr, `dataFd, `ioHandler, `dataSsl, `dataUseSsl, `logType, `journal, `open, `rnfr
      reads `calls, `asked, priv
    {
      Inv() && Remembered() && dataFd == -1 && open == {}
    }

    /** Between two commands nothing is left over. */
    ghost predicate Ready()
      reads `portSockaddr, `dataFd, `ioHandler, `dataSsl, `dataUseSsl, `logType, `journal, `open, `rnfr
      reads `calls, `asked, priv
    {
      Settled() && logType.None?
    }

    constructor (cfg: Settings, access: Access, tree: Tree)
      ensures this.cfg == cfg && this.access == access && this.tree == tree && Ready() && fresh(priv)
    {
      this.cfg, this.access := cfg, access;
      priv := new Privileged(cfg.priv);
      portSockaddr, epsvAll, restartPos, isAscii, rnfr := None, false, 0, false, [];
      dataFd, ioHandler, dataUseSsl, dataSsl := -1, false, *, false;
      aborReceived, dataTimeout, logType, journal, open := false, false, None, [], {};
      calls, asked, faults, given, this.tree := [], [], {}, 0, tree;
    }

    // ----- signals and replies

    /** What pending signals do when a system call lets them in: an urgent ABOR, or anything
        else that is urgent, and the alarm of a stalled transfer. An ABOR counts only during a transfer,
        and only if the settings let it come at any time. */
    method Async() returns (st: Status)
      modifies `aborReceived, `dataTimeout
      ensures st != Bug && (dataTimeout || !old(dataTimeout))
      ensures aborReceived ==> old(aborReceived) || (cfg.asyncAbor && !cfg.controlUseSsl && dataFd != -1)
    {
      var urgent: bool, hungUp: bool, abor: bool, alarm: bool, wrote: bool := *, *, *, *, *;
      if urgent && cfg.asyncAbor && !cfg.controlUseSsl && dataFd != -1 {
        if hungUp { return Exit; }
        if abor { aborReceived := true; } else if !wrote { return Die; }
      }
      if alarm { dataTimeout := true; }
      return Running;
    }

    /** Notes a request to the helper and its answer. */
    ghost method Ask(op: SslHelper.Op, a: SslHelper.Answer)
      requires cfg.sslSlave ==>
        && SslHelper.Honest(asked) && SslHelper.Possible(op, a)
        && SslHelper.Permitted(SslHelper.Attached(SslHelper.HelperAfter(asked)), op)
      modifies `asked
      ensures cfg.sslSlave ==>
        var o := SslHelper.Serve(old(SslHelper.HelperAfter(asked)), op, a);
        && o.Served? && SslHelper.Honest(asked) && SslHelper.HelperAfter(asked) == o.state
        && asked == old(asked) + [Lockstep.Call(op, a, o.result)]
      ensures !cfg.sslSlave ==> asked == old(asked)
    {
      if cfg.sslSlave {
        var o := SslHelper.Serve(SslHelper.HelperAfter(asked), op, a);
        SslHelper.HonestStep(asked, op, a);
        asked := asked + [Lockstep.Call(op, a, o.result)];
      }
    }

    /** A request that is about the control connection, or reads or writes on the secured data
        connection, leaves the helper as it is. */
    ghost method AskKept(op: SslHelper.Op, a: SslHelper.Answer)
      requires Helped() && SslHelper.Possible(op, a)
      requires op.GetUserCmd? || op.WriteUserResp? || (dataSsl && dataFd != -1 && SslHelper.Permitted(true, op))
      requires !op.Handshake? && !op.Close?
      modifies `asked
      ensures Helped()
    {
      Ask(op, a);
    }

    /** A reply on the control connection. */
    method WriteControl() returns (ok: bool)
      requires Helped()
      modifies `asked
      ensures Helped()
    {
      hide Session.Helped;
      ok := *;
      if cfg.controlUseSsl {
        ghost var text: SslHelper.Text := *;
        AskKept(SslHelper.WriteUserResp(text), SslHelper.Returned(if ok then 0 else -1));
      }
    }

    /** `vsf_cmdio_write`. */
    method Reply() returns (st: Status)
      requires Helped()
      modifies `aborReceived, `dataTimeout, `asked
      ensures Helped() && st != Bug
      ensures aborReceived ==> old(aborReceived) || (cfg.asyncAbor && !cfg.controlUseSsl && dataFd != -1)
    {
      hide Session.Helped;
      st := Async();
      if st != Running { return; }
      var wrote := WriteControl();
      if !wrote { st := Die; }
    }

    /** `vsf_cmdio_write_exit`. */
    method ReplyExit() returns (st: Status)
      requires Helped()
      modifies `aborReceived, `dataTimeout, `asked
      ensures Helped() && (st == Die || st == Exit)
    {
      st := Reply();
      if st == Running { st := Exit; }
    }

    // ----- the log

    /** `vsf_log_start_entry`. */
    method StartEntry(entry: Entry) returns (st: Status)
      requires Journaled()
      modifies `logType, `journal
      ensures if old(logType).Some? then st == Bug
              else st == Running && Journaled() && logType == Some(entry) && journal == old(journal) + [Started(entry)]
    {
      if logType.Some? { return Bug; }
      logType := Some(entry);
      journal := journal + [Started(entry)];
      assert journal[..|journal| - 1] == old(journal);
      return Running;
    }

    /** `vsf_log_do_log`. */
    method DoLog(succeeded: bool)
      requires Journaled() && logType.Some?
      modifies `logType, `journal
      ensures Journaled() && logType.None? && journal == old(journal) + [Recorded(old(logType).value, succeeded)]
    {
      journal := journal + [Recorded(logType.value, succeeded)];
      logType := None;
      assert journal[..|journal| - 2] == old(journal[..|journal| - 1]);
    }

    /** `vsf_log_clear_entry`, as used for a download. */
    method ClearEntry()
      requires Journaled() && logType == Some(Download)
      modifies `logType, `journal
      ensures Journaled() && logType.None? && journal == old(journal) + [Dropped(Download)]
    {
      journal := journal + [Dropped(Download)];
      logType := None;
      assert journal[..|journal| - 2] == old(journal[..|journal| - 1]);
    }

    // ----- local files

    /** Opening a file or a directory: -1 if that fails. */
    method OpenFile() returns (fd: Int32)
      modifies `open
      ensures fd == -1 ==> open == old(open)
      ensures fd != -1 ==> fd >= 0 && fd !in old(open) && open == old(open) + {fd}
    {
      fd := *;
      if fd < 0 || fd in open { return -1; }
      open := open + {fd};
    }

    /** `str_create` and `str_create_exclusive`: a file that is not there is created. */
    method CreateFile(name: Name, exclusive: bool) returns (fd: Int32)
      modifies `open, `tree
      ensures fd == -1 ==> open == old(open) && tree == old(tree)
      ensures fd != -1 ==>
        && fd >= 0 && fd !in old(open) && open == old(open) + {fd}
        && (name in old(tree) ==> !exclusive && old(tree)[name].File?)
        && tree == old(tree)[name := File(ContentAt(old(tree), name))]
    {
      if name in tree && (exclusive || tree[name].Dir?) { return -1; }
      fd := OpenFile();
      if fd != -1 { tree := tree[name := File(ContentAt(tree, name))]; }
    }

    /** A read of a local file of which `rest` is left. */
    method ReadLocal(rest: seq<Byte>, size: nat) returns (ok: bool, chunk: seq<Byte>)
      requires size > 0
      modifies `faults
      ensures faults == old(faults) + if ok then {} else {Local}
      ensures ok ==> chunk <= rest && |chunk| <= size && (chunk == [] <==> rest == [])
    {
      ok := *;
      if !ok {
        faults := faults + {Local};
        return ok, [];
      }
      var n :| 0 < n <= size;
      chunk := if n <= |rest| then rest[..n] else rest;
    }

    /** `vsf_sysutil_write_loop` to a local file. */
    method WriteLocal(data: seq<Byte>) returns (n: nat)
      modifies `faults
      ensures n <= |data| && faults == old(faults) + if n == |data| then {} else {Local}
    {
      n :| 0 <= n <= |data|;
      if n != |data| { faults := faults + {Local}; }
    }

    /** Closing what is not open is a trap. */
    method CloseFile(fd: int) returns (st: Status)
      modifies `open
      ensures if fd in old(open) then st == Running && open == old(open) - {fd} else st == Bug
    {
      if fd !in open { return Bug; }
      open := open - {fd};
      return Running;
    }

    // ----- modes

    /** Notes a call that was made on the state `one` of the privileged side. */
    ghost method Note(one: State, op: Op, a: Answer, r: Result)
      requires priv.cfg == cfg.priv && WellFormed(one) && WellFormed(priv.St())
      requires Broker.Honest(cfg.priv, calls) && Broker.ParentAfter(cfg.priv, calls).listenFd == one.listenFd
      requires Broker.Permitted(cfg.priv, one.listenFd != -1, op) && Possible(cfg.priv, one, op, a)
      requires Perform(cfg.priv, one, op, a) == Served(priv.St(), r)
      modifies `calls
      ensures Asked() && calls == old(calls) + [Lockstep.Call(op, a, r)]
    {
      Broker.HonestStep(cfg.priv, calls, one, Lockstep.Call(op, a, r));
      calls := calls + [Lockstep.Call(op, a, r)];
    }

    /** `pasv_active`. */
    method PasvActive() returns (st: Status, active: bool)
      requires Modes()
      modifies `calls
      ensures Modes() && st == Running && active == (priv.listenFd != -1)
      decreases priv.listenFd != -1
    {
      st := Running;
      active := priv.DoPasvActive();
      Note(priv.St(), Op.PasvActive, Nothing, Active(active));
      if active {
        var both;
        st, both := PortActive();
        if both { st := Bug; }
      }
    }

    /** `port_active`. */
    method PortActive() returns (st: Status, active: bool)
      requires Modes()
      modifies `calls
      ensures Modes() && st == Running && active == portSockaddr.Some?
      decreases portSockaddr.Some?
    {
      st, active := Running, false;
      if portSockaddr.Some? {
        active := true;
        var both;
        st, both := PasvActive();
        if both { st := Bug; }
      }
    }

    /** `port_cleanup`. */
    method PortCleanup()
      modifies `portSockaddr
      ensures portSockaddr == None
    {
      portSockaddr := None;
    }

    /** `pasv_cleanup`. */
    method PasvCleanup()
      requires Modes() && Wired()
      modifies `calls, priv
      ensures Modes() && Wired() && priv.listenFd == -1
    {
      ghost var before := priv.St();
      priv.DoPasvCleanup();
      Note(before, Op.PasvCleanup, Nothing, Done);
    }

    /** The clean-up before PASV and PORT. */
    method ClearModes()
      requires Modes() && Wired()
      modifies `portSockaddr, `calls, priv
      ensures Modes() && Wired() && portSockaddr.None? && priv.listenFd == -1
    {
      PasvCleanup();
      PortCleanup();
    }

    /** The clean-up after a transfer, and before EPRT. */
    method CloseModes()
      requires Modes() && Wired()
      modifies `portSockaddr, `calls, priv
      ensures Modes() && Wired() && portSockaddr.None? && priv.listenFd == -1
    {
      PortCleanup();
      PasvCleanup();
    }

    /** The network protocols that EPSV can ask for: 1, and on an IPv6 address 2. */
    predicate Supported(n: int) {
      n == 1 || (n == 2 && cfg.isIpv6)
    }

    /** `vsf_one_process_listen` or `vsf_two_process_listen`. */
    method ListenPasv() returns (st: Status, thePort: Port)
      requires Modes() && Wired() && priv.listenFd == -1 && portSockaddr.None? && cfg.pasvEnable
      modifies `calls, priv
      ensures st != Bug
      ensures st == Running ==>
        && Modes() && Wired() && priv.listenFd != -1
        && priv.listenFd in priv.sockets && priv.sockets[priv.listenFd] == Listening(thePort)
    {
      ghost var a, taken, broken, before := Failed, 0, false, priv.St();
      st, thePort, a, taken, broken := priv.DoPasvListen();
      if st != Running { return; }
      Note(before, PasvListen, a, Opened(thePort));
      hide Broker.Honest, Broker.ParentAfter;
      assert priv.sockets.Keys - {priv.listenFd} == (priv.sockets - {priv.listenFd}).Keys;
    }

    /** `handle_pasv`. A port that is announced is the one being listened on. */
    method HandlePasv(isEpsv: bool, arg: EpsvArg) returns (st: Status, announced: Option<Port>)
      requires Ready() && cfg.pasvEnable
      modifies `epsvAll, `portSockaddr, `aborReceived, `dataTimeout, `asked, `calls, priv
      ensures st != Bug && (st == Running ==> Ready())
      ensures epsvAll == (old(epsvAll) || (isEpsv && arg.All?))
      ensures st == Running ==> (announced.Some? <==> !isEpsv || arg.NoArg? || (arg.Protocol? && Supported(arg.n)))
      ensures announced.None? && st == Running ==> portSockaddr == old(portSockaddr) && priv.St() == old(priv.St())
      ensures st == Running && announced.Some? ==>
        portSockaddr == None && priv.listenFd != -1 && priv.sockets[priv.listenFd] == Listening(announced.value)
    {
      hide WellLogged, WellFormed, Session.Journaled, Session.Helped, Session.Modes, Session.Wired;
      announced := None;
      if isEpsv && !arg.NoArg? {
        if arg.All? {
          epsvAll := true;
          st := Reply();
          return;
        }
        if arg.n < 1 || arg.n > 2 || (!cfg.isIpv6 && arg.n == 2) {
          st := Reply();
          return;
        }
      }
      ClearModes();
      var thePort;
      st, thePort := ListenPasv();
      if st != Running { return; }
      announced := Some(thePort);
      var goodAddress: bool := *;
      if !isEpsv && !goodAddress { st := Die; return; }
      st := Reply();
    }

    /** The last part of `handle_port` and `handle_eprt`: refuse an address that is not the
        client's, or a reserved port. */
    method SetPort(to: Endpoint) returns (st: Status)
      requires Ready() && cfg.portEnable && priv.listenFd == -1
      modifies `portSockaddr, `aborReceived, `dataTimeout, `asked
      ensures st != Bug && (st == Running ==> Ready())
      ensures st == Running ==> portSockaddr == KeptAddress(cfg, Some(to))
    {
      portSockaddr := Some(to);
      if !cfg.portPromiscuous {
        if to.ip != cfg.priv.remote || to.port < IPPORT_RESERVED {
          st := Reply();
          PortCleanup();
          return;
        }
      }
      st := Reply();
    }

    /** `handle_port`. */
    method HandlePort(text: seq<Byte>) returns (st: Status)
      requires Ready() && cfg.portEnable
      modifies `portSockaddr, `aborReceived, `dataTimeout, `asked, `calls, priv
      ensures st != Bug && (st == Running ==> Ready())
      ensures st == Running ==> priv.listenFd == -1 && portSockaddr == KeptAddress(cfg, PortNames(cfg.isIpv6, text))
    {
      hide Uchars, WellLogged, WellFormed;
      ClearModes();
      match PortNames(cfg.isIpv6, text) {
        case None => st := Reply();
        case Some(to) => st := SetPort(to);
      }
    }

    /** `handle_eprt`. */
    method HandleEprt(text: seq<Byte>) returns (st: Status)
      requires Ready() && cfg.portEnable
      modifies `portSockaddr, `aborReceived, `dataTimeout, `asked, `calls, priv
      ensures st != Bug && (st == Running ==> Ready())
      ensures EprtArgument(cfg.isIpv6, text).TooShort? ==> st == Die
      ensures st == Running ==>
        priv.listenFd == -1 && portSockaddr == KeptAddress(cfg, EprtNames(cfg.isIpv6, text))
    {
      hide EprtArgument, WellLogged, WellFormed, Session.Modes, Session.Wired, Session.Journaled, Session.Helped;
      CloseModes();
      var parsed := ParseEprt(cfg.isIpv6, text);
      match parsed {
        case TooShort => st := Die;
        case Named(ip, port) => st := SetPort(Endpoint(ip, port));
        case _ => st := Reply();
      }
    }

    /** A transfer can be made: one of the modes is on, and TLS is on for the data if it has to be. */
    predicate CanTransfer()
      reads `portSockaddr, `dataUseSsl, priv
    {
      && (portSockaddr.Some? || priv.listenFd != -1)
      && !(cfg.sslEnable && !dataUseSsl && (if cfg.isAnonymous then cfg.forceAnonDataSsl else cfg.forceLocalDataSsl))
    }

    /** If the settings force TLS on the data connections of the user, there is no transfer without. */
    lemma ForcedTlsIsOn()
      requires CanTransfer() && cfg.sslEnable
      requires (cfg.isAnonymous && cfg.forceAnonDataSsl) || (!cfg.isAnonymous && cfg.forceLocalDataSsl)
      ensures dataUseSsl
    {
    }

    /** `data_transfer_checks_ok`. */
    method DataTransferChecksOk() returns (st: Status, ok: bool)
      requires Modes() && Helped()
      modifies `aborReceived, `dataTimeout, `asked, `calls
      ensures Modes() && Helped() && st != Bug
      ensures ok == CanTransfer() && (ok ==> st == Running && (portSockaddr.Some? || priv.listenFd != -1))
    {
      var pasv, port;
      st, pasv := PasvActive();
      if !pasv {
        st, port := PortActive();
        if !port {
          st := Reply();
          return st, false;
        }
      }
      if cfg.sslEnable && !dataUseSsl &&
         ((cfg.forceLocalDataSsl && !cfg.isAnonymous) || (cfg.forceAnonDataSsl && cfg.isAnonymous)) {
        st := Reply();
        return st, false;
      }
      return Running, true;
    }

    // ----- data connections

    /** `init_data_sock_params`, with the registration of the handler. */
    method InitDataSockParams(fd: Int32) returns (st: Status)
      modifies `dataFd, `ioHandler
      ensures if old(dataFd) != -1 || old(ioHandler) then st == Bug
              else st == Running && dataFd == fd && ioHandler
    {
      if dataFd != -1 { return Bug; }
      dataFd := fd;
      if ioHandler { return Bug; }
      ioHandler := true;
      return Running;
    }

    /** `vsf_ftpdataio_get_pasv_fd`. */
    method GetPasvFd() returns (st: Status, remoteFd: Int32)
      requires Modes() && Wired() && Helped() && dataFd == -1 && priv.listenFd != -1
      modifies `dataFd, `ioHandler, `aborReceived, `dataTimeout, `asked, `calls, priv
      ensures st != Bug && (st == Running ==> Modes() && Wired() && Helped() && dataFd == remoteFd && !dataSsl)
    {
      ghost var a, before := NoConnection, priv.St();
      st, remoteFd, a := priv.DoPasvAccept();
      Note(before, PasvAccept, a, Sock(remoteFd));
      if remoteFd == -1 || remoteFd == -2 {
        remoteFd := -1;
        st := Reply();
        return;
      }
      st := InitDataSockParams(remoteFd);
    }

    /** `vsf_ftpdataio_get_port_fd`: the connection goes where the client said. With two processes
        it is the parent that makes it, unless any address is allowed; then it is the child. */
    method GetPortFd() returns (st: Status, remoteFd: Int32)
      requires Modes() && Wired() && Helped() && dataFd == -1 && portSockaddr.Some?
      modifies `dataFd, `ioHandler, `aborReceived, `dataTimeout, `asked, `calls, priv
      ensures st != Bug && (st == Running ==> Modes() && Wired() && Helped() && dataFd == remoteFd && !dataSsl)
      ensures st == Running && remoteFd != -1 ==> priv.sockets[remoteFd] == Connected(portSockaddr.value)
      ensures portSockaddr.value.port < IPPORT_RESERVED ==> st == Die && cfg.portPromiscuous
    {
      ghost var a, before := NoConnection, priv.St();
      st, remoteFd, a := priv.DoGetDataSock(portSockaddr.value);
      if st != Running { return; }
      if !cfg.portPromiscuous { Note(before, GetDataSock(portSockaddr.value), a, Sock(remoteFd)); }
      if remoteFd == -1 {
        st := Reply();
        return;
      }
      st := InitDataSockParams(remoteFd);
    }

    /** `vsf_ftpdataio_post_mark_connect`: the TLS handshake, if any. A second TLS object on a
        connection is a trap, here and in the helper. */
    method PostMarkConnect() returns (st: Status, ok: bool)
      requires Helped() && dataFd >= 0
      modifies `dataSsl, `aborReceived, `dataTimeout, `asked
      ensures Helped()
      ensures dataUseSsl && old(dataSsl) ==> st == Bug
      ensures !(dataUseSsl && old(dataSsl)) ==> st != Bug
      ensures st == Running && !ok ==> !cfg.requireSslReuse
      ensures st == Running ==> if dataUseSsl then dataSsl == ok else ok && dataSsl == old(dataSsl)
    {
      if !dataUseSsl { return Running, true; }
      if dataSsl { return Bug, false; }
      ok := *;
      Ask(SslHelper.Handshake(dataFd), SslHelper.Succeeded(ok));
      dataSsl := ok;
      hide SslHelper.Honest, SslHelper.HelperAfter;
      if !ok {
        if cfg.requireSslReuse {
          st := ReplyExit();
          return;
        }
        st := Reply();
        return;
      }
      st := Running;
    }

    /** The end of TLS on the data connection, which there may or may not be. */
    method EndTls() returns (ok: bool)
      requires Helped() && (dataSsl ==> dataFd != -1)
      modifies `dataSsl, `asked, `faults
      ensures Helped() && !dataSsl
      ensures faults == old(faults) + if ok then {} else {Unclean}
      ensures !old(dataSsl) ==> ok
    {
      var clean: bool := *;
      ok := clean || !dataSsl;
      Ask(SslHelper.Close, SslHelper.Succeeded(clean));
      dataSsl := false;
      if !ok { faults := faults + {Unclean}; }
    }

    /** `vsf_ftpdataio_dispose_transfer_fd`: end TLS, remove the handler, close. It reports a success if
        and only if TLS, if any, ended cleanly and neither an ABOR nor a timeout has come. */
    method DisposeTransferFd() returns (st: Status, ok: bool)
      requires Modes() && Wired() && Helped()
      modifies `dataFd, `ioHandler, `dataSsl, `aborReceived, `dataTimeout, `asked, `faults, `calls, priv
      ensures old(dataFd) == -1 ==> st == Bug
      ensures old(dataFd) != -1 ==> st != Bug
      ensures st == Running ==> Modes() && Wired() && Helped() && dataFd == -1
      ensures faults == old(faults) || faults == old(faults) + {Unclean}
      ensures st == Running && Unclean !in old(faults) ==>
        (ok <==> Unclean !in faults && !aborReceived && !dataTimeout)
    {
      hide Session.Modes, Session.Helped, WellFormed;
      ok := true;
      if dataFd == -1 { return Bug, ok; }
      if !ioHandler { return Bug, ok; }
      ioHandler := false;
      if dataUseSsl { ok := EndTls(); }
      st := Async();
      if st != Running { return; }
      CloseDataFd();
      if aborReceived || dataTimeout { ok := false; }
    }

    /** The closing of the data connection, which leaves the listening socket alone. */
    method CloseDataFd()
      requires Modes() && Helped() && !dataSsl && dataFd in priv.sockets && dataFd != priv.listenFd
      modifies `dataFd, priv
      ensures Modes() && Helped() && dataFd == -1 && priv.listenFd == old(priv.listenFd)
      ensures priv.sockets.Keys == old(priv.sockets.Keys - {dataFd})
    {
      priv.Close(dataFd);
      dataFd := -1;
    }

    /** `get_remote_transfer_fd`. */
    method GetRemoteTransferFd() returns (st: Status, remoteFd: Int32)
      requires Modes() && Wired() && Helped() && dataFd == -1
      modifies `dataFd, `ioHandler, `dataSsl, `aborReceived, `dataTimeout, `asked, `faults, `calls, priv
      ensures old(portSockaddr).None? && old(priv.listenFd) == -1 ==> st == Bug
      ensures old(portSockaddr).Some? || old(priv.listenFd) != -1 ==> st != Bug
      ensures st == Running ==> Modes() && Wired() && Helped() && dataFd == remoteFd
      ensures st == Running && remoteFd != -1 ==> dataSsl == dataUseSsl
    {
      hide WellFormed, Session.Modes, Session.Helped;
      var pasv, port;
      st, pasv := PasvActive();
      if !pasv {
        st, port := PortActive();
        if !port { return Bug, -1; }
      }
      aborReceived := false;
      st, pasv := PasvActive();
      if pasv {
        st, remoteFd := GetPasvFd();
      } else {
        st, remoteFd := GetPortFd();
      }
      if st != Running || remoteFd == -1 { return; }
      st := Reply();
      if st != Running { return; }
      var ok;
      st, ok := PostMarkConnect();
      if st != Running { return; }
      if !ok {
        st, ok := DisposeTransferFd();
        return st, -1;
      }
    }

    /** What a routine makes of the answer of the TLS library, with the helper or without. */
    function TlsValue(r: SslHelper.Routine, a: SslHelper.Answer): SslHelper.Value
      reads `dataFd
    {
      var o := SslHelper.Serve(SslHelper.State(dataFd, true), SslHelper.Asks(r), a);
      if cfg.sslSlave && o.Served? then SslHelper.WithHelper(r, o.result) else SslHelper.WithoutHelper(true, r, a)
    }

    /** `ftp_write_str` on the data connection and `ftp_write_data`. Without the TLS object that the
        settings call for it is a trap, here and in the helper. */
    method SendData(r: SslHelper.Routine) returns (st: Status, ok: bool)
      requires Helped() && (r.WriteStr? || r.WriteData?)
      modifies `aborReceived, `dataTimeout, `asked, `faults
      ensures Helped()
      ensures st == Bug <==> dataFd == -1 || dataSsl != dataUseSsl
      ensures st != Bug ==> faults == old(faults) + if ok then {} else {Network}
    {
      if dataFd == -1 || dataSsl != dataUseSsl { return Bug, false; }
      hide Session.Helped;
      ok := *;
      if dataUseSsl {
        var n: Int32 := *;
        var v := TlsValue(r, SslHelper.Returned(n));
        ok := if r.WriteStr? then v.ret == 0 else v.ret == |r.data|;
        AskKept(SslHelper.Asks(r), SslHelper.Returned(n));
      }
      if !ok { faults := faults + {Network}; }
      st := Async();
    }

    /** `ftp_read_data`: some of what is still to arrive, at least one byte until its end. */
    method ReceiveData(size: Int32, arriving: seq<Byte>) returns (st: Status, ok: bool, got: seq<Byte>)
      requires Helped() && 0 < size <= SslHelper.DATA_BUFSIZE
      modifies `aborReceived, `dataTimeout, `asked, `faults
      ensures Helped()
      ensures st == Bug <==> dataFd == -1 || dataSsl != dataUseSsl
      ensures st != Bug ==> faults == old(faults) + if ok then {} else {Network}
      ensures ok ==> got <= arriving && |got| <= size && (got == [] <==> arriving == [])
    {
      if dataFd == -1 || dataSsl != dataUseSsl { return Bug, false, []; }
      hide Session.Helped;
      ok, got := Arrival(size, arriving);
      if dataUseSsl {
        var a := SslHelper.Got(if ok then |got| else -1, got);
        var v := TlsValue(SslHelper.ReadData(size), a);
        AskKept(SslHelper.Read(size), a);
        ok, got := v.ret >= 0, v.bytes;
      }
      if !ok { faults := faults + {Network}; }
      st := Async();
    }

    /** What a read from the network gives. */
    method Arrival(size: Int32, arriving: seq<Byte>) returns (ok: bool, got: seq<Byte>)
      requires 0 < size
      ensures if ok then got <= arriving && |got| <= size && (got == [] <==> arriving == []) else got == []
    {
      ok := *;
      if !ok { return ok, []; }
      var n :| 0 < n <= size;
      got := if n <= |arriving| then arriving[..n] else arriving;
    }

    /** `do_file_send_rwloop`: reads the local file of which `bytes` are left, and sends it, in ASCII mode
        translated. */
    method SendLoop(bytes: seq<Byte>, ascii: bool) returns (st: Status, retval: int, sent: seq<Byte>)
      requires Helped() && dataFd != -1 && dataSsl == dataUseSsl && faults == {}
      modifies `aborReceived, `dataTimeout, `asked, `faults
      ensures Helped() && st != Bug && Accounts(st, retval) && sent <= Outgoing(bytes, ascii)
      ensures st == Running && faults == {} ==> sent == Outgoing(bytes, ascii)
    {
      hide Session.Helped, Outgoing, ToAscii, EndsInCr;
      var size, rest, prevCr := SslHelper.ChunkSize(cfg.transChunkSize), bytes, false;
      ghost var done: seq<Byte> := [];
      sent := [];
      NothingOutgoing(ascii);
      while true
        invariant Helped() && faults == {} && bytes == done + rest
        invariant sent == Outgoing(done, ascii) && prevCr == EndsInCr(done, false)
        decreases |rest|
      {
        OutgoingGrows(done, rest, ascii);
        var ok, chunk := ReadLocal(rest, size);
        if !ok { return Running, -1, sent; }
        if chunk == [] {
          assert done + rest == done;
          return Running, 0, sent;
        }
        SslHelper.TransfersArePermitted(cfg.transChunkSize, chunk, prevCr);
        var out := if ascii then ToAscii(chunk, prevCr) else chunk;
        st, ok := SendData(SslHelper.WriteData(out));
        if st != Running { return st, 0, sent; }
        if !ok { return Running, -2, sent; }
        OutgoingGrows(done, chunk, ascii);
        sent, prevCr, rest := sent + out, EndsInCr(chunk, prevCr), rest[|chunk|..];
        done := done + chunk;
      }
    }

    /** The value that a transfer returns says what went wrong with it. */
    ghost predicate Accounts(st: Status, retval: int)
      reads `faults
    {
      st == Running ==>
        && faults <= {Local, Network}
        && retval == if Local in faults then -1 else if Network in faults then -2 else 0
    }

    /** `do_file_send_sendfile`. */
    method SendDirect(bytes: seq<Byte>) returns (st: Status, retval: int, sent: seq<Byte>)
      requires faults == {}
      modifies `aborReceived, `dataTimeout, `faults
      ensures st != Bug && Accounts(st, retval) && sent <= bytes
      ensures st == Running && faults == {} ==> sent == bytes
    {
      var ok: bool := *;
      var n :| 0 <= n <= |bytes|;
      if !ok || n != |bytes| { faults := faults + {Network}; }
      st := Async();
      sent := bytes[..n];
      if !ok { return st, -2, sent; }
      if n != |bytes| { return st, -2, sent; }
      retval := 0;
    }

    /** `do_file_recv`: `arriving` is all that will arrive until the connection ends; `data` is what gets
        into the file. */
    method ReceiveFile(arriving: seq<Byte>) returns (st: Status, retval: int, data: seq<Byte>)
      requires Helped() && dataFd != -1 && dataSsl == dataUseSsl && faults == {}
      modifies `aborReceived, `dataTimeout, `asked, `faults
      ensures Helped() && st != Bug && Accounts(st, retval) && data <= arriving
      ensures st == Running && faults == {} ==> data == arriving
    {
      hide Session.Helped;
      var size, rest := SslHelper.ChunkSize(cfg.transChunkSize), arriving;
      data := [];
      while true
        invariant Helped() && faults == {} && arriving == data + rest
        decreases |rest|
      {
        var ok, got;
        st, ok, got := ReceiveData(size, rest);
        if st != Running { return st, 0, data; }
        if !ok { return Running, -2, data; }
        if got == [] { return Running, 0, data; }
        var n := WriteLocal(got);
        data, rest := data + got[..n], rest[|got|..];
        if n != |got| { return Running, -1, data; }
      }
    }

    /** `vsf_ftpdataio_transfer_file`: -1 for a failure of the local file, -2 for one of the connection, and
        0 if all is moved. `bytes` is what is left of the local file, or what will arrive. */
    method TransferFile(isUpload: bool, bytes: seq<Byte>, ascii: bool)
        returns (st: Status, retval: int, moved: seq<Byte>)
      requires Helped() && dataFd != -1 && dataSsl == dataUseSsl && faults == {}
      modifies `aborReceived, `dataTimeout, `asked, `faults
      ensures Helped() && st != Bug && Accounts(st, retval)
      ensures var wanted := if isUpload then bytes else Outgoing(bytes, ascii);
        moved <= wanted && (st == Running && faults == {} ==> moved == wanted)
    {
      if isUpload {
        st, retval, moved := ReceiveFile(bytes);
      } else if ascii || dataUseSsl {
        st, retval, moved := SendLoop(bytes, ascii);
      } else {
        st, retval, moved := SendDirect(bytes);
      }
    }

    /** `ftp_write_str` to the control connection or to the data connection. */
    method WriteListing(isControl: bool) returns (st: Status, ok: bool)
      requires Helped() && (isControl || (dataFd != -1 && dataSsl == dataUseSsl))
      modifies `aborReceived, `dataTimeout, `asked, `faults
      ensures Helped() && st != Bug
    {
      hide Session.Helped;
      if isControl {
        ok := WriteControl();
        st := Async();
      } else {
        var text: SslHelper.Text := *;
        st, ok := SendData(SslHelper.WriteStr(text));
      }
    }

    /** `transfer_dir_internal`: a listing, with the listings of `depth` levels below it. */
    method TransferDir(isControl: bool, depth: nat) returns (st: Status, ok: bool)
      requires Helped() && (isControl || (dataFd != -1 && dataSsl == dataUseSsl))
      modifies `aborReceived, `dataTimeout, `asked, `faults, `open
      ensures Helped() && st != Bug && (st == Running ==> open == old(open))
      decreases depth
    {
      hide Session.Helped;
      ok := true;
      if cfg.recurse {
        st, ok := WriteListing(isControl);
        if st != Running { return; }
      }
      var blocks: nat := *;
      while ok && blocks > 0
        invariant Helped() && open == old(open)
      {
        st, ok := WriteListing(isControl);
        if st != Running { return; }
        blocks := blocks - 1;
      }
      var subdirs: nat := *;
      if !cfg.recurse || depth == 0 { subdirs := 0; }
      while ok && subdirs > 0
        invariant Helped() && open == old(open) && (subdirs > 0 ==> depth > 0)
      {
        subdirs := subdirs - 1;
        var dir := OpenFile();
        if dir == -1 { continue; }
        st, ok := WriteListing(isControl);
        if st != Running { return; }
        if ok {
          st, ok := TransferDir(isControl, depth - 1);
          if st != Running { return; }
        }
        st := CloseFile(dir);
        assert open == old(open);
      }
      st := Running;
    }

    /** `check_abor`. */
    method CheckAbor() returns (st: Status)
      requires Helped()
      modifies `aborReceived, `dataTimeout, `asked
      ensures Helped() && st != Bug && (st == Running && dataFd == -1 ==> !aborReceived)
    {
      if aborReceived {
        aborReceived := false;
        st := Reply();
        return;
      }
      return Running;
    }

    // ----- transfers

    /** The part of RETR from the regular file that is open to the clean-up of the modes. */
    method SendFile(bytes: seq<Byte>, ascii: bool) returns (st: Status, ghost report: Report)
      requires Inv() && dataFd == -1 && (portSockaddr.Some? || priv.listenFd != -1) && logType == Some(Download)
      modifies `dataFd, `ioHandler, `dataSsl, `aborReceived, `dataTimeout, `asked, `faults, `logType, `journal,
        `portSockaddr, `calls, priv
      ensures st != Bug && (st == Running ==> Inv() && dataFd == -1 && portSockaddr.None? && priv.listenFd == -1)
      ensures st == Running ==>
        journal == if Complete(report) then old(journal) + [Recorded(Download, true)] else old(journal)
      ensures Complete(report) ==> report.moved == report.wanted == Outgoing(bytes, ascii)
    {
      hide WellLogged, WellFormed, Session.Modes, Session.Wired, Session.Journaled, Session.Helped, Outgoing;
      var remoteFd;
      report := NO_TRANSFER;
      st, remoteFd := GetRemoteTransferFd();
      if st != Running { return; }
      if remoteFd != -1 {
        var success, moved;
        st, success, moved, report := Transfer(false, bytes, ascii);
        if st != Running { return; }
      }
      CloseModes();
    }

    /** The transfer itself, to the end of the connection: 0 if and only if it was complete. */
    method MoveBytes(isUpload: bool, bytes: seq<Byte>, ascii: bool)
        returns (st: Status, retval: int, moved: seq<Byte>, ghost report: Report)
      requires Modes() && Wired() && Helped() && dataFd != -1 && dataSsl == dataUseSsl
      modifies `dataFd, `ioHandler, `dataSsl, `aborReceived, `dataTimeout, `asked, `faults, `calls, priv
      ensures st != Bug && (st == Running ==> Modes() && Wired() && Helped() && dataFd == -1)
      ensures st == Running ==> (retval == 0 <==> Complete(report)) && retval in {0, -1, -2}
      ensures report.moved == moved && report.wanted == if isUpload then bytes else Outgoing(bytes, ascii)
      ensures moved <= report.wanted && (Complete(report) ==> moved == report.wanted)
    {
      hide WellFormed, Session.Modes, Session.Wired, Session.Helped, Outgoing;
      faults := {};
      st, retval, moved := TransferFile(isUpload, bytes, ascii);
      ghost var wanted := if isUpload then bytes else Outgoing(bytes, ascii);
      report := Report(wanted, moved, faults, st != Running);
      if st != Running { return; }
      var disposed;
      st, disposed := DisposeTransferFd();
      report := Report(wanted, moved, faults, aborReceived || dataTimeout);
      if st != Running { return; }
      if !disposed && retval == 0 { retval := -2; }
    }

    /** The transfer itself and its aftermath, common to RETR and the uploads: transfer, dispose, log a
        success, reply, and answer an ABOR. A success is logged if and only if all was moved, nothing
        failed, TLS ended cleanly and neither an ABOR nor a timeout had come by the end of the
        connection; anything else is left pending, to be logged at the end of the command. */
    method Transfer(isUpload: bool, bytes: seq<Byte>, ascii: bool)
        returns (st: Status, success: bool, moved: seq<Byte>, ghost report: Report)
      requires Inv() && dataFd != -1 && dataSsl == dataUseSsl && logType.Some?
      modifies `dataFd, `ioHandler, `dataSsl, `aborReceived, `dataTimeout, `asked, `faults, `logType, `journal,
        `calls, priv
      ensures st != Bug && (st == Running ==> Inv() && dataFd == -1 && !aborReceived)
      ensures st == Running ==> success == Complete(report)
      ensures st == Running ==>
        if success then logType.None? && journal == old(journal) + [Recorded(old(logType).value, true)]
        else logType == old(logType) && journal == old(journal)
      ensures report.moved == moved && report.wanted == if isUpload then bytes else Outgoing(bytes, ascii)
      ensures moved <= report.wanted && (Complete(report) ==> moved == report.wanted)
    {
      hide WellLogged, WellFormed, Session.Modes, Session.Journaled, Session.Helped, Outgoing;
      var retval;
      st, retval, moved, report := MoveBytes(isUpload, bytes, ascii);
      success := false;
      if st != Running { return; }
      success := retval == 0;
      if success { DoLog(true); }
      if retval != -2 || !dataTimeout {
        st := Reply();
        if st != Running { return; }
      }
      st := CheckAbor();
    }

    /** What RETR logs: a success if and only if the transfer was complete, and nothing else but the
        dropping of the entry of a directory. */
    ghost predicate LoggedDownload(before: seq<LogEvent>, after: seq<LogEvent>, report: Report, isDir: bool) {
      if Complete(report) then after == before + [Recorded(Download, true)]
      else after == if isDir then before + [Dropped(Download)] else before
    }

    /** The file may be sent to this user. */
    ghost predicate MaySend(name: Name)
      reads `tree
    {
      && name in tree && tree[name].File? && !access.denied(name) && access.downloadable(name)
      && (cfg.isAnonymous && cfg.anonWorldReadableOnly ==> access.worldReadable(name))
    }

    /** The part of RETR after a file or directory has been opened, to its closing. */
    method SendOpened(openedFile: int, name: Name, offset: nat) returns (st: Status, ghost report: Report)
      requires Inv() && dataFd == -1 && open == {openedFile} && logType == Some(Download) && name in tree
      requires !access.denied(name) && access.downloadable(name)
      requires portSockaddr.Some? || priv.listenFd != -1
      modifies `dataFd, `ioHandler, `dataSsl, `aborReceived, `dataTimeout, `asked, `faults, `logType, `journal,
        `portSockaddr, `open, `calls, priv
      ensures st != Bug && (st == Running ==> Inv() && dataFd == -1 && open == {})
      ensures st == Running ==> LoggedDownload(old(journal), journal, report, tree[name].Dir?)
      ensures Complete(report) ==> Sent(name, offset, report)
      ensures report.moved != [] || Complete(report) ==> MaySend(name)
    {
      hide WellLogged, WellFormed, Session.Modes, Session.Wired, Session.Journaled, Session.Helped, Outgoing;
      report := NO_TRANSFER;
      if !tree[name].File? {
        st := Reply();
        if st != Running { return; }
        if tree[name].Dir? { ClearEntry(); }
      } else if cfg.isAnonymous && cfg.anonWorldReadableOnly && !access.worldReadable(name) {
        st := Reply();
        if st != Running { return; }
      } else {
        st, report := SendFile(From(tree[name].content, offset), cfg.asciiDownload && isAscii);
        if st != Running { return; }
      }
      st := CloseFile(openedFile);
    }

    /** The client was sent the file from the position on, all of it. */
    ghost predicate Sent(name: Name, offset: nat, report: Report)
      reads `tree, `isAscii
    {
      && name in tree && tree[name].File?
      && report.moved == report.wanted == Outgoing(From(tree[name].content, offset), cfg.asciiDownload && isAscii)
    }

    lemma DroppedIsNotRecorded(j: seq<LogEvent>)
      ensures j != j + [Recorded(Download, true)] && j + [Recorded(Download, true)] != j + [Dropped(Download)]
    {
      assert (j + [Recorded(Download, true)])[|j|] != (j + [Dropped(Download)])[|j|];
    }

    /** `handle_retr`. A download that is recorded as a success has sent the whole file from the restart
        position on, and the connection has ended well; one that did is recorded as such. Nothing at all
        is sent of a file that the user may not have. */
    method HandleRetr(name: Name) returns (st: Status, ghost report: Report)
      requires Ready()
      modifies `restartPos, `dataFd, `ioHandler, `dataSsl, `aborReceived, `dataTimeout, `asked, `faults, `logType,
        `journal, `portSockaddr, `open, `calls, priv
      ensures st != Bug && (st == Running ==> Settled() && restartPos == 0)
      ensures st == Running ==> Wrote(old(journal), journal, Some(Download))
      ensures st == Running ==>
        (journal == old(journal) <==> !(old(CanTransfer()) && !(isAscii && old(restartPos) != 0)))
      ensures st == Running ==>
        (journal == old(journal) + [Started(Download)] + [Recorded(Download, true)] <==> Complete(report))
      ensures st == Running && journal == old(journal) + [Started(Download)] + [Dropped(Download)] ==>
        name in tree && tree[name].Dir?
      ensures Complete(report) ==> Sent(name, old(restartPos), report)
      ensures report.moved != [] || Complete(report) ==> MaySend(name)
    {
      hide WellLogged, WellFormed, Session.Modes, Session.Wired, Session.Journaled, Session.Helped, Session.Sent;
      hide Session.CanTransfer;
      var offset := restartPos;
      WroteNothing(journal);
      WroteStart(journal, Download);
      DroppedIsNotRecorded(journal + [Started(Download)]);
      hide Wrote;
      report := NO_TRANSFER;
      restartPos := 0;
      var ok;
      st, ok := DataTransferChecksOk();
      if !ok { return; }
      if isAscii && offset != 0 {
        st := Reply();
        return;
      }
      st := StartEntry(Download);
      st, report := SendNamed(name, offset);
    }

    /** The part of RETR from the check of the name on. */
    method SendNamed(name: Name, offset: nat) returns (st: Status, ghost report: Report)
      requires Inv() && dataFd == -1 && open == {} && logType == Some(Download)
      requires portSockaddr.Some? || priv.listenFd != -1
      modifies `dataFd, `ioHandler, `dataSsl, `aborReceived, `dataTimeout, `asked, `faults, `logType, `journal,
        `portSockaddr, `open, `calls, priv
      ensures st != Bug && (st == Running ==> Inv() && dataFd == -1 && open == {})
      ensures st == Running ==>
        || LoggedDownload(old(journal), journal, report, false)
        || (name in tree && tree[name].Dir? && LoggedDownload(old(journal), journal, report, true))
      ensures Complete(report) ==> Sent(name, offset, report)
      ensures report.moved != [] || Complete(report) ==> MaySend(name)
    {
      hide WellLogged, WellFormed, Session.Modes, Session.Wired, Session.Journaled, Session.Helped;
      report := NO_TRANSFER;
      if access.denied(name) || !access.downloadable(name) {
        st := Reply();
        return;
      }
      var openedFile := -1;
      if name in tree { openedFile := OpenFile(); }
      if openedFile == -1 {
        st := Reply();
        return;
      }
      st, report := SendOpened(openedFile, name, offset);
    }

    /** Uploads are given to another owner. */
    predicate GivesAway() {
      cfg.isAnonymous && cfg.priv.chownUploads
    }

    /** The file must not be there yet. */
    predicate Exclusive(isUnique: bool) {
      isUnique || (cfg.isAnonymous && !cfg.anonOther)
    }

    /** The log has recorded a success of the upload, and nothing else. */
    predicate LoggedUpload(before: seq<LogEvent>)
      reads `journal
    {
      journal == before + [Recorded(Upload, true)]
    }

    /** `handle_upload_common`: STOR, APPE and STOU, which differ in the name and the position they
        write to. A success is recorded if and only if the transfer was complete; then the file has all
        that was sent, at the position that REST gave exactly if it need not be new (or nothing depends
        on it). Of one that fails after the file was `made`, the file has a part, and it is gone exactly
        if the settings say so and it is `unlinkable`, whatever was there before. */
    method HandleUploadCommon(name: Name, isAppend: bool, isUnique: bool) returns (st: Status, ghost up: Trace)
      requires Ready()
      modifies `restartPos, `dataFd, `ioHandler, `dataSsl, `aborReceived, `dataTimeout, `asked, `faults, `logType,
        `journal, `portSockaddr, `open, `tree, `given, `calls, priv
      ensures st != Bug && (st == Running ==> Settled() && restartPos == 0)
      ensures st == Running ==> Wrote(old(journal), journal, Some(Upload))
      ensures st == Running ==> (journal == old(journal) <==> !old(CanTransfer()))
      ensures st == Running ==> (LoggedUpload(old(journal) + [Started(Upload)]) <==> Complete(up.report))
      ensures up.made && st == Running ==> given == old(given) + if GivesAway() then 1 else 0
      ensures Complete(up.report) ==> up.made && up.report.moved == up.report.wanted
      ensures !isUnique ==> up.target == name
      ensures !up.made ==> tree == old(tree)
      ensures up.made ==> !access.denied(up.target) && access.uploadable(up.target)
      ensures up.made && Exclusive(isUnique) ==> up.target !in old(tree)
      ensures up.made ==> Left(
          old(tree), tree, up.target,
          UploadResult(
            ContentAt(old(tree), up.target), Exclusive(isUnique), isAppend, old(restartPos), up.report.moved),
          st == Running, st == Running && Complete(up.report), cfg.deleteFailedUploads)
      ensures up.made && st == Running ==>
        (up.target in tree <==> Complete(up.report) || !(cfg.deleteFailedUploads && up.unlinkable))
      ensures st == Running && Complete(up.report) && !isAppend ==>
        (StandsAt(ContentAt(tree, up.target), old(restartPos), up.report.wanted) <==>
         !Exclusive(isUnique) || old(restartPos) == 0 || up.report.wanted == [])
    {
      hide WellLogged, WellFormed, Session.Modes, Session.Wired, Session.Journaled, Session.Helped;
      hide UploadResult, Left, ContentAt, StandsAt, Session.CanTransfer, Session.Exclusive;
      WroteNothing(journal);
      WroteStart(journal, Upload);
      hide Wrote;
      var offset := restartPos;
      up := Trace(name, false, false, NO_TRANSFER);
      restartPos := 0;
      var ok;
      st, ok := DataTransferChecksOk();
      if !ok { return; }
      var filename := name;
      if isUnique { filename := *; }
      st := StartEntry(Upload);
      st, up := ReceiveNamed(filename, Exclusive(isUnique), isAppend, offset);
    }

    /** The part of an upload from the check of the name on. */
    method ReceiveNamed(filename: Name, exclusive: bool, isAppend: bool, offset: nat)
        returns (st: Status, ghost up: Trace)
      requires Inv() && dataFd == -1 && open == {} && logType == Some(Upload)
      requires portSockaddr.Some? || priv.listenFd != -1
      modifies `dataFd, `ioHandler, `dataSsl, `aborReceived, `dataTimeout, `asked, `faults, `logType, `journal,
        `portSockaddr, `open, `tree, `given, `calls, priv
      ensures st != Bug && (st == Running ==> Inv() && dataFd == -1 && open == {})
      ensures st == Running ==>
        if Complete(up.report) then LoggedUpload(old(journal)) else journal == old(journal)
      ensures up.made && st == Running ==> given == old(given) + if GivesAway() then 1 else 0
      ensures Complete(up.report) ==> up.made && up.report.moved == up.report.wanted
      ensures up.target == filename && (!up.made ==> tree == old(tree))
      ensures up.made ==> !access.denied(filename) && access.uploadable(filename)
      ensures up.made && exclusive ==> filename !in old(tree)
      ensures up.made ==> Left(
          old(tree), tree, filename,
          UploadResult(ContentAt(old(tree), filename), exclusive, isAppend, offset, up.report.moved),
          st == Running, st == Running && Complete(up.report), cfg.deleteFailedUploads)
      ensures up.made && st == Running ==>
        (filename in tree <==> Complete(up.report) || !(cfg.deleteFailedUploads && up.unlinkable))
      ensures st == Running && Complete(up.report) && !isAppend ==>
        (StandsAt(ContentAt(tree, filename), offset, up.report.wanted) <==>
         !exclusive || offset == 0 || up.report.wanted == [])
    {
      hide WellLogged, WellFormed, Session.Modes, Session.Wired, Session.Journaled, Session.Helped;
      hide UploadResult, Left, ContentAt, StandsAt;
      up := Trace(filename, false, false, NO_TRANSFER);
      if access.denied(filename) || !access.uploadable(filename) {
        st := Reply();
        return;
      }
      st, up := CreateAndReceive(filename, exclusive, isAppend, offset);
      if st == Running && Complete(up.report) && !isAppend {
        UploadStands(old(tree), tree, filename, exclusive, offset, up.report.moved, cfg.deleteFailedUploads);
      }
    }

    /** The part of an upload from the creation of its file on. */
    method CreateAndReceive(filename: Name, exclusive: bool, isAppend: bool, offset: nat)
        returns (st: Status, ghost up: Trace)
      requires Inv() && dataFd == -1 && open == {} && logType == Some(Upload)
      requires portSockaddr.Some? || priv.listenFd != -1
      modifies `dataFd, `ioHandler, `dataSsl, `aborReceived, `dataTimeout, `asked, `faults, `logType, `journal,
        `portSockaddr, `open, `tree, `given, `calls, priv
      ensures st != Bug && (st == Running ==> Inv() && dataFd == -1 && open == {})
      ensures st == Running ==>
        if Complete(up.report) then LoggedUpload(old(journal)) else journal == old(journal)
      ensures up.made && st == Running ==> given == old(given) + if GivesAway() then 1 else 0
      ensures Complete(up.report) ==> up.made && up.report.moved == up.report.wanted
      ensures up.target == filename && (!up.made ==> tree == old(tree))
      ensures up.made && exclusive ==> filename !in old(tree)
      ensures up.made ==> Left(
          old(tree), tree, filename,
          UploadResult(ContentAt(old(tree), filename), exclusive, isAppend, offset, up.report.moved),
          st == Running, st == Running && Complete(up.report), cfg.deleteFailedUploads)
      ensures up.made && st == Running ==>
        (filename in tree <==> Complete(up.report) || !(cfg.deleteFailedUploads && up.unlinkable))
    {
      hide WellLogged, WellFormed, Session.Modes, Session.Wired, Session.Journaled, Session.Helped;
      hide UploadResult, Left, ContentAt;
      up := Trace(filename, false, false, NO_TRANSFER);
      var newFileFd := CreateFile(filename, exclusive);
      if newFileFd == -1 {
        st := Reply();
        return;
      }
      ghost var created, unlinkable, report := tree, false, NO_TRANSFER;
      st, unlinkable, report := ReceiveOpened(newFileFd, filename, exclusive, isAppend, offset);
      up := Trace(filename, true, unlinkable, report);
      LeftSinceCreation(
        old(tree), created, tree, filename,
        UploadResult(ContentAt(created, filename), exclusive, isAppend, offset, report.moved),
        st == Running, st == Running && Complete(report), cfg.deleteFailedUploads);
    }

    /** The part of an upload after its file has been created, to its closing. */
    method ReceiveOpened(newFileFd: Int32, filename: Name, exclusive: bool, isAppend: bool, offset: nat)
        returns (st: Status, ghost unlinkable: bool, ghost report: Report)
      requires Inv() && newFileFd >= 0 && dataFd == -1 && open == {newFileFd} && logType == Some(Upload)
      requires portSockaddr.Some? || priv.listenFd != -1
      requires filename in tree && tree[filename].File?
      modifies `dataFd, `ioHandler, `dataSsl, `aborReceived, `dataTimeout, `asked, `faults, `logType, `journal,
        `portSockaddr, `open, `tree, `given, `calls, priv
      ensures st != Bug && (st == Running ==> Inv() && dataFd == -1 && open == {})
      ensures st == Running ==> if Complete(report) then LoggedUpload(old(journal)) else journal == old(journal)
      ensures st == Running ==> given == old(given) + if GivesAway() then 1 else 0
      ensures Complete(report) ==> report.moved == report.wanted
      ensures Left(
        old(tree), tree, filename,
        UploadResult(ContentAt(old(tree), filename), exclusive, isAppend, offset, report.moved),
        st == Running, st == Running && Complete(report), cfg.deleteFailedUploads)
      ensures st == Running ==>
        (filename in tree <==> Complete(report) || !(cfg.deleteFailedUploads && unlinkable))
    {
      hide WellLogged, WellFormed, Session.Modes, Session.Wired, Session.Journaled, Session.Helped;
      hide Left, UploadResult, ContentAt;
      unlinkable, report := false, NO_TRANSFER;
      if cfg.isAnonymous && cfg.priv.chownUploads {
        st := ChownUpload(newFileFd);
        if st != Running {
          LeftUntouched(
            tree, filename, UploadResult(ContentAt(tree, filename), exclusive, isAppend, offset, []), false,
            cfg.deleteFailedUploads);
          return;
        }
      }
      var success;
      st, success, report := ReceiveAt(filename, exclusive, isAppend, offset);
      LeftAfterWriting(
        old(tree), filename, UploadResult(ContentAt(old(tree), filename), exclusive, isAppend, offset, report.moved),
        st == Running, st == Running && success, cfg.deleteFailedUploads);
      if st != Running { return; }
      CloseModes();
      var unlinks: bool := *;
      unlinkable := unlinks;
      if cfg.deleteFailedUploads && !success && unlinks { tree := tree - {filename}; }
      st := CloseFile(newFileFd);
    }

    /** Truncating the file or seeking in it, the connection, and the transfer. */
    method ReceiveAt(filename: Name, exclusive: bool, isAppend: bool, offset: nat)
        returns (st: Status, success: bool, ghost report: Report)
      requires Inv() && dataFd == -1 && logType == Some(Upload)
      requires portSockaddr.Some? || priv.listenFd != -1
      requires filename in tree && tree[filename].File?
      modifies `dataFd, `ioHandler, `dataSsl, `aborReceived, `dataTimeout, `asked, `faults, `logType, `journal,
        `tree, `calls, priv
      ensures st != Bug && (st == Running ==> Inv() && dataFd == -1)
      ensures st == Running ==> success == Complete(report)
      ensures st == Running ==>
        if success then logType.None? && LoggedUpload(old(journal))
        else logType == old(logType) && journal == old(journal)
      ensures Complete(report) ==> report.moved == report.wanted
      ensures tree == old(tree)[filename := File(
                UploadResult(ContentAt(old(tree), filename), exclusive, isAppend, offset, report.moved))]
    {
      hide WellLogged, WellFormed, Session.Modes, Session.Wired, Session.Journaled, Session.Helped;
      success, report := false, NO_TRANSFER;
      var base := tree[filename].content;
      if Truncates(exclusive, isAppend, offset) { base := []; }
      // a file that must be new is open for appending, so moving in it has no effect on writes
      var pos := if exclusive || isAppend then |base| else offset;
      tree := tree[filename := File(base)];
      NothingStored(base, pos);
      hide Stored;
      var remoteFd;
      st, remoteFd := GetRemoteTransferFd();
      if st != Running { return; }
      if remoteFd != -1 {
        var arriving: seq<Byte>, received := *, [];
        st, success, received, report := Transfer(true, arriving, false);
        tree := tree[filename := File(Stored(base, pos, received))];
      }
    }

    /** The privileged change of ownership of an upload. */
    method ChownUpload(fd: Int32) returns (st: Status)
      requires Modes() && Wired() && fd >= 0 && cfg.priv.chownUploads
      modifies `calls, `given, priv
      ensures st == Running ==> given == old(given) + 1
      ensures st != Bug
      ensures st == Running ==> Modes() && Wired() && priv.listenFd == old(priv.listenFd)
    {
      ghost var a, before := Nothing, priv.St();
      st, a := priv.DoChown(fd);
      if st == Running {
        Note(before, Privops.Chown(fd), a, Done);
        given := given + 1;
      }
    }

    /** `handle_dir_common`: LIST, NLST and, on the control connection, STAT of a file. A listing on a data
        connection uses up the mode, unless it is refused; STAT leaves the modes alone. */
    method HandleDirCommon(statCmd: bool, filter: Name) returns (st: Status)
      requires Ready()
      modifies `dataFd, `ioHandler, `dataSsl, `aborReceived, `dataTimeout, `asked, `faults, `portSockaddr, `open,
        `calls, priv
      ensures st != Bug && (st == Running ==> Ready())
      ensures st == Running ==>
        if !statCmd && old(CanTransfer()) && !(filter != [] && access.denied(filter))
        then portSockaddr.None? && priv.listenFd == -1
        else portSockaddr == old(portSockaddr) && priv.St() == old(priv.St())
    {
      hide WellLogged, WellFormed, Session.Modes, Session.Wired, Session.Journaled, Session.Helped;
      if !statCmd {
        var ok;
        st, ok := DataTransferChecksOk();
        if !ok { return; }
      }
      if filter != [] && access.denied(filter) {
        st := Reply();
        return;
      }
      var dir := -1;
      if filter != [] { dir := OpenFile(); }
      if dir == -1 { dir := OpenFile(); }
      st := ListOpened(statCmd, dir);
    }

    /** The listing of the directory that has been opened, if any, to its closing. */
    method ListOpened(statCmd: bool, dir: int) returns (st: Status)
      requires Inv() && dataFd == -1 && open == if dir == -1 then {} else {dir}
      requires statCmd || portSockaddr.Some? || priv.listenFd != -1
      modifies `dataFd, `ioHandler, `dataSsl, `aborReceived, `dataTimeout, `asked, `faults, `portSockaddr, `open,
        `calls, priv
      ensures st != Bug && (st == Running ==> Inv() && dataFd == -1 && open == {})
      ensures st == Running ==>
        if statCmd then portSockaddr == old(portSockaddr) && priv.St() == old(priv.St())
        else portSockaddr.None? && priv.listenFd == -1
    {
      hide WellLogged, WellFormed, Session.Modes, Session.Wired, Session.Journaled, Session.Helped;
      if statCmd {
        st := StatListing(dir);
      } else {
        st := SendListing(dir);
      }
      if st != Running { return; }
      if dir != -1 { st := CloseFile(dir); }
      if !statCmd { CloseModes(); }
    }

    /** Whether a directory may be listed, and its listing. */
    method ListDir(isControl: bool, dir: int) returns (st: Status, ok: bool)
      requires Helped() && (isControl || (dataFd != -1 && dataSsl == dataUseSsl))
      modifies `aborReceived, `dataTimeout, `asked, `faults, `open
      ensures Helped() && st != Bug && (st == Running ==> open == old(open))
    {
      var readable: bool := *;
      var depth: nat := *;
      if dir == -1 || (cfg.isAnonymous && cfg.anonWorldReadableOnly && !readable) { return Running, true; }
      st, ok := TransferDir(isControl, depth);
    }

    method StatListing(dir: int) returns (st: Status)
      requires Helped()
      modifies `aborReceived, `dataTimeout, `asked, `faults, `open
      ensures Helped() && st != Bug && (st == Running ==> open == old(open))
    {
      st := Reply();
      if st != Running { return; }
      var ok;
      st, ok := ListDir(true, dir);
      if st != Running { return; }
      st := Reply();
      if st != Running { return; }
      st := CheckAbor();
    }

    method SendListing(dir: int) returns (st: Status)
      requires Modes() && Wired() && Helped() && dataFd == -1 && (portSockaddr.Some? || priv.listenFd != -1)
      modifies `dataFd, `ioHandler, `dataSsl, `aborReceived, `dataTimeout, `asked, `faults, `open, `calls, priv
      ensures st != Bug && (st == Running ==> Modes() && Wired() && Helped() && dataFd == -1 && open == old(open))
    {
      hide WellFormed, Session.Modes, Session.Wired, Session.Helped;
      var remoteFd, ok, disposed;
      st, remoteFd := GetRemoteTransferFd();
      if st != Running || remoteFd == -1 { return; }
      st, ok := ListDir(false, dir);
      if st != Running { return; }
      st, disposed := DisposeTransferFd();
      if st != Running { return; }
      if (ok && disposed) || !dataTimeout {
        st := Reply();
        if st != Running { return; }
      }
      st := CheckAbor();
    }

    // ----- commands that need no connection

    /** The system call of the command, which may fail for other reasons. */
    method Act(entry: Entry, name: Name) returns (done: bool)
      modifies `tree
      ensures if done then Acted(entry, name, old(tree), tree) else tree == old(tree)
    {
      done := *;
      if !done { return; }
      match entry {
        case Mkdir =>
          if name in tree { return false; }
          tree := tree[name := Dir];
        case Rmdir =>
          if name !in tree || !tree[name].Dir? { return false; }
          tree := tree - {name};
        case Delete =>
          if name !in tree || !tree[name].File? { return false; }
          tree := tree - {name};
        case _ =>
      }
    }

    /** MKD, RMD, DELE and SITE CHMOD: an entry, the check of the name, the action. What is recorded as a
        success has been done, and anything else has changed nothing and is pending. */
    method HandleLogged(entry: Entry, name: Name) returns (st: Status)
      requires Ready()
      modifies `aborReceived, `dataTimeout, `asked, `logType, `journal, `tree
      ensures st != Bug && (st == Running ==> Settled() && Wrote(old(journal), journal, Some(entry)))
      ensures st == Running ==>
        if logType.Some? then journal == old(journal) + [Started(entry)] && tree == old(tree)
        else
          && journal == old(journal) + [Started(entry)] + [Recorded(entry, true)]
          && Acted(entry, name, old(tree), tree) && !access.denied(name)
      ensures tree == old(tree) || (Acted(entry, name, old(tree), tree) && !access.denied(name))
    {
      hide WellLogged, WellFormed, Session.Modes, Session.Wired, Session.Journaled, Session.Helped, Acted;
      WroteStart(journal, entry);
      hide Wrote;
      st := StartEntry(entry);
      if !access.denied(name) {
        var done := Act(entry, name);
        if done { DoLog(true); }
      }
      st := Reply();
    }

    /** `handle_rnfr`. */
    method HandleRnfr(name: Name) returns (st: Status)
      requires Ready()
      modifies `rnfr, `aborReceived, `dataTimeout, `asked, `logType, `journal
      ensures st != Bug && (st == Running ==> Settled())
      ensures st == Running ==> Wrote(old(journal), journal, Some(Rename))
      ensures st == Running ==> if rnfr == [] then logType == Some(Rename) else logType.None? && journal == old(journal)
      ensures rnfr != [] ==> rnfr == name && name in tree && !access.denied(name)
    {
      hide WellLogged, WellFormed, Session.Modes, Session.Wired, Session.Journaled, Session.Helped;
      WroteNothing(journal);
      WroteStart(journal, Rename);
      hide Wrote;
      rnfr := [];
      var found: bool := *;
      if !access.denied(name) && found && name in tree && name != [] {
        rnfr := name;
      } else {
        st := StartEntry(Rename);
      }
      st := Reply();
    }

    /** The file or directory with one name has another one now, whatever had that before. */
    ghost predicate Moved(before: Tree, after: Tree, from: Name, to: Name) {
      from in before && after == before[to := before[from]] - ({from} - {to})
    }

    /** `handle_rnto`. What is recorded as a success has been moved. */
    method HandleRnto(name: Name) returns (st: Status)
      requires Ready()
      modifies `rnfr, `aborReceived, `dataTimeout, `asked, `logType, `journal, `tree
      ensures st != Bug && (st == Running ==> Settled())
      ensures st == Running ==> Wrote(old(journal), journal, Some(Rename))
      ensures old(rnfr) == [] ==> journal == old(journal) && logType.None? && tree == old(tree)
      ensures old(rnfr) != [] && st == Running ==>
        if logType.Some? then journal == old(journal) + [Started(Rename)] && tree == old(tree)
        else
          && journal == old(journal) + [Started(Rename)] + [Recorded(Rename, true)]
          && Moved(old(tree), tree, old(rnfr), name) && !access.denied(name)
      ensures rnfr == if access.denied(name) then old(rnfr) else []
      ensures tree == old(tree) || (old(rnfr) != [] && Moved(old(tree), tree, old(rnfr), name) && !access.denied(name))
    {
      hide WellLogged, WellFormed, Session.Modes, Session.Wired, Session.Journaled, Session.Helped;
      WroteNothing(journal);
      WroteStart(journal, Rename);
      hide Wrote;
      if rnfr != [] {
        st := StartEntry(Rename);
        var renamed: bool := *;
        if !access.denied(name) {
          if renamed && rnfr in tree {
            tree := tree[name := tree[rnfr]] - ({rnfr} - {name});
            DoLog(true);
          }
          rnfr := [];
        }
      }
      st := Reply();
    }

    /** `handle_prot`, for the two levels that are supported. */
    method HandleProt(private: bool)
      requires Ready()
      modifies `dataUseSsl
      ensures Ready() && dataUseSsl == if cfg.controlUseSsl then private else old(dataUseSsl)
    {
      if cfg.controlUseSsl { dataUseSsl := private; }
    }

    // ----- the command loop

    /** The tests in front of the handlers. */
    predicate Enabled(cmd: Command)
      reads `epsvAll
    {
      var mayWrite := cfg.writeEnable && (cfg.anonOther || !cfg.isAnonymous);
      match cmd
      case Pasv => cfg.pasvEnable && !epsvAll
      case Epsv(_) => cfg.pasvEnable
      case Port(_) => cfg.portEnable && !epsvAll
      case Eprt(_) => cfg.portEnable
      case Retr(_) => cfg.downloadEnable
      case List(_) => cfg.dirlistEnable
      case Nlst(_) => cfg.dirlistEnable
      case StatFile(_) => cfg.dirlistEnable
      case Stor(_) => cfg.writeEnable && (cfg.anonUpload || !cfg.isAnonymous)
      case Stou(_) => cfg.writeEnable && (cfg.anonUpload || !cfg.isAnonymous)
      case Appe(_) => mayWrite
      case Mkd(_) => cfg.writeEnable && (cfg.anonMkdir || !cfg.isAnonymous)
      case Rmd(_) => mayWrite
      case Dele(_) => mayWrite
      case Rnfr(_) => mayWrite
      case Rnto(_) => mayWrite
      case SiteChmod(_) => !cfg.isAnonymous && cfg.writeEnable && cfg.chmodEnable
      case Prot(_) => cfg.sslEnable
      case _ => true
    }

    /** They let through what no setting refuses. */
    lemma EnabledUnlessRefused(cmd: Command)
      ensures Enabled(cmd) <==> !Refused(cfg, epsvAll, cmd)
    {
    }

    // what commands do to the files

    ghost predicate SameOnDenied(before: Tree, after: Tree) {
      forall n :: access.denied(n) ==> SameAt(before, after, n)
    }

    /** What the command can do to the files: uploads make no directory, MKD makes no file, a file that
        must be new replaces nothing, and nothing happens to a denied name. */
    ghost predicate TreeStep(cmd: Command, before: Tree, after: Tree) {
      && SameOnDenied(before, after)
      && match cmd
         case Stor(_) => NoNewDirs(before, after) && (Exclusive(false) ==> Keeps(before, after))
         case Stou(_) => NoNewDirs(before, after) && Keeps(before, after)
         case Appe(_) => NoNewDirs(before, after)
         case Mkd(_) => NoNewFiles(before, after) && Keeps(before, after)
         case Rmd(_) => true
         case Dele(_) => true
         case Rnto(_) => true
         case _ => after == before
    }

    /** What a session may do to the files that were there, at any time. Without `write_enable` nothing.
        An anonymous user changes and removes nothing without `anon_other_write_enable`; without that
        and `anon_upload_enable` there is no new or changed file, and without that and
        `anon_mkdir_write_enable` no new directory. Nothing ever happens to a name that `deny_file`
        forbids. */
    ghost predicate Restrained(before: Tree, after: Tree) {
      && (!cfg.writeEnable ==> after == before)
      && (cfg.isAnonymous && !cfg.anonOther ==> Keeps(before, after))
      && (cfg.isAnonymous && !cfg.anonOther && !cfg.anonUpload ==> NoNewFiles(before, after))
      && (cfg.isAnonymous && !cfg.anonOther && !cfg.anonMkdir ==> NoNewDirs(before, after))
      && SameOnDenied(before, after)
    }

    lemma StepIsRestrained(epsvAll: bool, cmd: Command, before: Tree, after: Tree)
      requires !Refused(cfg, epsvAll, cmd) && TreeStep(cmd, before, after)
      ensures Restrained(before, after)
    {
    }

    lemma Unchanged(tree: Tree)
      ensures Restrained(tree, tree) && forall cmd :: TreeStep(cmd, tree, tree)
    {
    }

    lemma RestrainedTrans(a: Tree, b: Tree, c: Tree)
      requires Restrained(a, b) && Restrained(b, c)
      ensures Restrained(a, c)
    {
    }

    /** An anonymous user that has none of the permissions to write changes nothing at all. */
    lemma ReadOnlyUser(before: Tree, after: Tree)
      requires Restrained(before, after) && cfg.isAnonymous && !cfg.anonOther && !cfg.anonUpload && !cfg.anonMkdir
      ensures after == before
    {
      assert forall n :: SameAt(before, after, n);
      assert before.Keys == after.Keys;
    }

    lemma ActedStep(cmd: Command, entry: Entry, name: Name, before: Tree, after: Tree)
      requires Acted(entry, name, before, after) && !access.denied(name)
      requires EntryOf(cmd) == Some(entry) && (cmd.Mkd? || cmd.Rmd? || cmd.Dele? || cmd.SiteChmod?)
      ensures TreeStep(cmd, before, after)
    {
    }

    lemma MovedStep(from: Name, to: Name, before: Tree, after: Tree)
      requires Moved(before, after, from, to) && !access.denied(from) && !access.denied(to)
      ensures TreeStep(Rnto(to), before, after)
    {
    }

    // what else commands do

    twostate predicate ModesKept()
      reads this, priv
    {
      portSockaddr == old(portSockaddr) && priv.listenFd == old(priv.listenFd)
    }

    /** Passive mode is on and active mode is off. */
    ghost predicate Listens()
      reads `portSockaddr, priv
    {
      portSockaddr.None? && priv.listenFd != -1
    }

    /** A listing on a data connection, if one can be made, uses up the mode. */
    twostate predicate Listed(filter: Name)
      reads this, priv
    {
      if old(CanTransfer()) && !(filter != [] && access.denied(filter))
      then portSockaddr.None? && priv.listenFd == -1
      else ModesKept()
    }

    /** The entry of the command is recorded as a success, with the effect of the command, or pending and
        without. */
    twostate predicate ActedOn(entry: Entry, name: Name)
      reads this, priv
    {
      && ModesKept()
      && if logType.Some? then journal == old(journal) + [Started(entry)] && tree == old(tree)
         else
           && journal == old(journal) + [Started(entry)] + [Recorded(entry, true)]
           && Acted(entry, name, old(tree), tree) && !access.denied(name)
    }

    /** What a command that sets up a mode does. */
    twostate predicate ModeEffect(cmd: Command)
      reads this, priv
    {
      match cmd
      case Pasv => Listens()
      case Epsv(arg) =>
        if arg.All? then epsvAll && ModesKept()
        else if arg.NoArg? || (arg.Protocol? && Supported(arg.n)) then Listens()
        else ModesKept()
      case Port(text) => priv.listenFd == -1 && portSockaddr == KeptAddress(cfg, PortNames(cfg.isIpv6, text))
      case Eprt(text) => priv.listenFd == -1 && portSockaddr == KeptAddress(cfg, EprtNames(cfg.isIpv6, text))
      case _ => true
    }

    /** What a command that uses a data connection does: with a mode on, an entry is written. */
    twostate predicate TransferEffect(cmd: Command)
      reads this, priv
    {
      match cmd
      case List(filter) => Listed(filter)
      case Nlst(filter) => Listed(filter)
      case StatFile(_) => ModesKept()
      case Retr(_) =>
        && restartPos == 0
        && (journal != old(journal) <==> old(CanTransfer()) && !(old(isAscii) && old(restartPos) != 0))
      case _ => restartPos == 0 && (journal != old(journal) <==> old(CanTransfer()))
    }

    /** What a command that acts on a name does. */
    twostate predicate ActionEffect(cmd: Command)
      reads this, priv
    {
      match cmd
      case Mkd(name) => ActedOn(Mkdir, name)
      case Rmd(name) => ActedOn(Rmdir, name)
      case Dele(name) => ActedOn(Delete, name)
      case SiteChmod(name) => ActedOn(Chmod, name)
      case Rnfr(name) =>
        ModesKept() && if rnfr == [] then logType == Some(Rename) else rnfr == name && name in tree && logType.None?
      case Rnto(name) =>
        && ModesKept()
        && if old(rnfr) == [] then logType.None? && journal == old(journal)
           else if logType.Some? then journal == old(journal) + [Started(Rename)] && tree == old(tree)
           else Moved(old(tree), tree, old(rnfr), name)
      case _ => true
    }

    /** What the other commands do. */
    twostate predicate OtherEffect(cmd: Command)
      reads this, priv
    {
      && ModesKept()
      && match cmd
         case Rest(text) => restartPos == FilesizeOf(text)
         case Type(ascii) => isAscii == ascii
         case Prot(private) => dataUseSsl == if cfg.controlUseSsl then private else old(dataUseSsl)
         case Quit => false
         case _ => true
    }

    /** What a command that is not refused has done when it is over. */
    twostate predicate Effect(cmd: Command)
      reads this, priv
    {
      if IsMode(cmd) then ModeEffect(cmd)
      else if IsAction(cmd) then ActionEffect(cmd)
      else if IsTransfer(cmd) then TransferEffect(cmd)
      else OtherEffect(cmd)
    }

    /** Each command leaves alone what others have set: RETR and the uploads use up the restart position,
        which REST sets, and nothing else touches it; likewise the representation type, the protection,
        the name that RNFR remembers, and EPSV ALL, which is for good. */
    twostate predicate Kept(cmd: Command)
      reads this
    {
      && (restartPos == old(restartPos) || cmd.Rest? || cmd.Retr? || cmd.Stor? || cmd.Stou? || cmd.Appe?)
      && (isAscii == old(isAscii) || cmd.Type?)
      && (dataUseSsl == old(dataUseSsl) || cmd.Prot?)
      && (rnfr == old(rnfr) || cmd.Rnfr? || cmd.Rnto?)
      && epsvAll == (old(epsvAll) || cmd == Epsv(All))
    }

    /** A refused command has done nothing. */
    twostate predicate NoEffect()
      reads this, priv
    {
      && portSockaddr == old(portSockaddr) && priv.St() == old(priv.St()) && calls == old(calls)
      && epsvAll == old(epsvAll) && restartPos == old(restartPos) && isAscii == old(isAscii) && rnfr == old(rnfr)
      && dataUseSsl == old(dataUseSsl) && journal == old(journal) && logType == old(logType)
      && open == old(open) && tree == old(tree)
    }

    /** An upload, with what it does to the tree. */
    method UploadTo(cmd: Command, name: Name, isAppend: bool, isUnique: bool) returns (st: Status)
      requires Ready()
      requires if isAppend then cmd.Appe? && !isUnique else if isUnique then cmd.Stou? else cmd.Stor?
      modifies `restartPos, `dataFd, `ioHandler, `dataSsl, `aborReceived, `dataTimeout, `asked, `faults, `logType,
        `journal, `portSockaddr, `open, `tree, `given, `calls, priv
      ensures st != Bug && (st == Running ==> Settled() && Wrote(old(journal), journal, Some(Upload)))
      ensures st == Running ==> restartPos == 0 && (journal != old(journal) <==> old(CanTransfer()))
      ensures TreeStep(cmd, old(tree), tree)
    {
      hide WellLogged, WellFormed, Session.Modes, Session.Wired, Session.Journaled, Session.Helped;
      hide Wrote, UploadResult, Left;
      Unchanged(tree);
      ghost var up;
      st, up := HandleUploadCommon(name, isAppend, isUnique);
      if up.made {
        var before := ContentAt(old(tree), up.target);
        var content := UploadResult(before, Exclusive(isUnique), isAppend, old(restartPos), up.report.moved);
        var succeeded := st == Running && Complete(up.report);
        LeftIsFile(old(tree), tree, up.target, content, st == Running, succeeded, cfg.deleteFailedUploads);
        if Exclusive(isUnique) {
          LeftKeeps(old(tree), tree, up.target, content, st == Running, succeeded, cfg.deleteFailedUploads);
        }
      }
    }

    /** The listings. */
    method DispatchListing(cmd: Command) returns (st: Status)
      requires Ready() && (cmd.List? || cmd.Nlst? || cmd.StatFile?)
      modifies `dataFd, `ioHandler, `dataSsl, `aborReceived, `dataTimeout, `asked, `faults, `portSockaddr, `open,
        `calls, priv
      ensures st != Bug && (st == Running ==> Ready() && TransferEffect(cmd))
    {
      hide WellLogged, WellFormed, Session.Modes, Session.Wired, Session.Journaled, Session.Helped;
      hide Session.CanTransfer, Session.Remembered;
      match cmd {
        case List(filter) => st := HandleDirCommon(false, filter);
        case Nlst(filter) => st := HandleDirCommon(false, filter);
        case StatFile(filter) => st := HandleDirCommon(true, filter);
      }
    }

    /** The commands that use a data connection. */
    method DispatchTransfer(cmd: Command) returns (st: Status)
      requires Ready() && IsTransfer(cmd)
      modifies `restartPos, `dataFd, `ioHandler, `dataSsl, `aborReceived, `dataTimeout, `asked, `faults, `logType,
        `journal, `portSockaddr, `open, `tree, `given, `calls, priv
      ensures Kept(cmd)
      ensures st != Bug && (st == Running ==> Settled() && Wrote(old(journal), journal, EntryOf(cmd)))
      ensures TreeStep(cmd, old(tree), tree) && (st == Running ==> TransferEffect(cmd))
    {
      hide WellLogged, WellFormed, Session.Modes, Session.Wired, Session.Journaled, Session.Helped;
      WroteNothing(journal);
      Unchanged(tree);
      hide Wrote, Session.TreeStep, Session.CanTransfer, Session.Sent, Complete, Session.Remembered;
      match cmd {
        case Retr(name) =>
          ghost var report;
          st, report := HandleRetr(name);
        case Stor(name) => st := UploadTo(cmd, name, false, false);
        case Stou(name) => st := UploadTo(cmd, name, false, true);
        case Appe(name) => st := UploadTo(cmd, name, true, false);
        case List(_) => st := DispatchListing(cmd);
        case Nlst(_) => st := DispatchListing(cmd);
        case StatFile(_) => st := DispatchListing(cmd);
      }
    }

    /** The commands that set up data connections. */
    method DispatchMode(cmd: Command) returns (st: Status)
      requires Ready() && IsMode(cmd) && Enabled(cmd)
      modifies `epsvAll, `portSockaddr, `aborReceived, `dataTimeout, `asked, `calls, priv
      ensures st != Bug && (st == Running ==> Ready() && ModeEffect(cmd)) && Kept(cmd)
    {
      hide WellLogged, WellFormed, Session.Modes, Session.Wired, Session.Journaled, Session.Helped;
      var announced;
      match cmd {
        case Pasv => st, announced := HandlePasv(false, NoArg);
        case Epsv(arg) => st, announced := HandlePasv(true, arg);
        case Port(text) => st := HandlePort(text);
        case Eprt(text) => st := HandleEprt(text);
      }
    }

    /** The commands that act on a name. */
    method DispatchAction(cmd: Command) returns (st: Status)
      requires Ready() && IsAction(cmd)
      modifies `rnfr, `aborReceived, `dataTimeout, `asked, `logType, `journal, `tree
      ensures Kept(cmd)
      ensures st != Bug && (st == Running ==> Settled() && Wrote(old(journal), journal, EntryOf(cmd)))
      ensures TreeStep(cmd, old(tree), tree) && (st == Running ==> ActionEffect(cmd))
    {
      hide WellLogged, WellFormed, Session.Modes, Session.Wired, Session.Journaled, Session.Helped, Wrote;
      hide Session.CanTransfer;
      Unchanged(tree);
      match cmd {
        case Mkd(name) => st := LoggedStep(cmd, Mkdir, name);
        case Rmd(name) => st := LoggedStep(cmd, Rmdir, name);
        case Dele(name) => st := LoggedStep(cmd, Delete, name);
        case SiteChmod(name) => st := LoggedStep(cmd, Chmod, name);
        case Rnfr(name) => st := HandleRnfr(name);
        case Rnto(name) =>
          st := HandleRnto(name);
          if tree != old(tree) { MovedStep(old(rnfr), name, old(tree), tree); }
      }
    }

    /** A command with an entry, with what it does to the tree. */
    method LoggedStep(cmd: Command, entry: Entry, name: Name) returns (st: Status)
      requires Ready() && EntryOf(cmd) == Some(entry) && (cmd.Mkd? || cmd.Rmd? || cmd.Dele? || cmd.SiteChmod?)
      modifies `aborReceived, `dataTimeout, `asked, `logType, `journal, `tree
      ensures st != Bug && (st == Running ==> Settled() && Wrote(old(journal), journal, Some(entry)))
      ensures TreeStep(cmd, old(tree), tree) && (st == Running ==> ActedOn(entry, name))
    {
      hide WellLogged, WellFormed, Session.Modes, Session.Wired, Session.Journaled, Session.Helped, Wrote;
      Unchanged(tree);
      st := HandleLogged(entry, name);
      if tree != old(tree) { ActedStep(cmd, entry, name, old(tree), tree); }
    }

    /** The commands that only set something, and the others. */
    method DispatchOther(cmd: Command) returns (st: Status)
      requires Ready() && !IsMode(cmd) && !IsAction(cmd) && !IsTransfer(cmd)
      modifies `restartPos, `isAscii, `dataUseSsl, `aborReceived, `dataTimeout, `asked
      ensures st != Bug && (st == Running ==> Ready() && OtherEffect(cmd)) && Kept(cmd)
    {
      hide WellLogged, WellFormed, Session.Modes, Session.Wired, Session.Journaled, Session.Helped, FilesizeOf;
      hide Session.Remembered, Session.CanTransfer;
      match cmd {
        case Rest(text) =>
          restartPos := ParseFilesize(text);
          st := Reply();
        case Type(ascii) =>
          isAscii := ascii;
          st := Reply();
        case Prot(private) =>
          HandleProt(private);
          st := Reply();
        case Quit => st := ReplyExit();
        case Other => st := Reply();
      }
    }

    /** The handler of a command. */
    method Dispatch(cmd: Command) returns (st: Status)
      requires Ready() && Enabled(cmd)
      modifies this, priv
      ensures st != Bug && (st == Running ==> Settled() && Wrote(old(journal), journal, EntryOf(cmd)))
      ensures TreeStep(cmd, old(tree), tree) && (st == Running ==> Effect(cmd)) && Kept(cmd)
    {
      hide WellLogged, WellFormed, Session.Modes, Session.Wired, Session.Journaled, Session.Helped;
      WroteNothing(journal);
      Unchanged(tree);
      hide Wrote, Session.TreeStep, Session.Kept;
      hide Session.ModeEffect, Session.ActionEffect, Session.TransferEffect, Session.OtherEffect;
      if IsMode(cmd) {
        st := DispatchMode(cmd);
      } else if IsAction(cmd) {
        st := DispatchAction(cmd);
      } else if IsTransfer(cmd) {
        st := DispatchTransfer(cmd);
      } else {
        st := DispatchOther(cmd);
      }
    }

    /** A command: if a setting refuses it, it does nothing, and otherwise what it is for. */
    method Execute(cmd: Command) returns (st: Status)
      requires Ready()
      modifies this, priv
      ensures st != Bug && (st == Running ==> Settled() && Wrote(old(journal), journal, EntryOf(cmd)))
      ensures Restrained(old(tree), tree)
      ensures st == Running ==> AllMayBeLogged(cfg, journal, |old(journal)|)
      ensures if Refused(cfg, old(epsvAll), cmd) then NoEffect() else Kept(cmd) && (st == Running ==> Effect(cmd))
      ensures old(epsvAll) ==> epsvAll
    {
      hide WellLogged, WellFormed, Session.Modes, Session.Wired, Session.Journaled, Session.Helped;
      WroteNothing(journal);
      hide Wrote, Session.TreeStep, Session.Restrained, Session.Enabled, Session.Effect, Refused;
      Unchanged(tree);
      EnabledUnlessRefused(cmd);
      if Enabled(cmd) {
        st := Dispatch(cmd);
        StepIsRestrained(old(epsvAll), cmd, old(tree), tree);
        if st == Running { LoggedIfNotRefused(cfg, old(epsvAll), cmd, old(journal), journal); }
      } else {
        st := Reply();
      }
    }

    /** `vsf_cmdio_get_cmd_and_arg`: the session ends if no command comes. */
    method GetCommand() returns (st: Status)
      requires Helped()
      modifies `aborReceived, `dataTimeout, `asked
      ensures Helped() && st != Bug
    {
      hide Session.Helped;
      st := Async();
      var n: Int32 := *;
      if cfg.controlUseSsl {
        ghost var line: SslHelper.Text :| |line| <= SslHelper.MAX_COMMAND_LINE;
        AskKept(SslHelper.GetUserCmd, SslHelper.Got(n, line));
      }
      if st == Running && n <= 0 { st := Exit; }
    }

    /** The record of a pending entry is within the settings if its start is. */
    lemma PendingMayBeLogged(before: seq<LogEvent>, logged: seq<LogEvent>, pending: Entry)
      requires AllMayBeLogged(cfg, logged, |before|) && before <= logged && WellLogged(before)
      requires logged != [] && logged[|logged| - 1] == Started(pending) && WellLogged(logged[..|logged| - 1])
      ensures AllMayBeLogged(cfg, logged + [Recorded(pending, false)], |before|)
    {
      EvenLength(before);
      EvenLength(logged[..|logged| - 1]);
    }

    /** One turn of the loop in `process_post_login`. */
    method Turn(cmd: Command) returns (st: Status)
      requires Ready()
      modifies this, priv
      ensures st != Bug && (st == Running ==> Ready()) && Restrained(old(tree), tree)
      ensures st == Running ==>
        Wrote(old(journal), journal, EntryOf(cmd)) && AllMayBeLogged(cfg, journal, |old(journal)|)
      ensures st == Running ==> !dataTimeout
      ensures old(epsvAll) ==> epsvAll
      ensures Refused(cfg, old(epsvAll), cmd) ==> NoEffect()
    {
      hide WellLogged, WellFormed, Session.Modes, Session.Wired, Session.Helped, Session.Restrained, Wrote, Refused;
      hide Session.Effect, Session.Kept, Session.Remembered, AllMayBeLogged;
      Unchanged(tree);
      st := GetCommand();
      if st != Running { return; }
      st := Execute(cmd);
      if st != Running { return; }
      if logType.Some? {
        EntryFinished(old(journal), journal, logType.value, EntryOf(cmd));
        assert WellLogged(old(journal)) && WellLogged(journal[..|journal| - 1]);
        hide Session.Journaled, Session.Helped;
        ghost var logged, pending := journal, logType.value;
        DoLog(false);
        PendingMayBeLogged(old(journal), logged, pending);
      }
      if dataTimeout { st := ReplyExit(); }
    }

    /** `process_post_login`: whatever the client sends, no check fires, every command that completes
        leaves nothing behind, and the files and the log stay within what the settings allow. Passive
        mode, and active mode, are never on when the settings forbid them, and EPSV ALL is for good. */
    method Serve(commands: seq<Command>) returns (st: Status)
      requires Ready()
      modifies this, priv
      ensures st != Bug && (st == Running ==> Ready()) && Restrained(old(tree), tree)
      ensures st == Running ==> old(journal) <= journal && AllMayBeLogged(cfg, journal, |old(journal)|)
      ensures st == Running ==> (!cfg.pasvEnable ==> priv.listenFd == -1) && (!cfg.portEnable ==> portSockaddr.None?)
      ensures old(epsvAll) ==> epsvAll
    {
      Unchanged(tree);
      for i := 0 to |commands|
        invariant Ready() && Restrained(old(tree), tree) && (old(epsvAll) ==> epsvAll)
        invariant old(journal) <= journal && AllMayBeLogged(cfg, journal, |old(journal)|)
      {
        ghost var before := tree;
        hide Session.Restrained, Session.Effect, Refused, Session.Modes, Session.Wired, WellLogged, Session.Helped;
        st := Turn(commands[i]);
        RestrainedTrans(old(tree), before, tree);
        if st != Running { return; }
      }
      return Running;
    }

    // ----- with two processes

    /** What a session asks for is asked for in some run of child and parent, with the same
        results; */
    lemma AskedOfParent() returns (run: Broker.Run, s: Broker.Pair)
      requires Modes()
      ensures Lockstep.Reaches(Broker.Protocol(cfg.priv), Broker.Launched(), run, s)
      ensures s.client.Idle? && s.log == calls
    {
      run, s := Broker.HistoriesHappen(cfg.priv, calls);
    }

    /** and in every such run the parent has the listening socket that the session counts on, so
        it never listens while the child has a port to connect to. */
    lemma NeverBothModes(run: Broker.Run, s: Broker.Pair)
      requires Modes()
      requires Lockstep.Reaches(Broker.Protocol(cfg.priv), Broker.Launched(), run, s)
      requires s.client.Idle? && s.log == calls
      ensures s.st.listenFd == priv.listenFd && s.cl == (priv.listenFd != -1)
      ensures s.st.listenFd != -1 ==> portSockaddr.None?
    {
      Broker.ParentFollows(cfg.priv, run, s);
    }

    // ----- with the helper

    /** What a session asks its helper is asked in some run of consumer and helper; */
    lemma AskedOfHelper() returns (run: SslHelper.Run, s: SslHelper.Pair)
      requires Helped() && cfg.sslSlave
      ensures Lockstep.Reaches(SslHelper.Protocol(), SslHelper.Launched(), run, s)
      ensures s.client.Idle? && s.log == asked
    {
      run, s := SslHelper.HistoriesHappen(asked);
    }

    /** and in every such run the helper has a TLS object exactly when the session counts on one,
        for the session's connection. */
    lemma HelperAgrees(run: SslHelper.Run, s: SslHelper.Pair)
      requires Helped() && cfg.sslSlave
      requires Lockstep.Reaches(SslHelper.Protocol(), SslHelper.Launched(), run, s)
      requires s.client.Idle? && s.log == asked
      ensures s.st == if dataSsl then SslHelper.State(dataFd, true) else SslHelper.CLEAN
    {
      SslHelper.HelperFollows(run, s);
    }
  }
}
