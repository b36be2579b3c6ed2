/**
The policies that `seccompsandbox.c` installs before and after login, for every setting of
the options, and what the filters compiled from them enforce.
*/
module Policy {
  import opened Bpf
  import opened FilterCompiler
  import opened Sandbox
  import opened Process

  /** The options the setup functions consult, and the session's `is_anonymous`. */
  datatype Config = Config(
    portEnable: bool, pasvEnable: bool, idleTimeout: nat, dataTimeout: nat,
    xferlog: bool, dualLog: bool, ssl: bool, syslog: bool, write: bool, lockUploads: bool,
    asyncAbor: bool, useSendfile: bool, oneProcess: bool, chownUploads: bool, textUserdb: bool,
    anonMkdir: bool, anonOther: bool, deleteFailed: bool, mdtmWrite: bool, chmodEnable: bool,
    anonymous: bool, pid: CInt)

  // x86-64 system call numbers
  const NR_READ: CInt := 0
  const NR_WRITE: CInt := 1
  const NR_OPEN: CInt := 2
  const NR_CLOSE: CInt := 3
  const NR_STAT: CInt := 4
  const NR_FSTAT: CInt := 5
  const NR_LSTAT: CInt := 6
  const NR_LSEEK: CInt := 8
  const NR_MMAP: CInt := 9
  const NR_MPROTECT: CInt := 10
  const NR_MUNMAP: CInt := 11
  const NR_BRK: CInt := 12
  const NR_RT_SIGACTION: CInt := 13
  const NR_RT_SIGRETURN: CInt := 15
  const NR_SELECT: CInt := 23
  const NR_MREMAP: CInt := 25
  const NR_NANOSLEEP: CInt := 35
  const NR_ALARM: CInt := 37
  const NR_GETPID: CInt := 39
  const NR_SENDFILE: CInt := 40
  const NR_SOCKET: CInt := 41
  const NR_CONNECT: CInt := 42
  const NR_ACCEPT: CInt := 43
  const NR_SENDTO: CInt := 44
  const NR_RECVFROM: CInt := 45
  const NR_SENDMSG: CInt := 46
  const NR_RECVMSG: CInt := 47
  const NR_SHUTDOWN: CInt := 48
  const NR_BIND: CInt := 49
  const NR_LISTEN: CInt := 50
  const NR_SETSOCKOPT: CInt := 54
  const NR_GETSOCKOPT: CInt := 55
  const NR_FCNTL: CInt := 72
  const NR_FTRUNCATE: CInt := 77
  const NR_GETDENTS: CInt := 78
  const NR_GETCWD: CInt := 79
  const NR_CHDIR: CInt := 80
  const NR_RENAME: CInt := 82
  const NR_MKDIR: CInt := 83
  const NR_RMDIR: CInt := 84
  const NR_UNLINK: CInt := 87
  const NR_READLINK: CInt := 89
  const NR_CHMOD: CInt := 90
  const NR_FCHMOD: CInt := 91
  const NR_FCHOWN: CInt := 93
  const NR_UMASK: CInt := 95
  const NR_GETTIMEOFDAY: CInt := 96
  const NR_UTIME: CInt := 132
  const NR_RESTART_SYSCALL: CInt := 219
  const NR_EXIT_GROUP: CInt := 231
  const NR_UTIMES: CInt := 235
  const NR_OPENAT: CInt := 257

  const EACCES: CInt := 13
  const ENOSYS: CInt := 38
  const PF_INET: CInt := 2
  const PF_INET6: CInt := 10
  const SOCK_STREAM: CInt := 1
  const IPPROTO_IP: CInt := 0
  const IPPROTO_TCP: CInt := 6
  const IP_TOS: CInt := 1
  const TCP_NODELAY: CInt := 1
  const SOL_SOCKET: CInt := 1
  const SO_REUSEADDR: CInt := 2
  const SO_ERROR: CInt := 4
  const SO_KEEPALIVE: CInt := 9
  const SO_LINGER: CInt := 13
  const F_GETFL: CInt := 3
  const F_SETFL: CInt := 4
  const F_SETLK: CInt := 6
  const F_SETLKW: CInt := 7
  const F_SETOWN: CInt := 8
  const O_RDWR: CInt := 2
  const O_CREAT: CInt := 0x40
  const O_EXCL: CInt := 0x80
  const O_APPEND: CInt := 0x400
  const O_NONBLOCK: CInt := 0x800
  const O_LARGEFILE: CInt := 0x8000
  const O_DIRECTORY: CInt := 0x1_0000
  const O_CLOEXEC: CInt := 0x8_0000
  const O_ACCMODE: CInt := 3
  const MSG_PEEK: CInt := 2
  const PROT_READ: CInt := 1
  const PROT_READ_WRITE: CInt := 3
  const MAP_SHARED: CInt := 1
  const MAP_PRIVATE_ANON: CInt := 0x22
  const OPEN_FLAGS: CInt := O_CREAT + O_EXCL + O_APPEND + O_NONBLOCK + O_DIRECTORY + O_CLOEXEC + O_LARGEFILE

  /** One of `calls` is about system call `n`. */
  ghost predicate Names(calls: seq<Call>, n: int) {
    exists i :: 0 <= i < |calls| && calls[i].nr == n
  }

  /** A setup: a group of calls, one setup after another, or a setup an option asks for. */
  datatype Plan = Group(calls: seq<Call>) | Both(first: Plan, second: Plan) | If(option: bool, part: Plan)

  /** The calls of a plan in the order they are made. */
  function Calls(p: Plan): seq<Call> {
    match p
    case Group(calls) => calls
    case Both(a, b) => Calls(a) + Calls(b)
    case If(b, a) => if b then Calls(a) else []
  }

  predicate PlanOk(p: Plan) {
    match p
    case Group(calls) => CallsOk(calls)
    case Both(a, b) => PlanOk(a) && PlanOk(b)
    case If(b, a) => PlanOk(a)
  }

  /** An upper bound on the number of calls. */
  function Size(p: Plan): nat {
    match p
    case Group(calls) => |calls|
    case Both(a, b) => Size(a) + Size(b)
    case If(b, a) => Size(a)
  }

  /** One of the calls of the plan is about system call `n`. */
  ghost predicate About(p: Plan, n: int) {
    match p
    case Group(calls) => Names(calls, n)
    case Both(a, b) => About(a, n) || About(b, n)
    case If(b, a) => b && About(a, n)
  }

  lemma {:induction false} AboutIsNames(p: Plan, n: int)
    ensures About(p, n) <==> Names(Calls(p), n)
  {
    match p
    case Group(_) =>
    case Both(a, b) =>
      AboutIsNames(a, n);
      AboutIsNames(b, n);
      NamesConcat(Calls(a), Calls(b), n);
    case If(_, a) => AboutIsNames(a, n);
  }

  lemma NamesConcat(a: seq<Call>, b: seq<Call>, n: int)
    ensures Names(a + b, n) <==> Names(a, n) || Names(b, n)
  {
    if i :| 0 <= i < |a| && a[i].nr == n { assert (a + b)[i].nr == n; }
    if i :| 0 <= i < |b| && b[i].nr == n { assert (a + b)[|a| + i].nr == n; }
  }

  function Do(calls: seq<Call>): (r: Plan)
    requires CallsOk(calls)
    ensures PlanOk(r) && Size(r) == |calls| && (forall n :: About(r, n) <==> Names(calls, n))
  {
    Group(calls)
  }

  /** `p` when the option asks for it. */
  function When(b: bool, p: Plan): (r: Plan)
    ensures (PlanOk(p) ==> PlanOk(r)) && Size(r) <= Size(p) && (forall n :: About(r, n) ==> About(p, n))
  {
    If(b, p)
  }

  /** First `a`, then `b`. */
  function Then(a: Plan, b: Plan): (r: Plan)
    ensures (PlanOk(a) && PlanOk(b) ==> PlanOk(r)) && Size(r) == Size(a) + Size(b) 
    ensures forall n :: About(r, n) <==> About(a, n) || About(b, n)
  {
    Both(a, b)
  }

  // ----- what the policies speak about, by number

  predicate BaseCall(n: int) {
    n in {NR_READ, NR_WRITE, NR_MMAP, NR_MPROTECT, NR_MUNMAP, NR_BRK, NR_MREMAP, NR_GETTIMEOFDAY,
          NR_RT_SIGRETURN, NR_RESTART_SYSCALL, NR_CLOSE, NR_EXIT_GROUP}
  }

  predicate ControlCall(n: int) {
    n in {NR_RECVFROM, NR_NANOSLEEP, NR_GETPID, NR_SHUTDOWN, NR_FCNTL, NR_RT_SIGACTION, NR_ALARM, NR_RECVMSG,
          NR_SETSOCKOPT}
  }

  predicate ConnectionCall(n: int) {
    n in {NR_SOCKET, NR_BIND, NR_SELECT, NR_CONNECT, NR_GETSOCKOPT, NR_SETSOCKOPT, NR_FCNTL, NR_LISTEN, NR_ACCEPT}
  }

  predicate ReadingCall(n: int) {
    n in {NR_LSTAT, NR_FSTAT, NR_LSEEK, NR_OPEN, NR_OPENAT, NR_STAT, NR_READLINK, NR_GETCWD, NR_CHDIR, NR_GETDENTS,
          NR_UMASK, NR_SENDFILE}
  }

  predicate PassingCall(n: int) {
    n in {NR_RECVMSG, NR_SENDMSG, NR_SENDTO, NR_MMAP, NR_SOCKET}
  }

  /** The calls that change the owner of an upload, where the session does that itself. */
  predicate OwnerCall(c: Config, n: int) {
    c.oneProcess && c.anonymous && c.chownUploads && n in {NR_FCHMOD, NR_FCHOWN}
  }

  predicate WritingCall(c: Config, n: int) {
    c.write && n in {NR_MKDIR, NR_UNLINK, NR_RMDIR, NR_RENAME, NR_FTRUNCATE, NR_UTIME, NR_UTIMES, NR_CHMOD}
  }

  /** The calls that only some configurations ask for after login. */
  predicate OptionalCall(c: Config, n: int) {
    ConnectionCall(n) || PassingCall(n) || OwnerCall(c, n) || WritingCall(c, n)
  }

  // ----- the groups of calls, named

  function OpenFlag(c: Config): CInt {
    if c.write then OPEN_FLAGS + O_ACCMODE else OPEN_FLAGS
  }

  function Sockets(): (r: seq<Call>)
    ensures CallsOk(r) && |r| == 2
    ensures forall n :: Names(r, n) ==> n in {NR_SOCKET}
  {
    [Allow3Match(NR_SOCKET, 1, PF_INET, 2, SOCK_STREAM, 3, IPPROTO_TCP),
     Allow3Match(NR_SOCKET, 1, PF_INET6, 2, SOCK_STREAM, 3, IPPROTO_TCP)]
  }

  function Binding(): (r: seq<Call>)
    ensures CallsOk(r) && |r| == 2
    ensures forall n :: Names(r, n) ==> n in {NR_BIND, NR_SELECT}
  {
    [AllowNr(NR_BIND), AllowNr(NR_SELECT)]
  }

  function ActiveMode(): (r: seq<Call>)
    ensures CallsOk(r) && |r| == 6
    ensures forall n :: Names(r, n) ==> n in {NR_CONNECT, NR_GETSOCKOPT, NR_SETSOCKOPT, NR_FCNTL}
  {
    [AllowNr(NR_CONNECT),
     Allow2Match(NR_GETSOCKOPT, 2, SOL_SOCKET, 3, SO_ERROR),
     Allow2Match(NR_SETSOCKOPT, 2, SOL_SOCKET, 3, SO_REUSEADDR),
     Allow1Match(NR_FCNTL, 2, F_GETFL),
     Allow2Match(NR_FCNTL, 2, F_SETFL, 3, O_RDWR + O_NONBLOCK),
     Allow2Match(NR_FCNTL, 2, F_SETFL, 3, O_RDWR)]
  }

  function PassiveMode(): (r: seq<Call>)
    ensures CallsOk(r) && |r| == 2
    ensures forall n :: Names(r, n) ==> n in {NR_LISTEN, NR_ACCEPT}
  {
    [AllowNr(NR_LISTEN), AllowNr(NR_ACCEPT)]
  }

  function Base(): (r: seq<Call>)
    ensures CallsOk(r) && |r| == 12
    ensures forall n :: Names(r, n) ==> BaseCall(n)
  {
    [AllowNr(NR_READ),
     AllowNr(NR_WRITE),
     Allow2Match(NR_MMAP, 3, PROT_READ_WRITE, 4, MAP_PRIVATE_ANON),
     Allow1Mask(NR_MPROTECT, 3, PROT_READ),
     AllowNr(NR_MUNMAP),
     AllowNr(NR_BRK),
     RejectNr(NR_MREMAP, ENOSYS),
     AllowNr(NR_GETTIMEOFDAY),
     AllowNr(NR_RT_SIGRETURN),
     AllowNr(NR_RESTART_SYSCALL),
     AllowNr(NR_CLOSE),
     AllowNr(NR_EXIT_GROUP)]
  }

  function ControlChannel(): (r: seq<Call>)
    ensures CallsOk(r) && |r| == 6
    ensures forall n :: Names(r, n) ==> n in {NR_RECVFROM, NR_NANOSLEEP, NR_GETPID, NR_SHUTDOWN, NR_FCNTL}
  {
    [Allow1Match(NR_RECVFROM, 4, MSG_PEEK),
     AllowNr(NR_NANOSLEEP),
     AllowNr(NR_GETPID),
     AllowNr(NR_SHUTDOWN),
     Allow1Match(NR_FCNTL, 2, F_GETFL),
     Allow2MaskMatch(NR_FCNTL, 3, OPEN_FLAGS + O_ACCMODE, 2, F_SETFL)]
  }

  function Timer(): (r: seq<Call>)
    ensures CallsOk(r) && |r| == 2
    ensures forall n :: Names(r, n) ==> n in {NR_RT_SIGACTION, NR_ALARM}
  {
    [AllowNr(NR_RT_SIGACTION), AllowNr(NR_ALARM)]
  }

  function Locks(): (r: seq<Call>)
    ensures CallsOk(r) && |r| == 2
    ensures forall n :: Names(r, n) ==> n in {NR_FCNTL}
  {
    [Allow1Match(NR_FCNTL, 2, F_SETLKW), Allow1Match(NR_FCNTL, 2, F_SETLK)]
  }

  function SslChannel(): (r: seq<Call>)
    ensures CallsOk(r) && |r| == 2
    ensures forall n :: Names(r, n) ==> n in {NR_RECVMSG, NR_SETSOCKOPT}
  {
    [Allow1Match(NR_RECVMSG, 3, 0), Allow2Match(NR_SETSOCKOPT, 2, IPPROTO_TCP, 3, TCP_NODELAY)]
  }

  function DenySocket(): (r: seq<Call>)
    ensures CallsOk(r) && |r| == 1
    ensures forall n :: Names(r, n) ==> n in {NR_SOCKET}
  {
    [RejectNr(NR_SOCKET, EACCES)]
  }

  function Lstat(): (r: seq<Call>)
    ensures CallsOk(r) && |r| == 1
    ensures forall n :: Names(r, n) ==> n in {NR_LSTAT}
  {
    [AllowNr(NR_LSTAT)]
  }

  function Owner(c: Config): (r: seq<Call>)
    ensures CallsOk(r) && |r| == 1
    ensures forall n :: Names(r, n) ==> n in {NR_FCNTL}
  {
    [Allow2Match(NR_FCNTL, 2, F_SETOWN, 3, c.pid)]
  }

  function Descriptors(): (r: seq<Call>)
    ensures CallsOk(r) && |r| == 5
    ensures forall n :: Names(r, n) ==> n in {NR_SETSOCKOPT, NR_FSTAT, NR_LSEEK}
  {
    [Allow2Match(NR_SETSOCKOPT, 2, SOL_SOCKET, 3, SO_KEEPALIVE),
     Allow2Match(NR_SETSOCKOPT, 2, SOL_SOCKET, 3, SO_LINGER),
     Allow2Match(NR_SETSOCKOPT, 2, IPPROTO_IP, 3, IP_TOS),
     AllowNr(NR_FSTAT),
     AllowNr(NR_LSEEK)]
  }

  function Opens(c: Config): (r: seq<Call>)
    ensures CallsOk(r) && |r| == 2
    ensures forall n :: Names(r, n) ==> n in {NR_OPEN, NR_OPENAT}
  {
    [Allow1Mask(NR_OPEN, 2, OpenFlag(c)), Allow1Mask(NR_OPENAT, 3, OpenFlag(c))]
  }

  function Paths(): (r: seq<Call>)
    ensures CallsOk(r) && |r| == 6
    ensures forall n :: Names(r, n) ==> n in {NR_STAT, NR_READLINK, NR_GETCWD, NR_CHDIR, NR_GETDENTS, NR_UMASK}
  {
    [AllowNr(NR_STAT),
     AllowNr(NR_READLINK),
     AllowNr(NR_GETCWD),
     AllowNr(NR_CHDIR),
     AllowNr(NR_GETDENTS),
     AllowNr(NR_UMASK)]
  }

  function Sendfile(): (r: seq<Call>)
    ensures CallsOk(r) && |r| == 1
    ensures forall n :: Names(r, n) ==> n in {NR_SENDFILE}
  {
    [AllowNr(NR_SENDFILE)]
  }

  function SigAction(): (r: seq<Call>)
    ensures CallsOk(r) && |r| == 1
    ensures forall n :: Names(r, n) ==> n in {NR_RT_SIGACTION}
  {
    [AllowNr(NR_RT_SIGACTION)]
  }

  function Alarm(): (r: seq<Call>)
    ensures CallsOk(r) && |r| == 1
    ensures forall n :: Names(r, n) ==> n in {NR_ALARM}
  {
    [AllowNr(NR_ALARM)]
  }

  function Chown(): (r: seq<Call>)
    ensures CallsOk(r) && |r| == 2
    ensures forall n :: Names(r, n) ==> n in {NR_FCHMOD, NR_FCHOWN}
  {
    [AllowNr(NR_FCHMOD), AllowNr(NR_FCHOWN)]
  }

  function ReceiveFd(): (r: seq<Call>)
    ensures CallsOk(r) && |r| == 1
    ensures forall n :: Names(r, n) ==> n in {NR_RECVMSG}
  {
    [Allow1Match(NR_RECVMSG, 3, 0)]
  }

  function SendFd(): (r: seq<Call>)
    ensures CallsOk(r) && |r| == 1
    ensures forall n :: Names(r, n) ==> n in {NR_SENDMSG}
  {
    [Allow1Match(NR_SENDMSG, 3, 0)]
  }

  function SyslogSend(): (r: seq<Call>)
    ensures CallsOk(r) && |r| == 1
    ensures forall n :: Names(r, n) ==> n in {NR_SENDTO}
  {
    [Allow1Match(NR_SENDTO, 6, 0)]
  }

  function SharedMap(): (r: seq<Call>)
    ensures CallsOk(r) && |r| == 1
    ensures forall n :: Names(r, n) ==> n in {NR_MMAP}
  {
    [Allow2Match(NR_MMAP, 3, PROT_READ, 4, MAP_SHARED)]
  }

  function MakeDir(): (r: seq<Call>)
    ensures CallsOk(r) && |r| == 1
    ensures forall n :: Names(r, n) ==> n in {NR_MKDIR}
  {
    [AllowNr(NR_MKDIR)]
  }

  function Unlink(): (r: seq<Call>)
    ensures CallsOk(r) && |r| == 1
    ensures forall n :: Names(r, n) ==> n in {NR_UNLINK}
  {
    [AllowNr(NR_UNLINK)]
  }

  function Tree(): (r: seq<Call>)
    ensures CallsOk(r) && |r| == 3
    ensures forall n :: Names(r, n) ==> n in {NR_RMDIR, NR_RENAME, NR_FTRUNCATE}
  {
    [AllowNr(NR_RMDIR), AllowNr(NR_RENAME), AllowNr(NR_FTRUNCATE)]
  }

  function SetTimes(): (r: seq<Call>)
    ensures CallsOk(r) && |r| == 2
    ensures forall n :: Names(r, n) ==> n in {NR_UTIME, NR_UTIMES}
  {
    [AllowNr(NR_UTIME), AllowNr(NR_UTIMES)]
  }

  function Chmod(): (r: seq<Call>)
    ensures CallsOk(r) && |r| == 1
    ensures forall n :: Names(r, n) ==> n in {NR_CHMOD}
  {
    [AllowNr(NR_CHMOD)]
  }

  // ----- the setup functions

  function DataConnections(c: Config): (r: Plan)
    ensures PlanOk(r) && Size(r) <= 12
    ensures forall n :: About(r, n) ==> ConnectionCall(n)
  {
    Then(Do(Sockets()),
         Then(Do(Binding()), Then(When(c.portEnable, Do(ActiveMode())), When(c.pasvEnable, Do(PassiveMode())))))
  }

  function PreloginOptions(c: Config): (r: Plan)
    ensures PlanOk(r) && Size(r) <= 6
    ensures forall n :: About(r, n) ==> ControlCall(n)
  {
    Then(When(c.idleTimeout > 0, Do(Timer())),
      Then(When(c.xferlog || c.dualLog, Do(Locks())), When(c.ssl, Do(SslChannel()))))
  }

  /** Everything allowed before login. */
  function PreloginCore(c: Config): (r: Plan)
    ensures PlanOk(r) && Size(r) <= 24
    ensures forall n :: About(r, n) ==> BaseCall(n) || ControlCall(n)
  {
    Then(Do(Base()), Then(Do(ControlChannel()), PreloginOptions(c)))
  }

  function Prelogin(c: Config): (r: Plan)
    ensures PlanOk(r) && Size(r) <= 25
    ensures forall n :: About(r, n) ==> BaseCall(n) || ControlCall(n) || n == NR_SOCKET
  {
    Then(PreloginCore(c), When(c.syslog, Do(DenySocket())))
  }

  function PostloginLocks(c: Config): (r: Plan)
    ensures PlanOk(r) && Size(r) <= 3
    ensures forall n :: About(r, n) ==> n == NR_FCNTL
  {
    Then(When(c.xferlog || c.dualLog || c.lockUploads, Do(Locks())), When(c.asyncAbor, Do(Owner(c))))
  }

  function PostloginTimers(c: Config): (r: Plan)
    ensures PlanOk(r) && Size(r) <= 3
    ensures forall n :: About(r, n) ==> n in {NR_SENDFILE, NR_RT_SIGACTION, NR_ALARM}
  {
    Then(When(c.useSendfile, Do(Sendfile())),
      Then(When(c.idleTimeout > 0 || c.dataTimeout > 0 || c.asyncAbor, Do(SigAction())),
        When(c.idleTimeout > 0 || c.dataTimeout > 0, Do(Alarm()))))
  }

  /** Data connections: made in this process, or received from the privileged broker. */
  function PostloginData(c: Config): (r: Plan)
    ensures PlanOk(r) && Size(r) <= 16
    ensures forall n :: About(r, n) ==> ConnectionCall(n) || PassingCall(n) || OwnerCall(c, n)
  {
    if c.oneProcess then
      Then(DataConnections(c), When(c.anonymous && c.chownUploads, Do(Chown())))
    else
      Then(Do(ReceiveFd()), When((c.anonymous && c.chownUploads) || c.ssl, Do(SendFd())))
  }

  function PostloginNames(c: Config): (r: Plan)
    ensures PlanOk(r) && Size(r) <= 3
    ensures forall n :: About(r, n) ==> PassingCall(n)
  {
    Then(When(c.syslog, Do(SyslogSend())), When(c.textUserdb, Then(Do(DenySocket()), Do(SharedMap()))))
  }

  function PostloginWrites(c: Config): (r: Plan)
    ensures PlanOk(r) && Size(r) <= 8
    ensures forall n :: About(r, n) ==> WritingCall(c, n)
  {
    When(c.write,
      Then(When(!c.anonymous || c.anonMkdir, Do(MakeDir())),
      Then(When(!c.anonymous || c.anonOther || c.deleteFailed, Do(Unlink())),
      Then(When(!c.anonymous || c.anonOther, Then(Do(Tree()), When(c.mdtmWrite, Do(SetTimes())))),
        When(!c.anonymous && c.chmodEnable, Do(Chmod()))))))
  }

  function PostloginOptions(c: Config): (r: Plan)
    ensures PlanOk(r) && Size(r) <= 27
    ensures forall n :: About(r, n) ==> OptionalCall(c, n)
  {
    Then(PostloginData(c), Then(PostloginNames(c), PostloginWrites(c)))
  }

  /** What follows the two rules about opening files. */
  function AfterOpens(c: Config): (r: Plan)
    ensures PlanOk(r) && Size(r) <= 36
    ensures forall n :: About(r, n) ==>
      || (ReadingCall(n) && n != NR_OPEN && n != NR_OPENAT)
      || n in {NR_RT_SIGACTION, NR_ALARM}
      || OptionalCall(c, n)
  {
    Then(Do(Paths()), Then(PostloginTimers(c), PostloginOptions(c)))
  }

  function AfterPrelogin(c: Config): (r: Plan)
    ensures PlanOk(r) && Size(r) <= 46
    ensures forall n :: About(r, n) ==> ReadingCall(n) || ControlCall(n) || OptionalCall(c, n)
  {
    Then(PostloginLocks(c), Then(Do(Descriptors()), Then(Do(Opens(c)), AfterOpens(c))))
  }

  function Postlogin(c: Config): (r: Plan)
    ensures PlanOk(r) && Size(r) <= MAX_RULES
    ensures forall n :: About(r, n) ==> BaseCall(n) || ControlCall(n) || ReadingCall(n) || OptionalCall(c, n)
  {
    Then(Do(Lstat()), Then(Prelogin(c), AfterPrelogin(c)))
  }

  function Broker(c: Config): (r: Plan)
    ensures PlanOk(r) && Size(r) <= MAX_RULES
    ensures forall n :: About(r, n) ==> BaseCall(n) || ConnectionCall(n) || n == NR_SENDMSG
  {
    Then(Do(Base()), Then(DataConnections(c), Do(SendFd())))
  }

  lemma {:induction false} CallsOfPlan(p: Plan)
    requires PlanOk(p)
    ensures CallsOk(Calls(p)) && |Calls(p)| <= Size(p)
  {
    match p
    case Group(_) =>
    case Both(a, b) => CallsOfPlan(a); CallsOfPlan(b);
    case If(_, a) => CallsOfPlan(a);
  }

  /** Setting up a table from a plan and locking down reaches no trap when the plan fits, and
      leaves a filter that gives every record the plan's verdict. */
  method Confine(p: Plan) returns (filters: array<Insn>, st: Status)
    requires PlanOk(p) && Size(p) <= MAX_RULES
    ensures st.Running? && Accepted(filters[..])
    ensures forall d :: Run(filters[..], d, 0, 0) ==
              Return(if d.arch == AUDIT_ARCH_X86_64 then PlanVerdict(p, d) else SECCOMP_RET_KILL)
  {
    CallsOfPlan(p);
    var t := new Table();
    filters := new Insn[0];
    st := t.Setup(Calls(p));
    assert t.Rules() == RulesFor(Calls(p));
    filters := t.Lockdown();
    forall d ensures CallVerdict(Calls(p), d) == PlanVerdict(p, d) {
      PlanVerdictIsFirstMatch(p, d);
    }
  }

  // ----- verdicts of plans

  function CallVerdict(calls: seq<Call>, d: Record): Word
    requires CallsOk(calls)
  {
    Verdict(RulesFor(calls), d)
  }

  /** The verdict of the first part that does not kill. */
  function PlanVerdict(p: Plan, d: Record): Word
    requires PlanOk(p)
  {
    match p
    case Group(calls) => CallVerdict(calls, d)
    case Both(a, b) => if PlanVerdict(a, d) != SECCOMP_RET_KILL then PlanVerdict(a, d) else PlanVerdict(b, d)
    case If(b, a) => if b then PlanVerdict(a, d) else SECCOMP_RET_KILL
  }

  lemma {:induction false} VerdictAppend(a: seq<Rule>, b: seq<Rule>, d: Record)
    requires ValidRules(a) && ValidRules(b)
    ensures Verdict(a + b, d) == if Verdict(a, d) != SECCOMP_RET_KILL then Verdict(a, d) else Verdict(b, d)
  {
    if a == [] {
      assert a + b == b;
    } else {
      VerdictAppend(a[1..], b, d);
      assert (a + b)[1..] == a[1..] + b;
    }
  }

  /** The verdict of a plan is the first-match verdict of the table it builds. */
  lemma {:induction false} PlanVerdictIsFirstMatch(p: Plan, d: Record)
    requires PlanOk(p)
    ensures CallsOk(Calls(p)) && CallVerdict(Calls(p), d) == PlanVerdict(p, d)
  {
    CallsOfPlan(p);
    match p
    case Group(_) =>
    case Both(a, b) =>
      PlanVerdictIsFirstMatch(a, d);
      PlanVerdictIsFirstMatch(b, d);
      VerdictAppend(RulesFor(Calls(a)), RulesFor(Calls(b)), d);
      assert RulesFor(Calls(a) + Calls(b)) == RulesFor(Calls(a)) + RulesFor(Calls(b));
    case If(b, a) =>
      PlanVerdictIsFirstMatch(a, d);
      assert RulesFor([]) == [];
  }

  lemma {:induction false} UnmentionedInGroup(calls: seq<Call>, d: Record)
    requires CallsOk(calls) && forall i :: 0 <= i < |calls| ==> calls[i].nr != d.nr
    ensures CallVerdict(calls, d) == SECCOMP_RET_KILL
  {
    if calls != [] {
      UnmentionedInGroup(calls[1..], d);
      assert RulesFor(calls)[1..] == RulesFor(calls[1..]);
    }
  }

  /** A call that no rule speaks about is killed. */
  lemma UnmentionedIsKilled(p: Plan, d: Record)
    requires PlanOk(p) && !About(p, d.nr)
    ensures PlanVerdict(p, d) == SECCOMP_RET_KILL
  {
    PlanVerdictIsFirstMatch(p, d);
    AboutIsNames(p, d.nr);
    UnmentionedInGroup(Calls(p), d);
  }

  lemma OneRule(call: Call, d: Record)
    requires CallOk(call)
    ensures CallVerdict([call], d) ==
            if Matches(RuleFor(call), d) then RuleVerdict(RuleFor(call)) else SECCOMP_RET_KILL
  {
    var rules := RulesFor([call]);
    assert Verdict(rules[1..], d) == SECCOMP_RET_KILL;
  }

  lemma TwoRules(x: Call, y: Call, d: Record)
    requires CallOk(x) && CallOk(y)
    ensures CallVerdict([x, y], d) ==
            if Matches(RuleFor(x), d) then RuleVerdict(RuleFor(x)) else CallVerdict([y], d)
  {
    assert RulesFor([x, y])[1..] == RulesFor([y]);
  }

  // ----- login only widens the policy

  /** A call the prelogin filter does not kill gets the same verdict from the postlogin
      filter, whatever the configuration; so nothing allowed before login is killed after it. */
  lemma LoginKeepsVerdicts(c: Config, d: Record)
    ensures PlanVerdict(Prelogin(c), d) != SECCOMP_RET_KILL ==>
              PlanVerdict(Postlogin(c), d) == PlanVerdict(Prelogin(c), d)
  {
    if d.nr == NR_LSTAT {
      UnmentionedIsKilled(Prelogin(c), d);
    } else {
      UnmentionedIsKilled(Do(Lstat()), d);
    }
  }

  // ----- everything else is killed

  /** Before login, whatever the configuration, a call that is not killed is one of these. */
  lemma PreloginAllowsOnly(c: Config, d: Record)
    requires PlanVerdict(Prelogin(c), d) != SECCOMP_RET_KILL
    ensures BaseCall(d.nr) || ControlCall(d.nr) || d.nr == NR_SOCKET
  {
    if !About(Prelogin(c), d.nr) { UnmentionedIsKilled(Prelogin(c), d); }
  }

  /** The same after login. */
  lemma PostloginAllowsOnly(c: Config, d: Record)
    requires PlanVerdict(Postlogin(c), d) != SECCOMP_RET_KILL
    ensures BaseCall(d.nr) || ControlCall(d.nr) || ReadingCall(d.nr) || OptionalCall(c, d.nr)
  {
    if !About(Postlogin(c), d.nr) { UnmentionedIsKilled(Postlogin(c), d); }
  }

  /** The same in the broker. */
  lemma BrokerAllowsOnly(c: Config, d: Record)
    requires PlanVerdict(Broker(c), d) != SECCOMP_RET_KILL
    ensures BaseCall(d.nr) || ConnectionCall(d.nr) || d.nr == NR_SENDMSG
  {
    if !About(Broker(c), d.nr) { UnmentionedIsKilled(Broker(c), d); }
  }

  /** The calls that start a process or another program, that control other processes or signal
      them, that change the user, the groups or the capabilities, and that change the root, the mounts
      or the namespaces: clone, fork, vfork, execve, kill, ptrace, setuid, setgid, setreuid, setregid,
      setgroups, setresuid, setresgid, setfsuid, setfsgid, capset, rt_sigqueueinfo, pivot_root, chroot,
      mount, tkill, tgkill, unshare, rt_tgsigqueueinfo, setns, process_vm_readv, process_vm_writev,
      execveat, pidfd_send_signal and clone3. */
  predicate EscapeCall(n: int) {
    n in {56, 57, 58, 59, 62, 101, 105, 106, 113, 114, 116, 117, 119, 122, 123, 126, 129, 155, 161, 165, 200, 234,
          272, 297, 308, 310, 311, 322, 424, 435}
  }

  /** No process that is confined, at any stage and under any configuration, can make any of these
      calls. */
  lemma NoEscape(c: Config, d: Record)
    requires EscapeCall(d.nr)
    ensures PlanVerdict(Prelogin(c), d) == PlanVerdict(Postlogin(c), d) == PlanVerdict(Broker(c), d) == SECCOMP_RET_KILL
  {
    EscapeIsApart(d.nr);
    EscapeDoesNotConnect(d.nr);
    EscapeDoesNotWrite(c, d.nr);
    hide *;
    if PlanVerdict(Prelogin(c), d) != SECCOMP_RET_KILL { PreloginAllowsOnly(c, d); }
    if PlanVerdict(Postlogin(c), d) != SECCOMP_RET_KILL { PostloginAllowsOnly(c, d); }
    if PlanVerdict(Broker(c), d) != SECCOMP_RET_KILL { BrokerAllowsOnly(c, d); }
  }

  lemma EscapeIsApart(n: int)
    requires EscapeCall(n)
    ensures !BaseCall(n) && !ControlCall(n) && !ReadingCall(n)
  {
  }

  lemma EscapeDoesNotConnect(n: int)
    requires EscapeCall(n)
    ensures !ConnectionCall(n) && n != NR_SOCKET && n != NR_SENDMSG
  {
  }

  lemma EscapeDoesNotWrite(c: Config, n: int)
    requires EscapeCall(n)
    ensures !OptionalCall(c, n)
  {
    EscapeDoesNotConnect(n);
    hide ConnectionCall;
  }

  // ----- opening files

  predicate IsOpen(d: Record) {
    d.nr == NR_OPEN || d.nr == NR_OPENAT
  }

  /** The flags of an opening call: the second argument of `open`, the third of `openat`. */
  function FlagsOf(d: Record): Word {
    if d.nr == NR_OPEN then d.a2.lo else d.a3.lo
  }

  /** Opening a file is decided by one mask: allowed exactly when no flag outside it is set. */
  lemma OpenVerdict(c: Config, d: Record)
    requires IsOpen(d)
    ensures PlanVerdict(Postlogin(c), d) ==
            if OnlyBitsOf(FlagsOf(d), OpenFlag(c), 32) then SECCOMP_RET_ALLOW else SECCOMP_RET_KILL
  {
    hide Postlogin, AfterPrelogin, AfterOpens, Prelogin, About, PlanVerdict, OnlyBitsOf;
    AfterLogin(c, d);
    UnmentionedIsKilled(PostloginLocks(c), d);
    UnmentionedIsKilled(Do(Descriptors()), d);
    UnmentionedIsKilled(AfterOpens(c), d);
    AfterPreloginOpen(c, d);
    OpensVerdict(c, d);
  }

  /** A call that the rules before login and `lstat` do not speak about is decided by the rest. */
  lemma AfterLogin(c: Config, d: Record)
    requires !BaseCall(d.nr) && !ControlCall(d.nr) && d.nr != NR_SOCKET && d.nr != NR_LSTAT
    ensures PlanVerdict(Postlogin(c), d) == PlanVerdict(AfterPrelogin(c), d)
  {
    hide Prelogin, AfterPrelogin, About;
    UnmentionedIsKilled(Do(Lstat()), d);
    UnmentionedIsKilled(Prelogin(c), d);
  }

  lemma AfterPreloginOpen(c: Config, d: Record)
    requires PlanVerdict(PostloginLocks(c), d) == PlanVerdict(Do(Descriptors()), d) == SECCOMP_RET_KILL
    requires PlanVerdict(AfterOpens(c), d) == SECCOMP_RET_KILL
    ensures PlanVerdict(AfterPrelogin(c), d) == CallVerdict(Opens(c), d)
  {
    assert PlanVerdict(Then(Do(Opens(c)), AfterOpens(c)), d) == CallVerdict(Opens(c), d);
  }

  lemma OpensVerdict(c: Config, d: Record)
    requires IsOpen(d)
    ensures CallVerdict(Opens(c), d) ==
            if OnlyBitsOf(FlagsOf(d), OpenFlag(c), 32) then SECCOMP_RET_ALLOW else SECCOMP_RET_KILL
  {
    var open, openat := Allow1Mask(NR_OPEN, 2, OpenFlag(c)), Allow1Mask(NR_OPENAT, 3, OpenFlag(c));
    TwoRules(open, openat, d);
    OneRule(openat, d);
    OneMask(open, d);
    OneMask(openat, d);
  }

  lemma OneMask(call: Call, d: Record)
    requires call.Allow1Mask? && CallOk(call) && call.val1 >= 0
    ensures Matches(RuleFor(call), d) <==> call.nr == d.nr && OnlyBitsOf(ArgLow(d, call.arg1), call.val1, 32)
  {
    assert RuleFor(call).tests[0] == Mask(call.arg1, call.val1);
    assert Matches(RuleFor(call), d) ==> Holds(RuleFor(call).tests[0], d);
  }

  /** Without `write_enable` an allowed opening has access mode zero: it reads. */
  lemma ReadOnlyOpens(c: Config, d: Record)
    requires !c.write && IsOpen(d) && PlanVerdict(Postlogin(c), d) == SECCOMP_RET_ALLOW
    ensures FlagsOf(d) % 4 == 0 && !Bit(FlagsOf(d), O_TRUNC_BIT)
  {
    OpenVerdict(c, d);
    FlagsWithin(FlagsOf(d));
  }

  lemma FlagsWithin(x: Word)
    requires OnlyBitsOf(x, OPEN_FLAGS, 32)
    ensures x % 4 == 0 && !Bit(x, O_TRUNC_BIT)
  {
    assert !Bit(OPEN_FLAGS, 0) && !Bit(OPEN_FLAGS, 1);
    assert !Bit(x, 0) && !Bit(x, 1);
    assert Bit(x, 1) == Bit(x / 2, 0);
    BitOfOpenFlags();
  }

  lemma BitOfOpenFlags()
    ensures !Bit(OPEN_FLAGS, O_TRUNC_BIT)
  {
    assert OPEN_FLAGS == 0x98cc0 && !Bit(0x98cc0, O_TRUNC_BIT);
  }

  // ----- what is left of writing without write_enable

  const O_CREAT_BIT: nat := 6
  const O_TRUNC_BIT: nat := 9

  /** The calls that create, remove, rename, cut or extend files, or change their attributes:
      truncate, ftruncate, rename, mkdir, rmdir, creat, link, unlink, symlink, chmod, fchmod, chown,
      fchown, lchown, utime, mknod, the calls on extended attributes, utimes, the forms of all these
      that end in `at`, fallocate, openat2 and open_by_handle_at. */
  predicate ChangingCall(n: int) {
    n in {76, 77, 82, 83, 84, 85, 86, 87, 88, 90, 91, 92, 93, 94, 132, 133, 188, 189, 190, 197, 198, 199, 235, 258,
          259, 260, 261, 263, 264, 265, 266, 268, 280, 285, 304, 316, 437}
  }

  /** A system call that changes the directory tree, or opens a file so that it can be changed. */
  ghost predicate ChangesFiles(d: Record) {
    || ChangingCall(d.nr)
    || (IsOpen(d) && (Bit(FlagsOf(d), O_CREAT_BIT) || Bit(FlagsOf(d), O_TRUNC_BIT) || FlagsOf(d) % 4 != 0))
  }

  /** With `write_enable` off, such a call is allowed exactly if it opens with O_CREAT and no flag
      outside the mask, or is one of the two that change the owner of an upload in one process;
      all others are killed. So files can still be created, but neither written nor cut. */
  lemma ReadOnlyVerdict(c: Config, d: Record)
    requires !c.write && ChangesFiles(d)
    ensures PlanVerdict(Postlogin(c), d) ==
            if || OwnerCall(c, d.nr)
               || (IsOpen(d) && Bit(FlagsOf(d), O_CREAT_BIT) && OnlyBitsOf(FlagsOf(d), OPEN_FLAGS, 32))
            then SECCOMP_RET_ALLOW
            else SECCOMP_RET_KILL
  {
    hide Postlogin, About, PlanVerdict, PlanOk, Bit, OnlyBitsOf;
    if IsOpen(d) {
      OpenVerdict(c, d);
      CreatesOnly(FlagsOf(d));
    } else if d.nr == NR_FCHMOD || d.nr == NR_FCHOWN {
      OwnerVerdict(c, d);
    } else {
      OtherChangesAreKilled(c, d);
    }
  }

  lemma OtherChangesAreKilled(c: Config, d: Record)
    requires !c.write && ChangingCall(d.nr) && d.nr != NR_FCHMOD && d.nr != NR_FCHOWN
    ensures PlanVerdict(Postlogin(c), d) == SECCOMP_RET_KILL && !OwnerCall(c, d.nr)
  {
    ChangingIsApart(d.nr);
    ChangingDoesNotConnect(d.nr);
    hide *;
    OnlyWriting(c, d.nr);
    UnmentionedIsKilled(Postlogin(c), d);
  }

  lemma ChangingIsApart(n: int)
    requires ChangingCall(n)
    ensures !BaseCall(n) && !ControlCall(n) && !ReadingCall(n)
  {
  }

  lemma ChangingDoesNotConnect(n: int)
    requires ChangingCall(n)
    ensures !ConnectionCall(n) && !PassingCall(n)
  {
  }

  lemma OnlyWriting(c: Config, n: int)
    requires !c.write && !ConnectionCall(n) && !PassingCall(n) && n != NR_FCHMOD && n != NR_FCHOWN
    ensures !OptionalCall(c, n) && !OwnerCall(c, n)
  {
    hide ConnectionCall, PassingCall;
  }

  /** Flags within the mask that change something only create. */
  lemma CreatesOnly(x: Word)
    requires Bit(x, O_CREAT_BIT) || Bit(x, O_TRUNC_BIT) || x % 4 != 0
    ensures OnlyBitsOf(x, OPEN_FLAGS, 32) ==> Bit(x, O_CREAT_BIT)
  {
    hide Bit;
    if OnlyBitsOf(x, OPEN_FLAGS, 32) { FlagsWithin(x); }
  }

  lemma OwnerVerdict(c: Config, d: Record)
    requires d.nr == NR_FCHMOD || d.nr == NR_FCHOWN
    ensures PlanVerdict(Postlogin(c), d) == if OwnerCall(c, d.nr) then SECCOMP_RET_ALLOW else SECCOMP_RET_KILL
  {
    hide Postlogin, AfterPrelogin, About, PlanVerdict;
    if OwnerCall(c, d.nr) {
      AfterLogin(c, d);
      OptionsDecide(c, d);
      OwnersAreAllowed(c, d);
    } else {
      UnmentionedIsKilled(Postlogin(c), d);
    }
  }

  lemma OwnersAreAllowed(c: Config, d: Record)
    requires OwnerCall(c, d.nr)
    ensures PlanVerdict(PostloginOptions(c), d) == SECCOMP_RET_ALLOW
  {
    hide DataConnections, About;
    UnmentionedIsKilled(DataConnections(c), d);
    TwoRules(AllowNr(NR_FCHMOD), AllowNr(NR_FCHOWN), d);
    OneRule(AllowNr(NR_FCHOWN), d);
    assert PlanVerdict(Do(Chown()), d) == SECCOMP_RET_ALLOW;
    assert PlanVerdict(PostloginData(c), d) == SECCOMP_RET_ALLOW;
  }

  /** What an anonymous upload needs with `chown_uploads`, fchmod, is allowed if the session is a
      single process, and kills the child of two; */
  lemma ChownUploadsNeedOneProcess(c: Config, d: Record)
    requires c.anonymous && c.chownUploads && d.nr == NR_FCHMOD
    ensures PlanVerdict(Postlogin(c), d) == if c.oneProcess then SECCOMP_RET_ALLOW else SECCOMP_RET_KILL
  {
    hide Postlogin, PlanVerdict, PlanOk;
    OwnerVerdict(c, d);
  }

  /** and what the parent of two needs to change the owner, receiving the descriptor, looking at the
      file and changing it, kills the parent under every configuration. */
  lemma BrokerCannotChown(c: Config, d: Record)
    requires d.nr in {NR_RECVMSG, NR_FSTAT, NR_FCHOWN}
    ensures PlanVerdict(Broker(c), d) == SECCOMP_RET_KILL
  {
    hide Broker, PlanVerdict, PlanOk;
    if PlanVerdict(Broker(c), d) != SECCOMP_RET_KILL { BrokerAllowsOnly(c, d); }
  }

  /** Opening with nothing but O_CREAT, for reading, is allowed under every configuration. */
  lemma CreatingIsAllowed(c: Config, d: Record)
    requires IsOpen(d) && FlagsOf(d) == O_CREAT
    ensures ChangesFiles(d) && PlanVerdict(Postlogin(c), d) == SECCOMP_RET_ALLOW
  {
    hide Postlogin, About, PlanVerdict, PlanOk, Bit, OnlyBitsOf;
    OpenVerdict(c, d);
    OnlyCreatBit(OpenFlag(c));
  }

  lemma OnlyCreatBit(flags: nat)
    requires flags / 64 % 2 == 1
    ensures Bit(0x40, O_CREAT_BIT) && OnlyBitsOf(0x40, flags, 32)
  {
    SixthBit(flags);
    SixthBit(0x40);
    forall i | 0 <= i < 32 && Bit(0x40, i) ensures i == 6 {
      OneBit(6, i);
    }
  }

  lemma {:induction false} OneBit(k: nat, i: nat)
    ensures Bit(Pow2(k), i) <==> i == k
  {
    if k == 0 {
      if i > 0 { NoBits(i - 1); }
    } else if i > 0 {
      OneBit(k - 1, i - 1);
    }
  }

  lemma SixthBit(x: nat)
    ensures Bit(x, 6) == (x / 64 % 2 == 1)
  {
    var a, b := x / 2 / 2, x / 2 / 2 / 2 / 2;
    assert x / 64 == b / 2 / 2;
    assert Bit(x, 6) == Bit(x / 2, 5) == Bit(a, 4);
    assert Bit(a, 4) == Bit(a / 2, 3) == Bit(b, 2);
    assert Bit(b, 2) == Bit(b / 2, 1) == Bit(b / 2 / 2, 0);
  }

  lemma {:induction false} NoBits(i: nat)
    ensures !Bit(0, i)
  {
    if i > 0 { NoBits(i - 1); }
  }

  /** Three parts that kill leave the verdict to the fourth. */
  lemma SkipsTo(p: Plan, q: Plan, r: Plan, rest: Plan, d: Record)
    requires PlanOk(p) && PlanOk(q) && PlanOk(r) && PlanOk(rest)
    requires PlanVerdict(p, d) == PlanVerdict(q, d) == PlanVerdict(r, d) == SECCOMP_RET_KILL
    ensures PlanVerdict(Then(p, Then(q, Then(r, rest))), d) == PlanVerdict(rest, d)
  {
    assert PlanVerdict(Then(r, rest), d) == PlanVerdict(rest, d);
    assert PlanVerdict(Then(q, Then(r, rest)), d) == PlanVerdict(rest, d);
  }

  /** A call that nothing between the rules before login and the options speaks about is decided
      by the options. */
  lemma OptionsDecide(c: Config, d: Record)
    requires !ReadingCall(d.nr) && !ControlCall(d.nr)
    ensures PlanVerdict(AfterPrelogin(c), d) == PlanVerdict(PostloginOptions(c), d)
  {
    UnmentionedIsKilled(PostloginLocks(c), d);
    UnmentionedIsKilled(Do(Descriptors()), d);
    UnmentionedIsKilled(Do(Opens(c)), d);
    UnmentionedIsKilled(Do(Paths()), d);
    UnmentionedIsKilled(PostloginTimers(c), d);
    SkipsTo(PostloginLocks(c), Do(Descriptors()), Do(Opens(c)), AfterOpens(c), d);
  }

  // ----- which sockets a session may create

  predicate TcpSocket(d: Record) {
    (d.a1.lo == PF_INET || d.a1.lo == PF_INET6) && d.a2.lo == SOCK_STREAM && d.a3.lo == IPPROTO_TCP
  }

  /** The verdict on `socket` after login, for every configuration. With `syslog_enable` the
      rejection installed before login comes first and hides the rules for data connections,
      so in the one-process model no data connection can be made. */
  lemma SocketVerdict(c: Config, d: Record)
    requires d.nr == NR_SOCKET
    ensures PlanVerdict(Postlogin(c), d) ==
            if c.syslog then SECCOMP_RET_ERRNO + EACCES
            else if c.oneProcess && TcpSocket(d) then SECCOMP_RET_ALLOW
            else if c.textUserdb then SECCOMP_RET_ERRNO + EACCES
            else SECCOMP_RET_KILL
  {
    UnmentionedIsKilled(Do(Lstat()), d);
    PreloginSocket(c, d);
    AfterPreloginSocket(c, d);
  }

  lemma PreloginSocket(c: Config, d: Record)
    requires d.nr == NR_SOCKET
    ensures PlanVerdict(Prelogin(c), d) == if c.syslog then SECCOMP_RET_ERRNO + EACCES else SECCOMP_RET_KILL
  {
    UnmentionedIsKilled(PreloginCore(c), d);
    OneRule(RejectNr(NR_SOCKET, EACCES), d);
    assert PlanVerdict(Do(DenySocket()), d) == SECCOMP_RET_ERRNO + EACCES;
  }

  lemma AfterPreloginSocket(c: Config, d: Record)
    requires d.nr == NR_SOCKET
    ensures PlanVerdict(AfterPrelogin(c), d) == PlanVerdict(PostloginOptions(c), d)
    ensures PlanVerdict(PostloginOptions(c), d) ==
            if c.oneProcess && TcpSocket(d) then SECCOMP_RET_ALLOW
            else if c.textUserdb then SECCOMP_RET_ERRNO + EACCES
            else SECCOMP_RET_KILL
  {
    OptionsDecide(c, d);
    UnmentionedIsKilled(PostloginWrites(c), d);
    PostloginDataSocket(c, d);
    PostloginNamesSocket(c, d);
  }

  lemma PostloginNamesSocket(c: Config, d: Record)
    requires d.nr == NR_SOCKET
    ensures PlanVerdict(PostloginNames(c), d) == if c.textUserdb then SECCOMP_RET_ERRNO + EACCES else SECCOMP_RET_KILL
  {
    UnmentionedIsKilled(When(c.syslog, Do(SyslogSend())), d);
    OneRule(RejectNr(NR_SOCKET, EACCES), d);
    assert PlanVerdict(Then(Do(DenySocket()), Do(SharedMap())), d) == SECCOMP_RET_ERRNO + EACCES;
  }

  lemma PostloginDataSocket(c: Config, d: Record)
    requires d.nr == NR_SOCKET
    ensures PlanVerdict(PostloginData(c), d) ==
            if c.oneProcess && TcpSocket(d) then SECCOMP_RET_ALLOW else SECCOMP_RET_KILL
  {
    if c.oneProcess {
      var chown := When(c.anonymous && c.chownUploads, Do(Chown()));
      UnmentionedIsKilled(chown, d);
      DataConnectionsSocket(c, d);
      assert PostloginData(c) == Both(DataConnections(c), chown);
    } else {
      UnmentionedIsKilled(PostloginData(c), d);
    }
  }

  lemma DataConnectionsSocket(c: Config, d: Record)
    requires d.nr == NR_SOCKET
    ensures PlanVerdict(DataConnections(c), d) == if TcpSocket(d) then SECCOMP_RET_ALLOW else SECCOMP_RET_KILL
  {
    var rest := Then(Do(Binding()), Then(When(c.portEnable, Do(ActiveMode())), When(c.pasvEnable, Do(PassiveMode()))));
    UnmentionedIsKilled(rest, d);
    SocketsVerdict(d);
    assert DataConnections(c) == Both(Group(Sockets()), rest);
  }

  lemma SocketsVerdict(d: Record)
    requires d.nr == NR_SOCKET
    ensures CallVerdict(Sockets(), d) == if TcpSocket(d) then SECCOMP_RET_ALLOW else SECCOMP_RET_KILL
  {
    var v4 := Allow3Match(NR_SOCKET, 1, PF_INET, 2, SOCK_STREAM, 3, IPPROTO_TCP);
    var v6 := Allow3Match(NR_SOCKET, 1, PF_INET6, 2, SOCK_STREAM, 3, IPPROTO_TCP);
    TwoRules(v4, v6, d);
    OneRule(v6, d);
    ThreeTests(v4, d);
    ThreeTests(v6, d);
  }

  lemma ThreeTests(call: Call, d: Record)
    requires call.Allow3Match? && CallOk(call)
    ensures Matches(RuleFor(call), d) <==>
            call.nr == d.nr && ArgLow(d, call.arg1) == ToWord(call.val1) &&
            ArgLow(d, call.arg2) == ToWord(call.val2) && ArgLow(d, call.arg3) == ToWord(call.val3)
  {
    var t := RuleFor(call).tests;
    assert Matches(RuleFor(call), d) ==> Holds(t[0], d) && Holds(t[1], d) && Holds(t[2], d);
  }
}
