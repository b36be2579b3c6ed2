/**
What the filters of `Policy` do with every system call, number by number and setting by setting:
the verdict before login, after login and in the broker. `Policy` lists the rules in the order in
which the setup functions add them; here each call stands once, with all that lets it through.
*/
module Verdicts {
  import opened Bpf
  import opened FilterCompiler
  import opened Policy
  import opened Sandbox

  // ----- one call of a setup function

  /** The rule that a call adds catches the record. */
  predicate Catches(call: Call, d: Record)
    requires CallOk(call)
  {
    call.nr == d.nr &&
    match call
    case AllowNr(_) => true
    case RejectNr(_, _) => true
    case Allow1Match(_, a, v) => ArgLow(d, a) == ToWord(v)
    case Allow1Mask(_, a, v) => OnlyBitsOf(ArgLow(d, a), ToWord(v), 32)
    case Allow2Match(_, a, v, b, w) => ArgLow(d, a) == ToWord(v) && ArgLow(d, b) == ToWord(w)
    case Allow2MaskMatch(_, a, v, b, w) => OnlyBitsOf(ArgLow(d, a), ToWord(v), 32) && ArgLow(d, b) == ToWord(w)
    case Allow3Match(_, a, v, b, w, e, x) =>
      ArgLow(d, a) == ToWord(v) && ArgLow(d, b) == ToWord(w) && ArgLow(d, e) == ToWord(x)
  }

  lemma CatchesIsMatches(call: Call, d: Record)
    requires CallOk(call)
    ensures Catches(call, d) <==> Matches(RuleFor(call), d)
  {
    hide OnlyBitsOf, ToWord, ArgLow;
    var t := RuleFor(call).tests;
    assert Matches(RuleFor(call), d) ==> forall i :: 0 <= i < |t| ==> Holds(t[i], d);
    if |t| > 0 { assert Matches(RuleFor(call), d) ==> Holds(t[0], d); }
    if |t| > 1 { assert Matches(RuleFor(call), d) ==> Holds(t[1], d); }
    if |t| > 2 { assert Matches(RuleFor(call), d) ==> Holds(t[2], d); }
  }

  /** One of the calls from number `from` on catches the record. */
  predicate Hits(calls: seq<Call>, from: nat, d: Record)
    requires CallsOk(calls)
    decreases |calls| - from
  {
    from < |calls| && (Catches(calls[from], d) || Hits(calls, from + 1, d))
  }

  function Allowed(b: bool): Word {
    if b then SECCOMP_RET_ALLOW else SECCOMP_RET_KILL
  }

  /** If none of the calls rejects, catching is allowing. */
  lemma {:induction false} HitsDecide(calls: seq<Call>, from: nat, d: Record)
    requires CallsOk(calls) && from <= |calls|
    requires forall i :: 0 <= i < |calls| && calls[i].nr == d.nr ==> !calls[i].RejectNr?
    ensures Verdict(RulesFor(calls)[from..], d) == Allowed(Hits(calls, from, d))
    decreases |calls| - from
  {
    var rules := RulesFor(calls)[from..];
    if from < |calls| {
      HitsDecide(calls, from + 1, d);
      assert rules[1..] == RulesFor(calls)[from + 1..] && rules[0] == RuleFor(calls[from]);
      CatchesIsMatches(calls[from], d);
    }
  }

  lemma GroupDecides(calls: seq<Call>, d: Record)
    requires CallsOk(calls)
    requires forall i :: 0 <= i < |calls| && calls[i].nr == d.nr ==> !calls[i].RejectNr?
    ensures CallVerdict(calls, d) == Allowed(Hits(calls, 0, d))
  {
    HitsDecide(calls, 0, d);
    assert RulesFor(calls)[0..] == RulesFor(calls);
  }

  /** How the verdict of a plan comes from those of its parts. */
  lemma Parts(d: Record)
    ensures forall a: Plan, b: Plan | PlanOk(a) && PlanOk(b) ::
      PlanVerdict(Both(a, b), d) ==
        if PlanVerdict(a, d) != SECCOMP_RET_KILL then PlanVerdict(a, d) else PlanVerdict(b, d)
    ensures forall option: bool, a: Plan | PlanOk(a) ::
      PlanVerdict(If(option, a), d) == if option then PlanVerdict(a, d) else SECCOMP_RET_KILL
    ensures forall calls | CallsOk(calls) :: PlanVerdict(Group(calls), d) == CallVerdict(calls, d)
  {
  }

  // ----- group by group

  /** The calls that are allowed at every stage whatever their arguments. */
  predicate PlainCall(n: int) {
    n in {NR_READ, NR_WRITE, NR_MUNMAP, NR_BRK, NR_GETTIMEOFDAY, NR_RT_SIGRETURN, NR_RESTART_SYSCALL, NR_CLOSE,
          NR_EXIT_GROUP}
  }

  predicate PrivateMap(d: Record) {
    d.a3.lo == PROT_READ_WRITE && d.a4.lo == MAP_PRIVATE_ANON
  }

  predicate OptionOf(d: Record, level: Word, name: Word) {
    d.a2.lo == level && d.a3.lo == name
  }

  lemma BaseAllows(d: Record)
    requires d.nr != NR_MREMAP
    ensures PlanVerdict(Do(Base()), d) == Allowed(
      || PlainCall(d.nr)
      || (d.nr == NR_MMAP && PrivateMap(d))
      || (d.nr == NR_MPROTECT && OnlyBitsOf(d.a3.lo, PROT_READ, 32)))
  {
    hide OnlyBitsOf;
    GroupDecides(Base(), d);
  }

  lemma BaseRejects(d: Record)
    requires d.nr == NR_MREMAP
    ensures PlanVerdict(Do(Base()), d) == SECCOMP_RET_ERRNO + ENOSYS
  {
    var rules := RulesFor(Base());
    VerdictIsFirstMatch(rules, d);
    assert rules[6] == RuleFor(RejectNr(NR_MREMAP, ENOSYS)) && Matches(rules[6], d);
    assert forall i :: 0 <= i < 12 && Matches(rules[i], d) ==> Base()[i].nr == NR_MREMAP;
  }

  lemma ControlChannelAllows(d: Record)
    ensures PlanVerdict(Do(ControlChannel()), d) == Allowed(
      || d.nr in {NR_NANOSLEEP, NR_GETPID, NR_SHUTDOWN}
      || (d.nr == NR_RECVFROM && d.a4.lo == MSG_PEEK)
      || (d.nr == NR_FCNTL && d.a2.lo == F_GETFL)
      || (d.nr == NR_FCNTL && d.a2.lo == F_SETFL && OnlyBitsOf(d.a3.lo, OPEN_FLAGS + O_ACCMODE, 32)))
  {
    hide OnlyBitsOf;
    GroupDecides(ControlChannel(), d);
  }

  lemma PreloginOptionsAllow(c: Config, d: Record)
    ensures PlanVerdict(PreloginOptions(c), d) == Allowed(
      || (c.idleTimeout > 0 && d.nr in {NR_RT_SIGACTION, NR_ALARM})
      || ((c.xferlog || c.dualLog) && d.nr == NR_FCNTL && d.a2.lo in {F_SETLK, F_SETLKW})
      || (c.ssl && d.nr == NR_RECVMSG && d.a3.lo == 0)
      || (c.ssl && d.nr == NR_SETSOCKOPT && OptionOf(d, IPPROTO_TCP, TCP_NODELAY)))
  {
    Parts(d);
    GroupDecides(Timer(), d);
    GroupDecides(Locks(), d);
    GroupDecides(SslChannel(), d);
  }

  /** What setting up data connections takes. */
  predicate Connecting(c: Config, d: Record) {
    || (d.nr == NR_SOCKET && TcpSocket(d))
    || d.nr in {NR_BIND, NR_SELECT}
    || (c.portEnable && d.nr == NR_CONNECT)
    || (c.portEnable && d.nr == NR_GETSOCKOPT && OptionOf(d, SOL_SOCKET, SO_ERROR))
    || (c.portEnable && d.nr == NR_SETSOCKOPT && OptionOf(d, SOL_SOCKET, SO_REUSEADDR))
    || (c.portEnable && d.nr == NR_FCNTL && d.a2.lo == F_GETFL)
    || (c.portEnable && d.nr == NR_FCNTL && d.a2.lo == F_SETFL && d.a3.lo in {O_RDWR, O_RDWR + O_NONBLOCK})
    || (c.pasvEnable && d.nr in {NR_LISTEN, NR_ACCEPT})
  }

  lemma ConnectionsAllow(c: Config, d: Record)
    ensures PlanVerdict(DataConnections(c), d) == Allowed(Connecting(c, d))
  {
    ActiveModeAllows(d);
    PassiveModeAllows(d);
    hide About, CallVerdict, Sockets, Binding, ActiveMode, PassiveMode;
    Parts(d);
  }

  lemma ActiveModeAllows(d: Record)
    ensures CallVerdict(ActiveMode(), d) == Allowed(
      || d.nr == NR_CONNECT
      || (d.nr == NR_GETSOCKOPT && OptionOf(d, SOL_SOCKET, SO_ERROR))
      || (d.nr == NR_SETSOCKOPT && OptionOf(d, SOL_SOCKET, SO_REUSEADDR))
      || (d.nr == NR_FCNTL && d.a2.lo == F_GETFL)
      || (d.nr == NR_FCNTL && d.a2.lo == F_SETFL && d.a3.lo in {O_RDWR, O_RDWR + O_NONBLOCK}))
  {
    GroupDecides(ActiveMode(), d);
  }

  lemma PassiveModeAllows(d: Record)
    ensures CallVerdict(PassiveMode(), d) == Allowed(d.nr in {NR_LISTEN, NR_ACCEPT})
    ensures CallVerdict(Binding(), d) == Allowed(d.nr in {NR_BIND, NR_SELECT})
    ensures CallVerdict(Sockets(), d) == Allowed(d.nr == NR_SOCKET && TcpSocket(d))
  {
    GroupDecides(PassiveMode(), d);
    GroupDecides(Binding(), d);
    GroupDecides(Sockets(), d);
  }

  lemma LocksAllow(c: Config, d: Record)
    ensures PlanVerdict(PostloginLocks(c), d) == Allowed(
      || ((c.xferlog || c.dualLog || c.lockUploads) && d.nr == NR_FCNTL && d.a2.lo in {F_SETLK, F_SETLKW})
      || (c.asyncAbor && d.nr == NR_FCNTL && d.a2.lo == F_SETOWN && d.a3.lo == ToWord(c.pid)))
  {
    Parts(d);
    GroupDecides(Locks(), d);
    GroupDecides(Owner(c), d);
  }

  lemma DescriptorsAllow(d: Record)
    ensures PlanVerdict(Do(Descriptors()), d) == Allowed(
      || d.nr in {NR_FSTAT, NR_LSEEK}
      || (d.nr == NR_SETSOCKOPT && (OptionOf(d, SOL_SOCKET, SO_KEEPALIVE) || OptionOf(d, SOL_SOCKET, SO_LINGER)))
      || (d.nr == NR_SETSOCKOPT && OptionOf(d, IPPROTO_IP, IP_TOS)))
  {
    GroupDecides(Descriptors(), d);
  }

  /** The flags that files can be opened with: the access modes other than reading only if the session
      may write at all. */
  function OpenMask(c: Config): Word {
    if c.write then OPEN_FLAGS + O_ACCMODE else OPEN_FLAGS
  }

  lemma OpensAllow(c: Config, d: Record)
    ensures PlanVerdict(Do(Opens(c)), d) == Allowed(IsOpen(d) && OnlyBitsOf(FlagsOf(d), OpenMask(c), 32))
  {
    if IsOpen(d) { OpensVerdict(c, d); } else { UnmentionedIsKilled(Do(Opens(c)), d); }
  }

  lemma PathsAllow(d: Record)
    ensures PlanVerdict(Do(Paths()), d) ==
      Allowed(d.nr in {NR_STAT, NR_READLINK, NR_GETCWD, NR_CHDIR, NR_GETDENTS, NR_UMASK})
  {
    GroupDecides(Paths(), d);
  }

  lemma TimersAllow(c: Config, d: Record)
    ensures PlanVerdict(PostloginTimers(c), d) == Allowed(
      || (c.useSendfile && d.nr == NR_SENDFILE)
      || ((c.idleTimeout > 0 || c.dataTimeout > 0 || c.asyncAbor) && d.nr == NR_RT_SIGACTION)
      || ((c.idleTimeout > 0 || c.dataTimeout > 0) && d.nr == NR_ALARM))
  {
    Parts(d);
    GroupDecides(Sendfile(), d);
    GroupDecides(SigAction(), d);
    GroupDecides(Alarm(), d);
  }

  lemma DataAllows(c: Config, d: Record)
    ensures PlanVerdict(PostloginData(c), d) == Allowed(
        || (c.oneProcess && Connecting(c, d))
        || OwnerCall(c, d.nr)
        || (!c.oneProcess && d.nr == NR_RECVMSG && d.a3.lo == 0)
        || (!c.oneProcess && ((c.anonymous && c.chownUploads) || c.ssl) && d.nr == NR_SENDMSG && d.a3.lo == 0))
  {
    Parts(d);
    ConnectionsAllow(c, d);
    GroupDecides(Chown(), d);
    GroupDecides(ReceiveFd(), d);
    GroupDecides(SendFd(), d);
    hide DataConnections;
  }

  lemma NamesAllow(c: Config, d: Record)
    requires d.nr != NR_SOCKET
    ensures PlanVerdict(PostloginNames(c), d) == Allowed(
      || (c.syslog && d.nr == NR_SENDTO && d.a6.lo == 0)
      || (c.textUserdb && d.nr == NR_MMAP && d.a3.lo == PROT_READ && d.a4.lo == MAP_SHARED))
  {
    Parts(d);
    GroupDecides(SyslogSend(), d);
    GroupDecides(DenySocket(), d);
    GroupDecides(SharedMap(), d);
  }

  /** The user may write: everybody but an anonymous user, and that one if `also` says so. */
  predicate MayWrite(c: Config, also: bool) {
    c.write && (!c.anonymous || also)
  }

  /** What writing commands take. */
  predicate Changing(c: Config, n: int) {
    || (n == NR_MKDIR && MayWrite(c, c.anonMkdir))
    || (n == NR_UNLINK && MayWrite(c, c.anonOther || c.deleteFailed))
    || (n in {NR_RMDIR, NR_RENAME, NR_FTRUNCATE} && MayWrite(c, c.anonOther))
    || (n in {NR_UTIME, NR_UTIMES} && MayWrite(c, c.anonOther) && c.mdtmWrite)
    || (n == NR_CHMOD && MayWrite(c, false) && c.chmodEnable)
  }

  lemma WritesAllow(c: Config, d: Record)
    ensures PlanVerdict(PostloginWrites(c), d) == Allowed(Changing(c, d.nr))
  {
    WritingGroups(d);
    hide About, CallVerdict, MakeDir, Unlink, Tree, SetTimes, Chmod;
    Parts(d);
  }

  lemma WritingGroups(d: Record)
    ensures CallVerdict(MakeDir(), d) == Allowed(d.nr == NR_MKDIR)
    ensures CallVerdict(Unlink(), d) == Allowed(d.nr == NR_UNLINK)
    ensures CallVerdict(Tree(), d) == Allowed(d.nr in {NR_RMDIR, NR_RENAME, NR_FTRUNCATE})
    ensures CallVerdict(SetTimes(), d) == Allowed(d.nr in {NR_UTIME, NR_UTIMES})
    ensures CallVerdict(Chmod(), d) == Allowed(d.nr == NR_CHMOD)
  {
    GroupDecides(MakeDir(), d);
    GroupDecides(Unlink(), d);
    GroupDecides(Tree(), d);
    GroupDecides(SetTimes(), d);
    GroupDecides(Chmod(), d);
  }

  // ----- before login

  /** What lets a call through before login. */
  predicate AllowedBeforeLogin(c: Config, d: Record) {
    if PlainCall(d.nr) || d.nr in {NR_NANOSLEEP, NR_GETPID, NR_SHUTDOWN} then true
    else if d.nr == NR_MMAP then PrivateMap(d)
    else if d.nr == NR_MPROTECT then OnlyBitsOf(d.a3.lo, PROT_READ, 32)
    else if d.nr == NR_RECVFROM then d.a4.lo == MSG_PEEK
    else if d.nr == NR_FCNTL then ControlFcntl(d) || ((c.xferlog || c.dualLog) && d.a2.lo in {F_SETLK, F_SETLKW})
    else if d.nr in {NR_RT_SIGACTION, NR_ALARM} then c.idleTimeout > 0
    else if d.nr == NR_RECVMSG then c.ssl && d.a3.lo == 0
    else if d.nr == NR_SETSOCKOPT then c.ssl && OptionOf(d, IPPROTO_TCP, TCP_NODELAY)
    else false
  }

  /** Looking at the flags of a descriptor, or setting some of those that files are opened with. */
  predicate ControlFcntl(d: Record) {
    d.a2.lo == F_GETFL || (d.a2.lo == F_SETFL && OnlyBitsOf(d.a3.lo, OPEN_FLAGS + O_ACCMODE, 32))
  }

  /** The verdict before login, for every configuration and every record. */
  lemma VerdictBeforeLogin(c: Config, d: Record)
    ensures PlanVerdict(Prelogin(c), d) ==
      if d.nr == NR_MREMAP then SECCOMP_RET_ERRNO + ENOSYS
      else if d.nr == NR_SOCKET && c.syslog then SECCOMP_RET_ERRNO + EACCES
      else Allowed(AllowedBeforeLogin(c, d))
  {
    Parts(d);
    hide OnlyBitsOf, About, CallVerdict, Base, ControlChannel, PreloginOptions;
    if d.nr == NR_MREMAP {
      BaseRejects(d);
    } else if d.nr == NR_SOCKET {
      PreloginSocket(c, d);
    } else {
      BaseAllows(d);
      ControlChannelAllows(d);
      PreloginOptionsAllow(c, d);
      UnmentionedIsKilled(When(c.syslog, Do(DenySocket())), d);
    }
  }

  // ----- after login

  /** The calls on the session's own descriptors and on paths. */
  predicate PlainAfterLogin(n: int) {
    n in {NR_LSTAT, NR_FSTAT, NR_LSEEK, NR_STAT, NR_READLINK, NR_GETCWD, NR_CHDIR, NR_GETDENTS, NR_UMASK}
  }

  /** What lets a call on a socket or a descriptor through after login. */
  predicate AllowedOnDescriptor(c: Config, d: Record) {
    var connects := c.oneProcess && c.portEnable;
    if d.nr == NR_FCNTL then
      || ControlFcntl(d)
      || ((c.xferlog || c.dualLog || c.lockUploads) && d.a2.lo in {F_SETLK, F_SETLKW})
      || (c.asyncAbor && d.a2.lo == F_SETOWN && d.a3.lo == ToWord(c.pid))
      || (connects && d.a2.lo == F_SETFL && d.a3.lo in {O_RDWR, O_RDWR + O_NONBLOCK})
    else if d.nr == NR_SETSOCKOPT then
      || OptionOf(d, SOL_SOCKET, SO_KEEPALIVE) || OptionOf(d, SOL_SOCKET, SO_LINGER) || OptionOf(d, IPPROTO_IP, IP_TOS)
      || (c.ssl && OptionOf(d, IPPROTO_TCP, TCP_NODELAY))
      || (connects && OptionOf(d, SOL_SOCKET, SO_REUSEADDR))
    else if d.nr == NR_GETSOCKOPT then connects && OptionOf(d, SOL_SOCKET, SO_ERROR)
    else if d.nr == NR_CONNECT then connects
    else if d.nr in {NR_LISTEN, NR_ACCEPT} then c.oneProcess && c.pasvEnable
    else if d.nr in {NR_BIND, NR_SELECT} then c.oneProcess
    else if d.nr == NR_SOCKET then c.oneProcess && TcpSocket(d)
    else if d.nr == NR_RECVFROM then d.a4.lo == MSG_PEEK
    else if d.nr == NR_RECVMSG then d.a3.lo == 0 && (c.ssl || !c.oneProcess)
    else if d.nr == NR_SENDMSG then d.a3.lo == 0 && !c.oneProcess && (c.ssl || (c.anonymous && c.chownUploads))
    else if d.nr == NR_SENDTO then d.a6.lo == 0 && c.syslog
    else if d.nr == NR_SENDFILE then c.useSendfile
    else false
  }

  /** What lets a call that changes files through after login. */
  predicate AllowedToChange(c: Config, n: int) {
    if n == NR_MKDIR then MayWrite(c, c.anonMkdir)
    else if n == NR_UNLINK then MayWrite(c, c.anonOther || c.deleteFailed)
    else if n in {NR_RMDIR, NR_RENAME, NR_FTRUNCATE} then MayWrite(c, c.anonOther)
    else if n in {NR_UTIME, NR_UTIMES} then MayWrite(c, c.anonOther) && c.mdtmWrite
    else if n == NR_CHMOD then MayWrite(c, false) && c.chmodEnable
    else if n in {NR_FCHMOD, NR_FCHOWN} then c.oneProcess && c.anonymous && c.chownUploads
    else false
  }

  /** What lets a call through after login. */
  predicate AllowedAfterLogin(c: Config, d: Record) {
    if PlainCall(d.nr) || PlainAfterLogin(d.nr) || d.nr in {NR_NANOSLEEP, NR_GETPID, NR_SHUTDOWN} then true
    else if d.nr == NR_MMAP then
      PrivateMap(d) || (c.textUserdb && d.a3.lo == PROT_READ && d.a4.lo == MAP_SHARED)
    else if d.nr == NR_MPROTECT then OnlyBitsOf(d.a3.lo, PROT_READ, 32)
    else if IsOpen(d) then OnlyBitsOf(FlagsOf(d), OpenMask(c), 32)
    else if d.nr == NR_RT_SIGACTION then c.idleTimeout > 0 || c.dataTimeout > 0 || c.asyncAbor
    else if d.nr == NR_ALARM then c.idleTimeout > 0 || c.dataTimeout > 0
    else AllowedOnDescriptor(c, d) || AllowedToChange(c, d.nr)
  }

  /** What the rules for the options let through. */
  predicate LaterOption(c: Config, d: Record) {
    || (c.oneProcess && Connecting(c, d))
    || OwnerCall(c, d.nr)
    || (d.nr == NR_RECVMSG && d.a3.lo == 0 && !c.oneProcess)
    || (d.nr == NR_SENDMSG && d.a3.lo == 0 && !c.oneProcess && ((c.anonymous && c.chownUploads) || c.ssl))
    || (d.nr == NR_SENDTO && d.a6.lo == 0 && c.syslog)
    || (d.nr == NR_MMAP && d.a3.lo == PROT_READ && d.a4.lo == MAP_SHARED && c.textUserdb)
    || Changing(c, d.nr)
  }

  /** What the other rules that are added after login let through. */
  predicate LaterAnyway(c: Config, d: Record) {
    || (d.nr == NR_FCNTL && d.a2.lo in {F_SETLK, F_SETLKW} && (c.xferlog || c.dualLog || c.lockUploads))
    || (d.nr == NR_FCNTL && d.a2.lo == F_SETOWN && d.a3.lo == ToWord(c.pid) && c.asyncAbor)
    || d.nr in {NR_FSTAT, NR_LSEEK, NR_STAT, NR_READLINK, NR_GETCWD, NR_CHDIR, NR_GETDENTS, NR_UMASK}
    || (d.nr == NR_SETSOCKOPT &&
        (OptionOf(d, SOL_SOCKET, SO_KEEPALIVE) || OptionOf(d, SOL_SOCKET, SO_LINGER)
         || OptionOf(d, IPPROTO_IP, IP_TOS)))
    || (IsOpen(d) && OnlyBitsOf(FlagsOf(d), OpenMask(c), 32))
    || (d.nr == NR_SENDFILE && c.useSendfile)
    || (d.nr == NR_RT_SIGACTION && (c.idleTimeout > 0 || c.dataTimeout > 0 || c.asyncAbor))
    || (d.nr == NR_ALARM && (c.idleTimeout > 0 || c.dataTimeout > 0))
  }

  lemma OptionsAllow(c: Config, d: Record)
    requires d.nr != NR_SOCKET
    ensures PlanVerdict(PostloginOptions(c), d) == Allowed(LaterOption(c, d))
  {
    hide About, CallVerdict, Connecting, Changing, PostloginData, PostloginNames, PostloginWrites;
    Parts(d);
    ConnectionsAllow(c, d);
    DataAllows(c, d);
    NamesAllow(c, d);
    WritesAllow(c, d);
  }

  lemma LaterAllows(c: Config, d: Record)
    requires d.nr != NR_SOCKET
    ensures PlanVerdict(AfterPrelogin(c), d) == Allowed(LaterAnyway(c, d) || LaterOption(c, d))
  {
    hide About, CallVerdict, OnlyBitsOf, OptionOf, LaterOption, ToWord;
    hide PostloginLocks, Descriptors, Opens, Paths, PostloginTimers, PostloginOptions;
    Parts(d);
    LocksAllow(c, d);
    DescriptorsAllow(d);
    OpensAllow(c, d);
    PathsAllow(d);
    TimersAllow(c, d);
    OptionsAllow(c, d);
  }

  /** The calls that a setting or an argument decides, in four kinds. */
  predicate FlagCall(n: int) {
    n in {NR_FCNTL, NR_SETSOCKOPT, NR_GETSOCKOPT}
  }

  predicate MessageCall(n: int) {
    n in {NR_RECVFROM, NR_RECVMSG, NR_SENDMSG, NR_SENDTO, NR_SENDFILE, NR_CONNECT, NR_LISTEN, NR_ACCEPT}
  }

  predicate MemoryCall(n: int) {
    n in {NR_MMAP, NR_MPROTECT, NR_RT_SIGACTION, NR_ALARM, NR_OPEN, NR_OPENAT, NR_BIND, NR_SELECT}
  }

  predicate FileCall(n: int) {
    n in {NR_MKDIR, NR_UNLINK, NR_RMDIR, NR_RENAME, NR_FTRUNCATE, NR_UTIME, NR_UTIMES, NR_CHMOD, NR_FCHMOD, NR_FCHOWN}
  }

  /** Rule by rule and call by call it comes to the same. */
  predicate SameByCall(c: Config, d: Record) {
    AllowedAfterLogin(c, d) <==>
      d.nr == NR_LSTAT || AllowedBeforeLogin(c, d) || LaterAnyway(c, d) || LaterOption(c, d)
  }

  lemma SameOnFlags(c: Config, d: Record)
    requires FlagCall(d.nr)
    ensures SameByCall(c, d)
  {
    hide OnlyBitsOf, OptionOf, PrivateMap, ToWord;
  }

  lemma SameOnMessages(c: Config, d: Record)
    requires MessageCall(d.nr)
    ensures SameByCall(c, d)
  {
    hide OnlyBitsOf, OptionOf, PrivateMap, ToWord;
  }

  lemma SameOnMemory(c: Config, d: Record)
    requires MemoryCall(d.nr)
    ensures SameByCall(c, d)
  {
    hide OnlyBitsOf, OptionOf, PrivateMap, ToWord;
  }

  lemma SameOnFiles(c: Config, d: Record)
    requires FileCall(d.nr)
    ensures SameByCall(c, d)
  {
    hide OnlyBitsOf, OptionOf, PrivateMap, ToWord;
  }

  lemma SameOnOthers(c: Config, d: Record)
    requires !FlagCall(d.nr) && !MessageCall(d.nr) && !MemoryCall(d.nr) && !FileCall(d.nr)
    requires d.nr != NR_SOCKET && d.nr != NR_MREMAP
    ensures SameByCall(c, d)
  {
    hide OnlyBitsOf, OptionOf, PrivateMap, ToWord;
  }

  lemma SameAfterLogin(c: Config, d: Record)
    requires d.nr != NR_SOCKET && d.nr != NR_MREMAP
    ensures SameByCall(c, d)
  {
    hide *;
    if FlagCall(d.nr) {
      SameOnFlags(c, d);
    } else if MessageCall(d.nr) {
      SameOnMessages(c, d);
    } else if MemoryCall(d.nr) {
      SameOnMemory(c, d);
    } else if FileCall(d.nr) {
      SameOnFiles(c, d);
    } else {
      SameOnOthers(c, d);
    }
  }

  /** The verdict after login, for every configuration and every record. */
  lemma VerdictAfterLogin(c: Config, d: Record)
    ensures PlanVerdict(Postlogin(c), d) ==
      if d.nr == NR_MREMAP then SECCOMP_RET_ERRNO + ENOSYS
      else if d.nr == NR_SOCKET && (c.syslog || (c.textUserdb && !AllowedAfterLogin(c, d))) then
        SECCOMP_RET_ERRNO + EACCES
      else Allowed(AllowedAfterLogin(c, d))
  {
    hide About, CallVerdict, AllowedBeforeLogin, LaterAnyway, LaterOption, Prelogin, AfterPrelogin, Postlogin;
    if d.nr == NR_SOCKET {
      SocketVerdict(c, d);
    } else {
      hide AllowedAfterLogin;
      VerdictOnOthers(c, d);
    }
  }

  lemma VerdictOnOthers(c: Config, d: Record)
    requires d.nr != NR_SOCKET
    ensures PlanVerdict(Postlogin(c), d) ==
      if d.nr == NR_MREMAP then SECCOMP_RET_ERRNO + ENOSYS else Allowed(AllowedAfterLogin(c, d))
  {
    hide About, CallVerdict, AllowedBeforeLogin, AllowedAfterLogin, LaterAnyway, LaterOption, Prelogin, AfterPrelogin;
    Parts(d);
    GroupDecides(Lstat(), d);
    VerdictBeforeLogin(c, d);
    LaterAllows(c, d);
    if d.nr != NR_MREMAP { SameAfterLogin(c, d); }
  }

  // ----- in the broker

  /** What lets a call through in the broker. */
  predicate AllowedInBroker(c: Config, d: Record) {
    if PlainCall(d.nr) || d.nr in {NR_BIND, NR_SELECT} then true
    else if d.nr == NR_MMAP then PrivateMap(d)
    else if d.nr == NR_MPROTECT then OnlyBitsOf(d.a3.lo, PROT_READ, 32)
    else if d.nr == NR_SOCKET then TcpSocket(d)
    else if d.nr == NR_FCNTL then
      c.portEnable && (d.a2.lo == F_GETFL || (d.a2.lo == F_SETFL && d.a3.lo in {O_RDWR, O_RDWR + O_NONBLOCK}))
    else if d.nr == NR_SETSOCKOPT then c.portEnable && OptionOf(d, SOL_SOCKET, SO_REUSEADDR)
    else if d.nr == NR_GETSOCKOPT then c.portEnable && OptionOf(d, SOL_SOCKET, SO_ERROR)
    else if d.nr == NR_CONNECT then c.portEnable
    else if d.nr in {NR_LISTEN, NR_ACCEPT} then c.pasvEnable
    else if d.nr == NR_SENDMSG then d.a3.lo == 0
    else false
  }

  /** The verdict in the broker, for every configuration and every record. */
  lemma VerdictInBroker(c: Config, d: Record)
    ensures PlanVerdict(Broker(c), d) ==
      if d.nr == NR_MREMAP then SECCOMP_RET_ERRNO + ENOSYS else Allowed(AllowedInBroker(c, d))
  {
    hide OnlyBitsOf, About, CallVerdict, Base, DataConnections;
    Parts(d);
    if d.nr == NR_MREMAP {
      BaseRejects(d);
    } else {
      BaseAllows(d);
      ConnectionsAllow(c, d);
      GroupDecides(SendFd(), d);
    }
  }
}
