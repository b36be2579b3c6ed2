/**
The commands of a session after login and the settings that decide about them (`postlogin.c`).
*/
module Commands {
  import opened Common
  import opened Eprt
  import opened Files
  import opened IpAddrParse
  import opened PasvPort
  import opened Privops
  import opened TransferLog

  /** The settings and facts of a session that its control flow depends on. */
  datatype Settings = Settings(
    priv: Config, isAnonymous: bool, isIpv6: bool, controlUseSsl: bool, asyncAbor: bool,
    pasvEnable: bool, portEnable: bool, downloadEnable: bool, dirlistEnable: bool, writeEnable: bool,
    anonUpload: bool, anonMkdir: bool, anonOther: bool, chmodEnable: bool, portPromiscuous: bool,
    sslEnable: bool, forceLocalDataSsl: bool, forceAnonDataSsl: bool, requireSslReuse: bool,
    anonWorldReadableOnly: bool, recurse: bool, deleteFailedUploads: bool,
    asciiDownload: bool, sslSlave: bool, transChunkSize: nat)

  /** What `deny_file`, `upload_file` and `download_file` say about names, and which files everybody may
      read. */
  datatype Access = Access(
    denied: Name -> bool, uploadable: Name -> bool, downloadable: Name -> bool, worldReadable: Name -> bool)

  datatype EpsvArg = NoArg | All | Protocol(n: int)

  /** The commands that matter here, with their arguments as far as they do; an empty filter is none.
      `Other` is any that only gets a reply, such as a SITE CHMOD that lacks an argument. */
  datatype Command =
    | Pasv
    | Epsv(arg: EpsvArg)
    | Port(text: seq<Byte>)
    | Eprt(text: seq<Byte>)
    | Retr(name: Name)
    | List(filter: Name)
    | Nlst(filter: Name)
    | StatFile(filter: Name)
    | Stor(name: Name)
    | Appe(name: Name)
    | Stou(name: Name)
    | Mkd(name: Name)
    | Rmd(name: Name)
    | Dele(name: Name)
    | Rest(text: seq<Byte>)
    | Rnfr(name: Name)
    | Rnto(name: Name)
    | SiteChmod(name: Name)
    | Type(ascii: bool)
    | Prot(private: bool)
    | Quit
    | Other

  /** The commands that set up data connections, those that act on a name, and those that use a data
      connection. */
  predicate IsMode(cmd: Command) {
    cmd.Pasv? || cmd.Epsv? || cmd.Port? || cmd.Eprt?
  }

  predicate IsAction(cmd: Command) {
    cmd.Mkd? || cmd.Rmd? || cmd.Dele? || cmd.Rnfr? || cmd.Rnto? || cmd.SiteChmod?
  }

  predicate IsTransfer(cmd: Command) {
    cmd.Retr? || cmd.List? || cmd.Nlst? || cmd.StatFile? || cmd.Stor? || cmd.Stou? || cmd.Appe?
  }

  /** The entry that a command writes to the log, if any. */
  function EntryOf(cmd: Command): Option<Entry> {
    match cmd
    case Retr(_) => Some(Download)
    case Stor(_) => Some(Upload)
    case Appe(_) => Some(Upload)
    case Stou(_) => Some(Upload)
    case Mkd(_) => Some(Mkdir)
    case Rmd(_) => Some(Rmdir)
    case Dele(_) => Some(Delete)
    case Rnfr(_) => Some(Rename)
    case Rnto(_) => Some(Rename)
    case SiteChmod(_) => Some(Chmod)
    case _ => None
  }

  // ----- what the settings refuse

  /** The commands that write. */
  predicate Writes(cmd: Command) {
    cmd.Stor? || cmd.Stou? || cmd.Appe? || cmd.Mkd? || cmd.Rmd? || cmd.Dele? || cmd.Rnfr? || cmd.Rnto? || cmd.SiteChmod?
  }

  /** Setting by setting, the commands that it refuses; `epsvAll` says that EPSV ALL has been given. */
  predicate Refused(cfg: Settings, epsvAll: bool, cmd: Command) {
    || (!cfg.pasvEnable && (cmd.Pasv? || cmd.Epsv?))
    || (!cfg.portEnable && (cmd.Port? || cmd.Eprt?))
    || (epsvAll && (cmd.Pasv? || cmd.Port?))
    || (!cfg.downloadEnable && cmd.Retr?)
    || (!cfg.dirlistEnable && (cmd.List? || cmd.Nlst? || cmd.StatFile?))
    || (!cfg.sslEnable && cmd.Prot?)
    || (!cfg.writeEnable && Writes(cmd))
    || (cfg.isAnonymous && !cfg.anonUpload && (cmd.Stor? || cmd.Stou?))
    || (cfg.isAnonymous && !cfg.anonMkdir && cmd.Mkd?)
    || (cfg.isAnonymous && !cfg.anonOther && (cmd.Appe? || cmd.Rmd? || cmd.Dele? || cmd.Rnfr? || cmd.Rnto?))
    || ((cfg.isAnonymous || !cfg.chmodEnable) && cmd.SiteChmod?)
  }

  /** The entries that a session with these settings can have in its log. */
  predicate MayLog(cfg: Settings, entry: Entry) {
    var user := !cfg.isAnonymous;
    match entry
    case Download => cfg.downloadEnable
    case Upload => cfg.writeEnable && (user || cfg.anonUpload || cfg.anonOther)
    case Mkdir => cfg.writeEnable && (user || cfg.anonMkdir)
    case Chmod => cfg.writeEnable && user && cfg.chmodEnable
    case _ => cfg.writeEnable && (user || cfg.anonOther)
  }

  ghost predicate AllMayBeLogged(cfg: Settings, j: seq<LogEvent>, from: nat) {
    forall i :: from <= i < |j| ==> MayLog(cfg, j[i].entry)
  }

  lemma LoggedIfNotRefused(cfg: Settings, epsvAll: bool, cmd: Command, before: seq<LogEvent>, after: seq<LogEvent>)
    requires !Refused(cfg, epsvAll, cmd) && Wrote(before, after, EntryOf(cmd))
    ensures AllMayBeLogged(cfg, after, |before|)
  {
    if EntryOf(cmd).Some? { assert MayLog(cfg, EntryOf(cmd).value); }
  }

  // ----- what commands do to the files

  /** MKD makes a directory, RMD removes one, DELE removes a file; SITE CHMOD is not seen here. */
  ghost predicate Acted(entry: Entry, name: Name, before: Tree, after: Tree) {
    match entry
    case Mkdir => name !in before && after == before[name := Dir]
    case Rmdir => name in before && before[name].Dir? && after == before - {name}
    case Delete => name in before && before[name].File? && after == before - {name}
    case _ => after == before
  }

  // ----- addresses that the client names

  /** The address that the argument of PORT names: on an IPv6 session a mapped one. */
  function PortNames(isIpv6: bool, text: seq<Byte>): Option<Endpoint> {
    match PortArgument(text)
    case None => None
    case Some((ip, port)) => Some(Endpoint(SetIpv4(isIpv6, ip), port))
  }

  /** The address that the argument of EPRT names. */
  function EprtNames(isIpv6: bool, text: seq<Byte>): Option<Endpoint> {
    match EprtArgument(isIpv6, text)
    case Named(ip, port) => Some(Endpoint(ip, port))
    case _ => None
  }

  /** What becomes of an address that the client names: it is kept unless it is a stranger's
      or its port is reserved, which some settings allow. */
  function KeptAddress(cfg: Settings, named: Option<Endpoint>): Option<Endpoint> {
    if named.Some? && !cfg.portPromiscuous && (named.value.ip != cfg.priv.remote || named.value.port < IPPORT_RESERVED)
    then None
    else named
  }

  /** The address of the client itself is kept, in either notation and with any port that is not
      reserved; one with a reserved port is kept exactly if `port_promiscuous` is set. */
  lemma OwnAddressIsKept(cfg: Settings, ip: seq<Byte>, port: Port)
    requires |ip| == 4 && cfg.priv.remote == SetIpv4(cfg.isIpv6, ip)
    ensures var viaPort := KeptAddress(cfg, PortNames(cfg.isIpv6, PasvText(ip, port)));
      var viaEprt := KeptAddress(cfg, EprtNames(cfg.isIpv6, EprtText(1, PrintUchars(ip, DOT), port)));
      viaPort == viaEprt ==
        if port >= IPPORT_RESERVED || cfg.portPromiscuous then Some(Endpoint(cfg.priv.remote, port)) else None
  {
    hide PasvText, EprtText, PrintUchars, PortArgument, EprtArgument;
    PasvPortRoundTrip(ip, port);
    EprtIpv4RoundTrip(cfg.isIpv6, ip, port);
  }
}
