/**
The filter after login and the commands of a session: no command that the settings permit is killed
at the system calls by which it changes files.
*/
module Confinement {
  import opened Bpf
  import opened Commands
  import opened FilterCompiler
  import P = Policy
  import opened Verdicts

  /** The filter has been set up for a session with these settings. */
  predicate SetUpFor(c: P.Config, cfg: Settings) {
    && c.write == cfg.writeEnable && c.anonymous == cfg.isAnonymous
    && c.anonMkdir == cfg.anonMkdir && c.anonOther == cfg.anonOther
    && c.deleteFailed == cfg.deleteFailedUploads && c.chmodEnable == cfg.chmodEnable
  }

  /** The system calls by which a command changes files that are there already, or directories: an
      upload cuts the file if it may be an old one, and may have to remove it again. */
  predicate Makes(cfg: Settings, cmd: Command, n: int) {
    match cmd
    case Mkd(_) => n == P.NR_MKDIR
    case Rmd(_) => n == P.NR_RMDIR
    case Dele(_) => n == P.NR_UNLINK
    case Rnto(_) => n == P.NR_RENAME
    case SiteChmod(_) => n == P.NR_CHMOD
    case Stor(_) =>
      (n == P.NR_FTRUNCATE && !(cfg.isAnonymous && !cfg.anonOther)) || (n == P.NR_UNLINK && cfg.deleteFailedUploads)
    case Appe(_) => n == P.NR_UNLINK && cfg.deleteFailedUploads
    case Stou(_) => n == P.NR_UNLINK && cfg.deleteFailedUploads
    case _ => false
  }

  /** What a command needs that is not refused, the filter allows. */
  lemma NeededCallsAreAllowed(c: P.Config, cfg: Settings, epsvAll: bool, cmd: Command, d: Record)
    requires SetUpFor(c, cfg) && !Refused(cfg, epsvAll, cmd) && Makes(cfg, cmd, d.nr)
    ensures P.PlanVerdict(P.Postlogin(c), d) == SECCOMP_RET_ALLOW
  {
    hide P.Postlogin, P.PlanVerdict, P.PlanOk;
    VerdictAfterLogin(c, d);
  }

  /** And it allows making and removing directories, renaming and changing modes only if there is a
      command that is not refused and does that. */
  lemma AllowedCallsAreNeeded(c: P.Config, cfg: Settings, d: Record) returns (cmd: Command)
    requires SetUpFor(c, cfg) && d.nr in {P.NR_MKDIR, P.NR_RMDIR, P.NR_RENAME, P.NR_CHMOD}
    requires P.PlanVerdict(P.Postlogin(c), d) == SECCOMP_RET_ALLOW
    ensures !Refused(cfg, false, cmd) && Makes(cfg, cmd, d.nr)
  {
    hide P.Postlogin, P.PlanVerdict, P.PlanOk;
    VerdictAfterLogin(c, d);
    cmd := if d.nr == P.NR_MKDIR then Mkd([]) else if d.nr == P.NR_RMDIR then Rmd([])
      else if d.nr == P.NR_RENAME then Rnto([]) else SiteChmod([]);
  }
}
