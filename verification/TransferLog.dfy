/**
The transfer log (`logging.c`) as a history of entries that are started, and then recorded or
dropped.
*/
module TransferLog {
  import opened Common

  datatype Entry = Download | Upload | Mkdir | Rmdir | Delete | Rename | Chmod

  /** The history of the log: an entry is started, and then recorded or dropped. */
  datatype LogEvent = Started(entry: Entry) | Recorded(entry: Entry, succeeded: bool) | Dropped(entry: Entry)

  /** Every entry has been recorded once, before the next one was started; only a download
      can have been dropped. */
  ghost predicate WellLogged(j: seq<LogEvent>) {
    if j == [] then true
    else
      && |j| >= 2
      && j[|j| - 2].Started?
      && j[|j| - 1].entry == j[|j| - 2].entry
      && (j[|j| - 1].Recorded? || j[|j| - 1] == Dropped(Download))
      && WellLogged(j[..|j| - 2])
  }

  /** In other words: every started entry is followed at once by its own record, or by its
      dropping if it is a download, and there are no records of anything else. */
  lemma {:induction false} OneRecordPerEntry(j: seq<LogEvent>, i: nat)
    requires WellLogged(j) && i < |j|
    ensures j[i].Started? <==> i % 2 == 0
    ensures j[i].Started? ==>
      i + 1 < |j| && j[i + 1].entry == j[i].entry && (j[i + 1].Recorded? || j[i + 1] == Dropped(Download))
    decreases |j|
  {
    EvenLength(j);
    if i < |j| - 2 { OneRecordPerEntry(j[..|j| - 2], i); }
  }

  lemma {:induction false} EvenLength(j: seq<LogEvent>)
    requires WellLogged(j)
    ensures |j| % 2 == 0
  {
    if j != [] { EvenLength(j[..|j| - 2]); }
  }

  /** From `before` to `after` at most one entry was started and finished, and it was `e`. */
  ghost predicate Wrote(before: seq<LogEvent>, after: seq<LogEvent>, e: Option<Entry>) {
    && before <= after
    && |after| <= |before| + 2
    && forall i :: |before| <= i < |after| ==> Some(after[i].entry) == e
  }

  lemma WroteNothing(j: seq<LogEvent>)
    ensures forall e :: Wrote(j, j, e)
  {
  }

  lemma WroteStart(j: seq<LogEvent>, e: Entry)
    ensures Wrote(j, j + [Started(e)], Some(e))
    ensures Wrote(j, j + [Started(e)] + [Dropped(e)], Some(e))
    ensures forall ok :: Wrote(j, j + [Started(e)] + [Recorded(e, ok)], Some(e))
  {
  }

  /** An entry left pending by a command is the only one of it. */
  lemma EntryFinished(before: seq<LogEvent>, after: seq<LogEvent>, pending: Entry, e: Option<Entry>)
    requires WellLogged(before) && Wrote(before, after, e)
    requires after != [] && after[|after| - 1] == Started(pending) && WellLogged(after[..|after| - 1])
    ensures Wrote(before, after + [Recorded(pending, false)], e)
    ensures before <= after
  {
    EvenLength(before);
    EvenLength(after[..|after| - 1]);
  }
}
