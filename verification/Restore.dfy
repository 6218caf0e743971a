/** internal/backup/backup.go: putting a staged database in place of the live one at start-up.
    Every file operation is one step, and the process may die between any two of them. */
module Restore {
  import opened Basics

  /** What a database file holds: a base image, or an image with the changes of a log applied. */
  datatype Content = Base(id: nat) | Applied(image: Content, log: nat)

  datatype Stage = Sound(content: Content) | Damaged
  datatype Copy = Complete(content: Content) | Partial

  /** The files the protocol touches. Sidecars hold changes that have not reached the main file. */
  datatype Files = Files(
    main: Option<Content>, wal: Option<nat>, journal: Option<nat>, shm: bool,
    stage: Option<Stage>, backups: map<string, Copy>)

  function WithLog(c: Content, log: Option<nat>): Content {
    match log
    case None => c
    case Some(l) => Applied(c, l)
  }

  /** The live database's full contents: the main file with its journal and WAL applied. */
  function Full(fs: Files): Content
    requires fs.main.Some?
  {
    WithLog(WithLog(fs.main.value, fs.journal), fs.wal)
  }

  /** How one call of ApplyPending turns out where it depends on the system around it. */
  datatype Luck = Luck(
    name: string,         // pre-restore-<stamp>.db
    mkdirOk: bool,
    opens: bool,          // the SQLite driver opens the old database
    vacuumOk: bool,       // VACUUM INTO succeeds, given that its target does not exist
    checkpoints: bool,    // closing the old database folds its sidecars into the main file
    copyOk: bool,
    walGone: bool, shmGone: bool, journalGone: bool, // each os.Remove works
    renameOk: bool)

  datatype Outcome = NothingPending | Restored | Failed

  function Checkpointed(fs: Files): Files
    requires fs.main.Some?
  {
    fs.(main := Some(Full(fs)), wal := None, journal := None)
  }

  function Closed(fs: Files, luck: Luck): Files
    requires fs.main.Some?
  {
    if luck.checkpoints then Checkpointed(fs) else fs
  }

  // ----- The states a call passes through -----

  function Last(fs: Files, trace: seq<Files>): Files {
    if trace == [] then fs else trace[|trace| - 1]
  }

  predicate VacuumWorks(fs: Files, luck: Luck) {
    luck.opens && luck.vacuumOk && luck.name !in fs.backups
  }

  function PutCopy(fs: Files, name: string, copy: Copy): Files {
    fs.(backups := fs.backups[name := copy])
  }

  function DropCopy(fs: Files, name: string): Files {
    fs.(backups := fs.backups - {name})
  }

  function CopyTrace(fs: Files, luck: Luck): seq<Files>
    requires fs.main.Some?
  {
    var begun := PutCopy(fs, luck.name, Partial);
    [begun] + if luck.copyOk then [PutCopy(begun, luck.name, Complete(fs.main.value))] else []
  }

  function VacuumTrace(fs: Files, luck: Luck): seq<Files>
    requires fs.main.Some?
  {
    var begun := PutCopy(fs, luck.name, Partial);
    var done := PutCopy(begun, luck.name, Complete(Full(fs)));
    [begun, done, Closed(done, luck)]
  }

  function FailedVacuumTrace(fs: Files, luck: Luck): seq<Files>
    requires fs.main.Some?
  {
    var begun := if luck.name in fs.backups then fs else PutCopy(fs, luck.name, Partial);
    var closed := Closed(begun, luck);
    [begun, closed, DropCopy(closed, luck.name)]
  }

  function SnapshotTrace(fs: Files, luck: Luck): seq<Files>
    requires fs.main.Some?
  {
    if VacuumWorks(fs, luck) then VacuumTrace(fs, luck)
    else if luck.opens then FailedVacuumTrace(fs, luck) + CopyTrace(FailedVacuumTrace(fs, luck)[2], luck)
    else CopyTrace(fs, luck)
  }

  predicate SnapshotSucceeds(fs: Files, luck: Luck) {
    VacuumWorks(fs, luck) || luck.copyOk
  }

  function SwapTrace(fs: Files, luck: Luck): seq<Files>
    requires fs.stage.Some? && fs.stage.value.Sound?
  {
    var a := if luck.walGone then fs.(wal := None) else fs;
    var b := if luck.shmGone then a.(shm := false) else a;
    var c := if luck.journalGone then b.(journal := None) else b;
    [a, b, c] + if luck.renameOk then [c.(main := Some(fs.stage.value.content), stage := None)] else []
  }

  function ApplyTrace(fs: Files, luck: Luck): seq<Files> {
    if fs.stage.None? then []
    else if fs.stage.value.Damaged? then [fs.(stage := None)]
    else if fs.main.None? then SwapTrace(fs, luck)
    else if !luck.mkdirOk then []
    else
      var t := SnapshotTrace(fs, luck);
      if SnapshotSucceeds(fs, luck) then t + SwapTrace(Last(fs, t), luck) else t
  }

  function ApplyOutcome(fs: Files, luck: Luck): Outcome {
    if fs.stage.None? then NothingPending
    else if fs.stage.value.Damaged? then Failed
    else if fs.main.Some? && !(luck.mkdirOk && SnapshotSucceeds(fs, luck)) then Failed
    else if luck.renameOk then Restored else Failed
  }

  /** The disk after a call, and after a call cut short by a crash at step k. */
  function AfterApply(fs: Files, luck: Luck): Files {
    Last(fs, ApplyTrace(fs, luck))
  }

  function CrashedAt(fs: Files, luck: Luck, k: nat): Files {
    var t := ApplyTrace(fs, luck);
    if k == 0 then fs else if k <= |t| then t[k - 1] else Last(fs, t)
  }

  // ----- The program -----

  class Disk {
    var fs: Files
    /** Every state the disk has been in, one per file operation. */
    ghost var trace: seq<Files>

    ghost predicate Valid()
      reads this
    {
      trace != [] && fs == trace[|trace| - 1]
    }

    constructor (fs: Files)
      ensures Valid() && this.fs == fs && trace == [fs]
    {
      this.fs := fs;
      trace := [fs];
    }

    method Do(next: Files)
      requires Valid()
      modifies this
      ensures Valid() && fs == next && trace == old(trace) + [next]
    {
      fs := next;
      trace := trace + [next];
    }

    method CopyFile(luck: Luck) returns (ok: bool)
      requires Valid() && fs.main.Some?
      modifies this
      ensures Valid() && trace == old(trace) + CopyTrace(old(fs), luck) && ok == luck.copyOk
    {
      var content := fs.main.value;
      Do(PutCopy(fs, luck.name, Partial));
      if !luck.copyOk {
        return false;
      }
      Do(PutCopy(fs, luck.name, Complete(content)));
      assert trace == old(trace) + CopyTrace(old(fs), luck);
      ok := true;
    }

    method Snapshot(luck: Luck) returns (ok: bool)
      requires Valid() && fs.main.Some?
      modifies this
      ensures Valid() && trace == old(trace) + SnapshotTrace(old(fs), luck)
      ensures ok == SnapshotSucceeds(old(fs), luck)
    {
      if luck.opens {
        if luck.vacuumOk && luck.name !in fs.backups {
          var full := Full(fs);
          Do(PutCopy(fs, luck.name, Partial));
          Do(PutCopy(fs, luck.name, Complete(full)));
          Do(Closed(fs, luck));
          assert trace == old(trace) + SnapshotTrace(old(fs), luck);
          return true;
        }
        Do(if luck.name in fs.backups then fs else PutCopy(fs, luck.name, Partial));
        Do(Closed(fs, luck));
        Do(DropCopy(fs, luck.name));
        assert trace == old(trace) + FailedVacuumTrace(old(fs), luck);
      }
      ok := CopyFile(luck);
      assert trace == old(trace) + SnapshotTrace(old(fs), luck);
    }

    /** The sidecars go before the rename, so that a crash never leaves them beside the new file. */
    method Swap(luck: Luck)
      requires Valid() && fs.stage.Some? && fs.stage.value.Sound?
      modifies this
      ensures Valid() && trace == old(trace) + SwapTrace(old(fs), luck)
    {
      var content := fs.stage.value.content;
      Do(if luck.walGone then fs.(wal := None) else fs);
      Do(if luck.shmGone then fs.(shm := false) else fs);
      Do(if luck.journalGone then fs.(journal := None) else fs);
      if luck.renameOk {
        Do(fs.(main := Some(content), stage := None));
      }
      assert trace == old(trace) + SwapTrace(old(fs), luck);
    }

    method ApplyPending(luck: Luck) returns (outcome: Outcome)
      requires Valid()
      modifies this
      ensures Valid() && trace == old(trace) + ApplyTrace(old(fs), luck)
      ensures fs == AfterApply(old(fs), luck)
      ensures outcome == ApplyOutcome(old(fs), luck)
    {
      hide SnapshotTrace, SwapTrace, SnapshotSucceeds, Full;
      if fs.stage.None? {
        return NothingPending;
      }
      if fs.stage.value.Damaged? {
        Do(fs.(stage := None));
        return Failed;
      }
      if fs.main.Some? {
        if !luck.mkdirOk {
          return Failed;
        }
        var ok := Snapshot(luck);
        if !ok {
          return Failed;
        }
        SnapshotKeeps(old(fs), luck);
        ghost var t := SnapshotTrace(old(fs), luck);
        assert fs == Last(old(fs), t) && fs == t[|t| - 1] && fs in t;
      }
      Swap(luck);
      outcome := if luck.renameOk then Restored else Failed;
      assert trace == old(trace) + ApplyTrace(old(fs), luck);
    }
  }

  // ----- What every crash leaves behind -----

  /** f still holds the old database in place, and every backup but the named one. */
  ghost predicate Keeps(fs: Files, f: Files, name: string)
    requires fs.main.Some?
  {
    && f.stage == fs.stage && f.main.Some? && Full(f) == Full(fs)
    && forall n :: n in fs.backups && n != name ==> n in f.backups && f.backups[n] == fs.backups[n]
  }

  lemma SnapshotKeeps(fs: Files, luck: Luck)
    requires fs.main.Some?
    ensures SnapshotTrace(fs, luck) != []
    ensures forall f :: f in SnapshotTrace(fs, luck) ==> Keeps(fs, f, luck.name)
  {
    hide Full;
    var t := SnapshotTrace(fs, luck);
    forall i | 0 <= i < |t| ensures Keeps(fs, t[i], luck.name) {
      if VacuumWorks(fs, luck) {
        VacuumKeeps(fs, luck);
      } else if luck.opens {
        FailedVacuumKeeps(fs, luck);
        var dropped := FailedVacuumTrace(fs, luck)[2];
        CopyKeeps(dropped, luck);
        if i < 3 {
          assert t[i] == FailedVacuumTrace(fs, luck)[i];
        } else {
          assert t[i] == CopyTrace(dropped, luck)[i - 3];
          KeepsTransitively(fs, dropped, t[i], luck.name);
        }
      } else {
        CopyKeeps(fs, luck);
      }
    }
  }

  lemma KeepsTransitively(fs: Files, f: Files, g: Files, name: string)
    requires fs.main.Some? && Keeps(fs, f, name) && Keeps(f, g, name)
    ensures Keeps(fs, g, name)
  {
  }

  lemma ClosedKeeps(fs: Files, luck: Luck)
    requires fs.main.Some?
    ensures Keeps(fs, Closed(fs, luck), luck.name)
  {
  }

  lemma PutKeeps(fs: Files, luck: Luck, copy: Copy)
    requires fs.main.Some?
    ensures Keeps(fs, PutCopy(fs, luck.name, copy), luck.name)
    ensures Keeps(fs, DropCopy(fs, luck.name), luck.name)
  {
  }

  lemma CopyKeeps(fs: Files, luck: Luck)
    requires fs.main.Some?
    ensures forall f :: f in CopyTrace(fs, luck) ==> Keeps(fs, f, luck.name)
  {
    PutKeeps(fs, luck, Partial);
    PutKeeps(PutCopy(fs, luck.name, Partial), luck, Complete(fs.main.value));
  }

  lemma VacuumKeeps(fs: Files, luck: Luck)
    requires fs.main.Some?
    ensures forall f :: f in VacuumTrace(fs, luck) ==> Keeps(fs, f, luck.name)
  {
    var t := VacuumTrace(fs, luck);
    PutKeeps(fs, luck, Partial);
    PutKeeps(t[0], luck, Complete(Full(fs)));
    ClosedKeeps(t[1], luck);
  }

  lemma FailedVacuumKeeps(fs: Files, luck: Luck)
    requires fs.main.Some?
    ensures forall f :: f in FailedVacuumTrace(fs, luck) ==> Keeps(fs, f, luck.name)
  {
    var t := FailedVacuumTrace(fs, luck);
    PutKeeps(fs, luck, Partial);
    ClosedKeeps(t[0], luck);
    PutKeeps(t[1], luck, Partial);
  }

  lemma SnapshotCompletes(fs: Files, luck: Luck)
    requires fs.main.Some? && SnapshotSucceeds(fs, luck)
    ensures var end := Last(fs, SnapshotTrace(fs, luck));
      && luck.name in end.backups
      && end.backups[luck.name] == Complete(
           if VacuumWorks(fs, luck) || (luck.opens && luck.checkpoints) then Full(fs) else fs.main.value)
  {
    if !VacuumWorks(fs, luck) && luck.opens {
      var dropped := FailedVacuumTrace(fs, luck)[2];
      assert SnapshotTrace(fs, luck)[4] == CopyTrace(dropped, luck)[1];
    }
  }

  /** The content c is in a finished backup other than the named one. */
  ghost predicate SavedElsewhere(fs: Files, c: Content, name: string) {
    exists n :: n in fs.backups && n != name && fs.backups[n] == Complete(c)
  }

  ghost predicate Saved(fs: Files, c: Content) {
    exists n :: n in fs.backups && fs.backups[n] == Complete(c)
  }

  /** Nothing of an old database lies beside the main file. */
  predicate NoLogs(fs: Files) {
    fs.wal.None? && fs.journal.None?
  }

  lemma SwapEnds(fs: Files, luck: Luck)
    requires fs.stage.Some? && fs.stage.value.Sound? && luck.renameOk
    ensures var end := Last(fs, SwapTrace(fs, luck));
      && end.main == Some(fs.stage.value.content) && end.stage.None? && end.backups == fs.backups
      && end.wal == (if luck.walGone then None else fs.wal)
      && end.journal == (if luck.journalGone then None else fs.journal)
  {
  }

  lemma RestoredStates(fs: Files, luck: Luck)
    requires fs.stage.Some? && fs.stage.value.Sound? && fs.main.Some?
    requires luck.mkdirOk && SnapshotSucceeds(fs, luck) && luck.renameOk
    ensures var mid := Last(fs, SnapshotTrace(fs, luck));
      && mid in SnapshotTrace(fs, luck) && Keeps(fs, mid, luck.name)
      && AfterApply(fs, luck) == Last(mid, SwapTrace(mid, luck))
  {
    SnapshotKeeps(fs, luck);
    var t := SnapshotTrace(fs, luck);
    assert Last(fs, t) == t[|t| - 1];
  }

  /** A completed restore keeps the old database exactly when it did not depend on a raw copy
      that misses logged changes. */
  lemma OldContentsSurvive(fs: Files, luck: Luck)
    requires fs.main.Some? && ApplyOutcome(fs, luck) == Restored
    ensures Saved(AfterApply(fs, luck), Full(fs)) <==>
      || VacuumWorks(fs, luck)
      || (luck.opens && luck.checkpoints)
      || NoLogs(fs)
      || SavedElsewhere(fs, Full(fs), luck.name)
  {
    hide SnapshotTrace, SwapTrace, ApplyTrace;
    var mid, end := Last(fs, SnapshotTrace(fs, luck)), AfterApply(fs, luck);
    RestoredStates(fs, luck);
    SnapshotCompletes(fs, luck);
    SwapEnds(mid, luck);
    FullIsMain(fs);
    SnapshotAddsOne(fs, luck);
    assert luck.name in end.backups;
  }

  function Depth(c: Content): nat {
    match c case Base(_) => 0 case Applied(i, _) => 1 + Depth(i)
  }

  lemma FullIsMain(fs: Files)
    requires fs.main.Some?
    ensures Full(fs) == fs.main.value <==> NoLogs(fs)
  {
    assert !NoLogs(fs) ==> Depth(Full(fs)) > Depth(fs.main.value);
  }

  /** A snapshot invents no other backup. */
  lemma SnapshotAddsOne(fs: Files, luck: Luck)
    requires fs.main.Some?
    ensures forall f, n :: f in SnapshotTrace(fs, luck) && n in f.backups && n != luck.name ==>
      n in fs.backups && f.backups[n] == fs.backups[n]
  {
    var t := SnapshotTrace(fs, luck);
    forall i, n | 0 <= i < |t| && n in t[i].backups && n != luck.name
      ensures n in fs.backups && t[i].backups[n] == fs.backups[n]
    {
      if !VacuumWorks(fs, luck) && luck.opens {
        if i < 3 {
          assert t[i] == FailedVacuumTrace(fs, luck)[i];
        } else {
          assert t[i] == CopyTrace(FailedVacuumTrace(fs, luck)[2], luck)[i - 3];
        }
      }
    }
  }

  /** The restored file stands alone exactly when each old log was absent, folded in on closing,
      or really removed. */
  lemma OldLogsGone(fs: Files, luck: Luck)
    requires fs.main.Some? && ApplyOutcome(fs, luck) == Restored
    ensures var folded := luck.opens && luck.checkpoints;
      NoLogs(AfterApply(fs, luck)) <==>
        (fs.wal.Some? && !folded ==> luck.walGone) && (fs.journal.Some? && !folded ==> luck.journalGone)
  {
    hide SwapTrace, ApplyTrace;
    RestoredStates(fs, luck);
    var mid := Last(fs, SnapshotTrace(fs, luck));
    SwapEnds(mid, luck);
    if !VacuumWorks(fs, luck) && luck.opens {
      var dropped := FailedVacuumTrace(fs, luck)[2];
      assert mid == CopyTrace(dropped, luck)[1];
    }
  }

  // ----- Other starts -----

  /** Without a staged file nothing happens; a damaged one is thrown away and nothing else changes. */
  lemma NothingToRestore(fs: Files, luck: Luck)
    requires fs.stage.None? || fs.stage.value.Damaged?
    ensures AfterApply(fs, luck) == fs.(stage := None)
    ensures ApplyOutcome(fs, luck) == if fs.stage.None? then NothingPending else Failed
  {
  }

  /** The caller hears of a restore exactly when the staged file has taken its place. */
  lemma RestoredIff(fs: Files, luck: Luck)
    ensures ApplyOutcome(fs, luck) == Restored <==>
      fs.stage.Some? && fs.stage.value.Sound? && AfterApply(fs, luck).stage.None?
    ensures ApplyOutcome(fs, luck) == NothingPending <==> fs.stage.None?
    ensures ApplyOutcome(fs, luck) == Restored ==> AfterApply(fs, luck).main == Some(fs.stage.value.content)
  {
    if fs.stage.Some? && fs.stage.value.Sound? {
      if fs.main.None? {
        FreshRestore(fs, luck);
      } else if ApplyOutcome(fs, luck) == Failed {
        FailedRestoreKeeps(fs, luck);
      } else {
        LeftoverLogSpoils(fs, luck);
        RestoredStates(fs, luck);
        SwapEnds(Last(fs, SnapshotTrace(fs, luck)), luck);
        hide SnapshotTrace, SwapTrace, ApplyTrace;
      }
    }
  }

  /** With no live database the staged one just takes its place; whatever logs lay there still spoil it
      unless they could be removed. */
  lemma FreshRestore(fs: Files, luck: Luck)
    requires fs.main.None? && fs.stage.Some? && fs.stage.value.Sound?
    ensures ApplyOutcome(fs, luck) == if luck.renameOk then Restored else Failed
    ensures var end := AfterApply(fs, luck);
      && end.backups == fs.backups
      && (luck.renameOk ==>
            && end.main == Some(fs.stage.value.content) && end.stage.None?
            && (Full(end) == fs.stage.value.content <==>
                  (fs.wal.Some? ==> luck.walGone) && (fs.journal.Some? ==> luck.journalGone)))
      && (!luck.renameOk ==> end.main.None? && end.stage == fs.stage)
  {
    if luck.renameOk {
      SwapEnds(fs, luck);
      FullIsMain(AfterApply(fs, luck));
    }
  }

  lemma SwapFails(fs: Files, luck: Luck)
    requires fs.stage.Some? && fs.stage.value.Sound? && !luck.renameOk
    ensures var end := Last(fs, SwapTrace(fs, luck));
      && end.main == fs.main && end.stage == fs.stage && end.backups == fs.backups
      && end.wal == (if luck.walGone then None else fs.wal)
      && end.journal == (if luck.journalGone then None else fs.journal)
  {
  }

  lemma LogsMatter(c: Content, journal: Option<nat>, wal: Option<nat>, noJournal: bool, noWal: bool)
    ensures WithLog(WithLog(c, if noJournal then None else journal), if noWal then None else wal)
         == WithLog(WithLog(c, journal), wal)
      <==> (noJournal ==> journal.None?) && (noWal ==> wal.None?)
  {
    assert Depth(WithLog(WithLog(c, journal), wal)) == Depth(c) + (if journal.Some? then 1 else 0) + (if wal.Some? then 1 else 0);
  }

  /** What the snapshot leaves of the logs. */
  lemma LogsAfterSnapshot(fs: Files, luck: Luck)
    requires fs.main.Some? && SnapshotSucceeds(fs, luck)
    ensures var mid, folded := Last(fs, SnapshotTrace(fs, luck)), luck.opens && luck.checkpoints;
      mid.wal == (if folded then None else fs.wal) && mid.journal == (if folded then None else fs.journal)
  {
    if !VacuumWorks(fs, luck) && luck.opens {
      var dropped := FailedVacuumTrace(fs, luck)[2];
      assert Last(fs, SnapshotTrace(fs, luck)) == CopyTrace(dropped, luck)[1];
    }
  }

  /** A restore that fails leaves the staged file for the next start. The live database is then still
      whole exactly when no log of it was removed before the rename failed: none was reached, absent
      or folded in, or it could not be removed. */
  lemma FailedRestoreKeeps(fs: Files, luck: Luck)
    requires fs.main.Some? && fs.stage.Some? && fs.stage.value.Sound? && ApplyOutcome(fs, luck) == Failed
    ensures var end, folded := AfterApply(fs, luck), luck.opens && luck.checkpoints;
      && end.main.Some? && end.stage == fs.stage
      && (Full(end) == Full(fs) <==>
            || !(luck.mkdirOk && SnapshotSucceeds(fs, luck))
            || folded
            || ((luck.walGone ==> fs.wal.None?) && (luck.journalGone ==> fs.journal.None?)))
  {
    SnapshotKeeps(fs, luck);
    var t := SnapshotTrace(fs, luck);
    assert Last(fs, t) == t[|t| - 1] && Last(fs, t) in t;
    if luck.mkdirOk && SnapshotSucceeds(fs, luck) {
      var mid := Last(fs, t);
      LogsAfterSnapshot(fs, luck);
      SwapFails(mid, luck);
      hide SnapshotTrace, SwapTrace;
      assert AfterApply(fs, luck) == Last(mid, SwapTrace(mid, luck)) by { ApplySwaps(fs, luck); }
      LogsMatter(mid.main.value, mid.journal, mid.wal, luck.journalGone, luck.walGone);
    }
  }

  lemma ApplySwaps(fs: Files, luck: Luck)
    requires fs.main.Some? && fs.stage.Some? && fs.stage.value.Sound? && luck.mkdirOk && SnapshotSucceeds(fs, luck)
    ensures var mid := Last(fs, SnapshotTrace(fs, luck));
      mid.stage == fs.stage && AfterApply(fs, luck) == Last(mid, SwapTrace(mid, luck))
  {
    SnapshotKeeps(fs, luck);
    var t := SnapshotTrace(fs, luck);
    assert Last(fs, t) == t[|t| - 1];
  }

  /** A rename that fails after the WAL is gone: the program goes on with a database that lacks it. */
  lemma FailedRenameDropsWal() returns (fs: Files, luck: Luck)
    ensures fs.main.Some? && VacuumWorks(fs, luck) && ApplyOutcome(fs, luck) == Failed
    ensures AfterApply(fs, luck).main.Some? && Full(AfterApply(fs, luck)) != Full(fs)
  {
    fs := Files(Some(Base(0)), Some(1), None, true, Some(Sound(Base(2))), map[]);
    luck := Luck("pre-restore", true, true, true, false, true, true, true, true, false);
    FailedRestoreKeeps(fs, luck);
  }

  /** What an attempt leaves in the backup directory: the old database under the name of the day, whole if
      VACUUM worked or closing folded its logs in, half a file if the copy broke off, and nothing else. */
  lemma BackupLeft(fs: Files, luck: Luck)
    requires fs.main.Some? && fs.stage.Some? && fs.stage.value.Sound?
    ensures !luck.mkdirOk ==> AfterApply(fs, luck) == fs
    ensures luck.mkdirOk ==> AfterApply(fs, luck).backups == fs.backups[luck.name :=
      if VacuumWorks(fs, luck) || (luck.copyOk && luck.opens && luck.checkpoints) then Complete(Full(fs))
      else if luck.copyOk then Complete(fs.main.value) else Partial]
    ensures luck.mkdirOk && SnapshotSucceeds(fs, luck) && luck.shmGone ==> !AfterApply(fs, luck).shm
  {
    if luck.mkdirOk {
      SnapshotBackups(fs, luck);
      if SnapshotSucceeds(fs, luck) {
        ApplySwaps(fs, luck);
        SwapLeaves(Last(fs, SnapshotTrace(fs, luck)), luck);
      }
      hide SnapshotTrace, SwapTrace;
    }
  }

  lemma SwapLeaves(fs: Files, luck: Luck)
    requires fs.stage.Some? && fs.stage.value.Sound?
    ensures Last(fs, SwapTrace(fs, luck)).backups == fs.backups
    ensures luck.shmGone ==> !Last(fs, SwapTrace(fs, luck)).shm
  {
  }

  lemma SnapshotBackups(fs: Files, luck: Luck)
    requires fs.main.Some?
    ensures Last(fs, SnapshotTrace(fs, luck)).backups == fs.backups[luck.name :=
      if VacuumWorks(fs, luck) || (luck.copyOk && luck.opens && luck.checkpoints) then Complete(Full(fs))
      else if luck.copyOk then Complete(fs.main.value) else Partial]
  {
    if !VacuumWorks(fs, luck) && luck.opens {
      var dropped := FailedVacuumTrace(fs, luck)[2];
      var copied := CopyTrace(dropped, luck);
      assert Last(fs, SnapshotTrace(fs, luck)) == copied[|copied| - 1];
      assert dropped.backups == fs.backups - {luck.name};
    }
  }

  // ----- Whole histories of crashes and restarts -----

  /** One start of the program: a call of ApplyPending, cut short after some file operations. */
  datatype Boot = Boot(luck: Luck, crashAfter: nat)

  function Boots(fs: Files, boots: seq<Boot>): Files
    decreases |boots|
  {
    if boots == [] then fs
    else Boots(CrashedAt(fs, boots[0].luck, boots[0].crashAfter), boots[1..])
  }

  /** Every start finds a fresh stamp, a working VACUUM and removable sidecars. */
  ghost predicate Lucky(fs: Files, boots: seq<Boot>)
    decreases |boots|
  {
    boots != [] ==>
      && Good(fs, boots[0].luck)
      && Lucky(CrashedAt(fs, boots[0].luck, boots[0].crashAfter), boots[1..])
  }

  predicate Good(fs: Files, luck: Luck) {
    VacuumWorks(fs, luck) && luck.walGone && luck.journalGone
  }

  /** Either the old database is still in place, logs included, or a finished pre-restore file has
      all of it; and once the staged file is live, no old log lies beside it. */
  ghost predicate Safe(fs: Files, previous: Content, staged: Content) {
    && fs.main.Some?
    && ((fs.stage == Some(Sound(staged)) && Full(fs) == previous) || Saved(fs, previous))
    && (fs.stage == Some(Sound(staged)) || (fs.stage.None? && fs.main == Some(staged) && NoLogs(fs)))
  }

  lemma SavedAfterSwap(fs: Files, luck: Luck, f: Files)
    requires fs.stage.Some? && fs.stage.value.Sound? && fs.main.Some? && luck.walGone && luck.journalGone
    requires f in SwapTrace(fs, luck)
    ensures f.main.Some? && f.backups == fs.backups
    ensures f.stage == fs.stage || (f.stage.None? && f.main == Some(fs.stage.value.content) && NoLogs(f))
  {
  }

  /** Every state that one call passes through is safe. */
  lemma TraceSafe(fs: Files, luck: Luck, previous: Content, staged: Content, f: Files)
    requires Safe(fs, previous, staged) && Good(fs, luck) && f in ApplyTrace(fs, luck)
    ensures Safe(f, previous, staged)
  {
    hide SwapTrace, SnapshotTrace, Full;
    var t := SnapshotTrace(fs, luck);
    SnapshotKeeps(fs, luck);
    var mid := Last(fs, t);
    assert mid == t[|t| - 1] && mid in t;
    if f in t {
      KeptStaysSaved(fs, f, previous, luck);
    } else {
      assert f in SwapTrace(mid, luck);
      SavedAfterSwap(mid, luck, f);
      SnapshotCompletes(fs, luck);
      assert mid.backups[luck.name] == Complete(Full(fs));
      KeptStaysSaved(fs, mid, previous, luck);
      assert Saved(mid, previous);
    }
  }

  lemma KeptStaysSaved(fs: Files, f: Files, c: Content, luck: Luck)
    requires fs.main.Some? && luck.name !in fs.backups && Keeps(fs, f, luck.name)
    ensures Saved(fs, c) ==> Saved(f, c)
  {
    if Saved(fs, c) {
      var n :| n in fs.backups && fs.backups[n] == Complete(c);
      assert f.backups[n] == Complete(c);
    }
  }

  /** Crash safety: whatever file operation each start dies after, nothing of the old database is
      lost and its logs never lie beside the restored file. */
  lemma {:induction false} CrashSafe(fs: Files, boots: seq<Boot>, previous: Content, staged: Content)
    requires Safe(fs, previous, staged) && Lucky(fs, boots)
    ensures Safe(Boots(fs, boots), previous, staged)
    decreases |boots|
  {
    if boots != [] {
      var luck, k := boots[0].luck, boots[0].crashAfter;
      var t := ApplyTrace(fs, luck);
      var next := CrashedAt(fs, luck, k);
      if next != fs {
        assert next in t by { assert next == t[if k <= |t| then k - 1 else |t| - 1]; }
        TraceSafe(fs, luck, previous, staged, next);
      }
      CrashSafe(next, boots[1..], previous, staged);
    }
  }

  /** Convergence: from every state such a history can leave, one more start that runs to the end
      leaves the staged database live and alone, and every start after that changes nothing. */
  lemma Converges(fs: Files, boots: seq<Boot>, previous: Content, staged: Content, luck: Luck, again: Luck)
    requires Safe(fs, previous, staged) && Lucky(fs, boots)
    requires var crashed := Boots(fs, boots);
      Good(crashed, luck) && luck.mkdirOk && luck.renameOk
    ensures var end := AfterApply(Boots(fs, boots), luck);
      && end.main == Some(staged) && Full(end) == staged && NoLogs(end) && end.stage.None?
      && Saved(end, previous)
      && ApplyOutcome(end, again) == NothingPending && AfterApply(end, again) == end
  {
    hide SnapshotTrace, SwapTrace;
    CrashSafe(fs, boots, previous, staged);
    var crashed := Boots(fs, boots);
    if crashed.stage.Some? {
      RestoredStates(crashed, luck);
      var mid := Last(crashed, SnapshotTrace(crashed, luck));
      SwapEnds(mid, luck);
      SnapshotCompletes(crashed, luck);
      assert mid.backups[luck.name] == Complete(Full(crashed));
      KeptStaysSaved(crashed, mid, previous, luck);
      assert Saved(mid, previous);
      assert NoLogs(AfterApply(crashed, luck));
    }
  }

  /** An old log that could not be removed is applied to the restored file: its contents are then not
      the staged ones. */
  lemma LeftoverLogSpoils(fs: Files, luck: Luck)
    requires fs.main.Some? && ApplyOutcome(fs, luck) == Restored
    ensures var end := AfterApply(fs, luck);
      end.main == Some(fs.stage.value.content) && (Full(end) == fs.stage.value.content <==> NoLogs(end))
  {
    RestoredStates(fs, luck);
    var mid := Last(fs, SnapshotTrace(fs, luck));
    SwapEnds(mid, luck);
    hide SwapTrace, ApplyTrace, SnapshotTrace;
    FullIsMain(AfterApply(fs, luck));
  }

  lemma LeftoverWal() returns (fs: Files, luck: Luck)
    ensures fs.main.Some? && ApplyOutcome(fs, luck) == Restored && VacuumWorks(fs, luck) && !luck.walGone
    ensures var end := AfterApply(fs, luck); end.main == Some(fs.stage.value.content) && end.wal == fs.wal && fs.wal.Some?
    ensures Full(AfterApply(fs, luck)) != fs.stage.value.content
  {
    fs := Files(Some(Base(0)), Some(1), None, true, Some(Sound(Base(2))), map[]);
    luck := Luck("pre-restore", true, true, true, false, true, false, true, true, true);
    LeftoverLogSpoils(fs, luck);
    var mid := Last(fs, SnapshotTrace(fs, luck));
    RestoredStates(fs, luck);
    SwapEnds(mid, luck);
  }

  /** A failed VACUUM makes the fallback copy the main file alone: a committed change that was
      only in the WAL is then in no file at all. */
  lemma RawCopyLosesWal() returns (fs: Files, luck: Luck)
    ensures fs.main.Some? && fs.wal.Some? && ApplyOutcome(fs, luck) == Restored
    ensures !Saved(AfterApply(fs, luck), Full(fs)) && AfterApply(fs, luck).wal.None?
  {
    fs := Files(Some(Base(0)), Some(1), None, true, Some(Sound(Base(2))), map[]);
    luck := Luck("pre-restore", true, false, true, false, true, true, true, true, true);
    OldContentsSurvive(fs, luck);
  }
}
