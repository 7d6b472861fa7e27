/**
 Applying a staged panel restore at start-up (src/db/connection/sqlite.rs).

 `apply_pending_panel_restore` is a sequence of file operations, any of which can fail or be the
 last one before the process dies; `connect` runs it again at every start until it returns Ok.
 A run is any sequence of `Action`s: starts, single file operations, failures and crashes. A copy
 that breaks off leaves a part of its source. Files are described by whose bytes they hold.
 */
module PanelRestore {
  import opened Common

  datatype Image =
    | OldMain        // the database file as it was when the restore was staged
    | Snapshot       // the staged database
    | Live           // what a running server made of it
    | Earlier(id: nat)
  datatype Copy = Whole(image: Image) | Part(image: Image)

  datatype Sidecar = Stale | Fresh
  datatype Config = OldConfig | MixedConfig | StagedConfig
  datatype Marker =
    | Pending
    | Partial        // names the restore, but is no usable request otherwise
    | Malformed
    | Absent
  datatype Record = NoRecord | Failed | Applied

  datatype Disk = Disk(
    main: Option<Copy>, wal: Option<Sidecar>, shm: Option<Sidecar>,
    replacement: Option<Copy>,
    recovery: map<string, Copy>,
    config: Config, marker: Marker, record: Record)

  /** What does not change: is db.sqlite3 staged, is the URL a file, is a traefik directory staged. */
  datatype Setup = Setup(staged: bool, fileUrl: bool, configStaged: bool)

  datatype Phase =
    | Down | Started | Recovered | ReplacementReady | WalRemoved | SidecarsRemoved | Renamed | Configured
    | MarkerRemoved | Serving
    | Broken         // a copy broke off; only an error return or a crash can follow

  /**
   Whether the rename has happened, which recovery names held the old file when it did, which
   names were used later, and whether a server has run.
   */
  datatype History = History(swapped: bool, saved: set<string>, reused: set<string>, served: bool)

  datatype State = State(disk: Disk, phase: Phase, past: History)

  predicate Initial(s: State) {
    && s.phase == Down && s.past == History(false, {}, {}, false)
    && s.disk.marker != Absent && s.disk.record == NoRecord && s.disk.config == OldConfig
    && (s.disk.main.Some? ==> s.disk.main.value == Whole(OldMain))
    && (forall n :: n in s.disk.recovery ==> s.disk.recovery[n].image.Earlier?)
  }

  datatype Action =
    | Start
    | SaveOld(name: string, complete: bool)
    | CopyStaged(complete: bool)
    | RemoveWal
    | RemoveShm
    | Rename
    | CopyConfig(complete: bool)
    | RemoveMarker
    | RecordApplied
    | Fail(recorded: bool)   // the function returned Err; the failure may or may not get recorded
    | Crash
    | Serve                  // the server changes the database

  /** `persist_failed_restore` needs no more of the marker than the name of the restore. */
  predicate Named(m: Marker) {
    m == Pending || m == Partial
  }

  predicate Usable(d: Disk, u: Setup) {
    d.marker == Pending && u.staged && u.fileUrl
  }

  predicate Enabled(u: Setup, s: State, a: Action) {
    match a
    case Start => s.phase == Down
    case SaveOld(_, _) => s.phase == Started && Usable(s.disk, u)
    case CopyStaged(_) => s.phase == Recovered
    case RemoveWal => s.phase == ReplacementReady
    case RemoveShm => s.phase == WalRemoved
    case Rename => s.phase == SidecarsRemoved
    case CopyConfig(_) => s.phase == Renamed
    case RemoveMarker => s.phase == Configured
    case RecordApplied => s.phase == MarkerRemoved
    case Fail(recorded) => s.phase != Down && s.phase != Serving && (recorded ==> Named(s.disk.marker))
    case Crash => s.phase != Down
    case Serve => s.phase == Serving
  }

  /** What the operation does to the files. */
  function Effect(u: Setup, d: Disk, a: Action): Disk {
    match a
    case SaveOld(name, complete) =>
      if d.main.None? then d
      else d.(recovery := d.recovery[name := if complete then d.main.value else Part(d.main.value.image)])
    case CopyStaged(complete) => d.(replacement := Some(if complete then Whole(Snapshot) else Part(Snapshot)))
    case RemoveWal => d.(wal := None)
    case RemoveShm => d.(shm := None)
    case Rename => d.(main := d.replacement, replacement := None)
    case CopyConfig(complete) =>
      if !u.configStaged then d else d.(config := if complete then StagedConfig else MixedConfig)
    case RemoveMarker => d.(marker := Absent)
    case RecordApplied => d.(record := Applied)
    case Fail(recorded) => if recorded then d.(record := Failed) else d
    case Serve => d.(main := Some(Whole(Live)), wal := Some(Fresh), shm := Some(Fresh))
    case _ => d
  }

  function NextPhase(u: Setup, s: State, a: Action): Phase {
    match a
    case Start => if s.disk.marker == Absent then Serving else Started
    case SaveOld(_, complete) => if complete || s.disk.main.None? then Recovered else Broken
    case CopyStaged(complete) => if complete then ReplacementReady else Broken
    case RemoveWal => WalRemoved
    case RemoveShm => SidecarsRemoved
    case Rename => Renamed
    case CopyConfig(complete) => if complete || !u.configStaged then Configured else Broken
    case RemoveMarker => MarkerRemoved
    case RecordApplied => Serving
    case Fail(_) => Down
    case Crash => Down
    case Serve => Serving
  }

  function OldCopies(recovery: map<string, Copy>): set<string> {
    set n | n in recovery && recovery[n] == Whole(OldMain)
  }

  function NextPast(s: State, a: Action): History {
    match a
    case SaveOld(name, _) =>
      if s.past.swapped then s.past.(reused := s.past.reused + {name}) else s.past
    case Rename =>
      if s.past.swapped then s.past else s.past.(swapped := true, saved := OldCopies(s.disk.recovery))
    case Serve => s.past.(served := true)
    case _ => s.past
  }

  function Step(u: Setup, s: State, a: Action): State {
    if Enabled(u, s, a) then State(Effect(u, s.disk, a), NextPhase(u, s, a), NextPast(s, a)) else s
  }

  function After(u: Setup, init: State, run: seq<Action>): State {
    if run == [] then init else Step(u, After(u, init, run[..|run| - 1]), run[|run| - 1])
  }

  // ---------- what every step keeps ----------

  predicate Before(p: Phase) {
    p in {Recovered, ReplacementReady, WalRemoved, SidecarsRemoved}
  }

  /** The database file is the old one until the rename and the whole snapshot from then on. */
  predicate MainOk(s: State, init: State) {
    && (!s.past.swapped ==> s.disk.main == init.disk.main && !s.past.served && s.disk.marker == init.disk.marker)
    && (s.past.swapped && !s.past.served ==>
          s.disk.main == Some(Whole(Snapshot)) && s.disk.wal == None && s.disk.shm == None)
    && (s.past.served ==> s.disk.main == Some(Whole(Live)))
    && (s.disk.marker == init.disk.marker || s.disk.marker == Absent)
  }

  predicate MarkerOk(u: Setup, s: State) {
    && (s.past.served ==> s.disk.marker == Absent)
    && (s.disk.marker == Absent ==> s.past.swapped && (u.configStaged ==> s.disk.config == StagedConfig))
    && (s.disk.record == Applied ==> s.disk.marker == Absent)
  }

  predicate PhaseOk(u: Setup, s: State) {
    match s.phase
    case Down => true
    case Started => s.disk.marker != Absent
    case Recovered => Usable(s.disk, u)
    case ReplacementReady => Usable(s.disk, u) && s.disk.replacement == Some(Whole(Snapshot))
    case WalRemoved => Usable(s.disk, u) && s.disk.replacement == Some(Whole(Snapshot)) && s.disk.wal == None
    case SidecarsRemoved =>
      Usable(s.disk, u) && s.disk.replacement == Some(Whole(Snapshot)) && s.disk.wal == None && s.disk.shm == None
    case Renamed => Usable(s.disk, u) && s.past.swapped
    case Configured => Usable(s.disk, u) && s.past.swapped && (u.configStaged ==> s.disk.config == StagedConfig)
    case MarkerRemoved => s.disk.marker == Absent
    case Serving => s.disk.marker == Absent
    case Broken => Usable(s.disk, u)
  }

  /** Which recovery names hold the whole old file. */
  predicate RecoveryOk(s: State, init: State) {
    && (s.past.swapped ==> OldCopies(s.disk.recovery) == s.past.saved - s.past.reused)
    && (s.past.swapped && init.disk.main.Some? ==> s.past.saved != {})
    && (!s.past.swapped && init.disk.main.Some? && Before(s.phase) ==> OldCopies(s.disk.recovery) != {})
    && (!s.past.swapped ==> s.past.reused == {})
  }

  predicate Inv(u: Setup, s: State, init: State) {
    Initial(init) && MainOk(s, init) && MarkerOk(u, s) && PhaseOk(u, s) && RecoveryOk(s, init)
  }

  lemma StepKeepsMain(u: Setup, s: State, init: State, a: Action)
    requires MainOk(s, init) && MarkerOk(u, s) && PhaseOk(u, s)
    ensures MainOk(Step(u, s, a), init)
  {
  }

  lemma StepKeepsMarker(u: Setup, s: State, a: Action)
    requires MarkerOk(u, s) && PhaseOk(u, s)
    ensures MarkerOk(u, Step(u, s, a))
  {
  }

  lemma StepKeepsPhase(u: Setup, s: State, a: Action)
    requires PhaseOk(u, s)
    ensures PhaseOk(u, Step(u, s, a))
  {
  }

  lemma SavedNames(recovery: map<string, Copy>, name: string, copy: Copy)
    ensures OldCopies(recovery[name := copy]) ==
            if copy == Whole(OldMain) then OldCopies(recovery) + {name} else OldCopies(recovery) - {name}
  {
  }

  lemma StepKeepsRecovery(u: Setup, s: State, init: State, a: Action)
    requires Inv(u, s, init)
    ensures RecoveryOk(Step(u, s, a), init)
  {
    if a.SaveOld? && Enabled(u, s, a) && s.disk.main.Some? {
      SavedNames(s.disk.recovery, a.name, if a.complete then s.disk.main.value else Part(s.disk.main.value.image));
    }
  }

  lemma {:induction false} RunKeepsInv(u: Setup, init: State, run: seq<Action>)
    requires Initial(init)
    ensures Inv(u, After(u, init, run), init)
  {
    if run != [] {
      var s, a := After(u, init, run[..|run| - 1]), run[|run| - 1];
      RunKeepsInv(u, init, run[..|run| - 1]);
      StepKeepsMain(u, s, init, a);
      StepKeepsMarker(u, s, a);
      StepKeepsPhase(u, s, a);
      StepKeepsRecovery(u, s, init, a);
    }
  }

  // ---------- every run ----------

  /**
   However often the restore is interrupted and retried: until a server runs, the database path
   holds the untouched old file, or the whole snapshot with no sidecar beside it.
   */
  lemma OldFileOrWholeSnapshot(u: Setup, init: State, run: seq<Action>)
    requires Initial(init)
    ensures var s := After(u, init, run);
            || s.past.served
            || s.disk.main == init.disk.main
            || (s.disk.main == Some(Whole(Snapshot)) && s.disk.wal == None && s.disk.shm == None)
  {
    RunKeepsInv(u, init, run);
  }

  /** A server runs only after the marker is gone, and then the whole restore is in place. */
  lemma ServesOnlyTheSnapshot(u: Setup, init: State, run: seq<Action>)
    requires Initial(init)
    ensures var s := After(u, init, run);
            s.phase == Serving || s.disk.marker == Absent || s.disk.record == Applied ==>
              && s.disk.marker == Absent
              && (s.disk.main == Some(Whole(Snapshot)) || s.past.served)
              && (u.configStaged ==> s.disk.config == StagedConfig)
  {
    RunKeepsInv(u, init, run);
  }

  /**
   After the rename the old file is in a recovery copy exactly when one of the names it was
   saved under was not used again.
   */
  lemma OldFileSurvivesExactly(u: Setup, init: State, run: seq<Action>)
    requires Initial(init) && init.disk.main.Some? && After(u, init, run).past.swapped
    ensures var s := After(u, init, run);
            && s.past.saved != {}
            && ((exists n :: n in s.disk.recovery && s.disk.recovery[n] == Whole(OldMain)) <==>
                !(s.past.saved <= s.past.reused))
  {
    RunKeepsInv(u, init, run);
    var s := After(u, init, run);
    if n :| n in s.disk.recovery && s.disk.recovery[n] == Whole(OldMain) {
      assert n in OldCopies(s.disk.recovery);
    }
    if !(s.past.saved <= s.past.reused) {
      var n :| n in s.past.saved && n !in s.past.reused;
      assert n in OldCopies(s.disk.recovery);
    }
  }

  predicate Saves(u: Setup, s: State, a: Action) {
    a.SaveOld? && Enabled(u, s, a)
  }

  function Names(u: Setup, init: State, run: seq<Action>): set<string> {
    if run == [] then {}
    else
      var a := run[|run| - 1];
      Names(u, init, run[..|run| - 1])
      + if Saves(u, After(u, init, run[..|run| - 1]), a) then {a.name} else {}
  }

  /** No two attempts of the run name their recovery copy alike. */
  predicate DistinctNames(u: Setup, init: State, run: seq<Action>) {
    run == [] ||
    (var a := run[|run| - 1];
     && DistinctNames(u, init, run[..|run| - 1])
     && (Saves(u, After(u, init, run[..|run| - 1]), a) ==> a.name !in Names(u, init, run[..|run| - 1])))
  }

  predicate NamesOk(s: State, names: set<string>) {
    OldCopies(s.disk.recovery) <= names && s.past.saved <= names && s.past.saved !! s.past.reused
  }

  lemma StepKeepsNames(u: Setup, s: State, init: State, a: Action, names: set<string>)
    requires Inv(u, s, init) && NamesOk(s, names) && (Saves(u, s, a) ==> a.name !in names)
    ensures NamesOk(Step(u, s, a), names + if Saves(u, s, a) then {a.name} else {})
  {
    if Saves(u, s, a) && s.disk.main.Some? {
      SavedNames(s.disk.recovery, a.name, if a.complete then s.disk.main.value else Part(s.disk.main.value.image));
    }
  }

  lemma {:induction false} NamesAccountedFor(u: Setup, init: State, run: seq<Action>)
    requires Initial(init) && DistinctNames(u, init, run)
    ensures NamesOk(After(u, init, run), Names(u, init, run))
  {
    if run == [] {
      assert OldCopies(init.disk.recovery) == {};
    } else {
      var before := run[..|run| - 1];
      NamesAccountedFor(u, init, before);
      RunKeepsInv(u, init, before);
      StepKeepsNames(u, After(u, init, before), init, run[|run| - 1], Names(u, init, before));
    }
  }

  /** With distinct recovery names the old file is never lost. */
  lemma DistinctNamesKeepOldFile(u: Setup, init: State, run: seq<Action>)
    requires Initial(init) && init.disk.main.Some? && DistinctNames(u, init, run)
    ensures var s := After(u, init, run);
            || (!s.past.swapped && s.disk.main == Some(Whole(OldMain)))
            || exists n :: n in s.disk.recovery && s.disk.recovery[n] == Whole(OldMain)
  {
    RunKeepsInv(u, init, run);
    if After(u, init, run).past.swapped {
      OldFileSurvivesExactly(u, init, run);
      NamesAccountedFor(u, init, run);
    }
  }

  /** The process stops between the removal of the marker and the writing of APPLIED. */
  predicate Cuts(s: State, a: Action) {
    s.phase == MarkerRemoved && (a == Crash || a == Fail(false))
  }

  predicate CutBeforeRecord(u: Setup, init: State, run: seq<Action>) {
    run != [] &&
    (CutBeforeRecord(u, init, run[..|run| - 1]) || Cuts(After(u, init, run[..|run| - 1]), run[|run| - 1]))
  }

  predicate RecordOk(s: State, cut: bool) {
    if s.disk.marker != Absent || s.phase == MarkerRemoved then !cut && s.disk.record != Applied
    else s.disk.record == Applied <==> !cut
  }

  lemma StepKeepsRecord(u: Setup, s: State, a: Action, cut: bool)
    requires PhaseOk(u, s) && RecordOk(s, cut)
    ensures RecordOk(Step(u, s, a), cut || Cuts(s, a))
  {
  }

  lemma {:induction false} RecordFollowsCut(u: Setup, init: State, run: seq<Action>)
    requires Initial(init)
    ensures RecordOk(After(u, init, run), CutBeforeRecord(u, init, run))
  {
    if run != [] {
      var before := run[..|run| - 1];
      RecordFollowsCut(u, init, before);
      RunKeepsInv(u, init, before);
      StepKeepsRecord(u, After(u, init, before), run[|run| - 1], CutBeforeRecord(u, init, before));
    }
  }

  /** A serving panel has its restore recorded as APPLIED exactly when no such stop occurred. */
  lemma AppliedIsRecordedExactly(u: Setup, init: State, run: seq<Action>)
    requires Initial(init) && After(u, init, run).phase == Serving
    ensures After(u, init, run).disk.record == Applied <==> !CutBeforeRecord(u, init, run)
  {
    RecordFollowsCut(u, init, run);
    RunKeepsInv(u, init, run);
  }

  lemma Extend(u: Setup, init: State, run: seq<Action>, a: Action)
    ensures After(u, init, run + [a]) == Step(u, After(u, init, run), a)
  {
    assert (run + [a])[..|run|] == run;
  }

  lemma FailThenRestore(u: Setup, init: State) returns (run: seq<Action>)
    requires Initial(init) && Usable(init.disk, u)
    ensures var s := After(u, init, run);
            s.phase == SidecarsRemoved && s.disk.record == Failed && Usable(s.disk, u)
  {
    run := [];
    Extend(u, init, run, Start);
    run := run + [Start];
    Extend(u, init, run, Fail(true));
    run := run + [Fail(true)];
    Extend(u, init, run, Start);
    run := run + [Start];
    Extend(u, init, run, SaveOld("r", true));
    run := run + [SaveOld("r", true)];
    Extend(u, init, run, CopyStaged(true));
    run := run + [CopyStaged(true)];
    Extend(u, init, run, RemoveWal);
    run := run + [RemoveWal];
    Extend(u, init, run, RemoveShm);
    run := run + [RemoveShm];
  }

  /** After an earlier failure such a stop leaves an applied restore recorded as FAILED for good. */
  lemma FailedCanBeStale(u: Setup, init: State) returns (run: seq<Action>)
    requires Initial(init) && Usable(init.disk, u)
    ensures var s := After(u, init, run);
            s.phase == Serving && s.disk.main == Some(Whole(Snapshot)) && s.disk.record == Failed
  {
    run := FailThenRestore(u, init);
    RunKeepsInv(u, init, run);
    Extend(u, init, run, Rename);
    run := run + [Rename];
    Extend(u, init, run, CopyConfig(true));
    run := run + [CopyConfig(true)];
    Extend(u, init, run, RemoveMarker);
    run := run + [RemoveMarker];
    Extend(u, init, run, Crash);
    run := run + [Crash];
    Extend(u, init, run, Start);
    run := run + [Start];
  }

  predicate Untouched(s: State, init: State) {
    (s.phase == Down || s.phase == Started) && s.disk == init.disk.(record := s.disk.record)
  }

  lemma StepKeepsUntouched(u: Setup, s: State, init: State, a: Action)
    requires Untouched(s, init) && init.disk.marker != Absent && !Usable(init.disk, u)
    ensures Untouched(Step(u, s, a), init)
  {
  }

  /** A marker that cannot be used keeps the panel down and leaves every file of it alone. */
  lemma {:induction false} UnusableMarkerTouchesNothing(u: Setup, init: State, run: seq<Action>)
    requires Initial(init) && !Usable(init.disk, u)
    ensures Untouched(After(u, init, run), init)
  {
    if run != [] {
      UnusableMarkerTouchesNothing(u, init, run[..|run| - 1]);
      StepKeepsUntouched(u, After(u, init, run[..|run| - 1]), init, run[|run| - 1]);
    }
  }

  lemma {:induction false} UnnamedIsNotRecorded(u: Setup, init: State, run: seq<Action>)
    requires Initial(init) && !Named(init.disk.marker)
    ensures After(u, init, run).disk.record == NoRecord
  {
    if run != [] {
      UnnamedIsNotRecorded(u, init, run[..|run| - 1]);
      UnusableMarkerTouchesNothing(u, init, run[..|run| - 1]);
    }
  }

  /** A restore that cannot be used can be recorded as FAILED exactly when its marker names it. */
  lemma UnusableIsRecordedExactly(u: Setup, init: State)
    requires Initial(init) && !Usable(init.disk, u)
    ensures (exists run :: After(u, init, run).disk.record == Failed) <==> Named(init.disk.marker)
  {
    if Named(init.disk.marker) {
      Extend(u, init, [], Start);
      Extend(u, init, [] + [Start], Fail(true));
      assert After(u, init, [] + [Start] + [Fail(true)]).disk.record == Failed;
    } else {
      forall run ensures After(u, init, run).disk.record != Failed {
        UnnamedIsNotRecorded(u, init, run);
      }
    }
  }

  /** The old -wal file has been removed. */
  predicate WalWasRemoved(u: Setup, init: State, run: seq<Action>) {
    run != [] &&
    (WalWasRemoved(u, init, run[..|run| - 1])
     || (run[|run| - 1] == RemoveWal && Enabled(u, After(u, init, run[..|run| - 1]), RemoveWal)))
  }

  predicate WalOk(s: State, init: State, removed: bool) {
    && (s.past.swapped || s.phase == WalRemoved || s.phase == SidecarsRemoved ==> removed)
    && (!s.past.swapped ==> s.disk.wal == if removed then None else init.disk.wal)
  }

  lemma StepKeepsWal(u: Setup, s: State, init: State, a: Action, removed: bool)
    requires MainOk(s, init) && MarkerOk(u, s) && PhaseOk(u, s) && WalOk(s, init, removed)
    ensures WalOk(Step(u, s, a), init, removed || (a == RemoveWal && Enabled(u, s, a)))
  {
  }

  lemma {:induction false} WalFollows(u: Setup, init: State, run: seq<Action>)
    requires Initial(init)
    ensures WalOk(After(u, init, run), init, WalWasRemoved(u, init, run))
  {
    if run != [] {
      var before := run[..|run| - 1];
      WalFollows(u, init, before);
      RunKeepsInv(u, init, before);
      StepKeepsWal(u, After(u, init, before), init, run[|run| - 1], WalWasRemoved(u, init, before));
    }
  }

  /**
   The old database can still be had: its main and -wal files are in place, or it had no -wal
   and a recovery copy holds all of its main file. A recovery copy never includes a -wal.
   */
  ghost predicate Recoverable(s: State, init: State) {
    || (s.disk.main == init.disk.main && s.disk.wal == init.disk.wal)
    || (init.disk.wal == None && exists n :: n in s.disk.recovery && s.disk.recovery[n] == Whole(OldMain))
  }

  /**
   At every moment the old database can still be had exactly when, before the rename, it had no
   -wal or that was not removed yet; and after it, it had no -wal and one of the names the main
   file was saved under was not used again.
   */
  lemma RecoverableExactly(u: Setup, init: State, run: seq<Action>)
    requires Initial(init) && init.disk.main.Some?
    ensures var s := After(u, init, run);
            Recoverable(s, init) <==>
              if s.past.swapped then init.disk.wal == None && !(s.past.saved <= s.past.reused)
              else init.disk.wal == None || !WalWasRemoved(u, init, run)
  {
    RunKeepsInv(u, init, run);
    WalFollows(u, init, run);
    if After(u, init, run).past.swapped {
      OldFileSurvivesExactly(u, init, run);
    }
  }

  /**
   With distinct recovery names the old database can be had exactly as long as it had no -wal or
   no attempt got as far as removing it, renamed or not.
   */
  lemma OldWalLostExactly(u: Setup, init: State, run: seq<Action>)
    requires Initial(init) && init.disk.main.Some? && DistinctNames(u, init, run)
    ensures Recoverable(After(u, init, run), init) <==>
            init.disk.wal == None || !WalWasRemoved(u, init, run)
  {
    RecoverableExactly(u, init, run);
    WalFollows(u, init, run);
    if After(u, init, run).past.swapped {
      NamesAccountedFor(u, init, run);
      RunKeepsInv(u, init, run);
    }
  }

  lemma ExtendNames(u: Setup, init: State, run: seq<Action>, a: Action)
    ensures Names(u, init, run + [a]) ==
            Names(u, init, run) + if Saves(u, After(u, init, run), a) then {a.name} else {}
    ensures DistinctNames(u, init, run + [a]) <==>
            DistinctNames(u, init, run) && (Saves(u, After(u, init, run), a) ==> a.name !in Names(u, init, run))
  {
    assert (run + [a])[..|run|] == run;
  }

  lemma SavedOnce(u: Setup, init: State, name: string) returns (run: seq<Action>)
    requires Initial(init) && Usable(init.disk, u) && init.disk.main.Some?
    ensures var s := After(u, init, run);
            s.phase == Recovered && s.disk.recovery == init.disk.recovery[name := Whole(OldMain)]
    ensures DistinctNames(u, init, run) && !After(u, init, run).past.swapped
  {
    run := [];
    Extend(u, init, run, Start);
    ExtendNames(u, init, run, Start);
    run := run + [Start];
    Extend(u, init, run, SaveOld(name, true));
    ExtendNames(u, init, run, SaveOld(name, true));
    run := run + [SaveOld(name, true)];
  }

  lemma RenamedOnce(u: Setup, init: State, before: seq<Action>) returns (run: seq<Action>)
    requires Initial(init) && After(u, init, before).phase == Recovered
    ensures var s := After(u, init, run);
            before <= run && s.phase == Renamed && s.disk.recovery == After(u, init, before).disk.recovery
  {
    run := before;
    Extend(u, init, run, CopyStaged(true));
    run := run + [CopyStaged(true)];
    Extend(u, init, run, RemoveWal);
    run := run + [RemoveWal];
    Extend(u, init, run, RemoveShm);
    run := run + [RemoveShm];
    Extend(u, init, run, Rename);
    run := run + [Rename];
  }

  /** Two attempts under one recovery name, the first cut after the rename, lose the old file. */
  lemma OldFileCanBeLost(u: Setup, init: State, name: string) returns (run: seq<Action>)
    requires Initial(init) && Usable(init.disk, u) && init.disk.main.Some?
    ensures var s := After(u, init, run);
            && s.past.swapped && s.disk.main == Some(Whole(Snapshot))
            && forall n :: n in s.disk.recovery ==> s.disk.recovery[n] != Whole(OldMain)
  {
    run := SavedOnce(u, init, name);
    run := RenamedOnce(u, init, run);
    RunKeepsInv(u, init, run);
    Extend(u, init, run, Crash);
    run := run + [Crash];
    Extend(u, init, run, Start);
    run := run + [Start];
    Extend(u, init, run, SaveOld(name, true));
    run := run + [SaveOld(name, true)];
  }

  /** One attempt that is cut after the removal of the -wal leaves the old database incomplete. */
  lemma OldWalCanBeLost(u: Setup, init: State, name: string) returns (run: seq<Action>)
    requires Initial(init) && Usable(init.disk, u) && init.disk.main.Some? && init.disk.wal.Some?
    ensures DistinctNames(u, init, run) && !After(u, init, run).past.swapped
    ensures !Recoverable(After(u, init, run), init)
  {
    run := SavedOnce(u, init, name);
    Extend(u, init, run, CopyStaged(true));
    ExtendNames(u, init, run, CopyStaged(true));
    run := run + [CopyStaged(true)];
    Extend(u, init, run, RemoveWal);
    ExtendNames(u, init, run, RemoveWal);
    run := run + [RemoveWal];
    Extend(u, init, run, Crash);
    ExtendNames(u, init, run, Crash);
    run := run + [Crash];
  }

  // ---------- a restore can always be completed ----------

  lemma Restarted(u: Setup, init: State, before: seq<Action>) returns (run: seq<Action>)
    ensures var s, s' := After(u, init, before), After(u, init, run);
            before <= run && s'.disk == s.disk && s'.phase == if s.disk.marker == Absent then Serving else Started
  {
    run := before;
    if After(u, init, run).phase != Down {
      Extend(u, init, run, Crash);
      run := run + [Crash];
    }
    Extend(u, init, run, Start);
    run := run + [Start];
  }

  lemma Finished(u: Setup, init: State, before: seq<Action>) returns (run: seq<Action>)
    requires After(u, init, before).phase == Renamed
    ensures before <= run && After(u, init, run).phase == Serving
  {
    run := before;
    Extend(u, init, run, CopyConfig(true));
    run := run + [CopyConfig(true)];
    Extend(u, init, run, RemoveMarker);
    run := run + [RemoveMarker];
    Extend(u, init, run, RecordApplied);
    run := run + [RecordApplied];
  }

  /**
   However a usable restore was interrupted, one more start without mishap completes it, under
   any recovery name.
   */
  lemma CanBeCompleted(u: Setup, init: State, before: seq<Action>, name: string)
    returns (run: seq<Action>)
    requires Initial(init) && Usable(init.disk, u)
    ensures before <= run && After(u, init, run).phase == Serving
  {
    RunKeepsInv(u, init, before);
    run := Restarted(u, init, before);
    if After(u, init, before).disk.marker != Absent {
      Extend(u, init, run, SaveOld(name, true));
      run := run + [SaveOld(name, true)];
      run := RenamedOnce(u, init, run);
      run := Finished(u, init, run);
    }
  }

  // ---------- the operation as code ----------

  /** The old file is saved, or there is none. */
  predicate Saved(main: Option<Copy>, copied: bool) {
    copied || main.None?
  }

  /** The recovery copies with one of the present file under `name`; a copy that breaks off is a part. */
  function Kept(recovery: map<string, Copy>, main: Option<Copy>, name: string, copied: bool): map<string, Copy> {
    match main
    case None => recovery
    case Some(file) => recovery[name := if copied then file else Part(file.image)]
  }

  function Copied(u: Setup, config: Config, complete: bool): Config {
    if !u.configStaged then config else if complete then StagedConfig else MixedConfig
  }

  /** A usable restore whose operations all succeed: four to swap the database, three to finish. */
  predicate Completes(u: Setup, d: Disk, copied: bool, swapSteps: nat, finishSteps: nat) {
    Usable(d, u) && Saved(d.main, copied) && swapSteps >= 4 && finishSteps >= 3
  }

  /** The files of the panel. `run` is the history that led here from `init`. */
  class Panel {
    var main: Option<Copy>
    var wal: Option<Sidecar>
    var shm: Option<Sidecar>
    var replacement: Option<Copy>
    var recovery: map<string, Copy>
    var config: Config
    var marker: Marker
    var record: Record
    const setup: Setup
    ghost const init: State
    ghost var run: seq<Action>
    ghost var state: State

    ghost function Files(): Disk
      reads this
    {
      Disk(main, wal, shm, replacement, recovery, config, marker, record)
    }

    ghost predicate Valid()
      reads this
    {
      Initial(init) && state == After(setup, init, run) && Files() == state.disk
    }

    constructor (setup: Setup, s: State)
      requires Initial(s)
      ensures Valid() && this.setup == setup && init == s && run == []
    {
      main, wal, shm, replacement := s.disk.main, s.disk.wal, s.disk.shm, s.disk.replacement;
      recovery, config, marker, record := s.disk.recovery, s.disk.config, s.disk.marker, s.disk.record;
      this.setup, init, run, state := setup, s, [], s;
    }

    ghost method Note(a: Action)
      requires state == After(setup, init, run)
      modifies this`run, this`state
      ensures run == old(run) + [a] && state == Step(setup, old(state), a) && state == After(setup, init, run)
    {
      Extend(setup, init, run, a);
      run, state := run + [a], Step(setup, state, a);
    }

    /** The function returned Err; `persist_failed_restore` records it while the marker names the restore. */
    method GiveUp()
      requires Valid() && state.phase != Down && state.phase != Serving
      modifies this`record, this`run, this`state
      ensures Valid() && state.phase == Down && old(run) <= run
      ensures record == if Named(marker) then Failed else old(record)
    {
      Note(Fail(Named(marker)));
      if Named(marker) {
        record := Failed;
      }
    }

    /** Saves the present database file under `name`, if there is one. */
    method SaveOldFile(name: string, complete: bool) returns (ok: bool)
      requires Valid() && state.phase == Started && Usable(Files(), setup)
      modifies this`recovery, this`run, this`state
      ensures Valid() && old(run) <= run
      ensures state.phase == if ok then Recovered else Broken
      ensures ok == Saved(main, complete) && recovery == Kept(old(recovery), main, name, complete)
    {
      Note(SaveOld(name, complete));
      ok := true;
      if main.Some? {
        recovery := recovery[name := if complete then main.value else Part(main.value.image)];
        ok := complete;
      }
    }

    method CopyReplacement(complete: bool)
      requires Valid() && state.phase == Recovered
      modifies this`replacement, this`run, this`state
      ensures Valid() && run == old(run) + [CopyStaged(complete)]
      ensures state.phase == if complete then ReplacementReady else Broken
      ensures replacement == Some(if complete then Whole(Snapshot) else Part(Snapshot))
    {
      Note(CopyStaged(complete));
      replacement := Some(if complete then Whole(Snapshot) else Part(Snapshot));
    }

    method RemoveWalFile()
      requires Valid() && state.phase == ReplacementReady
      modifies this`wal, this`run, this`state
      ensures Valid() && run == old(run) + [RemoveWal] && state.phase == WalRemoved && wal == None
    {
      Note(RemoveWal);
      wal := None;
    }

    method RemoveShmFile()
      requires Valid() && state.phase == WalRemoved
      modifies this`shm, this`run, this`state
      ensures Valid() && run == old(run) + [RemoveShm] && state.phase == SidecarsRemoved && shm == None
    {
      Note(RemoveShm);
      shm := None;
    }

    /** The loop over the suffixes; it can stop after the first. */
    method RemoveSidecars(both: bool)
      requires Valid() && state.phase == ReplacementReady
      modifies this`wal, this`shm, this`run, this`state
      ensures Valid() && old(run) <= run && state.phase == if both then SidecarsRemoved else WalRemoved
      ensures wal == None && shm == if both then None else old(shm)
    {
      RemoveWalFile();
      if both {
        RemoveShmFile();
      }
    }

    method RenameReplacement()
      requires Valid() && state.phase == SidecarsRemoved
      modifies this`main, this`replacement, this`run, this`state
      ensures Valid() && run == old(run) + [Rename] && state.phase == Renamed
      ensures main == old(replacement) && replacement == None
    {
      Note(Rename);
      main, replacement := replacement, None;
    }

    method CopyTraefik(complete: bool)
      requires Valid() && state.phase == Renamed
      modifies this`config, this`run, this`state
      ensures Valid() && run == old(run) + [CopyConfig(complete)]
      ensures state.phase == if complete || !setup.configStaged then Configured else Broken
      ensures config == Copied(setup, old(config), complete)
    {
      Note(CopyConfig(complete));
      if setup.configStaged {
        config := if complete then StagedConfig else MixedConfig;
      }
    }

    method RemoveMarkerFile()
      requires Valid() && state.phase == Configured
      modifies this`marker, this`run, this`state
      ensures Valid() && run == old(run) + [RemoveMarker] && state.phase == MarkerRemoved && marker == Absent
    {
      Note(RemoveMarker);
      marker := Absent;
    }

    method WriteHistory()
      requires Valid() && state.phase == MarkerRemoved
      modifies this`record, this`run, this`state
      ensures Valid() && run == old(run) + [RecordApplied] && state.phase == Serving && record == Applied
    {
      Note(RecordApplied);
      record := Applied;
    }

    /** Puts the staged database in place. `steps` is how many of the file operations succeed. */
    method SwapDatabase(steps: nat) returns (ok: bool)
      requires Valid() && state.phase == Recovered
      modifies this`replacement, this`wal, this`shm, this`main, this`run, this`state
      ensures Valid() && old(run) <= run && ok == (steps >= 4)
      ensures if ok then state.phase == Renamed else state.phase != Down && state.phase != Serving
      ensures main == if steps >= 4 then Some(Whole(Snapshot)) else old(main)
      ensures wal == (if steps >= 2 then None else old(wal)) && shm == if steps >= 3 then None else old(shm)
    {
      CopyReplacement(steps > 0);
      if steps <= 1 {
        return false;
      }
      RemoveSidecars(steps >= 3);
      if steps <= 3 {
        return false;
      }
      RenameReplacement();
      return true;
    }

    /** Copies the staged Traefik configuration, removes the marker and records the result. */
    method FinishRestore(steps: nat) returns (ok: bool)
      requires Valid() && state.phase == Renamed
      modifies this`config, this`marker, this`record, this`run, this`state
      ensures Valid() && old(run) <= run && ok == (steps >= 3)
      ensures if ok then state.phase == Serving else state.phase != Down && state.phase != Serving
      ensures config == Copied(setup, old(config), steps > 0)
      ensures marker == if steps >= 2 then Absent else old(marker)
      ensures record == if steps >= 3 then Applied else old(record)
    {
      CopyTraefik(steps > 0);
      if steps <= 1 {
        return false;
      }
      RemoveMarkerFile();
      if steps == 2 {
        return false;
      }
      WriteHistory();
      return true;
    }

    /** A usable restore: saves the old file, swaps the database and finishes, or gives up. */
    method Restore(name: string, copied: bool, swapSteps: nat, finishSteps: nat) returns (ok: bool)
      requires Valid() && state.phase == Started && Usable(Files(), setup)
      modifies this
      ensures Valid() && old(run) <= run
      ensures state.phase == if ok then Serving else Down
      ensures ok == Completes(setup, old(Files()), copied, swapSteps, finishSteps)
      ensures var saved := Saved(old(main), copied);
              var swapped := saved && swapSteps >= 4;
              && recovery == Kept(old(recovery), old(main), name, copied)
              && main == (if swapped then Some(Whole(Snapshot)) else old(main))
              && wal == (if saved && swapSteps >= 2 then None else old(wal))
              && shm == (if saved && swapSteps >= 3 then None else old(shm))
              && config == (if swapped then Copied(setup, old(config), finishSteps > 0) else old(config))
              && marker == (if swapped && finishSteps >= 2 then Absent else Pending)
              && record == if ok then Applied else if marker == Pending then Failed else old(record)
    {
      ok := SaveOldFile(name, copied);
      if ok {
        ok := SwapDatabase(swapSteps);
      }
      if ok {
        ok := FinishRestore(finishSteps);
      }
      if !ok {
        GiveUp();
      }
    }

    /**
     One start of the panel; the arguments say how far the file operations get. It returns
     whether the database may be opened: there is no restore pending, or it is usable and every
     operation succeeds. The old file is saved before the snapshot replaces it, both go as far as
     the operations do, and a restore that is not completed is recorded as such while the marker
     still names it.
     */
    method ApplyPendingRestore(name: string, copied: bool, swapSteps: nat, finishSteps: nat) returns (ok: bool)
      requires Valid() && state.phase == Down
      modifies this
      ensures Valid() && old(run) <= run
      ensures state.phase == if ok then Serving else Down
      ensures ok <==> old(marker) == Absent || Completes(setup, old(Files()), copied, swapSteps, finishSteps)
      ensures !Usable(old(Files()), setup) ==>
                Files() == old(Files()).(record := if Named(old(marker)) then Failed else old(record))
      ensures Usable(old(Files()), setup) ==>
                var saved := Saved(old(main), copied);
                var swapped := saved && swapSteps >= 4;
                && recovery == Kept(old(recovery), old(main), name, copied)
                && main == (if swapped then Some(Whole(Snapshot)) else old(main))
                && wal == (if saved && swapSteps >= 2 then None else old(wal))
                && shm == (if saved && swapSteps >= 3 then None else old(shm))
                && config == (if swapped then Copied(setup, old(config), finishSteps > 0) else old(config))
                && marker == (if swapped && finishSteps >= 2 then Absent else Pending)
                && record == if ok then Applied else if marker == Pending then Failed else old(record)
    {
      Note(Start);
      if marker == Absent {
        return true;
      }
      if marker != Pending || !setup.staged || !setup.fileUrl {
        GiveUp();
        return false;
      }
      ok := Restore(name, copied, swapSteps, finishSteps);
    }

    /** `connect`: the server may only open a database whose restore is complete. */
    method Connect(name: string, copied: bool, swapSteps: nat, finishSteps: nat) returns (isOpen: bool)
      requires Valid() && state.phase == Down
      modifies this
      ensures Valid() && old(run) <= run
      ensures isOpen <==> old(marker) == Absent || Completes(setup, old(Files()), copied, swapSteps, finishSteps)
      ensures isOpen ==>
                && marker == Absent && (main == Some(Whole(Snapshot)) || state.past.served)
                && (setup.configStaged ==> config == StagedConfig)
      ensures !isOpen && !state.past.served ==>
                main == init.disk.main || (main == Some(Whole(Snapshot)) && wal == None && shm == None)
    {
      isOpen := ApplyPendingRestore(name, copied, swapSteps, finishSteps);
      ServesOnlyTheSnapshot(setup, init, run);
      OldFileOrWholeSnapshot(setup, init, run);
    }
  }
}
