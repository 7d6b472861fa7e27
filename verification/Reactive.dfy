/**
 Change capture from SQLite hooks (src/db/reactive.rs).

 Connections, request scopes and background publishers interleave freely; a run is any sequence
 of `Action`s. `State` holds what the source keeps (the per-connection `pending` vector, the
 per-request buffer, the spawned publishers, the sets sent on the bus) next to the facts about
 SQLite it depends on: the single write lock, the row changes of the open transaction, the log of
 committed transactions, which of them readers can see, and what became of every row change. The
 database's facts do not depend on what the hooks recorded; that the two agree is proved. Every
 row change carries the number of its write, so that equal changes stay distinguishable.
 */
module Reactive {
  import opened Common

  datatype Operation = Insert | Update | Delete | Unknown

  datatype Change = Change(serial: nat, table: string, oldRow: Option<int>, newRow: Option<int>, operation: Operation)

  /** A transaction that writes owns the lock; it still owns it while its commit hook runs. */
  datatype Lock = Free | Writing(conn: nat) | Committing(conn: nat, txn: Option<nat>, scope: Option<nat>)

  datatype Publisher = Publisher(changes: seq<Change>, synced: bool)

  /** What became of a row change. */
  datatype Fate = InFlight(conn: nat) | RolledBack | Committed(txn: nat)

  /** Where the changes of a committed transaction are, and from which index on. */
  datatype Holder = Request(request: nat) | Task(task: nat) | Bus(index: nat) | Abandoned
  datatype Place = Place(holder: Holder, at: nat)

  datatype State = State(
    pending: map<nat, seq<Change>>,
    requests: map<nat, seq<Change>>,
    publishers: map<nat, Publisher>,
    bus: seq<seq<Change>>,
    assured: seq<bool>,        // for each set on the bus: sent by a request, or after BEGIN IMMEDIATE succeeded
    lock: Lock,
    open: seq<Change>,         // the row changes of the transaction that owns the lock
    log: seq<seq<Change>>,     // the row changes of each committed transaction
    visible: set<nat>,         // the transactions readers can see
    fate: seq<Fate>,           // by serial
    place: seq<Place>          // by transaction
  )

  const INIT := State(map[], map[], map[], [], [], Free, [], [], {}, [], [])

  datatype Action =
    | Begin(conn: nat)
    | Write(conn: nat, table: string, oldRow: Option<int>, newRow: Option<int>, operation: Operation)
    | CommitHook(conn: nat, scope: Option<nat>)
    | CommitDone
    | Rollback(conn: nat)
    | OpenScope(request: nat)
    | CloseScope(request: nat)   // the handler's future completed
    | DropScope(request: nat)    // the handler's future was dropped before it completed
    | Sync(task: nat)            // BEGIN IMMEDIATE succeeded
    | Publish(task: nat)

  // ---------- steps ----------

  function Pending(s: State, conn: nat): seq<Change> {
    if conn in s.pending then s.pending[conn] else []
  }

  predicate Enabled(s: State, a: Action) {
    match a
    case Begin(c) => s.lock == Free
    case Write(c, _, _, _, _) => s.lock == Writing(c)
    case CommitHook(c, scope) => s.lock == Writing(c) && (scope.Some? ==> scope.value in s.requests)
    case CommitDone => s.lock.Committing?
    case Rollback(c) => s.lock == Writing(c)
    case OpenScope(r) => r !in s.requests
    case CloseScope(r) => r in s.requests && !(s.lock.Committing? && s.lock.scope == Some(r))
    case DropScope(r) => r in s.requests
    case Sync(k) => k in s.publishers && s.lock == Free
    case Publish(k) => k in s.publishers
  }

  /** Everything the connection has written and not settled gets the fate of its transaction. */
  function Settled(fate: seq<Fate>, conn: nat, f: Fate): (settled: seq<Fate>)
    ensures |settled| == |fate|
    ensures forall i :: 0 <= i < |fate| ==> settled[i] == if fate[i] == InFlight(conn) then f else fate[i]
  {
    seq(|fate|, i requires 0 <= i < |fate| => if fate[i] == InFlight(conn) then f else fate[i])
  }

  function Moved(place: seq<Place>, from: Holder, to: Holder): (moved: seq<Place>)
    ensures |moved| == |place|
    ensures forall t :: 0 <= t < |place| ==>
              moved[t] == if place[t].holder == from then Place(to, place[t].at) else place[t]
  {
    seq(|place|, t requires 0 <= t < |place| =>
      if place[t].holder == from then Place(to, place[t].at) else place[t])
  }

  /** The database notes the change; the pre-update hook pushes it on the connection's vector. */
  function AfterWrite(s: State, c: nat, change: Change): State {
    s.(open := s.open + [change], fate := s.fate + [InFlight(c)],
       pending := s.pending[c := Pending(s, c) + [change]])
  }

  /** What the database does at a commit: the open transaction enters the log, if it changed anything. */
  function DatabaseCommits(s: State, c: nat, scope: Option<nat>): State {
    if s.open == [] then s.(lock := Committing(c, None, scope))
    else s.(lock := Committing(c, Some(|s.log|), scope), open := [], log := s.log + [s.open],
            fate := Settled(s.fate, c, Committed(|s.log|)))
  }

  /** Where the commit hook puts what it takes from the vector. */
  function HookTarget(s: State, c: nat, scope: Option<nat>): Place
    requires scope.Some? ==> scope.value in s.requests
  {
    if Pending(s, c) == [] then Place(Abandoned, 0)
    else if scope.Some? then Place(Request(scope.value), |s.requests[scope.value]|)
    else Place(Task(|s.log|), 0)
  }

  /** The database commits, and the hook takes the vector and hands it on. */
  function AfterCommitHook(s: State, c: nat, scope: Option<nat>): State
    requires scope.Some? ==> scope.value in s.requests
  {
    var changes := Pending(s, c);
    DatabaseCommits(s, c, scope).(
      pending := s.pending[c := []],
      requests := if changes != [] && scope.Some? then s.requests[scope.value := s.requests[scope.value] + changes]
                  else s.requests,
      publishers := if changes != [] && scope.None? then s.publishers[|s.log| := Publisher(changes, false)]
                    else s.publishers,
      place := if s.open == [] then s.place else s.place + [HookTarget(s, c, scope)])
  }

  /** `DbEventBus::publish`: an empty set is not sent. */
  function Sent(s: State, changes: seq<Change>, from: Holder, sure: bool): State {
    if changes == [] then s
    else s.(bus := s.bus + [changes], assured := s.assured + [sure], place := Moved(s.place, from, Bus(|s.bus|)))
  }

  function Next(s: State, a: Action): State
    requires Enabled(s, a)
  {
    match a
    case Begin(c) => s.(lock := Writing(c), open := [])
    case Write(c, table, oldRow, newRow, operation) =>
      AfterWrite(s, c, Change(|s.fate|, table, oldRow, newRow, operation))
    case CommitHook(c, scope) => AfterCommitHook(s, c, scope)
    case CommitDone =>
      s.(lock := Free, visible := if s.lock.txn.Some? then s.visible + {s.lock.txn.value} else s.visible)
    case Rollback(c) =>
      s.(lock := Free, open := [], fate := Settled(s.fate, c, RolledBack),
         pending := s.pending[c := []])
    case OpenScope(r) => s.(requests := s.requests[r := []])
    case CloseScope(r) => Sent(s.(requests := s.requests - {r}), s.requests[r], Request(r), true)
    case DropScope(r) => s.(requests := s.requests - {r}, place := Moved(s.place, Request(r), Abandoned))
    case Sync(k) => s.(publishers := s.publishers[k := s.publishers[k].(synced := true)])
    case Publish(k) =>
      Sent(s.(publishers := s.publishers - {k}), s.publishers[k].changes, Task(k), s.publishers[k].synced)
  }

  /** The state after a run; an action that is not possible changes nothing. */
  function After(run: seq<Action>): State {
    if run == [] then INIT
    else
      var s := After(run[..|run| - 1]);
      var a := run[|run| - 1];
      if Enabled(s, a) then Next(s, a) else s
  }

  // ---------- what every step keeps ----------

  predicate Increasing(changes: seq<Change>) {
    forall i, j :: 0 <= i < j < |changes| ==> changes[i].serial < changes[j].serial
  }

  /** A connection's vector holds its own uncommitted changes, and is empty unless it is writing. */
  ghost predicate PendingOk(s: State) {
    forall c :: c in s.pending ==>
      && Increasing(s.pending[c])
      && (s.lock != Writing(c) ==> s.pending[c] == [])
      && (forall i :: 0 <= i < |s.pending[c]| ==>
            s.pending[c][i].serial < |s.fate| && s.fate[s.pending[c][i].serial] == InFlight(c))
  }

  ghost predicate Has(changes: seq<Change>, n: nat) {
    exists i :: 0 <= i < |changes| && changes[i].serial == n
  }

  /** The vector of the writing connection holds just the changes of the open transaction. */
  ghost predicate CapturedOk(s: State) {
    if s.lock.Writing? then Pending(s, s.lock.conn) == s.open else s.open == []
  }

  /** A change that is not settled is in the open transaction, a committed one in the log. */
  ghost predicate FateOk(s: State, n: nat)
    requires n < |s.fate|
  {
    match s.fate[n]
    case InFlight(c) => s.lock == Writing(c) && Has(s.open, n)
    case RolledBack => true
    case Committed(t) => t < |s.log| && Has(s.log[t], n)
  }

  ghost predicate FatesOk(s: State) {
    forall n :: 0 <= n < |s.fate| ==> FateOk(s, n)
  }

  ghost predicate LogOk(s: State) {
    forall t :: 0 <= t < |s.log| ==>
      && s.log[t] != []
      && Increasing(s.log[t])
      && (forall i :: 0 <= i < |s.log[t]| ==>
            s.log[t][i].serial < |s.fate| && s.fate[s.log[t][i].serial] == Committed(t))
  }

  predicate Holds(s: State, h: Holder) {
    match h
    case Request(r) => r in s.requests
    case Task(k) => k in s.publishers
    case Bus(i) => i < |s.bus|
    case Abandoned => false
  }

  function Buffer(s: State, h: Holder): seq<Change>
    requires Holds(s, h)
  {
    match h
    case Request(r) => s.requests[r]
    case Task(k) => s.publishers[k].changes
    case Bus(i) => s.bus[i]
  }

  /** The change at `j` is a committed one, and its transaction is recorded to be just there. */
  ghost predicate BelongsAt(s: State, h: Holder, j: nat)
    requires Holds(s, h) && j < |Buffer(s, h)|
  {
    var change := Buffer(s, h)[j];
    && change.serial < |s.fate|
    && s.fate[change.serial].Committed?
    && var txn := s.fate[change.serial].txn;
    && txn < |s.log| && txn < |s.place|
    && s.place[txn].holder == h
    && s.place[txn].at <= j < s.place[txn].at + |s.log[txn]|
    && change == s.log[txn][j - s.place[txn].at]
  }

  ghost predicate BufferOk(s: State, h: Holder)
    requires Holds(s, h)
  {
    forall j :: 0 <= j < |Buffer(s, h)| ==> BelongsAt(s, h, j)
  }

  ghost predicate BuffersOk(s: State) {
    forall h :: Holds(s, h) ==> BufferOk(s, h)
  }

  /** The whole transaction, in order and in one piece, is where it is recorded to be. */
  ghost predicate PlacedOk(s: State, txn: nat)
    requires txn < |s.log| && txn < |s.place|
  {
    var p := s.place[txn];
    p.holder.Abandoned? ||
    (Holds(s, p.holder) && p.at + |s.log[txn]| <= |Buffer(s, p.holder)|
     && Buffer(s, p.holder)[p.at..p.at + |s.log[txn]|] == s.log[txn])
  }

  ghost predicate PlacesOk(s: State) {
    && |s.place| == |s.log|
    && forall t :: 0 <= t < |s.log| ==> PlacedOk(s, t)
  }

  /** A committed transaction is visible, or its connection still owns the lock. */
  ghost predicate VisibleOk(s: State) {
    && (forall t :: 0 <= t < |s.log| ==> t in s.visible || (s.lock.Committing? && s.lock.txn == Some(t)))
    && (forall t :: t in s.visible ==> t < |s.log|)
    && (s.lock.Committing? && s.lock.txn.Some? ==>
          && s.lock.txn.value !in s.visible
          && s.lock.txn.value < |s.log| && s.lock.txn.value < |s.place|
          && (match s.lock.scope
              case Some(r) => s.place[s.lock.txn.value].holder == Request(r) || s.place[s.lock.txn.value].holder.Abandoned?
              case None => !s.place[s.lock.txn.value].holder.Request?))
  }

  ghost predicate AllVisible(s: State, changes: seq<Change>) {
    forall i :: 0 <= i < |changes| ==>
      changes[i].serial < |s.fate| && s.fate[changes[i].serial].Committed? && s.fate[changes[i].serial].txn in s.visible
  }

  ghost predicate AssuredOk(s: State) {
    && |s.assured| == |s.bus|
    && (forall i :: 0 <= i < |s.bus| && s.assured[i] ==> AllVisible(s, s.bus[i]))
    && (forall k :: k in s.publishers && s.publishers[k].synced ==> AllVisible(s, s.publishers[k].changes))
  }

  /** A publisher is named after the transaction that spawned it, and carries just that one. */
  ghost predicate TasksOk(s: State) {
    forall k :: k in s.publishers ==> k < |s.log| && s.publishers[k].changes == s.log[k]
  }

  ghost predicate Inv(s: State) {
    && TasksOk(s) && PendingOk(s) && CapturedOk(s) && FatesOk(s) && LogOk(s)
    && PlacesOk(s) && BuffersOk(s) && VisibleOk(s) && AssuredOk(s)
  }

  // ---------- one step: the buffers ----------

  /** What was decided about a change stays decided. */
  ghost predicate FatesKept(s: State, s': State) {
    && |s.fate| <= |s'.fate|
    && forall i :: 0 <= i < |s.fate| && !s.fate[i].InFlight? ==> s'.fate[i] == s.fate[i]
  }

  /** What a holder has, nothing if it does not exist yet. */
  function Had(s: State, h: Holder): seq<Change> {
    if Holds(s, h) then Buffer(s, h) else []
  }

  lemma SameBuffers(s: State, s': State)
    requires PlacesOk(s) && BuffersOk(s) && FatesKept(s, s')
    requires forall h :: Holds(s, h) ==> Holds(s', h)
    requires forall h :: Holds(s', h) ==> Buffer(s', h) == Had(s, h)
    requires s'.log == s.log && s'.place == s.place
    ensures PlacesOk(s') && BuffersOk(s')
  {
    forall t | 0 <= t < |s'.log| ensures PlacedOk(s', t) {
      assert PlacedOk(s, t);
    }
    forall h | Holds(s', h) ensures BufferOk(s', h) {
      forall j | 0 <= j < |Buffer(s', h)| ensures BelongsAt(s', h, j) {
        assert BufferOk(s, h) && BelongsAt(s, h, j);
      }
    }
  }

  /** A buffer changes hands as a whole. */
  ghost predicate HandedOver(s: State, s': State, from: Holder, to: Holder) {
    && Holds(s, from) && !Holds(s, to)
    && (Holds(s', to) || to.Abandoned?)
    && (Holds(s', to) ==> Buffer(s', to) == Buffer(s, from))
    && (forall h :: h != to && Holds(s', h) ==> h != from && Holds(s, h) && Buffer(s', h) == Buffer(s, h))
    && (forall h :: h != from && Holds(s, h) ==> Holds(s', h))
    && s'.log == s.log && s'.fate == s.fate
  }

  lemma HandOverKeepsPlaces(s: State, s': State, from: Holder, to: Holder)
    requires PlacesOk(s) && HandedOver(s, s', from, to) && s'.place == Moved(s.place, from, to)
    ensures PlacesOk(s')
  {
    forall t | 0 <= t < |s'.log| ensures PlacedOk(s', t) {
      assert PlacedOk(s, t);
    }
  }

  lemma HandOverKeepsBuffers(s: State, s': State, from: Holder, to: Holder)
    requires BuffersOk(s) && HandedOver(s, s', from, to) && s'.place == Moved(s.place, from, to)
    ensures BuffersOk(s')
  {
    forall h | Holds(s', h) ensures BufferOk(s', h) {
      var h0 := if h == to then from else h;
      assert BufferOk(s, h0);
      forall j | 0 <= j < |Buffer(s', h)| ensures BelongsAt(s', h, j) {
        assert BelongsAt(s, h0, j);
      }
    }
  }

  /** An empty buffer holds no transaction, so it can go or come without a trace. */
  lemma EmptyBufferIsNoPlace(s: State, h: Holder)
    requires PlacesOk(s) && LogOk(s) && Holds(s, h) && Buffer(s, h) == []
    ensures forall t :: 0 <= t < |s.place| ==> s.place[t].holder != h
    ensures forall to :: Moved(s.place, h, to) == s.place
  {
    forall t | 0 <= t < |s.place| ensures s.place[t].holder != h {
      assert PlacedOk(s, t);
    }
  }

  lemma CloseIsHandOver(s: State, r: nat)
    requires Inv(s) && Enabled(s, CloseScope(r))
    ensures PlacesOk(Next(s, CloseScope(r))) && BuffersOk(Next(s, CloseScope(r)))
  {
    var s' := Next(s, CloseScope(r));
    var to := if s.requests[r] == [] then Abandoned else Bus(|s.bus|);
    if s.requests[r] == [] {
      EmptyBufferIsNoPlace(s, Request(r));
    }
    assert HandedOver(s, s', Request(r), to);
    HandOverKeepsPlaces(s, s', Request(r), to);
    HandOverKeepsBuffers(s, s', Request(r), to);
  }

  lemma PublishIsHandOver(s: State, k: nat)
    requires Inv(s) && Enabled(s, Publish(k))
    ensures PlacesOk(Next(s, Publish(k))) && BuffersOk(Next(s, Publish(k)))
  {
    var s' := Next(s, Publish(k));
    var to := if s.publishers[k].changes == [] then Abandoned else Bus(|s.bus|);
    if s.publishers[k].changes == [] {
      EmptyBufferIsNoPlace(s, Task(k));
    }
    assert HandedOver(s, s', Task(k), to);
    HandOverKeepsPlaces(s, s', Task(k), to);
    HandOverKeepsBuffers(s, s', Task(k), to);
  }

  lemma DropIsHandOver(s: State, r: nat)
    requires Inv(s) && Enabled(s, DropScope(r))
    ensures PlacesOk(Next(s, DropScope(r))) && BuffersOk(Next(s, DropScope(r)))
  {
    var s' := Next(s, DropScope(r));
    assert HandedOver(s, s', Request(r), Abandoned);
    HandOverKeepsPlaces(s, s', Request(r), Abandoned);
    HandOverKeepsBuffers(s, s', Request(r), Abandoned);
  }

  lemma StepKeepsFates(s: State, a: Action)
    requires Enabled(s, a)
    ensures FatesKept(s, Next(s, a))
  {
  }

  ghost predicate Appended(s: State, s': State, to: Holder, changes: seq<Change>) {
    && Holds(s', to) && Buffer(s', to) == Had(s, to) + changes
    && (forall h :: h != to ==> (Holds(s', h) <==> Holds(s, h)))
    && (forall h :: h != to && Holds(s, h) ==> Buffer(s', h) == Buffer(s, h))
  }

  /** A new transaction is appended to the buffer of one holder. */
  ghost predicate Delivered(s: State, s': State, to: Holder, changes: seq<Change>) {
    && Appended(s, s', to, changes)
    && s'.log == s.log + [changes]
    && |s.place| == |s.log|
    && s'.place == s.place + [Place(to, |Had(s, to)|)]
    && FatesKept(s, s')
    && forall i :: 0 <= i < |changes| ==>
         changes[i].serial < |s'.fate| && s'.fate[changes[i].serial] == Committed(|s.log|)
  }

  lemma OldTransactionStays(s: State, s': State, to: Holder, changes: seq<Change>, t: nat)
    requires PlacesOk(s) && Delivered(s, s', to, changes) && t < |s.log|
    ensures PlacedOk(s', t)
  {
    assert PlacedOk(s, t);
    var p := s.place[t];
    assert s'.place[t] == p && s'.log[t] == s.log[t];
    if p.holder == to {
      var end := p.at + |s.log[t]|;
      assert Buffer(s', to)[p.at..end] == Had(s, to)[p.at..end];
    }
  }

  lemma NewTransactionIsPlaced(s: State, s': State, to: Holder, changes: seq<Change>)
    requires Delivered(s, s', to, changes)
    ensures PlacedOk(s', |s.log|)
  {
    var at := |Had(s, to)|;
    assert s'.place[|s.log|] == Place(to, at) && s'.log[|s.log|] == changes;
    assert Buffer(s', to)[at..at + |changes|] == changes;
  }

  lemma DeliveryKeepsPlaces(s: State, s': State, to: Holder, changes: seq<Change>)
    requires PlacesOk(s) && Delivered(s, s', to, changes)
    ensures PlacesOk(s')
  {
    forall t | 0 <= t < |s'.log| ensures PlacedOk(s', t) {
      if t < |s.log| {
        OldTransactionStays(s, s', to, changes, t);
      } else {
        NewTransactionIsPlaced(s, s', to, changes);
      }
    }
  }

  lemma OldChangeBelongs(s: State, s': State, to: Holder, changes: seq<Change>, h: Holder, j: nat)
    requires BuffersOk(s) && Delivered(s, s', to, changes)
    requires Holds(s, h) && j < |Buffer(s, h)|
    ensures Holds(s', h) && j < |Buffer(s', h)| && BelongsAt(s', h, j)
  {
    assert BufferOk(s, h) && BelongsAt(s, h, j);
    assert Buffer(s', h)[j] == Buffer(s, h)[j];
  }

  lemma NewChangeBelongs(s: State, s': State, to: Holder, changes: seq<Change>, j: nat)
    requires Delivered(s, s', to, changes) && |Had(s, to)| <= j < |Buffer(s', to)|
    ensures BelongsAt(s', to, j)
  {
    assert Buffer(s', to)[j] == changes[j - |Had(s, to)|];
  }

  lemma DeliveryKeepsBuffers(s: State, s': State, to: Holder, changes: seq<Change>)
    requires BuffersOk(s) && Delivered(s, s', to, changes)
    ensures BuffersOk(s')
  {
    forall h | Holds(s', h) ensures BufferOk(s', h) {
      forall j | 0 <= j < |Buffer(s', h)| ensures BelongsAt(s', h, j) {
        if j < |Had(s, h)| {
          OldChangeBelongs(s, s', to, changes, h, j);
        } else {
          NewChangeBelongs(s, s', to, changes, j);
        }
      }
    }
  }

  lemma HookCommits(s: State, c: nat, scope: Option<nat>)
    requires PendingOk(s) && CapturedOk(s) && Enabled(s, CommitHook(c, scope)) && s.open != []
    ensures forall i :: 0 <= i < |s.open| ==>
              var n := s.open[i].serial;
              n < |s.fate| && Next(s, CommitHook(c, scope)).fate[n] == Committed(|s.log|)
  {
  }

  lemma HookAppends(s: State, c: nat, r: nat)
    requires Enabled(s, CommitHook(c, Some(r))) && Pending(s, c) != []
    ensures Appended(s, Next(s, CommitHook(c, Some(r))), Request(r), Pending(s, c))
  {
  }

  lemma HookSpawns(s: State, c: nat)
    requires TasksOk(s) && Enabled(s, CommitHook(c, None)) && Pending(s, c) != []
    ensures !Holds(s, Task(|s.log|))
    ensures Appended(s, Next(s, CommitHook(c, None)), Task(|s.log|), Pending(s, c))
  {
    var s' := Next(s, CommitHook(c, None));
    assert s'.publishers == s.publishers[|s.log| := Publisher(Pending(s, c), false)];
    assert s'.requests == s.requests && s'.bus == s.bus;
    assert [] + Pending(s, c) == Pending(s, c);
  }

  /** The commit hook hands the whole transaction to the request, or else to a new publisher. */
  lemma HookDelivers(s: State, c: nat, scope: Option<nat>)
    requires PendingOk(s) && CapturedOk(s) && TasksOk(s) && |s.place| == |s.log|
    requires Enabled(s, CommitHook(c, scope)) && s.open != []
    ensures Delivered(s, Next(s, CommitHook(c, scope)),
                      if scope.Some? then Request(scope.value) else Task(|s.log|), s.open)
  {
    StepKeepsFates(s, CommitHook(c, scope));
    HookCommits(s, c, scope);
    if scope.Some? {
      HookAppends(s, c, scope.value);
    } else {
      HookSpawns(s, c);
    }
  }

  /** A commit without changes hands nothing on. */
  lemma EmptyHook(s: State, c: nat, scope: Option<nat>)
    requires CapturedOk(s) && Enabled(s, CommitHook(c, scope)) && s.open == []
    ensures var s' := Next(s, CommitHook(c, scope));
            && s'.requests == s.requests && s'.publishers == s.publishers && s'.bus == s.bus
            && s'.log == s.log && s'.place == s.place && s'.fate == s.fate
  {
  }

  lemma StepKeepsBuffers(s: State, a: Action)
    requires Inv(s) && Enabled(s, a)
    ensures PlacesOk(Next(s, a)) && BuffersOk(Next(s, a))
  {
    StepKeepsFates(s, a);
    match a
    case CommitHook(c, scope) =>
      if s.open == [] {
        EmptyHook(s, c, scope);
        SameBuffers(s, Next(s, a));
      } else {
        HookDelivers(s, c, scope);
        var to := if scope.Some? then Request(scope.value) else Task(|s.log|);
        DeliveryKeepsPlaces(s, Next(s, a), to, s.open);
        DeliveryKeepsBuffers(s, Next(s, a), to, s.open);
      }
    case CloseScope(r) => CloseIsHandOver(s, r);
    case DropScope(r) => DropIsHandOver(s, r);
    case Publish(k) => PublishIsHandOver(s, k);
    case _ => SameBuffers(s, Next(s, a));
  }

  // ---------- one step: log, locks, visibility ----------

  /** Only the lock's owner has something pending. */
  lemma OthersPending(s: State, c: nat)
    requires PendingOk(s) && s.lock == Writing(c)
    ensures forall d :: d in s.pending && d != c ==> s.pending[d] == []
  {
  }

  /** All vectors are empty when nobody writes. */
  lemma NobodyPending(s: State)
    requires forall c :: c in s.pending ==> s.pending[c] == []
    ensures PendingOk(s)
  {
  }

  lemma WritePending(s: State, c: nat, change: Change)
    requires PendingOk(s) && s.lock == Writing(c) && change.serial == |s.fate|
    ensures PendingOk(AfterWrite(s, c, change))
  {
    var s' := AfterWrite(s, c, change);
    forall i | 0 <= i < |s'.pending[c]|
      ensures s'.pending[c][i].serial < |s'.fate| && s'.fate[s'.pending[c][i].serial] == InFlight(c)
    {
      if i < |Pending(s, c)| {
        assert s.pending[c][i].serial < |s.fate|;
      }
    }
    forall d | d in s'.pending && d != c ensures s'.pending[d] == [] {
    }
  }

  lemma StepKeepsPending(s: State, a: Action)
    requires PendingOk(s) && Enabled(s, a)
    ensures PendingOk(Next(s, a))
  {
    var s' := Next(s, a);
    match a
    case Begin(_) => NobodyPending(s');
    case Write(c, table, oldRow, newRow, operation) =>
      WritePending(s, c, Change(|s.fate|, table, oldRow, newRow, operation));
    case CommitHook(c, _) => OthersPending(s, c); NobodyPending(s');
    case CommitDone => NobodyPending(s');
    case Rollback(c) => OthersPending(s, c); NobodyPending(s');
    case _ => assert s'.pending == s.pending && s'.fate == s.fate && s'.lock == s.lock;
  }

  lemma StepKeepsTasks(s: State, a: Action)
    requires TasksOk(s) && CapturedOk(s) && Enabled(s, a)
    ensures TasksOk(Next(s, a))
  {
  }

  /** The vector and the open transaction stay the same, change for change. */
  lemma StepKeepsCaptured(s: State, a: Action)
    requires PendingOk(s) && CapturedOk(s) && Enabled(s, a)
    ensures CapturedOk(Next(s, a))
  {
  }

  lemma HasAppended(changes: seq<Change>, change: Change, n: nat)
    requires Has(changes, n) || change.serial == n
    ensures Has(changes + [change], n)
  {
    if Has(changes, n) {
      var i :| 0 <= i < |changes| && changes[i].serial == n;
      assert (changes + [change])[i].serial == n;
    } else {
      assert (changes + [change])[|changes|].serial == n;
    }
  }

  lemma WriteKeepsFates(s: State, c: nat, change: Change)
    requires FatesOk(s) && s.lock == Writing(c) && change.serial == |s.fate|
    ensures FatesOk(AfterWrite(s, c, change))
  {
    var s' := AfterWrite(s, c, change);
    forall n | 0 <= n < |s'.fate| ensures FateOk(s', n) {
      assert n < |s.fate| ==> FateOk(s, n);
      if s'.fate[n].InFlight? {
        HasAppended(s.open, change, n);
      }
    }
  }

  lemma CommitKeepsFates(s: State, c: nat, scope: Option<nat>)
    requires FatesOk(s) && Enabled(s, CommitHook(c, scope))
    ensures FatesOk(Next(s, CommitHook(c, scope)))
  {
    var s' := Next(s, CommitHook(c, scope));
    forall n | 0 <= n < |s'.fate| ensures FateOk(s', n) {
      assert FateOk(s, n);
    }
  }

  /** No change is forgotten: what is written stays in the open transaction until it is settled. */
  lemma StepKeepsAccount(s: State, a: Action)
    requires FatesOk(s) && Enabled(s, a)
    ensures FatesOk(Next(s, a))
  {
    match a
    case Write(c, table, oldRow, newRow, operation) =>
      WriteKeepsFates(s, c, Change(|s.fate|, table, oldRow, newRow, operation));
    case CommitHook(c, scope) => CommitKeepsFates(s, c, scope);
    case _ =>
      forall n | 0 <= n < |Next(s, a).fate| ensures FateOk(Next(s, a), n) {
        assert FateOk(s, n);
      }
  }

  lemma DeliveryKeepsLog(s: State, s': State, to: Holder, changes: seq<Change>)
    requires LogOk(s) && Delivered(s, s', to, changes) && changes != [] && Increasing(changes)
    ensures LogOk(s')
  {
    forall t | 0 <= t < |s.log|
      ensures forall i :: 0 <= i < |s.log[t]| ==>
                s.log[t][i].serial < |s'.fate| && s'.fate[s.log[t][i].serial] == Committed(t)
    {
    }
  }

  lemma SameLog(s: State, s': State)
    requires LogOk(s) && FatesKept(s, s') && s'.log == s.log
    ensures LogOk(s')
  {
  }

  lemma OnlyHooksLog(s: State, a: Action)
    requires Enabled(s, a) && !(a.CommitHook? && s.open != [])
    ensures Next(s, a).log == s.log
  {
  }

  lemma StepKeepsLog(s: State, a: Action)
    requires PendingOk(s) && CapturedOk(s) && LogOk(s) && TasksOk(s) && |s.place| == |s.log| && Enabled(s, a)
    ensures LogOk(Next(s, a))
  {
    if a.CommitHook? && s.open != [] {
      HookDelivers(s, a.conn, a.scope);
      var to := if a.scope.Some? then Request(a.scope.value) else Task(|s.log|);
      DeliveryKeepsLog(s, Next(s, a), to, s.open);
    } else {
      StepKeepsFates(s, a);
      OnlyHooksLog(s, a);
      SameLog(s, Next(s, a));
    }
  }

  lemma StepKeepsVisible(s: State, a: Action)
    requires CapturedOk(s) && VisibleOk(s) && |s.place| == |s.log| && Enabled(s, a)
    ensures VisibleOk(Next(s, a))
  {
    var s' := Next(s, a);
    forall t | 0 <= t < |s'.log|
      ensures t in s'.visible || (s'.lock.Committing? && s'.lock.txn == Some(t))
    {
      assert t < |s.log| ==> t in s.visible || (s.lock.Committing? && s.lock.txn == Some(t));
    }
  }

  // ---------- one step: what was promised to be visible ----------

  lemma VisibleStays(s: State, s': State, changes: seq<Change>)
    requires AllVisible(s, changes) && FatesKept(s, s') && s.visible <= s'.visible
    ensures AllVisible(s', changes)
  {
  }

  /** Nobody is between commit hook and commit on behalf of this holder, so all it has is visible. */
  lemma HeldIsVisible(s: State, h: Holder)
    requires BuffersOk(s) && VisibleOk(s) && Holds(s, h)
    requires s.lock.Committing? && s.lock.txn.Some? ==> s.place[s.lock.txn.value].holder != h
    ensures AllVisible(s, Buffer(s, h))
  {
    forall i | 0 <= i < |Buffer(s, h)|
      ensures var n := Buffer(s, h)[i].serial;
              n < |s.fate| && s.fate[n].Committed? && s.fate[n].txn in s.visible
    {
      assert BufferOk(s, h) && BelongsAt(s, h, i);
    }
  }

  lemma StepKeepsVisibility(s: State, a: Action)
    requires Enabled(s, a)
    ensures s.visible <= Next(s, a).visible
  {
  }

  /** A request that finishes, or a publisher that has waited, sends only what is visible. */
  lemma SentIsVisible(s: State, a: Action)
    requires Inv(s) && Enabled(s, a) && (a.CloseScope? || a.Sync?)
    ensures AllVisible(s, Buffer(s, if a.CloseScope? then Request(a.request) else Task(a.task)))
  {
    HeldIsVisible(s, if a.CloseScope? then Request(a.request) else Task(a.task));
  }

  lemma BusStaysAssured(s: State, a: Action)
    requires Inv(s) && Enabled(s, a)
    ensures var s' := Next(s, a);
            |s'.assured| == |s'.bus| && forall i :: 0 <= i < |s'.bus| && s'.assured[i] ==> AllVisible(s', s'.bus[i])
  {
    var s' := Next(s, a);
    StepKeepsFates(s, a);
    StepKeepsVisibility(s, a);
    if a.CloseScope? {
      SentIsVisible(s, a);
    }
    forall i | 0 <= i < |s'.bus| && s'.assured[i] ensures AllVisible(s', s'.bus[i]) {
      if i < |s.bus| {
        VisibleStays(s, s', s.bus[i]);
      }
    }
  }

  lemma TasksStayAssured(s: State, a: Action)
    requires Inv(s) && Enabled(s, a)
    ensures var s' := Next(s, a);
            forall k :: k in s'.publishers && s'.publishers[k].synced ==> AllVisible(s', s'.publishers[k].changes)
  {
    var s' := Next(s, a);
    StepKeepsFates(s, a);
    StepKeepsVisibility(s, a);
    if a.Sync? {
      SentIsVisible(s, a);
    }
    forall k | k in s'.publishers && s'.publishers[k].synced ensures AllVisible(s', s'.publishers[k].changes) {
      assert k in s.publishers;
      VisibleStays(s, s', s.publishers[k].changes);
    }
  }

  lemma StepKeepsAssured(s: State, a: Action)
    requires Inv(s) && Enabled(s, a)
    ensures AssuredOk(Next(s, a))
  {
    BusStaysAssured(s, a);
    TasksStayAssured(s, a);
  }

  lemma {:induction false} StepKeepsInv(s: State, a: Action)
    requires Inv(s) && Enabled(s, a)
    ensures Inv(Next(s, a))
  {
    StepKeepsTasks(s, a);
    StepKeepsPending(s, a);
    StepKeepsCaptured(s, a);
    StepKeepsAccount(s, a);
    StepKeepsLog(s, a);
    StepKeepsBuffers(s, a);
    StepKeepsVisible(s, a);
    StepKeepsAssured(s, a);
  }

  // ---------- every run ----------

  lemma Extend(run: seq<Action>, a: Action)
    requires Enabled(After(run), a)
    ensures After(run + [a]) == Next(After(run), a)
  {
    assert (run + [a])[..|run|] == run;
  }

  lemma {:induction false} RunKeepsInv(run: seq<Action>)
    ensures Inv(After(run))
  {
    if run != [] {
      var s, a := After(run[..|run| - 1]), run[|run| - 1];
      RunKeepsInv(run[..|run| - 1]);
      if Enabled(s, a) {
        StepKeepsInv(s, a);
      }
    }
  }
}
