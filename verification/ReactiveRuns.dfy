/**
 What holds in every run of the change capture of `Reactive`: where each written change is, that
 committed changes are published once, whole, in order and when readers can see them, and exactly
 when that fails.
 */
module ReactiveRuns {
  import opened Common
  import opened Reactive

  /** While a connection writes, its vector is the open transaction, change for change. */
  lemma VectorIsTransaction(run: seq<Action>, c: nat)
    requires After(run).lock == Writing(c)
    ensures Pending(After(run), c) == After(run).open
  {
    RunKeepsInv(run);
  }

  lemma LaterFates(run: seq<Action>, a: Action)
    ensures FatesKept(After(run), After(run + [a])) && After(run).visible <= After(run + [a]).visible
  {
    assert (run + [a])[..|run|] == run;
    if Enabled(After(run), a) {
      StepKeepsFates(After(run), a);
      StepKeepsVisibility(After(run), a);
    }
  }

  lemma {:induction false} FatesAreFinal(run: seq<Action>, more: seq<Action>)
    ensures FatesKept(After(run), After(run + more))
  {
    if more == [] {
      assert run + more == run;
    } else {
      var before, a := run + more[..|more| - 1], more[|more| - 1];
      FatesAreFinal(run, more[..|more| - 1]);
      assert run + more == before + [a];
      LaterFates(before, a);
    }
  }

  /** The change is in no request buffer, in no publisher and in no set on the bus. */
  ghost predicate InNoBuffer(s: State, n: nat) {
    forall h :: Holds(s, h) ==> !Has(Buffer(s, h), n)
  }

  lemma BufferedIsCommitted(s: State, h: Holder, n: nat)
    requires BuffersOk(s) && Holds(s, h) && Has(Buffer(s, h), n)
    ensures n < |s.fate| && s.fate[n].Committed? && s.fate[n].txn < |s.place| && s.place[s.fate[n].txn].holder == h
  {
    var j :| 0 <= j < |Buffer(s, h)| && Buffer(s, h)[j].serial == n;
    assert BufferOk(s, h) && BelongsAt(s, h, j);
  }

  /**
   Every change ever written is in one of three states: in the open transaction of the
   connection that holds the lock and in its vector; rolled back and in no buffer; or committed
   and part of a logged transaction.
   */
  lemma WrittenIsAccountedFor(run: seq<Action>, n: nat)
    requires n < |After(run).fate|
    ensures var s := After(run);
            match s.fate[n]
            case InFlight(c) => s.lock == Writing(c) && Has(Pending(s, c), n) && InNoBuffer(s, n)
            case RolledBack => InNoBuffer(s, n) && forall c :: !Has(Pending(s, c), n)
            case Committed(t) => t < |s.log| && Has(s.log[t], n) && forall c :: !Has(Pending(s, c), n)
  {
    RunKeepsInv(run);
    var s := After(run);
    assert FateOk(s, n);
    if !s.fate[n].Committed? {
      forall h | Holds(s, h) ensures !Has(Buffer(s, h), n) {
        if Has(Buffer(s, h), n) {
          BufferedIsCommitted(s, h, n);
        }
      }
    }
    forall c | Has(Pending(s, c), n) ensures s.fate[n] == InFlight(c) {
      var i :| 0 <= i < |Pending(s, c)| && Pending(s, c)[i].serial == n;
    }
  }

  /** A change that was rolled back is in no buffer and in no set on the bus, however the run goes on. */
  lemma RolledBackIsNeverPublished(run: seq<Action>, more: seq<Action>, n: nat)
    requires n < |After(run).fate| && After(run).fate[n] == RolledBack
    ensures InNoBuffer(After(run + more), n)
  {
    FatesAreFinal(run, more);
    WrittenIsAccountedFor(run + more, n);
  }

  /** No change is in two buffers, or twice in one. */
  lemma OneOccurrence(run: seq<Action>, h: Holder, j: nat, h': Holder, j': nat)
    requires var s := After(run);
             && Holds(s, h) && j < |Buffer(s, h)| && Holds(s, h') && j' < |Buffer(s, h')|
             && Buffer(s, h)[j].serial == Buffer(s, h')[j'].serial
    ensures h == h' && j == j'
  {
    var s := After(run);
    RunKeepsInv(run);
    assert BufferOk(s, h) && BufferOk(s, h');
    assert BelongsAt(s, h, j) && BelongsAt(s, h', j');
    var txn := s.fate[Buffer(s, h)[j].serial].txn;
    SerialIsUnique(s.log[txn], j - s.place[txn].at, j' - s.place[txn].at);
  }

  lemma SerialIsUnique(changes: seq<Change>, x: nat, y: nat)
    requires Increasing(changes) && x < |changes| && y < |changes|
    ensures changes[x].serial == changes[y].serial ==> x == y
  {
  }

  /**
   A committed transaction is in one piece and in order in a request buffer, in a publisher or
   in a set on the bus, unless it was abandoned with its request.
   */
  lemma TransactionStaysWhole(run: seq<Action>, txn: nat)
    requires txn < |After(run).log|
    ensures |After(run).place| == |After(run).log| && PlacedOk(After(run), txn)
  {
    RunKeepsInv(run);
  }

  lemma NoOtherHome(run: seq<Action>, h: Holder, j: nat)
    requires Holds(After(run), h) && j < |Buffer(After(run), h)|
    ensures forall h', j' | Holds(After(run), h') && 0 <= j' < |Buffer(After(run), h')| ::
              Buffer(After(run), h')[j'].serial == Buffer(After(run), h)[j].serial ==> h' == h && j' == j
  {
    var s := After(run);
    forall h', j' | Holds(s, h') && 0 <= j' < |Buffer(s, h')| && Buffer(s, h')[j'].serial == Buffer(s, h)[j].serial
      ensures h' == h && j' == j
    {
      OneOccurrence(run, h', j', h, j);
    }
  }

  /**
   A committed change is in exactly one buffer, at one position; or it was abandoned with its
   request and is in none, which takes a request that was dropped.
   */
  lemma CommittedHasOneHome(run: seq<Action>, n: nat) returns (h: Holder, j: nat)
    requires n < |After(run).fate| && After(run).fate[n].Committed?
    ensures var s := After(run);
            if h.Abandoned? then InNoBuffer(s, n) && DropsChanges(run)
            else
              && Holds(s, h) && j < |Buffer(s, h)| && Buffer(s, h)[j].serial == n
              && forall h', j' | Holds(s, h') && 0 <= j' < |Buffer(s, h')| ::
                   Buffer(s, h')[j'].serial == n ==> h' == h && j' == j
  {
    var s := After(run);
    RunKeepsInv(run);
    WrittenIsAccountedFor(run, n);
    var t := s.fate[n].txn;
    var x :| 0 <= x < |s.log[t]| && s.log[t][x].serial == n;
    assert PlacedOk(s, t);
    h, j := s.place[t].holder, s.place[t].at + x;
    if h.Abandoned? {
      forall h' | Holds(s, h') ensures !Has(Buffer(s, h'), n) {
        if Has(Buffer(s, h'), n) {
          BufferedIsCommitted(s, h', n);
        }
      }
      AbandonedExactlyByDrop(run);
    } else {
      assert Buffer(s, h)[j] == Buffer(s, h)[s.place[t].at..s.place[t].at + |s.log[t]|][x];
      NoOtherHome(run, h, j);
    }
  }

  /**
   When all scopes and publishers have ended and no request that held changes was dropped, every
   committed change is on the bus exactly once.
   */
  lemma PublishedExactlyOnce(run: seq<Action>, n: nat) returns (i: nat, j: nat)
    requires After(run).requests == map[] && After(run).publishers == map[] && !DropsChanges(run)
    requires n < |After(run).fate| && After(run).fate[n].Committed?
    ensures var s := After(run);
            && i < |s.bus| && j < |s.bus[i]| && s.bus[i][j].serial == n
            && forall i', j' | 0 <= i' < |s.bus| && 0 <= j' < |s.bus[i']| ::
                 s.bus[i'][j'].serial == n ==> i' == i && j' == j
  {
    var h;
    h, j := CommittedHasOneHome(run, n);
    i := h.index;
    var s := After(run);
    forall i', j' | 0 <= i' < |s.bus| && 0 <= j' < |s.bus[i']| && s.bus[i'][j'].serial == n
      ensures i' == i && j' == j
    {
      assert Holds(s, Bus(i')) && Buffer(s, Bus(i'))[j'].serial == n;
    }
  }

  /** And it is there with its whole transaction, in order and in one piece. */
  lemma TransactionPublishedWhole(run: seq<Action>, txn: nat) returns (i: nat, at: nat)
    requires After(run).requests == map[] && After(run).publishers == map[] && !DropsChanges(run)
    requires txn < |After(run).log|
    ensures var s := After(run);
            && i < |s.bus| && at + |s.log[txn]| <= |s.bus[i]|
            && s.bus[i][at..at + |s.log[txn]|] == s.log[txn]
  {
    var s := After(run);
    TransactionStaysWhole(run, txn);
    AbandonedExactlyByDrop(run);
    assert !s.place[txn].holder.Abandoned?;
    i, at := s.place[txn].holder.index, s.place[txn].at;
  }

  // ---------- the changes are those that were written ----------

  /** The row changes of the run, in order. */
  function Writes(run: seq<Action>): seq<Action> {
    if run == [] then []
    else
      var before, a := run[..|run| - 1], run[|run| - 1];
      Writes(before) + if a.Write? && Enabled(After(before), a) then [a] else []
  }

  /** The change is the row change of its number: its table, both row ids and its operation. */
  ghost predicate AsWritten(writes: seq<Action>, change: Change) {
    && change.serial < |writes|
    && var w := writes[change.serial];
    && w.Write? && change.table == w.table && change.operation == w.operation
    && change.oldRow == w.oldRow && change.newRow == w.newRow
  }

  ghost predicate AllAsWritten(writes: seq<Action>, changes: seq<Change>) {
    forall i :: 0 <= i < |changes| ==> AsWritten(writes, changes[i])
  }

  /** They are as written, and by this connection. */
  ghost predicate OwnWrites(writes: seq<Action>, c: nat, changes: seq<Change>) {
    && AllAsWritten(writes, changes)
    && (forall i :: 0 <= i < |changes| ==> AsWritten(writes, changes[i]) && writes[changes[i].serial].conn == c)
  }

  ghost predicate RecordedAsWritten(s: State, writes: seq<Action>) {
    && |writes| == |s.fate|
    && AllAsWritten(writes, s.open)
    && (forall t :: 0 <= t < |s.log| ==> AllAsWritten(writes, s.log[t]))
    && (forall n :: 0 <= n < |writes| && s.fate[n].InFlight? ==> writes[n].Write? && writes[n].conn == s.fate[n].conn)
  }

  lemma MoreWritten(writes: seq<Action>, a: Action, changes: seq<Change>)
    requires AllAsWritten(writes, changes)
    ensures AllAsWritten(writes + [a], changes)
  {
    forall i | 0 <= i < |changes| ensures AsWritten(writes + [a], changes[i]) {
      assert AsWritten(writes, changes[i]);
    }
  }

  lemma WriteIsRecorded(s: State, writes: seq<Action>, a: Action)
    requires RecordedAsWritten(s, writes) && a.Write? && Enabled(s, a)
    ensures RecordedAsWritten(Next(s, a), writes + [a])
  {
    var s' := Next(s, a);
    MoreWritten(writes, a, s.open);
    forall i | 0 <= i < |s'.open| ensures AsWritten(writes + [a], s'.open[i]) {
      assert i < |s.open| ==> s'.open[i] == s.open[i] && AsWritten(writes + [a], s.open[i]);
    }
    forall t | 0 <= t < |s'.log| ensures AllAsWritten(writes + [a], s'.log[t]) {
      MoreWritten(writes, a, s.log[t]);
    }
  }

  lemma OthersKeepRecorded(s: State, writes: seq<Action>, a: Action)
    requires RecordedAsWritten(s, writes) && !a.Write? && Enabled(s, a)
    ensures RecordedAsWritten(Next(s, a), writes)
  {
    var s' := Next(s, a);
    assert s'.open == s.open || s'.open == [];
    assert s'.log == s.log || s'.log == s.log + [s.open];
    forall t | 0 <= t < |s'.log| ensures AllAsWritten(writes, s'.log[t]) {
      assert s'.log[t] == if t < |s.log| then s.log[t] else s.open;
    }
  }

  lemma {:induction false} RunRecordsWrites(run: seq<Action>)
    ensures RecordedAsWritten(After(run), Writes(run))
  {
    if run != [] {
      var before, a := run[..|run| - 1], run[|run| - 1];
      RunRecordsWrites(before);
      if Enabled(After(before), a) {
        if a.Write? {
          WriteIsRecorded(After(before), Writes(before), a);
        } else {
          OthersKeepRecorded(After(before), Writes(before), a);
        }
      }
    }
  }

  /**
   The changes are numbered by the writes of the run, and every change in any vector, request,
   publisher or published set says of its write what was written; a vector has only writes of
   its own connection.
   */
  lemma ChangesAreTheWrites(run: seq<Action>)
    ensures |Writes(run)| == |After(run).fate|
    ensures forall c :: OwnWrites(Writes(run), c, Pending(After(run), c))
    ensures forall h :: Holds(After(run), h) ==> AllAsWritten(Writes(run), Buffer(After(run), h))
  {
    RunKeepsInv(run);
    RunRecordsWrites(run);
    var s := After(run);
    forall c ensures OwnWrites(Writes(run), c, Pending(s, c)) {
      forall i | 0 <= i < |Pending(s, c)|
        ensures AsWritten(Writes(run), Pending(s, c)[i]) && Writes(run)[Pending(s, c)[i].serial].conn == c
      {
        assert s.lock == Writing(c) && Pending(s, c) == s.open;
        assert AsWritten(Writes(run), s.open[i]);
      }
    }
    forall h | Holds(s, h) ensures AllAsWritten(Writes(run), Buffer(s, h)) {
      forall j | 0 <= j < |Buffer(s, h)| ensures AsWritten(Writes(run), Buffer(s, h)[j]) {
        assert BufferOk(s, h) && BelongsAt(s, h, j);
        var txn := s.fate[Buffer(s, h)[j].serial].txn;
        assert AsWritten(Writes(run), s.log[txn][j - s.place[txn].at]);
      }
    }
  }

  /** A commit inside a request adds the whole transaction to its buffer, any other spawns one publisher for it. */
  lemma CommitIsRouted(run: seq<Action>, c: nat, scope: Option<nat>)
    requires Enabled(After(run), CommitHook(c, scope)) && After(run).open != []
    ensures var s, s' := After(run), After(run + [CommitHook(c, scope)]);
            && s'.log == s.log + [s.open] && s'.bus == s.bus && Pending(s', c) == []
            && (scope.Some? ==>
                  && s'.publishers == s.publishers
                  && s'.requests == s.requests[scope.value := s.requests[scope.value] + s.open])
            && (scope.None? ==>
                  && s'.requests == s.requests && |s.log| !in s.publishers
                  && s'.publishers == s.publishers[|s.log| := Publisher(s.open, false)])
  {
    RunKeepsInv(run);
    Extend(run, CommitHook(c, scope));
  }

  // ---------- the order of writing ----------

  /** In the order of writing, and all of it older than the open transaction. */
  ghost predicate Ordered(s: State, changes: seq<Change>) {
    && Increasing(changes)
    && forall i, j :: 0 <= i < |changes| && 0 <= j < |s.open| ==> changes[i].serial < s.open[j].serial
  }

  ghost predicate OrderOk(s: State) {
    forall h :: Holds(s, h) ==> Ordered(s, Buffer(s, h))
  }

  lemma OrderedTogether(s: State, changes: seq<Change>)
    requires Ordered(s, changes) && Increasing(s.open)
    ensures Increasing(changes + s.open)
  {
  }

  lemma CommitKeepsOrder(s: State, c: nat, scope: Option<nat>)
    requires Inv(s) && OrderOk(s) && Enabled(s, CommitHook(c, scope)) && s.open != []
    ensures OrderOk(Next(s, CommitHook(c, scope)))
  {
    var s' := Next(s, CommitHook(c, scope));
    var to := if scope.Some? then Request(scope.value) else Task(|s.log|);
    HookDelivers(s, c, scope);
    assert Increasing(s.open) && s'.open == [];
    forall h | Holds(s', h) ensures Ordered(s', Buffer(s', h)) {
      if h == to {
        OrderedTogether(s, Had(s, to));
      }
    }
  }

  lemma WriteKeepsOrder(s: State, c: nat, change: Change)
    requires BuffersOk(s) && OrderOk(s) && change.serial == |s.fate|
    ensures OrderOk(AfterWrite(s, c, change))
  {
    var s' := AfterWrite(s, c, change);
    forall h | Holds(s', h) ensures Ordered(s', Buffer(s', h)) {
      assert Holds(s, h) && Buffer(s', h) == Buffer(s, h) && BufferOk(s, h);
      forall i | 0 <= i < |Buffer(s, h)| ensures Buffer(s, h)[i].serial < |s.fate| {
        assert BelongsAt(s, h, i);
      }
    }
  }

  /** A buffer that is sent is ordered on the bus as it was before. */
  lemma SendingKeepsOrder(s: State, a: Action)
    requires OrderOk(s) && Enabled(s, a) && (a.CloseScope? || a.Publish?)
    ensures OrderOk(Next(s, a))
  {
    var s' := Next(s, a);
    var from := if a.CloseScope? then Request(a.request) else Task(a.task);
    assert s'.open == s.open;
    forall h | Holds(s', h) ensures Ordered(s', Buffer(s', h)) {
      assert Buffer(s', h) == Buffer(s, if h == Bus(|s.bus|) then from else h);
    }
  }

  /** Every other step leaves the buffers alone, or makes an empty one or drops one. */
  lemma OthersKeepOrder(s: State, a: Action)
    requires CapturedOk(s) && OrderOk(s) && Enabled(s, a) && !a.Write? && !a.CloseScope? && !a.Publish?
    requires a.CommitHook? ==> s.open == []
    ensures OrderOk(Next(s, a))
  {
    var s' := Next(s, a);
    assert s'.open == s.open || s'.open == [];
    forall h | Holds(s', h) ensures Ordered(s', Buffer(s', h)) {
      assert Buffer(s', h) == Had(s, h);
    }
  }

  lemma {:induction false} RunKeepsOrder(run: seq<Action>)
    ensures OrderOk(After(run))
  {
    if run != [] {
      var s, a := After(run[..|run| - 1]), run[|run| - 1];
      RunKeepsOrder(run[..|run| - 1]);
      RunKeepsInv(run[..|run| - 1]);
      if Enabled(s, a) {
        if a.Write? {
          WriteKeepsOrder(s, a.conn, Change(|s.fate|, a.table, a.oldRow, a.newRow, a.operation));
        } else if a.CommitHook? && s.open != [] {
          CommitKeepsOrder(s, a.conn, a.scope);
        } else if a.CloseScope? || a.Publish? {
          SendingKeepsOrder(s, a);
        } else {
          OthersKeepOrder(s, a);
        }
      }
    }
  }

  /** Every request, publisher and published set lists its changes in the order they were written. */
  lemma WritingOrderIsKept(run: seq<Action>, h: Holder, i: nat, j: nat)
    requires Holds(After(run), h) && i < j < |Buffer(After(run), h)|
    ensures Buffer(After(run), h)[i].serial < Buffer(After(run), h)[j].serial
  {
    RunKeepsOrder(run);
  }

  // ---------- what is lost ----------

  /** Somewhere in the run a scope that held changes was dropped. */
  predicate DropsChanges(run: seq<Action>) {
    run != [] &&
    (DropsChanges(run[..|run| - 1]) ||
     var s, a := After(run[..|run| - 1]), run[|run| - 1];
     a.DropScope? && Enabled(s, a) && s.requests[a.request] != [])
  }

  ghost predicate SomeAbandoned(s: State) {
    exists t :: 0 <= t < |s.place| && s.place[t].holder.Abandoned?
  }

  lemma AbandonedStays(s: State, a: Action)
    requires |s.place| == |s.log| && Enabled(s, a) && SomeAbandoned(s)
    ensures SomeAbandoned(Next(s, a))
  {
    var t :| 0 <= t < |s.place| && s.place[t].holder.Abandoned?;
    assert Next(s, a).place[t].holder.Abandoned?;
  }

  lemma DropAbandons(s: State, r: nat)
    requires Inv(s) && Enabled(s, DropScope(r)) && s.requests[r] != []
    ensures SomeAbandoned(Next(s, DropScope(r)))
  {
    var h := Request(r);
    assert BufferOk(s, h) && BelongsAt(s, h, 0);
    assert Next(s, DropScope(r)).place[s.fate[Buffer(s, h)[0].serial].txn].holder.Abandoned?;
  }

  lemma OthersAbandonNothing(s: State, a: Action)
    requires Inv(s) && Enabled(s, a) && SomeAbandoned(Next(s, a))
    ensures SomeAbandoned(s) || (a.DropScope? && s.requests[a.request] != [])
  {
    if a.DropScope? && s.requests[a.request] == [] {
      EmptyBufferIsNoPlace(s, Request(a.request));
    }
  }

  lemma StepAbandons(s: State, a: Action)
    requires Inv(s) && Enabled(s, a)
    ensures SomeAbandoned(Next(s, a)) <==>
            SomeAbandoned(s) || (a.DropScope? && s.requests[a.request] != [])
  {
    if SomeAbandoned(Next(s, a)) {
      OthersAbandonNothing(s, a);
    } else if SomeAbandoned(s) {
      AbandonedStays(s, a);
    } else if a.DropScope? && s.requests[a.request] != [] {
      DropAbandons(s, a.request);
    }
  }

  lemma {:induction false} AbandonedExactlyByDrop(run: seq<Action>)
    ensures SomeAbandoned(After(run)) <==> DropsChanges(run)
  {
    if run != [] {
      var s, a := After(run[..|run| - 1]), run[|run| - 1];
      AbandonedExactlyByDrop(run[..|run| - 1]);
      RunKeepsInv(run[..|run| - 1]);
      if Enabled(s, a) {
        StepAbandons(s, a);
      }
    }
  }

  /** Some committed change is in no request, no publisher and no set on the bus. */
  ghost predicate SomeLost(s: State) {
    exists n :: 0 <= n < |s.fate| && s.fate[n].Committed? && InNoBuffer(s, n)
  }

  lemma AbandonedIsLost(s: State, t: nat)
    requires Inv(s) && t < |s.place| && s.place[t].holder.Abandoned?
    ensures SomeLost(s)
  {
    var n := s.log[t][0].serial;
    forall h | Holds(s, h) ensures !Has(Buffer(s, h), n) {
      if Has(Buffer(s, h), n) {
        BufferedIsCommitted(s, h, n);
      }
    }
    assert s.fate[n].Committed? && InNoBuffer(s, n);
  }

  /** Committed changes are lost exactly when a request that held some is dropped unfinished. */
  lemma LostExactlyByDrop(run: seq<Action>)
    ensures SomeLost(After(run)) <==> DropsChanges(run)
  {
    var s := After(run);
    if SomeLost(s) {
      var n :| 0 <= n < |s.fate| && s.fate[n].Committed? && InNoBuffer(s, n);
      var h, j := CommittedHasOneHome(run, n);
      assert h.Abandoned? || Has(Buffer(s, h), n);
    } else if DropsChanges(run) {
      RunKeepsInv(run);
      AbandonedExactlyByDrop(run);
      var t :| 0 <= t < |s.place| && s.place[t].holder.Abandoned?;
      AbandonedIsLost(s, t);
    }
  }

  lemma {:induction false} VisibleForGood(run: seq<Action>, more: seq<Action>, changes: seq<Change>)
    requires AllVisible(After(run), changes)
    ensures AllVisible(After(run + more), changes)
    decreases |more|
  {
    if more == [] {
      assert run + more == run;
    } else {
      var before, a := more[..|more| - 1], more[|more| - 1];
      VisibleForGood(run, before, changes);
      assert run + more == run + before + [a];
      LaterFates(run + before, a);
      VisibleStays(After(run + before), After(run + more), changes);
    }
  }

  /** A request that ends publishes all it has as one set, or none if it has nothing, and readers see all of it. */
  lemma RequestPublishesVisible(run: seq<Action>, r: nat, more: seq<Action>)
    requires Enabled(After(run), CloseScope(r))
    ensures var changes, s' := After(run).requests[r], After(run + [CloseScope(r)]);
            && r !in s'.requests && s'.bus == After(run).bus + (if changes == [] then [] else [changes])
            && AllVisible(After(run + [CloseScope(r)] + more), changes)
  {
    RunKeepsInv(run);
    SentIsVisible(After(run), CloseScope(r));
    VisibleForGood(run, [CloseScope(r)] + more, After(run).requests[r]);
    assert run + ([CloseScope(r)] + more) == run + [CloseScope(r)] + more;
    Extend(run, CloseScope(r));
  }

  /** A publisher that got the write lock once has only changes that readers see, whenever it publishes. */
  lemma WaitingPublishesVisible(run: seq<Action>, k: nat, more: seq<Action>)
    requires Enabled(After(run), Sync(k))
    ensures AllVisible(After(run + [Sync(k)] + more), After(run).publishers[k].changes)
  {
    RunKeepsInv(run);
    SentIsVisible(After(run), Sync(k));
    VisibleForGood(run, [Sync(k)] + more, After(run).publishers[k].changes);
    assert run + ([Sync(k)] + more) == run + [Sync(k)] + more;
  }

  /** A publisher publishes its transaction as one set. */
  lemma PublisherPublishesOnce(run: seq<Action>, k: nat)
    requires Enabled(After(run), Publish(k))
    ensures var s, s' := After(run), After(run + [Publish(k)]);
            k < |s.log| && s'.bus == s.bus + [s.log[k]] && s'.publishers == s.publishers - {k}
  {
    RunKeepsInv(run);
    Extend(run, Publish(k));
  }

  /** The BEGIN IMMEDIATE of the publisher has succeeded somewhere in the run. */
  predicate HasWaited(run: seq<Action>, k: nat) {
    run != [] &&
    (HasWaited(run[..|run| - 1], k) || (run[|run| - 1] == Sync(k) && Enabled(After(run[..|run| - 1]), Sync(k))))
  }

  /** Whether the step sends a set, and if so, whether a request does or a publisher that has waited. */
  function Sending(s: State, a: Action, waited: bool): seq<bool> {
    if !Enabled(s, a) then []
    else match a
         case CloseScope(r) => if s.requests[r] == [] then [] else [true]
         case Publish(k) => if s.publishers[k].changes == [] then [] else [waited]
         case _ => []
  }

  /** The same for each published set of the run. */
  function Assured(run: seq<Action>): seq<bool> {
    if run == [] then []
    else
      var before, a := run[..|run| - 1], run[|run| - 1];
      Assured(before) + Sending(After(before), a, a.Publish? && HasWaited(before, a.task))
  }

  ghost predicate WaitingOk(s: State, run: seq<Action>) {
    && (forall k: nat :: k in s.publishers ==> (s.publishers[k].synced <==> HasWaited(run, k)))
    && (forall k: nat :: HasWaited(run, k) ==> k < |s.log|)
  }

  lemma WaitedMore(run: seq<Action>, k: nat)
    requires run != []
    ensures var before, a := run[..|run| - 1], run[|run| - 1];
            HasWaited(run, k) <==> HasWaited(before, k) || (a == Sync(k) && Enabled(After(before), a))
  {
  }

  lemma StepSyncs(s: State, a: Action, k: nat)
    requires TasksOk(s) && CapturedOk(s) && Enabled(s, a) && k in Next(s, a).publishers
    ensures k in s.publishers ==> (Next(s, a).publishers[k].synced <==> s.publishers[k].synced || a == Sync(k))
    ensures k !in s.publishers ==> k == |s.log| && a != Sync(k) && !Next(s, a).publishers[k].synced
  {
  }

  lemma {:induction false} WaitingMeans(run: seq<Action>)
    ensures WaitingOk(After(run), run)
  {
    if run != [] {
      var before, a := run[..|run| - 1], run[|run| - 1];
      var s := After(before);
      WaitingMeans(before);
      RunKeepsInv(before);
      forall k: nat | HasWaited(run, k) ensures k < |After(run).log| {
        WaitedMore(run, k);
      }
      forall k: nat | k in After(run).publishers ensures After(run).publishers[k].synced <==> HasWaited(run, k) {
        WaitedMore(run, k);
        if Enabled(s, a) {
          StepSyncs(s, a, k);
        }
      }
    }
  }

  lemma StepSends(s: State, a: Action)
    requires Enabled(s, a)
    ensures Next(s, a).assured == s.assured + Sending(s, a, a.Publish? && s.publishers[a.task].synced)
  {
  }

  lemma {:induction false} AssuredMeans(run: seq<Action>)
    ensures After(run).assured == Assured(run)
  {
    if run != [] {
      var before, a := run[..|run| - 1], run[|run| - 1];
      AssuredMeans(before);
      WaitingMeans(before);
      if Enabled(After(before), a) {
        StepSends(After(before), a);
      }
    }
  }

  /** A set sent by a request, or by a publisher whose BEGIN IMMEDIATE succeeded before, is visible. */
  lemma AssuredSetsAreVisible(run: seq<Action>, i: nat)
    requires i < |After(run).bus|
    ensures |Assured(run)| == |After(run).bus|
    ensures Assured(run)[i] ==> AllVisible(After(run), After(run).bus[i])
  {
    RunKeepsInv(run);
    AssuredMeans(run);
  }

  /** A publisher that did not wait is early exactly while its own commit is still going on. */
  lemma EarlyExactlyWhileCommitting(run: seq<Action>, k: nat)
    requires k in After(run).publishers
    ensures AllVisible(After(run), After(run).publishers[k].changes) <==>
            !(After(run).lock.Committing? && After(run).lock.txn == Some(k))
  {
    RunKeepsInv(run);
    var s := After(run);
    assert s.log[k] != [];
    assert s.fate[s.log[k][0].serial] == Committed(k);
  }

  // ---------- runs that reach the failing sides ----------

  /** One connection writes once and its commit hook runs, outside any request. */
  lemma OneBackgroundCommit(table: string) returns (run: seq<Action>)
    ensures var s := After(run);
            && s.lock == Committing(0, Some(0), None) && s.visible == {} && s.bus == [] && s.assured == []
            && |s.fate| == 1 && s.fate[0] == Committed(0)
            && s.publishers == map[0 := Publisher([Change(0, table, None, Some(1), Insert)], false)]
  {
    run := [];
    Extend(run, Begin(0));
    run := run + [Begin(0)];
    Extend(run, Write(0, table, None, Some(1), Insert));
    run := run + [Write(0, table, None, Some(1), Insert)];
    Extend(run, CommitHook(0, None));
    run := run + [CommitHook(0, None)];
    assert [] + [Change(0, table, None, Some(1), Insert)] == [Change(0, table, None, Some(1), Insert)];
  }

  /** Without BEGIN IMMEDIATE a set can reach the bus before readers can see its changes. */
  lemma SetCanBeEarly(table: string) returns (run: seq<Action>)
    ensures var s := After(run);
            |s.bus| == 1 && |s.assured| == 1 && !s.assured[0] && |s.bus[0]| == 1 && !AllVisible(s, s.bus[0])
  {
    run := OneBackgroundCommit(table);
    Extend(run, Publish(0));
    run := run + [Publish(0)];
    assert After(run).bus[0][0].serial == 0;
  }

  lemma OneRequestCommit(table: string) returns (run: seq<Action>)
    ensures var s := After(run);
            && s.lock == Free && s.visible == {0} && s.publishers == map[] && s.bus == []
            && |s.fate| == 1 && s.fate[0] == Committed(0)
            && s.requests == map[0 := [Change(0, table, None, Some(1), Insert)]]
  {
    run := [];
    Extend(run, OpenScope(0));
    run := run + [OpenScope(0)];
    Extend(run, Begin(0));
    run := run + [Begin(0)];
    Extend(run, Write(0, table, None, Some(1), Insert));
    run := run + [Write(0, table, None, Some(1), Insert)];
    Extend(run, CommitHook(0, Some(0)));
    run := run + [CommitHook(0, Some(0))];
    Extend(run, CommitDone);
    run := run + [CommitDone];
    assert [] + [Change(0, table, None, Some(1), Insert)] == [Change(0, table, None, Some(1), Insert)];
  }

  /** A dropped request loses changes that are committed and visible. */
  lemma CommittedCanBeLost(table: string) returns (run: seq<Action>)
    ensures var s := After(run);
            && |s.fate| == 1 && s.fate[0] == Committed(0) && 0 in s.visible
            && InNoBuffer(s, 0) && s.requests == map[] && s.publishers == map[]
  {
    run := OneRequestCommit(table);
    Extend(run, DropScope(0));
    run := run + [DropScope(0)];
  }
}
