/**
 The in-memory metric session (agent/src/store.rs).

 Two deques of rows, pruned from the front whenever they are touched, share one id counter. The
 session is compared with the full history of saved rows, which nothing is ever removed from.
 A server row gets its id before its deque is locked, so other calls can come in between; the
 rows of a container batch get theirs while the deque is locked. Times are milliseconds, `None`
 for a timestamp that does not parse, and the clock does not go backwards.
 */
module Store {
  import opened Common

  const SESSION_WINDOW: int := 5 * 60 * 1000

  datatype Row = Row(id: int, time: Option<int>, name: string, value: real)

  // ---------- pruning ----------

  predicate IsOlder(row: Row, cutoff: int) {
    row.time.None? || row.time.value < cutoff
  }

  /** The window is five minutes; a row without a readable time is outside. */
  lemma OlderMeans(row: Row, now: int)
    ensures IsOlder(row, now - SESSION_WINDOW) <==> !(row.time.Some? && now - row.time.value <= 300_000)
  {
  }

  /** The index of the first row that is not older, or the number of rows. */
  function FirstFresh(rows: seq<Row>, cutoff: int): (k: nat)
    ensures k <= |rows|
    ensures k < |rows| ==> !IsOlder(rows[k], cutoff)
    ensures forall i :: 0 <= i < k ==> IsOlder(rows[i], cutoff)
  {
    if rows == [] || !IsOlder(rows[0], cutoff) then 0 else 1 + FirstFresh(rows[1..], cutoff)
  }

  function Pruned(rows: seq<Row>, now: int): seq<Row> {
    rows[FirstFresh(rows, now - SESSION_WINDOW)..]
  }

  method Prune(deque: seq<Row>, now: int) returns (rows: seq<Row>)
    ensures rows == Pruned(deque, now)
  {
    rows := deque;
    var cutoff := now - SESSION_WINDOW;
    ghost var popped := 0;
    while rows != [] && IsOlder(rows[0], cutoff)
      invariant popped <= |deque| && rows == deque[popped..]
      invariant forall i :: 0 <= i < popped ==> IsOlder(deque[i], cutoff)
    {
      rows := rows[1..];
      popped := popped + 1;
    }
    FreshAt(deque, cutoff, popped);
  }

  lemma FreshAt(rows: seq<Row>, cutoff: int, k: nat)
    requires k <= |rows|
    requires forall i :: 0 <= i < k ==> IsOlder(rows[i], cutoff)
    requires k < |rows| ==> !IsOlder(rows[k], cutoff)
    ensures FirstFresh(rows, cutoff) == k
  {
  }

  // ---------- queries ----------

  predicate Contains(text: string, part: string) {
    exists i :: 0 <= i <= |text| && part <= text[i..]
  }

  /** The part stands somewhere in the text. */
  lemma ContainsMeans(text: string, part: string)
    ensures Contains(text, part) <==> exists before, after :: text == before + part + after
  {
    if i :| 0 <= i <= |text| && part <= text[i..] {
      assert text == text[..i] + part + text[i + |part|..];
    }
    if before, after :| text == before + part + after {
      assert part <= text[|before|..];
    }
  }

  /** The newest `limit` rows whose name contains `part`, the newest first. */
  function Newest(rows: seq<Row>, part: string, limit: int): seq<Row> {
    if rows == [] || limit <= 0 then []
    else
      var last := rows[|rows| - 1];
      var before := rows[..|rows| - 1];
      if Contains(last.name, part) then [last] + Newest(before, part, limit - 1) else Newest(before, part, limit)
  }

  function Matching(rows: seq<Row>, part: string): seq<Row> {
    if rows == [] then []
    else
      var last := rows[|rows| - 1];
      Matching(rows[..|rows| - 1], part) + if Contains(last.name, part) then [last] else []
  }

  /** The last `limit` rows, backwards. */
  function Backwards(rows: seq<Row>, limit: int): (result: seq<Row>)
    ensures |result| == if limit <= 0 then 0 else if limit < |rows| then limit else |rows|
    ensures forall i :: 0 <= i < |result| ==> result[i] == rows[|rows| - 1 - i]
  {
    var n := if limit <= 0 then 0 else if limit < |rows| then limit else |rows|;
    seq(n, i requires 0 <= i < n => rows[|rows| - 1 - i])
  }

  lemma OneMoreBackwards(rows: seq<Row>, row: Row, limit: int)
    requires limit > 0
    ensures Backwards(rows + [row], limit) == [row] + Backwards(rows, limit - 1)
  {
  }

  /** The answer is the matching rows read backwards, cut off at the limit. */
  lemma {:induction false} NewestMeans(rows: seq<Row>, part: string, limit: int)
    ensures Newest(rows, part, limit) == Backwards(Matching(rows, part), limit)
    decreases |rows|
  {
    if rows != [] && limit > 0 {
      var before, last := rows[..|rows| - 1], rows[|rows| - 1];
      if Contains(last.name, part) {
        NewestMeans(before, part, limit - 1);
        OneMoreBackwards(Matching(before, part), last, limit);
      } else {
        NewestMeans(before, part, limit);
        assert Matching(rows, part) == Matching(before, part);
      }
    } else {
      assert Newest(rows, part, limit) == [];
    }
  }

  method LastN(rows: seq<Row>, part: string, limit: int) returns (result: seq<Row>)
    ensures result == Newest(rows, part, limit)
  {
    result := [];
    var i := |rows|;
    while i > 0 && |result| < limit
      invariant 0 <= i <= |rows| && (limit <= 0 ==> result == []) && (limit > 0 ==> |result| <= limit)
      invariant result + Newest(rows[..i], part, limit - |result|) == Newest(rows[..|rows|], part, limit)
    {
      i := i - 1;
      assert rows[..i + 1][..i] == rows[..i];
      if Contains(rows[i].name, part) {
        result := result + [rows[i]];
      }
    }
    assert rows[..|rows|] == rows;
  }

  // ---------- the session and its history ----------

  /** Where the row with an id is. */
  datatype Where = Flying(task: nat) | InServer(index: nat) | InContainers(index: nat)

  datatype State = State(
    server: seq<Row>, containers: seq<Row>, sequence: int,
    batching: bool,                  // a container batch holds its lock
    flying: map<nat, Row>,           // server rows that have their id but are not in the deque yet
    now: int,
    // history: all rows ever saved, and for each deque the cutoff of its last pruning
    allServer: seq<Row>, allContainers: seq<Row>,
    serverCut: int, containerCut: int,
    place: map<int, Where>
  )

  function Init(now: int): State {
    State([], [], 1, false, map[], now, [], [], now - SESSION_WINDOW, now - SESSION_WINDOW, map[])
  }

  datatype Action =
    | ReserveServer(task: nat, time: Option<int>, value: real)
    | PushServer(task: nat, at: int)
    | BeginBatch
    | AppendRow(time: Option<int>, name: string, value: real)
    | EndBatch(at: int)
    | PruneServer(at: int)           // get_last_n_server_metrics, cleanup
    | PruneContainers(at: int)       // get_last_n_container_metrics, cleanup

  predicate Enabled(s: State, a: Action) {
    match a
    case ReserveServer(task, _, _) => task !in s.flying
    case PushServer(task, at) => task in s.flying && s.now <= at
    case BeginBatch => !s.batching
    case AppendRow(_, _, _) => s.batching
    case EndBatch(at) => s.batching && s.now <= at
    case PruneServer(at) => s.now <= at
    case PruneContainers(at) => !s.batching && s.now <= at
  }

  function Next(s: State, a: Action): State
    requires Enabled(s, a)
  {
    match a
    case ReserveServer(task, time, value) =>
      s.(sequence := s.sequence + 1,
         flying := s.flying[task := Row(s.sequence, time, "", value)],
         place := s.place[s.sequence := Flying(task)])
    case PushServer(task, at) =>
      var row := s.flying[task];
      s.(server := Pruned(s.server + [row], at), allServer := s.allServer + [row],
         flying := s.flying - {task}, now := at, serverCut := at - SESSION_WINDOW,
         place := s.place[row.id := InServer(|s.allServer|)])
    case BeginBatch => s.(batching := true)
    case AppendRow(time, name, value) =>
      var row := Row(s.sequence, time, name, value);
      s.(sequence := s.sequence + 1,
         containers := s.containers + [row], allContainers := s.allContainers + [row],
         place := s.place[s.sequence := InContainers(|s.allContainers|)])
    case EndBatch(at) =>
      s.(batching := false, containers := Pruned(s.containers, at), now := at, containerCut := at - SESSION_WINDOW)
    case PruneServer(at) => s.(server := Pruned(s.server, at), now := at, serverCut := at - SESSION_WINDOW)
    case PruneContainers(at) =>
      s.(containers := Pruned(s.containers, at), now := at, containerCut := at - SESSION_WINDOW)
  }

  function After(start: int, run: seq<Action>): State {
    if run == [] then Init(start)
    else
      var s := After(start, run[..|run| - 1]);
      if Enabled(s, run[|run| - 1]) then Next(s, run[|run| - 1]) else s
  }

  // ---------- what every step keeps ----------

  /** The deque is the history without some first rows, all of them older than the last cutoff. */
  ghost predicate DequeOk(deque: seq<Row>, history: seq<Row>, cut: int) {
    && |deque| <= |history|
    && deque == history[|history| - |deque|..]
    && forall i :: 0 <= i < |history| - |deque| ==> IsOlder(history[i], cut)
  }

  ghost predicate DequesOk(s: State) {
    && DequeOk(s.server, s.allServer, s.serverCut) && s.serverCut <= s.now - SESSION_WINDOW
    && DequeOk(s.containers, s.allContainers, s.containerCut) && s.containerCut <= s.now - SESSION_WINDOW
  }

  /** An id stands for one row, and only ids below the counter have been given out. */
  ghost predicate IdsOk(s: State) {
    && (forall i :: 0 <= i < |s.allServer| ==>
          s.allServer[i].id in s.place && s.place[s.allServer[i].id] == InServer(i))
    && (forall i :: 0 <= i < |s.allContainers| ==>
          s.allContainers[i].id in s.place && s.place[s.allContainers[i].id] == InContainers(i))
    && (forall t :: t in s.flying ==> s.flying[t].id in s.place && s.place[s.flying[t].id] == Flying(t))
    && (forall id :: id in s.place ==> id < s.sequence)
  }

  ghost predicate ContainersIncrease(s: State) {
    forall i, j :: 0 <= i < j < |s.allContainers| ==> s.allContainers[i].id < s.allContainers[j].id
  }

  ghost predicate Inv(s: State) {
    DequesOk(s) && IdsOk(s) && ContainersIncrease(s)
  }

  lemma PushKeepsDeque(deque: seq<Row>, history: seq<Row>, cut: int, row: Row)
    requires DequeOk(deque, history, cut)
    ensures DequeOk(deque + [row], history + [row], cut)
  {
  }

  lemma {:induction false} FreshInHistory(deque: seq<Row>, history: seq<Row>, cut: int, cutoff: int)
    requires DequeOk(deque, history, cut) && cut <= cutoff
    ensures FirstFresh(history, cutoff) == |history| - |deque| + FirstFresh(deque, cutoff)
  {
    var dropped, k := |history| - |deque|, FirstFresh(deque, cutoff);
    forall i | dropped <= i < |history| ensures history[i] == deque[i - dropped] {
    }
    FreshAt(history, cutoff, dropped + k);
  }

  /** Pruning leaves what the same pruning of the whole history would leave. */
  lemma PruneIsExact(deque: seq<Row>, history: seq<Row>, cut: int, now: int)
    requires DequeOk(deque, history, cut) && cut <= now - SESSION_WINDOW
    ensures Pruned(deque, now) == Pruned(history, now)
  {
    var cutoff := now - SESSION_WINDOW;
    FreshInHistory(deque, history, cut, cutoff);
    assert deque[FirstFresh(deque, cutoff)..] == history[FirstFresh(history, cutoff)..];
  }

  lemma PruneKeepsDeque(deque: seq<Row>, history: seq<Row>, cut: int, now: int)
    requires DequeOk(deque, history, cut) && cut <= now - SESSION_WINDOW
    ensures DequeOk(Pruned(deque, now), history, now - SESSION_WINDOW)
  {
    PruneIsExact(deque, history, cut, now);
  }

  lemma PushAndPrune(deque: seq<Row>, history: seq<Row>, cut: int, row: Row, now: int)
    requires DequeOk(deque, history, cut) && cut <= now - SESSION_WINDOW
    ensures DequeOk(Pruned(deque + [row], now), history + [row], now - SESSION_WINDOW)
  {
    PushKeepsDeque(deque, history, cut, row);
    PruneKeepsDeque(deque + [row], history + [row], cut, now);
  }

  ghost predicate ServerOk(s: State) {
    DequeOk(s.server, s.allServer, s.serverCut)
  }

  lemma PushKeepsServer(s: State, a: Action)
    requires ServerOk(s) && s.serverCut <= s.now - SESSION_WINDOW && a.PushServer? && Enabled(s, a)
    ensures ServerOk(Next(s, a))
  {
    PushAndPrune(s.server, s.allServer, s.serverCut, s.flying[a.task], a.at);
  }

  lemma PruneKeepsServer(s: State, at: int)
    requires ServerOk(s) && s.serverCut <= s.now - SESSION_WINDOW && Enabled(s, PruneServer(at))
    ensures ServerOk(Next(s, PruneServer(at)))
  {
    var s' := Next(s, PruneServer(at));
    PruneKeepsDeque(s.server, s.allServer, s.serverCut, at);
    assert s'.server == Pruned(s.server, at) && s'.allServer == s.allServer && s'.serverCut == at - SESSION_WINDOW;
  }

  lemma StepKeepsServer(s: State, a: Action)
    requires ServerOk(s) && s.serverCut <= s.now - SESSION_WINDOW && Enabled(s, a)
    ensures ServerOk(Next(s, a))
  {
    if a.PushServer? {
      PushKeepsServer(s, a);
    } else if a.PruneServer? {
      PruneKeepsServer(s, a.at);
    }
  }

  ghost predicate ContainersOk(s: State) {
    DequeOk(s.containers, s.allContainers, s.containerCut)
  }

  lemma AppendKeepsContainers(s: State, a: Action)
    requires ContainersOk(s) && a.AppendRow? && Enabled(s, a)
    ensures ContainersOk(Next(s, a))
  {
    PushKeepsDeque(s.containers, s.allContainers, s.containerCut, Row(s.sequence, a.time, a.name, a.value));
  }

  lemma EndKeepsContainers(s: State, at: int)
    requires ContainersOk(s) && s.containerCut <= s.now - SESSION_WINDOW && Enabled(s, EndBatch(at))
    ensures ContainersOk(Next(s, EndBatch(at)))
  {
    var s' := Next(s, EndBatch(at));
    PruneKeepsDeque(s.containers, s.allContainers, s.containerCut, at);
    assert s'.containers == Pruned(s.containers, at) && s'.containerCut == at - SESSION_WINDOW;
  }

  lemma PruneKeepsContainers(s: State, at: int)
    requires ContainersOk(s) && s.containerCut <= s.now - SESSION_WINDOW && Enabled(s, PruneContainers(at))
    ensures ContainersOk(Next(s, PruneContainers(at)))
  {
    var s' := Next(s, PruneContainers(at));
    PruneKeepsDeque(s.containers, s.allContainers, s.containerCut, at);
    assert s'.containers == Pruned(s.containers, at) && s'.containerCut == at - SESSION_WINDOW;
  }

  lemma StepKeepsContainers(s: State, a: Action)
    requires ContainersOk(s) && s.containerCut <= s.now - SESSION_WINDOW && Enabled(s, a)
    ensures ContainersOk(Next(s, a))
  {
    if a.AppendRow? {
      AppendKeepsContainers(s, a);
    } else if a.EndBatch? {
      EndKeepsContainers(s, a.at);
    } else if a.PruneContainers? {
      PruneKeepsContainers(s, a.at);
    }
  }

  lemma StepKeepsDeques(s: State, a: Action)
    requires DequesOk(s) && Enabled(s, a)
    ensures DequesOk(Next(s, a))
  {
    StepKeepsServer(s, a);
    StepKeepsContainers(s, a);
  }

  lemma StepKeepsIds(s: State, a: Action)
    requires IdsOk(s) && ContainersIncrease(s) && Enabled(s, a)
    ensures IdsOk(Next(s, a)) && ContainersIncrease(Next(s, a))
  {
  }

  lemma {:induction false} RunKeepsInv(start: int, run: seq<Action>)
    ensures Inv(After(start, run))
  {
    if run != [] {
      var s := After(start, run[..|run| - 1]);
      RunKeepsInv(start, run[..|run| - 1]);
      if Enabled(s, run[|run| - 1]) {
        StepKeepsDeques(s, run[|run| - 1]);
        StepKeepsIds(s, run[|run| - 1]);
      }
    }
  }

  // ---------- every run ----------

  /** Whatever was saved and pruned before, pruning now leaves the history from its first fresh row on. */
  lemma {:induction false} SessionIsHistoryFromFirstFresh(start: int, run: seq<Action>, now: int)
    requires After(start, run).now <= now
    ensures var s := After(start, run);
            && Pruned(s.server, now) == Pruned(s.allServer, now)
            && Pruned(s.containers, now) == Pruned(s.allContainers, now)
  {
    RunKeepsInv(start, run);
    var s := After(start, run);
    PruneIsExact(s.server, s.allServer, s.serverCut, now);
    PruneIsExact(s.containers, s.allContainers, s.containerCut, now);
  }

  /** Every save and every query leaves just what pruning the full history at that moment would leave. */
  lemma SavingPrunes(start: int, run: seq<Action>, a: Action)
    requires Enabled(After(start, run), a)
    ensures var s' := After(start, run + [a]);
            && (a.PushServer? || a.PruneServer? ==> s'.server == Pruned(s'.allServer, a.at))
            && (a.EndBatch? || a.PruneContainers? ==> s'.containers == Pruned(s'.allContainers, a.at))
  {
    RunKeepsInv(start, run);
    Extend(start, run, a);
    var s, s' := After(start, run), After(start, run + [a]);
    if a.PushServer? {
      PushKeepsDeque(s.server, s.allServer, s.serverCut, s.flying[a.task]);
      PruneIsExact(s.server + [s.flying[a.task]], s'.allServer, s.serverCut, a.at);
    } else if a.PruneServer? {
      PruneIsExact(s.server, s.allServer, s.serverCut, a.at);
    } else if a.EndBatch? || a.PruneContainers? {
      PruneIsExact(s.containers, s.allContainers, s.containerCut, a.at);
    }
  }

  /** No row inside the window is ever dropped, in whatever order the rows were saved. */
  lemma {:induction false} FreshRowsAreKept(start: int, run: seq<Action>, i: nat)
    requires var s := After(start, run);
             i < |s.allContainers| && !IsOlder(s.allContainers[i], s.now - SESSION_WINDOW)
    ensures var s := After(start, run);
            && |s.allContainers| - |s.containers| <= i
            && s.containers[i - (|s.allContainers| - |s.containers|)] == s.allContainers[i]
  {
    RunKeepsInv(start, run);
  }

  lemma {:induction false} FreshServerRowsAreKept(start: int, run: seq<Action>, i: nat)
    requires var s := After(start, run);
             i < |s.allServer| && !IsOlder(s.allServer[i], s.now - SESSION_WINDOW)
    ensures var s := After(start, run);
            && |s.allServer| - |s.server| <= i
            && s.server[i - (|s.allServer| - |s.server|)] == s.allServer[i]
  {
    RunKeepsInv(start, run);
  }

  // ---------- what is stored is what was saved ----------

  lemma Extend(start: int, run: seq<Action>, a: Action)
    requires Enabled(After(start, run), a)
    ensures After(start, run + [a]) == Next(After(start, run), a)
  {
    assert (run + [a])[..|run|] == run;
  }

  /** A metric as a caller hands it in, without an id. */
  datatype Metric = Metric(time: Option<int>, name: string, value: real)

  function Appends(metrics: seq<Metric>): (actions: seq<Action>)
    ensures |actions| == |metrics|
  {
    seq(|metrics|, i requires 0 <= i < |metrics| => AppendRow(metrics[i].time, metrics[i].name, metrics[i].value))
  }

  /** The metrics with ids from `first` on. */
  function Numbered(metrics: seq<Metric>, first: int): (rows: seq<Row>)
    ensures |rows| == |metrics|
    ensures forall i :: 0 <= i < |metrics| ==>
              && rows[i].id == first + i && rows[i].time == metrics[i].time
              && rows[i].name == metrics[i].name && rows[i].value == metrics[i].value
  {
    seq(|metrics|, i requires 0 <= i < |metrics| => Row(first + i, metrics[i].time, metrics[i].name, metrics[i].value))
  }

  lemma OneAppendStores(start: int, run: seq<Action>, m: Metric)
    requires After(start, run).batching
    ensures var s, s' := After(start, run), After(start, run + [AppendRow(m.time, m.name, m.value)]);
            && s'.batching && s'.now == s.now && s'.sequence == s.sequence + 1
            && s'.allContainers == s.allContainers + [Row(s.sequence, m.time, m.name, m.value)]
            && s'.allServer == s.allServer && s'.flying == s.flying
  {
    Extend(start, run, AppendRow(m.time, m.name, m.value));
  }

  lemma OneMore(rows: seq<Row>, all: seq<Row>, n: nat)
    requires n < |rows|
    ensures all + rows[..n] + [rows[n]] == all + rows[..n + 1]
  {
  }

  lemma {:induction false} AppendsStore(start: int, run: seq<Action>, metrics: seq<Metric>, n: nat)
    requires After(start, run).batching && n <= |metrics|
    ensures var s, s' := After(start, run), After(start, run + Appends(metrics)[..n]);
            && s'.batching && s'.now == s.now && s'.sequence == s.sequence + n
            && s'.allContainers == s.allContainers + Numbered(metrics, s.sequence)[..n]
            && s'.allServer == s.allServer && s'.flying == s.flying
  {
    if n == 0 {
      assert run + Appends(metrics)[..0] == run;
    } else {
      AppendsStore(start, run, metrics, n - 1);
      assert run + Appends(metrics)[..n] == run + Appends(metrics)[..n - 1] + [Appends(metrics)[n - 1]];
      OneAppendStores(start, run + Appends(metrics)[..n - 1], metrics[n - 1]);
      OneMore(Numbered(metrics, After(start, run).sequence), After(start, run).allContainers, n - 1);
    }
  }

  /** A batch is stored row by row as it was handed in, with the next ids, and touches no server row. */
  lemma BatchIsStored(start: int, run: seq<Action>, metrics: seq<Metric>, at: int)
    requires !After(start, run).batching && After(start, run).now <= at
    ensures var s, s' := After(start, run), After(start, run + [BeginBatch] + Appends(metrics) + [EndBatch(at)]);
            && s'.allContainers == s.allContainers + Numbered(metrics, s.sequence)
            && s'.sequence == s.sequence + |metrics|
            && s'.allServer == s.allServer && s'.flying == s.flying
  {
    Extend(start, run, BeginBatch);
    AppendsStore(start, run + [BeginBatch], metrics, |metrics|);
    assert Appends(metrics)[..|metrics|] == Appends(metrics);
    var rows := Numbered(metrics, After(start, run).sequence);
    assert rows[..|metrics|] == rows;
    Extend(start, run + [BeginBatch] + Appends(metrics), EndBatch(at));
  }

  predicate Pushes(more: seq<Action>, task: nat) {
    exists i :: 0 <= i < |more| && more[i].PushServer? && more[i].task == task
  }

  lemma {:induction false} StaysInFlight(start: int, run: seq<Action>, task: nat, more: seq<Action>)
    requires task in After(start, run).flying && !Pushes(more, task)
    ensures var s, s' := After(start, run), After(start, run + more);
            task in s'.flying && s'.flying[task] == s.flying[task]
    decreases |more|
  {
    if more == [] {
      assert run + more == run;
    } else {
      var before, a := more[..|more| - 1], more[|more| - 1];
      StaysInFlight(start, run, task, before);
      assert run + more == run + before + [a];
      if Enabled(After(start, run + before), a) {
        Extend(start, run + before, a);
      } else {
        assert (run + more)[..|run + more| - 1] == run + before;
      }
    }
  }

  /** Whatever happens between taking the id and the lock, the row that is stored is the one that was handed in. */
  lemma ServerRowIsStored(
    start: int, run: seq<Action>, task: nat, time: Option<int>, value: real, more: seq<Action>, at: int)
    requires task !in After(start, run).flying && !Pushes(more, task)
    requires After(start, run + [ReserveServer(task, time, value)] + more).now <= at
    ensures var before := run + [ReserveServer(task, time, value)] + more;
            var s, s' := After(start, before), After(start, before + [PushServer(task, at)]);
            && s'.allServer == s.allServer + [Row(After(start, run).sequence, time, "", value)]
            && task !in s'.flying && s'.allContainers == s.allContainers
  {
    var reserve := ReserveServer(task, time, value);
    Extend(start, run, reserve);
    StaysInFlight(start, run + [reserve], task, more);
    Extend(start, run + [reserve] + more, PushServer(task, at));
  }

  // ---------- the window ----------

  /** The rows of the history that are inside the window. */
  function InWindow(rows: seq<Row>, cutoff: int): (result: seq<Row>)
    ensures |result| <= |rows|
  {
    if rows == [] then []
    else (if IsOlder(rows[0], cutoff) then [] else [rows[0]]) + InWindow(rows[1..], cutoff)
  }

  predicate NoneOlder(rows: seq<Row>, cutoff: int) {
    forall i :: 0 <= i < |rows| ==> !IsOlder(rows[i], cutoff)
  }

  lemma {:induction false} InWindowIsAll(rows: seq<Row>, cutoff: int)
    ensures InWindow(rows, cutoff) == rows <==> NoneOlder(rows, cutoff)
  {
    if rows != [] {
      InWindowIsAll(rows[1..], cutoff);
      assert rows == [rows[0]] + rows[1..];
      if IsOlder(rows[0], cutoff) {
        assert |InWindow(rows, cutoff)| < |rows|;
      }
    }
  }

  lemma {:induction false} InWindowSkips(rows: seq<Row>, cutoff: int)
    ensures InWindow(rows, cutoff) == InWindow(rows[FirstFresh(rows, cutoff)..], cutoff)
  {
    if rows == [] || !IsOlder(rows[0], cutoff) {
      assert rows[0..] == rows;
    } else {
      InWindowSkips(rows[1..], cutoff);
      var k := FirstFresh(rows[1..], cutoff);
      assert rows[k + 1..] == rows[1..][k..];
    }
  }

  /** The pruned rows are the window exactly when no older row stands behind the first fresh one. */
  lemma PrunedIsWindowExactly(history: seq<Row>, now: int)
    ensures var cutoff := now - SESSION_WINDOW;
            Pruned(history, now) == InWindow(history, cutoff) <==>
            NoneOlder(history[FirstFresh(history, cutoff)..], cutoff)
  {
    InWindowSkips(history, now - SESSION_WINDOW);
    InWindowIsAll(Pruned(history, now), now - SESSION_WINDOW);
  }

  /** A row without a readable time, saved behind a fresh one, stays in the session. */
  lemma OldRowCanStay(start: int, name: string, value: real) returns (run: seq<Action>)
    ensures var s := After(start, run);
            && |s.containers| == 2 && !s.batching && s.now == start
            && s.containers == Pruned(s.allContainers, s.now)
            && s.containers != InWindow(s.allContainers, s.now - SESSION_WINDOW)
  {
    var first, second := Row(1, Some(start), name, value), Row(2, None, name, value);
    run := [];
    Extend(start, run, BeginBatch);
    run := run + [BeginBatch];
    Extend(start, run, AppendRow(Some(start), name, value));
    run := run + [AppendRow(Some(start), name, value)];
    Extend(start, run, AppendRow(None, name, value));
    run := run + [AppendRow(None, name, value)];
    assert After(start, run).containers == After(start, run).allContainers == [first, second];
    FreshAt([first, second], start - SESSION_WINDOW, 0);
    Extend(start, run, EndBatch(start));
    run := run + [EndBatch(start)];
    assert IsOlder([first, second][1], start - SESSION_WINDOW);
    InWindowIsAll([first, second], start - SESSION_WINDOW);
  }

  predicate InTimeOrder(rows: seq<Row>) {
    && (forall i :: 0 <= i < |rows| ==> rows[i].time.Some?)
    && (forall i, j :: 0 <= i < j < |rows| ==> rows[i].time.value <= rows[j].time.value)
  }

  /** Saved in time order, every query is the newest matching rows of the window of the full history. */
  lemma QueriesSeeTheWindow(start: int, run: seq<Action>, now: int, part: string, limit: int)
    requires After(start, run).now <= now && InTimeOrder(After(start, run).allContainers)
    ensures var s := After(start, run);
            Newest(Pruned(s.containers, now), part, limit) ==
            Newest(InWindow(s.allContainers, now - SESSION_WINDOW), part, limit)
  {
    SessionIsHistoryFromFirstFresh(start, run, now);
    OrderedWindow(After(start, run).allContainers, now);
  }

  lemma ServerQueriesSeeTheWindow(start: int, run: seq<Action>, now: int, limit: int)
    requires After(start, run).now <= now && InTimeOrder(After(start, run).allServer)
    ensures var s := After(start, run);
            Newest(Pruned(s.server, now), "", limit) ==
            Newest(InWindow(s.allServer, now - SESSION_WINDOW), "", limit)
  {
    SessionIsHistoryFromFirstFresh(start, run, now);
    OrderedWindow(After(start, run).allServer, now);
  }

  lemma OrderedWindow(history: seq<Row>, now: int)
    requires InTimeOrder(history)
    ensures Pruned(history, now) == InWindow(history, now - SESSION_WINDOW)
  {
    var k := FirstFresh(history, now - SESSION_WINDOW);
    forall i | 0 <= i < |history| - k ensures !IsOlder(history[k..][i], now - SESSION_WINDOW) {
      assert history[k..][i] == history[k + i];
    }
    PrunedIsWindowExactly(history, now);
  }

  // ---------- ids ----------

  /** No two rows of the session have one id, in the same deque or across the two. */
  lemma {:induction false} IdsAreUnique(start: int, run: seq<Action>)
    ensures var s := After(start, run);
            && (forall i, j :: 0 <= i < j < |s.server| ==> s.server[i].id != s.server[j].id)
            && (forall i, j :: 0 <= i < j < |s.containers| ==> s.containers[i].id < s.containers[j].id)
            && (forall i, j :: 0 <= i < |s.server| && 0 <= j < |s.containers| ==> s.server[i].id != s.containers[j].id)
  {
    RunKeepsInv(start, run);
    var s := After(start, run);
    var d, e := |s.allServer| - |s.server|, |s.allContainers| - |s.containers|;
    assert forall i :: 0 <= i < |s.server| ==> s.server[i] == s.allServer[d + i];
    assert forall i :: 0 <= i < |s.containers| ==> s.containers[i] == s.allContainers[e + i];
  }

  ghost predicate ServerIncreases(s: State) {
    forall i, j :: 0 <= i < j < |s.allServer| ==> s.allServer[i].id < s.allServer[j].id
  }

  /** The stored ids increase, and no row in flight has been overtaken. */
  ghost predicate InOrder(s: State) {
    && ServerIncreases(s)
    && (forall i, t :: 0 <= i < |s.allServer| && t in s.flying ==> s.allServer[i].id < s.flying[t].id)
  }

  /** A row is stored while one with a smaller id is still in flight. */
  predicate Overtakes(s: State, a: Action) {
    a.PushServer? && Enabled(s, a) && exists t :: t in s.flying && s.flying[t].id < s.flying[a.task].id
  }

  predicate NeverOvertakes(start: int, run: seq<Action>) {
    run == [] ||
    (NeverOvertakes(start, run[..|run| - 1]) && !Overtakes(After(start, run[..|run| - 1]), run[|run| - 1]))
  }

  lemma OrderIsKept(s: State, a: Action)
    requires IdsOk(s) && InOrder(s) && Enabled(s, a) && !Overtakes(s, a)
    ensures InOrder(Next(s, a))
  {
    if a.PushServer? {
      forall t | t in s.flying && t != a.task ensures s.flying[a.task].id < s.flying[t].id {
        assert s.place[s.flying[t].id] == Flying(t);
      }
    }
  }

  lemma OvertakingBreaksOrder(s: State, a: Action)
    requires IdsOk(s) && Overtakes(s, a)
    ensures !InOrder(Next(s, a))
  {
    var t :| t in s.flying && s.flying[t].id < s.flying[a.task].id;
    assert t in Next(s, a).flying && Next(s, a).flying[t] == s.flying[t];
    assert Next(s, a).allServer[|s.allServer|] == s.flying[a.task];
  }

  lemma StoredStaysStored(s: State, a: Action, i: nat)
    requires Enabled(s, a) && i < |s.allServer|
    ensures i < |Next(s, a).allServer| && Next(s, a).allServer[i] == s.allServer[i]
  {
  }

  lemma FlyingIsStored(s: State, a: Action, t: nat)
    requires Enabled(s, a) && t in s.flying
    ensures var s' := Next(s, a);
            || (t in s'.flying && s'.flying[t] == s.flying[t])
            || s'.allServer == s.allServer + [s.flying[t]]
  {
  }

  /** An overtaken row stays so, or is stored out of order. */
  lemma OvertakenStays(s: State, a: Action, i: nat, t: nat)
    requires Enabled(s, a) && i < |s.allServer| && t in s.flying && s.allServer[i].id >= s.flying[t].id
    ensures !InOrder(Next(s, a))
  {
    StoredStaysStored(s, a, i);
    FlyingIsStored(s, a, t);
    assert t in Next(s, a).flying || Next(s, a).allServer[|s.allServer|] == s.flying[t];
  }

  lemma DisorderStays(s: State, a: Action)
    requires !InOrder(s) && Enabled(s, a)
    ensures !InOrder(Next(s, a))
  {
    if i, j :| 0 <= i < j < |s.allServer| && s.allServer[i].id >= s.allServer[j].id {
      StoredStaysStored(s, a, i);
      StoredStaysStored(s, a, j);
    } else {
      var i, t :| 0 <= i < |s.allServer| && t in s.flying && s.allServer[i].id >= s.flying[t].id;
      OvertakenStays(s, a, i, t);
    }
  }

  lemma {:induction false} OrderFollows(start: int, run: seq<Action>)
    ensures InOrder(After(start, run)) <==> NeverOvertakes(start, run)
  {
    if run != [] {
      var s, a := After(start, run[..|run| - 1]), run[|run| - 1];
      OrderFollows(start, run[..|run| - 1]);
      RunKeepsInv(start, run[..|run| - 1]);
      if Enabled(s, a) {
        if !InOrder(s) {
          DisorderStays(s, a);
        } else if Overtakes(s, a) {
          OvertakingBreaksOrder(s, a);
        } else {
          OrderIsKept(s, a);
        }
      }
    }
  }

  /**
   The ids of the stored server rows increase, and will however the rows in flight are stored,
   exactly if no row was ever stored before one with a smaller id. Once no row is in flight that
   is all there is to it.
   */
  lemma ServerIdsInOrderExactly(start: int, run: seq<Action>)
    ensures InOrder(After(start, run)) <==> NeverOvertakes(start, run)
    ensures After(start, run).flying == map[] ==>
              (ServerIncreases(After(start, run)) <==> NeverOvertakes(start, run))
  {
    OrderFollows(start, run);
  }

  /** Server rows can be stored against the order of their ids: the id is taken before the lock. */
  lemma ServerIdsCanBeOutOfOrder(start: int)
    ensures var run := [ReserveServer(0, Some(start), 0.0), ReserveServer(1, Some(start), 0.0),
                        PushServer(1, start), PushServer(0, start)];
            var s := After(start, run);
            |s.server| == 2 && s.server[0].id == 2 && s.server[1].id == 1
  {
    var a, b := ReserveServer(0, Some(start), 0.0), ReserveServer(1, Some(start), 0.0);
    var c, d := PushServer(1, start), PushServer(0, start);
    var first, second := Row(1, Some(start), "", 0.0), Row(2, Some(start), "", 0.0);
    assert [a, b, c, d][..3] == [a, b, c] && [a, b, c][..2] == [a, b] && [a, b][..1] == [a] && [a][..0] == [];
    assert After(start, []) == Init(start);
    assert After(start, [a]).flying == map[0 := first];
    assert After(start, [a, b]).flying == map[0 := first, 1 := second];
    FreshAt([second], start - SESSION_WINDOW, 0);
    assert After(start, [a, b, c]).server == [second];
    FreshAt([second, first], start - SESSION_WINDOW, 0);
    assert After(start, [a, b, c, d]).server == [second, first];
  }

  // ---------- the store as code ----------

  /** The deques and the counter. `run` is the history of calls since `start`. */
  class MetricStore {
    var server: seq<Row>
    var containers: seq<Row>
    var sequence: int
    ghost const start: int
    ghost var run: seq<Action>
    ghost var state: State

    ghost predicate Valid()
      reads this
    {
      && state == After(start, run)
      && server == state.server && containers == state.containers && sequence == state.sequence
    }

    constructor (ghost now: int)
      ensures Valid() && start == now && run == []
    {
      server, containers, sequence, start, run, state := [], [], 1, now, [], Init(now);
    }

    ghost method Note(a: Action)
      requires Enabled(state, a) && state == After(start, run)
      modifies this`run, this`state
      ensures run == old(run) + [a] && state == Next(old(state), a) && state == After(start, run)
    {
      run := run + [a];
      state := Next(state, a);
      assert run[..|run| - 1] == old(run);
    }

    method NextId() returns (id: int)
      modifies this`sequence
      ensures id == old(sequence) && sequence == old(sequence) + 1
    {
      id := sequence;
      sequence := sequence + 1;
    }

    /** The part of `save_server_metric` before its lock. */
    method ReserveServerRow(ghost task: nat, metric: Metric) returns (row: Row)
      requires Valid() && metric.name == "" && task !in state.flying
      modifies this`sequence, this`run, this`state
      ensures Valid() && run == old(run) + [ReserveServer(task, metric.time, metric.value)]
      ensures task in state.flying && state.flying[task] == row
    {
      Note(ReserveServer(task, metric.time, metric.value));
      var id := NextId();
      row := Row(id, metric.time, metric.name, metric.value);
    }

    /** The part of `save_server_metric` under its lock. */
    method PushServerRow(ghost task: nat, row: Row, at: int)
      requires Valid() && task in state.flying && state.flying[task] == row && state.now <= at
      modifies this`server, this`run, this`state
      ensures Valid() && run == old(run) + [PushServer(task, at)]
    {
      Note(PushServer(task, at));
      server := Prune(server + [row], at);
    }

    method AppendMetric(m: Metric)
      requires Valid() && state.batching
      modifies this`containers, this`sequence, this`run, this`state
      ensures Valid() && run == old(run) + [AppendRow(m.time, m.name, m.value)]
      ensures state.batching && state.now == old(state.now)
    {
      Note(AppendRow(m.time, m.name, m.value));
      var id := NextId();
      containers := containers + [Row(id, m.time, m.name, m.value)];
    }

    method SaveContainerMetricsBatch(metrics: seq<Metric>, at: int)
      requires Valid() && !state.batching && state.now <= at
      modifies this
      ensures Valid() && !state.batching
      ensures run == old(run) + [BeginBatch] + Appends(metrics) + [EndBatch(at)]
    {
      Note(BeginBatch);
      AppendMetrics(metrics);
      Note(EndBatch(at));
      containers := Prune(containers, at);
    }

    method AppendMetrics(metrics: seq<Metric>)
      requires Valid() && state.batching
      modifies this`containers, this`sequence, this`run, this`state
      ensures Valid() && run == old(run) + Appends(metrics)
      ensures state.batching && state.now == old(state.now)
    {
      for i := 0 to |metrics|
        invariant Valid() && state.batching && state.now == old(state.now)
        invariant run == old(run) + Appends(metrics)[..i]
      {
        AppendMetric(metrics[i]);
        assert Appends(metrics)[..i + 1] == Appends(metrics)[..i] + [Appends(metrics)[i]];
      }
      assert Appends(metrics)[..|metrics|] == Appends(metrics);
    }

    method PruneServerDeque(at: int)
      requires Valid() && state.now <= at
      modifies this`server, this`run, this`state
      ensures Valid() && run == old(run) + [PruneServer(at)] && state == Next(old(state), PruneServer(at))
      ensures server == Pruned(old(server), at)
    {
      Note(PruneServer(at));
      server := Prune(server, at);
    }

    method PruneContainerDeque(at: int)
      requires Valid() && !state.batching && state.now <= at
      modifies this`containers, this`run, this`state
      ensures Valid() && run == old(run) + [PruneContainers(at)] && state == Next(old(state), PruneContainers(at))
      ensures containers == Pruned(old(containers), at)
    {
      Note(PruneContainers(at));
      containers := Prune(containers, at);
    }

    method GetLastNServerMetrics(limit: int, at: int) returns (rows: seq<Row>)
      requires Valid() && state.now <= at
      modifies this`server, this`run, this`state
      ensures Valid() && run == old(run) + [PruneServer(at)]
      ensures rows == Newest(Pruned(old(state.allServer), at), "", limit)
      ensures InTimeOrder(old(state.allServer)) ==>
                rows == Newest(InWindow(old(state.allServer), at - SESSION_WINDOW), "", limit)
    {
      SessionIsHistoryFromFirstFresh(start, run, at);
      if InTimeOrder(state.allServer) {
        OrderedWindow(state.allServer, at);
      }
      PruneServerDeque(at);
      rows := LastN(server, "", limit);
    }

    method GetLastNContainerMetrics(appName: string, limit: int, at: int) returns (rows: seq<Row>)
      requires Valid() && !state.batching && state.now <= at
      modifies this`containers, this`run, this`state
      ensures Valid() && run == old(run) + [PruneContainers(at)]
      ensures rows == Newest(Pruned(old(state.allContainers), at), appName, limit)
      ensures InTimeOrder(old(state.allContainers)) ==>
                rows == Newest(InWindow(old(state.allContainers), at - SESSION_WINDOW), appName, limit)
    {
      SessionIsHistoryFromFirstFresh(start, run, at);
      if InTimeOrder(state.allContainers) {
        OrderedWindow(state.allContainers, at);
      }
      PruneContainerDeque(at);
      rows := LastN(containers, appName, limit);
    }

    /** Prunes both deques and says how many rows that removed. */
    method CleanupOldMetrics(at: int) returns (removed: int)
      requires Valid() && !state.batching && state.now <= at
      modifies this`server, this`containers, this`run, this`state
      ensures Valid() && run == old(run) + [PruneServer(at), PruneContainers(at)]
      ensures server == Pruned(old(server), at) && containers == Pruned(old(containers), at)
      ensures removed == |old(server)| - |server| + |old(containers)| - |containers|
    {
      var before := |server| + |containers|;
      PruneServerDeque(at);
      PruneContainerDeque(at);
      removed := before - |server| - |containers|;
    }
  }
}
