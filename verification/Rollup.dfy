/**
 Average and peak windows over container samples (agent/src/rollup.rs).

 Each container has an accumulator that is updated row by row; once one of them is full, all of
 them are emitted and forgotten. A run is any sequence of `add` and `flush` calls, with the map
 iterated in any order. `Summarises` says what an accumulator must hold for a list of rows
 without mentioning accumulation. Numbers are real numbers.
 */
module Rollup {
  import opened Common

  datatype Row = Row(
    time: string, container: string, name: string,
    cpu: real, mem: real, memPerc: real,
    memTotal: real, netIn: real, netOut: real, blockRead: real, blockWrite: real,
    application: Option<int>, compose: Option<int>)

  /** The quantities that are averaged. */
  datatype Gauge = Cpu | Mem | MemPerc

  function Value(g: Gauge, row: Row): real {
    match g case Cpu => row.cpu case Mem => row.mem case MemPerc => row.memPerc
  }

  // ---------- the accumulator ----------

  datatype Accumulator = Accumulator(
    count: nat,
    cpuSum: real, cpuMax: real, memSum: real, memMax: real, memPercSum: real, memPercMax: real,
    memTotal: real, netIn: real, netOut: real, blockRead: real, blockWrite: real,
    name: string, container: string)

  const EMPTY := Accumulator(0, 0.0, 0.0, 0.0, 0.0, 0.0, 0.0, 0.0, 0.0, 0.0, 0.0, 0.0, "", "")

  function Max(a: real, b: real): real {
    if a >= b then a else b
  }

  function Added(acc: Accumulator, row: Row): Accumulator {
    Accumulator(
      acc.count + 1,
      acc.cpuSum + row.cpu, Max(acc.cpuMax, row.cpu),
      acc.memSum + row.mem, Max(acc.memMax, row.mem),
      acc.memPercSum + row.memPerc, Max(acc.memPercMax, row.memPerc),
      row.memTotal, row.netIn, row.netOut, row.blockRead, row.blockWrite,
      row.name, row.container)
  }

  const PEAK_SUFFIX := "(peak)"

  function Average(acc: Accumulator, time: string): Row
    requires acc.count > 0
  {
    var n := acc.count as real;
    Row(time, acc.container, acc.name, acc.cpuSum / n, acc.memSum / n, acc.memPercSum / n,
        acc.memTotal, acc.netIn, acc.netOut, acc.blockRead, acc.blockWrite, None, None)
  }

  function Peak(acc: Accumulator, time: string): Row
    requires acc.count > 0
  {
    Average(acc, time).(name := acc.name + " " + PEAK_SUFFIX,
                        cpu := acc.cpuMax, mem := acc.memMax, memPerc := acc.memPercMax)
  }

  function Finish(acc: Accumulator, time: string): seq<Row> {
    if acc.count == 0 then [] else [Average(acc, time), Peak(acc, time)]
  }

  // ---------- what an accumulator stands for ----------

  function Sum(g: Gauge, rows: seq<Row>): real {
    if rows == [] then 0.0 else Sum(g, rows[..|rows| - 1]) + Value(g, rows[|rows| - 1])
  }

  function SumOf(g: Gauge, acc: Accumulator): real {
    match g case Cpu => acc.cpuSum case Mem => acc.memSum case MemPerc => acc.memPercSum
  }

  function MaxOf(g: Gauge, acc: Accumulator): real {
    match g case Cpu => acc.cpuMax case Mem => acc.memMax case MemPerc => acc.memPercMax
  }

  /** The least value that is neither negative nor below any row's. */
  ghost predicate IsPeak(g: Gauge, m: real, rows: seq<Row>) {
    && m >= 0.0
    && (forall i :: 0 <= i < |rows| ==> Value(g, rows[i]) <= m)
    && (m == 0.0 || exists i :: 0 <= i < |rows| && Value(g, rows[i]) == m)
  }

  predicate SameCounters(acc: Accumulator, row: Row) {
    && acc.memTotal == row.memTotal && acc.netIn == row.netIn && acc.netOut == row.netOut
    && acc.blockRead == row.blockRead && acc.blockWrite == row.blockWrite
    && acc.name == row.name && acc.container == row.container
  }

  ghost predicate Summarises(acc: Accumulator, rows: seq<Row>) {
    && acc.count == |rows|
    && (forall g :: SumOf(g, acc) == Sum(g, rows))
    && (forall g :: IsPeak(g, MaxOf(g, acc), rows))
    && (rows != [] ==> SameCounters(acc, rows[|rows| - 1]))
  }

  lemma AddedPeak(g: Gauge, acc: Accumulator, rows: seq<Row>, row: Row)
    requires IsPeak(g, MaxOf(g, acc), rows)
    ensures IsPeak(g, MaxOf(g, Added(acc, row)), rows + [row])
  {
    var m, more := MaxOf(g, acc), rows + [row];
    assert MaxOf(g, Added(acc, row)) == Max(m, Value(g, row));
    if m >= Value(g, row) {
      if m != 0.0 {
        var i :| 0 <= i < |rows| && Value(g, rows[i]) == m;
        assert Value(g, more[i]) == m;
      }
    } else {
      assert Value(g, more[|rows|]) == Value(g, row);
    }
  }

  lemma AddedSummarises(acc: Accumulator, rows: seq<Row>, row: Row)
    requires Summarises(acc, rows)
    ensures Summarises(Added(acc, row), rows + [row])
  {
    assert (rows + [row])[..|rows|] == rows;
    forall g ensures IsPeak(g, MaxOf(g, Added(acc, row)), rows + [row]) {
      AddedPeak(g, acc, rows, row);
    }
    forall g ensures SumOf(g, Added(acc, row)) == Sum(g, rows + [row]) {
      assert SumOf(g, acc) == Sum(g, rows);
    }
  }

  lemma EmptySummarises()
    ensures Summarises(EMPTY, [])
  {
    forall g ensures IsPeak(g, MaxOf(g, EMPTY), []) && SumOf(g, EMPTY) == Sum(g, []) {
    }
  }

  // ---------- runs ----------

  /** A pair of emitted rows, with the samples it was made of. */
  datatype Emission = Emission(container: string, samples: seq<Row>, average: Row, peak: Row)

  datatype State = State(
    windows: map<string, Accumulator>,
    recent: seq<Row>,            // all rows since the last flush
    inputs: seq<Row>,            // all rows ever added
    emitted: seq<Emission>)

  const INIT := State(map[], [], [], [])

  /** The rows of one container. */
  function Of(rows: seq<Row>, c: string): seq<Row> {
    if rows == [] then []
    else
      var last := rows[|rows| - 1];
      Of(rows[..|rows| - 1], c) + if last.container == c then [last] else []
  }

  function WithRow(windows: map<string, Accumulator>, row: Row): map<string, Accumulator> {
    var acc := if row.container in windows then windows[row.container] else EMPTY;
    windows[row.container := Added(acc, row)]
  }

  function WithRows(windows: map<string, Accumulator>, rows: seq<Row>): map<string, Accumulator> {
    if rows == [] then windows else WithRow(WithRows(windows, rows[..|rows| - 1]), rows[|rows| - 1])
  }

  predicate Ready(windows: map<string, Accumulator>, size: nat) {
    exists c :: c in windows && windows[c].count >= size
  }

  function Emissions(s: State, order: seq<string>, time: string): seq<Emission>
    requires forall i :: 0 <= i < |order| ==> order[i] in s.windows && s.windows[order[i]].count > 0
  {
    seq(|order|, i requires 0 <= i < |order| =>
      var acc := s.windows[order[i]];
      Emission(order[i], Of(s.recent, order[i]), Average(acc, time), Peak(acc, time)))
  }

  datatype Action = Add(rows: seq<Row>, order: seq<string>, time: string) | Flush(order: seq<string>, time: string)

  function AfterAdding(s: State, rows: seq<Row>): State {
    s.(windows := WithRows(s.windows, rows), recent := s.recent + rows, inputs := s.inputs + rows)
  }

  ghost predicate CanFlush(s: State, order: seq<string>) {
    Enumerates(order, s.windows.Keys) && forall c :: c in s.windows ==> s.windows[c].count > 0
  }

  function AfterFlush(s: State, order: seq<string>, time: string): State
    requires forall i :: 0 <= i < |order| ==> order[i] in s.windows && s.windows[order[i]].count > 0
  {
    s.(windows := map[], recent := [], emitted := s.emitted + Emissions(s, order, time))
  }

  ghost function Next(size: nat, s: State, a: Action): State {
    match a
    case Add(rows, order, time) =>
      var added := AfterAdding(s, rows);
      if !Ready(added.windows, size) then added
      else if CanFlush(added, order) then AfterFlush(added, order, time)
      else s
    case Flush(order, time) => if CanFlush(s, order) then AfterFlush(s, order, time) else s
  }

  /** The state after a run; an iteration order that is none changes nothing. */
  ghost function After(size: nat, run: seq<Action>): State {
    if run == [] then INIT else Next(size, After(size, run[..|run| - 1]), run[|run| - 1])
  }

  // ---------- what every call keeps ----------

  ghost predicate WindowsOk(s: State) {
    && (forall c :: c in s.windows ==> Summarises(s.windows[c], Of(s.recent, c)) && Of(s.recent, c) != [])
    && (forall c :: c !in s.windows ==> Of(s.recent, c) == [])
  }

  /** Everything emitted for one container. */
  function SamplesOf(emitted: seq<Emission>, c: string): seq<Row> {
    if emitted == [] then []
    else
      var last := emitted[|emitted| - 1];
      SamplesOf(emitted[..|emitted| - 1], c) + if last.container == c then last.samples else []
  }

  /** The inputs of a container are what was emitted for it and then what is still in its window. */
  ghost predicate NothingLost(s: State) {
    forall c :: Of(s.inputs, c) == SamplesOf(s.emitted, c) + Of(s.recent, c)
  }

  /** An emitted average times the number of samples behind it. */
  function Weight(g: Gauge, e: Emission): real {
    Value(g, e.average) * (|e.samples| as real)
  }

  ghost predicate EmissionOk(e: Emission) {
    && e.samples != []
    && (forall g :: Weight(g, e) == Sum(g, e.samples))
    && (forall g :: IsPeak(g, Value(g, e.peak), e.samples))
    && var last := e.samples[|e.samples| - 1];
    && e.average.time == e.peak.time
    && e.average.application == e.peak.application == None && e.average.compose == e.peak.compose == None
    && e.average.name == last.name && e.peak.name == last.name + " (peak)"
    && e.average.container == e.peak.container == last.container
    && e.average.memTotal == e.peak.memTotal == last.memTotal
    && e.average.netIn == e.peak.netIn == last.netIn && e.average.netOut == e.peak.netOut == last.netOut
    && e.average.blockRead == e.peak.blockRead == last.blockRead
    && e.average.blockWrite == e.peak.blockWrite == last.blockWrite
  }

  ghost predicate EmittedOk(s: State) {
    forall i :: 0 <= i < |s.emitted| ==> EmissionOk(s.emitted[i])
  }

  ghost predicate CountsBelow(s: State, size: nat) {
    forall c :: c in s.windows ==> s.windows[c].count < size
  }

  ghost predicate Inv(s: State, size: nat) {
    WindowsOk(s) && NothingLost(s) && EmittedOk(s) && CountsBelow(s, size)
  }

  lemma {:induction false} OfAppend(rows: seq<Row>, more: seq<Row>, c: string)
    ensures Of(rows + more, c) == Of(rows, c) + Of(more, c)
    decreases |more|
  {
    if more == [] {
      assert rows + more == rows;
    } else {
      OfAppend(rows, more[..|more| - 1], c);
      assert (rows + more)[..|rows + more| - 1] == rows + more[..|more| - 1];
    }
  }

  lemma RowKeepsWindows(s: State, row: Row)
    requires WindowsOk(s)
    ensures WindowsOk(s.(windows := WithRow(s.windows, row), recent := s.recent + [row]))
  {
    var s' := s.(windows := WithRow(s.windows, row), recent := s.recent + [row]);
    assert (s.recent + [row])[..|s.recent|] == s.recent;
    forall c
      ensures c in s'.windows ==> Summarises(s'.windows[c], Of(s'.recent, c)) && Of(s'.recent, c) != []
      ensures c !in s'.windows ==> Of(s'.recent, c) == []
    {
      if c == row.container {
        EmptySummarises();
        AddedSummarises(if c in s.windows then s.windows[c] else EMPTY, Of(s.recent, c), row);
      } else {
        assert Of(s'.recent, c) == Of(s.recent, c);
      }
    }
  }

  lemma {:induction false} RowsKeepWindows(s: State, rows: seq<Row>)
    requires WindowsOk(s)
    ensures WindowsOk(s.(windows := WithRows(s.windows, rows), recent := s.recent + rows))
    decreases |rows|
  {
    if rows == [] {
      assert s.recent + rows == s.recent;
    } else {
      var before := rows[..|rows| - 1];
      RowsKeepWindows(s, before);
      RowKeepsWindows(s.(windows := WithRows(s.windows, before), recent := s.recent + before), rows[|rows| - 1]);
      assert s.recent + before + [rows[|rows| - 1]] == s.recent + rows;
    }
  }

  lemma AddingLosesNothing(s: State, rows: seq<Row>)
    requires NothingLost(s)
    ensures NothingLost(AfterAdding(s, rows))
  {
    forall c ensures Of(s.inputs + rows, c) == SamplesOf(s.emitted, c) + Of(s.recent + rows, c) {
      OfAppend(s.inputs, rows, c);
      OfAppend(s.recent, rows, c);
    }
  }

  lemma MeanTimesCount(sum: real, n: nat)
    requires n > 0
    ensures sum / (n as real) * (n as real) == sum
  {
  }

  lemma FinishedIsFaithful(acc: Accumulator, rows: seq<Row>, c: string, time: string)
    requires Summarises(acc, rows) && rows != []
    ensures EmissionOk(Emission(c, rows, Average(acc, time), Peak(acc, time)))
  {
    var e := Emission(c, rows, Average(acc, time), Peak(acc, time));
    forall g ensures Weight(g, e) == Sum(g, rows) {
      MeanTimesCount(SumOf(g, acc), |rows|);
    }
    forall g ensures IsPeak(g, Value(g, Peak(acc, time)), rows) {
      assert IsPeak(g, MaxOf(g, acc), rows);
    }
  }

  lemma LastSamples(emitted: seq<Emission>, e: Emission, c: string)
    ensures SamplesOf(emitted + [e], c) == SamplesOf(emitted, c) + if e.container == c then e.samples else []
  {
    assert (emitted + [e])[..|emitted|] == emitted;
  }

  lemma Associate(a: seq<Row>, b: seq<Row>, c: seq<Row>)
    ensures a + (b + c) == (a + b) + c
  {
  }

  lemma {:induction false} SamplesAppend(emitted: seq<Emission>, more: seq<Emission>, c: string)
    ensures SamplesOf(emitted + more, c) == SamplesOf(emitted, c) + SamplesOf(more, c)
    decreases |more|
  {
    if more == [] {
      assert emitted + more == emitted;
    } else {
      var before, last := more[..|more| - 1], more[|more| - 1];
      var samples := if last.container == c then last.samples else [];
      SamplesAppend(emitted, before, c);
      assert emitted + more == (emitted + before) + [last];
      LastSamples(emitted + before, last, c);
      Associate(SamplesOf(emitted, c), SamplesOf(before, c), samples);
    }
  }

  lemma WindowsCounted(s: State, c: string)
    requires WindowsOk(s) && c in s.windows
    ensures s.windows[c].count > 0
  {
    assert Summarises(s.windows[c], Of(s.recent, c));
  }

  lemma LastEmission(s: State, order: seq<string>, time: string)
    requires order != [] && forall i :: 0 <= i < |order| ==> order[i] in s.windows && s.windows[order[i]].count > 0
    ensures var es, n := Emissions(s, order, time), |order| - 1;
            && es[..n] == Emissions(s, order[..n], time)
            && es[n].container == order[n] && es[n].samples == Of(s.recent, order[n])
  {
  }

  lemma InPrefix(order: seq<string>, c: string)
    requires order != []
    ensures c in order <==> c in order[..|order| - 1] || c == order[|order| - 1]
  {
    assert order == order[..|order| - 1] + [order[|order| - 1]];
  }

  /** Emissions of distinct containers: the samples of `c` come from the one emission for it. */
  lemma {:induction false} SamplesOfOne(s: State, order: seq<string>, time: string, c: string)
    requires forall i :: 0 <= i < |order| ==> order[i] in s.windows && s.windows[order[i]].count > 0
    requires forall i, j :: 0 <= i < j < |order| ==> order[i] != order[j]
    ensures SamplesOf(Emissions(s, order, time), c) == if c in order then Of(s.recent, c) else []
    decreases |order|
  {
    if order != [] {
      SamplesOfOne(s, order[..|order| - 1], time, c);
      LastEmission(s, order, time);
      InPrefix(order, c);
    }
  }

  /** The emissions of a flush carry what is in the window of a container. */
  lemma FlushedSamples(s: State, order: seq<string>, time: string, c: string)
    requires WindowsOk(s) && CanFlush(s, order)
    ensures SamplesOf(Emissions(s, order, time), c) == Of(s.recent, c)
  {
    SamplesOfOne(s, order, time, c);
  }

  lemma FlushKeepsSamples(s: State, order: seq<string>, time: string, c: string)
    requires WindowsOk(s) && NothingLost(s) && CanFlush(s, order)
    ensures Of(s.inputs, c) == SamplesOf(s.emitted + Emissions(s, order, time), c)
  {
    FlushedSamples(s, order, time, c);
    SamplesAppend(s.emitted, Emissions(s, order, time), c);
  }

  lemma FlushLosesNothing(s: State, order: seq<string>, time: string)
    requires WindowsOk(s) && NothingLost(s) && CanFlush(s, order)
    ensures NothingLost(AfterFlush(s, order, time))
  {
    var s' := AfterFlush(s, order, time);
    assert s'.inputs == s.inputs && s'.emitted == s.emitted + Emissions(s, order, time) && s'.recent == [];
    forall c ensures Of(s'.inputs, c) == SamplesOf(s'.emitted, c) + Of(s'.recent, c) {
      FlushKeepsSamples(s, order, time, c);
      assert Of([], c) == [];
    }
  }

  lemma FlushEmitsFaithfully(s: State, order: seq<string>, time: string)
    requires WindowsOk(s) && EmittedOk(s) && CanFlush(s, order)
    ensures EmittedOk(AfterFlush(s, order, time))
  {
    forall i | 0 <= i < |order| ensures EmissionOk(Emissions(s, order, time)[i]) {
      FinishedIsFaithful(s.windows[order[i]], Of(s.recent, order[i]), order[i], time);
    }
  }

  lemma StepKeepsInv(size: nat, s: State, a: Action)
    requires Inv(s, size)
    ensures Inv(Next(size, s, a), size)
  {
    var added := s;
    if a.Add? {
      added := AfterAdding(s, a.rows);
      RowsKeepWindows(s, a.rows);
      AddingLosesNothing(s, a.rows);
    }
    if CanFlush(added, a.order) {
      FlushLosesNothing(added, a.order, a.time);
      FlushEmitsFaithfully(added, a.order, a.time);
    }
  }

  lemma {:induction false} RunKeepsInv(size: nat, run: seq<Action>)
    ensures Inv(After(size, run), size)
  {
    if run != [] {
      RunKeepsInv(size, run[..|run| - 1]);
      StepKeepsInv(size, After(size, run[..|run| - 1]), run[|run| - 1]);
    }
  }

  // ---------- every run ----------

  /** A window is the count, sums, maxima and last values of its container's rows since the last flush. */
  lemma WindowsSummariseRecentRows(size: nat, run: seq<Action>, c: string)
    ensures var s := After(size, run);
            if c in s.windows then
              Summarises(s.windows[c], Of(s.recent, c)) && 0 < s.windows[c].count < size
            else Of(s.recent, c) == []
  {
    RunKeepsInv(size, run);
  }

  /** What a step adds to the emissions carries the time of the step. */
  lemma EmittedAtTheTime(size: nat, run: seq<Action>, a: Action)
    ensures var before, after := After(size, run).emitted, After(size, run + [a]).emitted;
            before <= after && forall i :: |before| <= i < |after| ==> after[i].average.time == after[i].peak.time == a.time
  {
    assert (run + [a])[..|run|] == run;
  }

  lemma {:induction false} CountedRows(s: State, rows: seq<Row>, c: string)
    requires WindowsOk(s)
    ensures var windows := AfterAdding(s, rows).windows;
            if c in windows then windows[c].count == |Of(s.recent + rows, c)| > 0 else Of(s.recent + rows, c) == []
  {
    RowsKeepWindows(s, rows);
    var s' := s.(windows := WithRows(s.windows, rows), recent := s.recent + rows);
    assert c in s'.windows ==> Summarises(s'.windows[c], Of(s'.recent, c));
  }

  /** Some container has `size` rows since the last flush, counting the new ones. */
  ghost predicate Full(size: nat, recent: seq<Row>, rows: seq<Row>) {
    exists c :: |Of(recent + rows, c)| >= size
  }

  /** With rows added, everything is emitted if one container has filled its window, and nothing otherwise. */
  lemma {:induction false} FlushesWhenFull(size: nat, run: seq<Action>, rows: seq<Row>, order: seq<string>, time: string)
    requires size > 0 && Enumerates(order, AfterAdding(After(size, run), rows).windows.Keys)
    ensures var s, s' := After(size, run), After(size, run + [Add(rows, order, time)]);
            if Full(size, s.recent, rows) then
              s'.windows == map[] && s'.recent == [] && |s'.emitted| == |s.emitted| + |order| > |s.emitted|
            else s'.emitted == s.emitted && s'.recent == s.recent + rows
  {
    var s := After(size, run);
    var windows := AfterAdding(s, rows).windows;
    RunKeepsInv(size, run);
    assert (run + [Add(rows, order, time)])[..|run|] == run;
    forall c
      ensures if c in windows then windows[c].count == |Of(s.recent + rows, c)| > 0 else Of(s.recent + rows, c) == []
    {
      CountedRows(s, rows, c);
    }
    assert CanFlush(AfterAdding(s, rows), order);
    assert Full(size, s.recent, rows) <==> Ready(windows, size);
  }

  /** The weights of what was emitted for one container. */
  function Emitted(g: Gauge, emitted: seq<Emission>, c: string): real {
    if emitted == [] then 0.0
    else
      var last := emitted[|emitted| - 1];
      Emitted(g, emitted[..|emitted| - 1], c)
      + if last.container == c then Weight(g, last) else 0.0
  }

  lemma {:induction false} SumAppend(g: Gauge, rows: seq<Row>, more: seq<Row>)
    ensures Sum(g, rows + more) == Sum(g, rows) + Sum(g, more)
    decreases |more|
  {
    if more == [] {
      assert rows + more == rows;
    } else {
      SumAppend(g, rows, more[..|more| - 1]);
      assert (rows + more)[..|rows + more| - 1] == rows + more[..|more| - 1];
    }
  }

  lemma {:induction false} EmittedIsSampleSum(g: Gauge, emitted: seq<Emission>, c: string)
    requires forall i :: 0 <= i < |emitted| ==> EmissionOk(emitted[i])
    ensures Emitted(g, emitted, c) == Sum(g, SamplesOf(emitted, c))
  {
    if emitted != [] {
      var before, last := emitted[..|emitted| - 1], emitted[|emitted| - 1];
      EmittedIsSampleSum(g, before, c);
      assert EmissionOk(last);
      if last.container == c {
        SumAppend(g, SamplesOf(before, c), last.samples);
      } else {
        assert SamplesOf(emitted, c) == SamplesOf(before, c);
      }
    }
  }

  /** Averages times their counts, and what is pending, add up to all that ever came in. */
  lemma Conservation(size: nat, run: seq<Action>, g: Gauge, c: string)
    ensures var s := After(size, run);
            Sum(g, Of(s.inputs, c)) ==
            Emitted(g, s.emitted, c) + if c in s.windows then SumOf(g, s.windows[c]) else 0.0
  {
    RunKeepsInv(size, run);
    var s := After(size, run);
    EmittedIsSampleSum(g, s.emitted, c);
    SumAppend(g, SamplesOf(s.emitted, c), Of(s.recent, c));
    assert Of(s.inputs, c) == SamplesOf(s.emitted, c) + Of(s.recent, c);
    if c in s.windows {
      assert Summarises(s.windows[c], Of(s.recent, c));
    }
  }

  lemma {:induction false} SumBelow(g: Gauge, rows: seq<Row>, m: real)
    requires forall i :: 0 <= i < |rows| ==> Value(g, rows[i]) <= m
    ensures Sum(g, rows) <= m * (|rows| as real)
  {
    if rows != [] {
      SumBelow(g, rows[..|rows| - 1], m);
      assert m * (|rows| as real) == m * ((|rows| - 1) as real) + m;
    }
  }

  lemma MeanBelow(mean: real, g: Gauge, rows: seq<Row>, m: real)
    requires rows != [] && mean * (|rows| as real) == Sum(g, rows)
    requires forall i :: 0 <= i < |rows| ==> Value(g, rows[i]) <= m
    ensures mean <= m
  {
    SumBelow(g, rows, m);
    CancelCount(mean, m, |rows| as real);
  }

  lemma CancelCount(a: real, b: real, n: real)
    requires n > 0.0 && a * n <= b * n
    ensures a <= b
  {
    assert (a - b) * n <= 0.0;
  }

  lemma AverageBelowPeak(size: nat, run: seq<Action>, g: Gauge, i: nat)
    requires i < |After(size, run).emitted|
    ensures var e := After(size, run).emitted[i]; Value(g, e.average) <= Value(g, e.peak)
  {
    RunKeepsInv(size, run);
    var e := After(size, run).emitted[i];
    assert EmissionOk(e);
    EmissionMeanBelow(e, g);
  }

  lemma EmissionMeanBelow(e: Emission, g: Gauge)
    requires EmissionOk(e)
    ensures Value(g, e.average) <= Value(g, e.peak)
  {
    assert Weight(g, e) == Sum(g, e.samples) && IsPeak(g, Value(g, e.peak), e.samples);
    MeanBelow(Value(g, e.average), g, e.samples, Value(g, e.peak));
  }

  /** The accumulator starts at zero, so the peak is a sample's value exactly when one is not negative. */
  lemma PeakIsSampledExactly(size: nat, run: seq<Action>, g: Gauge, i: nat)
    requires i < |After(size, run).emitted|
    ensures var e := After(size, run).emitted[i];
            (exists k :: 0 <= k < |e.samples| && Value(g, e.samples[k]) == Value(g, e.peak)) <==>
            (exists k :: 0 <= k < |e.samples| && Value(g, e.samples[k]) >= 0.0)
  {
    RunKeepsInv(size, run);
    var e := After(size, run).emitted[i];
    assert EmissionOk(e) && IsPeak(g, Value(g, e.peak), e.samples);
    if k :| 0 <= k < |e.samples| && Value(g, e.samples[k]) >= 0.0 {
      assert Value(g, e.samples[k]) <= Value(g, e.peak);
    }
  }

  /** A window of negative samples reports a peak of zero, which none of them has. */
  lemma PeakCanBeUnsampled(row: Row, g: Gauge, time: string) returns (run: seq<Action>)
    requires Value(g, row) < 0.0
    ensures var s := After(1, run);
            && |s.emitted| == 1 && s.emitted[0].samples == [row] && Value(g, s.emitted[0].peak) == 0.0
  {
    var c := row.container;
    run := [Add([row], [c], time)];
    assert run[..0] == [] && [row][..0] == [];
    assert WithRows(map[], []) == map[];
    var added := AfterAdding(INIT, [row]);
    assert added.windows == map[c := Added(EMPTY, row)];
    assert added.windows[c].count >= 1;
    assert CanFlush(added, [c]);
    assert added.recent == [row];
    assert After(1, []) == INIT;
    assert After(1, run) == AfterFlush(added, [c], time);
    assert Of([row], c) == [row];
  }

  // ---------- the rollup as code ----------

  class Windows {
    var windows: map<string, Accumulator>
    const windowSize: nat
    ghost var run: seq<Action>
    ghost var state: State

    ghost predicate Valid()
      reads this
    {
      windowSize >= 1 && state == After(windowSize, run) && windows == state.windows
    }

    constructor (size: nat)
      ensures Valid() && run == [] && windowSize == if size < 1 then 1 else size
    {
      windows := map[];
      windowSize := if size < 1 then 1 else size;
      run, state := [], INIT;
    }

    ghost method Note(a: Action)
      requires state == After(windowSize, run)
      modifies this`run, this`state
      ensures run == old(run) + [a] && state == Next(windowSize, old(state), a) && state == After(windowSize, run)
    {
      run := run + [a];
      state := Next(windowSize, state, a);
      assert run[..|run| - 1] == old(run);
    }

    method AddRows(rows: seq<Row>)
      modifies this`windows
      ensures windows == WithRows(old(windows), rows)
    {
      assert rows[..0] == [];
      for i := 0 to |rows|
        invariant windows == WithRows(old(windows), rows[..i])
      {
        assert rows[..i + 1][..i] == rows[..i];
        var row := rows[i];
        var acc := if row.container in windows then windows[row.container] else EMPTY;
        windows := windows[row.container := Added(acc, row)];
      }
      assert rows[..|rows|] == rows;
    }

    /** Finishes every window in some order of the map, then clears it. */
    method Drain(time: string) returns (out: seq<Row>, ghost order: seq<string>)
      modifies this`windows
      ensures windows == map[]
      ensures Enumerates(order, old(windows).Keys) && out == FinishAll(old(windows), order, time)
    {
      out, order := [], [];
      var left := windows.Keys;
      while left != {}
        invariant left <= windows.Keys && windows == old(windows)
        invariant forall i :: 0 <= i < |order| ==> order[i] in windows && order[i] !in left
        invariant forall i, j :: 0 <= i < j < |order| ==> order[i] != order[j]
        invariant forall c :: c in windows ==> c in left || c in order
        invariant out == FinishAll(windows, order, time)
        decreases |left|
      {
        var c :| c in left;
        out := out + Finish(windows[c], time);
        FinishOneMore(windows, order, c, time);
        order := order + [c];
        left := left - {c};
      }
      windows := map[];
    }

    method AddAndMaybeFlush(rows: seq<Row>, time: string) returns (out: seq<Row>, ghost order: seq<string>)
      requires Valid()
      modifies this
      ensures Valid() && run == old(run) + [Add(rows, order, time)]
      ensures state.emitted == old(state.emitted) + state.emitted[|old(state.emitted)|..]
      ensures out == RowsOf(state.emitted[|old(state.emitted)|..]) && StampedPairs(out, time)
    {
      ghost var added := AfterAdding(state, rows);
      RunKeepsInv(windowSize, run);
      RowsKeepWindows(state, rows);
      AddRows(rows);
      var ready := IsReady();
      if !ready {
        out, order := [], [];
        Note(Add(rows, order, time));
        assert state.emitted[|old(state.emitted)|..] == [] && RowsOf([]) == [];
        return;
      }
      out, order := Drain(time);
      FlushedRows(added, order, time);
      Note(Add(rows, order, time));
      Behind(old(state.emitted), Emissions(added, order, time));
    }

    method IsReady() returns (ready: bool)
      ensures ready == Ready(windows, windowSize)
    {
      var left := windows.Keys;
      while left != {}
        invariant left <= windows.Keys
        invariant forall c :: c in windows && c !in left ==> windows[c].count < windowSize
        decreases |left|
      {
        var c :| c in left;
        if windows[c].count >= windowSize {
          return true;
        }
        left := left - {c};
      }
      return false;
    }

    method FlushAll(time: string) returns (out: seq<Row>, ghost order: seq<string>)
      requires Valid()
      modifies this
      ensures Valid() && run == old(run) + [Flush(order, time)]
      ensures windows == map[]
      ensures out == RowsOf(state.emitted[|old(state.emitted)|..]) && StampedPairs(out, time)
    {
      RunKeepsInv(windowSize, run);
      out, order := Drain(time);
      FlushedRows(state, order, time);
      Behind(state.emitted, Emissions(state, order, time));
      Note(Flush(order, time));
    }
  }

  function FinishAll(windows: map<string, Accumulator>, order: seq<string>, time: string): seq<Row>
    requires forall i :: 0 <= i < |order| ==> order[i] in windows
  {
    if order == [] then []
    else FinishAll(windows, order[..|order| - 1], time) + Finish(windows[order[|order| - 1]], time)
  }

  lemma FinishOneMore(windows: map<string, Accumulator>, order: seq<string>, c: string, time: string)
    requires c in windows && forall i :: 0 <= i < |order| ==> order[i] in windows
    ensures FinishAll(windows, order + [c], time) == FinishAll(windows, order, time) + Finish(windows[c], time)
  {
    assert (order + [c])[..|order|] == order;
  }

  lemma WindowsCanFlush(s: State, order: seq<string>)
    requires WindowsOk(s) && Enumerates(order, s.windows.Keys)
    ensures CanFlush(s, order)
  {
    forall c | c in s.windows ensures s.windows[c].count > 0 {
      WindowsCounted(s, c);
    }
  }

  function RowsOf(emissions: seq<Emission>): seq<Row> {
    if emissions == [] then []
    else
      var last := emissions[|emissions| - 1];
      RowsOf(emissions[..|emissions| - 1]) + [last.average, last.peak]
  }

  /** An average and its peak for each container, all with the given time. */
  predicate StampedPairs(rows: seq<Row>, time: string) {
    && |rows| % 2 == 0
    && (forall i :: 0 <= i < |rows| ==> rows[i].time == time)
  }

  /** The rows are the averages and peaks in turn. */
  lemma {:induction false} RowsAreThePairs(emissions: seq<Emission>)
    ensures |RowsOf(emissions)| == 2 * |emissions|
    ensures forall i :: 0 <= i < |emissions| ==>
              RowsOf(emissions)[2 * i] == emissions[i].average && RowsOf(emissions)[2 * i + 1] == emissions[i].peak
  {
    if emissions != [] {
      var before, last := emissions[..|emissions| - 1], emissions[|emissions| - 1];
      RowsAreThePairs(before);
      forall i | 0 <= i < |emissions|
        ensures RowsOf(emissions)[2 * i] == emissions[i].average && RowsOf(emissions)[2 * i + 1] == emissions[i].peak
      {
        assert i < |before| ==> before[i] == emissions[i];
      }
    }
  }

  lemma {:induction false} RowsStamped(emissions: seq<Emission>, time: string)
    requires forall i :: 0 <= i < |emissions| ==> emissions[i].average.time == emissions[i].peak.time == time
    ensures StampedPairs(RowsOf(emissions), time)
  {
    if emissions != [] {
      RowsStamped(emissions[..|emissions| - 1], time);
    }
  }

  lemma {:induction false} EmittedRows(s: State, order: seq<string>, time: string)
    requires forall i :: 0 <= i < |order| ==> order[i] in s.windows && s.windows[order[i]].count > 0
    ensures RowsOf(Emissions(s, order, time)) == FinishAll(s.windows, order, time)
    decreases |order|
  {
    if order != [] {
      EmittedRows(s, order[..|order| - 1], time);
      assert Emissions(s, order, time)[..|order| - 1] == Emissions(s, order[..|order| - 1], time);
    }
  }

  /** Finishing the windows in some order gives the rows of the emissions in that order, with the time of the flush. */
  lemma FlushedRows(s: State, order: seq<string>, time: string)
    requires WindowsOk(s) && Enumerates(order, s.windows.Keys)
    ensures CanFlush(s, order)
    ensures FinishAll(s.windows, order, time) == RowsOf(Emissions(s, order, time))
    ensures StampedPairs(RowsOf(Emissions(s, order, time)), time)
  {
    WindowsCanFlush(s, order);
    EmittedRows(s, order, time);
    RowsStamped(Emissions(s, order, time), time);
  }

  lemma Behind(emitted: seq<Emission>, more: seq<Emission>)
    ensures (emitted + more)[|emitted|..] == more
  {
  }
}
