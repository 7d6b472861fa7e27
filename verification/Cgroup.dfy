/**
 CPU accounting from cgroup counters (agent/src/collector/cgroup.rs).

 The collector remembers the last reading of each monitored container and reports the growth of
 its CPU counter since then as a percentage of the elapsed time. A run is any sequence of
 refreshes, successful or not, and samplings, each reading some of the containers. The history
 keeps for each remembered container its readings since it was first read, and what was charged
 to it: percent times elapsed over 100. Instants are nanoseconds, counters microseconds.
 */
module Cgroup {
  import opened Common
  import opened Containers
  import Filter

  datatype Sample = Sample(cpuUsage: nat, memoryUsage: nat, memoryCache: nat, memoryLimit: nat)

  datatype Identity = Identity(name: Name, application: Option<int>, compose: Option<int>)

  /** A reading, or what is remembered of it. */
  datatype Reading = Reading(usage: nat, at: nat)

  // ---------- one reading ----------

  /** Whole microseconds between two instants, none if the clock did not move. */
  function Elapsed(from: nat, to: nat): nat {
    if to <= from then 0 else (to - from) / 1000
  }

  /** The whole microseconds in that many nanoseconds. */
  lemma ElapsedMeans(from: nat, to: nat)
    ensures from <= to ==> Elapsed(from, to) * 1000 <= to - from < (Elapsed(from, to) + 1) * 1000
    ensures to <= from ==> Elapsed(from, to) == 0
  {
  }

  function SaturatingSub(a: nat, b: nat): nat {
    if a <= b then 0 else a - b
  }

  function CpuPercent(prev: Reading, usage: nat, now: nat): real {
    var elapsed := Elapsed(prev.at, now);
    if elapsed == 0 then 0.0
    else SaturatingSub(usage, prev.usage) as real / elapsed as real * 100.0
  }

  function MemPercent(s: Sample): real {
    if s.memoryLimit == 0 then 0.0
    else SaturatingSub(s.memoryUsage, s.memoryCache) as real / s.memoryLimit as real * 100.0
  }

  datatype Row = Row(container: Name, name: Name, cpuPerc: real, memPerc: real,
                     application: Option<int>, compose: Option<int>)

  // ---------- the collector ----------

  datatype State = State(
    containers: map<Name, Identity>,
    previous: map<Name, Reading>,
    // history
    trail: map<Name, seq<Reading>>,
    charged: map<Name, real>)

  const INIT := State(map[], map[], map[], map[])

  function Admitted(filter: Filter.ContainerFilter, listing: seq<Summary>): map<Name, Identity> {
    if listing == [] then map[]
    else
      var before, last := Admitted(filter, listing[..|listing| - 1]), listing[|listing| - 1];
      if Filter.ShouldMonitor(filter, DisplayName(last)) then
        before[last.id := Identity(DisplayName(last), last.application, last.compose)]
      else before
  }

  function AfterRefresh(filter: Filter.ContainerFilter, s: State, listing: seq<Summary>): State {
    var containers := Admitted(filter, listing);
    State(containers,
          map id | id in s.previous && id in containers :: s.previous[id],
          map id | id in s.trail && id in containers :: s.trail[id],
          map id | id in s.charged && id in containers :: s.charged[id])
  }

  function PercentFor(previous: map<Name, Reading>, id: Name, usage: nat, now: nat): real {
    if id in previous then CpuPercent(previous[id], usage, now) else 0.0
  }

  function RowFor(containers: map<Name, Identity>, previous: map<Name, Reading>, id: Name, s: Sample, now: nat): Row
    requires id in containers
  {
    var who := containers[id];
    Row(Short(id), who.name, PercentFor(previous, id, s.cpuUsage, now), MemPercent(s), who.application, who.compose)
  }

  /** The readings of monitored containers. */
  function Read(containers: map<Name, Identity>, samples: map<Name, Sample>): set<Name> {
    set id | id in samples && id in containers
  }

  function Remembered(previous: map<Name, Reading>, read: set<Name>, samples: map<Name, Sample>, now: nat): map<Name, Reading>
    requires read <= samples.Keys
  {
    previous + map id | id in read :: Reading(samples[id].cpuUsage, now)
  }

  /** What a report charges to the container. */
  function Charge(percent: real, elapsed: nat): real {
    percent * elapsed as real / 100.0
  }

  function ChargedNow(s: State, id: Name, usage: nat, now: nat): real {
    (if id in s.charged then s.charged[id] else 0.0)
    + if id in s.previous then Charge(PercentFor(s.previous, id, usage, now), Elapsed(s.previous[id].at, now)) else 0.0
  }

  function TrailNow(s: State, id: Name, usage: nat, now: nat): seq<Reading> {
    (if id in s.trail then s.trail[id] else []) + [Reading(usage, now)]
  }

  function AfterSample(s: State, samples: map<Name, Sample>, now: nat): State {
    var read := Read(s.containers, samples);
    State(s.containers,
          Remembered(s.previous, read, samples, now),
          s.trail + map id | id in read :: TrailNow(s, id, samples[id].cpuUsage, now),
          s.charged + map id | id in read :: ChargedNow(s, id, samples[id].cpuUsage, now))
  }

  datatype Action = Refresh(listing: seq<Summary>) | RefreshFailed | Tick(samples: map<Name, Sample>, now: nat)

  function Next(filter: Filter.ContainerFilter, s: State, a: Action): State {
    match a
    case Refresh(listing) => AfterRefresh(filter, s, listing)
    case RefreshFailed => s
    case Tick(samples, now) => AfterSample(s, samples, now)
  }

  function After(filter: Filter.ContainerFilter, run: seq<Action>): State {
    if run == [] then INIT else Next(filter, After(filter, run[..|run| - 1]), run[|run| - 1])
  }

  // ---------- what the charges add up to ----------

  /** The charge from one reading to the next: the growth, if there is any time between them. */
  function Growth(a: Reading, b: Reading): int {
    if Elapsed(a.at, b.at) == 0 then 0 else SaturatingSub(b.usage, a.usage)
  }

  function TotalGrowth(trail: seq<Reading>): int {
    if |trail| < 2 then 0
    else TotalGrowth(trail[..|trail| - 1]) + Growth(trail[|trail| - 2], trail[|trail| - 1])
  }

  lemma ChargeIsGrowth(prev: Reading, usage: nat, now: nat)
    ensures Charge(CpuPercent(prev, usage, now), Elapsed(prev.at, now)) == Growth(prev, Reading(usage, now)) as real
  {
    var e := Elapsed(prev.at, now) as real;
    if e != 0.0 {
      var d := SaturatingSub(usage, prev.usage) as real;
      assert d / e * 100.0 * e == d * 100.0 by {
        Cancel(d, e);
      }
    }
  }

  lemma Cancel(d: real, e: real)
    requires e != 0.0
    ensures d / e * 100.0 * e == d * 100.0
  {
    assert d / e * e == d;
  }

  ghost predicate TrailOk(s: State, id: Name)
    requires id in s.previous
  {
    && id in s.trail && s.trail[id] != [] && s.trail[id][|s.trail[id]| - 1] == s.previous[id]
    && id in s.charged && s.charged[id] == TotalGrowth(s.trail[id]) as real
  }

  ghost predicate Inv(s: State) {
    && s.previous.Keys <= s.containers.Keys
    && s.trail.Keys == s.previous.Keys && s.charged.Keys == s.previous.Keys
    && forall id :: id in s.previous ==> TrailOk(s, id)
  }

  lemma RefreshKeepsInv(filter: Filter.ContainerFilter, s: State, listing: seq<Summary>)
    requires Inv(s)
    ensures Inv(AfterRefresh(filter, s, listing))
  {
    var s' := AfterRefresh(filter, s, listing);
    forall id | id in s'.previous ensures TrailOk(s', id) {
      assert TrailOk(s, id);
    }
  }

  lemma TrailGrows(trail: seq<Reading>, r: Reading)
    requires trail != []
    ensures TotalGrowth(trail + [r]) == TotalGrowth(trail) + Growth(trail[|trail| - 1], r)
  {
    assert (trail + [r])[..|trail|] == trail;
  }

  lemma TrailContinues(s: State, id: Name, r: Reading)
    requires id in s.previous && TrailOk(s, id)
    ensures TrailNow(s, id, r.usage, r.at) == s.trail[id] + [r]
    ensures ChargedNow(s, id, r.usage, r.at) == TotalGrowth(s.trail[id] + [r]) as real
  {
    TrailGrows(s.trail[id], r);
    ChargeIsGrowth(s.previous[id], r.usage, r.at);
  }

  lemma TrailBegins(s: State, id: Name, r: Reading)
    requires id !in s.trail && id !in s.previous && id !in s.charged
    ensures TrailNow(s, id, r.usage, r.at) == [r]
    ensures ChargedNow(s, id, r.usage, r.at) == TotalGrowth([r]) as real
  {
  }

  lemma SampledTrail(s: State, samples: map<Name, Sample>, now: nat, id: Name)
    requires Inv(s) && id in Read(s.containers, samples)
    ensures TrailOk(AfterSample(s, samples, now), id)
  {
    var r := Reading(samples[id].cpuUsage, now);
    if id in s.previous {
      TrailContinues(s, id, r);
    } else {
      TrailBegins(s, id, r);
    }
  }

  lemma SampleKeepsInv(s: State, samples: map<Name, Sample>, now: nat)
    requires Inv(s)
    ensures Inv(AfterSample(s, samples, now))
  {
    var s' := AfterSample(s, samples, now);
    forall id | id in s'.previous ensures TrailOk(s', id) {
      if id in Read(s.containers, samples) {
        SampledTrail(s, samples, now, id);
      } else {
        assert TrailOk(s, id);
      }
    }
  }

  lemma {:induction false} RunKeepsInv(filter: Filter.ContainerFilter, run: seq<Action>)
    ensures Inv(After(filter, run))
  {
    if run != [] {
      var s := After(filter, run[..|run| - 1]);
      RunKeepsInv(filter, run[..|run| - 1]);
      match run[|run| - 1]
      case Refresh(listing) => RefreshKeepsInv(filter, s, listing);
      case RefreshFailed =>
      case Tick(samples, now) => SampleKeepsInv(s, samples, now);
    }
  }

  // ---------- every run ----------

  /** Remembered readings belong to monitored containers. */
  lemma {:induction false} RememberedAreMonitored(filter: Filter.ContainerFilter, run: seq<Action>)
    ensures After(filter, run).previous.Keys <= After(filter, run).containers.Keys
  {
    RunKeepsInv(filter, run);
  }

  predicate NeverDrops(trail: seq<Reading>) {
    forall i :: 0 < i < |trail| ==> trail[i - 1].usage <= trail[i].usage
  }

  /** The counter does not grow between readings within one microsecond. */
  predicate MissesNothing(trail: seq<Reading>) {
    forall i :: 0 < i < |trail| && Elapsed(trail[i - 1].at, trail[i].at) == 0 ==> trail[i].usage <= trail[i - 1].usage
  }

  /** By how much the counter went back, in all. */
  function Dropped(trail: seq<Reading>): nat {
    if |trail| < 2 then 0
    else Dropped(trail[..|trail| - 1]) + SaturatingSub(trail[|trail| - 2].usage, trail[|trail| - 1].usage)
  }

  /** By how much it grew between readings within one microsecond, in all. */
  function Missed(trail: seq<Reading>): nat {
    if |trail| < 2 then 0
    else
      var a, b := trail[|trail| - 2], trail[|trail| - 1];
      Missed(trail[..|trail| - 1]) + if Elapsed(a.at, b.at) == 0 then SaturatingSub(b.usage, a.usage) else 0
  }

  lemma {:induction false} GrowthBalance(trail: seq<Reading>)
    requires trail != []
    ensures TotalGrowth(trail) == trail[|trail| - 1].usage - trail[0].usage + Dropped(trail) - Missed(trail)
    decreases |trail|
  {
    if |trail| > 1 {
      GrowthBalance(trail[..|trail| - 1]);
    }
  }

  lemma {:induction false} DroppedExactly(trail: seq<Reading>)
    ensures Dropped(trail) == 0 <==> NeverDrops(trail)
    decreases |trail|
  {
    if |trail| > 1 {
      var before := trail[..|trail| - 1];
      DroppedExactly(before);
      assert forall i :: 0 <= i < |before| ==> before[i] == trail[i];
      assert NeverDrops(trail) <==> NeverDrops(before) && trail[|trail| - 2].usage <= trail[|trail| - 1].usage;
    }
  }

  lemma {:induction false} MissedExactly(trail: seq<Reading>)
    ensures Missed(trail) == 0 <==> MissesNothing(trail)
    decreases |trail|
  {
    if |trail| > 1 {
      var before, a, b := trail[..|trail| - 1], trail[|trail| - 2], trail[|trail| - 1];
      MissedExactly(before);
      assert forall i :: 0 <= i < |before| ==> before[i] == trail[i];
      assert MissesNothing(trail) <==> MissesNothing(before) && (Elapsed(a.at, b.at) == 0 ==> b.usage <= a.usage);
    }
  }

  lemma ChargedIsGrowth(filter: Filter.ContainerFilter, run: seq<Action>, id: Name)
    requires id in After(filter, run).previous && id in After(filter, run).trail
    ensures var s := After(filter, run);
            && s.trail[id] != [] && s.trail[id][|s.trail[id]| - 1] == s.previous[id]
            && id in s.charged && s.charged[id] == TotalGrowth(s.trail[id]) as real
  {
    RunKeepsInv(filter, run);
    assert TrailOk(After(filter, run), id);
  }

  /**
   For a container kept by every refresh since it was first read: what was reported, percent
   times elapsed over 100, is the last counter value minus the first, plus what the counter went
   back, minus what it grew within a microsecond, however many ticks did not read it. So a
   counter that never goes back is never charged more than it grew, and just that exactly when
   it did not grow between readings that close; and without such growth it is never charged
   less, and just that exactly when it never went back.
   */
  lemma ChargesAreUsageExactly(filter: Filter.ContainerFilter, run: seq<Action>, id: Name)
    requires id in After(filter, run).previous && id in After(filter, run).trail
    ensures var s := After(filter, run);
            && s.trail[id] != [] && id in s.charged
            && var used := s.previous[id].usage - s.trail[id][0].usage;
            && s.charged[id] == (used + Dropped(s.trail[id]) - Missed(s.trail[id])) as real
            && (NeverDrops(s.trail[id]) ==>
                  s.charged[id] <= used as real && (s.charged[id] == used as real <==> MissesNothing(s.trail[id])))
            && (MissesNothing(s.trail[id]) ==>
                  s.charged[id] >= used as real && (s.charged[id] == used as real <==> NeverDrops(s.trail[id])))
  {
    ChargedIsGrowth(filter, run, id);
    var trail := After(filter, run).trail[id];
    GrowthBalance(trail);
    DroppedExactly(trail);
    MissedExactly(trail);
  }

  lemma ThreeActions(filter: Filter.ContainerFilter, a: Action, b: Action, c: Action)
    ensures After(filter, [a, b, c]) == Next(filter, Next(filter, Next(filter, INIT, a), b), c)
  {
    assert [a, b, c][..2] == [a, b] && [a, b][..1] == [a] && [a][..0] == [];
    assert After(filter, [a]) == Next(filter, INIT, a);
    assert After(filter, [a, b]) == Next(filter, Next(filter, INIT, a), b);
  }

  lemma ListedOnce(filter: Filter.ContainerFilter, who: Summary)
    requires Filter.ShouldMonitor(filter, DisplayName(who))
    ensures var s := AfterRefresh(filter, INIT, [who]);
            who.id in s.containers && s.trail == map[]
  {
    assert [who][..0] == [];
  }

  lemma ReadOnce(s: State, id: Name, r: Reading)
    requires id in s.containers
    ensures var s' := AfterSample(s, map[id := Sample(r.usage, 0, 0, 0)], r.at);
            && s'.containers == s.containers && id in s'.charged
            && id in s'.previous && s'.previous[id] == r
            && id in s'.trail && s'.trail[id] == (if id in s.trail then s.trail[id] else []) + [r]
  {
    assert id in Read(s.containers, map[id := Sample(r.usage, 0, 0, 0)]);
  }

  function ReadOnly(id: Name, r: Reading): Action {
    Tick(map[id := Sample(r.usage, 0, 0, 0)], r.at)
  }

  /** A container that is listed once and read twice. */
  lemma ReadTwice(filter: Filter.ContainerFilter, who: Summary, a: Reading, b: Reading)
    returns (run: seq<Action>)
    requires Filter.ShouldMonitor(filter, DisplayName(who))
    ensures var s := After(filter, run);
            && who.id in s.trail && s.trail[who.id] == [a, b]
            && who.id in s.previous && s.previous[who.id] == b
            && who.id in s.charged
  {
    run := [Refresh([who]), ReadOnly(who.id, a), ReadOnly(who.id, b)];
    var listed := AfterRefresh(filter, INIT, [who]);
    var first := Next(filter, listed, ReadOnly(who.id, a));
    ListedOnce(filter, who);
    ReadOnce(listed, who.id, a);
    ReadOnce(first, who.id, b);
    ThreeActions(filter, Refresh([who]), ReadOnly(who.id, a), ReadOnly(who.id, b));
  }

  /** Growth within a microsecond is not charged at all. */
  lemma GrowthCanBeMissed(filter: Filter.ContainerFilter, who: Summary, growth: nat)
    returns (run: seq<Action>)
    requires Filter.ShouldMonitor(filter, DisplayName(who)) && growth > 0
    ensures var s := After(filter, run);
            && who.id in s.previous && who.id in s.trail && s.trail[who.id] != [] && who.id in s.charged
            && s.previous[who.id].usage - s.trail[who.id][0].usage == growth
            && s.charged[who.id] == 0.0
  {
    var a, b := Reading(0, 0), Reading(growth, 999);
    run := ReadTwice(filter, who, a, b);
    ChargesAreUsageExactly(filter, run, who.id);
    assert [a, b][..1] == [a];
    assert Missed([a, b]) == growth && Dropped([a, b]) == 0;
  }

  /** A counter that goes back is charged nothing for that, so more than it grew. */
  lemma DropCanBeKept(filter: Filter.ContainerFilter, who: Summary, drop: nat)
    returns (run: seq<Action>)
    requires Filter.ShouldMonitor(filter, DisplayName(who)) && drop > 0
    ensures var s := After(filter, run);
            && who.id in s.previous && who.id in s.trail && s.trail[who.id] != [] && who.id in s.charged
            && s.previous[who.id].usage - s.trail[who.id][0].usage == 0 - drop
            && s.charged[who.id] == 0.0
  {
    var a, b := Reading(drop, 0), Reading(0, 1_000_000);
    run := ReadTwice(filter, who, a, b);
    ChargesAreUsageExactly(filter, run, who.id);
    assert [a, b][..1] == [a];
    assert Missed([a, b]) == 0 && Dropped([a, b]) == drop;
  }

  /** Ticks, failed refreshes and refreshes that list it with an admitted name do not forget a container. */
  predicate Keeps(filter: Filter.ContainerFilter, a: Action, id: Name) {
    a.Refresh? ==> id in Admitted(filter, a.listing)
  }

  /** While it is kept, the readings of a container only grow at the end: nothing of its past is lost. */
  lemma {:induction false} KeptWhileAdmitted(filter: Filter.ContainerFilter, run: seq<Action>, more: seq<Action>, id: Name)
    requires id in After(filter, run).trail
    requires forall i :: 0 <= i < |more| ==> Keeps(filter, more[i], id)
    ensures id in After(filter, run + more).trail
    ensures After(filter, run).trail[id] <= After(filter, run + more).trail[id]
    decreases |more|
  {
    if more == [] {
      assert run + more == run;
    } else {
      var before, a := more[..|more| - 1], more[|more| - 1];
      KeptWhileAdmitted(filter, run, before, id);
      assert (run + more)[..|run + more| - 1] == run + before;
      assert Keeps(filter, a, id);
      StepKeepsTrail(filter, After(filter, run + before), a, id);
    }
  }

  lemma StepKeepsTrail(filter: Filter.ContainerFilter, s: State, a: Action, id: Name)
    requires id in s.trail && Keeps(filter, a, id)
    ensures id in Next(filter, s, a).trail && s.trail[id] <= Next(filter, s, a).trail[id]
  {
  }

  lemma {:induction false} AdmittedExactly(filter: Filter.ContainerFilter, listing: seq<Summary>, id: Name)
    ensures id in Admitted(filter, listing) <==>
            exists i :: 0 <= i < |listing| && listing[i].id == id && Filter.ShouldMonitor(filter, DisplayName(listing[i]))
    decreases |listing|
  {
    if listing != [] {
      var before := listing[..|listing| - 1];
      AdmittedExactly(filter, before, id);
      assert forall i :: 0 <= i < |before| ==> before[i] == listing[i];
    }
  }

  /** The identity is that of the last admitted entry with the id. */
  lemma {:induction false} AdmittedIdentity(filter: Filter.ContainerFilter, listing: seq<Summary>, id: Name) returns (i: nat)
    requires id in Admitted(filter, listing)
    ensures i < |listing| && listing[i].id == id && Filter.ShouldMonitor(filter, DisplayName(listing[i]))
    ensures forall j :: i < j < |listing| ==>
              !(listing[j].id == id && Filter.ShouldMonitor(filter, DisplayName(listing[j])))
    ensures var who := Admitted(filter, listing)[id];
            && who.name == DisplayName(listing[i])
            && who.application == listing[i].application && who.compose == listing[i].compose
    decreases |listing|
  {
    var n := |listing| - 1;
    if listing[n].id == id && Filter.ShouldMonitor(filter, DisplayName(listing[n])) {
      i := n;
    } else {
      i := AdmittedIdentity(filter, listing[..n], id);
      assert forall j :: 0 <= j < n ==> listing[..n][j] == listing[j];
    }
  }

  // ---------- what a row reports ----------

  /** The percentage of a row, taken over the time since the last reading, is what the container is charged. */
  lemma RowReportsTheCharge(s: State, id: Name, sample: Sample, now: nat)
    requires id in s.containers && id in s.previous && id in s.charged
    ensures var row := RowFor(s.containers, s.previous, id, sample, now);
            && row.cpuPerc * Elapsed(s.previous[id].at, now) as real / 100.0 ==
               ChargedNow(s, id, sample.cpuUsage, now) - s.charged[id]
            && row.cpuPerc * Elapsed(s.previous[id].at, now) as real / 100.0 ==
               Growth(s.previous[id], Reading(sample.cpuUsage, now)) as real
  {
    ChargeIsGrowth(s.previous[id], sample.cpuUsage, now);
  }

  /** The rest of a row: who it is about, and the share of the memory limit used without the cache. */
  lemma RowMeans(s: State, id: Name, sample: Sample, now: nat)
    requires id in s.containers
    ensures var row, who := RowFor(s.containers, s.previous, id, sample, now), s.containers[id];
            && row.container <= id && |row.container| == (if |id| <= 12 then |id| else 12)
            && row.name == who.name && row.application == who.application && row.compose == who.compose
            && (id !in s.previous ==> row.cpuPerc == 0.0)
            && row.memPerc * sample.memoryLimit as real ==
               if sample.memoryLimit == 0 || sample.memoryUsage <= sample.memoryCache then 0.0
               else (sample.memoryUsage - sample.memoryCache) as real * 100.0
  {
    if sample.memoryLimit > 0 {
      Cancel(SaturatingSub(sample.memoryUsage, sample.memoryCache) as real, sample.memoryLimit as real);
    }
  }

  // ---------- the collector as code ----------

  class CgroupCollector {
    const filter: Filter.ContainerFilter
    var containers: map<Name, Identity>
    var previous: map<Name, Reading>
    ghost var run: seq<Action>
    ghost var state: State

    ghost predicate Valid()
      reads this
    {
      state == After(filter, run) && containers == state.containers && previous == state.previous
    }

    constructor (filter: Filter.ContainerFilter)
      ensures Valid() && this.filter == filter && run == []
    {
      this.filter := filter;
      containers, previous, run, state := map[], map[], [], INIT;
    }

    ghost method Note(a: Action)
      requires state == After(filter, run)
      modifies this`run, this`state
      ensures run == old(run) + [a] && state == Next(filter, old(state), a) && state == After(filter, run)
    {
      run := run + [a];
      state := Next(filter, state, a);
      assert run[..|run| - 1] == old(run);
    }

    /** A failed request returns before anything is changed. */
    method RefreshContainers(a: Action) returns (monitored: nat)
      requires Valid() && !a.Tick?
      modifies this
      ensures Valid() && run == old(run) + [a] && monitored == |containers|
      ensures a.RefreshFailed? ==> containers == old(containers) && previous == old(previous)
    {
      Note(a);
      if a.Refresh? {
        containers := CollectIdentities(filter, a.listing);
        previous := map id | id in previous && id in containers :: previous[id];
      }
      monitored := |containers|;
    }

    /** Reads what `samples` holds, in some order, and remembers it. */
    method TakeSample(samples: map<Name, Sample>, now: nat) returns (rows: seq<Row>, ghost order: seq<Name>)
      requires Valid()
      modifies this
      ensures Valid() && run == old(run) + [Tick(samples, now)]
      ensures Enumerates(order, Read(old(containers), samples))
      ensures RowsFor(rows, old(containers), old(previous), order, samples, now)
    {
      Note(Tick(samples, now));
      var latest;
      rows, latest, order := SampleAll(containers, previous, samples, now);
      previous := latest;
    }
  }

  method CollectIdentities(filter: Filter.ContainerFilter, listing: seq<Summary>) returns (found: map<Name, Identity>)
    ensures found == Admitted(filter, listing)
  {
    found := map[];
    assert listing[..0] == [];
    for i := 0 to |listing|
      invariant found == Admitted(filter, listing[..i])
    {
      assert listing[..i + 1][..i] == listing[..i];
      var name := DisplayName(listing[i]);
      if Filter.ShouldMonitor(filter, name) {
        found := found[listing[i].id := Identity(name, listing[i].application, listing[i].compose)];
      }
    }
    assert listing[..|listing|] == listing;
  }

  method SampleAll(containers: map<Name, Identity>, previous: map<Name, Reading>, samples: map<Name, Sample>, now: nat)
    returns (rows: seq<Row>, latest: map<Name, Reading>, ghost order: seq<Name>)
    ensures Enumerates(order, Read(containers, samples))
    ensures RowsFor(rows, containers, previous, order, samples, now)
    ensures latest == Remembered(previous, Read(containers, samples), samples, now)
  {
    rows, latest, order := [], previous, [];
    var left := samples.Keys;
    ghost var done: set<Name> := {};
    RememberNothing(previous, samples, now);
    while left != {}
      invariant left <= samples.Keys && done <= samples.Keys && done <= containers.Keys && done !! left
      invariant forall id :: id in samples && id in containers ==> id in done || id in left
      invariant Enumerates(order, done)
      invariant RowsFor(rows, containers, previous, order, samples, now)
      invariant latest == Remembered(previous, done, samples, now)
      decreases left
    {
      var id :| id in left;
      if id in containers {
        EnumerateMore(order, done, id);
        RememberMore(previous, done, samples, now, id);
        RowUnaffected(containers, previous, done, samples, now, id);
        rows := rows + [RowFor(containers, latest, id, samples[id], now)];
        latest := latest[id := Reading(samples[id].cpuUsage, now)];
        order := order + [id];
        done := done + {id};
      }
      left := left - {id};
    }
    assert done == Read(containers, samples);
  }

  ghost predicate RowsFor(rows: seq<Row>, containers: map<Name, Identity>, previous: map<Name, Reading>,
                          order: seq<Name>, samples: map<Name, Sample>, now: nat)
  {
    && |rows| == |order|
    && forall i :: 0 <= i < |order| ==>
         && order[i] in containers && order[i] in samples
         && rows[i] == RowFor(containers, previous, order[i], samples[order[i]], now)
  }

  lemma EnumerateMore(order: seq<Name>, ids: set<Name>, id: Name)
    requires Enumerates(order, ids) && id !in ids
    ensures Enumerates(order + [id], ids + {id})
  {
  }

  lemma RememberNothing(previous: map<Name, Reading>, samples: map<Name, Sample>, now: nat)
    ensures Remembered(previous, {}, samples, now) == previous
  {
  }

  lemma RememberMore(
    previous: map<Name, Reading>, done: set<Name>, samples: map<Name, Sample>, now: nat, id: Name)
    requires done <= samples.Keys && id in samples
    ensures Remembered(previous, done, samples, now)[id := Reading(samples[id].cpuUsage, now)] ==
            Remembered(previous, done + {id}, samples, now)
  {
  }

  /** The rows of one tick do not depend on each other. */
  lemma RowUnaffected(containers: map<Name, Identity>, previous: map<Name, Reading>,
                                         done: set<Name>, samples: map<Name, Sample>, now: nat, id: Name)
    requires done <= samples.Keys && id in samples && id in containers && id !in done
    ensures RowFor(containers, Remembered(previous, done, samples, now), id, samples[id], now) ==
            RowFor(containers, previous, id, samples[id], now)
  {
  }
}
