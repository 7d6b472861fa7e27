/**
 The status of an AI generation (src/db/repository/ai_generations.rs, src/services/ai/service.rs).

 The repository changes the row by guarded UPDATE statements, which any number of callers may
 issue in any order. The first part is about every sequence of such statements on one row. The
 second part adds the callers that matter: deployments, which read the row, claim it, build a
 compose project from what they read and then mark or release the row, interleaved with reviews
 and with each other.
 */
module AiGenerations {
  import opened Common

  datatype Status = Draft | Reviewed | Deploying | Deployed

  datatype Generation = Generation(organization: int, output: string, status: Status, compose: Option<int>)

  // ---------- the statements ----------

  datatype Call =
    | Review(org: int, output: string)
    | Claim(org: int)
    | Release(org: int)
    | MarkDeployed(org: int, compose: int)
    | DeleteCompose(compose: int)      // ON DELETE SET NULL

  /** The WHERE clause. */
  predicate Applies(g: Generation, call: Call) {
    match call
    case Review(org, _) => org == g.organization && g.status != Deployed
    case Claim(org) => org == g.organization && g.status == Reviewed
    case Release(org) => org == g.organization && g.status == Deploying
    case MarkDeployed(org, _) => org == g.organization && g.status == Deploying
    case DeleteCompose(c) => g.compose == Some(c)
  }

  function Next(g: Generation, call: Call): Generation {
    if !Applies(g, call) then g
    else
      match call
      case Review(_, output) => g.(output := output, status := Reviewed)
      case Claim(_) => g.(status := Deploying)
      case Release(_) => g.(status := Reviewed)
      case MarkDeployed(_, c) => g.(status := Deployed, compose := Some(c))
      case DeleteCompose(_) => g.(compose := None)
  }

  /** The row after the first `n` calls. */
  function After(init: Generation, run: seq<Call>, n: nat): Generation
    requires n <= |run|
  {
    if n == 0 then init else Next(After(init, run, n - 1), run[n - 1])
  }

  /** A row as it is inserted. */
  predicate Created(g: Generation) {
    g.status == Draft && g.compose == None
  }

  /** The call at `i` changed the row. */
  predicate AppliedAt(init: Generation, run: seq<Call>, i: nat) {
    i < |run| && Applies(After(init, run, i), run[i])
  }

  lemma {:induction false} SamePrefix(init: Generation, run: seq<Call>, more: seq<Call>, n: nat)
    requires n <= |run|
    ensures After(init, run + more, n) == After(init, run, n)
  {
    if n > 0 {
      SamePrefix(init, run, more, n - 1);
    }
  }

  // ---------- every sequence of statements ----------

  predicate Frozen(before: Generation, after: Generation) {
    && after.status == Deployed && after.output == before.output && after.organization == before.organization
    && (after.compose == before.compose || after.compose == None)
  }

  /** DEPLOYED is final, with its output; the compose id can only be lost with the project itself. */
  lemma {:induction false} DeployedIsFinal(init: Generation, run: seq<Call>, i: nat, j: nat)
    requires i <= j <= |run| && After(init, run, i).status == Deployed
    ensures Frozen(After(init, run, i), After(init, run, j))
    decreases j - i
  {
    if i < j {
      DeployedIsFinal(init, run, i, j - 1);
    }
  }

  /** At most one MarkDeployed ever changes the row. */
  lemma MarkedOnce(init: Generation, run: seq<Call>, i: nat, j: nat)
    requires AppliedAt(init, run, i) && run[i].MarkDeployed?
    requires AppliedAt(init, run, j) && run[j].MarkDeployed?
    ensures i == j
  {
    if i < j {
      DeployedIsFinal(init, run, i + 1, j);
    } else if j < i {
      DeployedIsFinal(init, run, j + 1, i);
    }
  }

  /** The row was marked with the project at `i`, which was not deleted since. */
  ghost predicate MarkedSince(init: Generation, run: seq<Call>, n: nat, project: int, i: nat) {
    && i < n <= |run| && AppliedAt(init, run, i) && run[i].MarkDeployed? && run[i].compose == project
    && (forall j :: i < j < n ==> run[j] != DeleteCompose(project))
  }

  /** A compose id is there exactly while the row is marked with a project that was not deleted since. */
  lemma {:induction false} ComposeComesFromMark(init: Generation, run: seq<Call>, n: nat, project: int)
    requires Created(init) && n <= |run|
    ensures After(init, run, n).compose == Some(project) <==> exists i :: MarkedSince(init, run, n, project, i)
    ensures After(init, run, n).compose.Some? ==> After(init, run, n).status == Deployed
    decreases n
  {
    if n > 0 {
      ComposeComesFromMark(init, run, n - 1, project);
      var before, after := After(init, run, n - 1), After(init, run, n);
      if before.compose.Some? && before.compose.value != project {
        ComposeComesFromMark(init, run, n - 1, before.compose.value);
      }
      if after.compose == Some(project) {
        if before.compose == Some(project) {
          var i :| MarkedSince(init, run, n - 1, project, i);
          assert MarkedSince(init, run, n, project, i);
        } else {
          assert MarkedSince(init, run, n, project, n - 1);
        }
      }
      if i: nat :| MarkedSince(init, run, n, project, i) {
        if i < n - 1 {
          assert MarkedSince(init, run, n - 1, project, i);
          DeployedIsFinal(init, run, i + 1, n - 1);
        }
      }
    }
  }

  predicate Foreign(call: Call, org: int) {
    !call.DeleteCompose? && call.org != org
  }

  /** Statements for another organization never change the row, and nothing changes whose it is. */
  lemma {:induction false} ForeignCallsDoNothing(init: Generation, run: seq<Call>, n: nat)
    requires n <= |run|
    ensures After(init, run, n).organization == init.organization
    ensures n > 0 && Foreign(run[n - 1], init.organization) ==> After(init, run, n) == After(init, run, n - 1)
    decreases n
  {
    if n > 0 {
      ForeignCallsDoNothing(init, run, n - 1);
    }
  }

  /** The call takes the claim away from whoever has it. */
  predicate Unclaims(call: Call) {
    call.Review? || call.Release?
  }

  /** Some call strictly between `i` and `j` took the claim away. */
  ghost predicate UnclaimedBetween(init: Generation, run: seq<Call>, i: nat, j: nat) {
    exists k :: i < k < j && AppliedAt(init, run, k) && Unclaims(run[k])
  }

  /** Until then a claimed row is DEPLOYING, or DEPLOYED by the claim. */
  lemma {:induction false} ClaimHolds(init: Generation, run: seq<Call>, i: nat, j: nat)
    requires AppliedAt(init, run, i) && run[i].Claim? && i < j <= |run|
    requires !UnclaimedBetween(init, run, i, j)
    ensures After(init, run, j).status == Deploying || After(init, run, j).status == Deployed
    decreases j
  {
    if i < j - 1 {
      assert !UnclaimedBetween(init, run, i, j - 1);
      ClaimHolds(init, run, i, j - 1);
      assert !(AppliedAt(init, run, j - 1) && Unclaims(run[j - 1]));
    }
  }

  /** Between two successful claims there is a release or a review that took the first one away. */
  lemma ClaimsAreSeparated(init: Generation, run: seq<Call>, i: nat, j: nat)
    requires i < j && AppliedAt(init, run, i) && run[i].Claim? && AppliedAt(init, run, j) && run[j].Claim?
    ensures UnclaimedBetween(init, run, i, j)
  {
    if !UnclaimedBetween(init, run, i, j) {
      ClaimHolds(init, run, i, j);
    }
  }

  /** A row that is DEPLOYING was claimed, and the claim has not been taken away since. */
  lemma {:induction false} DeployingWasClaimed(init: Generation, run: seq<Call>, n: nat) returns (i: nat)
    requires Created(init) && n <= |run| && After(init, run, n).status == Deploying
    ensures i < n && AppliedAt(init, run, i) && run[i].Claim? && !UnclaimedBetween(init, run, i, n)
    decreases n
  {
    if AppliedAt(init, run, n - 1) && run[n - 1].Claim? {
      i := n - 1;
    } else {
      i := DeployingWasClaimed(init, run, n - 1);
      assert !(AppliedAt(init, run, n - 1) && Unclaims(run[n - 1]));
    }
  }

  /** Nothing is marked deployed without a claim that still stood. */
  lemma MarkFollowsClaim(init: Generation, run: seq<Call>, j: nat) returns (i: nat)
    requires Created(init) && AppliedAt(init, run, j) && run[j].MarkDeployed?
    ensures i < j && AppliedAt(init, run, i) && run[i].Claim? && !UnclaimedBetween(init, run, i, j)
  {
    i := DeployingWasClaimed(init, run, j);
  }

  /** No claim succeeded from `i` on. */
  ghost predicate UnclaimedSince(init: Generation, run: seq<Call>, i: nat, n: nat) {
    forall k :: i <= k < n && k < |run| ==> !(AppliedAt(init, run, k) && run[k].Claim?)
  }

  ghost predicate Reopened(init: Generation, run: seq<Call>, n: nat) {
    exists i :: 0 <= i < n && AppliedAt(init, run, i) && Unclaims(run[i]) && UnclaimedSince(init, run, i, n)
  }

  /** A row can be claimed exactly when it was reviewed or released and no claim succeeded since. */
  lemma {:induction false} ClaimableExactly(init: Generation, run: seq<Call>, n: nat)
    requires Created(init) && n <= |run|
    ensures After(init, run, n).status == Reviewed <==> Reopened(init, run, n)
    decreases n
  {
    if n > 0 {
      ClaimableExactly(init, run, n - 1);
      var last := n - 1;
      if AppliedAt(init, run, last) && Unclaims(run[last]) {
        assert UnclaimedSince(init, run, last, n);
      } else if AppliedAt(init, run, last) && run[last].Claim? {
        assert forall i :: 0 <= i < n ==> !UnclaimedSince(init, run, i, n) || i > last;
      } else {
        SameReopened(init, run, last);
        MarkNeedsDeploying(init, run, last);
      }
    }
  }

  lemma SameReopened(init: Generation, run: seq<Call>, last: nat)
    requires last < |run| && !(AppliedAt(init, run, last) && (Unclaims(run[last]) || run[last].Claim?))
    ensures Reopened(init, run, last + 1) <==> Reopened(init, run, last)
  {
    if Reopened(init, run, last + 1) {
      var i :| 0 <= i < last + 1 && AppliedAt(init, run, i) && Unclaims(run[i]) && UnclaimedSince(init, run, i, last + 1);
      assert UnclaimedSince(init, run, i, last);
    }
    if Reopened(init, run, last) {
      var i :| 0 <= i < last && AppliedAt(init, run, i) && Unclaims(run[i]) && UnclaimedSince(init, run, i, last);
      assert UnclaimedSince(init, run, i, last + 1);
    }
  }

  lemma MarkNeedsDeploying(init: Generation, run: seq<Call>, last: nat)
    requires last < |run|
    ensures AppliedAt(init, run, last) && run[last].MarkDeployed? ==> After(init, run, last).status == Deploying
  {
  }

  predicate ReviewedAt(init: Generation, run: seq<Call>, i: nat) {
    AppliedAt(init, run, i) && run[i].Review?
  }

  /** The last review that was applied, counted from 1; 0 if there was none. */
  function LastReview(init: Generation, run: seq<Call>, n: nat): (i: nat)
    requires n <= |run|
    ensures i <= n && (i > 0 ==> run[i - 1].Review?)
  {
    if n == 0 then 0 else if ReviewedAt(init, run, n - 1) then n else LastReview(init, run, n - 1)
  }

  lemma {:induction false} LastReviewMeans(init: Generation, run: seq<Call>, n: nat)
    requires n <= |run|
    ensures var i := LastReview(init, run, n);
            (i > 0 ==> ReviewedAt(init, run, i - 1)) && forall k :: i <= k < n ==> !ReviewedAt(init, run, k)
  {
    if n > 0 && !ReviewedAt(init, run, n - 1) {
      LastReviewMeans(init, run, n - 1);
    }
  }

  /** The output is the text of the last review that was applied, or the first text. */
  lemma {:induction false} OutputIsLastReview(init: Generation, run: seq<Call>, n: nat)
    requires n <= |run|
    ensures var i := LastReview(init, run, n);
            After(init, run, n).output == if i == 0 then init.output else run[i - 1].output
    decreases n
  {
    if n > 0 {
      OutputIsLastReview(init, run, n - 1);
    }
  }

  // ---------- the repository as code ----------

  class GenerationRow {
    var organization: int
    var output: string
    var status: Status
    var compose: Option<int>
    ghost const init: Generation
    ghost var run: seq<Call>

    ghost function Row(): Generation
      reads this
    {
      Generation(organization, output, status, compose)
    }

    ghost predicate Valid()
      reads this
    {
      Row() == After(init, run, |run|) && Created(init)
    }

    constructor (organization: int, output: string)
      ensures Valid() && run == []
      ensures Row() == Generation(organization, output, Draft, None)
    {
      this.organization, this.output, status, compose := organization, output, Draft, None;
      init, run := Generation(organization, output, Draft, None), [];
    }

    ghost method Note(call: Call)
      modifies this`run
      ensures run == old(run) + [call]
      ensures After(init, run, |run|) == Next(After(init, old(run), |old(run)|), call)
    {
      run := run + [call];
      SamePrefix(init, old(run), [call], |old(run)|);
    }

    method ReviewOutput(org: int, text: string) returns (updated: bool)
      requires Valid()
      modifies this
      ensures Valid() && run == old(run) + [Review(org, text)]
      ensures updated == Applies(old(Row()), Review(org, text))
    {
      Note(Review(org, text));
      updated := org == organization && status != Deployed;
      if updated {
        output, status := text, Reviewed;
      }
    }

    method ClaimForDeploy(org: int) returns (claimed: bool)
      requires Valid()
      modifies this
      ensures Valid() && run == old(run) + [Claim(org)]
      ensures claimed == Applies(old(Row()), Claim(org))
    {
      Note(Claim(org));
      claimed := org == organization && status == Reviewed;
      if claimed {
        status := Deploying;
      }
    }

    method ReleaseDeploy(org: int)
      requires Valid()
      modifies this
      ensures Valid() && run == old(run) + [Release(org)]
    {
      Note(Release(org));
      if org == organization && status == Deploying {
        status := Reviewed;
      }
    }

    method SetDeployed(org: int, project: int) returns (updated: bool)
      requires Valid()
      modifies this
      ensures Valid() && run == old(run) + [MarkDeployed(org, project)]
      ensures updated == Applies(old(Row()), MarkDeployed(org, project))
    {
      Note(MarkDeployed(org, project));
      updated := org == organization && status == Deploying;
      if updated {
        status, compose := Deployed, Some(project);
      }
    }
  }

  // ---------- deployments ----------

  /** How far a deployment is: it has read the row, it has claimed it, it has built its project. */
  datatype Deployment =
    | Fetched(seen: string)
    | Claimed(seen: string)
    | Built(seen: string, project: nat)

  predicate Holding(d: Deployment) {
    !d.Fetched?
  }

  /** All deployments are for the row's own organization, so the guards are about the status alone. */
  datatype World = World(
    output: string, status: Status, compose: Option<nat>,
    deployments: map<nat, Deployment>,
    projects: seq<string>)      // by project id, which is never used again: what it was built from

  predicate Fresh(w: World) {
    w.status == Draft && w.compose == None && w.deployments == map[]
  }

  datatype Event =
    | Reviews(text: string)
    | Fetch(d: nat)
    | Claims(d: nat)
    | Build(d: nat)
    | GiveUp(d: nat)          // an error: the project is deleted, the claim is released
    | Vanish(d: nat)          // the release fails or the process dies
    | Mark(d: nat)
    | Delete(project: nat)    // somebody deletes a project

  predicate Possible(w: World, e: Event) {
    match e
    case Reviews(_) => true
    case Fetch(d) => d !in w.deployments
    case Claims(d) => d in w.deployments && w.deployments[d].Fetched?
    case Build(d) => d in w.deployments && w.deployments[d].Claimed?
    case GiveUp(d) => d in w.deployments && Holding(w.deployments[d])
    case Vanish(d) => d in w.deployments
    case Mark(d) => d in w.deployments && w.deployments[d].Built?
    case Delete(p) => p < |w.projects|
  }

  /** The foreign key of the row is set to null when its project is deleted. */
  function WithoutProject(w: World, p: nat): World {
    w.(compose := if w.compose == Some(p) then None else w.compose)
  }

  function Step(w: World, e: Event): World {
    if !Possible(w, e) then w
    else
      match e
      case Reviews(text) => if w.status != Deployed then w.(output := text, status := Reviewed) else w
      case Fetch(d) =>
        if w.status == Reviewed then w.(deployments := w.deployments[d := Fetched(w.output)]) else w
      case Claims(d) =>
        if w.status == Reviewed then
          w.(status := Deploying, deployments := w.deployments[d := Claimed(w.deployments[d].seen)])
        else w.(deployments := w.deployments - {d})
      case Build(d) =>
        w.(deployments := w.deployments[d := Built(w.deployments[d].seen, |w.projects|)],
           projects := w.projects + [w.deployments[d].seen])
      case GiveUp(d) =>
        var released := w.(status := if w.status == Deploying then Reviewed else w.status,
                           deployments := w.deployments - {d});
        if w.deployments[d].Built? then WithoutProject(released, w.deployments[d].project) else released
      case Vanish(d) => w.(deployments := w.deployments - {d})
      case Mark(d) =>
        if w.status == Deploying then
          w.(status := Deployed, compose := Some(w.deployments[d].project), deployments := w.deployments - {d})
        else w.(deployments := w.deployments - {d})
      case Delete(p) => WithoutProject(w, p)
  }

  /** The statements an event issues on the row, which is in organization `org`. */
  function CallsOf(w: World, e: Event, org: int): seq<Call>
    requires Possible(w, e)
  {
    match e
    case Reviews(text) => [Review(org, text)]
    case Fetch(_) => []
    case Claims(_) => [Claim(org)]
    case Build(_) => []
    case GiveUp(d) =>
      (if w.deployments[d].Built? then [DeleteCompose(w.deployments[d].project)] else []) + [Release(org)]
    case Vanish(_) => []
    case Mark(d) => [MarkDeployed(org, w.deployments[d].project)]
    case Delete(p) => [DeleteCompose(p)]
  }

  function RowOf(w: World, org: int): Generation {
    Generation(org, w.output, w.status, if w.compose.Some? then Some(w.compose.value) else None)
  }

  /** Every event does to the row what its statements do. */
  lemma EventsAreCalls(w: World, e: Event, org: int)
    requires Possible(w, e)
    ensures var calls := CallsOf(w, e, org);
            RowOf(Step(w, e), org) == After(RowOf(w, org), calls, |calls|)
  {
    var calls, row := CallsOf(w, e, org), RowOf(w, org);
    assert |calls| > 0 ==> After(row, calls, 1) == Next(row, calls[0]);
    assert |calls| > 1 ==> After(row, calls, 2) == Next(Next(row, calls[0]), calls[1]);
  }

  function Reached(init: World, run: seq<Event>): World {
    if run == [] then init else Step(Reached(init, run[..|run| - 1]), run[|run| - 1])
  }

  /** A review that takes the claim away from the deployment that holds it. */
  predicate Steals(w: World, e: Event) {
    e.Reviews? && w.status == Deploying && exists d :: d in w.deployments && Holding(w.deployments[d])
  }

  predicate NeverSteals(init: World, run: seq<Event>) {
    run == [] || (NeverSteals(init, run[..|run| - 1]) && !Steals(Reached(init, run[..|run| - 1]), run[|run| - 1]))
  }

  ghost predicate Exclusive(w: World) {
    && (forall d, e :: d in w.deployments && e in w.deployments && Holding(w.deployments[d]) && Holding(w.deployments[e])
          ==> d == e)
    && (forall d :: d in w.deployments && Holding(w.deployments[d]) ==> w.status == Deploying)
  }

  lemma StealingBreaks(w: World, e: Event)
    requires Steals(w, e)
    ensures !Exclusive(Step(w, e))
  {
    var d :| d in w.deployments && Holding(w.deployments[d]);
    assert d in Step(w, e).deployments && Step(w, e).deployments[d] == w.deployments[d];
  }

  lemma StepKeepsExclusive(w: World, e: Event)
    requires Exclusive(w)
    ensures Exclusive(Step(w, e)) <==> !Steals(w, e)
  {
    if Steals(w, e) {
      StealingBreaks(w, e);
    }
  }

  /** The claim was exclusive after every event of the run. */
  ghost predicate AlwaysExclusive(init: World, run: seq<Event>) {
    && (run != [] ==> AlwaysExclusive(init, run[..|run| - 1]))
    && Exclusive(Reached(init, run))
  }

  lemma {:induction false} AlwaysMeansEachPrefix(init: World, run: seq<Event>, n: nat)
    requires AlwaysExclusive(init, run) && n <= |run|
    ensures Exclusive(Reached(init, run[..n]))
  {
    if n == |run| {
      assert run[..n] == run;
    } else {
      AlwaysMeansEachPrefix(init, run[..|run| - 1], n);
      assert run[..|run| - 1][..n] == run[..n];
    }
  }

  /** The claim is exclusive all along a run exactly if no review of the run takes it from its holder. */
  lemma {:induction false} ExclusiveExactly(init: World, run: seq<Event>)
    requires Fresh(init)
    ensures AlwaysExclusive(init, run) <==> NeverSteals(init, run)
  {
    if run != [] {
      ExclusiveExactly(init, run[..|run| - 1]);
      if AlwaysExclusive(init, run[..|run| - 1]) {
        StepKeepsExclusive(Reached(init, run[..|run| - 1]), run[|run| - 1]);
      }
    }
  }

  /**
   If no review takes the claim from its holder, there is one holder at a time, and its final
   mark succeeds, so no project is left behind by a lost race.
   */
  lemma {:induction false} ClaimIsExclusive(init: World, run: seq<Event>)
    requires Fresh(init) && NeverSteals(init, run)
    ensures Exclusive(Reached(init, run))
    ensures forall d :: Possible(Reached(init, run), Mark(d)) ==>
              var w, w' := Reached(init, run), Step(Reached(init, run), Mark(d));
              w'.status == Deployed && w'.compose == Some(w.deployments[d].project)
  {
    ExclusiveExactly(init, run);
  }

  lemma Extend(init: World, run: seq<Event>, e: Event)
    ensures Reached(init, run + [e]) == Step(Reached(init, run), e)
  {
    assert (run + [e])[..|run|] == run;
  }

  /** A deployment that gives up leaves the row to the next one, which claims it and can finish. */
  lemma {:induction false} GivenUpCanBeClaimed(init: World, run: seq<Event>, d: nat, e: nat)
    requires Fresh(init) && NeverSteals(init, run) && Possible(Reached(init, run), GiveUp(d))
    requires e !in Reached(init, run).deployments || e == d
    ensures var w := Reached(init, run + [GiveUp(d)]);
            && w.status == Reviewed && d !in w.deployments && w.output == Reached(init, run).output
            && w.compose == None
    ensures var w := Reached(init, run + [GiveUp(d)] + [Fetch(e)] + [Claims(e)]);
            && w.status == Deploying && e in w.deployments && w.deployments[e] == Claimed(w.output)
  {
    ExclusiveExactly(init, run);
    RunKeepsProjects(init, run);
    Extend(init, run, GiveUp(d));
    Extend(init, run + [GiveUp(d)], Fetch(e));
    Extend(init, run + [GiveUp(d)] + [Fetch(e)], Claims(e));
  }

  /** Any single such review lets a second deployment in beside the first, from every state with a holder. */
  lemma {:induction false} ReviewBreaksExclusion(init: World, run: seq<Event>, d: nat, e: nat, text: string)
    requires var w := Reached(init, run);
             && w.status == Deploying && d in w.deployments && Holding(w.deployments[d]) && e !in w.deployments
    ensures var w := Reached(init, run + [Reviews(text)] + [Fetch(e)] + [Claims(e)]);
            && d in w.deployments && Holding(w.deployments[d])
            && e in w.deployments && Holding(w.deployments[e]) && d != e
  {
    Extend(init, run, Reviews(text));
    Extend(init, run + [Reviews(text)], Fetch(e));
    Extend(init, run + [Reviews(text)] + [Fetch(e)], Claims(e));
  }

  /** And the first can then finish on the second's claim: the row says the new text, its project is of the old. */
  lemma {:induction false} StolenClaimMismatches(init: World, run: seq<Event>, d: nat, e: nat, text: string)
    requires var w := Reached(init, run);
             && w.status == Deploying && d in w.deployments && w.deployments[d].Built? && e !in w.deployments
             && w.deployments[d].seen != text
    ensures var w := Reached(init, run + [Reviews(text)] + [Fetch(e)] + [Claims(e)] + [Mark(d)]);
            && w.status == Deployed && w.output == text
            && w.compose == Some(Reached(init, run).deployments[d].project)
            && Reached(init, run).deployments[d].seen != w.output
            && e in w.deployments && Holding(w.deployments[e])
  {
    ReviewBreaksExclusion(init, run, d, e, text);
    Extend(init, run, Reviews(text));
    Extend(init, run + [Reviews(text)], Fetch(e));
    Extend(init, run + [Reviews(text)] + [Fetch(e)], Claims(e));
    Extend(init, run + [Reviews(text)] + [Fetch(e)] + [Claims(e)], Mark(d));
  }

  // ---------- is what was deployed what was reviewed? ----------

  /** A review that changes the text under a deployment that has already read it. */
  predicate Outdates(w: World, e: Event) {
    e.Reviews? && w.status != Deployed && e.text != w.output && w.deployments != map[]
  }

  predicate NeverOutdates(init: World, run: seq<Event>) {
    run == [] || (NeverOutdates(init, run[..|run| - 1]) && !Outdates(Reached(init, run[..|run| - 1]), run[|run| - 1]))
  }

  /** Every deployment has the present text. */
  ghost predicate UpToDate(w: World) {
    && (w.status != Deployed ==> forall d :: d in w.deployments ==> w.deployments[d].seen == w.output)
    && (w.compose.Some? ==> w.compose.value < |w.projects| && w.projects[w.compose.value] == w.output)
  }

  /** Nothing is read, claimed or built before the first review. */
  lemma {:induction false} NothingDeployedUnreviewed(init: World, run: seq<Event>)
    requires Fresh(init)
    ensures var w := Reached(init, run);
            w.status == Draft ==> w.deployments == map[] && w.projects == init.projects && w.output == init.output
  {
    if run != [] {
      NothingDeployedUnreviewed(init, run[..|run| - 1]);
    }
  }

  /** Projects are what they were built from, and only a deployed row has one. */
  ghost predicate ProjectsOk(w: World) {
    && (w.compose.Some? ==> w.status == Deployed && w.compose.value < |w.projects|)
    && (forall d :: d in w.deployments && w.deployments[d].Built? ==>
          w.deployments[d].project < |w.projects| && w.projects[w.deployments[d].project] == w.deployments[d].seen)
  }

  lemma StepKeepsProjects(w: World, e: Event)
    requires ProjectsOk(w)
    ensures ProjectsOk(Step(w, e))
  {
  }

  lemma StepKeepsUpToDate(w: World, e: Event)
    requires ProjectsOk(w) && UpToDate(w)
    ensures UpToDate(Step(w, e)) <==> !Outdates(w, e)
  {
    if Outdates(w, e) {
      var d :| d in w.deployments;
      assert Step(w, e).deployments[d].seen != Step(w, e).output;
    }
  }

  lemma {:induction false} RunKeepsProjects(init: World, run: seq<Event>)
    requires Fresh(init)
    ensures ProjectsOk(Reached(init, run))
  {
    if run != [] {
      RunKeepsProjects(init, run[..|run| - 1]);
      StepKeepsProjects(Reached(init, run[..|run| - 1]), run[|run| - 1]);
    }
  }

  ghost predicate AlwaysUpToDate(init: World, run: seq<Event>) {
    && (run != [] ==> AlwaysUpToDate(init, run[..|run| - 1]))
    && UpToDate(Reached(init, run))
  }

  /**
   All along a run every deployment has the row's text, and the project of a deployed row was
   built from it, exactly if no review changes the text while a deployment is under way.
   */
  lemma {:induction false} DeployedIsReviewed(init: World, run: seq<Event>)
    requires Fresh(init)
    ensures AlwaysUpToDate(init, run) <==> NeverOutdates(init, run)
  {
    if run != [] {
      DeployedIsReviewed(init, run[..|run| - 1]);
      RunKeepsProjects(init, run[..|run| - 1]);
      if AlwaysUpToDate(init, run[..|run| - 1]) {
        StepKeepsUpToDate(Reached(init, run[..|run| - 1]), run[|run| - 1]);
      }
    }
  }

  ghost predicate Settled(w: World, w': World) {
    && w'.status == Deployed && w'.output == w.output && w.projects <= w'.projects
    && (w'.compose == w.compose || w'.compose == None)
  }

  lemma {:induction false} DeployedStaysSettled(init: World, run: seq<Event>, more: seq<Event>)
    requires Reached(init, run).status == Deployed
    ensures Settled(Reached(init, run), Reached(init, run + more))
    decreases |more|
  {
    if more == [] {
      assert run + more == run;
    } else {
      var before, e := more[..|more| - 1], more[|more| - 1];
      DeployedStaysSettled(init, run, before);
      assert run + more == run + before + [e];
      Extend(init, run + before, e);
    }
  }

  /**
   For good, the project of the row agrees with its text exactly when the text the deployment
   read is still the row's when it marks it.
   */
  lemma DeployedMatchesExactly(init: World, run: seq<Event>, d: nat, more: seq<Event>)
    requires Fresh(init) && Reached(init, run).status == Deploying && Possible(Reached(init, run), Mark(d))
    requires Reached(init, run + [Mark(d)] + more).compose.Some?
    ensures var w, w' := Reached(init, run), Reached(init, run + [Mark(d)] + more);
            && w'.compose.value < |w'.projects|
            && (w'.projects[w'.compose.value] == w'.output <==> w.deployments[d].seen == w.output)
  {
    RunKeepsProjects(init, run);
    Extend(init, run, Mark(d));
    DeployedStaysSettled(init, run + [Mark(d)], more);
  }

  /** A review between reading and claiming is not noticed: the old text is deployed under the new one. */
  lemma {:induction false} OutdatedReadIsDeployed(init: World, run: seq<Event>, d: nat, text: string)
    requires var w := Reached(init, run);
             && w.status == Reviewed && d in w.deployments && w.deployments[d].Fetched?
             && w.deployments[d].seen != text
    ensures var p := |Reached(init, run).projects|;
            var w := Reached(init, run + [Reviews(text)] + [Claims(d)] + [Build(d)] + [Mark(d)]);
            w.status == Deployed && w.compose == Some(p) && p < |w.projects| && w.projects[p] != w.output
  {
    Extend(init, run, Reviews(text));
    Extend(init, run + [Reviews(text)], Claims(d));
    Extend(init, run + [Reviews(text)] + [Claims(d)], Build(d));
    Extend(init, run + [Reviews(text)] + [Claims(d)] + [Build(d)], Mark(d));
  }
}
