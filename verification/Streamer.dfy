/**
 Which containers have a stats stream (agent/src/docker/stream.rs).

 `reconcile` opens a stream with a fresh cancellation token for every newly listed container and
 cancels the token of every one that is gone. A run is any sequence of reconciliations, each
 with a listing or with a failed one. Tokens are numbered in the order of their creation.
 */
module Streamer {
  import opened Common
  import opened Containers
  import Filter

  /** The listed containers that pass the filter. */
  function Monitored(filter: Filter.ContainerFilter, listing: seq<Summary>): seq<Name> {
    if listing == [] then []
    else
      var last := listing[|listing| - 1];
      Monitored(filter, listing[..|listing| - 1])
      + if Filter.ShouldMonitor(filter, DisplayName(last)) then [last.id] else []
  }

  function Seen(ids: seq<Name>): set<Name> {
    set i | 0 <= i < |ids| :: ids[i]
  }

  lemma {:induction false} MonitoredExactly(filter: Filter.ContainerFilter, listing: seq<Summary>, id: Name)
    ensures id in Monitored(filter, listing) <==>
            exists i :: 0 <= i < |listing| && listing[i].id == id && Filter.ShouldMonitor(filter, DisplayName(listing[i]))
    decreases |listing|
  {
    if listing != [] {
      var before, last := listing[..|listing| - 1], listing[|listing| - 1];
      MonitoredExactly(filter, before, id);
      assert forall i :: 0 <= i < |before| ==> before[i] == listing[i];
      assert listing[|listing| - 1] == last;
    }
  }

  // ---------- the steps of a reconciliation ----------

  /** The map of the source, and for every token its container and whether it is cancelled. */
  datatype State = State(streams: map<Name, nat>, owner: seq<Name>, cancelled: set<nat>)

  const INIT := State(map[], [], {})

  function OpenOne(s: State, id: Name): State {
    if id in s.streams then s else s.(streams := s.streams[id := |s.owner|], owner := s.owner + [id])
  }

  function OpenAll(s: State, ids: seq<Name>): State {
    if ids == [] then s else OpenOne(OpenAll(s, ids[..|ids| - 1]), ids[|ids| - 1])
  }

  function Kept(streams: map<Name, nat>, seen: set<Name>): map<Name, nat> {
    map id | id in streams && id in seen :: streams[id]
  }

  function Gone(streams: map<Name, nat>, seen: set<Name>): set<nat> {
    set id | id in streams && id !in seen :: streams[id]
  }

  function CloseGone(s: State, seen: set<Name>): State {
    State(Kept(s.streams, seen), s.owner, s.cancelled + Gone(s.streams, seen))
  }

  function Reconciled(s: State, ids: seq<Name>): State {
    CloseGone(OpenAll(s, ids), Seen(ids))
  }

  datatype Action = Listed(listing: seq<Summary>) | ListFailed

  function Next(filter: Filter.ContainerFilter, s: State, a: Action): State {
    match a
    case Listed(listing) => Reconciled(s, Monitored(filter, listing))
    case ListFailed => s
  }

  function After(filter: Filter.ContainerFilter, run: seq<Action>): State {
    if run == [] then INIT else Next(filter, After(filter, run[..|run| - 1]), run[|run| - 1])
  }

  // ---------- what every reconciliation keeps ----------

  /** A token is uncancelled exactly when it is the map's entry for its container. */
  ghost predicate Inv(s: State) {
    && (forall id :: id in s.streams ==> s.streams[id] < |s.owner| && s.owner[s.streams[id]] == id)
    && (forall t :: t in s.cancelled ==> t < |s.owner|)
    && (forall t :: 0 <= t < |s.owner| ==>
          (t !in s.cancelled <==> s.owner[t] in s.streams && s.streams[s.owner[t]] == t))
  }

  lemma OpenOneKeepsInv(s: State, id: Name)
    requires Inv(s)
    ensures Inv(OpenOne(s, id))
  {
  }

  lemma SeenLast(ids: seq<Name>)
    requires ids != []
    ensures Seen(ids) == Seen(ids[..|ids| - 1]) + {ids[|ids| - 1]}
  {
    var before := ids[..|ids| - 1];
    forall x | x in Seen(before) ensures x in Seen(ids) {
      var i :| 0 <= i < |before| && before[i] == x;
      assert ids[i] == x;
    }
    assert ids[|before|] in Seen(ids);
  }

  /** Opening keeps every stream there is and adds just the listed ones. */
  lemma {:induction false} OpenAllOpens(s: State, ids: seq<Name>)
    requires Inv(s)
    ensures Inv(OpenAll(s, ids))
    ensures OpenAll(s, ids).streams.Keys == s.streams.Keys + Seen(ids)
    ensures forall id :: id in s.streams ==> OpenAll(s, ids).streams[id] == s.streams[id]
    ensures s.owner <= OpenAll(s, ids).owner
    ensures OpenAll(s, ids).cancelled == s.cancelled
    decreases |ids|
  {
    if ids == [] {
      assert Seen(ids) == {};
    } else {
      var before, last := ids[..|ids| - 1], ids[|ids| - 1];
      OpenAllOpens(s, before);
      OpenOneKeepsInv(OpenAll(s, before), last);
      SeenLast(ids);
    }
  }

  lemma CloseKeepsInv(s: State, seen: set<Name>)
    requires Inv(s)
    ensures Inv(CloseGone(s, seen))
  {
    var s' := CloseGone(s, seen);
    forall t | 0 <= t < |s'.owner|
      ensures t !in s'.cancelled <==> s'.owner[t] in s'.streams && s'.streams[s'.owner[t]] == t
    {
      if t in s'.cancelled && t !in s.cancelled {
        var id :| id in s.streams && id !in seen && s.streams[id] == t;
      }
    }
  }

  /**
   A successful listing leaves the streams of exactly the monitored containers; those that had
   one keep it, and the rest of the old ones are cancelled, and no others.
   */
  lemma ReconciledExactly(s: State, ids: seq<Name>)
    requires Inv(s)
    ensures var s' := Reconciled(s, ids);
            && Inv(s')
            && s'.streams.Keys == Seen(ids)
            && (forall id :: id in s.streams && id in s'.streams ==> s'.streams[id] == s.streams[id])
            && (forall id :: id in s'.streams && id !in s.streams ==> s'.streams[id] >= |s.owner|)
            && (forall t :: 0 <= t < |s.owner| ==>
                  (t in s'.cancelled <==> t in s.cancelled || s.owner[t] !in Seen(ids)))
  {
    OpenAllOpens(s, ids);
    CloseKeepsInv(OpenAll(s, ids), Seen(ids));
    var o, s' := OpenAll(s, ids), Reconciled(s, ids);
    assert o.cancelled == s.cancelled;
    forall t | 0 <= t < |s.owner|
      ensures t in s'.cancelled <==> t in s.cancelled || s.owner[t] !in Seen(ids)
    {
      assert o.owner[t] == s.owner[t];
      if t !in s.cancelled && s.owner[t] !in Seen(ids) {
        assert o.streams[o.owner[t]] == t;
      }
    }
  }

  lemma {:induction false} RunKeepsInv(filter: Filter.ContainerFilter, run: seq<Action>)
    ensures Inv(After(filter, run))
  {
    if run != [] {
      RunKeepsInv(filter, run[..|run| - 1]);
      if run[|run| - 1].Listed? {
        ReconciledExactly(After(filter, run[..|run| - 1]), Monitored(filter, run[|run| - 1].listing));
      }
    }
  }

  // ---------- every run ----------

  /** No container has two uncancelled tokens, and the one it has is in the map. */
  lemma OneLiveTokenEach(filter: Filter.ContainerFilter, run: seq<Action>, t: nat, u: nat)
    requires var s := After(filter, run);
             && t < |s.owner| && u < |s.owner| && s.owner[t] == s.owner[u]
             && t !in s.cancelled && u !in s.cancelled
    ensures t == u && After(filter, run).owner[t] in After(filter, run).streams
  {
    RunKeepsInv(filter, run);
  }

  /** The listing of the last reconciliation that got one. */
  function LastListing(run: seq<Action>): seq<Summary> {
    if run == [] then []
    else if run[|run| - 1].Listed? then run[|run| - 1].listing
    else LastListing(run[..|run| - 1])
  }

  /** The streams are those of the monitored containers of the last listing, whatever failed since. */
  lemma {:induction false} StreamsFollowLastListing(filter: Filter.ContainerFilter, run: seq<Action>)
    ensures After(filter, run).streams.Keys == Seen(Monitored(filter, LastListing(run)))
  {
    if run == [] {
      assert Seen([]) == {};
    } else if run[|run| - 1].Listed? {
      RunKeepsInv(filter, run[..|run| - 1]);
      ReconciledExactly(After(filter, run[..|run| - 1]), Monitored(filter, run[|run| - 1].listing));
    } else {
      StreamsFollowLastListing(filter, run[..|run| - 1]);
    }
  }

  /** With ordinary names, a container is streamed exactly when the patterns admit one of its listed names. */
  lemma StreamedExactly(filter: Filter.ContainerFilter, run: seq<Action>, id: Name)
    requires var listing := LastListing(run);
             forall i :: 0 <= i < |listing| ==> Filter.StarOnlyLast(DisplayName(listing[i]))
    ensures var listing := LastListing(run);
            id in After(filter, run).streams <==>
            exists i :: 0 <= i < |listing| && listing[i].id == id && Admits(filter, DisplayName(listing[i]))
  {
    var listing := LastListing(run);
    var ids := Monitored(filter, listing);
    StreamsFollowLastListing(filter, run);
    assert id in Seen(ids) <==> id in ids;
    MonitoredExactly(filter, listing, id);
    forall i | 0 <= i < |listing|
      ensures Filter.ShouldMonitor(filter, DisplayName(listing[i])) <==> Admits(filter, DisplayName(listing[i]))
    {
      Filter.MonitoredExactly(filter, DisplayName(listing[i]));
    }
  }

  ghost predicate Admits(filter: Filter.ContainerFilter, name: Name) {
    !Filter.SomeMatches(filter.excluded, name) && (filter.included == [] || Filter.SomeMatches(filter.included, name))
  }

  /** A container that every later listing has keeps the token it has now. */
  lemma {:induction false} KeptWhileListed(filter: Filter.ContainerFilter, run: seq<Action>, more: seq<Action>, id: Name)
    requires id in After(filter, run).streams
    requires forall i :: 0 <= i < |more| && more[i].Listed? ==> id in Monitored(filter, more[i].listing)
    ensures id in After(filter, run + more).streams
    ensures After(filter, run + more).streams[id] == After(filter, run).streams[id]
    decreases |more|
  {
    if more == [] {
      assert run + more == run;
    } else {
      var before, a := more[..|more| - 1], more[|more| - 1];
      KeptWhileListed(filter, run, before, id);
      assert (run + more)[..|run + more| - 1] == run + before;
      RunKeepsInv(filter, run + before);
      if a.Listed? {
        var ids := Monitored(filter, a.listing);
        ReconciledExactly(After(filter, run + before), ids);
        assert id in Seen(ids);
      }
    }
  }

  // ---------- the reconciliation as code ----------

  class ContainerStreamer {
    const filter: Filter.ContainerFilter
    var streams: map<Name, nat>
    var created: nat
    var cancelled: set<nat>
    ghost var owner: seq<Name>
    ghost var run: seq<Action>

    ghost function View(): State
      reads this
    {
      State(streams, owner, cancelled)
    }

    ghost predicate Valid()
      reads this
    {
      created == |owner| && View() == After(filter, run) && Inv(View())
    }

    constructor (filter: Filter.ContainerFilter)
      ensures Valid() && this.filter == filter && run == []
    {
      this.filter := filter;
      streams, created, cancelled, owner, run := map[], 0, {}, [], [];
    }

    method OpenStreams(ids: seq<Name>)
      requires created == |owner|
      modifies this`streams, this`created, this`owner
      ensures created == |owner| && View() == OpenAll(old(View()), ids)
    {
      assert ids[..0] == [];
      for i := 0 to |ids|
        invariant created == |owner| && View() == OpenAll(old(View()), ids[..i])
      {
        assert ids[..i + 1][..i] == ids[..i];
        if ids[i] !in streams {
          streams := streams[ids[i] := created];
          owner := owner + [ids[i]];
          created := created + 1;
        }
      }
      assert ids[..|ids|] == ids;
    }

    /** One tick; `listing` is what the container list request returned. */
    method Reconcile(a: Action)
      requires Valid()
      modifies this
      ensures Valid() && run == old(run) + [a]
      ensures a.ListFailed? ==> View() == old(View())
      ensures a.Listed? ==> streams.Keys == Seen(Monitored(filter, a.listing))
    {
      run := run + [a];
      assert run[..|run| - 1] == old(run);
      if a.ListFailed? {
        return;
      }
      var ids := Monitored(filter, a.listing);
      ReconciledExactly(View(), ids);
      OpenStreams(ids);
      var left, tokens := RemoveGone(streams, Seen(ids));
      streams, cancelled := left, cancelled + tokens;
    }
  }

  /** Removes what is not listed any more, one container at a time, and returns the tokens to cancel. */
  method RemoveGone(streams: map<Name, nat>, seen: set<Name>) returns (left: map<Name, nat>, tokens: set<nat>)
    ensures left == Kept(streams, seen)
    ensures tokens == Gone(streams, seen)
  {
    var gone := set id | id in streams && id !in seen;
    left, tokens := streams, {};
    while gone != {}
      invariant gone <= streams.Keys && gone !! seen
      invariant left == Kept(streams, seen + gone)
      invariant tokens == Gone(streams, seen + gone)
      decreases gone
    {
      var id :| id in gone;
      CloseMore(streams, seen, gone, id);
      tokens := tokens + {left[id]};
      left := left - {id};
      gone := gone - {id};
    }
    assert seen + gone == seen;
  }

  /** Closing one more container. */
  lemma CloseMore(streams: map<Name, nat>, seen: set<Name>, gone: set<Name>, id: Name)
    requires id in streams && id in gone && id !in seen
    ensures id in Kept(streams, seen + gone) && Kept(streams, seen + gone)[id] == streams[id]
    ensures Kept(streams, seen + (gone - {id})) == Kept(streams, seen + gone) - {id}
    ensures Gone(streams, seen + (gone - {id})) == Gone(streams, seen + gone) + {streams[id]}
  {
    var keep := seen + gone;
    assert seen + (gone - {id}) == keep - {id};
    var a, b := Gone(streams, keep - {id}), Gone(streams, keep) + {streams[id]};
    forall t | t in b ensures t in a {
      if t != streams[id] {
        var x :| x in streams && x !in keep && streams[x] == t;
        assert x !in keep - {id};
      }
    }
    forall t | t in a ensures t in b {
      var x :| x in streams && x !in keep - {id} && streams[x] == t;
      assert x == id || x !in keep;
    }
  }
}
