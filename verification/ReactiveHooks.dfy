/**
 The hooks, scopes and publishers of src/db/reactive.rs as code over shared vectors.
 */
module ReactiveHooks {
  import opened Common
  import opened Reactive
  import opened ReactiveRuns

  /**
   The vectors the hooks share. `run` is the history of calls; the fields are what the model
   says they are after that history.
   */
  class ChangeCapture {
    var pending: map<nat, seq<Change>>
    var requests: map<nat, seq<Change>>
    var publishers: map<nat, Publisher>
    var bus: seq<seq<Change>>
    var writes: nat
    var commits: nat
    ghost var run: seq<Action>

    ghost predicate Valid()
      reads this
    {
      var s := After(run);
      && pending == s.pending && requests == s.requests && publishers == s.publishers && bus == s.bus
      && writes == |s.fate| && commits == |s.log|
    }

    constructor ()
      ensures Valid() && run == []
    {
      pending, requests, publishers, bus, writes, commits, run := map[], map[], map[], [], 0, 0, [];
    }

    /** Puts an action at the end of the history. */
    ghost method Record(a: Action)
      requires Enabled(After(run), a)
      modifies this`run
      ensures run == old(run) + [a] && After(run) == Next(After(old(run)), a)
    {
      run := run + [a];
      assert run[..|run| - 1] == old(run);
    }

    /** A connection takes the write lock; no hook runs. */
    ghost method BeginTransaction(conn: nat)
      requires Valid() && Enabled(After(run), Begin(conn))
      modifies this`run
      ensures Valid() && run == old(run) + [Begin(conn)]
    {
      Record(Begin(conn));
    }

    /** The commit that was allowed is done and readers see it; no hook runs. */
    ghost method FinishCommit()
      requires Valid() && Enabled(After(run), CommitDone)
      modifies this`run
      ensures Valid() && run == old(run) + [CommitDone]
    {
      Record(CommitDone);
    }

    method OnPreupdate(conn: nat, table: string, oldRow: Option<int>, newRow: Option<int>, operation: Operation)
      requires Valid() && Enabled(After(run), Write(conn, table, oldRow, newRow, operation))
      modifies this
      ensures Valid() && run == old(run) + [Write(conn, table, oldRow, newRow, operation)]
    {
      var changes := if conn in pending then pending[conn] else [];
      pending := pending[conn := changes + [Change(writes, table, oldRow, newRow, operation)]];
      writes := writes + 1;
      Record(Write(conn, table, oldRow, newRow, operation));
    }

    /** Takes the vector and queues it on the request the hook runs in, or spawns a publisher. */
    method OnCommit(conn: nat, scope: Option<nat>) returns (allow: bool)
      requires Valid() && Enabled(After(run), CommitHook(conn, scope))
      modifies this
      ensures Valid() && run == old(run) + [CommitHook(conn, scope)] && allow
    {
      VectorIsTransaction(run, conn);
      var changes := if conn in pending then pending[conn] else [];
      pending := pending[conn := []];
      if changes != [] {
        var queued := false;
        if scope.Some? {
          requests := requests[scope.value := requests[scope.value] + changes];
          queued := true;
        }
        if !queued {
          publishers := publishers[commits := Publisher(changes, false)];
        }
        commits := commits + 1;
      }
      Record(CommitHook(conn, scope));
      return true;
    }

    method OnRollback(conn: nat)
      requires Valid() && Enabled(After(run), Rollback(conn))
      modifies this
      ensures Valid() && run == old(run) + [Rollback(conn)]
    {
      pending := pending[conn := []];
      Record(Rollback(conn));
    }

    /** The begin of `request_scope`. */
    method StartScope(request: nat)
      requires Valid() && Enabled(After(run), OpenScope(request))
      modifies this
      ensures Valid() && run == old(run) + [OpenScope(request)]
    {
      requests := requests[request := []];
      Record(OpenScope(request));
    }

    /** The future of a request is dropped before it ends, and its buffer with it. */
    method CancelScope(request: nat)
      requires Valid() && Enabled(After(run), DropScope(request))
      modifies this
      ensures Valid() && run == old(run) + [DropScope(request)]
    {
      requests := requests - {request};
      Record(DropScope(request));
    }

    /** The BEGIN IMMEDIATE of a publisher succeeded. */
    method WaitForCommit(task: nat)
      requires Valid() && Enabled(After(run), Sync(task))
      modifies this
      ensures Valid() && run == old(run) + [Sync(task)]
    {
      publishers := publishers[task := publishers[task].(synced := true)];
      Record(Sync(task));
    }

    method Send(changes: seq<Change>)
      modifies this`bus
      ensures bus == if changes == [] then old(bus) else old(bus) + [changes]
    {
      if changes != [] {
        bus := bus + [changes];
      }
    }

    /** The end of `request_scope`: drain the buffer, publish it. */
    method FinishScope(request: nat)
      requires Valid() && Enabled(After(run), CloseScope(request))
      modifies this
      ensures Valid() && run == old(run) + [CloseScope(request)]
    {
      var changes := requests[request];
      requests := requests - {request};
      Send(changes);
      Record(CloseScope(request));
    }

    /** The end of `publish_when_visible`. */
    method FinishPublisher(task: nat)
      requires Valid() && Enabled(After(run), Publish(task))
      modifies this
      ensures Valid() && run == old(run) + [Publish(task)]
    {
      var changes := publishers[task].changes;
      publishers := publishers - {task};
      Send(changes);
      Record(Publish(task));
    }
  }
}
