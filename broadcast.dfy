/** `daily_poll_job`: one poll per stored group, with the store reconciled
    against what each send reports. */
module Broadcast {
  import opened Wrappers
  import opened Groups
  import opened Storage
  import opened Telegram

  /** What one send outcome does to the store for destination `gid`. */
  function Reconcile(st: StoreState, gid: int, o: Outcome): StoreState {
    match o
    case Success => st
    case Migrated(newId) => AddTo(RemoveFrom(st, gid), newId)
    case Forbidden => RemoveFrom(st, gid)
    case Other => st
  }

  /** The store after processing every destination of `snapshot` in order,
      the send to `snapshot[i]` being attempt `i`. */
  function Run(st: StoreState, snapshot: seq<int>, send: Transport): StoreState
    decreases |snapshot|
  {
    if snapshot == [] then st
    else
      var n := |snapshot| - 1;
      Reconcile(Run(st, snapshot[..n], send), snapshot[n], send(n, snapshot[n]))
  }

  /** The destinations of `snapshot` whose send was not `Forbidden`, in order. */
  function Kept(snapshot: seq<int>, send: Transport): seq<int>
    decreases |snapshot|
  {
    if snapshot == [] then []
    else
      var n := |snapshot| - 1;
      Kept(snapshot[..n], send) + (if send(n, snapshot[n]).Forbidden? then [] else [snapshot[n]])
  }

  /** `daily_poll_job`: load the list once, then attempt exactly one send per
      loaded id, in order, whatever the earlier sends reported. Returns the
      ids attempted. */
  method DailyPollJob(store: GroupStore, send: Transport) returns (attempts: seq<int>)
    modifies store
    ensures attempts == Loaded(old(store.file))
    ensures store.State() == Run(old(store.State()), attempts, send)
  {
    var groups := store.Load();
    attempts := [];
    var i := 0;
    while i < |groups|
      invariant 0 <= i <= |groups|
      invariant attempts == groups[..i]
      invariant store.State() == Run(old(store.State()), groups[..i], send)
    {
      var gid := groups[i];
      var outcome := send(i, gid);
      attempts := attempts + [gid];
      match outcome {
        case Success =>
        case Migrated(newId) =>
          store.RemoveGroup(gid);
          store.AddGroup(newId);
        case Forbidden =>
          store.RemoveGroup(gid);
        case Other =>
      }
      assert groups[..i + 1][..i] == groups[..i];
      i := i + 1;
    }
    assert groups[..i] == groups;
  }

  /** One destination's outcome: `Forbidden` removes it, `ChatMigrated`
      replaces it by the new id, success and any other error leave the store
      as it was, without a write. */
  lemma ReconcileOutcome(st: StoreState, gid: int, o: Outcome)
    requires NoDuplicates(Loaded(st.file))
    ensures o.Success? || o.Other? ==> Reconcile(st, gid, o) == st
    ensures o.Forbidden? ==>
      forall y :: y in Loaded(Reconcile(st, gid, o).file) <==> y in Loaded(st.file) && y != gid
    ensures o.Migrated? ==>
      forall y :: y in Loaded(Reconcile(st, gid, o).file) <==>
        (y in Loaded(st.file) && y != gid) || y == o.newId
    ensures NoDuplicates(Loaded(Reconcile(st, gid, o).file))
  {
    MutatorsKeepNoDuplicates(st, gid);
    if o.Migrated? {
      MutatorsKeepNoDuplicates(RemoveFrom(st, gid), o.newId);
    }
  }

  /** A whole run keeps the store free of duplicates. */
  lemma {:induction false} RunKeepsNoDuplicates(st: StoreState, snapshot: seq<int>, send: Transport)
    requires NoDuplicates(Loaded(st.file))
    ensures NoDuplicates(Loaded(Run(st, snapshot, send).file))
    decreases |snapshot|
  {
    if snapshot != [] {
      var n := |snapshot| - 1;
      RunKeepsNoDuplicates(st, snapshot[..n], send);
      ReconcileOutcome(Run(st, snapshot[..n], send), snapshot[n], send(n, snapshot[n]));
    }
  }

  /** A run in which no send was `Forbidden` or migrated leaves the store
      exactly as it was: transient errors never remove a group, and nothing is
      written. */
  lemma {:induction false} RunWithoutTerminalFailures(st: StoreState, snapshot: seq<int>, send: Transport)
    requires forall i :: 0 <= i < |snapshot| ==> send(i, snapshot[i]).Success? || send(i, snapshot[i]).Other?
    ensures Run(st, snapshot, send) == st
    decreases |snapshot|
  {
    if snapshot != [] {
      var n := |snapshot| - 1;
      assert forall i :: 0 <= i < n ==> snapshot[..n][i] == snapshot[i];
      RunWithoutTerminalFailures(st, snapshot[..n], send);
    }
  }

  /** Every id kept by a run comes from its snapshot. */
  lemma {:induction false} KeptFromSnapshot(snapshot: seq<int>, send: Transport)
    ensures forall y :: y in Kept(snapshot, send) ==> y in snapshot
    decreases |snapshot|
  {
    if snapshot != [] {
      var n := |snapshot| - 1;
      KeptFromSnapshot(snapshot[..n], send);
      assert forall y :: y in snapshot[..n] ==> y in snapshot;
    }
  }

  /** One step of a run without migrations, on a file laid out as the kept
      prefix, the current destination and the rest of the snapshot. */
  lemma ReconcileStep(before: StoreState, kept: seq<int>, gid: int, rest: seq<int>, o: Outcome)
    requires Loaded(before.file) == kept + [gid] + rest
    requires gid !in kept && !o.Migrated?
    ensures o.Forbidden? ==> Loaded(Reconcile(before, gid, o).file) == kept + rest
    ensures !o.Forbidden? ==> Reconcile(before, gid, o) == before
  {
    if o.Forbidden? {
      assert Reconcile(before, gid, o) == RemoveFrom(before, gid);
      assert gid in Loaded(before.file);
      RemoveFirstAfterPrefix(kept, gid, rest);
    }
  }

  /** The id at position `n` of a duplicate-free snapshot is not among the
      ids kept from the positions before it. */
  lemma NotKeptBefore(snapshot: seq<int>, send: Transport, n: nat)
    requires NoDuplicates(snapshot) && n < |snapshot|
    ensures snapshot[n] !in Kept(snapshot[..n], send)
  {
    KeptFromSnapshot(snapshot[..n], send);
    forall j | 0 <= j < n ensures snapshot[..n][j] != snapshot[n] {
      assert snapshot[..n][j] == snapshot[j];
    }
  }

  /** The invariant of a run without migrations: after the first `i`
      destinations, the file holds the kept ones among them followed by the
      rest of the snapshot. */
  lemma {:induction false} RunPrefix(st: StoreState, snapshot: seq<int>, send: Transport, i: nat)
    requires Loaded(st.file) == snapshot && NoDuplicates(snapshot)
    requires forall j :: 0 <= j < |snapshot| ==> !send(j, snapshot[j]).Migrated?
    requires i <= |snapshot|
    ensures Loaded(Run(st, snapshot[..i], send).file) == Kept(snapshot[..i], send) + snapshot[i..]
  {
    if i == 0 {
      assert snapshot[..0] == [];
    } else {
      var n := i - 1;
      var gid := snapshot[n];
      var prefix := snapshot[..i];
      assert prefix[..n] == snapshot[..n] && prefix[n] == gid && prefix != [];
      RunPrefix(st, snapshot, send, n);
      assert snapshot[n..] == [gid] + snapshot[i..];
      NotKeptBefore(snapshot, send, n);
      var kept := Kept(snapshot[..n], send);
      ReconcileStep(Run(st, snapshot[..n], send), kept, gid, snapshot[i..], send(n, gid));
      if !send(n, gid).Forbidden? {
        assert kept + [gid] + snapshot[i..] == (kept + [gid]) + snapshot[i..];
      }
    }
  }

  /** A run over the whole stored list with no migration removes exactly the
      `Forbidden` destinations and keeps the others in their order. */
  lemma RunRemovesForbidden(st: StoreState, send: Transport)
    requires NoDuplicates(Loaded(st.file))
    requires forall j :: 0 <= j < |Loaded(st.file)| ==> !send(j, Loaded(st.file)[j]).Migrated?
    ensures Loaded(Run(st, Loaded(st.file), send).file) == Kept(Loaded(st.file), send)
  {
    var snapshot := Loaded(st.file);
    RunPrefix(st, snapshot, send, |snapshot|);
    assert snapshot[..|snapshot|] == snapshot;
    assert snapshot[|snapshot|..] == [];
    assert Kept(snapshot, send) + [] == Kept(snapshot, send);
  }

  /** A migration from id `oldId` to id `newId` reported at attempt `k`
      leaves the new id in the store and the old one out at the end of the
      run, so the next run targets the new id, unless a later attempt to the
      new id removes it again or a later attempt migrates a chat back to the
      old id. */
  lemma {:induction false} MigrationRetargets(st: StoreState, snapshot: seq<int>, send: Transport,
                                              k: nat, oldId: int, newId: int)
    requires NoDuplicates(Loaded(st.file))
    requires k < |snapshot| && snapshot[k] == oldId && send(k, oldId) == Migrated(newId)
    requires newId != oldId
    requires forall j :: k < j < |snapshot| && snapshot[j] == newId ==>
      !(send(j, newId).Forbidden? || send(j, newId).Migrated?)
    requires forall j :: k < j < |snapshot| ==> send(j, snapshot[j]) != Migrated(oldId)
    ensures newId in Loaded(Run(st, snapshot, send).file)
    ensures oldId !in Loaded(Run(st, snapshot, send).file)
    decreases |snapshot|
  {
    var n := |snapshot| - 1;
    var prefix := snapshot[..n];
    RunKeepsNoDuplicates(st, prefix, send);
    if n > k {
      assert forall j :: 0 <= j < n ==> prefix[j] == snapshot[j];
      MigrationRetargets(st, prefix, send, k, oldId, newId);
    }
    ReconcileOutcome(Run(st, prefix, send), snapshot[n], send(n, snapshot[n]));
  }

  /** The store `[100, 200, 300]` with 200 forbidden and the rest delivered
      ends as `[100, 300]` after a single write. */
  lemma ForbiddenExample(writes: nat)
    ensures var send: Transport := (i, gid) => if gid == 200 then Forbidden else Success;
      Run(StoreState(Some([100, 200, 300]), writes), [100, 200, 300], send)
        == StoreState(Some([100, 300]), writes + 1)
  {
    var send: Transport := (i, gid) => if gid == 200 then Forbidden else Success;
    var st := StoreState(Some([100, 200, 300]), writes);
    var snapshot := [100, 200, 300];
    assert snapshot[..2] == [100, 200] && snapshot[..2][..1] == [100] && snapshot[..2][..1][..0] == [];
    assert Run(st, [100], send) == st;
    assert RemoveFirst([100, 200, 300], 200) == [100, 300];
  }

  /** The job itself on the store `[100, 200, 300]` with 200 forbidden and the
      rest delivered: three attempts, in order, and the file `[100, 300]`. */
  method ForbiddenRun() returns (attempts: seq<int>, file: Option<seq<int>>, writes: nat)
    ensures attempts == [100, 200, 300]
    ensures file == Some([100, 300]) && writes == 1
  {
    var store := new GroupStore(Some([100, 200, 300]));
    var send: Transport := (i, gid) => if gid == 200 then Forbidden else Success;
    attempts := DailyPollJob(store, send);
    ForbiddenExample(0);
    file, writes := store.file, store.writes;
  }
}
