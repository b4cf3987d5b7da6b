/**
 * The task repository: one handle on the embedded store, opened with a
 * version-3 migration and closed again, and the operations the screens call
 * through it (create, newest-first listing, delete, field-merging update and
 * status update). Each operation is one atomic step on the table of records.
 */
module RealmDB {
  import opened TaskModel
  import opened JsText

  /** `getRealm` throwing before open or after close; `Realm.open` failing,
      either because the storage cannot be opened or because the stored schema
      version is newer than the one asked for. */
  datatype StoreError = NotInitialized | StoreUnavailable | SchemaTooNew

  datatype Result<+T> = Ok(value: T) | Err(error: StoreError)

  // ----- record-level rules -----

  /** `x || null` for an optional string property: empty or missing becomes null. */
  function OrNull(a: Arg<string>): (r: Option<string>)
    ensures r == None <==> a == Undefined || a == Null || a == Val("")
    ensures r.Some? ==> a == Val(r.value)
  {
    if a.Val? && Truthy(a.value) then Some(a.value) else None
  }

  /** `x !== undefined ? x : current`: any supplied value, null included, replaces the current one. */
  function Assigned<T>(a: Arg<T>, current: Option<T>): Option<T> {
    match a
    case Undefined => current
    case Null => None
    case Val(v) => Some(v)
  }

  /** `x || current` for a required string property: only a non-empty value replaces it. */
  function OrKeep(a: Arg<string>, current: string): (r: string)
    ensures a.Val? && a.value != "" ==> r == a.value
    ensures r != current ==> a == Val(r) && r != ""
  {
    if a.Val? && Truthy(a.value) then a.value else current
  }

  /** The record `addTask` creates: fresh id, the given name, status in progress,
      created now, not completed; empty or missing optional properties stored as null. */
  function NewRecord(id: string, data: TaskInput, now: Timestamp): (t: Task)
    ensures t.id == id && t.name == data.name && t.createdAt == now
    ensures t.status == InProgress && t.completedAt == None
    ensures StatusConsistent(t) && TimesOrdered(t)
    ensures t.description == None <==> data.description in {Undefined, Null, Val("")}
    ensures t.timer == None <==> data.timer in {Undefined, Null, Val("")}
    ensures t.taskImage == None <==> data.taskImage in {Undefined, Null, Val("")}
    ensures t.description.Some? ==> data.description == Val(t.description.value)
    ensures t.timer.Some? ==> data.timer == Val(t.timer.value)
    ensures t.taskImage.Some? ==> data.taskImage == Val(t.taskImage.value)
  {
    Task(id, data.name, OrNull(data.description), OrNull(data.timer), OrNull(data.taskImage),
         InProgress, now, None)
  }

  /** A status argument of `updateTask` that keeps statuses within the two the
      application knows: left out, null, empty (all three keep the current
      status), in progress or completed. */
  predicate KeepsKnownStatus(a: Arg<string>) {
    a == Undefined || a == Null || a == Val("") || (a.Val? && IsKnownStatus(a.value))
  }

  /** The record after `updateTask`. */
  function Merged(t: Task, u: TaskUpdate, now: Timestamp): (r: Task)
    // identity and creation time never change
    ensures r.id == t.id && r.createdAt == t.createdAt
    // name and status: only a non-empty value replaces the current one
    ensures u.name.Val? && u.name.value != "" ==> r.name == u.name.value
    ensures r.name != t.name ==> u.name == Val(r.name) && r.name != ""
    ensures u.status.Val? && u.status.value != "" ==> r.status == u.status.value
    ensures r.status != t.status ==> u.status == Val(r.status) && r.status != ""
    // optional properties: replaced whenever supplied, even by null or "", kept when left out
    ensures u.description == Undefined ==> r.description == t.description
    ensures u.description == Null ==> r.description == None
    ensures u.description.Val? ==> r.description == Some(u.description.value)
    ensures u.timer == Undefined ==> r.timer == t.timer
    ensures u.timer == Null ==> r.timer == None
    ensures u.timer.Val? ==> r.timer == Some(u.timer.value)
    ensures u.taskImage == Undefined ==> r.taskImage == t.taskImage
    ensures u.taskImage == Null ==> r.taskImage == None
    ensures u.taskImage.Val? ==> r.taskImage == Some(u.taskImage.value)
    // completion time: stamped on completion unless already set, cleared on in progress
    ensures u.status == Val(Completed) && t.completedAt.None? ==> r.completedAt == Some(now)
    ensures u.status == Val(Completed) && t.completedAt.Some? ==> r.completedAt == t.completedAt
    ensures u.status == Val(InProgress) ==> r.completedAt == None
    ensures u.status != Val(Completed) && u.status != Val(InProgress) ==> r.completedAt == t.completedAt
  {
    var completedAt :=
      if u.status == Val(Completed) && t.completedAt.None? then Some(now)
      else if u.status == Val(InProgress) then None
      else t.completedAt;
    Task(t.id,
         OrKeep(u.name, t.name),
         Assigned(u.description, t.description),
         Assigned(u.timer, t.timer),
         Assigned(u.taskImage, t.taskImage),
         OrKeep(u.status, t.status),
         t.createdAt,
         completedAt)
  }

  /** `updateTask` keeps the lifecycle rule as long as the status it is given is
      one of the two known statuses or none at all. */
  lemma MergedKeepsLifecycle(t: Task, u: TaskUpdate, now: Timestamp)
    requires StatusConsistent(t) && IsKnownStatus(t.status)
    requires KeepsKnownStatus(u.status)
    ensures StatusConsistent(Merged(t, u, now)) && IsKnownStatus(Merged(t, u, now).status)
  {
  }

  /** A status outside the two known ones leaves the completion time of a
      completed task behind on a task that no longer reads as completed. */
  lemma MergedForeignStatusBreaksLifecycle(t: Task, u: TaskUpdate, now: Timestamp)
    requires t.completedAt.Some?
    requires u.status.Val? && u.status.value != "" && !IsKnownStatus(u.status.value)
    ensures !StatusConsistent(Merged(t, u, now))
  {
  }

  /** With a clock that does not run backwards, a completion time never precedes creation. */
  lemma MergedKeepsTimesOrdered(t: Task, u: TaskUpdate, now: Timestamp)
    requires TimesOrdered(t) && t.createdAt <= now
    ensures TimesOrdered(Merged(t, u, now))
  {
  }

  /** Submitting the same update again, at any later time, changes nothing more. */
  lemma MergedIdempotent(t: Task, u: TaskUpdate, now: Timestamp, later: Timestamp)
    ensures Merged(Merged(t, u, now), u, later) == Merged(t, u, now)
  {
  }

  /** The record after `updateTaskStatus`: the status is set, the completion time
      is now for `completed` (replacing an earlier one) and null for anything
      else; nothing else changes. */
  function StatusSet(t: Task, status: string, now: Timestamp): (r: Task)
    ensures r.status == status
    ensures r == t.(status := status, completedAt := r.completedAt)
    ensures status == Completed ==> r.completedAt == Some(now)
    ensures StatusConsistent(r)
    ensures t.createdAt <= now ==> TimesOrdered(r)
  {
    t.(status := status, completedAt := if status == Completed then Some(now) else None)
  }

  /** Creating a task, completing it and putting it back in progress: the
      completion time is stamped no earlier than creation, then cleared, which
      gives back the record as it was created. */
  lemma CompleteThenReopen(id: string, data: TaskInput, created: Timestamp, completed: Timestamp, reopened: Timestamp)
    requires created <= completed
    ensures var t0 := NewRecord(id, data, created);
            var t1 := StatusSet(t0, Completed, completed);
            var t2 := StatusSet(t1, InProgress, reopened);
      && t0.status == InProgress && t0.completedAt == None
      && t1.status == Completed && t1.completedAt == Some(completed) && TimesOrdered(t1)
      && t2 == t0
  {
  }

  /** The record after the version-3 migration step. */
  function MigratedRecord(t: Task): (r: Task)
    ensures r == t.(status := r.status, completedAt := r.completedAt)
    ensures r.status == InProgress && StatusConsistent(r) && TimesOrdered(r)
  {
    t.(status := InProgress, completedAt := None)
  }

  /** The whole table after migration: same ids, every record migrated. */
  function MigratedTable(m: map<string, Task>): (m': map<string, Task>)
    ensures m'.Keys == m.Keys
    ensures forall id | id in m :: m'[id] == MigratedRecord(m[id])
  {
    map id | id in m :: MigratedRecord(m[id])
  }

  /** Migrating an already migrated table changes nothing. */
  lemma MigrationIdempotent(m: map<string, Task>)
    ensures MigratedTable(MigratedTable(m)) == MigratedTable(m)
  {
  }

  /** Migration keeps the number of records and the primary key, and leaves
      every record obeying the lifecycle rule. */
  lemma MigrationKeepsTable(m: map<string, Task>)
    requires KeyedById(m)
    ensures |MigratedTable(m)| == |m|
    ensures KeyedById(MigratedTable(m)) && AllConsistent(MigratedTable(m))
  {
    assert MigratedTable(m).Keys == m.Keys;
  }

  // ----- table-level invariants -----

  predicate AllConsistent(m: map<string, Task>) {
    forall id | id in m :: StatusConsistent(m[id])
  }

  predicate AllKnownStatus(m: map<string, Task>) {
    forall id | id in m :: IsKnownStatus(m[id].status)
  }

  /** No stored task has a blank name. */
  predicate AllNamed(m: map<string, Task>) {
    forall id | id in m :: Trim(m[id].name) != ""
  }

  // ----- the newest-first listing -----

  predicate NewestFirst(s: seq<Task>) {
    forall i, j | 0 <= i < j < |s| :: s[i].createdAt >= s[j].createdAt
  }

  predicate DistinctIds(s: seq<Task>) {
    forall i, j | 0 <= i < j < |s| :: s[i].id != s[j].id
  }

  /** `s` lists the table `m`: only stored records, each once, all of them. */
  predicate ListsExactly(s: seq<Task>, m: map<string, Task>) {
    && (forall i | 0 <= i < |s| :: s[i].id in m && m[s[i].id] == s[i])
    && DistinctIds(s)
    && (forall id | id in m :: m[id] in s)
  }

  /** Places `t` in a newest-first sequence ahead of every record not newer than it. */
  function InsertByCreated(s: seq<Task>, t: Task): (r: seq<Task>)
    requires NewestFirst(s)
    ensures NewestFirst(r)
    ensures |r| == |s| + 1
    ensures forall x :: x in r <==> x in s || x == t
  {
    if s == [] || s[0].createdAt <= t.createdAt then
      [t] + s
    else
      var rest := InsertByCreated(s[1..], t);
      assert forall x | x in rest :: x.createdAt <= s[0].createdAt;
      var r := [s[0]] + rest;
      assert forall i | 1 <= i < |r| :: r[i] == rest[i - 1];
      r
  }

  /** The insertion only adds `t`: the result is a permutation of `s` with `t`. */
  lemma {:induction false} InsertIsPermutation(s: seq<Task>, t: Task)
    requires NewestFirst(s)
    ensures multiset(InsertByCreated(s, t)) == multiset(s) + multiset{t}
  {
    if s == [] || s[0].createdAt <= t.createdAt {
    } else {
      InsertIsPermutation(s[1..], t);
      assert s == [s[0]] + s[1..];
    }
  }

  /** Inserting a record under an id not yet listed keeps every id listed once. */
  lemma {:induction false} InsertKeepsDistinct(s: seq<Task>, t: Task)
    requires NewestFirst(s) && DistinctIds(s)
    requires forall x | x in s :: x.id != t.id
    ensures DistinctIds(InsertByCreated(s, t))
  {
    var r := InsertByCreated(s, t);
    if s == [] || s[0].createdAt <= t.createdAt {
      assert forall i | 1 <= i < |r| :: r[i] == s[i - 1];
    } else {
      var rest := InsertByCreated(s[1..], t);
      InsertKeepsDistinct(s[1..], t);
      assert r == [s[0]] + rest;
      forall x | x in rest ensures x.id != s[0].id {
        if x != t {
          var k :| 0 <= k < |s[1..]| && s[1..][k] == x;
          assert s[k + 1] == x;
        }
      }
      assert forall i | 1 <= i < |r| :: r[i] == rest[i - 1];
    }
  }

  /** A listing of a table has exactly as many entries as the table has records. */
  lemma {:induction false} ListingCount(s: seq<Task>, m: map<string, Task>)
    requires KeyedById(m) && ListsExactly(s, m)
    ensures |s| == |m|
  {
    var ids := set i | 0 <= i < |s| :: s[i].id;
    assert ids == m.Keys by {
      forall id | id in m ensures id in ids {
        var i :| 0 <= i < |s| && s[i] == m[id];
      }
    }
    DistinctIdsCount(s);
  }

  lemma {:induction false} DistinctIdsCount(s: seq<Task>)
    requires DistinctIds(s)
    ensures |set i | 0 <= i < |s| :: s[i].id| == |s|
  {
    if s != [] {
      var n := |s| - 1;
      var init := s[..n];
      DistinctIdsCount(init);
      var ids := set i | 0 <= i < |s| :: s[i].id;
      var initIds := set i | 0 <= i < |init| :: init[i].id;
      assert ids == initIds + {s[n].id};
      assert s[n].id !in initIds;
    }
  }

  // ----- the store handle and the operations -----

  /** The store behind the module-level handle: the persisted table, the schema
      version on disk, and whether the handle is currently set. */
  class TaskStore {
    var open: bool
    var version: int
    var tasks: map<string, Task>

    ghost predicate Valid()
      reads this
    {
      KeyedById(tasks) && (open ==> version == SchemaVersion)
    }

    /** A store on the device, not yet opened. */
    constructor (stored: map<string, Task>, storedVersion: int)
      requires KeyedById(stored)
      ensures Valid() && !open && tasks == stored && version == storedVersion
    {
      open := false;
      version := storedVersion;
      tasks := stored;
    }

    /** `initializeRealm`: open the store with schema version 3, migrating an
        older store first. When `Realm.open` rejects the call (the storage is
        inaccessible, or it was written with a newer schema version) the handle
        is not assigned and everything stays as it was. */
    method InitializeRealm(accessible: bool) returns (r: Result<()>)
      requires Valid()
      modifies this
      ensures Valid()
      ensures !accessible ==> r == Err(StoreUnavailable)
      ensures accessible && old(version) > SchemaVersion ==> r == Err(SchemaTooNew)
      ensures r.Err? ==> open == old(open) && version == old(version) && tasks == old(tasks)
      ensures r.Ok? <==> accessible && old(version) <= SchemaVersion
      ensures r.Ok? ==> open && version == SchemaVersion
      ensures r.Ok? && old(version) < SchemaVersion ==> tasks == MigratedTable(old(tasks))
      ensures r.Ok? && old(version) == SchemaVersion ==> tasks == old(tasks)
      ensures accessible && old(open) ==> r.Ok? && tasks == old(tasks)
      ensures AllConsistent(old(tasks)) ==> AllConsistent(tasks)
    {
      if !accessible {
        return Err(StoreUnavailable);
      }
      if version > SchemaVersion {
        return Err(SchemaTooNew);
      }
      if version < SchemaVersion {
        Migrate();
        MigrationKeepsTable(old(tasks));
      }
      version := SchemaVersion;
      open := true;
      r := Ok(());
    }

    /** The migration callback: every record is set in progress with no completion time. */
    method Migrate()
      requires KeyedById(tasks)
      modifies this`tasks
      ensures tasks == MigratedTable(old(tasks))
    {
      var pending := tasks.Keys;
      while pending != {}
        invariant pending <= tasks.Keys && tasks.Keys == old(tasks).Keys
        invariant forall id | id in tasks && id in pending :: tasks[id] == old(tasks)[id]
        invariant forall id | id in tasks && id !in pending :: tasks[id] == MigratedRecord(old(tasks)[id])
        decreases pending
      {
        var id :| id in pending;
        tasks := tasks[id := MigratedRecord(tasks[id])];
        pending := pending - {id};
      }
    }

    /** `getRealm`: fails with NotInitialized while the handle is unset. */
    method GetRealm() returns (r: Result<()>)
      ensures r.Ok? <==> open
      ensures r.Err? ==> r.error == NotInitialized
    {
      if !open {
        return Err(NotInitialized);
      }
      return Ok(());
    }

    /** `closeRealm`: clears the handle; on a closed store it does nothing. */
    method CloseRealm()
      requires Valid()
      modifies this`open
      ensures Valid() && !open
      ensures !old(open) ==> unchanged(this)
    {
      if open {
        open := false;
      }
    }

    /** `addTask`: stores exactly one new record under the fresh id; every other record is kept. */
    method AddTask(id: string, data: TaskInput, now: Timestamp) returns (r: Result<Task>)
      requires Valid() && id !in tasks
      modifies this`tasks
      ensures Valid()
      ensures r.Ok? <==> open
      ensures r.Err? ==> r.error == NotInitialized && tasks == old(tasks)
      ensures r.Ok? ==> r.value == NewRecord(id, data, now) && tasks == old(tasks)[id := r.value]
      ensures |tasks| == |old(tasks)| + (if open then 1 else 0)
      ensures AllConsistent(old(tasks)) ==> AllConsistent(tasks)
    {
      var h := GetRealm();
      if h.Err? {
        return Err(h.error);
      }
      var created := NewRecord(id, data, now);
      tasks := tasks[id := created];
      r := Ok(created);
    }

    /** `getAllTaskList`: every stored record exactly once, newest first. */
    method GetAllTaskList() returns (r: Result<seq<Task>>)
      requires Valid()
      ensures r.Ok? <==> open
      ensures r.Err? ==> r.error == NotInitialized
      ensures r.Ok? ==> NewestFirst(r.value) && ListsExactly(r.value, tasks)
      ensures r.Ok? && tasks == map[] ==> r.value == []
    {
      var h := GetRealm();
      if h.Err? {
        return Err(h.error);
      }
      var pending := tasks.Keys;
      var listed: seq<Task> := [];
      while pending != {}
        invariant pending <= tasks.Keys
        invariant NewestFirst(listed) && DistinctIds(listed)
        invariant forall i | 0 <= i < |listed| ::
          listed[i].id in tasks && listed[i].id !in pending && tasks[listed[i].id] == listed[i]
        invariant forall id | id in tasks && id !in pending :: tasks[id] in listed
        decreases pending
      {
        var id :| id in pending;
        InsertKeepsDistinct(listed, tasks[id]);
        var before := listed;
        listed := InsertByCreated(listed, tasks[id]);
        pending := pending - {id};
        forall i | 0 <= i < |listed|
          ensures listed[i].id in tasks && listed[i].id !in pending && tasks[listed[i].id] == listed[i]
        {
          assert listed[i] in listed;
          if listed[i] != tasks[id] {
            var k :| 0 <= k < |before| && before[k] == listed[i];
          }
        }
      }
      assert listed != [] ==> listed[0].id in tasks;
      r := Ok(listed);
    }

    /** `deleteTask`: true exactly when the id was stored; afterwards it is not. */
    method DeleteTask(id: string) returns (r: Result<bool>)
      requires Valid()
      modifies this`tasks
      ensures Valid()
      ensures r.Ok? <==> open
      ensures r.Err? ==> r.error == NotInitialized && tasks == old(tasks)
      ensures r.Ok? ==> r.value == (id in old(tasks)) && tasks == old(tasks) - {id}
      ensures id !in old(tasks) ==> tasks == old(tasks)
      ensures r.Ok? ==> id !in tasks
      ensures AllConsistent(old(tasks)) ==> AllConsistent(tasks)
    {
      var h := GetRealm();
      if h.Err? {
        return Err(h.error);
      }
      if id in tasks {
        tasks := tasks - {id};
        return Ok(true);
      }
      return Ok(false);
    }

    /** `updateTask`: merges the supplied properties into the record with that id;
        a missing id gives null and changes nothing. */
    method UpdateTask(u: TaskUpdate, now: Timestamp) returns (r: Result<Option<Task>>)
      requires Valid()
      modifies this`tasks
      ensures Valid()
      ensures r.Ok? <==> open
      ensures r.Err? ==> r.error == NotInitialized && tasks == old(tasks)
      ensures r.Ok? && u.id !in old(tasks) ==> r.value == None && tasks == old(tasks)
      ensures r.Ok? && u.id in old(tasks) ==>
        && tasks == old(tasks)[u.id := Merged(old(tasks)[u.id], u, now)]
        && r.value == Some(tasks[u.id])
      ensures AllConsistent(old(tasks)) && AllKnownStatus(old(tasks)) && KeepsKnownStatus(u.status) ==>
        AllConsistent(tasks) && AllKnownStatus(tasks)
    {
      var h := GetRealm();
      if h.Err? {
        return Err(h.error);
      }
      if u.id !in tasks {
        return Ok(None);
      }
      var updated := Merged(tasks[u.id], u, now);
      tasks := tasks[u.id := updated];
      r := Ok(Some(updated));
      forall id | id in tasks && AllConsistent(old(tasks)) && AllKnownStatus(old(tasks)) && KeepsKnownStatus(u.status)
        ensures StatusConsistent(tasks[id]) && IsKnownStatus(tasks[id].status)
      {
        if id == u.id {
          MergedKeepsLifecycle(old(tasks)[id], u, now);
        }
      }
    }

    /** `updateTaskStatus`: sets the status of the record with that id and its
        completion time; false and no change when the id is not stored. */
    method UpdateTaskStatus(id: string, status: string, now: Timestamp) returns (r: Result<bool>)
      requires Valid()
      modifies this`tasks
      ensures Valid()
      ensures r.Ok? <==> open
      ensures r.Err? ==> r.error == NotInitialized && tasks == old(tasks)
      ensures r.Ok? ==> r.value == (id in old(tasks))
      ensures r.Ok? && id in old(tasks) ==> tasks == old(tasks)[id := StatusSet(old(tasks)[id], status, now)]
      ensures id !in old(tasks) ==> tasks == old(tasks)
      ensures AllConsistent(old(tasks)) ==> AllConsistent(tasks)
    {
      var h := GetRealm();
      if h.Err? {
        return Err(h.error);
      }
      if id !in tasks {
        return Ok(false);
      }
      tasks := tasks[id := StatusSet(tasks[id], status, now)];
      r := Ok(true);
    }
  }
}
