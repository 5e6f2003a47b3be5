/** The `tasks` table (app.py lines 44-62) and the five task handlers (app.py lines 108-164), as
    functions from a table to a result and a new table. Every handler acts for one caller, the owner
    id taken from the access token. */
module Tasks {
  import opened Outcomes
  import opened Text

  /** A row of `tasks`. */
  datatype Task = Task(text: string, done: bool, ownerId: int)

  /** `Task.as_dict`: what the handlers send back about a task. */
  datatype TaskView = TaskView(id: int, text: string, done: bool, ownerId: int)

  /** The body of an update request: a field is present or absent. */
  datatype Patch = Patch(text: Option<string>, done: Option<bool>)

  type Table = map<int, Task>

  /** A handler's answer together with the table it leaves behind. */
  datatype Step<T> = Step(result: Result<T>, table: Table)

  /** `Task.as_dict`: the id, the text, the flag and the owner id, as stored. */
  function AsDict(id: int, t: Task): (v: TaskView)
    ensures v.id == id && v.text == t.text && v.done == t.done && v.ownerId == t.ownerId
  {
    TaskView(id, t.text, t.done, t.ownerId)
  }

  /** `Task.query.filter_by(id=id, owner_id=owner).first()`: one filter on both columns, so a task of
      another owner is found no more than a missing one. */
  function Lookup(t: Table, id: int, owner: int): (r: Option<Task>)
    ensures r.Some? <==> id in t && t[id].ownerId == owner
    ensures r.Some? ==> r.value == t[id]
  {
    if id in t && t[id].ownerId == owner then Some(t[id]) else None
  }

  /** `get_tasks`: the views of exactly the caller's tasks. */
  function Listing(t: Table, owner: int): (r: set<TaskView>)
    ensures forall v :: v in r ==> v.ownerId == owner && v.id in t && v == AsDict(v.id, t[v.id])
    ensures forall id :: id in t && t[id].ownerId == owner ==> AsDict(id, t[id]) in r
  {
    set id | id in t && t[id].ownerId == owner :: AsDict(id, t[id])
  }

  /** `add_task`: blank text after trimming is InvalidInput and changes nothing; otherwise one task
      is added under the fresh id, with the trimmed text, not done, owned by the caller. */
  function Create(t: Table, freshId: int, owner: int, text: string): (s: Step<TaskView>)
    requires freshId !in t
    ensures s.result == Err(InvalidInput) <==> AllSpace(text)
    ensures s.result.Ok? <==> !AllSpace(text)
    ensures s.result.Err? ==> s.table == t
    ensures s.result.Ok? ==>
              && s.table.Keys == t.Keys + {freshId}
              && (forall id :: id in t ==> s.table[id] == t[id])
              && s.table[freshId] == Task(Trim(text), false, owner)
              && s.result.value == AsDict(freshId, s.table[freshId])
  {
    var x := Trim(text);
    if x == [] then Step(Err(InvalidInput), t)
    else Step(Ok(AsDict(freshId, Task(x, false, owner))), t[freshId := Task(x, false, owner)])
  }

  /** The field assignments of `update_task`: a present field is stored as given, an absent one is
      kept, and the owner never changes. */
  function Apply(task: Task, patch: Patch): (r: Task)
    ensures r.ownerId == task.ownerId
    ensures r.text == (if patch.text.Some? then patch.text.value else task.text)
    ensures r.done == (if patch.done.Some? then patch.done.value else task.done)
  {
    var task := if patch.text.Some? then task.(text := patch.text.value) else task;
    if patch.done.Some? then task.(done := patch.done.value) else task
  }

  /** `update_task`: NotFound and no change unless the caller owns the id; otherwise only that task
      changes, by `Apply`. */
  function Update(t: Table, id: int, owner: int, patch: Patch): (s: Step<TaskView>)
    ensures s.result == Err(NotFound) <==> Lookup(t, id, owner).None?
    ensures s.result.Ok? <==> Lookup(t, id, owner).Some?
    ensures s.result.Err? ==> s.table == t
    ensures s.table.Keys == t.Keys
    ensures forall k :: k in t && k != id ==> s.table[k] == t[k]
    ensures s.result.Ok? ==> s.table[id] == Apply(t[id], patch) && s.result.value == AsDict(id, s.table[id])
  {
    match Lookup(t, id, owner)
    case None => Step(Err(NotFound), t)
    case Some(task) =>
      var task' := Apply(task, patch);
      Step(Ok(AsDict(id, task')), t[id := task'])
  }

  /** `toggle_done`: NotFound and no change unless the caller owns the id; otherwise only that task
      changes, and only its completion flag, which is negated. */
  function Toggle(t: Table, id: int, owner: int): (s: Step<TaskView>)
    ensures s.result == Err(NotFound) <==> Lookup(t, id, owner).None?
    ensures s.result.Ok? <==> Lookup(t, id, owner).Some?
    ensures s.result.Err? ==> s.table == t
    ensures s.table.Keys == t.Keys
    ensures forall k :: k in t && k != id ==> s.table[k] == t[k]
    ensures s.result.Ok? ==>
              && s.table[id] == t[id].(done := !t[id].done)
              && s.result.value == AsDict(id, s.table[id])
  {
    match Lookup(t, id, owner)
    case None => Step(Err(NotFound), t)
    case Some(task) =>
      var task' := task.(done := !task.done);
      Step(Ok(AsDict(id, task')), t[id := task'])
  }

  /** `delete_task`: NotFound and no change unless the caller owns the id; otherwise exactly that row
      is removed. */
  function Delete(t: Table, id: int, owner: int): (s: Step<()>)
    ensures s.result == Err(NotFound) <==> Lookup(t, id, owner).None?
    ensures s.result.Ok? <==> Lookup(t, id, owner).Some?
    ensures s.result.Err? ==> s.table == t
    ensures s.result.Ok? ==> s.table.Keys == t.Keys - {id} && |s.table| == |t| - 1
    ensures forall k :: k in s.table ==> k in t && s.table[k] == t[k]
  {
    match Lookup(t, id, owner)
    case None => Step(Err(NotFound), t)
    case Some(_) => Step(Ok(()), t - {id})
  }

  // ---- Ownership isolation ------------------------------------------------------------------

  /** A task of another owner is, for the caller, the same as no task at all: every handler that
      takes an id answers NotFound and changes nothing. */
  lemma {:induction false} ForeignIsMissing(t: Table, id: int, owner: int, patch: Patch)
    requires id in t && t[id].ownerId != owner
    ensures Update(t, id, owner, patch) == Step(Err(NotFound), t)
    ensures Toggle(t, id, owner) == Step(Err(NotFound), t)
    ensures Delete(t, id, owner) == Step(Err(NotFound), t)
    ensures Update(t, id, owner, patch).result == Update(t - {id}, id, owner, patch).result
    ensures Toggle(t, id, owner).result == Toggle(t - {id}, id, owner).result
    ensures Delete(t, id, owner).result == Delete(t - {id}, id, owner).result
  {
  }

  /** Two tables that hold the same tasks for `other` list the same for `other`. */
  lemma {:induction false} ListingDependsOnOwnTasks(t: Table, t': Table, other: int)
    requires forall k :: k in t && t[k].ownerId == other ==> k in t' && t'[k] == t[k]
    requires forall k :: k in t' && t'[k].ownerId == other ==> k in t && t[k] == t'[k]
    ensures Listing(t', other) == Listing(t, other)
  {
    forall v | v in Listing(t, other) ensures v in Listing(t', other) {
      assert t'[v.id] == t[v.id];
    }
    forall v | v in Listing(t', other) ensures v in Listing(t, other) {
      assert t[v.id] == t'[v.id];
    }
  }

  /** Adding a task for the caller changes nothing any other owner lists. */
  lemma {:induction false} CreateIsolated(t: Table, freshId: int, owner: int, other: int, text: string)
    requires freshId !in t && other != owner
    ensures Listing(Create(t, freshId, owner, text).table, other) == Listing(t, other)
  {
    ListingDependsOnOwnTasks(t, Create(t, freshId, owner, text).table, other);
  }

  /** An update by the caller changes nothing any other owner lists. */
  lemma {:induction false} UpdateIsolated(t: Table, id: int, owner: int, other: int, patch: Patch)
    requires other != owner
    ensures Listing(Update(t, id, owner, patch).table, other) == Listing(t, other)
  {
    ListingDependsOnOwnTasks(t, Update(t, id, owner, patch).table, other);
  }

  /** A toggle by the caller changes nothing any other owner lists. */
  lemma {:induction false} ToggleIsolated(t: Table, id: int, owner: int, other: int)
    requires other != owner
    ensures Listing(Toggle(t, id, owner).table, other) == Listing(t, other)
  {
    ListingDependsOnOwnTasks(t, Toggle(t, id, owner).table, other);
  }

  /** A delete by the caller changes nothing any other owner lists. */
  lemma {:induction false} DeleteIsolated(t: Table, id: int, owner: int, other: int)
    requires other != owner
    ensures Listing(Delete(t, id, owner).table, other) == Listing(t, other)
  {
    ListingDependsOnOwnTasks(t, Delete(t, id, owner).table, other);
  }

  /** After a successful `add_task` the caller lists what they listed before plus the new task. */
  lemma {:induction false} CreateThenListed(t: Table, freshId: int, owner: int, text: string)
    requires freshId !in t && Create(t, freshId, owner, text).result.Ok?
    ensures Listing(Create(t, freshId, owner, text).table, owner)
              == Listing(t, owner) + {TaskView(freshId, Trim(text), false, owner)}
  {
    var t' := Create(t, freshId, owner, text).table;
    var added := TaskView(freshId, Trim(text), false, owner);
    forall v | v in Listing(t', owner) ensures v in Listing(t, owner) + {added} {
      if v.id != freshId { assert t'[v.id] == t[v.id]; }
    }
    assert added in Listing(t', owner);
  }

  // ---- Per-handler properties ---------------------------------------------------------------

  /** Toggling twice restores the table, and the first toggle reports the flag negated. */
  lemma {:induction false} ToggleTwice(t: Table, id: int, owner: int)
    ensures Toggle(Toggle(t, id, owner).table, id, owner).table == t
    ensures Toggle(t, id, owner).result.Ok? ==> Toggle(t, id, owner).result.value.done == !t[id].done
  {
    var s := Toggle(t, id, owner);
    if s.result.Ok? {
      var s2 := Toggle(s.table, id, owner);
      assert s2.table[id] == t[id];
    }
  }

  /** An update with neither field is a no-op that answers with the task as it is. */
  lemma {:induction false} EmptyPatchIsNoOp(t: Table, id: int, owner: int)
    requires id in t && t[id].ownerId == owner
    ensures Update(t, id, owner, Patch(None, None)) == Step(Ok(AsDict(id, t[id])), t)
  {
    assert t[id := t[id]] == t;
  }

  /** An update that gives only the text leaves the completion flag as it was, and vice versa. */
  lemma {:induction false} PatchTouchesOnlyGivenFields(t: Table, id: int, owner: int, text: string, done: bool)
    requires id in t && t[id].ownerId == owner
    ensures Update(t, id, owner, Patch(Some(text), None)).table[id] == t[id].(text := text)
    ensures Update(t, id, owner, Patch(None, Some(done))).table[id] == t[id].(done := done)
  {
  }

  /** Updating twice with one request is updating once. */
  lemma {:induction false} UpdateIdempotent(t: Table, id: int, owner: int, patch: Patch)
    ensures var t' := Update(t, id, owner, patch).table;
            Update(t', id, owner, patch) == Update(t, id, owner, patch)
  {
    var s := Update(t, id, owner, patch);
    if s.result.Ok? {
      var task' := s.table[id];
      assert Apply(task', patch) == task';
      assert s.table[id := task'] == s.table;
    }
  }

  /** Unlike `add_task`, `update_task` neither trims nor checks the text: an owned task can be given
      a blank text. */
  lemma {:induction false} UpdateAcceptsBlankText(t: Table, id: int, owner: int, blank: string)
    requires id in t && t[id].ownerId == owner && AllSpace(blank)
    ensures Update(t, id, owner, Patch(Some(blank), None)).result.Ok?
    ensures AllSpace(Update(t, id, owner, Patch(Some(blank), None)).table[id].text)
  {
  }

  /** After a successful delete the id is gone for every caller. */
  lemma {:induction false} DeleteThenNotFound(t: Table, id: int, owner: int, anyone: int, patch: Patch)
    requires Delete(t, id, owner).result.Ok?
    ensures var t' := Delete(t, id, owner).table;
            && Update(t', id, anyone, patch).result == Err(NotFound)
            && Toggle(t', id, anyone).result == Err(NotFound)
            && Delete(t', id, anyone).result == Err(NotFound)
  {
  }
}
