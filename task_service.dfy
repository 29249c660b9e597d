/** The task operations of data/task_service.go over the MongoDB collection,
    seen as a map from a document's `_id` to the task stored there. Each
    driver call either succeeds or fails with the error it returns, given as
    the parameter `fault`. */
module TaskService {
  import opened Results
  import opened Models

  const InvalidId: string := "invalid id"
  const NoFieldsToUpdate: string := "no fields to update"
  const NotFound: string := "not found"

  /** The document fields of a task that an update may set, by their names
      in the `$set` of `Update`. */
  const TitleField: string := "title"
  const DescriptionField: string := "description"
  const DueDateField: string := "dueDate"
  const StatusField: string := "status"

  /** The field of `t` an update field name stands for. */
  function FieldValue(t: Task, name: string): string
    requires name in {TitleField, DescriptionField, DueDateField, StatusField}
  {
    if name == TitleField then t.title
    else if name == DescriptionField then t.description
    else if name == DueDateField then t.dueDate
    else t.status
  }

  /** The update set for a payload: exactly its non-empty fields. */
  ghost predicate UpdateSetOf(fields: map<string, string>, updated: Task) {
    && fields.Keys <= {TitleField, DescriptionField, DueDateField, StatusField}
    && (forall name :: name in {TitleField, DescriptionField, DueDateField, StatusField} ==>
          (name in fields <==> FieldValue(updated, name) != ""))
    && (forall name :: name in fields ==> fields[name] == FieldValue(updated, name))
  }

  /** `$set`: the fields named in `fields` take their new values; the id and
      every other field stay. */
  function ApplySet(t: Task, fields: map<string, string>): Task {
    t.(title := if TitleField in fields then fields[TitleField] else t.title,
       description := if DescriptionField in fields then fields[DescriptionField] else t.description,
       dueDate := if DueDateField in fields then fields[DueDateField] else t.dueDate,
       status := if StatusField in fields then fields[StatusField] else t.status)
  }

  /** The intended effect of an update with payload `updated` on a stored
      task: a non-empty payload field replaces the stored one, an empty one
      never does. */
  function Patched(t: Task, updated: Task): (p: Task)
    ensures p.id == t.id
    ensures updated.title == "" ==> p.title == t.title
    ensures updated.title != "" ==> p.title == updated.title
    ensures updated.description == "" ==> p.description == t.description
    ensures updated.description != "" ==> p.description == updated.description
    ensures updated.dueDate == "" ==> p.dueDate == t.dueDate
    ensures updated.dueDate != "" ==> p.dueDate == updated.dueDate
    ensures updated.status == "" ==> p.status == t.status
    ensures updated.status != "" ==> p.status == updated.status
  {
    Task(t.id,
         if updated.title != "" then updated.title else t.title,
         if updated.description != "" then updated.description else t.description,
         if updated.dueDate != "" then updated.dueDate else t.dueDate,
         if updated.status != "" then updated.status else t.status)
  }

  /** Setting exactly the non-empty fields of a payload is `Patched`. */
  lemma ApplyUpdateSet(t: Task, fields: map<string, string>, updated: Task)
    requires UpdateSetOf(fields, updated)
    ensures ApplySet(t, fields) == Patched(t, updated)
  {
    assert TitleField in fields <==> updated.title != "";
    assert DescriptionField in fields <==> updated.description != "";
    assert DueDateField in fields <==> updated.dueDate != "";
    assert StatusField in fields <==> updated.status != "";
  }

  /** The update set is empty exactly when all four payload fields are. */
  lemma EmptyUpdateSet(fields: map<string, string>, updated: Task)
    requires UpdateSetOf(fields, updated)
    ensures |fields| == 0 <==>
      updated.title == "" && updated.description == "" && updated.dueDate == "" && updated.status == ""
  {
    assert TitleField in fields <==> updated.title != "";
    assert DescriptionField in fields <==> updated.description != "";
    assert DueDateField in fields <==> updated.dueDate != "";
    assert StatusField in fields <==> updated.status != "";
    if updated.title == "" && updated.description == "" && updated.dueDate == "" && updated.status == "" {
      assert fields.Keys == {};
    }
  }

  /** Patching is idempotent, and a payload with only empty fields changes
      nothing. */
  lemma PatchedIdempotent(t: Task, updated: Task)
    ensures Patched(Patched(t, updated), updated) == Patched(t, updated)
    ensures updated.title == "" && updated.description == "" && updated.dueDate == "" && updated.status == ""
      ==> Patched(t, updated) == t
  {
  }

  /** Building `updateFields` of `Update` (data/task_service.go:102-114): one
      conditional insert per field. */
  method BuildUpdateFields(updated: Task) returns (fields: map<string, string>)
    ensures UpdateSetOf(fields, updated)
  {
    fields := map[];
    if updated.title != "" {
      fields := fields[TitleField := updated.title];
    }
    if updated.description != "" {
      fields := fields[DescriptionField := updated.description];
    }
    if updated.dueDate != "" {
      fields := fields[DueDateField := updated.dueDate];
    }
    if updated.status != "" {
      fields := fields[StatusField := updated.status];
    }
  }

  class TaskStore {
    /** `primitive.ObjectIDFromHex`, the driver's parser of a hex id. */
    const objectIdFromHex: string -> Option<ObjectId>
    /** The documents of the collection, by `_id`. */
    var tasks: map<ObjectId, Task>

    constructor (objectIdFromHex: string -> Option<ObjectId>, tasks: map<ObjectId, Task>)
      ensures this.objectIdFromHex == objectIdFromHex && this.tasks == tasks
    {
      this.objectIdFromHex := objectIdFromHex;
      this.tasks := tasks;
    }

    /** `GetByID`: "invalid id" for an id that does not parse, the driver's
        error if the lookup fails, "not found" for a missing document, and
        the stored task otherwise. */
    function GetByID(id: string, fault: Option<string>): (r: Result<Task>)
      reads this
      ensures r.Ok? <==> objectIdFromHex(id).Some? && fault.None? && objectIdFromHex(id).value in tasks
      ensures r.Ok? ==> r.value == tasks[objectIdFromHex(id).value]
      ensures objectIdFromHex(id).None? ==> r == Err(InvalidId)
      ensures objectIdFromHex(id).Some? && fault.Some? ==> r == Err(fault.value)
      ensures objectIdFromHex(id).Some? && fault.None? && objectIdFromHex(id).value !in tasks ==> r == Err(NotFound)
    {
      match objectIdFromHex(id)
      case None => Err(InvalidId)
      case Some(oid) =>
        if fault.Some? then Err(fault.value)
        else if oid !in tasks then Err(NotFound)
        else Ok(tasks[oid])
    }

    /** `Create`: inserts `t` as a new document, under the fresh `_id` the
        driver generates, and returns `t` itself, unchanged. */
    method Create(t: Task, key: ObjectId, fault: Option<string>) returns (r: Result<Task>)
      requires key !in tasks
      modifies this
      ensures fault.Some? ==> r == Err(fault.value) && tasks == old(tasks)
      ensures fault.None? ==> r == Ok(t) && tasks == old(tasks)[key := t]
    {
      if fault.Some? {
        return Err(fault.value);
      }
      tasks := tasks[key := t];
      r := Ok(t);
    }

    /** `Update`: checks in order that the id parses and that some field is
        non-empty, then sets exactly the non-empty fields of the one matching
        task; a missing task is "not found". A failed call changes nothing. */
    method Update(id: string, updated: Task, fault: Option<string>) returns (r: Outcome)
      modifies this
      ensures objectIdFromHex(id).None? ==> r == Fail(InvalidId) && tasks == old(tasks)
      ensures objectIdFromHex(id).Some? ==>
        var oid := objectIdFromHex(id).value;
        if updated.title == "" && updated.description == "" && updated.dueDate == "" && updated.status == "" then
          r == Fail(NoFieldsToUpdate) && tasks == old(tasks)
        else if fault.Some? then
          r == Fail(fault.value) && tasks == old(tasks)
        else if oid !in old(tasks) then
          r == Fail(NotFound) && tasks == old(tasks)
        else
          r == Pass && tasks == old(tasks)[oid := Patched(old(tasks)[oid], updated)]
    {
      var parsed := objectIdFromHex(id);
      if parsed.None? {
        return Fail(InvalidId);
      }
      var oid := parsed.value;
      var fields := BuildUpdateFields(updated);
      EmptyUpdateSet(fields, updated);
      if |fields| == 0 {
        return Fail(NoFieldsToUpdate);
      }
      if fault.Some? {
        return Fail(fault.value);
      }
      if oid !in tasks {
        return Fail(NotFound);
      }
      ApplyUpdateSet(tasks[oid], fields, updated);
      tasks := tasks[oid := ApplySet(tasks[oid], fields)];
      r := Pass;
    }

    /** `Delete`: removes exactly the one document with that id; "invalid id"
        and "not found" change nothing. */
    method Delete(id: string, fault: Option<string>) returns (r: Outcome)
      modifies this
      ensures objectIdFromHex(id).None? ==> r == Fail(InvalidId) && tasks == old(tasks)
      ensures objectIdFromHex(id).Some? ==>
        var oid := objectIdFromHex(id).value;
        if fault.Some? then r == Fail(fault.value) && tasks == old(tasks)
        else if oid !in old(tasks) then r == Fail(NotFound) && tasks == old(tasks)
        else r == Pass && tasks == old(tasks) - {oid}
    {
      var parsed := objectIdFromHex(id);
      if parsed.None? {
        return Fail(InvalidId);
      }
      var oid := parsed.value;
      if fault.Some? {
        return Fail(fault.value);
      }
      if oid !in tasks {
        return Fail(NotFound);
      }
      tasks := tasks - {oid};
      r := Pass;
    }
  }
}
