/**
 * The request and configuration provider: three cached collections (requests,
 * form fields, statuses) loaded from their tables, and optimistic mutations that
 * change the cache first and then send the remote call, never rolling back.
 */
module RequestContext {
  import opened Wrappers
  import opened Seqs
  import opened Keyed
  import opened Text
  import opened Entities
  import opened Remote
  import opened Sync
  import opened Seed

  function RequestId(r: Request): int { r.id }
  function FieldId(f: FormField): string { f.id }
  function StatusId(s: Status): string { s.id }

  // ---- Pure cache transforms --------------------------------------------------

  /** `getRequestById`: the first cached request with that id. */
  function FindRequest(requests: seq<Request>, id: int): (r: Option<Request>)
    ensures r.Some? ==> r.value in requests && r.value.id == id
    ensures r.Some? ==>
      exists i :: 0 <= i < |requests| && requests[i] == r.value && forall j :: 0 <= j < i ==> requests[j].id != id
    ensures r.None? <==> forall i :: 0 <= i < |requests| ==> requests[i].id != id
  {
    FindByKeySpec(requests, RequestId, id);
    FindByKey(requests, RequestId, id)
  }

  /** `{...request, id: Date.now()}` */
  function NewRequest(draft: Request, now: nat): Request
  {
    draft.(id := now)
  }

  function UpdateRequests(requests: seq<Request>, id: int, p: RequestPatch): seq<Request>
  {
    UpdateByKey(requests, RequestId, id, MergeRequest, p)
  }

  function DeleteRequests(requests: seq<Request>, id: int): seq<Request>
  {
    RemoveByKey(requests, RequestId, id)
  }

  /** The field `addFormField` creates from a label and an input kind. */
  function NewFormField(caption: string, kind: FieldKind, now: nat): FormField
  {
    FormField("custom-" + NatToString(now), caption, kind, true, false, false, Bool(true))
  }

  function UpdateFields(fields: seq<FormField>, id: string, p: FormFieldPatch): seq<FormField>
  {
    UpdateByKey(fields, FieldId, id, MergeFormField, p)
  }

  function DeleteFields(fields: seq<FormField>, id: string): seq<FormField>
  {
    RemoveByKey(fields, FieldId, id)
  }

  /** `{...status, id: 'status-' + Date.now()}` */
  function NewStatus(name: string, color: string, now: nat): Status
  {
    Status("status-" + NatToString(now), name, color)
  }

  function UpdateStatuses(statuses: seq<Status>, id: string, p: StatusPatch): seq<Status>
  {
    UpdateByKey(statuses, StatusId, id, MergeStatus, p)
  }

  function DeleteStatuses(statuses: seq<Status>, id: string): seq<Status>
  {
    RemoveByKey(statuses, StatusId, id)
  }

  /** A loaded field keeps a defined `isVisibleInList` (even `null`); a missing one takes `isStandard`. */
  function BackFill(f: FormField): (r: FormField)
    ensures r.isVisibleInList != Absent
    ensures r.(isVisibleInList := f.isVisibleInList) == f
    ensures f.isVisibleInList != Absent ==> r == f
    ensures f.isVisibleInList == Absent ==> r.isVisibleInList == Bool(f.isStandard)
  {
    if f.isVisibleInList == Absent then f.(isVisibleInList := Bool(f.isStandard)) else f
  }

  function BackFillAll(fields: seq<FormField>): seq<FormField>
  {
    seq(|fields|, i requires 0 <= i < |fields| => BackFill(fields[i]))
  }

  /** The field cache after a load of `form_fields`: only a non-empty first select is back-filled. */
  function FieldsAfterLoad(load: Load<FormField>, cache: seq<FormField>): seq<FormField>
  {
    match load
    case Failed(_) => cache
    case Found(rows) => BackFillAll(rows)
    case Seeded(reload) => if reload.Ok? then reload.value else cache
  }

  /** The status cache after a load of `statuses`. */
  function StatusesAfterLoad(load: Load<Status>, cache: seq<Status>): seq<Status>
  {
    match load
    case Failed(_) => cache
    case Found(rows) => rows
    case Seeded(reload) => if reload.Ok? then reload.value else cache
  }

  // ---- Properties of the transforms ---------------------------------------------

  /**
   * After `addRequest` the new request leads the cache with id `now`, lookup by `now`
   * returns it, and the previous cache follows unchanged.
   */
  lemma AddRequestThenFind(requests: seq<Request>, draft: Request, now: nat)
    ensures var added := [NewRequest(draft, now)] + requests;
      && FindRequest(added, now) == Some(NewRequest(draft, now))
      && added[0].id == now && added[1..] == requests
      && NewRequest(draft, now) == draft.(id := now)
  {
    FindByKeyFront(NewRequest(draft, now), requests, RequestId);
  }

  /**
   * `updateRequest(id, p)` keeps length and order, merges `p` into the entries with
   * that id, leaves the others, and changes nothing when no entry has the id.
   */
  lemma UpdateRequestsSpec(requests: seq<Request>, id: int, p: RequestPatch)
    ensures |UpdateRequests(requests, id, p)| == |requests|
    ensures forall i :: 0 <= i < |requests| && requests[i].id == id ==>
      UpdateRequests(requests, id, p)[i] == MergeRequest(requests[i], p)
    ensures forall i :: 0 <= i < |requests| && requests[i].id != id ==>
      UpdateRequests(requests, id, p)[i] == requests[i]
    ensures FindRequest(requests, id).None? ==> UpdateRequests(requests, id, p) == requests
  {
    UpdateByKeySpec(requests, RequestId, id, MergeRequest, p);
    FindByKeySpec(requests, RequestId, id);
  }

  /**
   * `deleteRequest(id)` removes every entry with that id, keeps every other entry,
   * and leaves lookup by that id undefined.
   */
  lemma DeleteRequestsSpec(requests: seq<Request>, id: int)
    ensures forall i :: 0 <= i < |DeleteRequests(requests, id)| ==> DeleteRequests(requests, id)[i].id != id
    ensures forall i :: 0 <= i < |requests| && requests[i].id != id ==> requests[i] in DeleteRequests(requests, id)
    ensures FindRequest(DeleteRequests(requests, id), id).None?
    ensures FindRequest(requests, id).None? ==> DeleteRequests(requests, id) == requests
  {
    RemoveByKeySpec(requests, RequestId, id);
    FindByKeySpec(requests, RequestId, id);
  }

  /** Deleting keeps the survivors in order: it distributes over concatenation. */
  lemma DeleteRequestsKeepsOrder(a: seq<Request>, b: seq<Request>, id: int)
    ensures DeleteRequests(a + b, id) == DeleteRequests(a, id) + DeleteRequests(b, id)
  {
    RemoveByKeyAppend(a, b, RequestId, id);
  }

  /** The same three facts for form fields and statuses, which use the same transforms. */
  lemma FieldAndStatusTransforms(fields: seq<FormField>, statuses: seq<Status>, id: string,
                                 fp: FormFieldPatch, sp: StatusPatch)
    ensures |UpdateFields(fields, id, fp)| == |fields| && |UpdateStatuses(statuses, id, sp)| == |statuses|
    ensures forall i :: 0 <= i < |fields| ==>
      UpdateFields(fields, id, fp)[i] == if fields[i].id == id then MergeFormField(fields[i], fp) else fields[i]
    ensures forall i :: 0 <= i < |statuses| ==>
      UpdateStatuses(statuses, id, sp)[i] == if statuses[i].id == id then MergeStatus(statuses[i], sp) else statuses[i]
    ensures FindByKey(DeleteFields(fields, id), FieldId, id).None?
    ensures FindByKey(DeleteStatuses(statuses, id), StatusId, id).None?
  {
    UpdateByKeySpec(fields, FieldId, id, MergeFormField, fp);
    UpdateByKeySpec(statuses, StatusId, id, MergeStatus, sp);
    RemoveByKeySpec(fields, FieldId, id);
    RemoveByKeySpec(statuses, StatusId, id);
  }

  /**
   * A field added through `addFormField` is a custom one: id `custom-<now>` (never a
   * standard id), active, optional, not standard, listed, with the given label and kind.
   */
  lemma NewFormFieldSpec(caption: string, kind: FieldKind, now: nat)
    ensures var f := NewFormField(caption, kind, now);
      && f.id[..7] == "custom-" && f.id[7..] == NatToString(now)
      && f.isActive && !f.required && !f.isStandard && f.isVisibleInList == Bool(true)
      && f.caption == caption && f.kind == kind
      && f.id !in StandardFieldIds
    ensures forall later: nat :: NewFormField(caption, kind, later).id == NewFormField(caption, kind, now).id ==>
      later == now
  {
    forall later: nat | NewFormField(caption, kind, later).id == NewFormField(caption, kind, now).id
      ensures later == now
    {
      TaggedIdInjective("custom-", later, now);
    }
    var f := NewFormField(caption, kind, now);
    assert f.id[..7] == "custom-";
    forall k | 0 <= k < |StandardFieldIds| ensures f.id != StandardFieldIds[k] {
      assert f.id[0] == 'c' && StandardFieldIds[k][0] != 'c';
    }
  }

  /**
   * Statuses added at different times get different ids, and an added status can
   * only share an id with a seeded status `status-k` when it was added at time `k`.
   */
  lemma NewStatusSpec(name: string, color: string, a: nat, b: nat)
    ensures NewStatus(name, color, a).id == NewStatus(name, color, b).id <==> a == b
    ensures forall i :: 0 <= i < |InitialStatuses| && InitialStatuses[i].id == NewStatus(name, color, a).id ==>
      a == i + 1
    ensures NewStatus(name, color, a).name == name && NewStatus(name, color, a).color == color
  {
    TaggedIdInjective("status-", a, b);
    forall i | 0 <= i < |InitialStatuses| && InitialStatuses[i].id == NewStatus(name, color, a).id
      ensures a == i + 1
    {
      assert NatToString(i + 1) == ["0123456789"[i + 1]];
      assert InitialStatuses[i].id == "status-" + NatToString(i + 1);
      TaggedIdInjective("status-", a, i + 1);
    }
  }

  /**
   * The back-fill keeps length and order; each field keeps a defined flag, takes
   * `isStandard` when the flag is missing, and keeps every other attribute.
   */
  lemma BackFillSpec(fields: seq<FormField>)
    ensures |BackFillAll(fields)| == |fields|
    ensures forall i :: 0 <= i < |fields| ==>
      && BackFillAll(fields)[i].isVisibleInList != Absent
      && (fields[i].isVisibleInList != Absent ==> BackFillAll(fields)[i] == fields[i])
      && (fields[i].isVisibleInList == Absent ==>
            BackFillAll(fields)[i] == fields[i].(isVisibleInList := Bool(fields[i].isStandard)))
  {
  }

  /** Back-filling twice is back-filling once, so a reload of a back-filled cache is stable. */
  lemma BackFillIdempotent(fields: seq<FormField>)
    ensures BackFillAll(BackFillAll(fields)) == BackFillAll(fields)
  {
    var once := BackFillAll(fields);
    forall i | 0 <= i < |fields| ensures BackFillAll(once)[i] == once[i] {
      assert once[i].isVisibleInList != Absent;
    }
  }

  /**
   * A failed select, with a missing-table code or any other, leaves the field and
   * status caches as they were, whatever the table holds; so does a failed reselect
   * after seeding. A successful select of rows replaces the field cache by their
   * back-filled copy.
   */
  lemma LoadErrorKeepsCaches(fieldRows: seq<FormField>, statusRows: seq<Status>, n: nat, m: nat,
                             faultAt: nat -> Option<string>, fields: seq<FormField>, statuses: seq<Status>)
    ensures faultAt(n).Some? ==> FieldsAfterLoad(Expected(fieldRows, InitialFormFields, n, faultAt), fields) == fields
    ensures faultAt(m).Some? ==> StatusesAfterLoad(Expected(statusRows, InitialStatuses, m, faultAt), statuses) == statuses
    ensures fieldRows == [] && faultAt(n + 1 + |InitialFormFields|).Some? ==>
      FieldsAfterLoad(Expected(fieldRows, InitialFormFields, n, faultAt), fields) == fields
    ensures statusRows == [] && faultAt(m + 1 + |InitialStatuses|).Some? ==>
      StatusesAfterLoad(Expected(statusRows, InitialStatuses, m, faultAt), statuses) == statuses
    ensures faultAt(n).None? && fieldRows != [] ==>
      FieldsAfterLoad(Expected(fieldRows, InitialFormFields, n, faultAt), fields) == BackFillAll(fieldRows)
  {
  }

  /**
   * First run against empty `form_fields` and `statuses` tables whose calls all succeed:
   * the caches become exactly the seed rows, and the seeded fields are not back-filled.
   */
  lemma FirstRunCaches(n: nat, m: nat, faultAt: nat -> Option<string>, fields: seq<FormField>, statuses: seq<Status>)
    requires forall c :: n <= c <= n + |InitialFormFields| + 2 ==> faultAt(c).None?
    requires forall c :: m <= c <= m + |InitialStatuses| + 2 ==> faultAt(c).None?
    ensures FieldsAfterLoad(Expected([], InitialFormFields, n, faultAt), fields) == InitialFormFields
    ensures StatusesAfterLoad(Expected([], InitialStatuses, m, faultAt), statuses) == InitialStatuses
    ensures forall i :: 0 <= i < |InitialFormFields| ==> InitialFormFields[i].isVisibleInList == Absent
  {
    SeedingIsIdempotent(InitialFormFields, n, faultAt);
    SeedingIsIdempotent(InitialStatuses, m, faultAt);
  }

  // ---- The provider -------------------------------------------------------------

  class RequestStore {
    var requests: seq<Request>
    var formFields: seq<FormField>
    var statuses: seq<Status>
    var loading: bool
    const requestsTable: Table<Request, int, RequestPatch>
    const fieldsTable: Table<FormField, string, FormFieldPatch>
    const statusesTable: Table<Status, string, StatusPatch>

    /** Three distinct tables, each keyed by `id` and merging patches with `{...row, ...patch}`. */
    ghost predicate Valid()
    {
      && requestsTable as object != fieldsTable as object
      && requestsTable as object != statusesTable as object
      && fieldsTable as object != statusesTable as object
      && requestsTable.key == RequestId && requestsTable.merge == MergeRequest
      && fieldsTable.key == FieldId && fieldsTable.merge == MergeFormField
      && statusesTable.key == StatusId && statusesTable.merge == MergeStatus
    }

    constructor (requestsTable: Table<Request, int, RequestPatch>,
                 fieldsTable: Table<FormField, string, FormFieldPatch>,
                 statusesTable: Table<Status, string, StatusPatch>)
      requires requestsTable as object != fieldsTable as object
      requires requestsTable as object != statusesTable as object
      requires fieldsTable as object != statusesTable as object
      requires requestsTable.key == RequestId && requestsTable.merge == MergeRequest
      requires fieldsTable.key == FieldId && fieldsTable.merge == MergeFormField
      requires statusesTable.key == StatusId && statusesTable.merge == MergeStatus
      ensures Valid()
      ensures this.requestsTable == requestsTable && this.fieldsTable == fieldsTable
      ensures this.statusesTable == statusesTable
      ensures requests == [] && formFields == [] && statuses == [] && loading
    {
      this.requestsTable := requestsTable;
      this.fieldsTable := fieldsTable;
      this.statusesTable := statusesTable;
      requests, formFields, statuses := [], [], [];
      loading := true;
    }

    /** `getRequestById` */
    function GetRequestById(id: int): Option<Request>
      reads this
    {
      FindRequest(requests, id)
    }

    /** `fetchRequests`: the cache becomes the table's rows when the select succeeds. */
    method FetchRequests()
      requires Valid()
      modifies this, requestsTable
      ensures requestsTable.log == old(requestsTable.log) + [Selected]
      ensures requestsTable.rows == old(requestsTable.rows)
      ensures requests == if old(requestsTable.NextFault()).None? then requestsTable.rows else old(requests)
      ensures formFields == old(formFields) && statuses == old(statuses) && loading == old(loading)
    {
      var res := requestsTable.Select();
      if res.Ok? {
        requests := res.value;
      }
      // On an error (a missing table or any other) the cache stays as it was.
    }

    /**
     * `fetchConfigs`: load `form_fields` then `statuses`, each with seeding of an empty
     * table; a non-empty field load is back-filled; errors leave the caches alone.
     */
    method FetchConfigs()
      requires Valid()
      modifies this, fieldsTable, statusesTable
      ensures var f := Expected(old(fieldsTable.rows), InitialFormFields, old(|fieldsTable.log|), fieldsTable.faultAt);
        formFields == FieldsAfterLoad(f, old(formFields))
      ensures var s := Expected(old(statusesTable.rows), InitialStatuses, old(|statusesTable.log|), statusesTable.faultAt);
        statuses == StatusesAfterLoad(s, old(statuses))
      ensures LoadedTable(old(fieldsTable.rows), old(fieldsTable.log), fieldsTable.rows, fieldsTable.log,
                          InitialFormFields, fieldsTable.faultAt)
      ensures LoadedTable(old(statusesTable.rows), old(statusesTable.log), statusesTable.rows, statusesTable.log,
                          InitialStatuses, statusesTable.faultAt)
      ensures requests == old(requests) && loading == old(loading)
      ensures old(fieldsTable.NextFault()).Some? ==> formFields == old(formFields)
      ensures old(statusesTable.NextFault()).Some? ==> statuses == old(statuses)
    {
      var fields := LoadWithSeed(fieldsTable, InitialFormFields);
      match fields {
        case Failed(_) =>
        case Found(rows) => formFields := BackFillAll(rows);
        case Seeded(reload) =>
          if reload.Ok? {
            formFields := reload.value;
          }
      }
      var sts := LoadWithSeed(statusesTable, InitialStatuses);
      match sts {
        case Failed(_) =>
        case Found(rows) => statuses := rows;
        case Seeded(reload) =>
          if reload.Ok? {
            statuses := reload.value;
          }
      }
    }

    /** `loadAll`: both loads, with `loading` false once they are done. */
    method LoadAll()
      requires Valid()
      modifies this, requestsTable, fieldsTable, statusesTable
      ensures !loading
      ensures requestsTable.rows == old(requestsTable.rows)
      ensures requestsTable.log == old(requestsTable.log) + [Selected]
      ensures requests == if old(requestsTable.NextFault()).None? then old(requestsTable.rows) else old(requests)
      ensures var f := Expected(old(fieldsTable.rows), InitialFormFields, old(|fieldsTable.log|), fieldsTable.faultAt);
        formFields == FieldsAfterLoad(f, old(formFields))
      ensures var s := Expected(old(statusesTable.rows), InitialStatuses, old(|statusesTable.log|), statusesTable.faultAt);
        statuses == StatusesAfterLoad(s, old(statuses))
      ensures LoadedTable(old(fieldsTable.rows), old(fieldsTable.log), fieldsTable.rows, fieldsTable.log,
                          InitialFormFields, fieldsTable.faultAt)
      ensures LoadedTable(old(statusesTable.rows), old(statusesTable.log), statusesTable.rows, statusesTable.log,
                          InitialStatuses, statusesTable.faultAt)
    {
      loading := true;
      FetchConfigs();
      FetchRequests();
      loading := false;
    }

    /** `addRequest`: prepend the request with id `now`, then insert it. */
    method AddRequest(draft: Request, now: nat)
      requires Valid()
      modifies this, requestsTable
      ensures requests == [NewRequest(draft, now)] + old(requests)
      ensures requestsTable.log == old(requestsTable.log) + [Inserted(NewRequest(draft, now))]
      ensures requestsTable.rows ==
        if old(requestsTable.NextFault()).None? then old(requestsTable.rows) + [NewRequest(draft, now)]
        else old(requestsTable.rows)
      ensures old(multiset(requests)) == old(multiset(requestsTable.rows)) && old(requestsTable.NextFault()).None?
        ==> multiset(requests) == multiset(requestsTable.rows)
      ensures formFields == old(formFields) && statuses == old(statuses) && loading == old(loading)
    {
      var added := NewRequest(draft, now);
      requests := [added] + requests;
      requestsTable.Insert(added);
    }

    /** `updateRequest`: merge the patch into the cached entries with the id, then update remotely. */
    method UpdateRequest(id: int, p: RequestPatch)
      requires Valid()
      modifies this, requestsTable
      ensures requests == UpdateRequests(old(requests), id, p)
      ensures requestsTable.log == old(requestsTable.log) + [Updated(id, p)]
      ensures old(requests) == old(requestsTable.rows) && old(requestsTable.NextFault()).None?
        ==> requests == requestsTable.rows
      ensures formFields == old(formFields) && statuses == old(statuses) && loading == old(loading)
      ensures requestsTable.rows ==
        if old(requestsTable.NextFault()).None? then UpdateRequests(old(requestsTable.rows), id, p)
        else old(requestsTable.rows)
    {
      requests := UpdateRequests(requests, id, p);
      requestsTable.Update(id, p);
    }

    /** `deleteRequest`: drop the cached entries with the id, then delete remotely. */
    method DeleteRequest(id: int)
      requires Valid()
      modifies this, requestsTable
      ensures requests == DeleteRequests(old(requests), id)
      ensures requestsTable.log == old(requestsTable.log) + [Deleted(id)]
      ensures old(requests) == old(requestsTable.rows) && old(requestsTable.NextFault()).None?
        ==> requests == requestsTable.rows
      ensures formFields == old(formFields) && statuses == old(statuses) && loading == old(loading)
      ensures requestsTable.rows ==
        if old(requestsTable.NextFault()).None? then DeleteRequests(old(requestsTable.rows), id)
        else old(requestsTable.rows)
    {
      requests := DeleteRequests(requests, id);
      requestsTable.Delete(id);
    }

    /** `updateFormFields`: replace the field cache, then upsert every field in order. */
    method UpdateFormFields(fields: seq<FormField>)
      requires Valid()
      modifies this, fieldsTable
      ensures formFields == fields
      ensures fieldsTable.log == old(fieldsTable.log) + Upserts(fields)
      ensures fieldsTable.rows == UpsertAll(old(fieldsTable.rows), fields, old(|fieldsTable.log|), fieldsTable.faultAt, FieldId)
      ensures requests == old(requests) && statuses == old(statuses) && loading == old(loading)
    {
      formFields := fields;
      ghost var start := |fieldsTable.log|;
      ghost var log0 := fieldsTable.log;
      ghost var rows0 := fieldsTable.rows;
      var i := 0;
      while i < |fields|
        invariant 0 <= i <= |fields|
        invariant |fieldsTable.log| == start + i
        invariant fieldsTable.log == log0 + Upserts(fields[..i])
        invariant fieldsTable.rows == UpsertAll(rows0, fields[..i], start, fieldsTable.faultAt, FieldId)
        modifies fieldsTable
      {
        fieldsTable.Upsert(fields[i]);
        assert fields[..i + 1][..i] == fields[..i];
        assert Upserts<FormField, string, FormFieldPatch>(fields[..i + 1])
            == Upserts<FormField, string, FormFieldPatch>(fields[..i]) + [Upserted(fields[i])];
        i := i + 1;
      }
      assert fields[..|fields|] == fields;
    }

    /** `addFormField`: append a new custom field, then insert it. */
    method AddFormField(caption: string, kind: FieldKind, now: nat)
      requires Valid()
      modifies this, fieldsTable
      ensures formFields == old(formFields) + [NewFormField(caption, kind, now)]
      ensures fieldsTable.log == old(fieldsTable.log) + [Inserted(NewFormField(caption, kind, now))]
      ensures fieldsTable.rows ==
        if old(fieldsTable.NextFault()).None? then old(fieldsTable.rows) + [NewFormField(caption, kind, now)]
        else old(fieldsTable.rows)
      ensures requests == old(requests) && statuses == old(statuses) && loading == old(loading)
    {
      var field := NewFormField(caption, kind, now);
      formFields := formFields + [field];
      fieldsTable.Insert(field);
    }

    /** `updateFormField` */
    method UpdateFormField(id: string, p: FormFieldPatch)
      requires Valid()
      modifies this, fieldsTable
      ensures formFields == UpdateFields(old(formFields), id, p)
      ensures fieldsTable.log == old(fieldsTable.log) + [Updated(id, p)]
      ensures old(formFields) == old(fieldsTable.rows) && old(fieldsTable.NextFault()).None?
        ==> formFields == fieldsTable.rows
      ensures requests == old(requests) && statuses == old(statuses) && loading == old(loading)
      ensures fieldsTable.rows ==
        if old(fieldsTable.NextFault()).None? then UpdateFields(old(fieldsTable.rows), id, p)
        else old(fieldsTable.rows)
    {
      formFields := UpdateFields(formFields, id, p);
      fieldsTable.Update(id, p);
    }

    /** `deleteFormField` */
    method DeleteFormField(id: string)
      requires Valid()
      modifies this, fieldsTable
      ensures formFields == DeleteFields(old(formFields), id)
      ensures fieldsTable.log == old(fieldsTable.log) + [Deleted(id)]
      ensures old(formFields) == old(fieldsTable.rows) && old(fieldsTable.NextFault()).None?
        ==> formFields == fieldsTable.rows
      ensures requests == old(requests) && statuses == old(statuses) && loading == old(loading)
      ensures fieldsTable.rows ==
        if old(fieldsTable.NextFault()).None? then DeleteFields(old(fieldsTable.rows), id)
        else old(fieldsTable.rows)
    {
      formFields := DeleteFields(formFields, id);
      fieldsTable.Delete(id);
    }

    /** `addStatus`: append the status with id `status-<now>`, then insert it. */
    method AddStatus(name: string, color: string, now: nat)
      requires Valid()
      modifies this, statusesTable
      ensures statuses == old(statuses) + [NewStatus(name, color, now)]
      ensures statusesTable.log == old(statusesTable.log) + [Inserted(NewStatus(name, color, now))]
      ensures old(statuses) == old(statusesTable.rows) && old(statusesTable.NextFault()).None?
        ==> statuses == statusesTable.rows
      ensures requests == old(requests) && formFields == old(formFields) && loading == old(loading)
      ensures statusesTable.rows ==
        if old(statusesTable.NextFault()).None? then old(statusesTable.rows) + [NewStatus(name, color, now)]
        else old(statusesTable.rows)
    {
      var status := NewStatus(name, color, now);
      statuses := statuses + [status];
      statusesTable.Insert(status);
    }

    /** `updateStatus` */
    method UpdateStatus(id: string, p: StatusPatch)
      requires Valid()
      modifies this, statusesTable
      ensures statuses == UpdateStatuses(old(statuses), id, p)
      ensures statusesTable.log == old(statusesTable.log) + [Updated(id, p)]
      ensures old(statuses) == old(statusesTable.rows) && old(statusesTable.NextFault()).None?
        ==> statuses == statusesTable.rows
      ensures requests == old(requests) && formFields == old(formFields) && loading == old(loading)
      ensures statusesTable.rows ==
        if old(statusesTable.NextFault()).None? then UpdateStatuses(old(statusesTable.rows), id, p)
        else old(statusesTable.rows)
    {
      statuses := UpdateStatuses(statuses, id, p);
      statusesTable.Update(id, p);
    }

    /** `deleteStatus` */
    method DeleteStatus(id: string)
      requires Valid()
      modifies this, statusesTable
      ensures statuses == DeleteStatuses(old(statuses), id)
      ensures statusesTable.log == old(statusesTable.log) + [Deleted(id)]
      ensures old(statuses) == old(statusesTable.rows) && old(statusesTable.NextFault()).None?
        ==> statuses == statusesTable.rows
      ensures requests == old(requests) && formFields == old(formFields) && loading == old(loading)
      ensures statusesTable.rows ==
        if old(statusesTable.NextFault()).None? then DeleteStatuses(old(statusesTable.rows), id)
        else old(statusesTable.rows)
    {
      statuses := DeleteStatuses(statuses, id);
      statusesTable.Delete(id);
    }
  }
}
