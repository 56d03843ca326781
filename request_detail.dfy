/**
 * The request detail page: the route parameter selects a cached request (or the
 * not-found page), each active form field shows the request's own value or the
 * custom value stored under the field's id, and deletion navigates home.
 */
module RequestDetail {
  import opened Wrappers
  import opened Seqs
  import opened Text
  import opened Entities
  import opened Dashboard
  import opened RequestContext
  import Keyed
  import Remote

  /** The JavaScript value `(request as any)[field.id]` or `customFields?.[field.id]` produces. */
  datatype Value =
    | Undefined
    | Str(s: string)
    | Num(n: int)
    | ObjectValue                // the `customFields` object
    | ObjectArray(count: nat)    // the `items` array

  /** JavaScript truthiness, as `||` tests it. */
  predicate Truthy(v: Value)
  {
    match v
    case Undefined => false
    case Str(s) => s != ""
    case Num(n) => n != 0
    case ObjectValue => true
    case ObjectArray(_) => true
  }

  /** `(request as any)[fieldId]`: the request's own property of that name. */
  function StandardValue(r: Request, fieldId: string): Value
  {
    if RequestColumn(r, fieldId).Some? then Str(RequestColumn(r, fieldId).value)
    else if fieldId == "id" then Num(r.id)
    else if fieldId == "items" then ObjectArray(|r.items|)
    else if fieldId == "customFields" then (if r.customFields.Some? then ObjectValue else Undefined)
    else Undefined
  }

  /** `request.customFields?.[fieldId]` */
  function CustomValue(r: Request, fieldId: string): (v: Value)
    ensures v.Undefined? || v.Str?
  {
    if r.customFields.Some? && fieldId in r.customFields.value then Str(r.customFields.value[fieldId])
    else Undefined
  }

  /** The value shown for a field: the request's own one when truthy, otherwise the custom one. */
  function FieldValue(r: Request, fieldId: string): Value
  {
    var own := StandardValue(r, fieldId);
    if Truthy(own) then own else CustomValue(r, fieldId)
  }

  /** What `renderFieldValue` draws. */
  datatype Rendered = NotInformed | Badge(name: string, color: string) | Text(s: string)

  /** `String(value)` */
  function ValueString(v: Value): string
  {
    match v
    case Undefined => "undefined"
    case Str(s) => s
    case Num(n) => IntToString(n)
    case ObjectValue => "[object Object]"
    case ObjectArray(count) => Join(seq(count, _ => "[object Object]"), ',')
  }

  /** `renderFieldValue`: a placeholder for undefined or `''`, a badge for the status field, else the text. */
  function RenderFieldValue(statuses: seq<Status>, fieldId: string, v: Value): (out: Rendered)
    ensures out.NotInformed? <==> v == Undefined || v == Str("")
    ensures !out.NotInformed? && fieldId == "status" ==> out == Badge(ValueString(v), BadgeColor(statuses, ValueString(v)))
    ensures !out.NotInformed? && fieldId != "status" ==> out == Text(ValueString(v))
  {
    if v == Undefined || v == Str("") then NotInformed
    else if fieldId == "status" then
      var name := ValueString(v);
      Badge(name, BadgeColor(statuses, name))
    else Text(ValueString(v))
  }

  predicate IsActiveField(f: FormField) { f.isActive }

  /** `formFields.filter(f => f.isActive)` */
  function VisibleFields(fields: seq<FormField>): seq<FormField>
  {
    Filter(fields, IsActiveField)
  }

  /**
   * The visible fields are exactly the active ones, in their order: every visible
   * field is an active field, every active field is visible, and on a split list the
   * visible fields of the front come before those of the back.
   */
  lemma VisibleFieldsSpec(front: seq<FormField>, back: seq<FormField>)
    ensures forall i :: 0 <= i < |VisibleFields(front + back)| ==>
      VisibleFields(front + back)[i].isActive && VisibleFields(front + back)[i] in front + back
    ensures forall i :: 0 <= i < |front + back| && (front + back)[i].isActive ==>
      (front + back)[i] in VisibleFields(front + back)
    ensures VisibleFields(front + back) == VisibleFields(front) + VisibleFields(back)
  {
    FilterAppend(front, back, IsActiveField);
  }

  /**
   * The shown value: a request property that is set wins; otherwise the custom value
   * of that id; for an id that is no request property only the custom value counts.
   */
  lemma FieldValueSpec(r: Request, fieldId: string)
    ensures Truthy(StandardValue(r, fieldId)) ==> FieldValue(r, fieldId) == StandardValue(r, fieldId)
    ensures !Truthy(StandardValue(r, fieldId)) ==> FieldValue(r, fieldId) == CustomValue(r, fieldId)
    ensures RequestColumn(r, fieldId).None? && fieldId !in {"id", "items", "customFields"} ==>
      FieldValue(r, fieldId) == CustomValue(r, fieldId)
  {
  }

  /**
   * A field backed by a text property of the request shows that property: as a
   * badge with the status colour for the status field, as text otherwise; when the
   * property is empty the field falls back to the custom value stored under its id.
   */
  lemma StandardFieldRendering(statuses: seq<Status>, r: Request, f: FormField)
    requires RequestColumn(r, f.id).Some?
    ensures var v := RequestColumn(r, f.id).value;
      var out := RenderFieldValue(statuses, f.id, FieldValue(r, f.id));
      && (v != "" && f.id == "status" ==> out == Badge(r.status, BadgeColor(statuses, r.status)))
      && (v != "" && f.id != "status" ==> out == Text(v))
      && (v == "" ==> out == RenderFieldValue(statuses, f.id, CustomValue(r, f.id)))
  {
    FieldValueSpec(r, f.id);
  }

  /**
   * The placeholder appears exactly when the request's own value is falsy and no
   * non-empty custom value is stored under the field's id.
   */
  lemma PlaceholderExactly(statuses: seq<Status>, r: Request, fieldId: string)
    ensures RenderFieldValue(statuses, fieldId, FieldValue(r, fieldId)).NotInformed? <==>
      !Truthy(StandardValue(r, fieldId)) &&
      (r.customFields.None? || fieldId !in r.customFields.value || r.customFields.value[fieldId] == "")
  {
    FieldValueSpec(r, fieldId);
  }

  /** A custom field with a stored value shows that value; with none it shows the placeholder. */
  lemma CustomFieldRendering(statuses: seq<Status>, r: Request, f: FormField)
    requires RequestColumn(r, f.id).None? && f.id !in {"id", "items", "customFields", "status"}
    ensures r.customFields.Some? && f.id in r.customFields.value && r.customFields.value[f.id] != "" ==>
      RenderFieldValue(statuses, f.id, FieldValue(r, f.id)) == Text(r.customFields.value[f.id])
    ensures (r.customFields.None? || f.id !in r.customFields.value) ==>
      RenderFieldValue(statuses, f.id, FieldValue(r, f.id)) == NotInformed
  {
    FieldValueSpec(r, f.id);
  }

  /** The page a route `/requests/:id` shows. */
  datatype Page = NotFound | Detail(request: Request, rows: seq<(FormField, Rendered)>)

  /** `RequestDetailPage`: `Number(id)`, lookup, and one row per visible field. */
  function DetailView(requests: seq<Request>, statuses: seq<Status>, formFields: seq<FormField>,
                      param: string): Page
  {
    var requestId := ParseNumber(param);
    // `getRequestById(NaN)` finds nothing: no id equals NaN.
    var found := if requestId.Some? then FindRequest(requests, requestId.value) else None;
    if found.None? then NotFound
    else
      var visible := VisibleFields(formFields);
      Detail(found.value, seq(|visible|, i requires 0 <= i < |visible| =>
        (visible[i], RenderFieldValue(statuses, visible[i].id, FieldValue(found.value, visible[i].id)))))
  }

  /**
   * Following a link `/requests/<id>` shows the first cached request with that id,
   * one row per visible field in order; the page is not found exactly when no cached
   * request has the id.
   */
  lemma LinkShowsRequest(requests: seq<Request>, statuses: seq<Status>, formFields: seq<FormField>, id: int)
    ensures DetailView(requests, statuses, formFields, IntToString(id)).NotFound?
      <==> forall i :: 0 <= i < |requests| ==> requests[i].id != id
    ensures var page := DetailView(requests, statuses, formFields, IntToString(id));
      page.Detail? ==>
        && Some(page.request) == FindRequest(requests, id) && page.request.id == id
        && |page.rows| == |VisibleFields(formFields)|
        && forall k :: 0 <= k < |page.rows| ==> page.rows[k].0 == VisibleFields(formFields)[k]
  {
    ParseIntToString(id);
    Keyed.FindByKeySpec(requests, RequestId, id);
  }

  /**
   * The page shows a request only for a numeric parameter, and then a cached request
   * whose id is that number; it is not found exactly when the parameter is not a
   * number or no cached request has that id.
   */
  lemma DetailViewSound(requests: seq<Request>, statuses: seq<Status>, formFields: seq<FormField>, param: string)
    ensures var page := DetailView(requests, statuses, formFields, param);
      page.Detail? ==> ParseNumber(param) == Some(page.request.id) && page.request in requests
    ensures DetailView(requests, statuses, formFields, param).NotFound? <==>
      ParseNumber(param).None? || forall i :: 0 <= i < |requests| ==> requests[i].id != ParseNumber(param).value
  {
  }

  /** `handleDelete`: delete the shown request, then go to `/`. */
  method HandleDelete(store: RequestStore, requestId: int) returns (route: string)
    requires store.Valid()
    modifies store, store.requestsTable
    ensures route == "/"
    ensures store.requests == DeleteRequests(old(store.requests), requestId)
    ensures store.GetRequestById(requestId).None?
    ensures store.requestsTable.log == old(store.requestsTable.log) + [Remote.Deleted(requestId)]
    ensures store.requestsTable.rows ==
      if old(store.requestsTable.NextFault()).None? then DeleteRequests(old(store.requestsTable.rows), requestId)
      else old(store.requestsTable.rows)
    ensures store.formFields == old(store.formFields) && store.statuses == old(store.statuses)
  {
    store.DeleteRequest(requestId);
    DeleteRequestsSpec(old(store.requests), requestId);
    route := "/";
  }
}
