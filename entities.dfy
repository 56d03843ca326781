/**
 * The rows of the five tables (`users`, `sectors`, `statuses`, `form_fields`,
 * `requests`) and the partial records (`Partial<T>`) that update them.
 * A patch field that is `None` is a key the partial record does not carry;
 * `{...row, ...patch}` takes every key the patch carries and keeps the rest.
 */
module Entities {
  import opened Wrappers

  /** A JavaScript boolean property that may be missing (`undefined`) or `null`. */
  datatype JsBool = Absent | Null | Bool(value: bool)

  /** The input kinds a form field can have. */
  datatype FieldKind = TextInput | DateInput | SelectInput | TextareaInput

  /** An account; `password` is `None` once the secret has been removed for the session. */
  datatype User = User(id: int, name: string, email: string, password: Option<string>, role: string, sector: string)

  datatype UserPatch = UserPatch(
    id: Option<int>, name: Option<string>, email: Option<string>,
    password: Option<string>, role: Option<string>, sector: Option<string>)

  datatype Sector = Sector(id: string, name: string, description: string)

  datatype SectorPatch = SectorPatch(id: Option<string>, name: Option<string>, description: Option<string>)

  /** A workflow status; requests refer to it by `name`. */
  datatype Status = Status(id: string, name: string, color: string)

  datatype StatusPatch = StatusPatch(id: Option<string>, name: Option<string>, color: Option<string>)

  datatype FormField = FormField(
    id: string, caption: string, kind: FieldKind,
    isActive: bool, required: bool, isStandard: bool, isVisibleInList: JsBool)

  datatype FormFieldPatch = FormFieldPatch(
    id: Option<string>, caption: Option<string>, kind: Option<FieldKind>,
    isActive: Option<bool>, required: Option<bool>, isStandard: Option<bool>,
    isVisibleInList: Option<JsBool>)

  datatype RequestItem = RequestItem(id: string, name: string, quantity: int, status: string)

  /** A purchase request; `status` is the name of a `Status`, not its id. */
  datatype Request = Request(
    id: int, orderNumber: string, requestDate: string, sector: string, supplier: string,
    deliveryDate: string, status: string, responsible: string,
    items: seq<RequestItem>, customFields: Option<map<string, string>>)

  datatype RequestPatch = RequestPatch(
    id: Option<int>, orderNumber: Option<string>, requestDate: Option<string>,
    sector: Option<string>, supplier: Option<string>, deliveryDate: Option<string>,
    status: Option<string>, responsible: Option<string>,
    items: Option<seq<RequestItem>>, customFields: Option<Option<map<string, string>>>)

  /** `{...u, ...p}` */
  function MergeUser(u: User, p: UserPatch): User
  {
    User(p.id.GetOr(u.id), p.name.GetOr(u.name), p.email.GetOr(u.email),
         if p.password.Some? then p.password else u.password,
         p.role.GetOr(u.role), p.sector.GetOr(u.sector))
  }

  /** `{...s, ...p}` */
  function MergeSector(s: Sector, p: SectorPatch): Sector
  {
    Sector(p.id.GetOr(s.id), p.name.GetOr(s.name), p.description.GetOr(s.description))
  }

  /** `{...s, ...p}` */
  function MergeStatus(s: Status, p: StatusPatch): Status
  {
    Status(p.id.GetOr(s.id), p.name.GetOr(s.name), p.color.GetOr(s.color))
  }

  /** `{...f, ...p}` */
  function MergeFormField(f: FormField, p: FormFieldPatch): FormField
  {
    FormField(p.id.GetOr(f.id), p.caption.GetOr(f.caption), p.kind.GetOr(f.kind),
              p.isActive.GetOr(f.isActive), p.required.GetOr(f.required),
              p.isStandard.GetOr(f.isStandard), p.isVisibleInList.GetOr(f.isVisibleInList))
  }

  /** `{...r, ...p}` */
  function MergeRequest(r: Request, p: RequestPatch): Request
  {
    Request(p.id.GetOr(r.id), p.orderNumber.GetOr(r.orderNumber), p.requestDate.GetOr(r.requestDate),
            p.sector.GetOr(r.sector), p.supplier.GetOr(r.supplier), p.deliveryDate.GetOr(r.deliveryDate),
            p.status.GetOr(r.status), p.responsible.GetOr(r.responsible),
            p.items.GetOr(r.items), p.customFields.GetOr(r.customFields))
  }

  /** The empty partial record `{}`. */
  const NoRequestChange := RequestPatch(None, None, None, None, None, None, None, None, None, None)

  /** Spreading `{}` changes nothing, and spreading the same patch twice is spreading it once. */
  lemma MergeRequestLaws(r: Request, p: RequestPatch)
    ensures MergeRequest(r, NoRequestChange) == r
    ensures MergeRequest(MergeRequest(r, p), p) == MergeRequest(r, p)
    ensures p.id.None? ==> MergeRequest(r, p).id == r.id
  {
  }

  /** The row a session keeps: the account with its `password` key deleted. */
  function WithoutPassword(u: User): (r: User)
    ensures r.password.None?
    ensures r.(password := u.password) == u
  {
    u.(password := None)
  }

  /** The text columns `.eq(column, value)` can filter `users` on. */
  function UserColumn(u: User, column: string): Option<string>
  {
    match column
    case "name" => Some(u.name)
    case "email" => Some(u.email)
    case "password" => u.password
    case "role" => Some(u.role)
    case "sector" => Some(u.sector)
    case _ => None
  }

  /** The text columns of `sectors`. */
  function SectorColumn(s: Sector, column: string): Option<string>
  {
    match column
    case "id" => Some(s.id)
    case "name" => Some(s.name)
    case "description" => Some(s.description)
    case _ => None
  }

  /** The text columns of `statuses`. */
  function StatusColumn(s: Status, column: string): Option<string>
  {
    match column
    case "id" => Some(s.id)
    case "name" => Some(s.name)
    case "color" => Some(s.color)
    case _ => None
  }

  /** The text columns of `form_fields`. */
  function FormFieldColumn(f: FormField, column: string): Option<string>
  {
    match column
    case "id" => Some(f.id)
    case "label" => Some(f.caption)
    case _ => None
  }

  /** The text columns of `requests`. */
  function RequestColumn(r: Request, column: string): Option<string>
  {
    match column
    case "orderNumber" => Some(r.orderNumber)
    case "requestDate" => Some(r.requestDate)
    case "sector" => Some(r.sector)
    case "supplier" => Some(r.supplier)
    case "deliveryDate" => Some(r.deliveryDate)
    case "status" => Some(r.status)
    case "responsible" => Some(r.responsible)
    case _ => None
  }
}
