/**
 * The user form of the users page: the partial user it edits, how opening resets it,
 * how an input change updates it, the defaults submission fills in, and whether the
 * form edits an existing account.
 */
module UsersPage {
  import opened Wrappers
  import opened Entities
  import opened Seed

  /** The state the form starts from and resets to for a new user. */
  const DefaultForm := UserPatch(None, None, None, None, Some("user"), Some("Nenhum"))

  /** The form's inputs, by their `name` attribute. */
  datatype InputName = NameInput | EmailInput | PasswordInput | RoleInput | SectorInput

  /** A user spread into the form: every key present. */
  function FormOf(u: User): UserPatch
  {
    UserPatch(Some(u.id), Some(u.name), Some(u.email), u.password, Some(u.role), Some(u.sector))
  }

  /** The form value an input shows. */
  function Get(d: UserPatch, input: InputName): Option<string>
  {
    match input
    case NameInput => d.name
    case EmailInput => d.email
    case PasswordInput => d.password
    case RoleInput => d.role
    case SectorInput => d.sector
  }

  /** `{...prev, [name]: value}` */
  function SetInput(d: UserPatch, input: InputName, value: string): (r: UserPatch)
    ensures r.id == d.id
    ensures forall other: InputName :: Get(r, other) == if other == input then Some(value) else Get(d, other)
  {
    match input
    case NameInput => d.(name := Some(value))
    case EmailInput => d.(email := Some(value))
    case PasswordInput => d.(password := Some(value))
    case RoleInput => d.(role := Some(value))
    case SectorInput => d.(sector := Some(value))
  }

  /** An absent or empty string, which `||` replaces. */
  predicate Falsy(o: Option<string>) { o.None? || o.value == "" }

  /** `handleSubmit`: the form data, with `user` for a falsy role and `Nenhum` for a falsy sector. */
  function Submit(d: UserPatch): (r: UserPatch)
    ensures r.role == (if Falsy(d.role) then Some("user") else d.role)
    ensures r.sector == (if Falsy(d.sector) then Some("Nenhum") else d.sector)
    ensures r.id == d.id && r.name == d.name && r.email == d.email && r.password == d.password
    ensures !Falsy(r.role) && !Falsy(r.sector)
  {
    d.(role := Some(if Falsy(d.role) then "user" else d.role.value),
       sector := Some(if Falsy(d.sector) then "Nenhum" else d.sector.value))
  }

  /**
   * Submitting is stable (a submitted form submits to itself), the untouched defaults
   * submit unchanged, and an opened account with a role and a sector submits unchanged.
   */
  lemma SubmitSpec(d: UserPatch, u: User)
    ensures Submit(Submit(d)) == Submit(d)
    ensures Submit(DefaultForm) == DefaultForm
    ensures Submit(FormOf(u)) == FormOf(u) <==> u.role != "" && u.sector != ""
  {
    if Submit(FormOf(u)) == FormOf(u) {
      assert Submit(FormOf(u)).role == FormOf(u).role;
      assert Submit(FormOf(u)).sector == FormOf(u).sector;
    }
  }

  /** Clearing the role or the sector input and submitting falls back to the default. */
  lemma ClearedSelectFallsBack(d: UserPatch)
    ensures Submit(SetInput(d, RoleInput, "")).role == Some("user")
    ensures Submit(SetInput(d, SectorInput, "")).sector == Some("Nenhum")
    ensures Submit(SetInput(d, RoleInput, "")).sector == Submit(d).sector
  {
    assert Get(SetInput(d, RoleInput, ""), RoleInput) == Some("");
    assert Get(SetInput(d, SectorInput, ""), SectorInput) == Some("");
    assert Get(SetInput(d, RoleInput, ""), SectorInput) == d.sector;
  }

  /** `isEditing = !!user?.id`: a user is given and its id is not 0. */
  predicate IsEditing(user: Option<User>)
  {
    user.Some? && user.value.id != 0
  }

  /** The password input is required exactly when the form creates a user. */
  predicate PasswordRequired(user: Option<User>)
  {
    !IsEditing(user)
  }

  /** A new user needs a password; every seeded account is edited without one; id 0 counts as new. */
  lemma PasswordRequiredSpec(u: User)
    ensures PasswordRequired(None)
    ensures PasswordRequired(Some(u)) <==> u.id == 0
    ensures forall i :: 0 <= i < |InitialUsers| ==> !PasswordRequired(Some(InitialUsers[i]))
  {
  }

  /** `UserFormModal`'s state. */
  class UserForm {
    var formData: UserPatch

    constructor ()
      ensures formData == DefaultForm
    {
      formData := DefaultForm;
    }

    /** The effect on `[user, isOpen]`: opening loads the user, or the defaults when there is none. */
    method Open(isOpen: bool, user: Option<User>)
      modifies this
      ensures formData == if !isOpen then old(formData) else if user.Some? then FormOf(user.value) else DefaultForm
    {
      if isOpen {
        formData := if user.Some? then FormOf(user.value) else DefaultForm;
      }
    }

    /** `handleChange`: only the input's own key changes. */
    method HandleChange(input: InputName, value: string)
      modifies this
      ensures formData == SetInput(old(formData), input, value)
      ensures Get(formData, input) == Some(value)
      ensures forall other: InputName :: other != input ==> Get(formData, other) == Get(old(formData), other)
    {
      formData := SetInput(formData, input, value);
    }

    /** `handleSubmit`: what `onSave` receives. Changes nothing. */
    method HandleSubmit() returns (finalData: UserPatch)
      ensures finalData == Submit(formData)
      ensures !Falsy(finalData.role) && !Falsy(finalData.sector)
    {
      finalData := Submit(formData);
    }
  }
}
