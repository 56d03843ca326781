/**
 * The identity provider: the signed-in user (kept in a session slot that survives
 * reloads), the user and sector lists loaded from their tables with seeding of an
 * empty table, login by an exact email and password match, and the user and sector
 * mutations, which only call the tables and leave the lists to be refreshed.
 */
module AuthContext {
  import opened Wrappers
  import opened Seqs
  import Keyed
  import opened Text
  import opened Entities
  import opened Remote
  import opened Sync
  import opened Seed

  function UserId(u: User): int { u.id }
  function SectorId(s: Sector): string { s.id }

  /** The message shown when the users select fails for a reason other than a missing table. */
  const ConnectionFailed := "Falha ao conectar com o banco de dados. Verifique a URL e a CHAVE API."

  /** The filter login sends: `.eq('email', email).eq('password', pass)`. */
  function Credentials(email: string, pass: string): seq<(string, string)>
  {
    [("email", email), ("password", pass)]
  }

  /** `isPrivilegedUser`: a user is signed in and has the role `admin`. */
  predicate IsPrivileged(user: Option<User>)
  {
    user.Some? && user.value.role == "admin"
  }

  /**
   * Privilege survives the removal of the password, nobody signed in is never
   * privileged, and among the seeded accounts only the administrator is.
   */
  lemma PrivilegeSpec(u: User)
    ensures IsPrivileged(Some(WithoutPassword(u))) <==> u.role == "admin"
    ensures !IsPrivileged(None)
    ensures forall i :: 0 <= i < |InitialUsers| ==> (IsPrivileged(Some(WithoutPassword(InitialUsers[i]))) <==> i == 0)
  {
    SeedSingleAdmin();
  }

  /** The user list after the users load: the rows found, or after seeding the reselected rows or `[]`. */
  function UsersAfterLoad(load: Load<User>, cache: seq<User>): seq<User>
  {
    match load
    case Failed(_) => cache
    case Found(rows) => rows
    case Seeded(reload) => if reload.Ok? then reload.value else []
  }

  /** The sector list after the sectors load, shaped like the users one. */
  function SectorsAfterLoad(load: Load<Sector>, cache: seq<Sector>): seq<Sector>
  {
    match load
    case Failed(_) => cache
    case Found(rows) => rows
    case Seeded(reload) => if reload.Ok? then reload.value else []
  }

  /** `{...sector, id: 'sector-' + Date.now()}` */
  function NewSector(name: string, description: string, now: nat): Sector
  {
    Sector("sector-" + NatToString(now), name, description)
  }

  /**
   * A row passes the login filter exactly when it has that email and a stored password
   * equal to `pass`; a row without a password never passes.
   */
  lemma {:induction false} LoginFilterSpec(rows: seq<User>, email: string, pass: string)
    ensures forall i :: 0 <= i < |Matching(rows, UserColumn, Credentials(email, pass))| ==>
      var u := Matching(rows, UserColumn, Credentials(email, pass))[i];
      u in rows && u.email == email && u.password == Some(pass)
    ensures forall i :: 0 <= i < |rows| && rows[i].email == email && rows[i].password == Some(pass) ==>
      rows[i] in Matching(rows, UserColumn, Credentials(email, pass))
  {
    var creds := Credentials(email, pass);
    var m := Matching(rows, UserColumn, creds);
    forall i | 0 <= i < |m|
      ensures m[i] in rows && m[i].email == email && m[i].password == Some(pass)
    {
      assert MatchesFilter(m[i], UserColumn, creds);
      assert UserColumn(m[i], creds[0].0) == Some(email);
      assert UserColumn(m[i], creds[1].0) == Some(pass);
    }
    forall i | 0 <= i < |rows| && rows[i].email == email && rows[i].password == Some(pass)
      ensures rows[i] in m
    {
      assert MatchesFilter(rows[i], UserColumn, creds);
    }
  }

  /**
   * Against the seeded users the administrator's credentials select exactly the
   * administrator, and the session then holds a privileged user without a password.
   */
  lemma SeededAdminLogin()
    ensures Matching(InitialUsers, UserColumn, Credentials("admin@empresa.com", "admin123")) == [InitialUsers[0]]
    ensures var signedIn := Some(WithoutPassword(InitialUsers[0]));
      IsPrivileged(signedIn) && signedIn.value.password.None? && signedIn.value.name == "Administrador"
  {
    var creds := Credentials("admin@empresa.com", "admin123");
    assert MatchesFilter(InitialUsers[0], UserColumn, creds);
    assert !MatchesFilter(InitialUsers[1], UserColumn, creds) by {
      assert UserColumn(InitialUsers[1], creds[0].0) != Some(creds[0].1);
    }
    assert !MatchesFilter(InitialUsers[2], UserColumn, creds) by {
      assert UserColumn(InitialUsers[2], creds[0].0) != Some(creds[0].1);
    }
    var keep := x => MatchesFilter(x, UserColumn, creds);
    assert InitialUsers == [InitialUsers[0], InitialUsers[1], InitialUsers[2]];
    FilterAppend([InitialUsers[0]], [InitialUsers[1], InitialUsers[2]], keep);
    FilterAppend([InitialUsers[1]], [InitialUsers[2]], keep);
    assert [InitialUsers[0]] + [InitialUsers[1], InitialUsers[2]] == InitialUsers;
    assert [InitialUsers[1]] + [InitialUsers[2]] == [InitialUsers[1], InitialUsers[2]];
  }

  /**
   * Sectors added at different times get different ids, and an added sector can only
   * share an id with a seeded sector `sector-k` when it was added at time `k`.
   */
  lemma NewSectorSpec(name: string, description: string, a: nat, b: nat)
    ensures NewSector(name, description, a).id == NewSector(name, description, b).id <==> a == b
    ensures forall i :: 0 <= i < |InitialSectors| && InitialSectors[i].id == NewSector(name, description, a).id ==>
      a == i + 1
    ensures NewSector(name, description, a).name == name && NewSector(name, description, a).description == description
  {
    TaggedIdInjective("sector-", a, b);
    forall i | 0 <= i < |InitialSectors| && InitialSectors[i].id == NewSector(name, description, a).id
      ensures a == i + 1
    {
      assert NatToString(i + 1) == ["0123456789"[i + 1]];
      assert InitialSectors[i].id == "sector-" + NatToString(i + 1);
      TaggedIdInjective("sector-", a, i + 1);
    }
  }

  /** The browser's `localStorage` entry `user`. */
  class SessionSlot {
    var stored: Option<User>

    constructor (stored: Option<User>)
      ensures this.stored == stored
    {
      this.stored := stored;
    }
  }

  class AuthStore {
    var user: Option<User>
    var users: seq<User>
    var sectors: seq<Sector>
    var loading: bool
    var connectionError: Option<string>
    var missingTables: bool
    const usersTable: Table<User, int, UserPatch>
    const sectorsTable: Table<Sector, string, SectorPatch>
    const slot: SessionSlot

    /** Distinct objects; both tables keyed by `id`, merging with `{...row, ...patch}`. */
    ghost predicate Valid()
    {
      && usersTable as object != sectorsTable as object
      && usersTable as object != slot as object
      && sectorsTable as object != slot as object
      && usersTable.key == UserId && usersTable.merge == MergeUser && usersTable.column == UserColumn
      && sectorsTable.key == SectorId && sectorsTable.merge == MergeSector
    }

    /** The provider starts loading, with the user the session slot remembers. */
    constructor (usersTable: Table<User, int, UserPatch>, sectorsTable: Table<Sector, string, SectorPatch>,
                 slot: SessionSlot)
      requires usersTable as object != sectorsTable as object
      requires usersTable as object != slot as object
      requires sectorsTable as object != slot as object
      requires usersTable.key == UserId && usersTable.merge == MergeUser && usersTable.column == UserColumn
      requires sectorsTable.key == SectorId && sectorsTable.merge == MergeSector
      ensures Valid()
      ensures this.usersTable == usersTable && this.sectorsTable == sectorsTable && this.slot == slot
      ensures user == slot.stored
      ensures users == [] && sectors == [] && loading && connectionError.None? && !missingTables
    {
      this.usersTable := usersTable;
      this.sectorsTable := sectorsTable;
      this.slot := slot;
      user := slot.stored;
      users, sectors := [], [];
      loading := true;
      connectionError := None;
      missingTables := false;
    }

    /**
     * `fetchData`. A missing users table raises `missingTables`; any other users error
     * raises the connection message; either way the sectors are not loaded. Otherwise
     * both lists are loaded, seeding an empty table, and a sectors error is ignored.
     */
    method FetchData()
      requires Valid()
      modifies this, usersTable, sectorsTable
      ensures var u := Expected(old(usersTable.rows), InitialUsers, old(|usersTable.log|), usersTable.faultAt);
        && missingTables == (u.Failed? && IsMissingTable(u.code))
        && connectionError == (if u.Failed? && !IsMissingTable(u.code) then Some(ConnectionFailed) else None)
        && users == UsersAfterLoad(u, old(users))
        && (u.Failed? ==> sectors == old(sectors)
                          && sectorsTable.rows == old(sectorsTable.rows) && sectorsTable.log == old(sectorsTable.log))
        && (!u.Failed? ==>
              var s := Expected(old(sectorsTable.rows), InitialSectors, old(|sectorsTable.log|), sectorsTable.faultAt);
              && sectors == SectorsAfterLoad(s, old(sectors))
              && LoadedTable(old(sectorsTable.rows), old(sectorsTable.log), sectorsTable.rows, sectorsTable.log,
                             InitialSectors, sectorsTable.faultAt))
      ensures LoadedTable(old(usersTable.rows), old(usersTable.log), usersTable.rows, usersTable.log,
                          InitialUsers, usersTable.faultAt)
      ensures !loading && user == old(user)
    {
      loading := true;
      connectionError := None;
      missingTables := false;
      var loaded := LoadWithSeed(usersTable, InitialUsers);
      match loaded {
        case Failed(code) =>
          if IsMissingTable(code) {
            missingTables := true;
          } else {
            connectionError := Some(ConnectionFailed);
          }
          loading := false;
          return;
        case Found(rows) => users := rows;
        case Seeded(reload) => users := if reload.Ok? then reload.value else [];
      }
      var sectorsLoad := LoadWithSeed(sectorsTable, InitialSectors);
      // A sectors error is only logged.
      sectors := SectorsAfterLoad(sectorsLoad, sectors);
      loading := false;
    }

    /**
     * `login`: refused outright while tables are missing; otherwise it succeeds exactly
     * when the select of the one row with that email and password succeeds, and then
     * the user, without the password, goes to the state and to the session slot.
     */
    method Login(email: string, pass: string) returns (ok: bool)
      requires Valid()
      modifies this, usersTable, slot
      ensures old(missingTables) ==> !ok && usersTable.log == old(usersTable.log)
      ensures !old(missingTables) ==>
        var found := Matching(usersTable.rows, UserColumn, Credentials(email, pass));
        && usersTable.log == old(usersTable.log) + [SelectedWhere(Credentials(email, pass))]
        && ok == (old(usersTable.NextFault()).None? && |found| == 1)
        && (ok ==> user == Some(WithoutPassword(found[0])))
      ensures ok ==> slot.stored == user && user.Some? && user.value.password.None?
      ensures !ok ==> user == old(user) && slot.stored == old(slot.stored)
      ensures usersTable.rows == old(usersTable.rows)
      ensures users == old(users) && sectors == old(sectors) && loading == old(loading)
      ensures connectionError == old(connectionError) && missingTables == old(missingTables)
    {
      if missingTables {
        return false;
      }
      var res := usersTable.SelectSingle(Credentials(email, pass));
      if res.Ok? {
        var signedIn := WithoutPassword(res.value);
        user := Some(signedIn);
        slot.stored := Some(signedIn);
        return true;
      }
      return false;
    }

    /** `logout`: nobody is signed in, in the state and in the session slot. */
    method Logout()
      requires Valid()
      modifies this, slot
      ensures user.None? && slot.stored.None? && !IsPrivileged(user)
      ensures users == old(users) && sectors == old(sectors) && loading == old(loading)
      ensures connectionError == old(connectionError) && missingTables == old(missingTables)
    {
      user := None;
      slot.stored := None;
    }

    /** `addUser`: insert the account with id `now`. */
    method AddUser(draft: User, now: nat)
      requires Valid()
      modifies usersTable
      ensures usersTable.log == old(usersTable.log) + [Inserted(draft.(id := now))]
      ensures usersTable.rows ==
        if old(usersTable.NextFault()).None? then old(usersTable.rows) + [draft.(id := now)] else old(usersTable.rows)
    {
      usersTable.Insert(draft.(id := now));
    }

    /** `updateUser` */
    method UpdateUser(id: int, p: UserPatch)
      requires Valid()
      modifies usersTable
      ensures usersTable.log == old(usersTable.log) + [Updated(id, p)]
      ensures usersTable.rows ==
        if old(usersTable.NextFault()).None? then Keyed.UpdateByKey(old(usersTable.rows), UserId, id, MergeUser, p)
        else old(usersTable.rows)
    {
      usersTable.Update(id, p);
    }

    /** `deleteUser` */
    method DeleteUser(id: int)
      requires Valid()
      modifies usersTable
      ensures usersTable.log == old(usersTable.log) + [Deleted(id)]
      ensures usersTable.rows ==
        if old(usersTable.NextFault()).None? then Keyed.RemoveByKey(old(usersTable.rows), UserId, id)
        else old(usersTable.rows)
    {
      usersTable.Delete(id);
    }

    /** `addSector`: insert the sector with id `sector-<now>`. */
    method AddSector(name: string, description: string, now: nat)
      requires Valid()
      modifies sectorsTable
      ensures sectorsTable.log == old(sectorsTable.log) + [Inserted(NewSector(name, description, now))]
      ensures sectorsTable.rows ==
        if old(sectorsTable.NextFault()).None? then old(sectorsTable.rows) + [NewSector(name, description, now)]
        else old(sectorsTable.rows)
    {
      sectorsTable.Insert(NewSector(name, description, now));
    }

    /** `updateSector` */
    method UpdateSector(id: string, p: SectorPatch)
      requires Valid()
      modifies sectorsTable
      ensures sectorsTable.log == old(sectorsTable.log) + [Updated(id, p)]
      ensures sectorsTable.rows ==
        if old(sectorsTable.NextFault()).None? then Keyed.UpdateByKey(old(sectorsTable.rows), SectorId, id, MergeSector, p)
        else old(sectorsTable.rows)
    {
      sectorsTable.Update(id, p);
    }

    /** `deleteSector` */
    method DeleteSector(id: string)
      requires Valid()
      modifies sectorsTable
      ensures sectorsTable.log == old(sectorsTable.log) + [Deleted(id)]
      ensures sectorsTable.rows ==
        if old(sectorsTable.NextFault()).None? then Keyed.RemoveByKey(old(sectorsTable.rows), SectorId, id)
        else old(sectorsTable.rows)
    {
      sectorsTable.Delete(id);
    }
  }

  /**
   * Logging out and then starting the provider again over the same session slot: the
   * new provider starts with nobody signed in.
   */
  method LogoutThenRestart(store: AuthStore) returns (restarted: AuthStore)
    requires store.Valid()
    modifies store, store.slot
    ensures fresh(restarted) && restarted.Valid()
    ensures restarted.user.None? && !IsPrivileged(restarted.user) && store.user.None?
    ensures restarted.slot == store.slot && restarted.usersTable == store.usersTable
  {
    store.Logout();
    restarted := new AuthStore(store.usersTable, store.sectorsTable, store.slot);
  }
}
