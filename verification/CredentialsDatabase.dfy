/**
 src/daemon/db/gsignond-db-credentials-database.c: the object over the metadata
 database and the secret storage.  The two are not updated atomically; the state
 between the two writes, in which a crash or a failure leaves them, is the ghost
 result mid.
 */
module CredentialsDatabase {
  import opened Ordering
  import opened IdentityRecord
  import opened IdentityInfo
  import opened SecretDatabase
  import opened MetadataTables
  import opened MetadataUpdate
  import opened MetadataDatabase
  import opened CredentialsStates

  /** The outcomes of the statements of one call. */
  datatype Luck = Luck(begin: bool, exec: bool, failing: set<string>, commit: bool)

  /** What check_credentials of the secret storage says. */
  predicate CredentialsMatch(stored: Option<Credentials>, username: Option<string>, secret: string) {
    stored.Some? && username == Some(stored.value.username) && secret == stored.value.password
  }

  /** What the metadata database promises of its update. */
  ghost predicate MetadataWritten(t: Tables, r: Record, luck: Luck, t': Tables, id: nat) {
    var accepted := Accepted(t, r, luck.begin, luck.commit);
    if r.edits == {} then t' == t && id == GetId(r)
    else
      && (id != 0 <==> accepted)
      && (Live(t, r) ==> if accepted then Stored(t, r, t', id) else t' == t)
      && (!Live(t, r) ==> DeadUpdate(t, r, luck.begin, luck.commit, t') && (accepted ==> id == GetId(r)))
  }

  lemma FlagsDoNotMatter(creds: map<nat, Credentials>, id: nat, r: Record)
    ensures CredsAfter(creds, id, ResetEdits(r, {})) == CredsAfter(creds, id, r)
  {
  }

  lemma SafeAfterUpdate(b: Both, r: Record, luck: Luck, t': Tables, id: nat)
    requires Safe(b) && MetadataWritten(b.meta, r, luck, t', id)
    ensures Wf(t') && Safe(Both(t', b.secrets))
    ensures id != 0 ==> (Safe(Both(t', b.secrets.(creds := CredsAfter(b.secrets.creds, id, r)))) <==>
                           Live(b.meta, r) || !StoresSecrets(r))
  {
    if Live(b.meta, r) {
      if id != 0 { UpdateKeepsSafe(b, r, t', id); }
    } else {
      DeadUpdateKeepsNamesIff(b.meta, r, luck.begin, luck.commit, t');
      DeadUpdateIsSafeIff(b, r, t');
    }
  }

  predicate StoresSecrets(r: Record) { StoresUsername(r) || StoresPassword(r) }

  /** When an update keeps every secret row with an identity. */
  predicate UpdateStaysSafe(t: Tables, r: Record, id: nat, stored: bool) {
    Live(t, r) || id == 0 || !stored || !StoresSecrets(r)
  }

  class CredentialsDatabase {
    const meta: MetadataDatabase
    const storage: SecretDatabase
    var isOpen: bool

    ghost predicate Valid()
      reads this, meta, storage
    {
      meta.Valid() && storage.Valid() && Safe(State())
    }

    function State(): Both
      reads this, meta, storage
    {
      Both(meta.now, storage.now)
    }

    constructor ()
      ensures Valid() && fresh(meta) && fresh(storage) && !isOpen
      ensures State() == Both(NO_TABLES, NO_SECRETS)
    {
      meta := new MetadataDatabase();
      storage := new SecretDatabase();
      isOpen := false;
    }

    /** gsignond_db_credentials_database_load_identity */
    method LoadIdentity(id: nat, querySecret: bool)
      returns (info: IdentityInfo?, ghost acl: seq<Ctx>, ghost owner: Option<Ctx>)
      requires Valid()
      ensures info == null <==> id !in meta.now.identity
      ensures info != null ==> fresh(info)
      ensures info != null ==> AclListOf(acl, CtxsOf(meta.now, id)) && OwnerChoice(owner, OwnerCtxsOf(meta.now, id))
      ensures info != null ==>
                info.State() == WithSecrets(LoadedRecord(id, ViewOf(meta.now, id).value, acl, owner),
                                            storage.now.creds, id, querySecret && isOpen)
    {
      info, acl, owner := meta.GetIdentity(id);
      if info == null { return; }
      if querySecret && !IsNew(info.State()) && isOpen {
        var usernameIsSecret, passwordIsStored := GetUsernameIsSecret(info.State()), GetStoreSecret(info.State());
        if usernameIsSecret || passwordIsStored {
          var creds := storage.LoadCredentials(id);
          if creds.Some? {
            if usernameIsSecret { info.SetUsername(Some(creds.value.username)); }
            if passwordIsStored { info.SetSecret(Some(creds.value.password)); }
          }
        }
      }
      info.ResetEditFlags({});
    }

    /** The part of update_identity that writes to the secret storage. */
    method StoreCredentials(id: nat, r: Record, execOk: bool)
      requires storage.Valid()
      modifies storage
      ensures storage.Valid()
      ensures storage.now == if execOk then old(storage.now).(creds := CredsAfter(old(storage.now).creds, id, r))
                             else old(storage.now)
      ensures storage.now.store == old(storage.now).store
      ensures !execOk || !((GetUsernameIsSecret(r) && r.username.Some?) || (GetStoreSecret(r) && r.secret.Some?)) ==>
                storage.now.creds == old(storage.now).creds
      ensures execOk && ((GetUsernameIsSecret(r) && r.username.Some?) || (GetStoreSecret(r) && r.secret.Some?)) ==>
                storage.now.creds == old(storage.now).creds[id := Credentials(
                  if GetUsernameIsSecret(r) && r.username.Some? then r.username.value else "",
                  if GetStoreSecret(r) && r.secret.Some? then r.secret.value else "")]
    {
      var password: Option<string>, username: Option<string> := None, None;
      var passwordSet := GetStoreSecret(r) && r.secret.Some?;
      if passwordSet { password := r.secret; }
      var usernameSet := GetUsernameIsSecret(r) && r.username.Some?;
      if usernameSet { username := r.username; }
      if usernameSet || passwordSet {
        var _ := storage.UpdateCredentials(id, username, password, execOk);
      }
    }

    /** The part of update_identity that writes to the metadata database. */
    method UpdateMetadata(r: Record, luck: Luck) returns (id: nat)
      requires Valid()
      modifies meta
      ensures meta.Valid() && Safe(State()) && MetadataWritten(old(meta.now), r, luck, meta.now, id)
      ensures id != 0 ==>
                (Safe(Both(meta.now, storage.now.(creds := CredsAfter(storage.now.creds, id, r)))) <==>
                   Live(old(meta.now), r) || !StoresSecrets(r))
    {
      ghost var b := State();
      id := meta.UpdateIdentity(r, luck.begin, luck.commit);
      SafeAfterUpdate(b, r, luck, meta.now, id);
    }

    /** gsignond_db_credentials_database_update_identity */
    method UpdateIdentity(info: IdentityInfo, luck: Luck) returns (id: nat, ghost mid: Both)
      requires Valid()
      modifies info, meta, storage
      ensures meta.Valid() && storage.Valid() && mid == Both(meta.now, old(storage.now)) && Safe(mid)
      ensures Valid() <==> UpdateStaysSafe(old(meta.now), old(info.State()), id, isOpen && luck.exec)
      ensures MetadataWritten(old(meta.now), old(info.State()), luck, meta.now, id)
      ensures old(info.editFlags) == {} ==> id == GetId(old(info.State())) && meta.now == old(meta.now)
      ensures old(info.editFlags) != {} && Live(old(meta.now), old(info.State())) ==>
                var r := old(info.State());
                var accepted := luck.begin && luck.commit && GetOwner(r).Some? && GetAcl(r) != [];
                && id == (if !accepted then 0 else if IsNew(r) then old(meta.now).nextIdentity else GetId(r))
                && (accepted ==> Stored(old(meta.now), r, meta.now, id))
      ensures info.State() == if id == 0 then old(info.State()) else ResetEdits(old(info.State()), {})
      ensures storage.now == if id != 0 && isOpen && luck.exec
                then old(storage.now).(creds := CredsAfter(old(storage.now).creds, id, old(info.State())))
                else old(storage.now)
    {
      id := UpdateMetadata(info.State(), luck);
      mid := Both(meta.now, storage.now);
      if id == 0 { return; }
      FlagsDoNotMatter(storage.now.creds, id, info.State());
      info.ResetEditFlags({});
      if isOpen {
        StoreCredentials(id, info.State(), luck.exec);
      }
    }

    /** gsignond_db_credentials_database_remove_identity */
    method RemoveIdentity(id: nat, order: seq<Child>, luck: Luck) returns (ok: bool, ghost mid: Both)
      requires Valid() && CompleteOrder(order)
      modifies meta, storage
      ensures Valid() && mid == Both(old(meta.now), storage.now) && Safe(mid)
      ensures ok == (isOpen && luck.exec && luck.begin && luck.commit &&
                     ContextsIntact(DeleteIdentity(old(meta.now), id, order)))
      ensures storage.now == if isOpen && luck.exec then WithoutIdentity(old(storage.now), id) else old(storage.now)
      ensures !ok ==> meta.now == old(meta.now)
      ensures ok ==> Gone(State(), id)
      ensures ok ==> meta.now.identity == old(meta.now.identity) - {id}
      ensures isOpen && luck.exec ==> id !in storage.now.creds
      ensures isOpen && luck.exec ==> forall k :: k in storage.now.store ==> k.identity != id
      ensures ok ==> forall y :: y != id ==> Unchanged(old(State()), State(), y)
    {
      ghost var b := State();
      mid := b;
      if !isOpen { return false, mid; }
      ok := storage.RemoveCredentials(id, luck.exec);
      mid := Both(meta.now, storage.now);
      HalfRemovalIsSafe(b, id);
      if ok {
        ok := meta.RemoveIdentity(id, order, luck.begin, luck.commit);
        if ok { RemovalIsCompleteAndFramed(b, id, order); }
      }
    }

    /** gsignond_db_credentials_database_check_secret */
    method CheckSecret(id: nat, username: Option<string>, secret: string) returns (check: bool)
      requires Valid()
      ensures check <==> isOpen && SecretMatches(State(), id, username, secret)
      ensures check <==> isOpen && id in meta.now.identity && id in storage.now.creds &&
                         storage.now.creds[id].password == secret &&
                         if meta.now.identity[id].usernameIsSecret
                         then username == Some(storage.now.creds[id].username)
                         else username == Some(meta.now.identity[id].username) && storage.now.creds[id].username == ""
    {
      check := false;
      if !isOpen { return; }
      var info, acl, owner := meta.GetIdentity(id);
      if info != null {
        CredentialsOfLoaded(id, ViewOf(meta.now, id).value, acl, owner);
        var stored := storage.LoadCredentials(id);
        if GetUsernameIsSecret(info.State()) {
          check := CredentialsMatch(stored, username, secret);
        } else {
          check := username == info.username && CredentialsMatch(stored, Some(""), secret);
        }
      }
    }

    /** gsignond_db_credentials_database_load_data */
    method LoadData(id: nat, name: string) returns (data: Option<Data>)
      requires Valid()
      ensures data == if isOpen then DataFor(State(), id, name) else None
      ensures data == if isOpen && id != 0 && name in meta.now.methods.ids
                      then Loaded(storage.now.store, id, meta.now.methods.ids[name]) else None
    {
      data := None;
      if id == 0 || !isOpen { return; }
      var m := meta.GetMethodId(name);
      if m == 0 { return; }
      data := storage.LoadData(id, m);
    }

    /** The part of update_data that finds or inserts the method's name. */
    method InternMethod(name: string, luck: Luck) returns (ok: bool, m: nat)
      requires Valid()
      modifies meta
      ensures Valid()
      ensures ok == (name in old(meta.now).methods.ids || (luck.begin && luck.commit))
      ensures meta.now == if ok then MethodNamed(old(meta.now), name) else old(meta.now)
      ensures ok ==> name in meta.now.methods.ids && m == meta.now.methods.ids[name]
    {
      NamingKeepsData(State(), name);
      ok := true;
      m := meta.GetMethodId(name);
      if m == 0 {
        ok, m := meta.InsertMethod(name, luck.begin, luck.commit);
      }
    }

    /** gsignond_db_credentials_database_update_data */
    method UpdateData(id: nat, name: string, data: Data, del: Deletion, nameLuck: Luck, luck: Luck) returns (ok: bool)
      requires Valid()
      modifies meta, storage
      ensures meta.Valid() && storage.Valid()
      ensures id < old(meta.now).nextIdentity ==> Valid()
      ensures ok ==> id != 0 && isOpen && State() == DataUpdated(old(State()), del, id, name, data)
      ensures !ok ==> storage.now == old(storage.now)
      ensures !ok ==> meta.now == old(meta.now) || meta.now == MethodNamed(old(meta.now), name)
      ensures CounterHolds(data) ==>
                (ok <==> && id != 0 && isOpen
                         && (name in old(meta.now).methods.ids || (nameLuck.begin && nameLuck.commit))
                         && luck.begin && luck.exec && data.Keys !! luck.failing && luck.commit
                         && Total(data) < MAX_DATA_STORAGE)
    {
      ok := false;
      if id == 0 || !isOpen { return; }
      ghost var b := State();
      var m;
      ok, m := InternMethod(name, nameLuck);
      if !ok { return; }
      ghost var b1 := State();
      ghost var order;
      ok, order := storage.UpdateData(id, m, data, del, luck.begin, luck.exec, luck.failing, luck.commit);
      if ok && id < b.meta.nextIdentity { UpdatedStoreIsSafe(b1, del, id, name, data); }
    }

    /** gsignond_db_credentials_database_remove_data: no name, or an empty one, means every method. */
    method RemoveData(id: nat, name: Option<string>, del: Deletion, luck: Luck) returns (ok: bool)
      requires Valid()
      modifies storage
      ensures Valid()
      ensures ok == (id != 0 && isOpen && luck.exec &&
                     (name == None || name == Some("") || name.value in meta.now.methods.ids))
      ensures storage.now == if !ok then old(storage.now) else old(storage.now).(store :=
                Removed(old(storage.now).store, del, id,
                        if name == None || name == Some("") then 0 else meta.now.methods.ids[name.value]))
    {
      ok := false;
      if id == 0 || !isOpen { return; }
      var m := 0;
      if name.Some? && name.value != "" {
        m := meta.GetMethodId(name.value);
        if m == 0 { return; }
      }
      ok := storage.RemoveData(id, m, del, luck.exec);
    }

    /** gsignond_db_credentials_database_clear */
    method Clear(luck: Luck) returns (ok: bool, ghost mid: Both)
      requires Valid()
      modifies meta, storage
      ensures Valid() && mid == Both(old(meta.now), storage.now) && Safe(mid)
      ensures ok == (luck.exec && luck.begin && luck.commit)
      ensures storage.now == if luck.exec then NO_SECRETS else old(storage.now)
      ensures meta.now == if ok then ClearedTables(old(meta.now)) else old(meta.now)
      ensures luck.exec ==> storage.now == Secrets(map[], map[])
      ensures ok ==> meta.now.identity == map[] && meta.now.methods.ids == map[]
      ensures meta.now.nextIdentity == old(meta.now).nextIdentity
    {
      ok := storage.Clear(luck.exec);
      mid := Both(meta.now, storage.now);
      if ok { ok := meta.Clear(luck.begin, luck.commit); }
    }
  }
}
