/**
 The two databases together: what a pair of states shows of an identity and its
 data, the invariant across them, and the laws of store, load and remove.
 */
module CredentialsStates {
  import opened Ordering
  import opened IdentityRecord
  import opened IdentityCompare
  import opened RecordFields
  import opened SecretDatabase
  import opened MetadataTables
  import opened MetadataStore
  import opened MetadataUpdate
  import opened MetadataDatabase
  import opened MetadataRoundTrip

  datatype Both = Both(meta: Tables, secrets: Secrets)

  /** Every secret row belongs to an identity, and data rows to ids already given out. */
  ghost predicate Safe(b: Both) {
    && Wf(b.meta)
    && b.secrets.creds.Keys <= b.meta.identity.Keys
    && (forall k :: k in b.secrets.store ==>
          k.identity < b.meta.nextIdentity && k.meth in b.meta.methods.ids.Values)
  }

  // ---------------------------------------------------- split credentials

  function StoresPassword(r: Record): bool { GetStoreSecret(r) && r.secret.Some? }
  function StoresUsername(r: Record): bool { GetUsernameIsSecret(r) && r.username.Some? }

  /** What update_identity puts into CREDENTIALS after the metadata. */
  function CredsAfter(creds: map<nat, Credentials>, id: nat, r: Record): map<nat, Credentials> {
    if StoresUsername(r) || StoresPassword(r) then
      creds[id := Credentials(if StoresUsername(r) then r.username.value else "",
                              if StoresPassword(r) then r.secret.value else "")]
    else creds
  }

  /** The record of load_identity, from the one that the metadata gave. */
  function WithSecrets(r: Record, creds: map<nat, Credentials>, id: nat, query: bool): Record {
    var read := query && !IsNew(r) && (GetUsernameIsSecret(r) || GetStoreSecret(r)) && id in creds;
    var named := if read && GetUsernameIsSecret(r) then SetUsername(r, Some(creds[id].username)) else r;
    var full := if read && GetStoreSecret(r) then SetSecret(named, Some(creds[id].password)) else named;
    ResetEdits(full, {})
  }

  lemma SecretsRead(r: Record, creds: map<nat, Credentials>, id: nat)
    requires !IsNew(r)
    ensures var back := WithSecrets(r, creds, id, true);
            && back.username == (if GetUsernameIsSecret(r) && id in creds then Some(creds[id].username) else r.username)
            && back.secret == (if GetStoreSecret(r) && id in creds then Some(creds[id].password) else r.secret)
            && back.edits == {} && back.dict == r.dict
  {
  }

  lemma CredentialsOfLoaded(id: nat, v: View, acl: seq<Ctx>, owner: Option<Ctx>)
    ensures var r := LoadedRecord(id, v, acl, owner);
            && GetId(r) == id && r.secret == None
            && r.username == (if v.row.usernameIsSecret then None else Some(v.row.username))
            && GetUsernameIsSecret(r) == v.row.usernameIsSecret && GetStoreSecret(r) == v.row.rememberSecret
  {
    LoadedFields(id, v, acl, owner);
  }

  /** What a load with or without the secrets shows of them; all other fields are the metadata's. */
  lemma LoadedSecrets(id: nat, v: View, acl: seq<Ctx>, owner: Option<Ctx>, creds: map<nat, Credentials>, query: bool)
    requires id != 0
    ensures var loaded := LoadedRecord(id, v, acl, owner);
            var back := WithSecrets(loaded, creds, id, query);
            var read := query && id in creds;
            && back.edits == {} && back.dict == loaded.dict
            && back.username == (if !v.row.usernameIsSecret then Some(v.row.username)
                                 else if read then Some(creds[id].username) else None)
            && back.secret == (if v.row.rememberSecret && read then Some(creds[id].password) else None)
  {
    CredentialsOfLoaded(id, v, acl, owner);
    if query { SecretsRead(LoadedRecord(id, v, acl, owner), creds, id); }
  }

  /**
   The split credentials round trip, with the lists of the loaded record in
   acl and owner: exactly when username and password come back.
   */
  lemma CredentialsRoundTrip(creds: map<nat, Credentials>, id: nat, r: Record, v: View, acl: seq<Ctx>,
                             owner: Option<Ctx>)
    requires id != 0 && v.row == RowFor(r)
    ensures var after := CredsAfter(creds, id, r);
            var back := WithSecrets(LoadedRecord(id, v, acl, owner), after, id, true);
            && (back.username == r.username <==>
                  r.username.Some? || (GetUsernameIsSecret(r) && id !in after))
            && (back.secret == (if GetStoreSecret(r) then r.secret else None) <==>
                  !GetStoreSecret(r) || r.secret.Some? || id !in after)
  {
    var after := CredsAfter(creds, id, r);
    var loaded := LoadedRecord(id, v, acl, owner);
    CredentialsOfLoaded(id, v, acl, owner);
    SecretsRead(loaded, after, id);
  }

  /** The record as it should come back with its secrets: the password only if it may be stored. */
  function Whole(r: Record, id: nat): Record {
    SetSecret(SetId(r, id), if GetStoreSecret(r) then r.secret else None)
  }

  lemma SecretFields(r: Record, creds: map<nat, Credentials>, id: nat)
    requires !IsNew(r)
    ensures FieldsOf(WithSecrets(r, creds, id, true)) == FieldsOf(r).(
              username := if GetUsernameIsSecret(r) && id in creds then Some(creds[id].username) else r.username,
              secret := if GetStoreSecret(r) && id in creds then Some(creds[id].password) else r.secret)
  {
    SecretsRead(r, creds, id);
    SameDictionary(r, WithSecrets(r, creds, id, true));
  }

  lemma WholeFields(r: Record, id: nat)
    ensures FieldsOf(Whole(r, id)) ==
            FieldsOf(r).(id := id, secret := if GetStoreSecret(r) then r.secret else None)
  {
    IdSet(r, id);
    SecretSet(SetId(r, id), if GetStoreSecret(r) then r.secret else None);
  }

  /** The two secrets of a new identity, once stored and loaded. */
  lemma NewSecretsComeBack(b: Both, r: Record, id: nat, loaded: Record)
    requires Safe(b) && id == b.meta.nextIdentity && r.username.Some?
    requires GetStoreSecret(r) && GetUsernameIsSecret(r) ==> r.secret.Some?
    requires GetId(loaded) == id && loaded.secret == None
    requires GetUsernameIsSecret(loaded) == GetUsernameIsSecret(r) && GetStoreSecret(loaded) == GetStoreSecret(r)
    requires !GetUsernameIsSecret(r) ==> loaded.username == r.username
    ensures var back := WithSecrets(loaded, CredsAfter(b.secrets.creds, id, r), id, true);
            back.username == r.username && back.secret == if GetStoreSecret(r) then r.secret else None
  {
    FreshIdentityHasNoSecrets(b);
    SecretsRead(loaded, CredsAfter(b.secrets.creds, id, r), id);
  }

  /**
   Both databases together: a new identity that is stored and loaded with its
   secrets compares equal to what was stored, the password included if it may be
   stored.  A secret username leaves room for an empty caption only.
   */
  lemma NewIdentityComesBackWhole(b: Both, r: Record, t': Tables, acl: seq<Ctx>, owner: Option<Ctx>)
    requires Safe(b) && IsNew(r) && Clean(r, EMPTY) && GetAcl(r) != [] && GetOwner(r).Some?
    requires Stored(b.meta, r, t', b.meta.nextIdentity)
    requires AclListOf(acl, CtxsOf(t', b.meta.nextIdentity))
    requires OwnerChoice(owner, OwnerCtxsOf(t', b.meta.nextIdentity))
    requires GetOwner(r).value.sys != "" && r.username.Some?
    requires if GetUsernameIsSecret(r) then GetCaption(r) == Some("") else GetCaption(r).Some?
    requires DistinctSys(GetAcl(r)) && RawMethods(r).Some? && RawMethods(r).value != map[]
    requires ListsWithoutDuplicates(RawMethods(r).value)
    requires GetStoreSecret(r) && GetUsernameIsSecret(r) ==> r.secret.Some?
    ensures var id := b.meta.nextIdentity;
            Same(WithSecrets(LoadedRecord(id, ViewOf(t', id).value, acl, owner),
                             CredsAfter(b.secrets.creds, id, r), id, true),
                 Whole(r, id))
  {
    var id := b.meta.nextIdentity;
    var loaded := LoadedRecord(id, ViewOf(t', id).value, acl, owner);
    var creds := CredsAfter(b.secrets.creds, id, r);
    NewIdentityRoundTrip(b.meta, r, t', acl, owner);
    NewSecretsComeBack(b, r, id, loaded);
    SecretFields(loaded, creds, id);
    WholeFields(r, id);
    SecretsRead(loaded, creds, id);
    SameFieldsCompareEqual(WithSecrets(loaded, creds, id, true), Whole(r, id));
  }

  // --------------------------------------------------------- check_secret

  predicate SecretMatches(b: Both, id: nat, username: Option<string>, secret: string) {
    && id in b.meta.identity && id in b.secrets.creds
    && var row, stored := b.meta.identity[id], b.secrets.creds[id];
       && stored.password == secret
       && (if row.usernameIsSecret then username == Some(stored.username)
           else username == Some(row.username) && stored.username == "")
  }

  /** After a password was stored, check_secret accepts that username and password, and no others. */
  lemma CheckAfterStore(b: Both, id: nat, r: Record, username: Option<string>, secret: string)
    requires id in b.meta.identity && b.meta.identity[id] == RowFor(r)
    requires GetStoreSecret(r) && r.secret.Some? && r.username.Some?
    ensures SecretMatches(b.(secrets := b.secrets.(creds := CredsAfter(b.secrets.creds, id, r))), id, username, secret)
            <==> username == r.username && Some(secret) == r.secret
  {
  }

  // ------------------------------------------------------- the invariant

  /** The state after the metadata part, and after both parts, of an update. */
  lemma UpdateKeepsSafe(b: Both, r: Record, t': Tables, id: nat)
    requires Safe(b) && Live(b.meta, r)
    requires (t' == b.meta && id == GetId(r) && id != 0) || Stored(b.meta, r, t', id)
    ensures Safe(Both(t', b.secrets))
    ensures Safe(Both(t', b.secrets.(creds := CredsAfter(b.secrets.creds, id, r))))
  {
    if Stored(b.meta, r, t', id) {
      forall k | k in b.secrets.store ensures k.meth in t'.methods.ids.Values {
        var m :| m in b.meta.methods.ids && b.meta.methods.ids[m] == k.meth;
        assert t'.methods.ids[m] == k.meth;
      }
    }
  }

  /** For an id that no identity has, the secrets stay safe exactly when none is written. */
  lemma DeadUpdateIsSafeIff(b: Both, r: Record, t': Tables)
    requires Safe(b) && !Live(b.meta, r) && Grows(b.meta, t')
    ensures Safe(Both(t', b.secrets))
    ensures Safe(Both(t', b.secrets.(creds := CredsAfter(b.secrets.creds, GetId(r), r)))) <==>
            !StoresUsername(r) && !StoresPassword(r)
  {
    GrowsEffect(b.meta, t');
    forall k | k in b.secrets.store ensures k.meth in t'.methods.ids.Values {
      var m :| m in b.meta.methods.ids && b.meta.methods.ids[m] == k.meth;
      assert t'.methods.ids[m] == k.meth;
    }
    if StoresUsername(r) || StoresPassword(r) {
      assert GetId(r) in CredsAfter(b.secrets.creds, GetId(r), r);
    }
  }

  /** Identity 1 was removed. */
  const REMOVED := Both(NO_TABLES.(nextIdentity := 2), NO_SECRETS)

  /** A client still has its record, and changes the password. */
  const STALE := Record(Some("me"), Some("pw"), {Secret},
                        map[KId := VNat(1), KStoreSecret := VBool(true), KOwner := VCtx(Ctx("mail", "")),
                            KAcl := VCtxs([Ctx("mail", "")])])

  /** The update reports success and leaves the password without an identity. */
  lemma StaleUpdateLeavesSecret(t': Tables)
    ensures Safe(REMOVED) && !Live(REMOVED.meta, STALE) && Accepted(REMOVED.meta, STALE, true, true)
    ensures Grows(REMOVED.meta, t') ==>
              !Safe(Both(t', REMOVED.secrets.(creds := CredsAfter(REMOVED.secrets.creds, 1, STALE))))
  {
    RemovedIsSafe();
    StaleIsAccepted();
    if Grows(REMOVED.meta, t') { DeadUpdateIsSafeIff(REMOVED, STALE, t'); }
  }

  lemma RemovedIsSafe()
    ensures Safe(REMOVED)
  {
  }

  lemma StaleIsAccepted()
    ensures GetId(STALE) == 1 && StoresPassword(STALE)
    ensures !Live(REMOVED.meta, STALE) && Accepted(REMOVED.meta, STALE, true, true)
  {
  }

  /** A new identity inherits nothing from a removed one. */
  lemma FreshIdentityHasNoSecrets(b: Both)
    requires Safe(b)
    ensures b.meta.nextIdentity !in b.secrets.creds
    ensures forall m :: Loaded(b.secrets.store, b.meta.nextIdentity, m) == None
  {
    forall m ensures Loaded(b.secrets.store, b.meta.nextIdentity, m) == None {
      assert KeysOf(b.secrets.store, b.meta.nextIdentity, m) == {};
    }
  }

  // -------------------------------------------------------------- removal

  /** The data stored for an identity under a method's name. */
  function DataFor(b: Both, id: nat, name: string): Option<Data> {
    if id != 0 && name in b.meta.methods.ids then Loaded(b.secrets.store, id, b.meta.methods.ids[name]) else None
  }

  /** Nothing is left of an identity. */
  ghost predicate Gone(b: Both, id: nat) {
    ViewOf(b.meta, id) == None && id !in b.secrets.creds && forall name :: DataFor(b, id, name) == None
  }

  /** All that can be loaded of an identity is the same. */
  ghost predicate Unchanged(b: Both, b': Both, id: nat) {
    && ViewOf(b'.meta, id) == ViewOf(b.meta, id)
    && (id in b'.secrets.creds <==> id in b.secrets.creds)
    && (id in b.secrets.creds ==> b'.secrets.creds[id] == b.secrets.creds[id])
    && forall name :: DataFor(b', id, name) == DataFor(b, id, name)
  }

  /** Removing the secrets first is safe; removing the metadata then is complete and framed. */
  lemma RemovalIsCompleteAndFramed(b: Both, id: nat, order: seq<Child>)
    requires Safe(b) && CompleteOrder(order) && ContextsIntact(DeleteIdentity(b.meta, id, order))
    ensures var b' := Both(DeleteIdentity(b.meta, id, order), WithoutIdentity(b.secrets, id));
            && Safe(b') && Gone(b', id) && b'.meta.identity == b.meta.identity - {id}
            && forall y :: y != id ==> Unchanged(b, b', y)
  {
    var b' := Both(DeleteIdentity(b.meta, id, order), WithoutIdentity(b.secrets, id));
    RemovalEffect(b.meta, id, order);
    RemovedIdentity(b.secrets.store, id);
    assert b'.meta.methods == b.meta.methods;
    assert forall y, name :: DataFor(b', y, name) == if y == id then None else DataFor(b, y, name);
  }

  lemma HalfRemovalIsSafe(b: Both, id: nat)
    requires Safe(b)
    ensures Safe(Both(b.meta, WithoutIdentity(b.secrets, id)))
  {
  }

  // ----------------------------------------------------------- token data

  function MethodNamed(t: Tables, name: string): Tables { t.(methods := InsertName(t.methods, name)) }

  function DataUpdated(b: Both, del: Deletion, id: nat, name: string, data: Data): Both {
    var t := MethodNamed(b.meta, name);
    Both(t, b.secrets.(store := Updated(b.secrets.store, del, id, t.methods.ids[name], data)))
  }

  lemma NamingKeepsData(b: Both, name: string)
    requires Safe(b)
    ensures var b' := Both(MethodNamed(b.meta, name), b.secrets);
            Safe(b') && forall y :: Unchanged(b, b', y)
  {
    var b' := Both(MethodNamed(b.meta, name), b.secrets);
    InsertNameIsWf(b.meta.methods, name);
    GrowsEffect(b.meta, b'.meta);
    forall k | k in b.secrets.store ensures k.meth in b'.meta.methods.ids.Values {
      var m :| m in b.meta.methods.ids && b.meta.methods.ids[m] == k.meth;
      assert b'.meta.methods.ids[m] == k.meth;
    }
    forall y, other ensures DataFor(b', y, other) == DataFor(b, y, other) {
      if other == name && name !in b.meta.methods.ids {
        assert b.meta.methods.next !in b.meta.methods.ids.Values;
        assert KeysOf(b.secrets.store, y, b.meta.methods.next) == {};
      }
    }
  }

  lemma UpdatedStoreIsSafe(b: Both, del: Deletion, id: nat, name: string, data: Data)
    requires Safe(b) && 0 < id < b.meta.nextIdentity && name in b.meta.methods.ids
    ensures Safe(DataUpdated(b, del, id, name, data))
  {
    var b' := DataUpdated(b, del, id, name, data);
    assert b'.meta == b.meta;
    forall k | k in b'.secrets.store
      ensures k.identity < b.meta.nextIdentity && k.meth in b.meta.methods.ids.Values
    {
      if k !in b.secrets.store { assert k.identity == id && k.meth == b.meta.methods.ids[name]; }
    }
  }

  /** Token data stored under a name is what is loaded under that name, for the same exact condition. */
  lemma DataAfterUpdate(b: Both, del: Deletion, id: nat, name: string, data: Data)
    requires Safe(b) && 0 < id < b.meta.nextIdentity && AllTyped(data)
    ensures var b' := DataUpdated(b, del, id, name, data);
            var m := b'.meta.methods.ids[name];
            && Safe(b')
            && (DataFor(b', id, name) == (if data == map[] then None else Some(data)) <==>
                  OldRowsGo(b.secrets.store, del, id, m, data))
  {
    var b1 := Both(MethodNamed(b.meta, name), b.secrets);
    InsertNameIsWf(b.meta.methods, name);
    NamingKeepsData(b, name);
    assert DataUpdated(b, del, id, name, data) == DataUpdated(b1, del, id, name, data);
    UpdatedStoreIsSafe(b1, del, id, name, data);
    LoadAfterUpdate(b.secrets.store, del, id, b1.meta.methods.ids[name], data);
  }

  /** All other data, and every identity, stays as it was when the DELETE hits no other pair. */
  lemma OthersAfterDataUpdate(b: Both, del: Deletion, id: nat, name: string, data: Data)
    requires Safe(b) && 0 < id < b.meta.nextIdentity
    ensures var b' := DataUpdated(b, del, id, name, data);
            b'.secrets.creds == b.secrets.creds && forall y :: ViewOf(b'.meta, y) == ViewOf(b.meta, y)
    ensures var b' := DataUpdated(b, del, id, name, data);
            !HitsOthers(b.secrets.store, del, id, b'.meta.methods.ids[name]) ==>
              && (forall y :: y != id ==> Unchanged(b, b', y))
              && (forall other :: other != name ==> DataFor(b', id, other) == DataFor(b, id, other))
  {
    var b' := DataUpdated(b, del, id, name, data);
    var b1 := Both(b'.meta, b.secrets);
    var m := b'.meta.methods.ids[name];
    NamingKeepsData(b, name);
    assert forall y :: Unchanged(b, b1, y) ==> ViewOf(b'.meta, y) == ViewOf(b.meta, y);
    OthersAfterUpdate(b.secrets.store, del, id, m, data);
    if !HitsOthers(b.secrets.store, del, id, m) {
      forall y, other | y != id || other != name ensures DataFor(b', y, other) == DataFor(b, y, other) {
        assert DataFor(b1, y, other) == DataFor(b, y, other) by { assert Unchanged(b, b1, y); }
        if other in b1.meta.methods.ids && y != 0 {
          assert y != id || b1.meta.methods.ids[other] != m;
        }
      }
      forall y | y != id ensures Unchanged(b, b', y) {
        assert Unchanged(b, b1, y);
      }
    }
  }
}
