/**
 src/daemon/gsignond-identity.c: an identity with its sessions, over the
 credentials database.  The outcome of each access check and of each statement
 is a parameter.
 */
module Identity {
  import opened Ordering
  import opened IdentityRecord
  import opened IdentityInfo
  import opened SecretDatabase
  import opened MetadataTables
  import opened CredentialsStates
  import opened CredentialsDatabase
  import opened AuthSession
  import opened IdentityStore

  /** May a session for the method be made? */
  predicate MethodAvailable(r: Record, name: string) {
    if GetMethods(r).Some? then name in GetMethods(r).value else IsNew(r)
  }

  /** It is a method that the record names, or the identity is new and its record says nothing of methods. */
  lemma MethodAvailableIff(r: Record, name: string)
    ensures MethodAvailable(r, name) <==>
            if KAuthMethods in r.dict && r.dict[KAuthMethods].VMethods? then name in r.dict[KAuthMethods].methods
            else GetId(r) == 0
  {
  }

  /** How the writes of one dictionary turn out: the method's name, then the data. */
  datatype WriteLuck = WriteLuck(name: Luck, data: Luck)

  predicate WriteSucceeds(l: WriteLuck, data: Data) {
    && l.name.begin && l.name.commit && l.data.begin && l.data.exec && l.data.commit
    && data.Keys !! l.data.failing
  }

  /** One write of token data, and what became of it; before is what the sessions cached. */
  method WriteToken(db: CredentialsDatabase, id: nat, name: string, data: Data, del: Deletion, luck: WriteLuck,
                    ghost before: map<string, Data>) returns (ghost outcome: Outcome)
    requires db.Valid() && 0 < id < db.meta.now.nextIdentity
    modifies db.meta, db.storage
    ensures db.Valid() && KeepsTables(old(db.meta.now), db.meta.now)
    ensures db.storage.now.creds == old(db.storage.now).creds
    ensures db.State() == AfterWrite(old(db.State()), del, id, name, data, outcome)
    ensures Coherent(id, before, old(db.State())) && AllTyped(data) ==>
              (Coherent(id, before[name := data], db.State()) <==>
                 SignalKeeps(before, old(db.State()), del, id, name, data, outcome))
    ensures db.isOpen && WriteSucceeds(luck, data) && CounterHolds(data) ==>
              (outcome == Written <==> Total(data) < MAX_DATA_STORAGE)
  {
    ghost var b := db.State();
    KeepsItself(b.meta, name);
    var written := db.UpdateData(id, name, data, del, luck.name, luck.data);
    outcome := if written then Written else if db.meta.now == b.meta then Untouched else Named;
    if Coherent(id, before, b) && AllTyped(data) { SignalIsCoherentIff(id, before, b, del, name, data, outcome); }
  }

  /**
   The loop of gsignond_identity_store over the tokens that the sessions cache,
   in the order in which the hash table is walked.
   */
  method FlushTokens(db: CredentialsDatabase, id: nat, tokens: map<string, Data>, del: Deletion,
                     luck: string -> WriteLuck) returns (ghost attempts: seq<Attempt>)
    requires db.Valid() && 0 < id < db.meta.now.nextIdentity
    modifies db.meta, db.storage
    ensures db.Valid() && KeepsTables(old(db.meta.now), db.meta.now)
    ensures db.storage.now.creds == old(db.storage.now).creds
    ensures Covers(attempts, tokens.Keys) && db.State() == Flushed(old(db.State()), del, id, tokens, attempts)
    ensures db.isOpen && CanFlush(tokens, luck) ==> AllWritten(attempts)
  {
    KeepsItself(db.meta.now, "");
    var todo := tokens.Keys;
    ghost var b, done: set<string> := db.State(), {};
    attempts := [];
    while todo != {}
      modifies db.meta, db.storage
      invariant Attempting(tokens.Keys, attempts, done, todo)
      invariant db.Valid() && KeepsTables(old(db.meta.now), db.meta.now)
      invariant db.storage.now.creds == old(db.storage.now).creds
      invariant db.State() == Flushed(b, del, id, tokens, attempts)
      invariant db.isOpen && CanFlush(tokens, luck) ==> AllWritten(attempts)
      decreases todo
    {
      var name :| name in todo;
      ghost var before := db.meta.now;
      ghost var outcome := WriteToken(db, id, name, tokens[name], del, luck(name), map[]);
      StillKeepsTables(b.meta, before, db.meta.now);
      FlushedOneMore(b, del, id, tokens, attempts, Attempt(name, outcome));
      OneMoreAttempt(tokens.Keys, attempts, done, todo, Attempt(name, outcome));
      attempts, done, todo := attempts + [Attempt(name, outcome)], done + {name}, todo - {name};
    }
    assert done == tokens.Keys;
  }

  class Identity {
    const info: IdentityInfo
    const db: CredentialsDatabase
    var sessions: map<string, AuthSession>
    /** What the sessions cache. */
    ghost var caches: map<string, Data>

    /** The identity is new, or was given its id, and may have been removed since. */
    ghost predicate Valid()
      reads this, sessions.Values, info, db, db.meta, db.storage
    {
      && db.Valid()
      && SessionsAgree()
      && GetId(info.State()) < db.meta.now.nextIdentity
    }

    ghost predicate SessionsAgree()
      reads this, sessions.Values
    {
      && sessions.Keys == caches.Keys
      && forall m :: m in sessions ==>
           sessions[m].name == m && sessions[m].info == info && sessions[m].tokenData == caches[m]
    }

    /** Every session of a saved identity caches what is stored. */
    ghost predicate CachesAreCoherent()
      reads this, info, db, db.meta, db.storage
    {
      Coherent(GetId(info.State()), caches, db.State())
    }

    constructor (info: IdentityInfo, db: CredentialsDatabase)
      requires db.Valid() && GetId(info.State()) < db.meta.now.nextIdentity
      ensures this.info == info && this.db == db && sessions == map[]
      ensures Valid() && CachesAreCoherent()
    {
      this.info, this.db, sessions, caches := info, db, map[], map[];
    }

    /** gsignond_identity_get_auth_session */
    method GetAuthSession(name: string, pluginKnows: bool, proxyFound: bool) returns (session: AuthSession?)
      requires Valid()
      modifies this
      ensures Valid()
      ensures session == null <==>
                name !in old(sessions) && !(pluginKnows && MethodAvailable(info.State(), name) && proxyFound)
      ensures session != null ==> sessions == old(sessions)[name := session]
      ensures session == null ==> sessions == old(sessions)
      ensures session != null && name !in old(sessions) ==>
                var unread := IsNew(info.State()) || !db.isOpen;
                session.tokenData == if unread then map[] else StoredFor(db.State(), GetId(info.State()), name)
      ensures old(CachesAreCoherent()) && db.isOpen ==> CachesAreCoherent()
    {
      if name in sessions { return sessions[name]; }
      session := null;
      if !pluginKnows || !MethodAvailable(info.State(), name) { return; }
      var tokenData: Option<Data> := None;
      if !IsNew(info.State()) {
        tokenData := db.LoadData(GetId(info.State()), name);
      }
      if !proxyFound { return; }
      session := new AuthSession(name, info, tokenData);
      sessions, caches := sessions[name := session], caches[name := session.tokenData];
    }

    /** _on_store_token, after the session has cached the data */
    method OnStoreToken(name: string, data: Data, del: Deletion, luck: WriteLuck) returns (ghost outcome: Outcome)
      requires Valid() && name in sessions
      modifies this`caches, sessions[name], db.meta, db.storage
      ensures Valid() && caches == old(caches)[name := data]
      ensures IsNew(info.State()) ==> db.State() == old(db.State())
      ensures !IsNew(info.State()) ==>
                db.State() == AfterWrite(old(db.State()), del, GetId(info.State()), name, data, outcome)
      ensures !IsNew(info.State()) && db.isOpen && WriteSucceeds(luck, data) && CounterHolds(data) ==>
                (outcome == Written <==> Total(data) < MAX_DATA_STORAGE)
      ensures old(CachesAreCoherent()) && IsNew(info.State()) ==> CachesAreCoherent()
      ensures old(CachesAreCoherent()) && !IsNew(info.State()) && AllTyped(data) ==>
                (CachesAreCoherent() <==>
                   SignalKeeps(old(caches), old(db.State()), del, GetId(info.State()), name, data, outcome))
    {
      outcome := Untouched;
      sessions[name].NotifyStore(data);
      ghost var before := caches;
      caches := caches[name := data];
      assert SessionsAgree();
      if GetId(info.State()) != NEW_IDENTITY {
        outcome := WriteToken(db, GetId(info.State()), name, data, del, luck, before);
      }
    }

    /** _on_session_dead */
    method OnSessionDead(name: string)
      requires Valid()
      modifies this
      ensures Valid() && sessions == old(sessions) - {name}
      ensures old(CachesAreCoherent()) ==> CachesAreCoherent()
    {
      sessions, caches := sessions - {name}, caches - {name};
    }

    /** gsignond_identity_sign_out: the caches stay. */
    method SignOut(luck: Luck) returns (ok: bool)
      requires Valid()
      modifies db.storage
      ensures Valid()
      ensures ok == (IsNew(info.State()) || (db.isOpen && luck.exec))
      ensures ok && !IsNew(info.State()) ==>
                (CachesAreCoherent() <==> forall m :: m in sessions ==> sessions[m].tokenData == map[])
      ensures !ok || IsNew(info.State()) ==> db.State() == old(db.State())
      ensures db.storage.now.creds == old(db.storage.now.creds)
      ensures ok && !IsNew(info.State()) ==>
                forall y, name ::
                  DataFor(db.State(), y, name) ==
                  if y == GetId(info.State()) then None else DataFor(old(db.State()), y, name)
    {
      ok := true;
      if !IsNew(info.State()) {
        ghost var b := db.State();
        SignOutIsCoherentIff(GetId(info.State()), caches, b);
        ok := db.RemoveData(GetId(info.State()), None, AsMeant, luck);
        ghost var store := RemoveIdentityRows(b.secrets.store, GetId(info.State()));
        assert ok ==> db.State() == b.(secrets := b.secrets.(store := store));
        forall y, name { SignedOutData(b, GetId(info.State()), y, name); }
      }
    }

    /** The tokens of an identity that was just saved for the first time. */
    method SaveTokens(id: nat, del: Deletion, flush: string -> WriteLuck) returns (ghost attempts: seq<Attempt>)
      requires db.Valid() && SessionsAgree() && 0 < id < db.meta.now.nextIdentity
      requires forall name :: StoredFor(db.State(), id, name) == map[]
      modifies db.meta, db.storage
      ensures db.Valid() && KeepsTables(old(db.meta.now), db.meta.now) && Covers(attempts, caches.Keys)
      ensures db.storage.now.creds == old(db.storage.now.creds)
      ensures TypedCaches(caches) ==> (Coherent(id, caches, db.State()) <==> FlushKeeps(caches, del, id, attempts))
      ensures db.isOpen && CanFlush(caches, flush) ==> AllWritten(attempts)
      ensures db.isOpen && CanFlush(caches, flush) && del != AsWritten(id) ==> Coherent(id, caches, db.State())
    {
      var tokens := map m | m in sessions :: sessions[m].tokenData;
      assert tokens == caches;
      ghost var b := db.State();
      attempts := FlushTokens(db, id, tokens, del, flush);
      if TypedCaches(caches) { FlushIsCoherentIff(b, del, id, caches, attempts); }
      if AllWritten(attempts) && del != AsWritten(id) { FullFlushKeeps(caches, del, id, attempts); }
    }

    /** gsignond_daemon_store_identity */
    method StoreInDaemon(luck: Luck) returns (id: nat, ghost mid: Both)
      requires Valid()
      modifies info, db.meta, db.storage
      ensures db.Valid() <==> UpdateStaysSafe(old(db.meta.now), old(info.State()), id, db.isOpen && luck.exec)
      ensures mid == db.State() && SessionsAgree() && KeepsTables(mid.meta, mid.meta)
      ensures MetadataWritten(old(db.meta.now), old(info.State()), luck, mid.meta, id)
      ensures StoreOutcome(old(db.State()), old(info.State()), mid, id)
      ensures db.storage.now.creds ==
                if id != 0 && db.isOpen && luck.exec then CredsAfter(old(db.storage.now.creds), id, old(info.State()))
                else old(db.storage.now.creds)
      ensures info.State() == if id == 0 then old(info.State()) else ResetEdits(old(info.State()), {})
      ensures old(CachesAreCoherent()) ==> Coherent(GetId(old(info.State())), caches, mid)
    {
      ghost var b, r := db.State(), info.State();
      id, mid := db.UpdateIdentity(info, luck);
      mid := db.State();
      StoreLeavesData(b, r, luck, mid, id);
      KeepsItself(mid.meta, "");
      if Coherent(GetId(r), caches, b) {
        StoreKeepsCoherence(GetId(r), caches, b, mid.meta, mid.secrets.creds);
      }
    }

    /** What follows the first store of an identity in the database. */
    method FinishFirstSave(id: nat, del: Deletion, flush: string -> WriteLuck) returns (ghost attempts: seq<Attempt>)
      requires db.Valid() && SessionsAgree() && 0 < id < db.meta.now.nextIdentity
      requires forall name :: StoredFor(db.State(), id, name) == map[]
      modifies info, db.meta, db.storage
      ensures Valid() && KeepsTables(old(db.meta.now), db.meta.now) && Covers(attempts, caches.Keys)
      ensures db.storage.now.creds == old(db.storage.now.creds)
      ensures info.State() == SetId(old(info.State()), id)
      ensures TypedCaches(caches) ==> (CachesAreCoherent() <==> FlushKeeps(caches, del, id, attempts))
      ensures db.isOpen && CanFlush(caches, flush) ==> AllWritten(attempts)
      ensures db.isOpen && CanFlush(caches, flush) && del != AsWritten(id) ==> CachesAreCoherent()
    {
      info.SetId(id);
      attempts := SaveTokens(id, del, flush);
    }

    /**
     The end of gsignond_identity_store: the record goes to the database, and the
     tokens of a new identity.
     */
    method Save(luck: Luck, del: Deletion, flush: string -> WriteLuck)
      returns (id: nat, ghost mid: Both, ghost attempts: seq<Attempt>)
      requires Valid()
      modifies info, db.meta, db.storage
      ensures Valid() <==> UpdateStaysSafe(old(db.meta.now), old(info.State()), id, db.isOpen && luck.exec)
      ensures KeepsTables(mid.meta, db.meta.now)
      ensures db.storage.now.creds ==
                if id != 0 && db.isOpen && luck.exec then CredsAfter(old(db.storage.now.creds), id, old(info.State()))
                else old(db.storage.now.creds)
      ensures MetadataWritten(old(db.meta.now), old(info.State()), luck, mid.meta, id)
      ensures info.State() == Saved(old(info.State()), id)
      ensures old(CachesAreCoherent()) && (id == 0 || !IsNew(old(info.State()))) ==> CachesAreCoherent()
      ensures id != 0 && IsNew(old(info.State())) ==> Saving(flush, attempts) && (TypedCaches(caches) ==>
                (CachesAreCoherent() <==> FlushKeeps(caches, del, id, attempts)))
      ensures id != 0 && IsNew(old(info.State())) && db.isOpen && CanFlush(caches, flush) && del != AsWritten(id) ==>
                CachesAreCoherent()
    {
      var wasNew := IsNew(info.State());
      attempts := [];
      id, mid := StoreInDaemon(luck);
      if id != 0 && wasNew {
        attempts := FinishFirstSave(id, del, flush);
      }
    }

    /** Every cached token was attempted, and written if its write can succeed. */
    ghost predicate Saving(flush: string -> WriteLuck, attempts: seq<Attempt>)
      reads this, db
    {
      Covers(attempts, caches.Keys) && (db.isOpen && CanFlush(caches, flush) ==> AllWritten(attempts))
    }

    /** What a store does with a record that already has the client's input. */
    twostate predicate StoreDone(r: Record, luck: Luck, id: nat, mid: Both)
      reads this, sessions.Values, info, db, db.meta, db.storage
    {
      && info.State() == Saved(r, id) && KeepsTables(mid.meta, db.meta.now)
      && MetadataWritten(old(db.meta.now), r, luck, mid.meta, id)
      && (Valid() <==> UpdateStaysSafe(old(db.meta.now), r, id, db.isOpen && luck.exec))
    }

    /** The part of gsignond_identity_store that copies the fields a client may set, and the end of it. */
    method MergeAndSave(ghost input: map<Key, Variant>, r: Record, luck: Luck, del: Deletion,
                        flush: string -> WriteLuck)
      returns (id: nat, ghost mid: Both, ghost attempts: seq<Attempt>)
      requires Valid() && r == Cleaned(input)
      modifies info, db.meta, db.storage
      ensures StoreDone(Merged(old(info.State()), input), luck, id, mid)
      ensures db.storage.now.creds ==
                if id != 0 && db.isOpen && luck.exec
                then CredsAfter(old(db.storage.now.creds), id, Merged(old(info.State()), input))
                else old(db.storage.now.creds)
      ensures old(CachesAreCoherent()) && (id == 0 || !IsNew(old(info.State()))) ==> CachesAreCoherent()
      ensures id != 0 && IsNew(old(info.State())) ==> Saving(flush, attempts) && (TypedCaches(caches) ==>
                (CachesAreCoherent() <==> FlushKeeps(caches, del, id, attempts)))
      ensures id != 0 && IsNew(old(info.State())) && db.isOpen && CanFlush(caches, flush) && del != AsWritten(id) ==>
                CachesAreCoherent()
    {
      MergedKeepsId(info.State(), input);
      var _ := info.SelectiveCopy(r, r.edits * Mask(IsNew(info.State())));
      id, mid, attempts := Save(luck, del, flush);
    }

    /** gsignond_identity_store; a failed store does not roll the record back. */
    method Store(input: map<Key, Variant>, writeAllowed: bool, aclAllowed: bool, luck: Luck, del: Deletion,
                 flush: string -> WriteLuck) returns (id: nat, ghost mid: Both, ghost attempts: seq<Attempt>)
      requires Valid()
      modifies info, db.meta, db.storage
      ensures StoreAllowed(input, writeAllowed, aclAllowed) ==>
                StoreDone(Merged(old(info.State()), input), luck, id, mid)
      ensures StoreAllowed(input, writeAllowed, aclAllowed) ==>
                var t, r := old(db.meta.now), Merged(old(info.State()), input);
                var accepted := luck.begin && luck.commit && GetOwner(r).Some? && GetAcl(r) != [];
                (r.edits != {} && (IsNew(r) || GetId(r) in t.identity) ==>
                  id == if !accepted then 0 else if IsNew(r) then t.nextIdentity else GetId(r))
      ensures db.storage.now.creds ==
                if id != 0 && db.isOpen && luck.exec
                then CredsAfter(old(db.storage.now.creds), id, Merged(old(info.State()), input))
                else old(db.storage.now.creds)
      ensures !StoreAllowed(input, writeAllowed, aclAllowed) ==>
                Valid() && id == 0 && info.State() == old(info.State()) && db.State() == old(db.State())
      ensures old(CachesAreCoherent()) && (id == 0 || !IsNew(old(info.State()))) ==> CachesAreCoherent()
      ensures id != 0 && IsNew(old(info.State())) ==> Saving(flush, attempts) && (TypedCaches(caches) ==>
                (CachesAreCoherent() <==> FlushKeeps(caches, del, id, attempts)))
      ensures id != 0 && IsNew(old(info.State())) && db.isOpen && CanFlush(caches, flush) && del != AsWritten(id) ==>
                CachesAreCoherent()
    {
      id, mid, attempts := 0, db.State(), [];
      if !writeAllowed { return; }
      var r := Cleaned(input);
      if GetAcl(r) != [] && !aclAllowed { return; }
      ghost var t, merged := db.meta.now, Merged(info.State(), input);
      id, mid, attempts := MergeAndSave(input, r, luck, del, flush);
      IdOfStored(t, merged, luck, mid.meta, id);
    }
  }

  /** The record after a store that returned id. */
  function Saved(r: Record, id: nat): Record {
    if id == 0 then r else if IsNew(r) then SetId(ResetEdits(r, {}), id) else ResetEdits(r, {})
  }

  predicate StoreAllowed(input: map<Key, Variant>, writeAllowed: bool, aclAllowed: bool) {
    writeAllowed && (GetAcl(Cleaned(input)) != [] ==> aclAllowed)
  }

  /** The input's list decides whether the client must be allowed to change it, if it is one and not empty. */
  lemma StoreAllowedIff(input: map<Key, Variant>, writeAllowed: bool, aclAllowed: bool)
    ensures StoreAllowed(input, writeAllowed, aclAllowed) <==>
            writeAllowed && (KAcl in input && input[KAcl].VCtxs? && input[KAcl].list != [] ==> aclAllowed)
  {
  }

  lemma IdOfStored(t: Tables, r: Record, luck: Luck, t': Tables, id: nat)
    requires MetadataWritten(t, r, luck, t', id)
    ensures var accepted := luck.begin && luck.commit && GetOwner(r).Some? && GetAcl(r) != [];
            r.edits != {} && (IsNew(r) || GetId(r) in t.identity) ==>
              id == if !accepted then 0 else if IsNew(r) then t.nextIdentity else GetId(r)
  {
  }

  /** A store alters nothing but the id, of a new identity, and leaves only that flagged. */
  lemma SavedReads(r: Record, id: nat, p: Prop)
    requires id != 0
    ensures Saved(r, 0) == r
    ensures p != Id ==> Read(p, Saved(r, id)) == Read(p, r)
    ensures GetId(Saved(r, id)) == if IsNew(r) then id else GetId(r)
    ensures Saved(r, id).edits == if IsNew(r) then {Id} else {}
  {
    if p != Id { ReadsOwnKey(p, r, Saved(r, id)); }
  }

  /** Rows stay; only method names are added. */
  ghost predicate KeepsTables(t: Tables, t': Tables) {
    t' == t.(methods := t'.methods) && WfNames(t'.methods) && KeepsNames(t.methods, t'.methods)
  }

  /** A dictionary that update_data accepts. */
  ghost predicate Storable(data: Data) {
    AllTyped(data) && CounterHolds(data) && Total(data) < MAX_DATA_STORAGE
  }

  /** Every write of the flush is one that succeeds. */
  ghost predicate CanFlush(caches: map<string, Data>, luck: string -> WriteLuck) {
    forall m :: m in caches ==> Storable(caches[m]) && WriteSucceeds(luck(m), caches[m])
  }

  /** Well-typed tokens under the limit, and statements that all succeed, are enough for a flush. */
  lemma CanFlushIff(caches: map<string, Data>, luck: string -> WriteLuck)
    ensures CanFlush(caches, luck) <==>
            forall m :: m in caches ==>
              && AllTyped(caches[m]) && CounterHolds(caches[m]) && Total(caches[m]) < 4096
              && luck(m).name.begin && luck(m).name.commit && luck(m).data.begin && luck(m).data.exec
              && luck(m).data.commit && caches[m].Keys !! luck(m).data.failing
  {
  }

  ghost predicate AllWritten(attempts: seq<Attempt>) {
    forall i :: 0 <= i < |attempts| ==> attempts[i].outcome == Written
  }

  /** The flush on its way: the names in done attempted, those in todo ahead. */
  ghost predicate Attempting(keys: set<string>, attempts: seq<Attempt>, done: set<string>, todo: set<string>) {
    keys == done + todo && done !! todo && Covers(attempts, done)
  }

  lemma OneMoreAttempt(keys: set<string>, attempts: seq<Attempt>, done: set<string>, todo: set<string>, a: Attempt)
    requires Attempting(keys, attempts, done, todo) && a.name in todo
    ensures Attempting(keys, attempts + [a], done + {a.name}, todo - {a.name})
  {
    assert forall i :: 0 <= i < |attempts| ==> attempts[i] in attempts && attempts[i].name in done;
    assert (attempts + [a])[|attempts|] == a;
    assert forall x :: x in attempts + [a] <==> x in attempts || x == a;
  }

  lemma StillKeepsTables(a: Tables, b: Tables, c: Tables)
    requires KeepsTables(a, b) && KeepsTables(b, c)
    ensures KeepsTables(a, c)
  {
  }

  lemma KeepsItself(t: Tables, name: string)
    requires Wf(t)
    ensures KeepsTables(t, t) && KeepsTables(t, MethodNamed(t, name))
  {
    InsertNameIsWf(t.methods, name);
  }

  /** After the store of a live or new record: names are kept, and a new identity has no data yet. */
  ghost predicate StoreOutcome(b: Both, r: Record, mid: Both, id: nat) {
    && WfNames(mid.meta.methods) && KeepsNames(b.meta.methods, mid.meta.methods)
    && mid.secrets == b.secrets.(creds := mid.secrets.creds)
    && (id != 0 && IsNew(r) ==>
          0 < id < mid.meta.nextIdentity && forall name :: StoredFor(mid, id, name) == map[])
    && GetId(Saved(r, id)) == (if id != 0 && IsNew(r) then id else GetId(r))
    && GetId(Saved(r, id)) < mid.meta.nextIdentity
  }

  lemma StoreLeavesData(b: Both, r: Record, luck: Luck, mid: Both, id: nat)
    requires Safe(b) && GetId(r) < b.meta.nextIdentity && MetadataWritten(b.meta, r, luck, mid.meta, id)
    requires mid.secrets == b.secrets.(creds := mid.secrets.creds) && Wf(mid.meta)
    ensures StoreOutcome(b, r, mid, id)
  {
    if id != 0 && IsNew(r) { NewIdentityIsEmpty(b, mid, id); }
  }

  lemma NewIdentityIsEmpty(b: Both, mid: Both, id: nat)
    requires Safe(b) && id == b.meta.nextIdentity
    requires WfNames(mid.meta.methods) && KeepsNames(b.meta.methods, mid.meta.methods)
    requires mid.secrets == b.secrets.(creds := mid.secrets.creds)
    ensures forall name :: StoredFor(mid, id, name) == map[]
  {
    NothingStoredYet(b, mid.meta, id);
    forall name ensures StoredFor(mid, id, name) == map[] {
      assert StoredFor(mid, id, name) == StoredFor(Both(mid.meta, b.secrets), id, name);
    }
  }
}
