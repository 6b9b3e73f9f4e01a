/**
 The laws behind src/daemon/gsignond-identity.c: what storing a client's input
 does to a record, and when the token data that sessions cache is the token data
 that is stored.
 */
module IdentityStore {
  import opened Ordering
  import opened IdentityRecord
  import opened VariantTypes
  import opened SecretDatabase
  import opened MetadataTables
  import opened CredentialsStates

  // --------------------------------------------------------------- merging

  predicate IsAlnum(c: char) { '0' <= c <= '9' || 'A' <= c <= 'Z' || 'a' <= c <= 'z' }

  /** _check_string > 0 */
  predicate HasAlnum(s: string) { exists i :: 0 <= i < |s| && IsAlnum(s[i]) }

  const MASK: set<Prop> :=
    {Username, UsernameIsSecret, Secret, StoreSecret, Caption, Type, Methods, Realms, Acl}

  /** The input with an owner that names nobody taken out. */
  function Cleaned(input: map<Key, Variant>): Record {
    var r := FromVariant(input);
    if GetOwner(r).Some? && !HasAlnum(GetOwner(r).value.sys) then RemoveOwner(r) else r
  }

  function Mask(wasNew: bool): set<Prop> { if wasNew then MASK + {Owner} else MASK }

  function Merged(saved: Record, input: map<Key, Variant>): Record {
    var r := Cleaned(input);
    SelectiveCopy(saved, r, r.edits * Mask(IsNew(saved)))
  }

  lemma CopyReads(dest: Record, src: Record, flags: set<Prop>, p: Prop)
    ensures Read(p, SelectiveCopy(dest, src, flags)) ==
            if p in CopiedFlags(src, flags) then Read(p, src) else Read(p, dest)
  {
    var r := SelectiveCopy(dest, src, flags);
    forall k | FlagOf(k) == Some(p)
      ensures Entry(r, k) == if p in CopiedFlags(src, flags) then Entry(src, k) else Entry(dest, k)
    {
      CopiedEntry(dest, src, flags, p, k);
    }
    ReadsOwnKey(p, if p in CopiedFlags(src, flags) then src else dest, r);
  }

  lemma CopiedEntry(dest: Record, src: Record, flags: set<Prop>, p: Prop, k: Key)
    requires FlagOf(k) == Some(p)
    ensures Entry(SelectiveCopy(dest, src, flags), k) ==
            if p in CopiedFlags(src, flags) then Entry(src, k) else Entry(dest, k)
  {
    assert KeyOf(p) == k;
    assert Selected(k, src, flags) <==> p in CopiedFlags(src, flags);
  }

  /** A copy takes the selected fields that the source has, flags just these, and leaves all else. */
  lemma SelectiveCopyCopies(dest: Record, src: Record, flags: set<Prop>, p: Prop, name: string)
    ensures var r := SelectiveCopy(dest, src, flags);
            var copied := p in flags && (p in {Username, Secret} || KeyOf(p) in src.dict);
            && Read(p, r) == (if copied then Read(p, src) else Read(p, dest))
            && (p in r.edits <==> p in dest.edits || copied)
            && Entry(r, KOther(name)) == Entry(dest, KOther(name))
  {
    CopyReads(dest, src, flags, p);
  }

  /**
   A store changes neither the id, the validated flag nor the reference count,
   and the owner only of a new identity, whatever the input; every other field
   becomes the input's if the input has it, and stays otherwise.
   */
  lemma StoreMerges(saved: Record, input: map<Key, Variant>)
    ensures var merged := Merged(saved, input);
            && GetId(merged) == GetId(saved)
            && (forall p :: p in {Id, Validated, RefCount} ==> Read(p, merged) == Read(p, saved))
            && (!IsNew(saved) ==> Read(Owner, merged) == Read(Owner, saved))
            && (forall p :: p !in {Id, Owner, Validated, RefCount} ==>
                  Read(p, merged) == if KeyOf(p) in input then Read(p, FromVariant(input)) else Read(p, saved))
  {
    forall p: Prop | p != Owner || !IsNew(saved) { MergeReads(saved, input, p); }
    assert Read(Id, Merged(saved, input)) == Read(Id, saved);
  }

  lemma MergeReads(saved: Record, input: map<Key, Variant>, p: Prop)
    requires p != Owner || !IsNew(saved)
    ensures Read(p, Merged(saved, input)) ==
            if p !in {Id, Owner, Validated, RefCount} && KeyOf(p) in input then Read(p, FromVariant(input))
            else Read(p, saved)
  {
    var r := Cleaned(input);
    CopyReads(saved, r, r.edits * Mask(IsNew(saved)), p);
    MaskHas(p);
    if p != Owner { CleanedReads(input, p); }
  }

  /** Exactly the fields that it takes from the input become flagged. */
  lemma StoreFlags(saved: Record, input: map<Key, Variant>, p: Prop)
    ensures p in Merged(saved, input).edits <==>
            || p in saved.edits
            || (p !in {Id, Owner, Validated, RefCount} && KeyOf(p) in input)
            || (p == Owner && IsNew(saved) && KOwner in input &&
                  (input[KOwner].VCtx? ==> HasAlnum(input[KOwner].ctx.sys)))
  {
    MaskHas(p);
    if p != Owner {
      CleanedReads(input, p);
    } else {
      assert Owner in Cleaned(input).edits <==> KOwner in input;
      assert KOwner in Cleaned(input).dict <==>
               KOwner in input && (input[KOwner].VCtx? ==> HasAlnum(input[KOwner].ctx.sys));
    }
  }

  lemma MaskHas(p: Prop)
    ensures p in MASK <==> p !in {Id, Owner, Validated, RefCount}
  {
    match p
    case Username => case Secret => case Id => case Type => case Caption => case StoreSecret =>
    case UsernameIsSecret => case Owner => case Acl => case Methods => case Realms => case RefCount =>
    case Validated =>
  }

  lemma CleanedReads(input: map<Key, Variant>, p: Prop)
    requires p != Owner
    ensures Read(p, Cleaned(input)) == Read(p, FromVariant(input))
    ensures p != Username && p != Secret ==> (KeyOf(p) in Cleaned(input).dict <==> KeyOf(p) in input)
    ensures p in Cleaned(input).edits <==> KeyOf(p) in input
  {
    ReadsOwnKey(p, FromVariant(input), Cleaned(input));
  }

  lemma AlnumIff(s: string)
    ensures HasAlnum(s) <==> exists c: char :: c in s && ('0' <= c <= '9' || 'A' <= c <= 'Z' || 'a' <= c <= 'z')
  {
    if c: char :| c in s && IsAlnum(c) {
      var i :| 0 <= i < |s| && s[i] == c;
      assert HasAlnum(s);
    }
  }

  /** A new identity takes the input's owner exactly if that names somebody. */
  lemma OwnerOfNew(saved: Record, input: map<Key, Variant>)
    requires IsNew(saved) && KOwner in input && input[KOwner].VCtx?
    ensures GetOwner(Merged(saved, input)) ==
            if HasAlnum(input[KOwner].ctx.sys) then Some(input[KOwner].ctx) else GetOwner(saved)
    ensures GetId(Merged(saved, input)) == GetId(saved)
  {
    var r := Cleaned(input);
    assert GetOwner(FromVariant(input)) == Some(input[KOwner].ctx);
    CopyReads(saved, r, r.edits * Mask(true), Owner);
    CopyReads(saved, r, r.edits * Mask(true), Id);
    assert Owner in FromVariant(input).edits;
    assert Read(Owner, Merged(saved, input)) == RVar(Entry(Merged(saved, input), KOwner));
    assert Id !in Mask(true);
    assert Read(Id, Merged(saved, input)) == Read(Id, saved);
  }

  lemma MergedKeepsId(saved: Record, input: map<Key, Variant>)
    ensures GetId(Merged(saved, input)) == GetId(saved)
  {
    var r := Cleaned(input);
    CopyReads(saved, r, r.edits * Mask(IsNew(saved)), Id);
    assert Id !in Mask(IsNew(saved));
    assert Read(Id, Merged(saved, input)) == Read(Id, saved);
  }

  // ------------------------------------------------------------ coherence

  /** What is stored for a method; nothing stored is the empty dictionary. */
  function StoredFor(b: Both, id: nat, name: string): Data {
    if DataFor(b, id, name).Some? then DataFor(b, id, name).value else map[]
  }

  /** Every session of a saved identity caches what is stored. */
  ghost predicate Coherent(id: nat, caches: map<string, Data>, b: Both) {
    id != NEW_IDENTITY ==> forall name :: name in caches ==> caches[name] == StoredFor(b, id, name)
  }

  lemma DataUpdatedIsSafe(b: Both, del: Deletion, id: nat, name: string, data: Data)
    requires Safe(b) && 0 < id < b.meta.nextIdentity
    ensures Safe(DataUpdated(b, del, id, name, data))
    ensures DataUpdated(b, del, id, name, data).meta.nextIdentity == b.meta.nextIdentity
  {
    InsertNameIsWf(b.meta.methods, name);
    NamingKeepsData(b, name);
    UpdatedStoreIsSafe(Both(MethodNamed(b.meta, name), b.secrets), del, id, name, data);
  }

  lemma NamingKeepsStored(b: Both, name: string, i: nat, other: string)
    requires Safe(b)
    ensures DataFor(Both(MethodNamed(b.meta, name), b.secrets), i, other) == DataFor(b, i, other)
  {
    NamingKeepsData(b, name);
    assert Unchanged(b, Both(MethodNamed(b.meta, name), b.secrets), i);
  }

  function WithRows(b: Both, del: Deletion, id: nat, m: nat, data: Data): Both {
    b.(secrets := b.secrets.(store := Updated(b.secrets.store, del, id, m, data)))
  }

  lemma NameThenRows(b: Both, del: Deletion, id: nat, name: string, data: Data)
    ensures var t := MethodNamed(b.meta, name);
            DataUpdated(b, del, id, name, data) == WithRows(Both(t, b.secrets), del, id, t.methods.ids[name], data)
  {
  }

  /** Rows under a method id that another name does not have, seen under that name. */
  lemma OtherData(b: Both, del: Deletion, id: nat, m: nat, data: Data, i: nat, other: string)
    requires i != id || other !in b.meta.methods.ids || b.meta.methods.ids[other] != m
    ensures DataFor(WithRows(b, del, id, m, data), i, other) ==
            if del == AsWritten(i) then None else DataFor(b, i, other)
  {
    if other in b.meta.methods.ids {
      OtherLoaded(b.secrets.store, del, id, m, data, i, b.meta.methods.ids[other]);
    }
  }

  lemma OtherStoredRows(b: Both, b1: Both, del: Deletion, id: nat, m: nat, data: Data, i: nat, other: string)
    requires DataFor(b1, i, other) == DataFor(b, i, other)
    requires i != id || other !in b1.meta.methods.ids || b1.meta.methods.ids[other] != m
    ensures StoredFor(WithRows(b1, del, id, m, data), i, other) ==
            if del == AsWritten(i) then map[] else StoredFor(b, i, other)
  {
    OtherData(b1, del, id, m, data, i, other);
  }

  /** One write, seen from any other pair: only a DELETE by that pair's identity reaches it. */
  lemma OtherStored(b: Both, del: Deletion, id: nat, name: string, data: Data, i: nat, other: string)
    requires Safe(b) && (i != id || other != name)
    ensures StoredFor(DataUpdated(b, del, id, name, data), i, other) ==
            if del == AsWritten(i) then map[] else StoredFor(b, i, other)
  {
    var t := MethodNamed(b.meta, name);
    InternedNameDiffers(b.meta.methods, name, other);
    NameThenRows(b, del, id, name, data);
    NamingKeepsStored(b, name, i, other);
    OtherStoredRows(b, Both(t, b.secrets), del, id, t.methods.ids[name], data, i, other);
  }

  lemma InternedNameDiffers(n: Names<string>, name: string, other: string)
    requires WfNames(n)
    ensures var ids := InsertName(n, name).ids; other != name && other in ids ==> ids[other] != ids[name]
  {
    InsertNameIsWf(n, name);
  }

  lemma OtherLoaded(store: Store, del: Deletion, id: nat, m: nat, data: Data, i: nat, n: nat)
    requires i != id || n != m
    ensures Loaded(Updated(store, del, id, m, data), i, n) ==
            if del == AsWritten(i) then None else Loaded(store, i, n)
  {
    UpdatedKeys(store, del, id, m, data, i, n);
    if del == AsWritten(i) {
      assert KeptKeys(store, del, id, m, i, n) == {};
    } else {
      SameRowsSameLoad(Updated(store, del, id, m, data), store, i, n);
    }
  }

  lemma EmptyMeansNone(b: Both, id: nat, name: string)
    ensures DataFor(b, id, name) != Some(map[])
  {
    if DataFor(b, id, name).Some? {
      var keys := KeysOf(b.secrets.store, id, b.meta.methods.ids[name]);
      assert DataFor(b, id, name).value.Keys == keys;
    }
  }

  lemma OldKeysOf(b: Both, id: nat, name: string)
    requires Safe(b) && id > 0
    ensures StoredFor(b, id, name).Keys == KeysOf(b.secrets.store, id, MethodNamed(b.meta, name).methods.ids[name])
  {
    var m := MethodNamed(b.meta, name).methods.ids[name];
    NamingKeepsData(b, name);
    var b1 := Both(MethodNamed(b.meta, name), b.secrets);
    assert Unchanged(b, b1, id);
    assert DataFor(b1, id, name) == DataFor(b, id, name) == Loaded(b.secrets.store, id, m);
  }

  /** One write, seen from its own pair. */
  lemma StoredReadBackIff(b: Both, del: Deletion, id: nat, name: string, data: Data)
    requires Safe(b) && 0 < id < b.meta.nextIdentity && AllTyped(data)
    ensures StoredFor(DataUpdated(b, del, id, name, data), id, name) == data <==>
            del == AsMeant || del == AsWritten(id) || StoredFor(b, id, name).Keys <= data.Keys
  {
    DataAfterUpdate(b, del, id, name, data);
    OldKeysOf(b, id, name);
    EmptyMeansNone(DataUpdated(b, del, id, name, data), id, name);
  }

  /** When a written store signal leaves every cache equal to what is stored, whatever number the DELETE has. */
  ghost predicate WriteKeeps(caches: map<string, Data>, b: Both, del: Deletion, id: nat, name: string, data: Data) {
    || del == AsMeant
    || (del == AsWritten(id) && forall other :: other in caches && other != name ==> caches[other] == map[])
    || (del.AsWritten? && del.operand != id && StoredFor(b, id, name).Keys <= data.Keys)
  }

  /**
   A store signal whose write succeeds keeps the caches coherent always with the
   statement that was meant.  With the one written, by the identity's own
   number, exactly when the other caches are empty; by any other, exactly when
   the new data has all the keys of the old.
   */
  lemma WriteThroughKeepsCoherence(id: nat, caches: map<string, Data>, b: Both, del: Deletion, name: string,
                                   data: Data)
    requires Safe(b) && 0 < id < b.meta.nextIdentity && AllTyped(data) && Coherent(id, caches, b)
    ensures Coherent(id, caches[name := data], DataUpdated(b, del, id, name, data)) <==>
            WriteKeeps(caches, b, del, id, name, data)
  {
    var b', caches' := DataUpdated(b, del, id, name, data), caches[name := data];
    StoredReadBackIff(b, del, id, name, data);
    forall other | other != name
      ensures StoredFor(b', id, other) == if del == AsWritten(id) then map[] else StoredFor(b, id, other)
    {
      OtherStored(b, del, id, name, data, id, other);
    }
    CoherentIff(id, caches, b, b', del, name, data);
  }

  lemma CoherentIff(id: nat, caches: map<string, Data>, b: Both, b': Both, del: Deletion, name: string, data: Data)
    requires id > 0 && Coherent(id, caches, b)
    requires forall other :: other != name ==>
               StoredFor(b', id, other) == if del == AsWritten(id) then map[] else StoredFor(b, id, other)
    requires StoredFor(b', id, name) == data <==>
             del == AsMeant || del == AsWritten(id) || StoredFor(b, id, name).Keys <= data.Keys
    ensures Coherent(id, caches[name := data], b') <==> WriteKeeps(caches, b, del, id, name, data)
  {
    var caches' := caches[name := data];
    assert name in caches';
    assert forall other :: other in caches && other != name ==> other in caches' && caches'[other] == caches[other];
  }

  ghost predicate AllEmpty(caches: map<string, Data>) { forall n :: n in caches ==> caches[n] == map[] }

  /** The same for a write to another identity: it does harm only by this one's number. */
  lemma ForeignWriteIsCoherentIff(id: nat, caches: map<string, Data>, b: Both, del: Deletion, other: nat,
                                  name: string, data: Data, o: Outcome)
    requires Safe(b) && id > 0 && other > 0 && other != id && Coherent(id, caches, b)
    ensures Coherent(id, caches, AfterWrite(b, del, other, name, data, o)) <==>
            o != Written || del != AsWritten(id) || AllEmpty(caches)
  {
    forall n
      ensures StoredFor(AfterWrite(b, del, other, name, data, o), id, n) ==
              if o == Written && del == AsWritten(id) then map[] else StoredFor(b, id, n)
    {
      if o == Written {
        OtherStored(b, del, other, name, data, id, n);
      } else {
        FailedWriteStoresNothing(b, del, other, name, data, o, id, n);
      }
    }
  }

  /** What became of a write: all of it, the name of the method alone, or nothing. */
  datatype Outcome = Written | Named | Untouched

  function AfterWrite(b: Both, del: Deletion, id: nat, name: string, data: Data, o: Outcome): Both {
    match o
    case Written => DataUpdated(b, del, id, name, data)
    case Named => Both(MethodNamed(b.meta, name), b.secrets)
    case Untouched => b
  }

  lemma AfterWriteIsSafe(b: Both, del: Deletion, id: nat, name: string, data: Data, o: Outcome)
    requires Safe(b) && 0 < id < b.meta.nextIdentity
    ensures Safe(AfterWrite(b, del, id, name, data, o))
    ensures AfterWrite(b, del, id, name, data, o).meta.nextIdentity == b.meta.nextIdentity
  {
    match o
    case Written => DataUpdatedIsSafe(b, del, id, name, data);
    case Named => NamingKeepsData(b, name);
    case Untouched =>
  }

  lemma FailedWriteStoresNothing(b: Both, del: Deletion, id: nat, name: string, data: Data, o: Outcome, i: nat,
                                 other: string)
    requires Safe(b) && o != Written
    ensures StoredFor(AfterWrite(b, del, id, name, data, o), i, other) == StoredFor(b, i, other)
  {
    NamingKeepsStored(b, name, i, other);
  }

  /** When a failed write leaves the caches coherent: exactly if nothing changed. */
  lemma FailedWriteIsCoherentIff(id: nat, caches: map<string, Data>, b: Both, del: Deletion, name: string,
                                 data: Data, o: Outcome)
    requires Safe(b) && id > 0 && Coherent(id, caches, b) && o != Written
    ensures Coherent(id, caches[name := data], AfterWrite(b, del, id, name, data, o)) <==>
            data == StoredFor(b, id, name)
  {
    forall other { FailedWriteStoresNothing(b, del, id, name, data, o, id, other); }
    assert name in caches[name := data];
  }

  /** When a store signal leaves every cache equal to what is stored. */
  ghost predicate SignalKeeps(caches: map<string, Data>, b: Both, del: Deletion, id: nat, name: string, data: Data,
                              o: Outcome) {
    if o.Written? then WriteKeeps(caches, b, del, id, name, data) else data == StoredFor(b, id, name)
  }

  lemma SignalIsCoherentIff(id: nat, caches: map<string, Data>, b: Both, del: Deletion, name: string, data: Data,
                            o: Outcome)
    requires Safe(b) && 0 < id < b.meta.nextIdentity && AllTyped(data) && Coherent(id, caches, b)
    ensures Coherent(id, caches[name := data], AfterWrite(b, del, id, name, data, o)) <==>
            SignalKeeps(caches, b, del, id, name, data, o)
  {
    if o.Written? {
      WriteThroughKeepsCoherence(id, caches, b, del, name, data);
    } else {
      FailedWriteIsCoherentIff(id, caches, b, del, name, data, o);
    }
  }

  /** Other names in METHODS change nothing that is stored. */
  lemma MoreNamesKeepData(b: Both, t': Tables, id: nat, name: string)
    requires Safe(b) && WfNames(t'.methods) && KeepsNames(b.meta.methods, t'.methods)
    ensures DataFor(Both(t', b.secrets), id, name) == DataFor(b, id, name)
  {
    if name in t'.methods.ids && name !in b.meta.methods.ids {
      var m := t'.methods.ids[name];
      forall k | k in b.secrets.store ensures k.meth != m {
        var n :| n in b.meta.methods.ids && b.meta.methods.ids[n] == k.meth;
        assert t'.methods.ids[n] == k.meth;
      }
      assert KeysOf(b.secrets.store, id, m) == {};
    }
  }

  /** Storing the identity again leaves its caches coherent. */
  lemma StoreKeepsCoherence(id: nat, caches: map<string, Data>, b: Both, t': Tables, creds: map<nat, Credentials>)
    requires Safe(b) && Coherent(id, caches, b)
    requires WfNames(t'.methods) && KeepsNames(b.meta.methods, t'.methods)
    ensures Coherent(id, caches, Both(t', b.secrets.(creds := creds)))
  {
    forall name | name in caches
      ensures StoredFor(Both(t', b.secrets.(creds := creds)), id, name) == StoredFor(b, id, name)
    {
      MoreNamesKeepData(b, t', id, name);
    }
  }

  /** Sign-out takes all data of the identity away, and no other's. */
  lemma SignedOutData(b: Both, id: nat, y: nat, name: string)
    ensures DataFor(b.(secrets := b.secrets.(store := RemoveIdentityRows(b.secrets.store, id))), y, name) ==
            if y == id then None else DataFor(b, y, name)
  {
    RemovedIdentity(b.secrets.store, id);
  }

  /** Sign-out deletes the stored data but not the caches. */
  lemma SignOutIsCoherentIff(id: nat, caches: map<string, Data>, b: Both)
    requires id > 0
    ensures Coherent(id, caches, b.(secrets := b.secrets.(store := RemoveIdentityRows(b.secrets.store, id)))) <==>
            AllEmpty(caches)
  {
    RemovedIdentity(b.secrets.store, id);
    var b' := b.(secrets := b.secrets.(store := RemoveIdentityRows(b.secrets.store, id)));
    assert forall name :: StoredFor(b', id, name) == map[];
  }

  /** An identity's secrets are removed, and its metadata or not; the caches of its client stay. */
  lemma ErasureIsCoherentIff(id: nat, caches: map<string, Data>, b: Both, t': Tables, erased: nat)
    requires Safe(b) && id > 0 && Coherent(id, caches, b)
    requires WfNames(t'.methods) && KeepsNames(b.meta.methods, t'.methods)
    ensures Coherent(id, caches, Both(t', WithoutIdentity(b.secrets, erased))) <==> erased != id || AllEmpty(caches)
  {
    var half := Both(b.meta, WithoutIdentity(b.secrets, erased));
    HalfRemovalIsSafe(b, erased);
    RemovedIdentity(b.secrets.store, erased);
    forall name
      ensures StoredFor(Both(t', WithoutIdentity(b.secrets, erased)), id, name) ==
              if erased == id then map[] else StoredFor(b, id, name)
    {
      MoreNamesKeepData(half, t', id, name);
      assert DataFor(half, id, name) == if erased == id then None else DataFor(b, id, name);
    }
  }

  lemma ClearingIsCoherentIff(id: nat, caches: map<string, Data>, t': Tables)
    requires id > 0
    ensures Coherent(id, caches, Both(t', NO_SECRETS)) <==> AllEmpty(caches)
  {
    forall name ensures StoredFor(Both(t', NO_SECRETS), id, name) == map[] {
      if name in t'.methods.ids { assert KeysOf(NO_SECRETS.store, id, t'.methods.ids[name]) == {}; }
    }
  }

  // ------------------------------------------------------- the first save

  /** Nothing is stored for an identity that was just inserted. */
  lemma NothingStoredYet(b: Both, t': Tables, id: nat)
    requires Safe(b) && id == b.meta.nextIdentity && WfNames(t'.methods) && KeepsNames(b.meta.methods, t'.methods)
    ensures forall name :: StoredFor(Both(t', b.secrets), id, name) == map[]
  {
    FreshIdentityHasNoSecrets(b);
    forall name ensures StoredFor(Both(t', b.secrets), id, name) == map[] {
      MoreNamesKeepData(b, t', id, name);
    }
  }

  /** One write of the flush, and what became of it. */
  datatype Attempt = Attempt(name: string, outcome: Outcome)

  /** The attempts are on these names, one each. */
  ghost predicate Covers(attempts: seq<Attempt>, keys: set<string>) {
    && (forall i, j :: 0 <= i < j < |attempts| ==> attempts[i].name != attempts[j].name)
    && keys == set a | a in attempts :: a.name
  }

  /** The writes of the flush, one cached token after the other. */
  function Flushed(b: Both, del: Deletion, id: nat, caches: map<string, Data>, attempts: seq<Attempt>): Both {
    if attempts == [] then b
    else
      var before, last := Flushed(b, del, id, caches, attempts[..|attempts| - 1]), attempts[|attempts| - 1];
      if last.name in caches then AfterWrite(before, del, id, last.name, caches[last.name], last.outcome) else before
  }

  /** Was the name written, and not undone by a later DELETE by the identity's own number? */
  predicate Survives(attempts: seq<Attempt>, del: Deletion, id: nat, name: string) {
    attempts != [] &&
    var init, last := attempts[..|attempts| - 1], attempts[|attempts| - 1];
    if last.outcome != Written then Survives(init, del, id, name)
    else last.name == name || (del != AsWritten(id) && Survives(init, del, id, name))
  }

  lemma {:induction false} SurvivesIff(attempts: seq<Attempt>, del: Deletion, id: nat, name: string)
    ensures Survives(attempts, del, id, name) <==>
            exists i :: 0 <= i < |attempts| && attempts[i] == Attempt(name, Written) &&
                        (del == AsWritten(id) ==> forall j :: i < j < |attempts| ==> attempts[j].outcome != Written)
  {
    if attempts == [] {
    } else {
      var init, last := attempts[..|attempts| - 1], attempts[|attempts| - 1];
      SurvivesIff(init, del, id, name);
      if Survives(attempts, del, id, name) && !(last == Attempt(name, Written)) {
        var i :| 0 <= i < |init| && init[i] == Attempt(name, Written) &&
                 (del == AsWritten(id) ==> forall j :: i < j < |init| ==> init[j].outcome != Written);
        assert attempts[i] == Attempt(name, Written);
      }
      if i :| 0 <= i < |attempts| && attempts[i] == Attempt(name, Written) &&
              (del == AsWritten(id) ==> forall j :: i < j < |attempts| ==> attempts[j].outcome != Written) {
        if i < |init| { assert init[i] == Attempt(name, Written); }
      }
    }
  }

  function FlushedFor(caches: map<string, Data>, del: Deletion, id: nat, attempts: seq<Attempt>, name: string): Data {
    if name in caches && Survives(attempts, del, id, name) then caches[name] else map[]
  }

  lemma {:induction false} FlushIsSafe(b: Both, del: Deletion, id: nat, caches: map<string, Data>,
                                       attempts: seq<Attempt>)
    requires Safe(b) && 0 < id < b.meta.nextIdentity
    ensures Safe(Flushed(b, del, id, caches, attempts))
    ensures Flushed(b, del, id, caches, attempts).meta.nextIdentity == b.meta.nextIdentity
  {
    if attempts == [] {
    } else {
      var init, last := attempts[..|attempts| - 1], attempts[|attempts| - 1];
      FlushIsSafe(b, del, id, caches, init);
      if last.name in caches {
        AfterWriteIsSafe(Flushed(b, del, id, caches, init), del, id, last.name, caches[last.name], last.outcome);
      }
    }
  }

  lemma FlushedOneMore(b: Both, del: Deletion, id: nat, caches: map<string, Data>, init: seq<Attempt>, last: Attempt)
    requires last.name in caches
    ensures Flushed(b, del, id, caches, init + [last]) ==
            AfterWrite(Flushed(b, del, id, caches, init), del, id, last.name, caches[last.name], last.outcome)
  {
    assert (init + [last])[..|init|] == init;
  }

  /** One write of the flush, seen from each name. */
  lemma FlushOne(b: Both, del: Deletion, id: nat, caches: map<string, Data>, init: seq<Attempt>, last: Attempt,
                 name: string)
    requires Safe(b) && 0 < id < b.meta.nextIdentity && last.name in caches && AllTyped(caches[last.name])
    ensures var before, after := Flushed(b, del, id, caches, init), Flushed(b, del, id, caches, init + [last]);
            if last.outcome != Written then StoredFor(after, id, name) == StoredFor(before, id, name)
            else if name != last.name then
              StoredFor(after, id, name) == if del == AsWritten(id) then map[] else StoredFor(before, id, name)
            else StoredFor(before, id, name) == map[] ==> StoredFor(after, id, name) == caches[name]
  {
    var before := Flushed(b, del, id, caches, init);
    FlushIsSafe(b, del, id, caches, init);
    FlushedOneMore(b, del, id, caches, init, last);
    if last.outcome != Written {
      FailedWriteStoresNothing(before, del, id, last.name, caches[last.name], last.outcome, id, name);
    } else if name == last.name {
      StoredReadBackIff(before, del, id, name, caches[name]);
    } else {
      OtherStored(before, del, id, last.name, caches[last.name], id, name);
    }
  }

  lemma {:induction false} FlushStores(b: Both, del: Deletion, id: nat, caches: map<string, Data>,
                                       attempts: seq<Attempt>, name: string)
    requires Safe(b) && 0 < id < b.meta.nextIdentity && StoredFor(b, id, name) == map[]
    requires forall i, j :: 0 <= i < j < |attempts| ==> attempts[i].name != attempts[j].name
    requires forall i :: 0 <= i < |attempts| ==> attempts[i].name in caches
    requires forall n :: n in caches ==> AllTyped(caches[n])
    ensures StoredFor(Flushed(b, del, id, caches, attempts), id, name) == FlushedFor(caches, del, id, attempts, name)
  {
    if attempts == [] {
    } else {
      var init, last := attempts[..|attempts| - 1], attempts[|attempts| - 1];
      FlushStores(b, del, id, caches, init, name);
      FlushOne(b, del, id, caches, init, last, name);
      FlushedForStep(caches, del, id, attempts, name);
    }
  }

  lemma FlushedForStep(caches: map<string, Data>, del: Deletion, id: nat, attempts: seq<Attempt>, name: string)
    requires attempts != [] && attempts[|attempts| - 1].name in caches
    requires forall i, j :: 0 <= i < j < |attempts| ==> attempts[i].name != attempts[j].name
    ensures var init, last := attempts[..|attempts| - 1], attempts[|attempts| - 1];
            && init + [last] == attempts
            && FlushedFor(caches, del, id, attempts, name) ==
                 (if last.outcome != Written then FlushedFor(caches, del, id, init, name)
                  else if name == last.name then caches[name]
                  else if del == AsWritten(id) then map[] else FlushedFor(caches, del, id, init, name))
            && FlushedFor(caches, del, id, init, last.name) == map[]
  {
    NotAttempted(attempts[..|attempts| - 1], del, id, attempts[|attempts| - 1].name);
  }

  lemma {:induction false} NotAttempted(attempts: seq<Attempt>, del: Deletion, id: nat, name: string)
    requires forall i :: 0 <= i < |attempts| ==> attempts[i].name != name
    ensures !Survives(attempts, del, id, name)
  {
    if attempts == [] {
    } else {
      NotAttempted(attempts[..|attempts| - 1], del, id, name);
    }
  }

  /** When the flush keeps every cache: each that is not empty was written, and its write stayed. */
  ghost predicate FlushKeeps(caches: map<string, Data>, del: Deletion, id: nat, attempts: seq<Attempt>) {
    forall name :: name in caches ==> caches[name] == map[] || Survives(attempts, del, id, name)
  }

  ghost predicate TypedCaches(caches: map<string, Data>) { forall n :: n in caches ==> AllTyped(caches[n]) }

  /**
   After the flush of a new identity every cache is what is stored, exactly if
   every write of a cache that is not empty succeeded, and none was undone by a
   later DELETE by the identity's own number.
   */
  lemma FlushIsCoherentIff(b: Both, del: Deletion, id: nat, caches: map<string, Data>, attempts: seq<Attempt>)
    requires Safe(b) && 0 < id < b.meta.nextIdentity && forall name :: StoredFor(b, id, name) == map[]
    requires Covers(attempts, caches.Keys) && TypedCaches(caches)
    ensures Coherent(id, caches, Flushed(b, del, id, caches, attempts)) <==> FlushKeeps(caches, del, id, attempts)
  {
    forall i | 0 <= i < |attempts| ensures attempts[i].name in caches { assert attempts[i] in attempts; }
    var after := Flushed(b, del, id, caches, attempts);
    forall name ensures StoredFor(after, id, name) == FlushedFor(caches, del, id, attempts, name) {
      FlushStores(b, del, id, caches, attempts, name);
    }
  }

  /** With every write successful, and not by the identity's own number, the flush keeps all caches. */
  lemma FullFlushKeeps(caches: map<string, Data>, del: Deletion, id: nat, attempts: seq<Attempt>)
    requires Covers(attempts, caches.Keys) && del != AsWritten(id)
    requires forall i :: 0 <= i < |attempts| ==> attempts[i].outcome == Written
    ensures FlushKeeps(caches, del, id, attempts)
  {
    forall name | name in caches ensures Survives(attempts, del, id, name) {
      var a :| a in attempts && a.name == name;
      SurvivesIff(attempts, del, id, name);
    }
  }

  // ------------------------------------------------------ runs of an identity

  datatype TokenEvent =
    // a session is asked for
    | Opened(name: string)
    // a plugin stores data through a session
    | Signalled(name: string, data: Data, del: Deletion, outcome: Outcome)
    // a session dies
    | Closed(name: string)
    // the data of another identity is stored
    | Foreign(other: nat, name: string, data: Data, del: Deletion, outcome: Outcome)
    // some identity is stored
    | Resaved(meta: Tables, creds: map<nat, Credentials>)
    // this one is stored for the first time, and its tokens
    | FirstSaved(meta: Tables, creds: map<nat, Credentials>, attempts: seq<Attempt>, del: Deletion)
    | SignedOut
    // some identity is removed, wholly or its secrets alone
    | Erased(id: nat, meta: Tables)
    // the secrets are cleared, and the metadata or not
    | Cleared(meta: Tables)

  /** An identity, 0 while it is new, with what its sessions cache and the two databases. */
  datatype TokenState = TokenState(id: nat, caches: map<string, Data>, both: Both)

  /** Tables that may come after those of b, with these secrets. */
  ghost predicate Follows(b: Both, t': Tables, secrets: Secrets) {
    && Safe(Both(t', secrets)) && b.meta.nextIdentity <= t'.nextIdentity
    && (secrets != NO_SECRETS ==> KeepsNames(b.meta.methods, t'.methods))
  }

  /** The events that can happen. */
  ghost predicate TokenEnabled(s: TokenState, e: TokenEvent) {
    match e
    case Opened(_) => true
    case Signalled(name, data, _, _) => name in s.caches && AllTyped(data)
    case Closed(_) => true
    case Foreign(other, _, _, _, _) => 0 < other < s.both.meta.nextIdentity && other != s.id
    case Resaved(t', creds) =>
      Follows(s.both, t', s.both.secrets.(creds := creds)) && KeepsNames(s.both.meta.methods, t'.methods)
    case FirstSaved(t', creds, attempts, _) =>
      && s.id == NEW_IDENTITY && Follows(s.both, t', s.both.secrets.(creds := creds))
      && KeepsNames(s.both.meta.methods, t'.methods) && s.both.meta.nextIdentity < t'.nextIdentity
      && Covers(attempts, s.caches.Keys) && TypedCaches(s.caches)
    case SignedOut => true
    case Erased(id, t') =>
      && 0 < id && Follows(s.both, t', WithoutIdentity(s.both.secrets, id))
      && KeepsNames(s.both.meta.methods, t'.methods)
    case Cleared(t') => Follows(s.both, t', NO_SECRETS)
  }

  function TokenStep(s: TokenState, e: TokenEvent): TokenState {
    match e
    case Opened(name) =>
      if name in s.caches then s
      else s.(caches := s.caches[name := if s.id == NEW_IDENTITY then map[] else StoredFor(s.both, s.id, name)])
    case Signalled(name, data, del, o) =>
      var cached := s.(caches := s.caches[name := data]);
      if s.id == NEW_IDENTITY then cached else cached.(both := AfterWrite(s.both, del, s.id, name, data, o))
    case Closed(name) => s.(caches := s.caches - {name})
    case Foreign(other, name, data, del, o) => s.(both := AfterWrite(s.both, del, other, name, data, o))
    case Resaved(t', creds) => s.(both := Both(t', s.both.secrets.(creds := creds)))
    case FirstSaved(t', creds, attempts, del) =>
      var id := s.both.meta.nextIdentity;
      TokenState(id, s.caches, Flushed(Both(t', s.both.secrets.(creds := creds)), del, id, s.caches, attempts))
    case SignedOut =>
      if s.id == NEW_IDENTITY then s
      else s.(both := s.both.(secrets := s.both.secrets.(store := RemoveIdentityRows(s.both.secrets.store, s.id))))
    case Erased(id, t') => s.(both := Both(t', WithoutIdentity(s.both.secrets, id)))
    case Cleared(t') => s.(both := Both(t', NO_SECRETS))
  }

  /** Does the event leave coherent caches coherent? */
  ghost predicate Preserves(s: TokenState, e: TokenEvent) {
    match e
    case Signalled(name, data, del, o) =>
      s.id == NEW_IDENTITY || SignalKeeps(s.caches, s.both, del, s.id, name, data, o)
    case Foreign(_, _, _, del, o) =>
      s.id == NEW_IDENTITY || o != Written || del != AsWritten(s.id) || AllEmpty(s.caches)
    case FirstSaved(_, _, attempts, del) => FlushKeeps(s.caches, del, s.both.meta.nextIdentity, attempts)
    case SignedOut => s.id == NEW_IDENTITY || AllEmpty(s.caches)
    case Erased(id, _) => id != s.id || AllEmpty(s.caches)
    case Cleared(_) => s.id == NEW_IDENTITY || AllEmpty(s.caches)
    case _ => true
  }

  ghost predicate Sane(s: TokenState) { Safe(s.both) && s.id < s.both.meta.nextIdentity }

  ghost predicate StateIsCoherent(s: TokenState) { Coherent(s.id, s.caches, s.both) }

  lemma FirstSaveIsCoherentIff(s: TokenState, e: TokenEvent)
    requires Sane(s) && TokenEnabled(s, e) && e.FirstSaved?
    ensures Sane(TokenStep(s, e)) && (StateIsCoherent(TokenStep(s, e)) <==> Preserves(s, e))
  {
    var id, mid := s.both.meta.nextIdentity, Both(e.meta, s.both.secrets.(creds := e.creds));
    NothingStoredYet(s.both, e.meta, id);
    forall name ensures StoredFor(mid, id, name) == map[] {
      assert StoredFor(mid, id, name) == StoredFor(Both(e.meta, s.both.secrets), id, name);
    }
    FlushIsSafe(mid, e.del, id, s.caches, e.attempts);
    FlushIsCoherentIff(mid, e.del, id, s.caches, e.attempts);
  }

  /** One event: exactly when it keeps the caches coherent. */
  lemma StepIsCoherentIff(s: TokenState, e: TokenEvent)
    requires Sane(s) && StateIsCoherent(s) && TokenEnabled(s, e)
    ensures Sane(TokenStep(s, e)) && (StateIsCoherent(TokenStep(s, e)) <==> Preserves(s, e))
  {
    match e
    case Opened(name) =>
    case Signalled(name, data, del, o) =>
      if s.id != NEW_IDENTITY {
        AfterWriteIsSafe(s.both, del, s.id, name, data, o);
        SignalIsCoherentIff(s.id, s.caches, s.both, del, name, data, o);
      }
    case Closed(name) =>
    case Foreign(other, name, data, del, o) =>
      AfterWriteIsSafe(s.both, del, other, name, data, o);
      if s.id != NEW_IDENTITY { ForeignWriteIsCoherentIff(s.id, s.caches, s.both, del, other, name, data, o); }
    case Resaved(t', creds) => StoreKeepsCoherence(s.id, s.caches, s.both, t', creds);
    case FirstSaved(_, _, _, _) => FirstSaveIsCoherentIff(s, e);
    case SignedOut =>
      if s.id != NEW_IDENTITY { SignOutIsCoherentIff(s.id, s.caches, s.both); }
    case Erased(id, t') =>
      if s.id != NEW_IDENTITY { ErasureIsCoherentIff(s.id, s.caches, s.both, t', id); }
    case Cleared(t') =>
      if s.id != NEW_IDENTITY { ClearingIsCoherentIff(s.id, s.caches, t'); }
  }

  /** Every state of the run, as far as its events can happen, has coherent caches. */
  ghost predicate CoherentThroughout(s: TokenState, events: seq<TokenEvent>)
    decreases |events|
  {
    StateIsCoherent(s) &&
    (events != [] && TokenEnabled(s, events[0]) ==> CoherentThroughout(TokenStep(s, events[0]), events[1..]))
  }

  /** Every event of the run is one that preserves coherence where it happens. */
  ghost predicate AllPreserve(s: TokenState, events: seq<TokenEvent>)
    decreases |events|
  {
    events != [] && TokenEnabled(s, events[0]) ==>
      Preserves(s, events[0]) && AllPreserve(TokenStep(s, events[0]), events[1..])
  }

  /**
   Over any run, from a coherent state (a new identity without sessions is one),
   every cache is always what is stored exactly when each event preserves that.
   */
  lemma {:induction false} CachesStayCoherent(s: TokenState, events: seq<TokenEvent>)
    requires Sane(s) && StateIsCoherent(s)
    ensures CoherentThroughout(s, events) <==> AllPreserve(s, events)
    decreases |events|
  {
    if events == [] || !TokenEnabled(s, events[0]) {
    } else {
      StepIsCoherentIff(s, events[0]);
      if Preserves(s, events[0]) { CachesStayCoherent(TokenStep(s, events[0]), events[1..]); }
    }
  }

  /** An event whose writes succeed, by the DELETE that was meant, and that removes nothing. */
  predicate KeepsData(e: TokenEvent) {
    match e
    case Signalled(_, _, del, o) => del == AsMeant && o == Written
    case Foreign(_, _, _, del, _) => del == AsMeant
    case FirstSaved(_, _, attempts, del) =>
      del == AsMeant && forall i :: 0 <= i < |attempts| ==> attempts[i].outcome == Written
    case SignedOut => false
    case Erased(_, _) => false
    case Cleared(_) => false
    case _ => true
  }

  lemma {:induction false} KeptDataPreserves(s: TokenState, events: seq<TokenEvent>)
    requires forall i :: 0 <= i < |events| ==> KeepsData(events[i])
    ensures AllPreserve(s, events)
    decreases |events|
  {
    if events == [] || !TokenEnabled(s, events[0]) {
    } else {
      var e := events[0];
      if e.FirstSaved? { FullFlushKeeps(s.caches, e.del, s.both.meta.nextIdentity, e.attempts); }
      KeptDataPreserves(TokenStep(s, e), events[1..]);
    }
  }

  /** With the DELETE that was meant nothing but a failed write or a removal can break the caches. */
  lemma MeantDeleteKeepsCaches(s: TokenState, events: seq<TokenEvent>)
    requires Sane(s) && StateIsCoherent(s) && forall i :: 0 <= i < |events| ==> KeepsData(events[i])
    ensures CoherentThroughout(s, events)
  {
    CachesStayCoherent(s, events);
    KeptDataPreserves(s, events);
  }

  const TOKENS: Data := map["token" := Value("s", "y")]

  /** An identity saved without sessions. */
  const JUST_SAVED := TokenState(1, map[],
                                 Both(NO_TABLES.(identity := map[1 := IdentityRow("", "", false, false, false, 0)],
                                                 nextIdentity := 2), NO_SECRETS))

  lemma TokensAreTyped()
    ensures AllTyped(TOKENS) && TOKENS != map[]
  {
    assert Text(Basic('s')) == "s" && WellFormed(Basic('s'));
    assert "token" in TOKENS;
  }

  /** A session is opened and stores a token: coherent, until the client signs out. */
  lemma SignOutLeavesCache()
    ensures var s1 := TokenStep(JUST_SAVED, Opened("password"));
            var s2 := TokenStep(s1, Signalled("password", TOKENS, AsMeant, Written));
            StateIsCoherent(s1) && StateIsCoherent(s2) && !StateIsCoherent(TokenStep(s2, SignedOut))
  {
    TokensAreTyped();
    assert Sane(JUST_SAVED) && StateIsCoherent(JUST_SAVED);
    var s1 := TokenStep(JUST_SAVED, Opened("password"));
    StepIsCoherentIff(JUST_SAVED, Opened("password"));
    var s2 := TokenStep(s1, Signalled("password", TOKENS, AsMeant, Written));
    StepIsCoherentIff(s1, Signalled("password", TOKENS, AsMeant, Written));
    assert "password" in s2.caches && s2.caches["password"] == TOKENS;
    StepIsCoherentIff(s2, SignedOut);
  }
}
