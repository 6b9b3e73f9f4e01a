/**
 What the setters of src/common/gsignond-identity-info.c do to what the getters
 show of a record, and which edit flags they leave.
 */
module RecordFields {
  import opened Ordering
  import opened IdentityRecord
  import opened IdentityCompare

  /** What the getters show of a record. */
  datatype Fields = Fields(
    id: nat, username: Option<string>, secret: Option<string>, caption: Option<string>,
    usernameIsSecret: bool, storeSecret: bool, validated: bool, kind: nat,
    realms: seq<string>, acl: seq<Ctx>, owner: Option<Ctx>, methods: Option<MethodMap>)

  function FieldsOf(r: Record): Fields {
    Fields(GetId(r), r.username, r.secret, GetCaption(r), GetUsernameIsSecret(r), GetStoreSecret(r),
           GetValidated(r), GetType(r), RealmItems(r), GetAcl(r), GetOwner(r), RawMethods(r))
  }

  /** Putting one entry leaves what is read under the other keys. */
  lemma PutReads(r: Record, k: Key, v: Variant, p: Prop)
    ensures var r' := Put(r, k, v, p);
            r'.username == r.username && r'.secret == r.secret && Entry(r', k) == Some(v) && SameElsewhere(r, r', k)
  {
    OtherScalars(r, Put(r, k, v, p), k);
    OtherLists(r, Put(r, k, v, p), k);
  }

  ghost predicate SameElsewhere(r: Record, r': Record, k: Key) {
    && (k != KId ==> GetId(r') == GetId(r)) && (k != KType ==> GetType(r') == GetType(r))
    && (k != KUserNameSecret ==> GetUsernameIsSecret(r') == GetUsernameIsSecret(r))
    && (k != KStoreSecret ==> GetStoreSecret(r') == GetStoreSecret(r))
    && (k != KValidated ==> GetValidated(r') == GetValidated(r))
    && (k != KCaption ==> GetCaption(r') == GetCaption(r))
    && (k != KRealms ==> RealmItems(r') == RealmItems(r)) && (k != KAcl ==> GetAcl(r') == GetAcl(r))
    && (k != KOwner ==> GetOwner(r') == GetOwner(r)) && (k != KAuthMethods ==> RawMethods(r') == RawMethods(r))
  }

  lemma OtherScalars(r: Record, r': Record, k: Key)
    requires forall j :: j != k ==> Entry(r', j) == Entry(r, j)
    ensures k != KId ==> GetId(r') == GetId(r)
    ensures k != KType ==> GetType(r') == GetType(r)
    ensures k != KUserNameSecret ==> GetUsernameIsSecret(r') == GetUsernameIsSecret(r)
    ensures k != KStoreSecret ==> GetStoreSecret(r') == GetStoreSecret(r)
    ensures k != KValidated ==> GetValidated(r') == GetValidated(r)
  {
  }

  lemma OtherLists(r: Record, r': Record, k: Key)
    requires forall j :: j != k ==> Entry(r', j) == Entry(r, j)
    ensures k != KCaption ==> GetCaption(r') == GetCaption(r)
    ensures k != KRealms ==> RealmItems(r') == RealmItems(r)
    ensures k != KAcl ==> GetAcl(r') == GetAcl(r)
    ensures k != KOwner ==> GetOwner(r') == GetOwner(r)
    ensures k != KAuthMethods ==> RawMethods(r') == RawMethods(r)
  {
  }

  lemma SameDictionary(r: Record, r': Record)
    requires r'.dict == r.dict
    ensures FieldsOf(r') == FieldsOf(r).(username := r'.username, secret := r'.secret)
  {
  }

  lemma UsernameSet(r: Record, name: Option<string>)
    ensures FieldsOf(SetUsername(r, name)) == FieldsOf(r).(username := name)
  {
    SameDictionary(r, SetUsername(r, name));
  }

  lemma SecretSet(r: Record, secret: Option<string>)
    ensures FieldsOf(SetSecret(r, secret)) == FieldsOf(r).(secret := secret)
  {
    SameDictionary(r, SetSecret(r, secret));
  }

  lemma CaptionSet(r: Record, text: Option<string>)
    ensures FieldsOf(SetCaption(r, text)) == FieldsOf(r).(caption := text)
  {
    if text.Some? {
      PutReads(r, KCaption, VStr(text.value), Caption);
    } else {
      OtherScalars(r, SetCaption(r, None), KCaption);
      OtherLists(r, SetCaption(r, None), KCaption);
    }
  }

  lemma UsernameIsSecretSet(r: Record, b: bool)
    ensures FieldsOf(SetUsernameIsSecret(r, b)) == FieldsOf(r).(usernameIsSecret := b)
  {
    PutReads(r, KUserNameSecret, VBool(b), UsernameIsSecret);
  }

  lemma StoreSecretSet(r: Record, b: bool)
    ensures FieldsOf(SetStoreSecret(r, b)) == FieldsOf(r).(storeSecret := b)
  {
    PutReads(r, KStoreSecret, VBool(b), StoreSecret);
  }

  lemma ValidatedSet(r: Record, b: bool)
    ensures FieldsOf(SetValidated(r, b)) == FieldsOf(r).(validated := b)
  {
    PutReads(r, KValidated, VBool(b), Validated);
  }

  lemma TypeSet(r: Record, n: nat)
    ensures FieldsOf(SetType(r, n)) == FieldsOf(r).(kind := n)
  {
    PutReads(r, KType, VNat(n), Type);
  }

  lemma IdSet(r: Record, n: nat)
    ensures FieldsOf(SetId(r, n)) == FieldsOf(r).(id := n)
  {
    PutReads(r, KId, VNat(n), Id);
  }

  lemma RealmsSet(r: Record, items: seq<string>)
    ensures FieldsOf(SetRealms(r, items)) == FieldsOf(r).(realms := items)
  {
    PutReads(r, KRealms, VStrs(items), Realms);
  }

  lemma AclSet(r: Record, acl: seq<Ctx>)
    ensures FieldsOf(SetAcl(r, acl)) == FieldsOf(r).(acl := if acl == [] then GetAcl(r) else acl)
  {
    PutReads(r, KAcl, VCtxs(acl), Acl);
  }

  lemma OwnerSet(r: Record, owner: Ctx)
    ensures FieldsOf(SetOwner(r, owner)) == FieldsOf(r).(owner := Some(owner))
  {
    PutReads(r, KOwner, VCtx(owner), Owner);
  }

  lemma MethodsSet(r: Record, ms: MethodMap)
    ensures FieldsOf(SetMethods(r, ms)) == FieldsOf(r).(methods := Some(ms))
  {
    PutReads(r, KAuthMethods, VMethods(ms), Methods);
  }

  lemma MethodRemoved(r: Record, name: string)
    ensures FieldsOf(RemoveMethod(r, name)) ==
            FieldsOf(r).(methods := if RawMethods(r).Some? && name in RawMethods(r).value
                                    then Some(SortAll(RawMethods(r).value) - {name}) else RawMethods(r))
  {
    if RawMethods(r).Some? { MethodsSet(r, SortAll(RawMethods(r).value) - {name}); }
  }

  lemma OwnerRemoved(r: Record)
    ensures FieldsOf(RemoveOwner(r)) == FieldsOf(r).(owner := None) && RemoveOwner(r).edits == r.edits
  {
    OtherScalars(r, RemoveOwner(r), KOwner);
    OtherLists(r, RemoveOwner(r), KOwner);
  }

  /** Every setter sets its own field and no other; those of the flags set none. */
  lemma SettersSet(r: Record, op: Op)
    requires !op.OpCopy?
    ensures var now, was := FieldsOf(Apply(r, op)), FieldsOf(r);
            match op
            case OpId(id) => now == was.(id := id)
            case OpType(t) => now == was.(kind := t)
            case OpStoreSecret(b) => now == was.(storeSecret := b)
            case OpUsernameIsSecret(b) => now == was.(usernameIsSecret := b)
            case OpValidated(b) => now == was.(validated := b)
            case OpUsername(u) => now == was.(username := u)
            case OpSecret(u) => now == was.(secret := u)
            case OpCaption(u) => now == was.(caption := u)
            case OpRealms(items) => now == was.(realms := items)
            case OpMethods(m) => now == was.(methods := Some(m))
            case OpRemoveMethod(name) =>
              now == was.(methods := if was.methods.Some? && name in was.methods.value
                                     then Some(SortAll(was.methods.value) - {name}) else was.methods)
            case OpAcl(acl) => now == was.(acl := if acl == [] then was.acl else acl)
            case OpOwner(owner) => now == was.(owner := Some(owner))
            case OpCopy(_, _) => true
            case OpSetEdits(_) => now == was
            case OpReset(_) => now == was
  {
    match op
    case OpId(id) => IdSet(r, id);
    case OpType(t) => TypeSet(r, t);
    case OpStoreSecret(b) => StoreSecretSet(r, b);
    case OpUsernameIsSecret(b) => UsernameIsSecretSet(r, b);
    case OpValidated(b) => ValidatedSet(r, b);
    case OpUsername(u) => UsernameSet(r, u);
    case OpSecret(u) => SecretSet(r, u);
    case OpCaption(u) => CaptionSet(r, u);
    case OpRealms(items) => RealmsSet(r, items);
    case OpMethods(m) => MethodsSet(r, m);
    case OpRemoveMethod(name) => MethodRemoved(r, name);
    case OpAcl(acl) => AclSet(r, acl);
    case OpOwner(owner) => OwnerSet(r, owner);
    case OpSetEdits(flags) => SameDictionary(r, SetEdits(r, flags));
    case OpReset(flags) => SameDictionary(r, ResetEdits(r, flags));
  }

  /** A setter leaves the flag of the field that it changes, and no other; those of the flags do as told. */
  lemma SettersFlagChanges(r: Record, op: Op)
    requires !op.OpCopy?
    ensures Apply(r, op).edits ==
            match op
            case OpSetEdits(flags) => r.edits + flags
            case OpReset(flags) => flags
            case _ => r.edits + set p: Prop | Read(p, Apply(r, op)) != Read(p, r)
  {
    if !op.OpReset? {
      StepIsFlagged(r, op);
    }
  }
}
