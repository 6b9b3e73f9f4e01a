/**
 src/common/gsignond-identity-info.c: the identity record as a value, its
 getters, setters and edit flags.  Class IdentityInfo in IdentityInfo.dfy does
 the same in place, on a flag word and a dictionary.
 */
module IdentityRecord {
  import opened Ordering

  /** The dictionary keys: one per string constant, and every other string. */
  datatype Key =
    | KId | KUserName | KSecret | KStoreSecret | KCaption | KRealms | KAuthMethods | KOwner
    | KAcl | KType | KRefCount | KValidated | KUserNameSecret | KOther(name: string)

  type MethodMap = map<string, seq<string>>

  /** The dictionary values.  A getter that meets another type reads its default. */
  datatype Variant =
    | VNat(n: nat) | VBool(b: bool) | VStr(s: string) | VStrs(items: seq<string>)
    | VMethods(methods: MethodMap) | VCtx(ctx: Ctx) | VCtxs(list: seq<Ctx>)

  /** The fields an edit flag stands for. */
  datatype Prop =
    | Username | Secret | Id | Type | Caption | StoreSecret | UsernameIsSecret
    | Owner | Acl | Methods | Realms | RefCount | Validated

  datatype Record = Record(username: Option<string>, secret: Option<string>,
                           edits: set<Prop>, dict: map<Key, Variant>)

  const NEW_IDENTITY: nat := 0

  // --------------------------------------------------------------- getters

  function Entry(r: Record, k: Key): Option<Variant> {
    if k in r.dict then Some(r.dict[k]) else None
  }

  function NatAt(r: Record, k: Key): nat {
    match Entry(r, k) case Some(VNat(n)) => n case _ => 0
  }

  function BoolAt(r: Record, k: Key): bool {
    match Entry(r, k) case Some(VBool(b)) => b case _ => false
  }

  function GetId(r: Record): nat { NatAt(r, KId) }
  function GetType(r: Record): nat { NatAt(r, KType) }
  function GetStoreSecret(r: Record): bool { BoolAt(r, KStoreSecret) }
  function GetUsernameIsSecret(r: Record): bool { BoolAt(r, KUserNameSecret) }
  function GetValidated(r: Record): bool { BoolAt(r, KValidated) }
  predicate IsNew(r: Record) { GetId(r) == NEW_IDENTITY }

  function GetCaption(r: Record): Option<string> {
    match Entry(r, KCaption) case Some(VStr(s)) => Some(s) case _ => None
  }

  function GetRealms(r: Record): Option<seq<string>> {
    match Entry(r, KRealms) case Some(VStrs(items)) => Some(Sort(StrLeq, items)) case _ => None
  }

  function SortAll(m: MethodMap): MethodMap {
    map k | k in m :: Sort(StrLeq, m[k])
  }

  function GetMethods(r: Record): Option<MethodMap> {
    match Entry(r, KAuthMethods) case Some(VMethods(m)) => Some(SortAll(m)) case _ => None
  }

  function GetOwner(r: Record): Option<Ctx> {
    match Entry(r, KOwner) case Some(VCtx(c)) => Some(c) case _ => None
  }

  /** The access control list; a NULL list and an empty one are the same to GLib. */
  function GetAcl(r: Record): seq<Ctx> {
    match Entry(r, KAcl) case Some(VCtxs(list)) => list case _ => []
  }

  // --------------------------------------------------------------- setters

  function Put(r: Record, k: Key, v: Variant, p: Prop): Record {
    r.(dict := r.dict[k := v], edits := r.edits + {p})
  }

  function SetId(r: Record, id: nat): Record {
    if GetId(r) == id then r else Put(r, KId, VNat(id), Id)
  }

  function SetType(r: Record, t: nat): Record {
    if GetType(r) == t then r else Put(r, KType, VNat(t), Type)
  }

  function SetStoreSecret(r: Record, b: bool): Record {
    if GetStoreSecret(r) == b then r else Put(r, KStoreSecret, VBool(b), StoreSecret)
  }

  function SetUsernameIsSecret(r: Record, b: bool): Record {
    if GetUsernameIsSecret(r) == b then r else Put(r, KUserNameSecret, VBool(b), UsernameIsSecret)
  }

  function SetValidated(r: Record, b: bool): Record {
    if GetValidated(r) == b then r else Put(r, KValidated, VBool(b), Validated)
  }

  function SetUsername(r: Record, u: Option<string>): Record {
    if r.username == u then r else r.(username := u, edits := r.edits + {Username})
  }

  function SetSecret(r: Record, s: Option<string>): Record {
    if r.secret == s then r else r.(secret := s, edits := r.edits + {Secret})
  }

  function SetCaption(r: Record, c: Option<string>): Record {
    if GetCaption(r) == c then r
    else if c == None then r.(dict := r.dict - {KCaption}, edits := r.edits + {Caption})
    else Put(r, KCaption, VStr(c.value), Caption)
  }

  function SetRealms(r: Record, realms: seq<string>): Record {
    if Entry(r, KRealms) == Some(VStrs(realms)) then r else Put(r, KRealms, VStrs(realms), Realms)
  }

  function SetMethods(r: Record, m: MethodMap): Record {
    if Entry(r, KAuthMethods) == Some(VMethods(m)) then r
    else Put(r, KAuthMethods, VMethods(m), Methods)
  }

  function RemoveMethod(r: Record, name: string): Record {
    var m := GetMethods(r);
    if m.Some? && name in m.value then SetMethods(r, m.value - {name}) else r
  }

  /** An empty list never replaces a stored one. */
  function SetAcl(r: Record, acl: seq<Ctx>): Record {
    if acl == [] || Entry(r, KAcl) == Some(VCtxs(acl)) then r else Put(r, KAcl, VCtxs(acl), Acl)
  }

  function SetOwner(r: Record, owner: Ctx): Record {
    if GetOwner(r) == Some(owner) then r else Put(r, KOwner, VCtx(owner), Owner)
  }

  /** gsignond_identity_info_remove_owner: leaves the edit flags alone. */
  function RemoveOwner(r: Record): Record { r.(dict := r.dict - {KOwner}) }

  function SetEdits(r: Record, ps: set<Prop>): Record { r.(edits := r.edits + ps) }
  function ResetEdits(r: Record, ps: set<Prop>): Record { r.(edits := ps) }
  function UnsetEdits(r: Record, ps: set<Prop>): Record { r.(edits := r.edits - ps) }

  // -------------------------------------------------------- selective copy

  /** The eleven rows of the key table, in flag order. */
  function TableKey(i: nat): Key
    requires i < 11
  {
    [KId, KType, KCaption, KStoreSecret, KUserNameSecret, KOwner, KAcl, KAuthMethods,
     KRealms, KRefCount, KValidated][i]
  }

  /** The flag that names a dictionary key; the two secret fields are not in the dictionary. */
  function FlagOf(k: Key): Option<Prop> {
    match k
    case KId => Some(Id) case KType => Some(Type) case KCaption => Some(Caption)
    case KStoreSecret => Some(StoreSecret) case KUserNameSecret => Some(UsernameIsSecret)
    case KOwner => Some(Owner) case KAcl => Some(Acl) case KAuthMethods => Some(Methods)
    case KRealms => Some(Realms) case KRefCount => Some(RefCount) case KValidated => Some(Validated)
    case _ => None
  }

  /** The dictionary key of each field; those of the two secret fields occur in variants only. */
  function KeyOf(p: Prop): Key {
    match p
    case Username => KUserName case Secret => KSecret case Id => KId case Type => KType
    case Caption => KCaption case StoreSecret => KStoreSecret case UsernameIsSecret => KUserNameSecret
    case Owner => KOwner case Acl => KAcl case Methods => KAuthMethods case Realms => KRealms
    case RefCount => KRefCount case Validated => KValidated
  }

  predicate Selected(k: Key, src: Record, flags: set<Prop>) {
    k in src.dict && FlagOf(k).Some? && FlagOf(k).value in flags
  }

  /** The flags that selective_copy returns: those with something to copy. */
  function CopiedFlags(src: Record, flags: set<Prop>): set<Prop> {
    set p | p in flags && (p == Username || p == Secret || KeyOf(p) in src.dict)
  }

  function CopiedEntries(src: Record, flags: set<Prop>): map<Key, Variant> {
    map k | k in src.dict && Selected(k, src, flags) :: src.dict[k]
  }

  function SelectiveCopy(dest: Record, src: Record, flags: set<Prop>): Record {
    Record(if Username in flags then src.username else dest.username,
           if Secret in flags then src.secret else dest.secret,
           dest.edits + CopiedFlags(src, flags),
           dest.dict + CopiedEntries(src, flags))
  }

  // ----------------------------------------------------- creation, variants

  const EMPTY: Record := Record(None, None, {}, map[KId := VNat(NEW_IDENTITY)])

  function StringIn(d: map<Key, Variant>, k: Key): Option<string> {
    if k in d && d[k].VStr? then Some(d[k].s) else None
  }

  /** gsignond_identity_info_new_from_variant on a non-NULL dictionary */
  function FromVariant(d: map<Key, Variant>): Record {
    Record(StringIn(d, KUserName), StringIn(d, KSecret),
           (set p: Prop | KeyOf(p) in d),
           d - {KUserName, KSecret})
  }

  /** gsignond_identity_info_to_variant */
  function ToVariant(r: Record): map<Key, Variant> {
    if GetUsernameIsSecret(r) then r.dict
    else r.dict[KUserName := VStr(if r.username.Some? then r.username.value else "")]
  }

  // -------------------------------------------------------------- readings

  datatype Reading = RStr(s: Option<string>) | RNat(n: nat) | RBool(b: bool) | RVar(v: Option<Variant>)

  /** What a getter shows of a field. */
  function Read(p: Prop, r: Record): Reading {
    match p
    case Username => RStr(r.username)
    case Secret => RStr(r.secret)
    case Id => RNat(GetId(r))
    case Type => RNat(GetType(r))
    case Caption => RStr(GetCaption(r))
    case StoreSecret => RBool(GetStoreSecret(r))
    case UsernameIsSecret => RBool(GetUsernameIsSecret(r))
    case Owner => RVar(Entry(r, KOwner))
    case Acl => RVar(Entry(r, KAcl))
    case Methods => RVar(Entry(r, KAuthMethods))
    case Realms => RVar(Entry(r, KRealms))
    case RefCount => RVar(Entry(r, KRefCount))
    case Validated => RBool(GetValidated(r))
  }

  // -------------------------------------------------------- runs of edits

  datatype Op =
    | OpId(id: nat) | OpType(t: nat) | OpStoreSecret(b: bool) | OpUsernameIsSecret(b: bool)
    | OpValidated(b: bool) | OpUsername(u: Option<string>) | OpSecret(u: Option<string>)
    | OpCaption(u: Option<string>) | OpRealms(items: seq<string>) | OpMethods(m: MethodMap)
    | OpRemoveMethod(name: string) | OpAcl(acl: seq<Ctx>) | OpOwner(owner: Ctx)
    | OpCopy(src: Record, flags: set<Prop>) | OpSetEdits(flags: set<Prop>) | OpReset(flags: set<Prop>)

  function Apply(r: Record, op: Op): Record {
    match op
    case OpId(id) => SetId(r, id)
    case OpType(t) => SetType(r, t)
    case OpStoreSecret(b) => SetStoreSecret(r, b)
    case OpUsernameIsSecret(b) => SetUsernameIsSecret(r, b)
    case OpValidated(b) => SetValidated(r, b)
    case OpUsername(u) => SetUsername(r, u)
    case OpSecret(u) => SetSecret(r, u)
    case OpCaption(u) => SetCaption(r, u)
    case OpRealms(items) => SetRealms(r, items)
    case OpMethods(m) => SetMethods(r, m)
    case OpRemoveMethod(name) => RemoveMethod(r, name)
    case OpAcl(acl) => SetAcl(r, acl)
    case OpOwner(owner) => SetOwner(r, owner)
    case OpCopy(src, flags) => SelectiveCopy(r, src, flags)
    case OpSetEdits(flags) => SetEdits(r, flags)
    case OpReset(flags) => ResetEdits(r, flags)
  }

  function Run(r: Record, ops: seq<Op>): Record {
    if ops == [] then r else Apply(Run(r, ops[..|ops| - 1]), ops[|ops| - 1])
  }

  /** The record as it was when the edit flags were last reset in the run. */
  function LastReset(r: Record, ops: seq<Op>): Record {
    if ops == [] then r
    else if ops[|ops| - 1].OpReset? then Run(r, ops[..|ops| - 1])
    else LastReset(r, ops[..|ops| - 1])
  }

  lemma {:induction false} NoReset(base: Record, ops: seq<Op>)
    requires forall i :: 0 <= i < |ops| ==> !ops[i].OpReset?
    ensures LastReset(base, ops) == base
  {
    if ops == [] {
    } else {
      NoReset(base, ops[..|ops| - 1]);
    }
  }

  lemma {:induction false} LastResetCounts(r: Record, a: seq<Op>, flags: set<Prop>, b: seq<Op>)
    requires forall i :: 0 <= i < |b| ==> !b[i].OpReset?
    ensures LastReset(r, a + [OpReset(flags)] + b) == Run(r, a)
  {
    var ops := a + [OpReset(flags)] + b;
    if b == [] {
      assert ops[..|ops| - 1] == a;
    } else {
      LastResetCounts(r, a, flags, b[..|b| - 1]);
      assert ops[..|ops| - 1] == a + [OpReset(flags)] + b[..|b| - 1];
    }
  }

  /** Every field whose edit flag is clear reads as it did in the baseline. */
  ghost predicate Clean(now: Record, base: Record) {
    forall p: Prop :: p !in now.edits ==> Read(p, now) == Read(p, base)
  }

  /** A change that leaves a flag on everything it alters. */
  ghost predicate Flagged(r: Record, r': Record) {
    && r.edits <= r'.edits
    && forall p: Prop :: p !in r'.edits ==> Read(p, r') == Read(p, r)
  }

  /** A field in the dictionary is read through the one key its flag names. */
  lemma ReadsOwnKey(p: Prop, r: Record, r': Record)
    requires p == Username ==> r'.username == r.username
    requires p == Secret ==> r'.secret == r.secret
    requires forall k :: FlagOf(k) == Some(p) ==> Entry(r', k) == Entry(r, k)
    ensures Read(p, r') == Read(p, r)
  {
    match p
    case Username => case Secret =>
    case Id => assert FlagOf(KId) == Some(p);
    case Type => assert FlagOf(KType) == Some(p);
    case Caption => assert FlagOf(KCaption) == Some(p);
    case StoreSecret => assert FlagOf(KStoreSecret) == Some(p);
    case UsernameIsSecret => assert FlagOf(KUserNameSecret) == Some(p);
    case Owner => assert FlagOf(KOwner) == Some(p);
    case Acl => assert FlagOf(KAcl) == Some(p);
    case Methods => assert FlagOf(KAuthMethods) == Some(p);
    case Realms => assert FlagOf(KRealms) == Some(p);
    case RefCount => assert FlagOf(KRefCount) == Some(p);
    case Validated => assert FlagOf(KValidated) == Some(p);
  }

  lemma PutIsFlagged(r: Record, k: Key, v: Variant, p: Prop)
    requires FlagOf(k) == Some(p)
    ensures Flagged(r, Put(r, k, v, p))
  {
    forall q: Prop | q !in Put(r, k, v, p).edits ensures Read(q, Put(r, k, v, p)) == Read(q, r) {
      ReadsOwnKey(q, r, Put(r, k, v, p));
    }
  }

  lemma SetCaptionIsFlagged(r: Record, c: Option<string>)
    ensures Flagged(r, SetCaption(r, c))
  {
    if c.Some? {
      PutIsFlagged(r, KCaption, VStr(c.value), Caption);
    } else {
      forall q: Prop | q !in SetCaption(r, c).edits ensures Read(q, SetCaption(r, c)) == Read(q, r) {
        ReadsOwnKey(q, r, SetCaption(r, c));
      }
    }
  }

  lemma SelectiveCopyIsFlagged(r: Record, src: Record, flags: set<Prop>)
    ensures Flagged(r, SelectiveCopy(r, src, flags))
  {
    var r' := SelectiveCopy(r, src, flags);
    forall p: Prop | p !in r'.edits ensures Read(p, r') == Read(p, r) {
      assert p !in CopiedFlags(src, flags);
      forall k | FlagOf(k) == Some(p) ensures Entry(r', k) == Entry(r, k) {
        assert KeyOf(p) == k && !Selected(k, src, flags);
      }
      ReadsOwnKey(p, r, r');
    }
  }

  lemma StepIsFlagged(r: Record, op: Op)
    requires !op.OpReset?
    ensures Flagged(r, Apply(r, op))
  {
    match op
    case OpId(id) => PutIsFlagged(r, KId, VNat(id), Id);
    case OpType(t) => PutIsFlagged(r, KType, VNat(t), Type);
    case OpStoreSecret(b) => PutIsFlagged(r, KStoreSecret, VBool(b), StoreSecret);
    case OpUsernameIsSecret(b) => PutIsFlagged(r, KUserNameSecret, VBool(b), UsernameIsSecret);
    case OpValidated(b) => PutIsFlagged(r, KValidated, VBool(b), Validated);
    case OpUsername(u) =>
      forall p: Prop | p != Username { ReadsOwnKey(p, r, SetUsername(r, u)); }
    case OpSecret(u) =>
      forall p: Prop | p != Secret { ReadsOwnKey(p, r, SetSecret(r, u)); }
    case OpCaption(u) => SetCaptionIsFlagged(r, u);
    case OpRealms(items) => PutIsFlagged(r, KRealms, VStrs(items), Realms);
    case OpMethods(m) => PutIsFlagged(r, KAuthMethods, VMethods(m), Methods);
    case OpRemoveMethod(name) =>
      if GetMethods(r).Some? {
        PutIsFlagged(r, KAuthMethods, VMethods(GetMethods(r).value - {name}), Methods);
      }
    case OpAcl(acl) => PutIsFlagged(r, KAcl, VCtxs(acl), Acl);
    case OpOwner(owner) => PutIsFlagged(r, KOwner, VCtx(owner), Owner);
    case OpCopy(src, flags) => SelectiveCopyIsFlagged(r, src, flags);
    case OpSetEdits(flags) =>
      forall p: Prop { ReadsOwnKey(p, r, SetEdits(r, flags)); }
    case OpReset(_) =>
  }

  /**
   Dirty-bit soundness: over any run of setters, copies and resets, a field
   whose edit flag is clear reads the same as at the last reset.
   */
  lemma {:induction false} ClearFlagMeansUnchanged(r: Record, ops: seq<Op>)
    ensures Clean(Run(r, ops), LastReset(r, ops))
  {
    if ops == [] {
    } else {
      var before := ops[..|ops| - 1];
      ClearFlagMeansUnchanged(r, before);
      if !ops[|ops| - 1].OpReset? {
        StepIsFlagged(Run(r, before), ops[|ops| - 1]);
      }
    }
  }

  /** remove_owner is outside that law exactly when it removes an owner not flagged as edited. */
  lemma RemoveOwnerKeepsCleanIff(now: Record, base: Record)
    requires Clean(now, base)
    ensures Clean(RemoveOwner(now), base) <==>
            (Owner in now.edits || KOwner !in now.dict)
  {
    var r := RemoveOwner(now);
    assert Read(Owner, r) == RVar(None);
    forall p: Prop | p != Owner ensures Read(p, r) == Read(p, now) {}
    if KOwner in now.dict && Owner !in now.edits {
      assert Read(Owner, now) == Read(Owner, base) != RVar(None);
    } else {
      forall p: Prop | p !in r.edits ensures Read(p, r) == Read(p, base) {
        if p == Owner { assert Read(Owner, r) == Read(Owner, now); }
      }
    }
  }

  /** unset_edit_flags is outside it exactly when it clears the flag of a changed field. */
  lemma UnsetKeepsCleanIff(now: Record, base: Record, ps: set<Prop>)
    requires Clean(now, base)
    ensures Clean(UnsetEdits(now, ps), base) <==>
            forall p :: p in ps && p in now.edits ==> Read(p, now) == Read(p, base)
  {
    var r := UnsetEdits(now, ps);
    forall p: Prop ensures Read(p, r) == Read(p, now) {}
    if Clean(r, base) {
      forall p | p in ps && p in now.edits ensures Read(p, now) == Read(p, base) {
        assert p !in r.edits;
        assert Read(p, r) == Read(p, base);
      }
    } else {
      var p: Prop :| p !in r.edits && Read(p, r) != Read(p, base);
      assert Read(p, now) != Read(p, base);
      assert p in now.edits;
    }
  }

  // --------------------------------------------------------- serialisation

  ghost predicate NoSecretKeys(r: Record) {
    KUserName !in r.dict && KSecret !in r.dict
  }

  /** No run puts the username or the secret into the dictionary. */
  lemma {:induction false} DictionaryNeverHoldsSecrets(r: Record, ops: seq<Op>)
    requires NoSecretKeys(r)
    ensures NoSecretKeys(Run(r, ops))
  {
    if ops == [] {
    } else {
      DictionaryNeverHoldsSecrets(r, ops[..|ops| - 1]);
    }
  }

  /** Hence no serialised record carries the secret, nor a secret username. */
  lemma SerialisedRecordHidesSecrets(d: map<Key, Variant>, ops: seq<Op>)
    ensures var r := Run(FromVariant(d), ops);
            && KSecret !in ToVariant(r)
            && (KUserName in ToVariant(r) <==> !GetUsernameIsSecret(r))
    ensures var r := Run(EMPTY, ops);
            && KSecret !in ToVariant(r)
            && (KUserName in ToVariant(r) <==> !GetUsernameIsSecret(r))
  {
    DictionaryNeverHoldsSecrets(FromVariant(d), ops);
    DictionaryNeverHoldsSecrets(EMPTY, ops);
  }

  /**
   Parsing a serialised record gives back every field but the secret; the
   username too exactly when it is shown and not NULL, or hidden and NULL.
   */
  lemma SerialisationRoundTrip(r: Record)
    requires NoSecretKeys(r)
    ensures var back := FromVariant(ToVariant(r));
            && back.dict == r.dict
            && back.secret == None
            && (forall p: Prop :: p != Username && p != Secret ==> Read(p, back) == Read(p, r))
            && (back.username == r.username <==> (GetUsernameIsSecret(r) <==> r.username == None))
  {
    var back := FromVariant(ToVariant(r));
    assert back.dict == r.dict;
    forall p: Prop | p != Username && p != Secret ensures Read(p, back) == Read(p, r) {}
  }
}
