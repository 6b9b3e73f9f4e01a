/**
 src/common/gsignond-identity-info.c in place: the record object with its
 dictionary, its two secret strings and its edit flags.  A word of edit flags
 is the set of the fields whose bits are on; FlagValue gives the bits.
 */
module IdentityInfo {
  import opened Ordering
  import opened IdentityRecord

  const PROP_MAX: nat := 0x2000

  /** The enumeration in gsignond-identity-info-internal.h. */
  function FlagValue(p: Prop): nat {
    match p
    case Username => 0x0001 case Secret => 0x0002 case Id => 0x0004 case Type => 0x0008
    case Caption => 0x0010 case StoreSecret => 0x0020 case UsernameIsSecret => 0x0040
    case Owner => 0x0080 case Acl => 0x0100 case Methods => 0x0200 case Realms => 0x0400
    case RefCount => 0x0800 case Validated => 0x1000
  }

  /** flags & value, for a word that holds a single bit */
  predicate HasBit(flags: set<Prop>, value: nat) {
    exists p: Prop :: p in flags && FlagValue(p) == value
  }

  /** flags & ~value, for a word that holds a single bit */
  function ClearBit(flags: set<Prop>, value: nat): set<Prop> {
    set p | p in flags && FlagValue(p) != value
  }

  lemma FlagValuesDiffer(p: Prop, q: Prop)
    ensures FlagValue(p) == FlagValue(q) <==> p == q
  {
  }

  /** Row i of the key table belongs to the flag 0x4 shifted left i times. */
  lemma TableIsAligned(i: nat)
    requires i < 11
    ensures FlagOf(TableKey(i)).Some?
    ensures i == 0 ==> FlagValue(FlagOf(TableKey(i)).value) == 0x4
    ensures FlagValue(FlagOf(TableKey(i)).value) * 2
            == if i == 10 then PROP_MAX else FlagValue(FlagOf(TableKey(i + 1)).value)
    ensures forall k :: FlagOf(k) == FlagOf(TableKey(i)) <==> k == TableKey(i)
  {
    if i < 5 {
      assert i == 0 || i == 1 || i == 2 || i == 3 || i == 4;
    } else {
      assert i == 5 || i == 6 || i == 7 || i == 8 || i == 9 || i == 10;
    }
  }

  lemma TableIsComplete(k: Key) returns (i: nat)
    requires FlagOf(k).Some?
    ensures i < 11 && TableKey(i) == k
  {
    match k
    case KId => i := 0; case KType => i := 1; case KCaption => i := 2; case KStoreSecret => i := 3;
    case KUserNameSecret => i := 4; case KOwner => i := 5; case KAcl => i := 6;
    case KAuthMethods => i := 7; case KRealms => i := 8; case KRefCount => i := 9;
    case KValidated => i := 10;
    case _ =>
  }

  // -------------------------------------------- progress of selective_copy

  function KeysBefore(n: nat): set<Key>
    requires n <= 11
  {
    set i: nat | i < n :: TableKey(i)
  }

  /** The entries copied by the first n rows of the table. */
  function RowsCopied(src: Record, flags: set<Prop>, n: nat): map<Key, Variant>
    requires n <= 11
  {
    map k | k in src.dict && k in KeysBefore(n) && Selected(k, src, flags) :: src.dict[k]
  }

  /** The flags left on by the first n rows of the table. */
  function FlagsKept(src: Record, flags: set<Prop>, n: nat): set<Prop>
    requires n <= 11
  {
    set p | p in flags && forall k :: k in KeysBefore(n) && FlagOf(k) == Some(p) ==> k in src.dict
  }

  lemma NextRow(src: Record, flags: set<Prop>, n: nat)
    requires n < 11
    ensures KeysBefore(n + 1) == KeysBefore(n) + {TableKey(n)}
    ensures var k := TableKey(n);
            var p := FlagOf(k).value;
            && FlagsKept(src, flags, n + 1) ==
               (if k in src.dict then FlagsKept(src, flags, n) else FlagsKept(src, flags, n) - {p})
            && RowsCopied(src, flags, n + 1) ==
               (if k in src.dict && p in flags then RowsCopied(src, flags, n)[k := src.dict[k]]
                else RowsCopied(src, flags, n))
            && (p in FlagsKept(src, flags, n) <==> p in flags)
  {
    TableIsAligned(n);
    var k := TableKey(n);
    var p := FlagOf(k).value;
    assert KeysBefore(n + 1) == KeysBefore(n) + {k};
    forall j: nat | j < n ensures TableKey(j) != k { TableRowsDiffer(j, n); }
    assert k !in KeysBefore(n);
  }

  lemma TableRowsDiffer(i: nat, j: nat)
    requires i < j < 11
    ensures TableKey(i) != TableKey(j)
  {
  }

  lemma KeyAndFlag(k: Key, p: Prop)
    ensures FlagOf(k) == Some(p) <==> p != Username && p != Secret && KeyOf(p) == k
  {
  }

  lemma AllRows(src: Record, flags: set<Prop>)
    ensures FlagsKept(src, flags, 11) == CopiedFlags(src, flags)
    ensures RowsCopied(src, flags, 11) == CopiedEntries(src, flags)
  {
    forall k | FlagOf(k).Some? ensures k in KeysBefore(11) {
      var i := TableIsComplete(k);
    }
    forall p | p in flags ensures p in FlagsKept(src, flags, 11) <==> p in CopiedFlags(src, flags) {
      forall k { KeyAndFlag(k, p); }
    }
  }

  /** One turn of the loop, from the progress before it to the progress after it. */
  lemma RowDone(base: map<Key, Variant>, src: Record, flags: set<Prop>, n: nat)
    requires n < 11
    ensures var k, p := TableKey(n), FlagOf(TableKey(n)).value;
            if p in FlagsKept(src, flags, n) && k in src.dict then
              && (base + RowsCopied(src, flags, n))[k := src.dict[k]] == base + RowsCopied(src, flags, n + 1)
              && FlagsKept(src, flags, n) == FlagsKept(src, flags, n + 1)
            else
              && base + RowsCopied(src, flags, n) == base + RowsCopied(src, flags, n + 1)
              && FlagsKept(src, flags, n) - {p} == FlagsKept(src, flags, n + 1)
  {
    NextRow(src, flags, n);
  }

  lemma CopyNothing(dest: Record, src: Record)
    ensures IdentityRecord.SelectiveCopy(dest, src, {}) == dest
    ensures CopiedFlags(src, {}) == {}
  {
    assert CopiedEntries(src, {}) == map[];
  }

  lemma BitOperations(flags: set<Prop>, p: Prop)
    ensures HasBit(flags, FlagValue(p)) <==> p in flags
    ensures ClearBit(flags, FlagValue(p)) == flags - {p}
  {
    forall q: Prop { FlagValuesDiffer(p, q); }
  }

  // ------------------------------------------------------------- the object

  class IdentityInfo {
    var username: Option<string>
    var secret: Option<string>
    var editFlags: set<Prop>
    var dict: map<Key, Variant>

    /** The record this object holds. */
    function State(): Record
      reads this
    {
      Record(username, secret, editFlags, dict)
    }

    constructor ()
      ensures State() == EMPTY
    {
      username, secret, editFlags := None, None, {};
      dict := map[KId := VNat(NEW_IDENTITY)];
    }

    /** gsignond_identity_info_new_from_variant */
    constructor FromVariant(d: map<Key, Variant>)
      ensures State() == IdentityRecord.FromVariant(d)
      ensures username == if KUserName in d && d[KUserName].VStr? then Some(d[KUserName].s) else None
      ensures secret == if KSecret in d && d[KSecret].VStr? then Some(d[KSecret].s) else None
      ensures forall k :: Entry(State(), k) == if k in d && k !in {KUserName, KSecret} then Some(d[k]) else None
      ensures forall p: Prop :: p in editFlags <==> KeyOf(p) in d
    {
      username, secret := StringIn(d, KUserName), StringIn(d, KSecret);
      editFlags := set p: Prop | KeyOf(p) in d;
      dict := d - {KUserName, KSecret};
    }

    method SetEditFlags(flags: set<Prop>)
      modifies this
      ensures State() == SetEdits(old(State()), flags)
    {
      editFlags := editFlags + flags;
    }

    method ResetEditFlags(flags: set<Prop>)
      modifies this
      ensures State() == ResetEdits(old(State()), flags)
    {
      editFlags := flags;
    }

    method PutEntry(k: Key, v: Variant, p: Prop)
      modifies this
      ensures State() == Put(old(State()), k, v, p)
    {
      dict := dict[k := v];
      SetEditFlags({p});
    }

    method SetId(id: nat)
      modifies this
      ensures State() == IdentityRecord.SetId(old(State()), id)
    {
      if GetId(State()) == id { return; }
      PutEntry(KId, VNat(id), Id);
    }

    method SetIdentityType(t: nat)
      modifies this
      ensures State() == SetType(old(State()), t)
    {
      if GetType(State()) == t { return; }
      PutEntry(KType, VNat(t), Type);
    }

    method SetStoreSecret(b: bool)
      modifies this
      ensures State() == IdentityRecord.SetStoreSecret(old(State()), b)
    {
      if GetStoreSecret(State()) == b { return; }
      PutEntry(KStoreSecret, VBool(b), StoreSecret);
    }

    method SetUsernameSecret(b: bool)
      modifies this
      ensures State() == SetUsernameIsSecret(old(State()), b)
    {
      if GetUsernameIsSecret(State()) == b { return; }
      PutEntry(KUserNameSecret, VBool(b), UsernameIsSecret);
    }

    method SetValidated(b: bool)
      modifies this
      ensures State() == IdentityRecord.SetValidated(old(State()), b)
    {
      if GetValidated(State()) == b { return; }
      PutEntry(KValidated, VBool(b), Validated);
    }

    method SetUsername(u: Option<string>)
      modifies this
      ensures State() == IdentityRecord.SetUsername(old(State()), u)
    {
      if username == u { return; }
      username := u;
      SetEditFlags({Username});
    }

    method SetSecret(s: Option<string>)
      modifies this
      ensures State() == IdentityRecord.SetSecret(old(State()), s)
    {
      if secret == s { return; }
      secret := s;
      SetEditFlags({Secret});
    }

    method SetCaption(c: Option<string>)
      modifies this
      ensures State() == IdentityRecord.SetCaption(old(State()), c)
    {
      if GetCaption(State()) == c { return; }
      if c == None {
        dict := dict - {KCaption};
        SetEditFlags({Caption});
      } else {
        PutEntry(KCaption, VStr(c.value), Caption);
      }
    }

    method SetRealms(realms: seq<string>)
      modifies this
      ensures State() == IdentityRecord.SetRealms(old(State()), realms)
    {
      if Entry(State(), KRealms) == Some(VStrs(realms)) { return; }
      PutEntry(KRealms, VStrs(realms), Realms);
    }

    method SetMethods(m: MethodMap)
      modifies this
      ensures State() == IdentityRecord.SetMethods(old(State()), m)
    {
      if Entry(State(), KAuthMethods) == Some(VMethods(m)) { return; }
      PutEntry(KAuthMethods, VMethods(m), Methods);
    }

    method RemoveMethod(name: string)
      modifies this
      ensures State() == IdentityRecord.RemoveMethod(old(State()), name)
    {
      var m := GetMethods(State());
      if m.Some? && name in m.value {
        SetMethods(m.value - {name});
      }
    }

    method SetAccessControlList(acl: seq<Ctx>)
      modifies this
      ensures State() == SetAcl(old(State()), acl)
    {
      if acl == [] || Entry(State(), KAcl) == Some(VCtxs(acl)) { return; }
      PutEntry(KAcl, VCtxs(acl), Acl);
    }

    method SetOwner(owner: Ctx)
      modifies this
      ensures State() == IdentityRecord.SetOwner(old(State()), owner)
    {
      if GetOwner(State()) == Some(owner) { return; }
      PutEntry(KOwner, VCtx(owner), Owner);
    }

    method RemoveOwner()
      modifies this
      ensures State() == IdentityRecord.RemoveOwner(old(State()))
    {
      dict := dict - {KOwner};
    }

    /** gsignond_identity_info_selective_copy, called on the destination */
    method SelectiveCopy(src: Record, flags0: set<Prop>) returns (flags: set<Prop>)
      modifies this
      ensures State() == IdentityRecord.SelectiveCopy(old(State()), src, flags0)
      ensures flags == CopiedFlags(src, flags0)
    {
      flags := flags0;
      if flags == {} {
        CopyNothing(State(), src);
        return;
      }
      var i, tmpFlag := 0, 0x4;
      while tmpFlag < PROP_MAX
        modifies this
        invariant 0 <= i <= 11
        invariant tmpFlag == if i == 11 then PROP_MAX else FlagValue(FlagOf(TableKey(i)).value)
        invariant flags == FlagsKept(src, flags0, i)
        invariant dict == old(dict) + RowsCopied(src, flags0, i)
        invariant username == old(username) && secret == old(secret) && editFlags == old(editFlags)
        decreases 11 - i
      {
        TableIsAligned(i);
        RowDone(old(dict), src, flags0, i);
        BitOperations(flags, FlagOf(TableKey(i)).value);
        if HasBit(flags, tmpFlag) && TableKey(i) in src.dict {
          dict := dict[TableKey(i) := src.dict[TableKey(i)]];
        } else {
          flags := ClearBit(flags, tmpFlag);
        }
        tmpFlag, i := tmpFlag * 2, i + 1;
      }
      AllRows(src, flags0);
      assert flags == CopiedFlags(src, flags0);
      if Username in flags { username := src.username; }
      if Secret in flags { secret := src.secret; }
      editFlags := editFlags + flags;
    }

    /** gsignond_identity_info_to_variant */
    method ToVariant() returns (v: map<Key, Variant>)
      ensures v == IdentityRecord.ToVariant(State())
      ensures GetUsernameIsSecret(State()) ==> v == dict
      ensures !GetUsernameIsSecret(State()) ==>
                v == dict[KUserName := VStr(if username.Some? then username.value else "")]
    {
      v := dict;
      if !GetUsernameIsSecret(State()) {
        v := v[KUserName := VStr(if username.Some? then username.value else "")];
      }
    }
  }
}
