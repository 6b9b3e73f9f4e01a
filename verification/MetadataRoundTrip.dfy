/**
 Store and load of identity records: exactly which fields of a record come back,
 for a new identity and for one that is stored again.
 */
module MetadataRoundTrip {
  import opened Ordering
  import opened IdentityRecord
  import opened IdentityCompare
  import opened RecordFields
  import opened MetadataTables
  import opened MetadataStore
  import opened MetadataProduct
  import opened MetadataUpdate
  import opened MetadataDatabase

  // ------------------------------------------------------- lists and sets

  lemma {:induction false} NoDuplicatesIsSet<T(!new)>(s: seq<T>)
    requires NoDuplicates(s)
    ensures multiset(s) == multiset(Elements(s))
  {
    if s == [] {
    } else {
      var init, x := s[..|s| - 1], s[|s| - 1];
      assert s == init + [x];
      NoDuplicatesIsSet(init);
      assert x !in init;
      assert Elements(s) == Elements(init) + {x};
    }
  }

  lemma RepeatedTwice<T>(s: seq<T>, i: nat, j: nat)
    requires i < j < |s| && s[i] == s[j]
    ensures multiset(s)[s[i]] >= 2
  {
    assert s == s[..i] + [s[i]] + s[i + 1..j] + [s[j]] + s[j + 1..];
  }

  lemma NoDuplicatesIffSet<T(!new)>(s: seq<T>)
    ensures multiset(s) == multiset(Elements(s)) <==> NoDuplicates(s)
  {
    if NoDuplicates(s) {
      NoDuplicatesIsSet(s);
    } else {
      var i, j :| 0 <= i < j < |s| && s[i] == s[j];
      RepeatedTwice(s, i, j);
      assert multiset(Elements(s))[s[i]] <= 1;
    }
  }

  ghost predicate DistinctSys(list: seq<Ctx>) {
    forall i, j :: 0 <= i < j < |list| ==> list[i].sys != list[j].sys
  }

  lemma ChooseTwo<T>(s: seq<T>, x: T) returns (i: nat, j: nat)
    requires multiset(s)[x] >= 2
    ensures i < j < |s| && s[i] == x && s[j] == x
  {
    i :| 0 <= i < |s| && s[i] == x;
    var rest := s[..i] + s[i + 1..];
    assert s == s[..i] + [s[i]] + s[i + 1..];
    assert multiset(rest)[x] >= 1;
    var k :| 0 <= k < |rest| && rest[k] == x;
    var k' := if k < i then k else k + 1;
    assert s[k'] == x;
    if i < k' { j := k'; } else { i, j := k', i; }
  }

  lemma DistinctListIsPermutation(list: seq<Ctx>, acl: seq<Ctx>)
    requires AclListOf(list, Elements(acl)) && DistinctSys(acl)
    ensures multiset(list) == multiset(acl)
  {
    forall c | c in acl ensures c in list {
      assert c in Elements(acl);
      var d :| d in list && d.sys == c.sys;
      assert d in acl;
      var i :| 0 <= i < |acl| && acl[i] == c;
      var j :| 0 <= j < |acl| && acl[j] == d;
    }
    assert Elements(list) == Elements(acl);
    NoDuplicatesIsSet(list);
    NoDuplicatesIsSet(acl);
  }

  lemma PermutationIsDistinct(list: seq<Ctx>, acl: seq<Ctx>)
    requires DistinctSys(list) && multiset(list) == multiset(acl)
    ensures DistinctSys(acl)
  {
    forall i, j | 0 <= i < j < |acl| ensures acl[i].sys != acl[j].sys {
      if acl[i] == acl[j] {
        RepeatedTwice(acl, i, j);
        var a, b := ChooseTwo(list, acl[i]);
      } else {
        assert acl[i] in multiset(list) && acl[j] in multiset(list);
        var a :| 0 <= a < |list| && list[a] == acl[i];
        var b :| 0 <= b < |list| && list[b] == acl[j];
      }
    }
  }

  /** The list read back is the list written exactly when no system context occurs twice. */
  lemma AclListIsPermutation(list: seq<Ctx>, acl: seq<Ctx>)
    requires AclListOf(list, Elements(acl))
    ensures multiset(list) == multiset(acl) <==> DistinctSys(acl)
  {
    if DistinctSys(acl) {
      DistinctListIsPermutation(list, acl);
    } else if multiset(list) == multiset(acl) {
      PermutationIsDistinct(list, acl);
    }
  }

  // --------------------------------------------------- the loaded record

  ghost function AsSets(ms: MethodMap): map<string, set<string>> { map m | m in ms :: Elements(ms[m]) }

  /** The fields that come from the IDENTITY row. */
  function RowFields(row: IdentityRow): Fields {
    Fields(0, if row.usernameIsSecret then None else Some(row.username), None,
           Some(if row.usernameIsSecret then "" else row.caption),
           row.usernameIsSecret, row.rememberSecret, row.validated, row.kind, [], [], None, None)
  }

  lemma RowFieldsRead(row: IdentityRow)
    ensures FieldsOf(RowRecord(row)) == RowFields(row)
  {
    assert FieldsOf(EMPTY) == Fields(0, None, None, None, false, false, false, 0, [], [], None, None);
    CaptionSet(EMPTY, Some(row.caption));
    var r1 := SetCaption(EMPTY, Some(row.caption));
    UsernameIsSecretSet(r1, row.usernameIsSecret);
    var r2 := SetUsernameIsSecret(r1, row.usernameIsSecret);
    CaptionSet(r2, Some(""));
    UsernameSet(r2, Some(row.username));
    var r3 := if row.usernameIsSecret then SetCaption(r2, Some("")) else SetUsername(r2, Some(row.username));
    StoreSecretSet(r3, row.rememberSecret);
    var r4 := SetStoreSecret(r3, row.rememberSecret);
    ValidatedSet(r4, row.validated);
    TypeSet(SetValidated(r4, row.validated), row.kind);
  }

  /** Each field of the record that get_identity fills. */
  lemma LoadedFields(id: nat, v: View, acl: seq<Ctx>, owner: Option<Ctx>)
    ensures FieldsOf(LoadedRecord(id, v, acl, owner)) ==
            RowFields(v.row).(id := id, realms := Sort(StrLeq, v.realms), acl := acl, owner := owner,
                              methods := if v.methods == map[] then None else Some(SortedMethods(v.methods)))
  {
    var r0 := RowRecord(v.row);
    RowFieldsRead(v.row);
    IdSet(r0, id);
    var r1 := SetId(r0, id);
    RealmsSet(r1, Sort(StrLeq, v.realms));
    var r2 := SetRealms(r1, Sort(StrLeq, v.realms));
    AclSet(r2, acl);
    var r3 := SetAcl(r2, acl);
    if owner.Some? { OwnerSet(r3, owner.value); }
    var r4 := if owner.Some? then SetOwner(r3, owner.value) else r3;
    MethodsSet(r4, SortedMethods(v.methods));
  }

  // ------------------------------------------------------- new identities

  ghost predicate ListsWithoutDuplicates(ms: MethodMap) { forall m :: m in ms ==> NoDuplicates(ms[m]) }

  lemma LoadedMethodsAreTheSame(ms: MethodMap, loaded: Option<MethodMap>)
    requires loaded == if AsSets(ms) == map[] then None else Some(SortedMethods(AsSets(ms)))
    ensures SameMethodSets(loaded, Some(ms)) <==> ms != map[] && ListsWithoutDuplicates(ms)
  {
    assert AsSets(ms).Keys == ms.Keys;
    if ms != map[] {
      assert AsSets(ms) != map[] by { var m :| m in ms; assert m in AsSets(ms); }
      forall m | m in ms
        ensures multiset(SortedMethods(AsSets(ms))[m]) == multiset(ms[m]) <==> NoDuplicates(ms[m])
      {
        SortedElementsContents(Elements(ms[m]));
        NoDuplicatesIffSet(ms[m]);
      }
    } else {
      assert AsSets(ms) == map[];
    }
  }

  /** What the tables show of a new identity after its first update. */
  function NewView(r: Record, ownerNamed: bool): View {
    View(RowFor(r),
         if GetRealms(r).Some? then GetRealms(r).value else [],
         if RawMethods(r).Some? then (set c | c in GetAcl(r)) else {},
         if ownerNamed && GetOwner(r).Some? then {GetOwner(r).value} else {},
         if RawMethods(r).Some? then (map m | m in RawMethods(r).value :: set k | k in RawMethods(r).value[m])
         else map[])
  }

  /** The fields of a record built from scratch are flagged as far as they are set. */
  lemma SetFieldsAreFlagged(r: Record)
    requires Clean(r, EMPTY)
    ensures GetAcl(r) != [] ==> Acl in r.edits
    ensures GetOwner(r).Some? ==> Owner in r.edits
    ensures RawMethods(r).Some? ==> Methods in r.edits
    ensures GetRealms(r).Some? ==> Realms in r.edits
  {
    assert Acl !in r.edits ==> Read(Acl, r) == RVar(None);
    assert Owner !in r.edits ==> Read(Owner, r) == RVar(None);
    assert Methods !in r.edits ==> Read(Methods, r) == RVar(None);
    assert Realms !in r.edits ==> Read(Realms, r) == RVar(None);
  }

  lemma SortedListsAreTheSameSets(ms: MethodMap, t: Tables)
    requires forall m :: m in ms ==> m in t.methods.ids && forall k :: k in SortAll(ms)[m] ==> k in t.mechanisms.ids
    ensures KnownMethods(SortAll(ms), t) == AsSets(ms)
  {
    StrLeqIsTotalOrder();
    forall m | m in ms ensures KnownMethods(SortAll(ms), t)[m] == Elements(ms[m]) {
      SortIsSortedPermutation(StrLeq, ms[m]);
      forall k ensures k in Sort(StrLeq, ms[m]) <==> k in ms[m] {
        assert k in multiset(ms[m]) <==> k in ms[m];
        assert k in multiset(Sort(StrLeq, ms[m])) <==> k in Sort(StrLeq, ms[m]);
      }
    }
  }

  lemma MergeWithNothing(b: map<string, set<string>>)
    ensures MergeMethods(map[], b) == b
  {
    forall m | m in b ensures MergeMethods(map[], b)[m] == b[m] {
      assert {} + b[m] == b[m];
    }
  }

  lemma NewOwners(t: Tables, r: Record)
    requires Wf(t) && IsNew(r) && GetOwner(r).Some? && Owner in r.edits
    ensures OwnersAfter(t, t.nextIdentity, r) ==
            if GetOwner(r).value.sys != "" || GetOwner(r).value in t.secctx.ids then {GetOwner(r).value} else {}
  {
  }

  lemma NewMethods(t: Tables, r: Record, t': Tables)
    requires Stored(t, r, t', t.nextIdentity) && RawMethods(r).Some? && Methods in r.edits
    ensures MergeMethods(map[], KnownMethods(MethodsIn(r), t')) == AsSets(RawMethods(r).value)
  {
    assert MethodsIn(r) == SortAll(RawMethods(r).value);
    SortedListsAreTheSameSets(RawMethods(r).value, t');
    MergeWithNothing(KnownMethods(MethodsIn(r), t'));
  }

  lemma NewContexts(t: Tables, r: Record, t': Tables)
    requires Stored(t, r, t', t.nextIdentity) && Acl in r.edits
    ensures {} + Known(GetAcl(r), t'.secctx) == Elements(GetAcl(r))
  {
  }

  lemma NewViewIsUpdated(t: Tables, id: nat, r: Record, t': Tables, named: bool)
    requires GetOwner(r).Some?
    requires ViewOrEmpty(t, id) == NO_VIEW
    requires RealmsToWrite(r) == if GetRealms(r).Some? then GetRealms(r).value else []
    requires WritesRows(r) <==> RawMethods(r).Some?
    requires OwnersAfter(t, id, r) == if named then {GetOwner(r).value} else {}
    requires {} + Known(GetAcl(r), t'.secctx) == Elements(GetAcl(r))
    requires RawMethods(r).Some? ==>
               MergeMethods(map[], KnownMethods(MethodsIn(r), t')) == AsSets(RawMethods(r).value)
    ensures UpdatedView(t, id, r, t') == NewView(r, named)
  {
  }

  lemma NewIdentityView(t: Tables, r: Record, t': Tables)
    requires Wf(t) && IsNew(r) && Clean(r, EMPTY) && GetAcl(r) != [] && GetOwner(r).Some?
    requires Stored(t, r, t', t.nextIdentity)
    ensures ViewOf(t', t.nextIdentity) ==
            Some(NewView(r, GetOwner(r).value.sys != "" || GetOwner(r).value in t.secctx.ids))
  {
    SetFieldsAreFlagged(r);
    NewOwners(t, r);
    NewContexts(t, r, t');
    if RawMethods(r).Some? { NewMethods(t, r, t'); }
    NewViewIsUpdated(t, t.nextIdentity, r, t', GetOwner(r).value.sys != "" || GetOwner(r).value in t.secctx.ids);
  }

  lemma RealmsComeBack(r: Record, named: bool)
    ensures multiset(Sort(StrLeq, NewView(r, named).realms)) == multiset(RealmItems(r))
  {
    StrLeqIsTotalOrder();
    SortIsSortedPermutation(StrLeq, NewView(r, named).realms);
    SortIsSortedPermutation(StrLeq, RealmItems(r));
  }

  lemma MethodsComeBackIff(r: Record, named: bool, loaded: Option<MethodMap>)
    requires var ms := NewView(r, named).methods; loaded == if ms == map[] then None else Some(SortedMethods(ms))
    ensures SameMethodSets(loaded, RawMethods(r)) <==>
            RawMethods(r).None? || (RawMethods(r).value != map[] && ListsWithoutDuplicates(RawMethods(r).value))
  {
    if RawMethods(r).Some? {
      assert NewView(r, named).methods == AsSets(RawMethods(r).value);
      LoadedMethodsAreTheSame(RawMethods(r).value, loaded);
    }
  }

  lemma EmptyIffNothingIn<T(!new)>(s: seq<T>)
    ensures s == [] <==> forall x :: x !in s
  {
    if s != [] { assert s[0] in s; }
  }

  lemma AclComesBackIff(r: Record, named: bool, acl: seq<Ctx>)
    requires GetAcl(r) != [] && AclListOf(acl, NewView(r, named).ctxs)
    ensures multiset(acl) == multiset(GetAcl(r)) <==> RawMethods(r).Some? && DistinctSys(GetAcl(r))
  {
    if RawMethods(r).Some? {
      assert NewView(r, named).ctxs == Elements(GetAcl(r));
      AclListIsPermutation(acl, GetAcl(r));
    } else {
      EmptyIffNothingIn(acl);
      assert GetAcl(r)[0] in multiset(GetAcl(r));
    }
  }

  /** Which fields of a new record come back, and when. */
  ghost predicate ComesBack(was: Fields, back: Fields, known: set<Ctx>) {
    && back.secret == None
    && back.storeSecret == was.storeSecret && back.validated == was.validated && back.kind == was.kind
    && back.usernameIsSecret == was.usernameIsSecret
    && multiset(back.realms) == multiset(was.realms)
    && (back.caption == was.caption <==> if was.usernameIsSecret then was.caption == Some("") else was.caption.Some?)
    && (back.username == was.username <==> (was.usernameIsSecret <==> was.username == None))
    && (SameMethodSets(back.methods, was.methods) <==>
          was.methods.None? || (was.methods.value != map[] && ListsWithoutDuplicates(was.methods.value)))
    && (multiset(back.acl) == multiset(was.acl) <==> was.methods.Some? && DistinctSys(was.acl))
    && (back.owner == was.owner <==> was.owner.Some? && (was.owner.value.sys != "" || was.owner.value in known))
  }

  lemma NewViewComesBack(id: nat, r: Record, known: set<Ctx>, acl: seq<Ctx>, owner: Option<Ctx>)
    requires GetAcl(r) != [] && GetOwner(r).Some?
    requires var v := NewView(r, GetOwner(r).value.sys != "" || GetOwner(r).value in known);
             AclListOf(acl, v.ctxs) && OwnerChoice(owner, v.owners)
    ensures var v := NewView(r, GetOwner(r).value.sys != "" || GetOwner(r).value in known);
            var back := FieldsOf(LoadedRecord(id, v, acl, owner));
            back.id == id && ComesBack(FieldsOf(r), back, known)
  {
    var named := GetOwner(r).value.sys != "" || GetOwner(r).value in known;
    var v := NewView(r, named);
    LoadedFields(id, v, acl, owner);
    RealmsComeBack(r, named);
    MethodsComeBackIff(r, named, if v.methods == map[] then None else Some(SortedMethods(v.methods)));
    AclComesBackIff(r, named, acl);
  }

  /**
   Every field of a new identity's record comes back, except under conditions
   on that field alone: a caption next to a secret username and a NULL one are
   read as "", a NULL username as "" and a secret one as NULL, an empty methods
   map as none, a repeated mechanism once, several contexts with one system
   context as one of them, and an owner without a system context only if the
   tables knew it.  Without a methods map no access control list is stored.
   */
  lemma NewIdentityRoundTrip(t: Tables, r: Record, t': Tables, acl: seq<Ctx>, owner: Option<Ctx>)
    requires Wf(t) && IsNew(r) && Clean(r, EMPTY) && GetAcl(r) != [] && GetOwner(r).Some?
    requires Stored(t, r, t', t.nextIdentity)
    requires AclListOf(acl, CtxsOf(t', t.nextIdentity)) && OwnerChoice(owner, OwnerCtxsOf(t', t.nextIdentity))
    ensures var back := FieldsOf(LoadedRecord(t.nextIdentity, ViewOf(t', t.nextIdentity).value, acl, owner));
            back.id == t.nextIdentity && ComesBack(FieldsOf(r), back, t.secctx.ids.Keys)
  {
    NewIdentityView(t, r, t');
    NewViewComesBack(t.nextIdentity, r, t.secctx.ids.Keys, acl, owner);
  }

  /** The record as it should come back: with its new id, and without the password. */
  function Expected(r: Record, id: nat): Record { SetSecret(SetId(r, id), None) }

  lemma ExpectedFields(r: Record, id: nat)
    ensures FieldsOf(Expected(r, id)) == FieldsOf(r).(id := id, secret := None)
  {
    IdSet(r, id);
    SecretSet(SetId(r, id), None);
  }

  /** Records with the same fields up to order compare equal. */
  lemma SameFieldsCompareEqual(one: Record, two: Record)
    requires var a, b := FieldsOf(one), FieldsOf(two);
             && a == b.(realms := a.realms, acl := a.acl, methods := a.methods)
             && multiset(a.realms) == multiset(b.realms) && multiset(a.acl) == multiset(b.acl)
             && SameMethodSets(a.methods, b.methods)
    ensures Same(one, two)
  {
    RealmsCompareAsMultisets(one, two);
    PermutedMethodsMatch(one, two);
    CtxLeqIsTotalOrder();
    SortEqualIffPermutation(CtxLeq, GetAcl(one), GetAcl(two));
    forall c: Ctx ensures CtxMatch(c, c) {}
  }

  /**
   The round trip in the program's own comparison: a new identity whose owner
   has a system context, with a caption and a username that is not secret,
   with pairwise distinct system contexts and a non-empty methods map without
   repeated mechanisms, is loaded as a record that compares equal to it.
   */
  lemma NewIdentityComparesEqual(t: Tables, r: Record, t': Tables, acl: seq<Ctx>, owner: Option<Ctx>)
    requires Wf(t) && IsNew(r) && Clean(r, EMPTY) && GetAcl(r) != [] && GetOwner(r).Some?
    requires Stored(t, r, t', t.nextIdentity)
    requires AclListOf(acl, CtxsOf(t', t.nextIdentity)) && OwnerChoice(owner, OwnerCtxsOf(t', t.nextIdentity))
    requires GetOwner(r).value.sys != "" && GetCaption(r).Some? && !GetUsernameIsSecret(r) && r.username.Some?
    requires DistinctSys(GetAcl(r)) && RawMethods(r).Some? && RawMethods(r).value != map[]
    requires ListsWithoutDuplicates(RawMethods(r).value)
    ensures Same(LoadedRecord(t.nextIdentity, ViewOf(t', t.nextIdentity).value, acl, owner),
                 Expected(r, t.nextIdentity))
  {
    NewIdentityRoundTrip(t, r, t', acl, owner);
    ExpectedFields(r, t.nextIdentity);
    SameFieldsCompareEqual(LoadedRecord(t.nextIdentity, ViewOf(t', t.nextIdentity).value, acl, owner),
                           Expected(r, t.nextIdentity));
  }

  lemma PermutedMethodsMatch(one: Record, two: Record)
    requires SameMethodSets(RawMethods(one), RawMethods(two))
    ensures MethodsMatch(GetMethods(one), GetMethods(two))
  {
    StrLeqIsTotalOrder();
    if RawMethods(one).Some? {
      var a, b := RawMethods(one).value, RawMethods(two).value;
      assert SortAll(a).Keys == a.Keys && SortAll(b).Keys == b.Keys;
      assert |SortAll(a)| == |SortAll(a).Keys| && |SortAll(b)| == |SortAll(b).Keys|;
      forall m | m in a ensures SortAll(a)[m] == SortAll(b)[m] {
        SortEqualIffPermutation(StrLeq, a[m], b[m]);
      }
    }
  }

  // ------------------------------------------------- records that do not come back

  const MAIL := Ctx("mail", "")
  const PASSWORD_ONLY: MethodMap := map["password" := []]

  /** A new record with a caption and a secret username. */
  const CAPTIONED := Record(Some("me"), None, {Username, UsernameIsSecret, Caption, Owner, Acl, Methods},
                            map[KId := VNat(0), KUserNameSecret := VBool(true), KCaption := VStr("Mail"),
                                KOwner := VCtx(MAIL), KAcl := VCtxs([MAIL]), KAuthMethods := VMethods(PASSWORD_ONLY)])

  /** One with a list and without methods. */
  const LIST_ALONE := Record(Some("me"), None, {Username, Caption, Owner, Acl},
                             map[KId := VNat(0), KCaption := VStr("Mail"), KOwner := VCtx(MAIL), KAcl := VCtxs([MAIL])])

  /** One whose list has two contexts of one system context. */
  const TWO_APPLICATIONS := Record(Some("me"), None, {Username, Caption, Owner, Acl, Methods},
                                   map[KId := VNat(0), KCaption := VStr("Mail"), KOwner := VCtx(MAIL),
                                       KAcl := VCtxs([Ctx("mail", "a"), Ctx("mail", "b")]),
                                       KAuthMethods := VMethods(PASSWORD_ONLY)])

  /** The update accepts the record as the first of all. */
  ghost predicate AcceptedFirst(r: Record) {
    Wf(NO_TABLES) && IsNew(r) && Live(NO_TABLES, r) && Clean(r, EMPTY) && Accepted(NO_TABLES, r, true, true)
  }

  /** What is stored and loaded when it was the first of all. */
  ghost predicate FirstLoad(r: Record, t': Tables, acl: seq<Ctx>, owner: Option<Ctx>) {
    Stored(NO_TABLES, r, t', 1) && AclListOf(acl, CtxsOf(t', 1)) && OwnerChoice(owner, OwnerCtxsOf(t', 1))
  }

  lemma UnsetFieldsAreClean(r: Record)
    requires forall p: Prop, k :: p !in r.edits && FlagOf(k) == Some(p) ==> Entry(r, k) == Entry(EMPTY, k)
    requires Username !in r.edits ==> r.username == None
    requires Secret !in r.edits ==> r.secret == None
    ensures Clean(r, EMPTY)
  {
    forall p: Prop | p !in r.edits ensures Read(p, r) == Read(p, EMPTY) { ReadsOwnKey(p, EMPTY, r); }
  }

  lemma CaptionedIsAccepted()
    ensures AcceptedFirst(CAPTIONED)
  {
    UnsetFieldsAreClean(CAPTIONED);
  }

  lemma ListAloneIsAccepted()
    ensures AcceptedFirst(LIST_ALONE)
  {
    UnsetFieldsAreClean(LIST_ALONE);
  }

  lemma TwoApplicationsIsAccepted()
    ensures AcceptedFirst(TWO_APPLICATIONS)
  {
    UnsetFieldsAreClean(TWO_APPLICATIONS);
  }

  /** What of a record accepted as the first does not come back. */
  lemma FirstLoadLoses(r: Record, t': Tables, acl: seq<Ctx>, owner: Option<Ctx>)
    requires AcceptedFirst(r) && FirstLoad(r, t', acl, owner)
    ensures var was, back := FieldsOf(r), FieldsOf(LoadedRecord(1, ViewOf(t', 1).value, acl, owner));
            && (was.usernameIsSecret && was.caption != Some("") ==> back.caption != was.caption)
            && (was.methods == None || !DistinctSys(was.acl) ==> multiset(back.acl) != multiset(was.acl))
  {
    NewIdentityRoundTrip(NO_TABLES, r, t', acl, owner);
  }

  lemma CaptionedFields()
    ensures FieldsOf(CAPTIONED).usernameIsSecret && FieldsOf(CAPTIONED).caption == Some("Mail")
  {
  }

  lemma ListAloneFields()
    ensures FieldsOf(LIST_ALONE).methods == None
  {
  }

  lemma TwoApplicationsFields()
    ensures !DistinctSys(FieldsOf(TWO_APPLICATIONS).acl)
  {
    var list := FieldsOf(TWO_APPLICATIONS).acl;
    assert list == [Ctx("mail", "a"), Ctx("mail", "b")] && list[0].sys == list[1].sys;
  }

  /** The caption beside a secret username is lost. */
  lemma CaptionIsLost(t': Tables, acl: seq<Ctx>, owner: Option<Ctx>)
    ensures AcceptedFirst(CAPTIONED)
    ensures FirstLoad(CAPTIONED, t', acl, owner) ==>
              FieldsOf(LoadedRecord(1, ViewOf(t', 1).value, acl, owner)).caption != FieldsOf(CAPTIONED).caption
  {
    CaptionedIsAccepted();
    CaptionedFields();
    if FirstLoad(CAPTIONED, t', acl, owner) { FirstLoadLoses(CAPTIONED, t', acl, owner); }
  }

  /** The list without a methods map is lost. */
  lemma ListIsLost(t': Tables, acl: seq<Ctx>, owner: Option<Ctx>)
    ensures AcceptedFirst(LIST_ALONE)
    ensures FirstLoad(LIST_ALONE, t', acl, owner) ==>
              multiset(FieldsOf(LoadedRecord(1, ViewOf(t', 1).value, acl, owner)).acl) !=
              multiset(FieldsOf(LIST_ALONE).acl)
  {
    ListAloneIsAccepted();
    ListAloneFields();
    if FirstLoad(LIST_ALONE, t', acl, owner) { FirstLoadLoses(LIST_ALONE, t', acl, owner); }
  }

  /** Of two contexts with one system context, one is lost. */
  lemma ContextIsLost(t': Tables, acl: seq<Ctx>, owner: Option<Ctx>)
    ensures AcceptedFirst(TWO_APPLICATIONS)
    ensures FirstLoad(TWO_APPLICATIONS, t', acl, owner) ==>
              multiset(FieldsOf(LoadedRecord(1, ViewOf(t', 1).value, acl, owner)).acl) !=
              multiset(FieldsOf(TWO_APPLICATIONS).acl)
  {
    TwoApplicationsIsAccepted();
    TwoApplicationsFields();
    if FirstLoad(TWO_APPLICATIONS, t', acl, owner) { FirstLoadLoses(TWO_APPLICATIONS, t', acl, owner); }
  }
}
