/**
 Storing an identity again: exactly when an edited field replaces the stored
 one, and that a skipped update loses nothing.
 */
module MetadataRestore {
  import opened Ordering
  import opened IdentityRecord
  import opened IdentityCompare
  import opened RecordFields
  import opened MetadataTables
  import opened MetadataStore
  import opened MetadataProduct
  import opened MetadataUpdate
  import opened MetadataDatabase
  import opened MetadataRoundTrip

  /** A successful update of an identity that is already in the tables. */
  ghost predicate StoredAgain(t: Tables, r: Record, t': Tables) {
    Wf(t) && !IsNew(r) && GetId(r) in t.identity && Stored(t, r, t', GetId(r))
  }

  /** Does the delete of the old ACL rows meet the foreign-key check? */
  predicate OldRowsStay(t: Tables, r: Record) {
    AclDeleteAborts(t, OwnerRowsAfter(t, GetId(r), r), GetId(r))
  }

  /** What is stored of each field after an update: a field that was not edited stays, but for the row. */
  lemma EachFieldStored(t: Tables, r: Record, t': Tables)
    requires StoredAgain(t, r, t')
    ensures var id := GetId(r);
            var was, now := ViewOf(t, id).value, ViewOf(t', id).value;
            && now.row == RowFor(r)
            && now.realms == (if Realms in r.edits && RealmItems(r) != [] then Sort(StrLeq, RealmItems(r))
                              else was.realms)
            && (Owner !in r.edits ==> now.owners == was.owners)
            && (Acl !in r.edits && Methods !in r.edits ==> now.ctxs == was.ctxs && now.methods == was.methods)
  {
    RealmsAreSorted(r);
  }

  lemma RealmsAreSorted(r: Record)
    ensures GetRealms(r).Some? ==> GetRealms(r).value == Sort(StrLeq, RealmItems(r))
    ensures GetRealms(r) == None ==> RealmItems(r) == []
    ensures Sort(StrLeq, RealmItems(r)) == [] <==> RealmItems(r) == []
  {
    StrLeqIsTotalOrder();
    SortIsSortedPermutation(StrLeq, RealmItems(r));
    assert multiset(RealmItems(r)) == multiset{} <==> RealmItems(r) == [];
  }

  /**
   The methods and contexts after an update: the old ones unless their rows go,
   and those of the record that have names if it has a methods map and that or
   the list was edited.
   */
  lemma MethodsStored(t: Tables, r: Record, t': Tables, m: string, k: string)
    requires StoredAgain(t, r, t')
    ensures var id := GetId(r);
            var was, now := ViewOf(t, id).value.methods, ViewOf(t', id).value.methods;
            var kept := !(Acl in r.edits && !OldRowsStay(t, r)) && m in was;
            var written := (Acl in r.edits || Methods in r.edits) && RawMethods(r).Some?
                           && m in RawMethods(r).value && m in t'.methods.ids;
            && (m in now <==> kept || written)
            && (m in now ==>
                  (k in now[m] <==> (kept && k in was[m]) ||
                                    (written && k in RawMethods(r).value[m] && k in t'.mechanisms.ids)))
  {
    var cleared := Acl in r.edits && !OldRowsStay(t, r);
    MergedAt(if cleared then map[] else ViewOf(t, GetId(r)).value.methods, KnownMethods(MethodsIn(r), t'), m, k);
    if RawMethods(r).Some? { KnownAt(RawMethods(r).value, t', m, k); }
  }

  lemma MergedAt(a: map<string, set<string>>, b: map<string, set<string>>, m: string, k: string)
    ensures m in MergeMethods(a, b) <==> m in a || m in b
    ensures m in MergeMethods(a, b) ==> (k in MergeMethods(a, b)[m] <==> (m in a && k in a[m]) || (m in b && k in b[m]))
  {
  }

  lemma KnownAt(ms: MethodMap, t: Tables, m: string, k: string)
    ensures var known := KnownMethods(SortAll(ms), t);
            && (m in known <==> m in ms && m in t.methods.ids)
            && (m in known ==> (k in known[m] <==> k in ms[m] && k in t.mechanisms.ids))
  {
    StrLeqIsTotalOrder();
    if m in ms {
      SortIsSortedPermutation(StrLeq, ms[m]);
      assert k in multiset(Sort(StrLeq, ms[m])) <==> k in multiset(ms[m]);
    }
  }

  lemma ContextsStored(t: Tables, r: Record, t': Tables, c: Ctx)
    requires StoredAgain(t, r, t')
    ensures var was, now := ViewOf(t, GetId(r)).value.ctxs, ViewOf(t', GetId(r)).value.ctxs;
            c in now <==>
              || (c in was && !(Acl in r.edits && !OldRowsStay(t, r)))
              || ((Acl in r.edits || Methods in r.edits) && RawMethods(r).Some? && c in GetAcl(r)
                  && c in t'.secctx.ids)
  {
  }

  lemma OwnersStored(t: Tables, r: Record, t': Tables, c: Ctx)
    requires StoredAgain(t, r, t') && Owner in r.edits && GetOwner(r).Some?
    ensures var id, owner := GetId(r), GetOwner(r).value;
            var was, now := ViewOf(t, id).value.owners, ViewOf(t', id).value.owners;
            c in now <==>
              || (c in was && OwnerDeleteAborts(t, id))
              || (c == owner && (owner.sys != "" || owner in DeleteOwners(t, id).secctx.ids))
  {
  }

  /** Edited realms replace the stored ones, unless none is left. */
  lemma RealmsReplacedIff(t: Tables, r: Record, t': Tables)
    requires StoredAgain(t, r, t') && Realms in r.edits
    ensures var was, now := ViewOf(t, GetId(r)).value.realms, ViewOf(t', GetId(r)).value.realms;
            now == ItemsOf(GetRealms(r)) <==> (ItemsOf(GetRealms(r)) != [] || was == [])
  {
  }

  /**
   The stored contexts become those of an edited list exactly when the record
   has a methods map and the old rows go, or the old contexts are in the list.
   */
  lemma ContextsReplacedIff(t: Tables, r: Record, t': Tables)
    requires StoredAgain(t, r, t') && Acl in r.edits && GetAcl(r) != []
    ensures var was, now := ViewOf(t, GetId(r)).value.ctxs, ViewOf(t', GetId(r)).value.ctxs;
            now == Elements(GetAcl(r)) <==>
              if RawMethods(r).Some? then !OldRowsStay(t, r) || was <= Elements(GetAcl(r))
              else OldRowsStay(t, r) && was == Elements(GetAcl(r))
  {
    assert Known(GetAcl(r), t'.secctx) == Elements(GetAcl(r));
    var was := ViewOf(t, GetId(r)).value.ctxs;
    assert GetAcl(r)[0] in Elements(GetAcl(r));
    assert was + Elements(GetAcl(r)) == Elements(GetAcl(r)) <==> was <= Elements(GetAcl(r));
  }

  ghost predicate Covers(big: map<string, set<string>>, small: map<string, set<string>>) {
    forall m :: m in small ==> m in big && small[m] <= big[m]
  }

  lemma MergeIsBigIff(a: map<string, set<string>>, b: map<string, set<string>>)
    ensures MergeMethods(a, b) == b <==> Covers(b, a)
  {
    var c := MergeMethods(a, b);
    assert c.Keys == a.Keys + b.Keys;
    if c == b {
      forall m | m in a ensures m in b && a[m] <= b[m] {
        assert m in c;
        assert c[m] == a[m] + (if m in b then b[m] else {});
      }
    }
    if Covers(b, a) {
      forall m | m in c ensures m in b && c[m] == b[m] {
        assert c[m] == (if m in a then a[m] else {}) + (if m in b then b[m] else {});
      }
    }
  }

  /**
   The stored methods become the edited map exactly when the access control
   list was edited as well and the old rows go, or nothing in it was removed.
   */
  lemma MethodsReplacedIff(t: Tables, r: Record, t': Tables)
    requires StoredAgain(t, r, t') && Methods in r.edits && RawMethods(r).Some?
    ensures var was, now := ViewOf(t, GetId(r)).value.methods, ViewOf(t', GetId(r)).value.methods;
            now == AsSets(RawMethods(r).value) <==>
              (Acl in r.edits && !OldRowsStay(t, r)) || Covers(AsSets(RawMethods(r).value), was)
  {
    var ms := AsSets(RawMethods(r).value);
    var was := ViewOf(t, GetId(r)).value.methods;
    assert MethodsIn(r) == SortAll(RawMethods(r).value);
    SortedListsAreTheSameSets(RawMethods(r).value, t');
    MergeWithNothing(ms);
    MergeIsBigIff(was, ms);
  }

  /** With the old rows gone, list and methods are those of the record alone. */
  lemma BothReplaced(t: Tables, r: Record, t': Tables)
    requires StoredAgain(t, r, t') && Acl in r.edits && Methods in r.edits
    requires GetAcl(r) != [] && RawMethods(r).Some? && !OldRowsStay(t, r)
    ensures var now := ViewOf(t', GetId(r)).value;
            now.ctxs == Elements(GetAcl(r)) && now.methods == AsSets(RawMethods(r).value)
    ensures forall y :: y != GetId(r) ==> ViewOf(t', y) == ViewOf(t, y)
  {
    ContextsReplacedIff(t, r, t');
    MethodsReplacedIff(t, r, t');
  }

  /** An identity that shares no stored context with another has its old rows replaced. */
  lemma UnsharedContextsGo(t: Tables, r: Record)
    requires Wf(t) && forall y :: y in t.identity && y != GetId(r) ==> CtxsOf(t, y) !! CtxsOf(t, GetId(r))
    ensures !OldRowsStay(t, r)
  {
    var id := GetId(r);
    forall i | i in AclContexts(AclOf(t, id)) ensures i !in AclContexts(t.acl - AclOf(t, id)) {
      var own :| own in AclOf(t, id) && own.ctx == Some(i);
      assert Refers(own.ctx, t.secctx);
      var c :| c in t.secctx.ids && t.secctx.ids[c] == i;
      forall row | row in t.acl && row.ctx == Some(i) ensures c in CtxsOf(t, row.identity) {
        assert row in AclOf(t, row.identity);
      }
    }
  }

  /**
   An edited owner replaces the stored ones exactly when its context has a row,
   for which a system context is enough, and the old rows go or name it too.
   */
  lemma OwnerReplacedIff(t: Tables, r: Record, t': Tables)
    requires StoredAgain(t, r, t') && Owner in r.edits && GetOwner(r).Some?
    ensures var id, owner := GetId(r), GetOwner(r).value;
            var was, now := ViewOf(t, id).value.owners, ViewOf(t', id).value.owners;
            now == {owner} <==>
              && (owner.sys != "" || owner in t.secctx.ids.Keys - OwnerOrphans(t, id, r))
              && (!OwnerDeleteAborts(t, id) || was <= {owner})
  {
    var id, owner := GetId(r), GetOwner(r).value;
    var was := ViewOf(t, id).value.owners;
    OwnerDeleteKeys(t, id);
    var kept := if OwnerDeleteAborts(t, id) then was else {};
    assert kept + {owner} == {owner} <==> kept <= {owner};
    assert kept + {} == kept;
  }

  /**
   With the list not edited, no stored context goes; those of the record that
   have a row join them if methods are written, and each of these rows was there
   before or is the new owner's.
   */
  lemma ContextsWithoutEdit(t: Tables, r: Record, t': Tables)
    requires StoredAgain(t, r, t') && Acl !in r.edits
    ensures var id := GetId(r);
            var was, now := ViewOf(t, id).value.ctxs, ViewOf(t', id).value.ctxs;
            && now == was + (if WritesRows(r) then Elements(GetAcl(r)) * ContextsAfter(t, id, r) else {})
            && now - was <= t.secctx.ids.Keys + OwnerNames(r)
  {
    assert Known(GetAcl(r), t'.secctx) == Elements(GetAcl(r)) * t'.secctx.ids.Keys;
    assert EditedContexts(r) == {};
  }

  const SHARED := Ctx("browser", "")
  const FIRST := Ctx("mail", "")
  const SECOND := Ctx("chat", "")
  const ROW := IdentityRow("", "", false, false, false, 0)

  /** Two identities with different owners whose ACL rows name the same context, and nothing else does. */
  const TWO_SHARE := Tables(map[1 := ROW, 2 := ROW], 3, Names(map["password" := 1], 2), Names(map[], 1),
                            Names(map[FIRST := 1, SHARED := 2, SECOND := 3], 4), [],
                            {AclRow(1, Some(1), None, Some(2)), AclRow(2, Some(1), None, Some(2))}, {},
                            {OwnerRow(1, Some(1)), OwnerRow(2, Some(3))})

  const NEW_METHODS: MethodMap := map["digest" := []]

  /** The first identity as loaded, with one method in place of the other and the list set again. */
  const EDITED := Record(None, None, {Acl, Methods},
                         map[KId := VNat(1), KOwner := VCtx(FIRST), KAcl := VCtxs([SHARED]),
                             KAuthMethods := VMethods(NEW_METHODS)])

  lemma TwoShareIsWf()
    ensures Wf(TWO_SHARE)
  {
    var t := TWO_SHARE;
    assert FIRST.sys != SHARED.sys && FIRST.sys != SECOND.sys && SHARED.sys != SECOND.sys by {
      assert |FIRST.sys| == 4 && |SHARED.sys| == 7 && FIRST.sys[0] == 'm' && SECOND.sys[0] == 'c';
    }
    assert t.secctx.ids[FIRST] == 1 && t.secctx.ids[SHARED] == 2 && t.secctx.ids[SECOND] == 3;
    assert t.methods.ids["password"] == 1;
    assert {1, 2, 3} <= t.secctx.ids.Values && 1 in t.methods.ids.Values;
  }

  lemma SharedRowsStay()
    ensures OldRowsStay(TWO_SHARE, EDITED) && "password" in MethodsOf(TWO_SHARE, 1)
  {
    var t := TWO_SHARE;
    var row1, row2 := AclRow(1, Some(1), None, Some(2)), AclRow(2, Some(1), None, Some(2));
    assert row1 in AclOf(t, 1) && row2 in t.acl - AclOf(t, 1);
    assert 2 in AclContexts(AclOf(t, 1)) && 2 in AclContexts(t.acl - AclOf(t, 1));
    assert OwnerRowsAfter(t, 1, EDITED) == t.owners;
    assert 2 !in OwnerContexts(t.owners);
    assert 1 in MethodIds(AclOf(t, 1));
  }

  lemma EditedIsAccepted()
    ensures Wf(TWO_SHARE) && Live(TWO_SHARE, EDITED) && Accepted(TWO_SHARE, EDITED, true, true)
  {
    TwoShareIsWf();
  }

  /** update_identity accepts that record, its delete is undone, and the old method stays beside the new one. */
  lemma SharedContextKeepsOldMethods(t': Tables)
    ensures Wf(TWO_SHARE) && Live(TWO_SHARE, EDITED) && Accepted(TWO_SHARE, EDITED, true, true)
    ensures Stored(TWO_SHARE, EDITED, t', 1) ==> ViewOf(t', 1).value.methods != AsSets(NEW_METHODS)
  {
    EditedIsAccepted();
    if Stored(TWO_SHARE, EDITED, t', 1) { OldMethodStays(t'); }
  }

  /** A stored method that the edited map lacks stays, unless the list is edited too and the old rows go. */
  lemma MissingMethodStays(t: Tables, r: Record, t': Tables, m: string)
    requires StoredAgain(t, r, t') && Methods in r.edits && RawMethods(r).Some?
    requires Acl in r.edits ==> OldRowsStay(t, r)
    requires m in MethodsOf(t, GetId(r)) && m !in RawMethods(r).value
    ensures ViewOf(t', GetId(r)).value.methods != AsSets(RawMethods(r).value)
  {
    MethodsReplacedIff(t, r, t');
    assert m in ViewOf(t, GetId(r)).value.methods;
  }

  lemma PasswordIsMissing()
    ensures "password" !in NEW_METHODS
  {
    assert |"password"| == 8 && |"digest"| == 6;
  }

  lemma OldMethodStays(t': Tables)
    requires StoredAgain(TWO_SHARE, EDITED, t')
    ensures ViewOf(t', 1).value.methods != AsSets(NEW_METHODS)
  {
    SharedRowsStay();
    PasswordIsMissing();
    assert RawMethods(EDITED) == Some(NEW_METHODS);
    MissingMethodStays(TWO_SHARE, EDITED, t', "password");
  }

  /** One identity with a realm and a method. */
  const LONE := Tables(map[1 := ROW], 2, Names(map["password" := 1], 2), Names(map[], 1),
                       Names(map[FIRST := 1, SHARED := 2], 3), [RealmRow(1, "example.org")],
                       {AclRow(1, Some(1), None, Some(2))}, {}, {OwnerRow(1, Some(1))})

  /** Its record with no realm left. */
  const NO_REALMS := Record(None, None, {Realms},
                            map[KId := VNat(1), KOwner := VCtx(FIRST), KAcl := VCtxs([SHARED]), KRealms := VStrs([])])

  /** Its record with one method in place of the other. */
  const OTHER_METHOD := Record(None, None, {Methods},
                               map[KId := VNat(1), KOwner := VCtx(FIRST), KAcl := VCtxs([SHARED]),
                                   KAuthMethods := VMethods(NEW_METHODS)])

  lemma LoneIsWf()
    ensures Wf(LONE) && RealmsOf(LONE.realms, 1) == ["example.org"] && "password" in MethodsOf(LONE, 1)
  {
    var t := LONE;
    assert FIRST.sys != SHARED.sys by { assert |FIRST.sys| == 4 && |SHARED.sys| == 7; }
    assert t.secctx.ids[FIRST] == 1 && t.secctx.ids[SHARED] == 2 && t.methods.ids["password"] == 1;
    assert {1, 2} <= t.secctx.ids.Values && 1 in t.methods.ids.Values;
    assert LONE.realms[1..] == [];
    assert AclRow(1, Some(1), None, Some(2)) in AclOf(t, 1);
  }

  /** The update accepts it and leaves the realm. */
  lemma EmptiedRealmsStay(t': Tables)
    ensures Wf(LONE) && Live(LONE, NO_REALMS) && Accepted(LONE, NO_REALMS, true, true)
    ensures Stored(LONE, NO_REALMS, t', 1) ==> ViewOf(t', 1).value.realms != ItemsOf(GetRealms(NO_REALMS))
  {
    LoneIsWf();
    assert Sort(StrLeq, []) == [];
    assert GetRealms(NO_REALMS) == Some([]);
    if Stored(LONE, NO_REALMS, t', 1) { RealmsReplacedIff(LONE, NO_REALMS, t'); }
  }

  /** The update accepts it and leaves the other method, with nothing shared. */
  lemma MethodsAloneAreMerged(t': Tables)
    ensures Wf(LONE) && Live(LONE, OTHER_METHOD) && Accepted(LONE, OTHER_METHOD, true, true)
    ensures Stored(LONE, OTHER_METHOD, t', 1) ==> ViewOf(t', 1).value.methods != AsSets(NEW_METHODS)
  {
    LoneIsWf();
    assert RawMethods(OTHER_METHOD) == Some(NEW_METHODS);
    if Stored(LONE, OTHER_METHOD, t', 1) { OldMethodOfLoneStays(t'); }
  }

  lemma OldMethodOfLoneStays(t': Tables)
    requires StoredAgain(LONE, OTHER_METHOD, t')
    ensures ViewOf(t', 1).value.methods != AsSets(NEW_METHODS)
  {
    LoneIsWf();
    PasswordIsMissing();
    assert RawMethods(OTHER_METHOD) == Some(NEW_METHODS);
    MissingMethodStays(LONE, OTHER_METHOD, t', "password");
  }

  /** When no flag is set since the record was stored, its fields are the stored ones. */
  lemma SkippedUpdateLosesNothing(base: Record, ops: seq<Op>)
    requires forall i :: 0 <= i < |ops| ==> !ops[i].OpReset?
    requires Run(base, ops).edits == {}
    ensures FieldsOf(Run(base, ops)) == FieldsOf(base) && RowFor(Run(base, ops)) == RowFor(base)
  {
    var r := Run(base, ops);
    ClearFlagMeansUnchanged(base, ops);
    NoReset(base, ops);
    assert forall p: Prop :: Read(p, r) == Read(p, base);
    SameReadingsSameFields(r, base);
  }

  /** A record built from a new one meets what the round trip of a new identity asks of its flags. */
  lemma NewRecordsAreClean(ops: seq<Op>)
    requires forall i :: 0 <= i < |ops| ==> !ops[i].OpReset?
    ensures Clean(Run(EMPTY, ops), EMPTY)
  {
    ClearFlagMeansUnchanged(EMPTY, ops);
    NoReset(EMPTY, ops);
  }

  lemma SameReadingsSameFields(a: Record, b: Record)
    requires forall p: Prop :: Read(p, a) == Read(p, b)
    ensures FieldsOf(a) == FieldsOf(b) && RowFor(a) == RowFor(b)
  {
    assert Read(Id, a) == Read(Id, b) && Read(Type, a) == Read(Type, b) && Read(Caption, a) == Read(Caption, b);
    assert Read(Username, a) == Read(Username, b) && Read(Secret, a) == Read(Secret, b);
    assert Read(StoreSecret, a) == Read(StoreSecret, b) && Read(Validated, a) == Read(Validated, b);
    assert Read(UsernameIsSecret, a) == Read(UsernameIsSecret, b) && Read(Owner, a) == Read(Owner, b);
    assert Read(Acl, a) == Read(Acl, b) && Read(Methods, a) == Read(Methods, b);
    assert Read(Realms, a) == Read(Realms, b);
  }
}
