/**
 The whole of update_identity as a change of views: what an update of a new or
 a stored identity leaves to be read.
 */
module MetadataUpdate {
  import opened Ordering
  import opened IdentityRecord
  import opened MetadataTables
  import opened MetadataStore
  import opened MetadataProduct

  function RealmsToWrite(r: Record): seq<string> {
    if Realms in r.edits && GetRealms(r).Some? then GetRealms(r).value else []
  }

  /** The ACL rows are written only when the record has a methods map. */
  predicate WritesRows(r: Record) {
    (Acl in r.edits || Methods in r.edits) && GetMethods(r).Some?
  }

  function MethodsIn(r: Record): MethodMap {
    if GetMethods(r).Some? then GetMethods(r).value else map[]
  }

  // -------------------------------------------------- the steps, in groups

  function AfterRealms(t: Tables, r: Record): Tables {
    var t1 := WriteIdentityRow(t, r);
    if RealmsToWrite(r) != [] then WriteRealms(t1, TargetId(t, r), IsNew(r), RealmsToWrite(r)) else t1
  }

  function OwnerNamed(t: Tables, owner: Ctx): Tables {
    if owner.sys != "" then t.(secctx := InsertName(t.secctx, owner)) else t
  }

  function AfterOwner(t: Tables, id: nat, r: Record): Tables {
    if Owner in r.edits && GetOwner(r).Some? then
      var owner := GetOwner(r).value;
      InsertOwnerRow(OwnerNamed(if IsNew(r) then t else DeleteOwners(t, id), owner), id, owner)
    else t
  }

  function AfterAclDelete(t: Tables, id: nat, r: Record): Tables {
    if Acl in r.edits && !IsNew(r) then DeleteAcl(t, id) else t
  }

  function AfterRows(t: Tables, id: nat, r: Record): Tables {
    if WritesRows(r) then InsertProduct(t, id, MethodsIn(r), GetAcl(r)) else t
  }

  // The names that the edited fields of a record bring.
  function EditedContexts(r: Record): set<Ctx> { if Acl in r.edits then Elements(GetAcl(r)) else {} }
  function EditedMethods(r: Record): set<string> { if Methods in r.edits then MethodsIn(r).Keys else {} }
  function EditedMechanisms(r: Record): set<string> {
    if Methods in r.edits then MechanismNames(MethodsIn(r)) else {}
  }

  function MechanismNames(ms: MethodMap): set<string> { set m, k | m in ms && k in ms[m] :: k }

  /** From a to b exactly the names of the edited fields were added. */
  ghost predicate NamesAdded(a: Tables, b: Tables, r: Record) {
    && Grows(a, b)
    && b.secctx.ids.Keys == a.secctx.ids.Keys + EditedContexts(r)
    && b.methods.ids.Keys == a.methods.ids.Keys + EditedMethods(r)
    && b.mechanisms.ids.Keys == a.mechanisms.ids.Keys + EditedMechanisms(r)
  }

  // ------------------------------------------------------ what it all means

  function OwnersAfter(t: Tables, id: nat, r: Record): set<Ctx> {
    var owners := ViewOrEmpty(t, id).owners;
    if Owner in r.edits && GetOwner(r).Some? then
      var owner := GetOwner(r).value;
      (if OwnerDeleteAborts(t, id) then owners else {}) +
      (if owner.sys != "" || owner in (if IsNew(r) then t else DeleteOwners(t, id)).secctx.ids then {owner} else {})
    else owners
  }

  /** The OWNER rows when the old ACL rows are deleted. */
  function OwnerRowsAfter(t: Tables, id: nat, r: Record): set<OwnerRow> {
    AfterOwner(AfterRealms(t, r), id, r).owners
  }

  /** The view of the stored identity after a successful update from t to t'. */
  function UpdatedView(t: Tables, id: nat, r: Record, t': Tables): View {
    var v := ViewOrEmpty(t, id);
    var cleared := Acl in r.edits && !AclDeleteAborts(t, OwnerRowsAfter(t, id, r), id);
    var ctxs := if cleared then {} else v.ctxs;
    var methods := if cleared then map[] else v.methods;
    View(RowFor(r),
         if RealmsToWrite(r) != [] then RealmsToWrite(r) else v.realms,
         if WritesRows(r) then ctxs + Known(GetAcl(r), t'.secctx) else ctxs,
         OwnersAfter(t, id, r),
         if WritesRows(r) then MergeMethods(methods, KnownMethods(MethodsIn(r), t')) else methods)
  }

  /** The contexts that the owner's delete takes out, those that its new row brings, and those of the list's delete. */
  function OwnerOrphans(t: Tables, id: nat, r: Record): set<Ctx> {
    if Owner in r.edits && GetOwner(r).Some? && !IsNew(r) && !OwnerDeleteAborts(t, id) then
      CtxsNamed(t, OwnerContexts(OwnersOf(t, id)) - RefContexts(t) - AclContexts(t.acl))
    else {}
  }

  function OwnerNames(r: Record): set<Ctx> {
    if Owner in r.edits && GetOwner(r).Some? && GetOwner(r).value.sys != "" then {GetOwner(r).value} else {}
  }

  function AclOrphans(t: Tables, id: nat, r: Record): set<Ctx> {
    var owners := OwnerRowsAfter(t, id, r);
    if Acl in r.edits && !IsNew(r) && !AclDeleteAborts(t, owners, id) then
      CtxsNamed(t, AclContexts(AclOf(t, id)) - RefContexts(t) - OwnerContexts(owners))
    else {}
  }

  /** The rows of SECCTX after the update. */
  function ContextsAfter(t: Tables, id: nat, r: Record): set<Ctx> {
    (t.secctx.ids.Keys - OwnerOrphans(t, id, r) + OwnerNames(r)) - AclOrphans(t, id, r) + EditedContexts(r)
  }

  /** What a successful update of a new or stored identity does to the tables. */
  ghost predicate Stored(t: Tables, r: Record, t': Tables, id: nat) {
    && Wf(t') && id == TargetId(t, r)
    && t'.identity.Keys == t.identity.Keys + {id}
    && t'.nextIdentity == (if IsNew(r) then t.nextIdentity + 1 else t.nextIdentity)
    && t'.refs == t.refs
    && KeepsNames(t.methods, t'.methods) && KeepsNames(t.mechanisms, t'.mechanisms)
    && t'.methods.ids.Keys == t.methods.ids.Keys + EditedMethods(r)
    && t'.mechanisms.ids.Keys == t.mechanisms.ids.Keys + EditedMechanisms(r)
    && t'.secctx.ids.Keys == ContextsAfter(t, id, r)
    && ViewOf(t', id) == Some(UpdatedView(t, id, r, t'))
    && forall y :: y != id ==> ViewOf(t', y) == ViewOf(t, y)
  }

  lemma RealmsGroup(t: Tables, r: Record)
    requires Wf(t) && (IsNew(r) || GetId(r) in t.identity)
    ensures var t', id := AfterRealms(t, r), TargetId(t, r);
            var v := ViewOrEmpty(t, id);
            && Wf(t') && t'.identity.Keys == t.identity.Keys + {id}
            && t' == t.(identity := t'.identity, nextIdentity := t'.nextIdentity, realms := t'.realms)
            && ViewOf(t', id) == Some(v.(row := RowFor(r),
                 realms := if RealmsToWrite(r) != [] then RealmsToWrite(r) else v.realms))
            && forall y :: y != id ==> ViewOf(t', y) == ViewOf(t, y)
  {
    IdentityRowEffect(t, r);
    if RealmsToWrite(r) != [] {
      RealmsEffect(WriteIdentityRow(t, r), TargetId(t, r), IsNew(r), RealmsToWrite(r));
    }
  }

  lemma NamingIsGrowth(t: Tables, c: Ctx)
    requires Wf(t)
    ensures Grows(t, t.(secctx := InsertName(t.secctx, c)))
  {
    InsertNameIsWf(t.secctx, c);
  }

  lemma OwnerRowsCleared(t: Tables, id: nat)
    requires Wf(t) && id in t.identity
    ensures var t' := DeleteOwners(t, id);
            var v := ViewOf(t, id).value;
            && Wf(t') && t' == t.(secctx := t'.secctx, owners := t'.owners)
            && ViewOf(t', id) == Some(v.(owners := if OwnerDeleteAborts(t, id) then v.owners else {}))
            && forall y :: y != id ==> ViewOf(t', y) == ViewOf(t, y)
  {
    OwnerDeleteOutcome(t, id);
    if ContextsIntact(RemoveOwners(t, id)) { RemoveOwnersEffect(t, id); }
  }

  lemma OwnerWritten(t: Tables, id: nat, owner: Ctx)
    requires Wf(t) && id in t.identity
    ensures var t' := InsertOwnerRow(OwnerNamed(t, owner), id, owner);
            var v := ViewOf(t, id).value;
            && Wf(t') && t' == t.(secctx := t'.secctx, owners := t'.owners)
            && ViewOf(t', id) == Some(v.(owners := v.owners +
                 (if owner.sys != "" || owner in t.secctx.ids then {owner} else {})))
            && forall y :: y != id ==> ViewOf(t', y) == ViewOf(t, y)
  {
    if owner.sys != "" {
      NamingIsGrowth(t, owner);
      GrowsEffect(t, OwnerNamed(t, owner));
    }
    OwnerRowEffect(OwnerNamed(t, owner), id, owner);
    assert ViewOf(t, id).value.owners + {} == ViewOf(t, id).value.owners;
  }

  lemma OwnerGroup(t: Tables, id: nat, r: Record)
    requires Wf(t) && id in t.identity
    requires IsNew(r) ==> OwnersOf(t, id) == {}
    ensures var t' := AfterOwner(t, id, r);
            && Wf(t') && t' == t.(secctx := t'.secctx, owners := t'.owners)
            && ViewOf(t', id) == Some(ViewOf(t, id).value.(owners := OwnersAfter(t, id, r)))
            && forall y :: y != id ==> ViewOf(t', y) == ViewOf(t, y)
  {
    if Owner in r.edits && GetOwner(r).Some? {
      if IsNew(r) {
        NoRowsNoNames(t, id);
        OwnerWritten(t, id, GetOwner(r).value);
      } else {
        OwnerRowsCleared(t, id);
        OwnerWritten(DeleteOwners(t, id), id, GetOwner(r).value);
      }
    }
  }

  lemma AclGroup(t: Tables, id: nat, r: Record)
    requires Wf(t) && id in t.identity
    requires IsNew(r) ==> AclOf(t, id) == {}
    ensures var t' := AfterAclDelete(t, id, r);
            var v := ViewOf(t, id).value;
            var cleared := Acl in r.edits && !AclDeleteAborts(t, t.owners, id);
            && Wf(t') && t' == t.(secctx := t'.secctx, acl := t'.acl)
            && ViewOf(t', id) == Some(v.(ctxs := if cleared then {} else v.ctxs,
                                         methods := if cleared then map[] else v.methods))
            && forall y :: y != id ==> ViewOf(t', y) == ViewOf(t, y)
  {
    if Acl in r.edits {
      if IsNew(r) {
        NoRowsNoNames(t, id);
      } else {
        AclDeleteOutcome(t, id);
        if ContextsIntact(RemoveAcl(t, id)) { RemoveAclEffect(t, id); }
      }
    }
  }

  lemma RowsGroup(a: Tables, b: Tables, id: nat, r: Record)
    requires Wf(a) && id in a.identity && NamesAdded(a, b, r) && GetAcl(r) != []
    ensures var t' := AfterRows(b, id, r);
            var v := ViewOf(a, id).value;
            && Wf(t') && t' == b.(acl := t'.acl)
            && ViewOf(t', id) == Some(v.(
                 ctxs := if WritesRows(r) then v.ctxs + Known(GetAcl(r), b.secctx) else v.ctxs,
                 methods := if WritesRows(r) then MergeMethods(v.methods, KnownMethods(MethodsIn(r), b))
                            else v.methods))
            && forall y :: y != id ==> ViewOf(t', y) == ViewOf(a, y)
  {
    GrowsEffect(a, b);
    if WritesRows(r) {
      ProductEffect(b, id, MethodsIn(r), GetAcl(r));
    }
  }

  lemma OwnersAfterDependsOnRows(t: Tables, t1: Tables, id: nat, r: Record)
    requires t1 == t.(identity := t1.identity, nextIdentity := t1.nextIdentity, realms := t1.realms)
    requires ViewOrEmpty(t1, id).owners == ViewOrEmpty(t, id).owners
    ensures OwnersAfter(t1, id, r) == OwnersAfter(t, id, r)
  {
    assert OwnersOf(t1, id) == OwnersOf(t, id);
    assert RefContexts(t1) == RefContexts(t);
    assert DeleteOwners(t1, id).secctx == DeleteOwners(t, id).secctx;
  }

  lemma FreshIdHasNoRows(t: Tables)
    requires Wf(t)
    ensures AclOf(t, t.nextIdentity) == {} && OwnersOf(t, t.nextIdentity) == {}
  {
  }

  lemma AbortDependsOnRows(t: Tables, t1: Tables, owners: set<OwnerRow>, id: nat)
    requires t1.acl == t.acl && t1.refs == t.refs
    ensures AclDeleteAborts(t1, owners, id) <==> AclDeleteAborts(t, owners, id)
  {
    assert AclOf(t1, id) == AclOf(t, id);
    assert RefContexts(t1) == RefContexts(t);
  }

  /** The statements up to the OWNER row. */
  lemma FirstSteps(t: Tables, r: Record)
    requires Wf(t) && (IsNew(r) || GetId(r) in t.identity)
    ensures var id := TargetId(t, r);
            var t' := AfterOwner(AfterRealms(t, r), id, r);
            var v := ViewOrEmpty(t, id);
            && Wf(t') && t'.identity.Keys == t.identity.Keys + {id}
            && t'.acl == t.acl && t'.refs == t.refs && AclOf(t', id) == AclOf(t, id)
            && t'.methods == t.methods && t'.mechanisms == t.mechanisms
            && t'.nextIdentity == (if IsNew(r) then t.nextIdentity + 1 else t.nextIdentity)
            && ViewOf(t', id) == Some(v.(row := RowFor(r), owners := OwnersAfter(t, id, r),
                 realms := if RealmsToWrite(r) != [] then RealmsToWrite(r) else v.realms))
            && forall y :: y != id ==> ViewOf(t', y) == ViewOf(t, y)
  {
    var id := TargetId(t, r);
    var t1 := AfterRealms(t, r);
    FreshIdHasNoRows(t);
    RealmsGroup(t, r);
    assert OwnersOf(t1, id) == OwnersOf(t, id);
    OwnerGroup(t1, id, r);
    var t2 := AfterOwner(t1, id, r);
    assert AclOf(t2, id) == AclOf(t, id);
    OwnersAfterDependsOnRows(t, t1, id, r);
  }

  /** The statements after it. */
  lemma LastSteps(t: Tables, id: nat, r: Record, named: Tables)
    requires Wf(t) && id in t.identity && GetAcl(r) != []
    requires IsNew(r) ==> AclOf(t, id) == {}
    requires NamesAdded(AfterAclDelete(t, id, r), named, r)
    ensures var t' := AfterRows(named, id, r);
            var v := ViewOf(t, id).value;
            var cleared := Acl in r.edits && !AclDeleteAborts(t, t.owners, id);
            var ctxs := if cleared then {} else v.ctxs;
            var methods := if cleared then map[] else v.methods;
            && Wf(t') && t' == named.(acl := t'.acl)
            && t'.identity == t.identity && t'.nextIdentity == t.nextIdentity && t'.refs == t.refs
            && t'.owners == t.owners && KeepsNames(t.methods, t'.methods) && KeepsNames(t.mechanisms, t'.mechanisms)
            && ViewOf(t', id) == Some(v.(
                 ctxs := if WritesRows(r) then ctxs + Known(GetAcl(r), named.secctx) else ctxs,
                 methods := if WritesRows(r) then MergeMethods(methods, KnownMethods(MethodsIn(r), named))
                            else methods))
            && forall y :: y != id ==> ViewOf(t', y) == ViewOf(t, y)
  {
    AclGroup(t, id, r);
    RowsGroup(AfterAclDelete(t, id, r), named, id, r);
  }

  lemma KnownDependsOnNames(named: Tables, t': Tables, ms: MethodMap)
    requires t' == named.(acl := t'.acl)
    ensures KnownMethods(ms, t') == KnownMethods(ms, named)
  {
  }

  // --------------------------------------------------- the rows of SECCTX

  lemma DroppedKeys<T(!new)>(n: Names<T>, doomed: set<nat>)
    ensures DropNames(n, doomed).ids.Keys == n.ids.Keys - set x | x in n.ids && n.ids[x] in doomed
  {
  }

  lemma OwnerDeleteKeys(t: Tables, id: nat)
    requires Wf(t)
    ensures var orphans := CtxsNamed(t, OwnerContexts(OwnersOf(t, id)) - RefContexts(t) - AclContexts(t.acl));
            DeleteOwners(t, id).secctx.ids.Keys ==
            t.secctx.ids.Keys - if OwnerDeleteAborts(t, id) then {} else orphans
  {
    OwnerDeleteOutcome(t, id);
    DroppedKeys(t.secctx, OwnerContexts(OwnersOf(t, id)) - RefContexts(t) - AclContexts(t.acl));
    assert t.secctx.ids.Keys - {} == t.secctx.ids.Keys;
  }

  lemma AclDeleteKeys(t: Tables, id: nat)
    requires Wf(t)
    ensures var orphans := CtxsNamed(t, AclContexts(AclOf(t, id)) - RefContexts(t) - OwnerContexts(t.owners));
            DeleteAcl(t, id).secctx.ids.Keys ==
            t.secctx.ids.Keys - if AclDeleteAborts(t, t.owners, id) then {} else orphans
  {
    AclDeleteOutcome(t, id);
    DroppedKeys(t.secctx, AclContexts(AclOf(t, id)) - RefContexts(t) - OwnerContexts(t.owners));
    assert t.secctx.ids.Keys - {} == t.secctx.ids.Keys;
  }

  lemma OwnerDeleteKeepsListed(t: Tables, id: nat)
    ensures forall c :: c in t.secctx.ids && t.secctx.ids[c] in AclContexts(t.acl) ==>
              c in DeleteOwners(t, id).secctx.ids && DeleteOwners(t, id).secctx.ids[c] == t.secctx.ids[c]
    ensures DeleteOwners(t, id).acl == t.acl && DeleteOwners(t, id).secctx.next == t.secctx.next
  {
  }

  /** The OWNER statements: which contexts there are after them, and that those in ACL rows keep their ids. */
  lemma OwnerStepKeys(t: Tables, id: nat, r: Record)
    requires Wf(t)
    ensures var t' := AfterOwner(t, id, r);
            && t'.secctx.ids.Keys == t.secctx.ids.Keys - OwnerOrphans(t, id, r) + OwnerNames(r)
            && forall c :: c in t.secctx.ids && t.secctx.ids[c] in AclContexts(t.acl) ==>
                 c in t'.secctx.ids && t'.secctx.ids[c] == t.secctx.ids[c]
  {
    OwnerDeleteKeys(t, id);
    OwnerDeleteKeepsListed(t, id);
    assert t.secctx.ids.Keys - {} == t.secctx.ids.Keys;
    if Owner in r.edits && GetOwner(r).Some? {
      var t1 := if IsNew(r) then t else DeleteOwners(t, id);
      assert t1.secctx.ids.Keys == t.secctx.ids.Keys - OwnerOrphans(t, id, r);
    }
  }

  /** Names that ACL rows use are the same before and after statements that keep their ids. */
  lemma SameOrphans(t: Tables, t': Tables, ids: set<nat>)
    requires WfNames(t.secctx) && WfNames(t'.secctx) && ContextsIntact(t) && ids <= AclContexts(t.acl)
    requires forall c :: c in t.secctx.ids && t.secctx.ids[c] in AclContexts(t.acl) ==>
               c in t'.secctx.ids && t'.secctx.ids[c] == t.secctx.ids[c]
    ensures CtxsNamed(t', ids) == CtxsNamed(t, ids)
  {
    forall i | i in ids ensures i in t.secctx.ids.Values {
      var row :| row in t.acl && row.ctx == Some(i);
      assert Refers(row.ctx, t.secctx);
    }
    SameContexts(t, t', ids);
  }

  /** The statements from the OWNER row on, over tables whose other rows are those of t. */
  lemma StepKeys(t: Tables, t1: Tables, id: nat, r: Record, named: Tables)
    requires Wf(t1) && WfNames(t.secctx) && ContextsIntact(t) && Wf(AfterOwner(t1, id, r))
    requires NamesAdded(AfterAclDelete(AfterOwner(t1, id, r), id, r), named, r)
    requires t1 == t.(identity := t1.identity, nextIdentity := t1.nextIdentity, realms := t1.realms)
    requires AfterOwner(t1, id, r).acl == t1.acl && AfterOwner(t1, id, r).refs == t1.refs
    requires AfterOwner(t1, id, r).owners == OwnerRowsAfter(t, id, r)
    ensures named.secctx.ids.Keys == ContextsAfter(t, id, r)
  {
    OwnerStepKeys(t1, id, r);
    OrphansOfRows(t, t1, id, r);
    AclStepKeys(t, AfterOwner(t1, id, r), id, r);
  }

  lemma AclStepKeys(t: Tables, t2: Tables, id: nat, r: Record)
    requires WfNames(t.secctx) && ContextsIntact(t) && Wf(t2)
    requires t2.acl == t.acl && t2.refs == t.refs && t2.owners == OwnerRowsAfter(t, id, r)
    requires forall c :: c in t.secctx.ids && t.secctx.ids[c] in AclContexts(t.acl) ==>
               c in t2.secctx.ids && t2.secctx.ids[c] == t.secctx.ids[c]
    ensures AfterAclDelete(t2, id, r).secctx.ids.Keys == t2.secctx.ids.Keys - AclOrphans(t, id, r)
  {
    AclDeleteKeys(t2, id);
    SameRowsNamed(t, t2, id);
    var doomed := AclContexts(AclOf(t, id)) - RefContexts(t) - OwnerContexts(t2.owners);
    SameOrphans(t, t2, doomed);
    AbortDependsOnRows(t, t2, t2.owners, id);
    assert t2.secctx.ids.Keys - {} == t2.secctx.ids.Keys;
  }

  /** The names after all statements. */
  lemma NamesMeanStored(t: Tables, r: Record, named: Tables)
    requires Wf(t) && (IsNew(r) || GetId(r) in t.identity)
    requires var id := TargetId(t, r);
             NamesAdded(AfterAclDelete(AfterOwner(AfterRealms(t, r), id, r), id, r), named, r)
    ensures named.secctx.ids.Keys == ContextsAfter(t, TargetId(t, r), r)
    ensures named.methods.ids.Keys == t.methods.ids.Keys + EditedMethods(r)
    ensures named.mechanisms.ids.Keys == t.mechanisms.ids.Keys + EditedMechanisms(r)
  {
    var id := TargetId(t, r);
    RealmsGroup(t, r);
    FirstSteps(t, r);
    StepKeys(t, AfterRealms(t, r), id, r, named);
  }

  lemma SameRowsNamed(t: Tables, t2: Tables, id: nat)
    requires t2.acl == t.acl && t2.refs == t.refs
    ensures AclOf(t2, id) == AclOf(t, id) && RefContexts(t2) == RefContexts(t)
  {
  }

  lemma OrphansOfRows(t: Tables, t1: Tables, id: nat, r: Record)
    requires t1 == t.(identity := t1.identity, nextIdentity := t1.nextIdentity, realms := t1.realms)
    ensures OwnerOrphans(t1, id, r) == OwnerOrphans(t, id, r)
  {
    assert OwnersOf(t1, id) == OwnersOf(t, id) && RefContexts(t1) == RefContexts(t);
    forall ids ensures CtxsNamed(t1, ids) == CtxsNamed(t, ids) {}
  }

  /** The steps in order have the meaning that Stored gives. */
  lemma StepsMeanStored(t: Tables, r: Record, named: Tables)
    requires Wf(t) && (IsNew(r) || GetId(r) in t.identity) && GetAcl(r) != []
    requires var id := TargetId(t, r);
             NamesAdded(AfterAclDelete(AfterOwner(AfterRealms(t, r), id, r), id, r), named, r)
    ensures Stored(t, r, AfterRows(named, TargetId(t, r), r), TargetId(t, r))
  {
    var id := TargetId(t, r);
    FreshIdHasNoRows(t);
    FirstSteps(t, r);
    var t2 := AfterOwner(AfterRealms(t, r), id, r);
    LastSteps(t2, id, r, named);
    var t' := AfterRows(named, id, r);
    AbortDependsOnRows(t, t2, OwnerRowsAfter(t, id, r), id);
    KnownDependsOnNames(named, t', MethodsIn(r));
    NamesMeanStored(t, r, named);
    assert ViewOf(t', id).value.ctxs == UpdatedView(t, id, r, t').ctxs;
    assert ViewOf(t', id).value.methods == UpdatedView(t, id, r, t').methods;
  }
}
