/**
 What storing an identity record means for what can be read back: the effect of
 each group of statements of gsignond_db_metadata_database_update_identity on
 the view of the stored identity, and on every other identity.
 */
module MetadataStore {
  import opened Ordering
  import opened IdentityRecord
  import opened MetadataTables

  // ------------------------------------------------------ the IDENTITY row

  /** The row that _update_credentials writes. */
  function RowFor(r: Record): IdentityRow {
    IdentityRow(
      if GetCaption(r).Some? then GetCaption(r).value else "",
      if !GetUsernameIsSecret(r) && r.username.Some? then r.username.value else "",
      GetUsernameIsSecret(r), GetStoreSecret(r), GetValidated(r), GetType(r))
  }

  function TargetId(t: Tables, r: Record): nat {
    if IsNew(r) then t.nextIdentity else GetId(r)
  }

  /** INSERT of a new identity, or UPDATE of the row with its id, if there is one. */
  function WriteIdentityRow(t: Tables, r: Record): Tables {
    if IsNew(r) then t.(identity := t.identity[t.nextIdentity := RowFor(r)], nextIdentity := t.nextIdentity + 1)
    else if GetId(r) in t.identity then t.(identity := t.identity[GetId(r) := RowFor(r)])
    else t
  }

  const NO_VIEW := View(IdentityRow("", "", false, false, false, 0), [], {}, {}, map[])

  function ViewOrEmpty(t: Tables, id: nat): View {
    if id in t.identity then ViewOf(t, id).value else NO_VIEW
  }

  lemma IdentityRowEffect(t: Tables, r: Record)
    requires Wf(t) && (IsNew(r) || GetId(r) in t.identity)
    ensures var t', id := WriteIdentityRow(t, r), TargetId(t, r);
            && Wf(t') && t'.identity.Keys == t.identity.Keys + {id}
            && ViewOf(t', id) == Some(ViewOrEmpty(t, id).(row := RowFor(r)))
            && forall y :: y != id ==> ViewOf(t', y) == ViewOf(t, y)
  {
    var t', id := WriteIdentityRow(t, r), TargetId(t, r);
    if IsNew(r) {
      assert AclOf(t', id) == {} && OwnersOf(t', id) == {};
      FreshRealms(t.realms, id);
      NoRowsNoNames(t', id);
    }
    forall y { SameRows(t, t', y); }
  }

  lemma NoRowsNoNames(t: Tables, id: nat)
    ensures AclOf(t, id) == {} ==> CtxsOf(t, id) == {} && MethodsOf(t, id) == map[]
    ensures OwnersOf(t, id) == {} ==> OwnerCtxsOf(t, id) == {}
  {
  }

  lemma SameRows(t: Tables, t': Tables, y: nat)
    requires t' == t.(identity := t'.identity, nextIdentity := t'.nextIdentity)
    ensures CtxsOf(t', y) == CtxsOf(t, y) && OwnerCtxsOf(t', y) == OwnerCtxsOf(t, y)
    ensures MethodsOf(t', y) == MethodsOf(t, y)
  {
    assert AclOf(t', y) == AclOf(t, y) && OwnersOf(t', y) == OwnersOf(t, y);
    forall m | m in t.methods.ids ensures MechsOf(t', y, m) == MechsOf(t, y, m) {}
  }

  lemma {:induction false} FreshRealms(rows: seq<RealmRow>, id: nat)
    requires forall i :: 0 <= i < |rows| ==> rows[i].identity != id
    ensures RealmsOf(rows, id) == []
  {
    if rows == [] {
    } else {
      FreshRealms(rows[1..], id);
    }
  }

  // ----------------------------------------------------------------- realms

  function RealmRows(id: nat, realms: seq<string>): seq<RealmRow> {
    seq(|realms|, i requires 0 <= i < |realms| => RealmRow(id, realms[i]))
  }

  function WriteRealms(t: Tables, id: nat, isNew: bool, realms: seq<string>): Tables {
    t.(realms := (if isNew then t.realms else RealmRowsWithout(t.realms, id)) + RealmRows(id, realms))
  }

  lemma {:induction false} RealmsOfRows(id: nat, realms: seq<string>, y: nat)
    ensures RealmsOf(RealmRows(id, realms), y) == if y == id then realms else []
  {
    if realms == [] {
    } else {
      assert RealmRows(id, realms)[1..] == RealmRows(id, realms[1..]);
      RealmsOfRows(id, realms[1..], y);
    }
  }

  lemma RealmsEffect(t: Tables, id: nat, isNew: bool, realms: seq<string>)
    requires Wf(t) && id in t.identity
    requires isNew ==> ViewOf(t, id).value.realms == []
    ensures var t' := WriteRealms(t, id, isNew, realms);
            && Wf(t') && t'.identity == t.identity
            && ViewOf(t', id) == Some(ViewOf(t, id).value.(realms := realms))
            && forall y :: y != id ==> ViewOf(t', y) == ViewOf(t, y)
  {
    var t' := WriteRealms(t, id, isNew, realms);
    forall y
      ensures RealmsOf(t'.realms, y) == if y == id then realms else RealmsOf(t.realms, y)
      ensures CtxsOf(t', y) == CtxsOf(t, y) && OwnerCtxsOf(t', y) == OwnerCtxsOf(t, y)
      ensures MethodsOf(t', y) == MethodsOf(t, y)
    {
      RealmsWritten(t, id, isNew, realms, y);
      assert AclOf(t', y) == AclOf(t, y) && OwnersOf(t', y) == OwnersOf(t, y);
      forall m | m in t.methods.ids ensures MechsOf(t', y, m) == MechsOf(t, y, m) {}
    }
    RealmsHaveParents(t, id, isNew, realms);
  }

  lemma RealmsWritten(t: Tables, id: nat, isNew: bool, realms: seq<string>, y: nat)
    requires isNew ==> RealmsOf(t.realms, id) == []
    ensures RealmsOf(WriteRealms(t, id, isNew, realms).realms, y) == if y == id then realms else RealmsOf(t.realms, y)
  {
    RealmsWithout(t.realms, id, y);
    RealmsOfConcat(if isNew then t.realms else RealmRowsWithout(t.realms, id), RealmRows(id, realms), y);
    RealmsOfRows(id, realms, y);
  }

  lemma RealmsHaveParents(t: Tables, id: nat, isNew: bool, realms: seq<string>)
    requires Wf(t) && id in t.identity
    ensures var rows := WriteRealms(t, id, isNew, realms).realms;
            forall i :: 0 <= i < |rows| ==> rows[i].identity in t.identity
  {
    var base := if isNew then t.realms else RealmRowsWithout(t.realms, id);
    RealmsWithout(t.realms, id, id);
    forall i | 0 <= i < |base| ensures base[i].identity in t.identity {
      assert base[i] in t.realms;
    }
  }

  // ----------------------------------------------- deletes that may be undone

  /** DELETE FROM ACL deletes a context that another identity's ACL row still names. */
  predicate AclDeleteAborts(t: Tables, owners: set<OwnerRow>, id: nat) {
    exists c :: c in AclContexts(AclOf(t, id)) && c in AclContexts(t.acl - AclOf(t, id)) &&
                c !in RefContexts(t) && c !in OwnerContexts(owners)
  }

  /** DELETE FROM OWNER deletes a context that another identity's OWNER row still names. */
  predicate OwnerDeleteAborts(t: Tables, id: nat) {
    exists c :: c in OwnerContexts(OwnersOf(t, id)) && c in OwnerContexts(t.owners - OwnersOf(t, id)) &&
                c !in RefContexts(t) && c !in AclContexts(t.acl)
  }

  /** In terms of the rows: another's ACL row shares the context of one, and no reference and no owner has it. */
  lemma AclDeleteAbortsIff(t: Tables, id: nat)
    ensures AclDeleteAborts(t, t.owners, id) <==>
            exists own, other :: own in t.acl && own.identity == id && other in t.acl && other.identity != id
              && own.ctx.Some? && other.ctx == own.ctx
              && (forall r :: r in t.refs ==> r.ctx != own.ctx.value)
              && (forall r :: r in t.owners ==> r.ctx != own.ctx)
  {
    if AclDeleteAborts(t, t.owners, id) {
      var c :| c in AclContexts(AclOf(t, id)) && c in AclContexts(t.acl - AclOf(t, id)) &&
               c !in RefContexts(t) && c !in OwnerContexts(t.owners);
      var own :| own in AclOf(t, id) && own.ctx == Some(c);
      var other :| other in t.acl - AclOf(t, id) && other.ctx == Some(c);
      assert forall r :: r in t.refs ==> r.ctx in RefContexts(t);
      assert forall r :: r in t.owners && r.ctx.Some? ==> r.ctx.value in OwnerContexts(t.owners);
    }
    var mine, rest := AclOf(t, id), t.acl - AclOf(t, id);
    forall own, other | own in mine && other in rest && own.ctx.Some? && other.ctx == own.ctx
      ensures own.ctx.value in AclContexts(mine) && own.ctx.value in AclContexts(rest)
    {
    }
  }

  lemma OwnerDeleteAbortsIff(t: Tables, id: nat)
    ensures OwnerDeleteAborts(t, id) <==>
            exists own, other :: own in t.owners && own.identity == id && other in t.owners && other.identity != id
              && own.ctx.Some? && other.ctx == own.ctx
              && (forall r :: r in t.refs ==> r.ctx != own.ctx.value)
              && (forall r :: r in t.acl ==> r.ctx != own.ctx)
  {
    if OwnerDeleteAborts(t, id) {
      var c :| c in OwnerContexts(OwnersOf(t, id)) && c in OwnerContexts(t.owners - OwnersOf(t, id)) &&
               c !in RefContexts(t) && c !in AclContexts(t.acl);
      var own :| own in OwnersOf(t, id) && own.ctx == Some(c);
      var other :| other in t.owners - OwnersOf(t, id) && other.ctx == Some(c);
      assert forall r :: r in t.refs ==> r.ctx in RefContexts(t);
      assert forall r :: r in t.acl && r.ctx.Some? ==> r.ctx.value in AclContexts(t.acl);
    }
    var mine, rest := OwnersOf(t, id), t.owners - OwnersOf(t, id);
    forall own, other | own in mine && other in rest && own.ctx.Some? && other.ctx == own.ctx
      ensures own.ctx.value in OwnerContexts(mine) && own.ctx.value in OwnerContexts(rest)
    {
    }
  }

  function DeleteAcl(t: Tables, id: nat): Tables { Checked(t, RemoveAcl(t, id)) }
  function DeleteOwners(t: Tables, id: nat): Tables { Checked(t, RemoveOwners(t, id)) }

  lemma DroppedNames<T(!new)>(n: Names<T>, doomed: set<nat>, i: nat)
    requires WfNames(n) && i in n.ids.Values
    ensures i in DropNames(n, doomed).ids.Values <==> i !in doomed
  {
    var x :| x in n.ids && n.ids[x] == i;
    if i !in doomed {
      assert DropNames(n, doomed).ids[x] == i;
    }
  }

  /** The delete of an identity's ACL rows is undone exactly when AclDeleteAborts says so. */
  lemma AclDeleteOutcome(t: Tables, id: nat)
    requires Wf(t)
    ensures ContextsIntact(RemoveAcl(t, id)) <==> !AclDeleteAborts(t, t.owners, id)
  {
    var t' := RemoveAcl(t, id);
    var doomed := AclContexts(AclOf(t, id)) - RefContexts(t) - OwnerContexts(t.owners);
    forall i | i in t.secctx.ids.Values ensures i in t'.secctx.ids.Values <==> i !in doomed {
      DroppedNames(t.secctx, doomed, i);
    }
    forall r | r in t.acl && r.ctx.Some? ensures r.ctx.value in t.secctx.ids.Values {
      assert Refers(r.ctx, t.secctx);
    }
    if AclDeleteAborts(t, t.owners, id) {
      var c :| c in doomed && c in AclContexts(t.acl - AclOf(t, id));
      var r :| r in t'.acl && r.ctx == Some(c);
      assert !Refers(r.ctx, t'.secctx);
    } else {
      forall r | r in t'.acl ensures Refers(r.ctx, t'.secctx) {
        if r.ctx.Some? { assert r.ctx.value in AclContexts(t.acl - AclOf(t, id)); }
      }
      forall r | r in t'.owners ensures Refers(r.ctx, t'.secctx) {
        assert Refers(r.ctx, t.secctx);
        if r.ctx.Some? { assert r.ctx.value in OwnerContexts(t.owners); }
      }
      forall r | r in t'.refs ensures Refers(Some(r.ctx), t'.secctx) {
        assert Refers(Some(r.ctx), t.secctx);
        assert r.ctx in RefContexts(t);
      }
    }
  }

  lemma OwnerDeleteOutcome(t: Tables, id: nat)
    requires Wf(t)
    ensures ContextsIntact(RemoveOwners(t, id)) <==> !OwnerDeleteAborts(t, id)
  {
    var t' := RemoveOwners(t, id);
    var doomed := OwnerContexts(OwnersOf(t, id)) - RefContexts(t) - AclContexts(t.acl);
    forall i | i in t.secctx.ids.Values ensures i in t'.secctx.ids.Values <==> i !in doomed {
      DroppedNames(t.secctx, doomed, i);
    }
    forall r | r in t.owners && r.ctx.Some? ensures r.ctx.value in t.secctx.ids.Values {
      assert Refers(r.ctx, t.secctx);
    }
    if OwnerDeleteAborts(t, id) {
      var c :| c in doomed && c in OwnerContexts(t.owners - OwnersOf(t, id));
      var r :| r in t'.owners && r.ctx == Some(c);
      assert !Refers(r.ctx, t'.secctx);
    } else {
      forall r | r in t'.owners ensures Refers(r.ctx, t'.secctx) {
        if r.ctx.Some? { assert r.ctx.value in OwnerContexts(t.owners - OwnersOf(t, id)); }
      }
      forall r | r in t'.acl ensures Refers(r.ctx, t'.secctx) {
        assert Refers(r.ctx, t.secctx);
        if r.ctx.Some? { assert r.ctx.value in AclContexts(t.acl); }
      }
      forall r | r in t'.refs ensures Refers(Some(r.ctx), t'.secctx) {
        assert Refers(Some(r.ctx), t.secctx);
        assert r.ctx in RefContexts(t);
      }
    }
  }

  /** m is n after deletes. */
  ghost predicate SubNames<T(!new)>(n: Names<T>, m: Names<T>) {
    m.next == n.next && forall x :: x in m.ids ==> x in n.ids && m.ids[x] == n.ids[x]
  }

  /** Deleting contexts keeps those that the remaining rows of an identity name. */
  lemma IntactKeepsContexts(t: Tables, t': Tables, y: nat)
    requires WfNames(t.secctx) && SubNames(t.secctx, t'.secctx) && ContextsIntact(t')
    requires AclOf(t, y) <= t'.acl && OwnersOf(t, y) <= t'.owners
    ensures KeepsContextsOf(t, t', y)
  {
    forall c | c in t.secctx.ids &&
               t.secctx.ids[c] in AclContexts(AclOf(t, y)) + OwnerContexts(OwnersOf(t, y))
      ensures c in t'.secctx.ids && t'.secctx.ids[c] == t.secctx.ids[c]
    {
      var i := t.secctx.ids[c];
      if i in AclContexts(AclOf(t, y)) {
        var r :| r in AclOf(t, y) && r.ctx == Some(i);
        assert Refers(r.ctx, t'.secctx);
      } else {
        var r :| r in OwnersOf(t, y) && r.ctx == Some(i);
        assert Refers(r.ctx, t'.secctx);
      }
    }
  }

  lemma RemoveAclEffect(t: Tables, id: nat)
    requires Wf(t) && id in t.identity && ContextsIntact(RemoveAcl(t, id))
    ensures var t' := RemoveAcl(t, id);
            && Wf(t') && t'.identity == t.identity
            && ViewOf(t', id) == Some(ViewOf(t, id).value.(ctxs := {}, methods := map[]))
            && forall y :: y != id ==> ViewOf(t', y) == ViewOf(t, y)
  {
    var t' := RemoveAcl(t, id);
    var doomed := AclContexts(AclOf(t, id)) - RefContexts(t) - OwnerContexts(t.owners);
    DropNamesIsWf(t.secctx, doomed);
    assert AclOf(t', id) == {};
    NoRowsNoNames(t', id);
    assert OwnersOf(t', id) == OwnersOf(t, id);
    forall c | c in t.secctx.ids && t.secctx.ids[c] in OwnerContexts(OwnersOf(t, id))
      ensures c in t'.secctx.ids && t'.secctx.ids[c] == t.secctx.ids[c]
    {
      assert t.secctx.ids[c] in OwnerContexts(t.owners);
    }
    forall r | r in OwnersOf(t, id) ensures Refers(r.ctx, t.secctx) {}
    SameContexts(t, t', OwnerContexts(OwnersOf(t, id)));
    forall y | y != id ensures ViewOf(t', y) == ViewOf(t, y) {
      assert AclOf(t', y) == AclOf(t, y) && OwnersOf(t', y) == OwnersOf(t, y);
      IntactKeepsContexts(t, t', y);
      SameView(t, t', y);
    }
  }

  lemma RemoveOwnersEffect(t: Tables, id: nat)
    requires Wf(t) && id in t.identity && ContextsIntact(RemoveOwners(t, id))
    ensures var t' := RemoveOwners(t, id);
            && Wf(t') && t'.identity == t.identity
            && ViewOf(t', id) == Some(ViewOf(t, id).value.(owners := {}))
            && forall y :: y != id ==> ViewOf(t', y) == ViewOf(t, y)
  {
    var t' := RemoveOwners(t, id);
    var doomed := OwnerContexts(OwnersOf(t, id)) - RefContexts(t) - AclContexts(t.acl);
    DropNamesIsWf(t.secctx, doomed);
    assert OwnersOf(t', id) == {};
    NoRowsNoNames(t', id);
    assert AclOf(t', id) == AclOf(t, id);
    forall c | c in t.secctx.ids && t.secctx.ids[c] in AclContexts(AclOf(t, id))
      ensures c in t'.secctx.ids && t'.secctx.ids[c] == t.secctx.ids[c]
    {
      assert t.secctx.ids[c] in AclContexts(t.acl);
    }
    forall r | r in AclOf(t, id) ensures Refers(r.ctx, t.secctx) {}
    SameContexts(t, t', AclContexts(AclOf(t, id)));
    SameMethods(t, t', id);
    forall y | y != id ensures ViewOf(t', y) == ViewOf(t, y) {
      assert AclOf(t', y) == AclOf(t, y) && OwnersOf(t', y) == OwnersOf(t, y);
      IntactKeepsContexts(t, t', y);
      SameView(t, t', y);
    }
  }

  // ------------------------------------------------------- growing the names

  /** Only names were added. */
  ghost predicate Grows(t: Tables, t': Tables) {
    && t' == t.(methods := t'.methods, mechanisms := t'.mechanisms, secctx := t'.secctx)
    && WfNames(t'.methods) && WfNames(t'.mechanisms) && WfNames(t'.secctx)
    && KeepsNames(t.methods, t'.methods) && KeepsNames(t.mechanisms, t'.mechanisms)
    && KeepsNames(t.secctx, t'.secctx)
  }

  lemma GrowsRefers<T(!new)>(n: Names<T>, m: Names<T>, ref: Option<nat>)
    requires KeepsNames(n, m) && Refers(ref, n)
    ensures Refers(ref, m)
  {
    if ref.Some? {
      var x :| x in n.ids && n.ids[x] == ref.value;
      assert m.ids[x] == ref.value;
    }
  }

  lemma GrowsEffect(t: Tables, t': Tables)
    requires Wf(t) && Grows(t, t')
    ensures Wf(t') && forall y :: ViewOf(t', y) == ViewOf(t, y)
  {
    forall r | r in t.acl
      ensures Refers(r.meth, t'.methods) && Refers(r.mech, t'.mechanisms) && Refers(r.ctx, t'.secctx)
    {
      GrowsRefers(t.methods, t'.methods, r.meth);
      GrowsRefers(t.mechanisms, t'.mechanisms, r.mech);
      GrowsRefers(t.secctx, t'.secctx, r.ctx);
    }
    forall r | r in t.owners ensures Refers(r.ctx, t'.secctx) { GrowsRefers(t.secctx, t'.secctx, r.ctx); }
    forall r | r in t.refs ensures Refers(Some(r.ctx), t'.secctx) {
      GrowsRefers(t.secctx, t'.secctx, Some(r.ctx));
    }
    forall y ensures ViewOf(t', y) == ViewOf(t, y) {
      assert AclOf(t', y) == AclOf(t, y) && OwnersOf(t', y) == OwnersOf(t, y);
      SameView(t, t', y);
    }
  }

  // --------------------------------------------------------- the owner's row

  function InsertOwnerRow(t: Tables, id: nat, owner: Ctx): Tables {
    t.(owners := t.owners + {OwnerRow(id, IdFor(t.secctx, owner))})
  }

  lemma OwnerRowEffect(t: Tables, id: nat, owner: Ctx)
    requires Wf(t) && id in t.identity
    ensures var t' := InsertOwnerRow(t, id, owner);
            var v := ViewOf(t, id).value;
            && Wf(t') && t'.identity == t.identity
            && ViewOf(t', id) == Some(v.(owners := if owner in t.secctx.ids then v.owners + {owner} else v.owners))
            && forall y :: y != id ==> ViewOf(t', y) == ViewOf(t, y)
  {
    var t' := InsertOwnerRow(t, id, owner);
    var row := OwnerRow(id, IdFor(t.secctx, owner));
    assert OwnersOf(t', id) == OwnersOf(t, id) + {row};
    if owner in t.secctx.ids {
      assert OwnerContexts(OwnersOf(t', id)) == OwnerContexts(OwnersOf(t, id)) + {t.secctx.ids[owner]};
    } else {
      assert OwnerContexts(OwnersOf(t', id)) == OwnerContexts(OwnersOf(t, id));
    }
    assert OwnerCtxsOf(t', id) == if owner in t.secctx.ids then OwnerCtxsOf(t, id) + {owner} else OwnerCtxsOf(t, id);
    assert AclOf(t', id) == AclOf(t, id);
    assert CtxsOf(t', id) == CtxsOf(t, id);
    SameMethods(t, t', id);
    forall y | y != id ensures ViewOf(t', y) == ViewOf(t, y) {
      assert AclOf(t', y) == AclOf(t, y) && OwnersOf(t', y) == OwnersOf(t, y);
      SameView(t, t', y);
    }
  }
}
