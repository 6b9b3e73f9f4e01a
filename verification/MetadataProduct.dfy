/**
 The ACL table as one cross product: update_identity writes a row for every
 method, mechanism and context of a record, and the projections of those rows
 give the methods map and the access control list back.
 */
module MetadataProduct {
  import opened Ordering
  import opened IdentityRecord
  import opened MetadataTables

  /** The rows for one method and one context: one per mechanism, or one without. */
  function MechRows(t: Tables, id: nat, m: string, c: Ctx, ks: seq<string>): set<AclRow> {
    if ks == [] then {AclRow(id, IdFor(t.methods, m), None, IdFor(t.secctx, c))}
    else set k | k in ks :: AclRow(id, IdFor(t.methods, m), IdFor(t.mechanisms, k), IdFor(t.secctx, c))
  }

  function CtxRows(t: Tables, id: nat, m: string, acl: seq<Ctx>, ks: seq<string>): set<AclRow> {
    set c, row | c in acl && row in MechRows(t, id, m, c, ks) :: row
  }

  /** The rows for the methods in done. */
  function MethodRows(t: Tables, id: nat, ms: MethodMap, done: set<string>, acl: seq<Ctx>): set<AclRow> {
    set m, row | m in done && m in ms && row in CtxRows(t, id, m, acl, ms[m]) :: row
  }

  /** The rows for a record whose methods map is there but empty. */
  function BareRows(t: Tables, id: nat, acl: seq<Ctx>): set<AclRow> {
    set c | c in acl :: AclRow(id, None, None, IdFor(t.secctx, c))
  }

  function ProductRows(t: Tables, id: nat, ms: MethodMap, acl: seq<Ctx>): set<AclRow> {
    if ms == map[] then BareRows(t, id, acl) else MethodRows(t, id, ms, ms.Keys, acl)
  }

  function Known<T(==)>(xs: seq<T>, n: Names<T>): set<T> { set x | x in xs && x in n.ids }

  /** The methods map as far as its names are in the tables. */
  function KnownMethods(ms: MethodMap, t: Tables): map<string, set<string>> {
    map m | m in ms && m in t.methods.ids :: Known(ms[m], t.mechanisms)
  }

  function MergeMethods(a: map<string, set<string>>, b: map<string, set<string>>): map<string, set<string>> {
    map m | m in a.Keys + b.Keys :: (if m in a then a[m] else {}) + (if m in b then b[m] else {})
  }

  // ----------------------------------------------------------- projections

  lemma RowShape(t: Tables, id: nat, ms: MethodMap, acl: seq<Ctx>, row: AclRow)
    requires row in ProductRows(t, id, ms, acl)
    ensures row.identity == id
    ensures exists c :: c in acl && row.ctx == IdFor(t.secctx, c)
    ensures row.meth.Some? ==> exists m :: m in ms && m in t.methods.ids && row.meth == Some(t.methods.ids[m])
    ensures row.meth.Some? && row.mech.Some? ==>
              exists m, k :: m in ms && m in t.methods.ids && row.meth == Some(t.methods.ids[m]) &&
                             k in ms[m] && k in t.mechanisms.ids && row.mech == Some(t.mechanisms.ids[k])
    ensures row.mech.Some? ==> row.mech.value in t.mechanisms.ids.Values
  {
  }

  /** The product, row by row: each method with each context, once for every mechanism, or once without. */
  lemma ProductRowIff(t: Tables, id: nat, ms: MethodMap, acl: seq<Ctx>, row: AclRow)
    ensures row in ProductRows(t, id, ms, acl) <==>
            if ms == map[] then exists c :: c in acl && row == AclRow(id, None, None, IdFor(t.secctx, c))
            else exists m, c :: m in ms && c in acl && row.ctx == IdFor(t.secctx, c) &&
                                row.identity == id && row.meth == IdFor(t.methods, m) &&
                                if ms[m] == [] then row.mech == None
                                else exists k :: k in ms[m] && row.mech == IdFor(t.mechanisms, k)
  {
    forall m, c | m in ms && c in acl
      ensures row in MechRows(t, id, m, c, ms[m]) ==> row in CtxRows(t, id, m, acl, ms[m])
    {
    }
  }

  lemma ProductHasRow(t: Tables, id: nat, ms: MethodMap, acl: seq<Ctx>, m: string, c: Ctx) returns (row: AclRow)
    requires m in ms && c in acl
    ensures row in ProductRows(t, id, ms, acl)
    ensures row.meth == IdFor(t.methods, m) && row.ctx == IdFor(t.secctx, c)
  {
    if ms[m] == [] {
      row := AclRow(id, IdFor(t.methods, m), None, IdFor(t.secctx, c));
    } else {
      row := AclRow(id, IdFor(t.methods, m), IdFor(t.mechanisms, ms[m][0]), IdFor(t.secctx, c));
      assert ms[m][0] in ms[m];
    }
    assert row in MechRows(t, id, m, c, ms[m]);
    assert row in CtxRows(t, id, m, acl, ms[m]);
  }

  lemma ProductContexts(t: Tables, id: nat, ms: MethodMap, acl: seq<Ctx>)
    ensures AclContexts(ProductRows(t, id, ms, acl)) == set c | c in Known(acl, t.secctx) :: t.secctx.ids[c]
  {
    var rows := ProductRows(t, id, ms, acl);
    forall i | i in AclContexts(rows) ensures exists c :: c in Known(acl, t.secctx) && t.secctx.ids[c] == i {
      var r :| r in rows && r.ctx == Some(i);
      RowShape(t, id, ms, acl, r);
      var c :| c in acl && r.ctx == IdFor(t.secctx, c);
      assert c in Known(acl, t.secctx);
    }
    forall c | c in Known(acl, t.secctx) ensures t.secctx.ids[c] in AclContexts(rows) {
      if ms == map[] {
        assert AclRow(id, None, None, IdFor(t.secctx, c)) in rows;
      } else {
        var m :| m in ms;
        var r := ProductHasRow(t, id, ms, acl, m, c);
      }
    }
  }

  lemma ProductMethods(t: Tables, id: nat, ms: MethodMap, acl: seq<Ctx>, m: string)
    requires WfNames(t.methods) && acl != [] && m in t.methods.ids
    ensures t.methods.ids[m] in MethodIds(ProductRows(t, id, ms, acl)) <==> m in ms
  {
    var rows := ProductRows(t, id, ms, acl);
    if t.methods.ids[m] in MethodIds(rows) {
      var r :| r in rows && r.meth == Some(t.methods.ids[m]);
      RowShape(t, id, ms, acl, r);
    }
    if m in ms {
      var r := ProductHasRow(t, id, ms, acl, m, acl[0]);
    }
  }

  lemma ProductMechanisms(t: Tables, id: nat, ms: MethodMap, acl: seq<Ctx>, m: string, k: string)
    requires WfNames(t.methods) && WfNames(t.mechanisms) && acl != []
    requires m in t.methods.ids && k in t.mechanisms.ids
    ensures t.mechanisms.ids[k] in MechIds(ProductRows(t, id, ms, acl), t.methods.ids[m])
            <==> m in ms && k in ms[m]
  {
    var rows := ProductRows(t, id, ms, acl);
    if t.mechanisms.ids[k] in MechIds(rows, t.methods.ids[m]) {
      var r :| r in rows && r.meth == Some(t.methods.ids[m]) && r.mech == Some(t.mechanisms.ids[k]);
      RowShape(t, id, ms, acl, r);
    }
    if m in ms && k in ms[m] {
      var row := AclRow(id, IdFor(t.methods, m), IdFor(t.mechanisms, k), IdFor(t.secctx, acl[0]));
      assert row in MechRows(t, id, m, acl[0], ms[m]);
      assert row in CtxRows(t, id, m, acl, ms[m]);
      assert row in rows;
    }
  }

  // ---------------------------------------------------- effect of the insert

  function InsertProduct(t: Tables, id: nat, ms: MethodMap, acl: seq<Ctx>): Tables {
    t.(acl := t.acl + ProductRows(t, id, ms, acl))
  }

  lemma MechsAfterProduct(t: Tables, id: nat, ms: MethodMap, acl: seq<Ctx>, m: string)
    requires Wf(t) && acl != [] && m in t.methods.ids
    requires AclOf(InsertProduct(t, id, ms, acl), id) == AclOf(t, id) + ProductRows(t, id, ms, acl)
    ensures MechsOf(InsertProduct(t, id, ms, acl), id, m)
            == MechsOf(t, id, m) + (if m in ms then Known(ms[m], t.mechanisms) else {})
  {
    var t' := InsertProduct(t, id, ms, acl);
    var old_, new_, n := AclOf(t, id), ProductRows(t, id, ms, acl), t.methods.ids[m];
    assert MechIds(old_ + new_, n) == MechIds(old_, n) + MechIds(new_, n);
    forall k | k in t.mechanisms.ids { ProductMechanisms(t, id, ms, acl, m, k); }
  }

  lemma MechsNeedTheMethod(t: Tables, id: nat, m: string)
    requires m in t.methods.ids && t.methods.ids[m] !in MethodIds(AclOf(t, id))
    ensures MechsOf(t, id, m) == {}
  {
  }

  lemma MethodKeysAfterProduct(t: Tables, id: nat, ms: MethodMap, acl: seq<Ctx>, m: string)
    requires Wf(t) && acl != []
    requires AclOf(InsertProduct(t, id, ms, acl), id) == AclOf(t, id) + ProductRows(t, id, ms, acl)
    ensures m in MethodsOf(InsertProduct(t, id, ms, acl), id) <==>
            m in MethodsOf(t, id) || m in KnownMethods(ms, t)
  {
    var old_, new_ := AclOf(t, id), ProductRows(t, id, ms, acl);
    assert MethodIds(old_ + new_) == MethodIds(old_) + MethodIds(new_);
    if m in t.methods.ids {
      ProductMethods(t, id, ms, acl, m);
    }
  }

  lemma MethodAfterProduct(t: Tables, id: nat, ms: MethodMap, acl: seq<Ctx>, m: string)
    requires Wf(t) && acl != []
    requires AclOf(InsertProduct(t, id, ms, acl), id) == AclOf(t, id) + ProductRows(t, id, ms, acl)
    ensures var after := MethodsOf(InsertProduct(t, id, ms, acl), id);
            var merged := MergeMethods(MethodsOf(t, id), KnownMethods(ms, t));
            (m in after <==> m in merged) && (m in after ==> after[m] == merged[m])
  {
    MethodKeysAfterProduct(t, id, ms, acl, m);
    if m in MethodsOf(InsertProduct(t, id, ms, acl), id) {
      MechsAfterProduct(t, id, ms, acl, m);
      if m !in MethodsOf(t, id) { MechsNeedTheMethod(t, id, m); }
    }
  }

  lemma MethodsAfterProduct(t: Tables, id: nat, ms: MethodMap, acl: seq<Ctx>)
    requires Wf(t) && acl != []
    requires AclOf(InsertProduct(t, id, ms, acl), id) == AclOf(t, id) + ProductRows(t, id, ms, acl)
    ensures MethodsOf(InsertProduct(t, id, ms, acl), id) == MergeMethods(MethodsOf(t, id), KnownMethods(ms, t))
  {
    var t' := InsertProduct(t, id, ms, acl);
    var after, merged := MethodsOf(t', id), MergeMethods(MethodsOf(t, id), KnownMethods(ms, t));
    forall m ensures (m in after <==> m in merged) && (m in after ==> after[m] == merged[m]) {
      MethodAfterProduct(t, id, ms, acl, m);
    }
  }

  lemma ProductIsWf(t: Tables, id: nat, ms: MethodMap, acl: seq<Ctx>)
    requires Wf(t) && id in t.identity
    ensures Wf(InsertProduct(t, id, ms, acl))
    ensures AclOf(InsertProduct(t, id, ms, acl), id) == AclOf(t, id) + ProductRows(t, id, ms, acl)
    ensures forall y :: y != id ==> AclOf(InsertProduct(t, id, ms, acl), y) == AclOf(t, y)
  {
    forall r | r in ProductRows(t, id, ms, acl)
      ensures r.identity == id
      ensures Refers(r.meth, t.methods) && Refers(r.mech, t.mechanisms) && Refers(r.ctx, t.secctx)
    {
      RowShape(t, id, ms, acl, r);
    }
  }

  lemma ContextsAfterProduct(t: Tables, id: nat, ms: MethodMap, acl: seq<Ctx>)
    requires Wf(t) && AclOf(InsertProduct(t, id, ms, acl), id) == AclOf(t, id) + ProductRows(t, id, ms, acl)
    ensures CtxsOf(InsertProduct(t, id, ms, acl), id) == CtxsOf(t, id) + Known(acl, t.secctx)
  {
    var rows := ProductRows(t, id, ms, acl);
    assert AclContexts(AclOf(t, id) + rows) == AclContexts(AclOf(t, id)) + AclContexts(rows);
    ProductContexts(t, id, ms, acl);
  }

  lemma ProductEffect(t: Tables, id: nat, ms: MethodMap, acl: seq<Ctx>)
    requires Wf(t) && id in t.identity && acl != []
    ensures var t' := InsertProduct(t, id, ms, acl);
            var v := ViewOf(t, id).value;
            && Wf(t') && t'.identity == t.identity
            && ViewOf(t', id) == Some(v.(ctxs := v.ctxs + Known(acl, t.secctx),
                                         methods := MergeMethods(v.methods, KnownMethods(ms, t))))
            && forall y :: y != id ==> ViewOf(t', y) == ViewOf(t, y)
  {
    var t' := InsertProduct(t, id, ms, acl);
    ProductIsWf(t, id, ms, acl);
    ContextsAfterProduct(t, id, ms, acl);
    assert OwnersOf(t', id) == OwnersOf(t, id);
    assert OwnerCtxsOf(t', id) == OwnerCtxsOf(t, id);
    MethodsAfterProduct(t, id, ms, acl);
    forall y | y != id ensures ViewOf(t', y) == ViewOf(t, y) {
      assert OwnersOf(t', y) == OwnersOf(t, y);
      SameView(t, t', y);
    }
  }
}
