/**
 The tables of src/daemon/db/gsignond-db-metadata-database.c as finite
 relations, the statements that change them (with cascades, orphan triggers and
 the foreign-key check at the end of a statement), and what the queries read.

 Row ids of ACL and OWNER are not kept: no query or trigger reads them, nor how
 often a row is repeated.  REALMS keeps order and repetition, because its
 primary key contains a host name that is always NULL and so never conflicts.
 */
module MetadataTables {
  import opened Ordering

  // ---------------------------------------------------------------- schema

  /** A table of unique names with AUTOINCREMENT ids: METHODS, MECHANISMS, SECCTX. */
  datatype Names<!T> = Names(ids: map<T, nat>, next: nat)

  datatype IdentityRow = IdentityRow(caption: string, username: string, usernameIsSecret: bool,
                                     rememberSecret: bool, validated: bool, kind: nat)
  datatype AclRow = AclRow(identity: nat, meth: Option<nat>, mech: Option<nat>, ctx: Option<nat>)
  datatype OwnerRow = OwnerRow(identity: nat, ctx: Option<nat>)
  datatype RefRow = RefRow(identity: nat, ctx: nat, name: string)
  datatype RealmRow = RealmRow(identity: nat, realm: string)

  datatype Tables = Tables(
    identity: map<nat, IdentityRow>, nextIdentity: nat,
    methods: Names<string>, mechanisms: Names<string>, secctx: Names<Ctx>,
    realms: seq<RealmRow>, acl: set<AclRow>, refs: set<RefRow>, owners: set<OwnerRow>)

  const NO_TABLES := Tables(map[], 1, Names(map[], 1), Names(map[], 1), Names(map[], 1), [], {}, {}, {})

  ghost predicate WfNames<T(!new)>(n: Names<T>) {
    && n.next > 0
    && (forall x :: x in n.ids ==> 0 < n.ids[x] < n.next)
    && (forall x, y :: x in n.ids && y in n.ids && n.ids[x] == n.ids[y] ==> x == y)
  }

  predicate Refers<T>(ref: Option<nat>, n: Names<T>) {
    ref.Some? ==> ref.value in n.ids.Values
  }

  /** Every context reference points at a row of SECCTX. */
  predicate ContextsIntact(t: Tables) {
    && (forall r :: r in t.acl ==> Refers(r.ctx, t.secctx))
    && (forall r :: r in t.owners ==> Refers(r.ctx, t.secctx))
    && (forall r :: r in t.refs ==> Refers(Some(r.ctx), t.secctx))
  }

  /** Keys are unique, ids are below the counters, and every foreign key has its parent. */
  ghost predicate Wf(t: Tables) {
    && t.nextIdentity > 0
    && (forall id :: id in t.identity ==> 0 < id < t.nextIdentity)
    && WfNames(t.methods) && WfNames(t.mechanisms) && WfNames(t.secctx)
    && (forall i :: 0 <= i < |t.realms| ==> t.realms[i].identity in t.identity)
    && (forall r :: r in t.acl ==>
          r.identity in t.identity && Refers(r.meth, t.methods) && Refers(r.mech, t.mechanisms))
    && (forall r :: r in t.owners ==> r.identity in t.identity)
    && (forall r :: r in t.refs ==> r.identity in t.identity)
    && ContextsIntact(t)
  }

  // ------------------------------------------------------------ statements

  /** (SELECT id FROM ... WHERE name = x) */
  function IdFor<T(==)>(n: Names<T>, x: T): Option<nat> {
    if x in n.ids then Some(n.ids[x]) else None
  }

  /** INSERT OR IGNORE of a name */
  function InsertName<T(==)>(n: Names<T>, x: T): Names<T> {
    if x in n.ids then n else Names(n.ids[x := n.next], n.next + 1)
  }

  function DropNames<T(==)>(n: Names<T>, doomed: set<nat>): Names<T> {
    Names(map x | x in n.ids && n.ids[x] !in doomed :: n.ids[x], n.next)
  }

  function RefContexts(t: Tables): set<nat> { set r | r in t.refs :: r.ctx }
  function OwnerContexts(rows: set<OwnerRow>): set<nat> { set r | r in rows && r.ctx.Some? :: r.ctx.value }
  function AclContexts(rows: set<AclRow>): set<nat> { set r | r in rows && r.ctx.Some? :: r.ctx.value }

  function AclOf(t: Tables, id: nat): set<AclRow> { set r | r in t.acl && r.identity == id }
  function OwnersOf(t: Tables, id: nat): set<OwnerRow> { set r | r in t.owners && r.identity == id }
  function RefsOf(t: Tables, id: nat): set<RefRow> { set r | r in t.refs && r.identity == id }

  function RealmRowsWithout(rows: seq<RealmRow>, id: nat): seq<RealmRow> {
    if rows == [] then []
    else if rows[0].identity == id then RealmRowsWithout(rows[1..], id)
    else [rows[0]] + RealmRowsWithout(rows[1..], id)
  }

  /** The ACL rows of an identity go, each after its trigger: a context that no
      REFS and no OWNER row names is deleted, whatever other ACL rows name it. */
  function RemoveAcl(t: Tables, id: nat): Tables {
    var gone := AclOf(t, id);
    t.(acl := t.acl - gone,
       secctx := DropNames(t.secctx, AclContexts(gone) - RefContexts(t) - OwnerContexts(t.owners)))
  }

  function RemoveOwners(t: Tables, id: nat): Tables {
    var gone := OwnersOf(t, id);
    t.(owners := t.owners - gone,
       secctx := DropNames(t.secctx, OwnerContexts(gone) - RefContexts(t) - AclContexts(t.acl)))
  }

  function RemoveRefs(t: Tables, id: nat): Tables {
    var gone := RefsOf(t, id);
    t.(refs := t.refs - gone,
       secctx := DropNames(t.secctx, (set r | r in gone :: r.ctx) - AclContexts(t.acl) - OwnerContexts(t.owners)))
  }

  function RemoveRealms(t: Tables, id: nat): Tables {
    t.(realms := RealmRowsWithout(t.realms, id))
  }

  /** A statement whose result breaks a foreign key is undone and reports an error. */
  function Checked(before: Tables, after: Tables): Tables {
    if ContextsIntact(after) then after else before
  }

  datatype Child = AclTable | OwnerTable | RefsTable | RealmsTable

  function CascadeOne(t: Tables, id: nat, child: Child): Tables {
    match child
    case AclTable => RemoveAcl(t, id)
    case OwnerTable => RemoveOwners(t, id)
    case RefsTable => RemoveRefs(t, id)
    case RealmsTable => RemoveRealms(t, id)
  }

  /** The cascade visits the child tables in an order that SQLite chooses. */
  function Cascade(t: Tables, id: nat, order: seq<Child>): Tables
    decreases |order|
  {
    if order == [] then t else Cascade(CascadeOne(t, id, order[0]), id, order[1..])
  }

  predicate CompleteOrder(order: seq<Child>) {
    AclTable in order && OwnerTable in order && RefsTable in order && RealmsTable in order
  }

  /** DELETE FROM IDENTITY WHERE id = ..., before the foreign-key check */
  function DeleteIdentity(t: Tables, id: nat, order: seq<Child>): Tables {
    Cascade(t.(identity := t.identity - {id}), id, order)
  }

  // --------------------------------------------------------------- queries

  function RealmsOf(rows: seq<RealmRow>, id: nat): seq<string> {
    if rows == [] then []
    else if rows[0].identity == id then [rows[0].realm] + RealmsOf(rows[1..], id)
    else RealmsOf(rows[1..], id)
  }

  function CtxsNamed(t: Tables, ids: set<nat>): set<Ctx> {
    set c | c in t.secctx.ids && t.secctx.ids[c] in ids
  }

  /** SELECT sysctx, appctx FROM SECCTX WHERE id IN (SELECT secctx_id FROM ACL ...) */
  function CtxsOf(t: Tables, id: nat): set<Ctx> { CtxsNamed(t, AclContexts(AclOf(t, id))) }

  /** the same over OWNER */
  function OwnerCtxsOf(t: Tables, id: nat): set<Ctx> { CtxsNamed(t, OwnerContexts(OwnersOf(t, id))) }

  /** The method ids in rows that name method n and, if any, mechanism k. */
  function MethodIds(rows: set<AclRow>): set<nat> { set r | r in rows && r.meth.Some? :: r.meth.value }

  function MechIds(rows: set<AclRow>, n: nat): set<nat> {
    set r | r in rows && r.meth == Some(n) && r.mech.Some? :: r.mech.value
  }

  /** SELECT DISTINCT MECHANISMS.mechanism ... for one method */
  function MechsOf(t: Tables, id: nat, m: string): set<string>
    requires m in t.methods.ids
  {
    set k | k in t.mechanisms.ids && t.mechanisms.ids[k] in MechIds(AclOf(t, id), t.methods.ids[m])
  }

  /** The methods of an identity with the mechanisms of each. */
  function MethodsOf(t: Tables, id: nat): map<string, set<string>> {
    map m | m in t.methods.ids && t.methods.ids[m] in MethodIds(AclOf(t, id)) :: MechsOf(t, id, m)
  }

  /** All that the queries of get_identity can tell about one identity. */
  datatype View = View(row: IdentityRow, realms: seq<string>, ctxs: set<Ctx>, owners: set<Ctx>,
                       methods: map<string, set<string>>)

  function ViewOf(t: Tables, id: nat): Option<View> {
    if id in t.identity then
      Some(View(t.identity[id], RealmsOf(t.realms, id), CtxsOf(t, id), OwnerCtxsOf(t, id), MethodsOf(t, id)))
    else None
  }

  // ------------------------------------------------------------ small laws

  /** The names of n are all in m, with the ids they had. */
  ghost predicate KeepsNames<T(!new)>(n: Names<T>, m: Names<T>) {
    n.next <= m.next && forall x :: x in n.ids ==> x in m.ids && m.ids[x] == n.ids[x]
  }

  lemma InsertNameIsWf<T(!new)>(n: Names<T>, x: T)
    requires WfNames(n)
    ensures WfNames(InsertName(n, x)) && KeepsNames(n, InsertName(n, x))
    ensures InsertName(n, x).ids.Keys == n.ids.Keys + {x}
  {
  }

  /** From n to m exactly the given names were added. */
  ghost predicate Grown<T(!new)>(n: Names<T>, m: Names<T>, added: set<T>) {
    WfNames(m) && KeepsNames(n, m) && m.ids.Keys == n.ids.Keys + added
  }

  lemma GrownByOne<T(!new)>(n: Names<T>, m: Names<T>, added: set<T>, x: T)
    requires Grown(n, m, added)
    ensures Grown(n, InsertName(m, x), added + {x})
  {
    InsertNameIsWf(m, x);
  }

  lemma GrownTwice<T(!new)>(n: Names<T>, m: Names<T>, l: Names<T>, added: set<T>, more: set<T>)
    requires Grown(n, m, added) && Grown(m, l, more)
    ensures Grown(n, l, added + more)
  {
  }

  lemma DropNamesIsWf<T(!new)>(n: Names<T>, doomed: set<nat>)
    requires WfNames(n)
    ensures WfNames(DropNames(n, doomed))
  {
  }

  /** The contexts that the given references name are the same before and after. */
  lemma SameContexts(t: Tables, t': Tables, ids: set<nat>)
    requires WfNames(t.secctx) && WfNames(t'.secctx)
    requires ids <= t.secctx.ids.Values
    requires forall c :: c in t.secctx.ids && t.secctx.ids[c] in ids ==>
               c in t'.secctx.ids && t'.secctx.ids[c] == t.secctx.ids[c]
    ensures CtxsNamed(t', ids) == CtxsNamed(t, ids)
  {
    forall c | c in CtxsNamed(t', ids) ensures c in CtxsNamed(t, ids) {
      var i := t'.secctx.ids[c];
      var c0 :| c0 in t.secctx.ids && t.secctx.ids[c0] == i;
      assert t'.secctx.ids[c0] == i;
    }
  }

  /** SECCTX rows that some row of an identity names survive from t to t'. */
  ghost predicate KeepsContextsOf(t: Tables, t': Tables, id: nat) {
    forall c :: c in t.secctx.ids &&
                t.secctx.ids[c] in AclContexts(AclOf(t, id)) + OwnerContexts(OwnersOf(t, id)) ==>
                c in t'.secctx.ids && t'.secctx.ids[c] == t.secctx.ids[c]
  }

  lemma SameMethods(t: Tables, t': Tables, id: nat)
    requires Wf(t) && WfNames(t'.methods) && WfNames(t'.mechanisms)
    requires KeepsNames(t.methods, t'.methods) && KeepsNames(t.mechanisms, t'.mechanisms)
    requires AclOf(t', id) == AclOf(t, id)
    ensures MethodsOf(t', id) == MethodsOf(t, id)
  {
    forall m | m in MethodsOf(t', id) ensures m in MethodsOf(t, id) {
      var r :| r in AclOf(t, id) && r.meth == Some(t'.methods.ids[m]);
      assert Refers(r.meth, t.methods);
      KeptName(t.methods, t'.methods, m, r.meth.value);
    }
    forall m | m in MethodsOf(t, id) ensures m in MethodsOf(t', id) && MechsOf(t', id, m) == MechsOf(t, id, m) {
      SameMechs(t, t', id, m);
    }
  }

  /** A name whose id was in use before is an old name. */
  lemma KeptName<T(!new)>(n: Names<T>, n': Names<T>, x: T, i: nat)
    requires WfNames(n') && KeepsNames(n, n') && x in n'.ids && n'.ids[x] == i && i in n.ids.Values
    ensures x in n.ids && n.ids[x] == i
  {
    var y :| y in n.ids && n.ids[y] == i;
    assert n'.ids[y] == i;
  }

  lemma SameMechs(t: Tables, t': Tables, id: nat, m: string)
    requires Wf(t) && WfNames(t'.mechanisms) && KeepsNames(t.mechanisms, t'.mechanisms)
    requires m in t.methods.ids && m in t'.methods.ids && t'.methods.ids[m] == t.methods.ids[m]
    requires AclOf(t', id) == AclOf(t, id)
    ensures MechsOf(t', id, m) == MechsOf(t, id, m)
  {
    forall k | k in MechsOf(t', id, m) ensures k in MechsOf(t, id, m) {
      var r :| r in AclOf(t, id) && r.meth == Some(t.methods.ids[m]) && r.mech == Some(t'.mechanisms.ids[k]);
      assert Refers(r.mech, t.mechanisms);
      KeptName(t.mechanisms, t'.mechanisms, k, r.mech.value);
    }
  }

  /** An identity whose rows are the same, over tables that keep the names they use, reads the same. */
  lemma SameView(t: Tables, t': Tables, id: nat)
    requires Wf(t) && WfNames(t'.methods) && WfNames(t'.mechanisms) && WfNames(t'.secctx)
    requires KeepsNames(t.methods, t'.methods) && KeepsNames(t.mechanisms, t'.mechanisms)
    requires KeepsContextsOf(t, t', id)
    requires id in t'.identity <==> id in t.identity
    requires id in t.identity ==> t'.identity[id] == t.identity[id]
    requires AclOf(t', id) == AclOf(t, id) && OwnersOf(t', id) == OwnersOf(t, id)
    requires RealmsOf(t'.realms, id) == RealmsOf(t.realms, id)
    ensures ViewOf(t', id) == ViewOf(t, id)
  {
    SameMethods(t, t', id);
    forall r | r in AclOf(t, id) ensures Refers(r.ctx, t.secctx) {}
    forall r | r in OwnersOf(t, id) ensures Refers(r.ctx, t.secctx) {}
    SameContexts(t, t', AclContexts(AclOf(t, id)));
    SameContexts(t, t', OwnerContexts(OwnersOf(t, id)));
  }

  lemma {:induction false} RealmsWithout(rows: seq<RealmRow>, id: nat, other: nat)
    ensures RealmsOf(RealmRowsWithout(rows, id), other) == if other == id then [] else RealmsOf(rows, other)
    ensures forall i :: 0 <= i < |RealmRowsWithout(rows, id)| ==>
              RealmRowsWithout(rows, id)[i] in rows && RealmRowsWithout(rows, id)[i].identity != id
  {
    if rows == [] {
    } else {
      RealmsWithout(rows[1..], id, other);
    }
  }

  lemma {:induction false} RealmsOfConcat(a: seq<RealmRow>, b: seq<RealmRow>, id: nat)
    ensures RealmsOf(a + b, id) == RealmsOf(a, id) + RealmsOf(b, id)
  {
    if a == [] {
      assert a + b == b;
    } else {
      RealmsOfConcat(a[1..], b, id);
      assert (a + b)[1..] == a[1..] + b;
    }
  }
}
