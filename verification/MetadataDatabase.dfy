/**
 src/daemon/db/gsignond-db-metadata-database.c: the object that runs the
 statements.  The outcomes of BEGIN and COMMIT are parameters; a failed COMMIT
 leaves the tables as they were.  An insert whose identity does not exist meets
 the RAISE(ROLLBACK) trigger: the transaction is over, and the statements after
 it run, one by one, outside any transaction.
 */
module MetadataDatabase {
  import opened Ordering
  import opened IdentityRecord
  import opened IdentityInfo
  import opened MetadataTables
  import opened MetadataStore
  import opened MetadataProduct
  import opened MetadataUpdate

  function RolledBack(now: Tables, undo: Option<Tables>): Tables {
    if undo.Some? then undo.value else now
  }

  /** Is there an insert that meets the trigger when the identity does not exist? */
  predicate InsertsRows(r: Record) {
    RealmsToWrite(r) != [] || Owner in r.edits || WritesRows(r)
  }

  predicate Live(t: Tables, r: Record) { IsNew(r) || GetId(r) in t.identity }

  /** Does update_identity get to its COMMIT with the transaction still open, and commit? */
  predicate Accepted(t: Tables, r: Record, beginOk: bool, commitOk: bool) {
    && beginOk && commitOk && GetOwner(r).Some? && GetAcl(r) != []
    && (Live(t, r) || !InsertsRows(r))
  }

  /** Do the statements get past the realms, the owner and the list? */
  predicate GetsToRows(r: Record) {
    RealmsToWrite(r) == [] && GetOwner(r).Some? && GetAcl(r) != []
  }

  /**
   The tables after the statements of an update of an identity that is gone, and
   whether the transaction is still open: an OWNER row ends it before the names
   are inserted, an ACL row after.
   */
  ghost predicate DeadOutcome(t: Tables, r: Record, t': Tables, open: bool) {
    if Owner in r.edits then !open && NamesAdded(t, t', r)
    else if WritesRows(r) then !open && t' == t
    else open && NamesAdded(t, t', r)
  }

  /** What update_identity does to the tables when its identity is gone. */
  ghost predicate DeadUpdate(t: Tables, r: Record, beginOk: bool, commitOk: bool, t': Tables) {
    if beginOk && GetsToRows(r) && (Owner in r.edits || (!WritesRows(r) && commitOk)) then NamesAdded(t, t', r)
    else t' == t
  }

  /**
   The whole effect of such an update in terms of the record: with the owner
   edited the names stay though the call fails.
   */
  lemma DeadUpdateKeepsNamesIff(t: Tables, r: Record, beginOk: bool, commitOk: bool, t': Tables)
    requires Wf(t) && DeadUpdate(t, r, beginOk, commitOk, t')
    ensures Grows(t, t')
    ensures var named := && beginOk && GetOwner(r).Some? && GetAcl(r) != []
              && !(Realms in r.edits && GetRealms(r).Some? && GetRealms(r).value != [])
              && (Owner in r.edits || (commitOk && !((Acl in r.edits || Methods in r.edits) && GetMethods(r).Some?)));
            var ms := if Methods in r.edits && GetMethods(r).Some? then GetMethods(r).value else map[];
            && (!named ==> t' == t)
            && (named ==>
                  && t'.secctx.ids.Keys == t.secctx.ids.Keys + (if Acl in r.edits then Elements(GetAcl(r)) else {})
                  && t'.methods.ids.Keys == t.methods.ids.Keys + ms.Keys
                  && t'.mechanisms.ids.Keys == t.mechanisms.ids.Keys + MechanismNames(ms))
  {
    var ms := if Methods in r.edits && GetMethods(r).Some? then GetMethods(r).value else map[];
    assert EditedMethods(r) == ms.Keys;
    assert EditedMechanisms(r) == MechanismNames(ms);
  }

  lemma GrowsTransitive(a: Tables, b: Tables, c: Tables)
    requires Grows(a, b) && Grows(b, c)
    ensures Grows(a, c)
  {
  }

  /** A delete that finds no rows changes nothing. */
  lemma NothingToDelete(t: Tables, id: nat)
    ensures AclOf(t, id) == {} ==> DeleteAcl(t, id) == t
    ensures OwnersOf(t, id) == {} ==> DeleteOwners(t, id) == t
  {
    if AclOf(t, id) == {} { assert RemoveAcl(t, id) == t; }
    if OwnersOf(t, id) == {} { assert RemoveOwners(t, id) == t; }
  }

  lemma {:induction false} NoRealmsToDelete(rows: seq<RealmRow>, id: nat)
    requires forall i :: 0 <= i < |rows| ==> rows[i].identity != id
    ensures RealmRowsWithout(rows, id) == rows
  {
    if rows == [] {
    } else {
      NoRealmsToDelete(rows[1..], id);
    }
  }

  // --------------------------------------------------------------- removing

  function ClearedTables(t: Tables): Tables {
    Tables(map[], t.nextIdentity, Names(map[], t.methods.next), Names(map[], t.mechanisms.next),
           Names(map[], t.secctx.next), [], {}, {}, {})
  }

  /** What a cascade over the tables in order has removed. */
  ghost predicate Cascaded(t: Tables, id: nat, order: seq<Child>, t': Tables) {
    && t' == t.(acl := t'.acl, owners := t'.owners, refs := t'.refs, realms := t'.realms, secctx := t'.secctx)
    && t'.acl == (if AclTable in order then t.acl - AclOf(t, id) else t.acl)
    && t'.owners == (if OwnerTable in order then t.owners - OwnersOf(t, id) else t.owners)
    && t'.refs == (if RefsTable in order then t.refs - RefsOf(t, id) else t.refs)
    && t'.realms == (if RealmsTable in order then RealmRowsWithout(t.realms, id) else t.realms)
    && SubNames(t.secctx, t'.secctx)
  }

  lemma CascadeOneRemoves(t: Tables, id: nat, child: Child)
    ensures Cascaded(t, id, [child], CascadeOne(t, id, child))
  {
  }

  lemma CascadedTwice(t: Tables, id: nat, child: Child, order: seq<Child>, t1: Tables, t2: Tables)
    requires Cascaded(t, id, [child], t1) && Cascaded(t1, id, order, t2)
    ensures Cascaded(t, id, [child] + order, t2)
  {
    assert forall c :: c in [child] + order <==> c == child || c in order;
    RealmsGone(t.realms, id);
    assert AclTable in [child] ==> AclOf(t1, id) == {};
    assert OwnerTable in [child] ==> OwnersOf(t1, id) == {};
    assert RefsTable in [child] ==> RefsOf(t1, id) == {};
    assert child != AclTable ==> AclOf(t1, id) == AclOf(t, id);
    assert child != OwnerTable ==> OwnersOf(t1, id) == OwnersOf(t, id);
    assert child != RefsTable ==> RefsOf(t1, id) == RefsOf(t, id);
  }

  lemma RealmsGone(rows: seq<RealmRow>, id: nat)
    ensures RealmRowsWithout(RealmRowsWithout(rows, id), id) == RealmRowsWithout(rows, id)
  {
    RealmsWithout(rows, id, id);
    NoRealmsToDelete(RealmRowsWithout(rows, id), id);
  }

  lemma {:induction false} CascadeRemoves(t: Tables, id: nat, order: seq<Child>)
    ensures Cascaded(t, id, order, Cascade(t, id, order))
    decreases |order|
  {
    if order == [] {
    } else {
      var t1 := CascadeOne(t, id, order[0]);
      CascadeOneRemoves(t, id, order[0]);
      CascadeRemoves(t1, id, order[1..]);
      CascadedTwice(t, id, order[0], order[1..], t1, Cascade(t, id, order));
      assert order == [order[0]] + order[1..];
    }
  }

  lemma SubNamesIsWf<T(!new)>(n: Names<T>, m: Names<T>)
    requires WfNames(n) && SubNames(n, m)
    ensures WfNames(m)
  {
  }

  lemma RemovedRows(t: Tables, id: nat, order: seq<Child>)
    requires CompleteOrder(order)
    ensures var t' := DeleteIdentity(t, id, order);
            && t' == t.(identity := t.identity - {id},
                        acl := t.acl - AclOf(t, id), owners := t.owners - OwnersOf(t, id),
                        refs := t.refs - RefsOf(t, id), realms := RealmRowsWithout(t.realms, id), secctx := t'.secctx)
            && SubNames(t.secctx, t'.secctx)
  {
    var t0 := t.(identity := t.identity - {id});
    CascadeRemoves(t0, id, order);
    assert AclOf(t0, id) == AclOf(t, id) && OwnersOf(t0, id) == OwnersOf(t, id) && RefsOf(t0, id) == RefsOf(t, id);
  }

  lemma OtherViewAfterRemoval(t: Tables, id: nat, t': Tables, y: nat)
    requires Wf(t) && ContextsIntact(t') && SubNames(t.secctx, t'.secctx) && y != id
    requires t' == t.(identity := t.identity - {id}, acl := t.acl - AclOf(t, id), owners := t.owners - OwnersOf(t, id),
                      refs := t.refs - RefsOf(t, id), realms := RealmRowsWithout(t.realms, id), secctx := t'.secctx)
    ensures ViewOf(t', y) == ViewOf(t, y)
  {
    SubNamesIsWf(t.secctx, t'.secctx);
    assert AclOf(t', y) == AclOf(t, y) && OwnersOf(t', y) == OwnersOf(t, y);
    IntactKeepsContexts(t, t', y);
    RealmsWithout(t.realms, id, y);
    SameView(t, t', y);
  }

  /**
   A removal that the foreign-key check lets through removes all of the identity
   and nothing that can be read of another, in whatever order the cascade runs.
   */
  lemma RemovalEffect(t: Tables, id: nat, order: seq<Child>)
    requires Wf(t) && CompleteOrder(order) && ContextsIntact(DeleteIdentity(t, id, order))
    ensures var t' := DeleteIdentity(t, id, order);
            && Wf(t') && t'.identity == t.identity - {id}
            && t'.nextIdentity == t.nextIdentity && t'.methods == t.methods
            && ViewOf(t', id) == None && AclOf(t', id) == {} && OwnersOf(t', id) == {} && RefsOf(t', id) == {}
            && RealmsOf(t'.realms, id) == []
            && (forall y :: y != id ==> ViewOf(t', y) == ViewOf(t, y))
  {
    var t' := DeleteIdentity(t, id, order);
    RemovedRows(t, id, order);
    SubNamesIsWf(t.secctx, t'.secctx);
    RealmsWithout(t.realms, id, id);
    forall y | y != id ensures ViewOf(t', y) == ViewOf(t, y) { OtherViewAfterRemoval(t, id, t', y); }
  }

  // ---------------------------------------------------------------- loading

  /** The elements of a set in string order. */
  ghost function SortedElements(texts: set<string>): seq<string> {
    if texts == {} then [] else
      var x :| x in texts;
      Insert(StrLeq, x, SortedElements(texts - {x}))
  }

  lemma {:induction false} SortedElementsContents(texts: set<string>)
    ensures Sorted(StrLeq, SortedElements(texts))
    ensures multiset(SortedElements(texts)) == multiset(texts)
  {
    if texts == {} {
    } else {
      var x :| x in texts && SortedElements(texts) == Insert(StrLeq, x, SortedElements(texts - {x}));
      SortedElementsContents(texts - {x});
      assert multiset(texts) == multiset(texts - {x}) + multiset{x};
      StrLeqIsTotalOrder();
      InsertKeepsSorted(StrLeq, x, SortedElements(texts - {x}));
      InsertContents(StrLeq, x, SortedElements(texts - {x}));
    }
  }

  ghost function SortedMethods(ms: map<string, set<string>>): MethodMap {
    map m | m in ms :: SortedElements(ms[m])
  }

  /** One entry per system context, with one of the application contexts stored for it. */
  predicate Collapsed(rows: set<Ctx>, tuples: map<string, string>) {
    && (forall c :: c in rows ==> c.sys in tuples)
    && (forall sys :: sys in tuples ==> Ctx(sys, tuples[sys]) in rows)
  }

  /** A list that get_accesscontrol_list can return: keyed by system context alone. */
  ghost predicate AclListOf(list: seq<Ctx>, rows: set<Ctx>) {
    && (forall c :: c in list ==> c in rows)
    && (forall i, j :: 0 <= i < j < |list| ==> list[i].sys != list[j].sys)
    && (forall c :: c in rows ==> exists d :: d in list && d.sys == c.sys)
  }

  ghost predicate OwnerChoice(owner: Option<Ctx>, rows: set<Ctx>) {
    if owner.Some? then owner.value in rows else rows == {}
  }

  function RowRecord(row: IdentityRow): Record {
    var r := SetUsernameIsSecret(SetCaption(EMPTY, Some(row.caption)), row.usernameIsSecret);
    var named := if row.usernameIsSecret then SetCaption(r, Some("")) else SetUsername(r, Some(row.username));
    SetType(SetValidated(SetStoreSecret(named, row.rememberSecret), row.validated), row.kind)
  }

  /** The record that get_identity fills from a view and the two lists read. */
  ghost function LoadedRecord(id: nat, v: View, acl: seq<Ctx>, owner: Option<Ctx>): Record {
    var r := SetRealms(SetId(RowRecord(v.row), id), Sort(StrLeq, v.realms));
    var withAcl := SetAcl(r, acl);
    var withOwner := if owner.Some? then SetOwner(withAcl, owner.value) else withAcl;
    if v.methods == map[] then withOwner else SetMethods(withOwner, SortedMethods(v.methods))
  }

  // ------------------------------------------------ progress of the inserts

  function MechRowsUpTo(t: Tables, id: nat, m: string, c: Ctx, ks: seq<string>, n: nat): set<AclRow>
    requires n <= |ks|
  {
    set k | k in ks[..n] :: AclRow(id, IdFor(t.methods, m), IdFor(t.mechanisms, k), IdFor(t.secctx, c))
  }

  lemma MechRowsNext(t: Tables, id: nat, m: string, c: Ctx, ks: seq<string>, n: nat)
    requires n < |ks|
    ensures MechRowsUpTo(t, id, m, c, ks, n + 1) == MechRowsUpTo(t, id, m, c, ks, n) +
              {AclRow(id, IdFor(t.methods, m), IdFor(t.mechanisms, ks[n]), IdFor(t.secctx, c))}
  {
    assert ks[..n + 1] == ks[..n] + [ks[n]];
  }

  lemma MechRowsAll(t: Tables, id: nat, m: string, c: Ctx, ks: seq<string>)
    requires ks != []
    ensures MechRowsUpTo(t, id, m, c, ks, |ks|) == MechRows(t, id, m, c, ks)
  {
    assert ks[..|ks|] == ks;
  }

  lemma CtxRowsNext(t: Tables, t': Tables, id: nat, m: string, acl: seq<Ctx>, ks: seq<string>, n: nat)
    requires n < |acl|
    ensures CtxRows(t, id, m, acl[..n + 1], ks) == CtxRows(t, id, m, acl[..n], ks) + MechRows(t, id, m, acl[n], ks)
    ensures t' == t.(acl := t'.acl) ==> MechRows(t', id, m, acl[n], ks) == MechRows(t, id, m, acl[n], ks)
  {
    assert acl[..n + 1] == acl[..n] + [acl[n]];
  }

  lemma MethodRowsNext(t: Tables, t': Tables, id: nat, ms: MethodMap, done: set<string>, acl: seq<Ctx>, m: string)
    requires m in ms
    ensures MethodRows(t, id, ms, done + {m}, acl) == MethodRows(t, id, ms, done, acl) + CtxRows(t, id, m, acl, ms[m])
    ensures t' == t.(acl := t'.acl) ==> CtxRows(t', id, m, acl, ms[m]) == CtxRows(t, id, m, acl, ms[m])
  {
    if t' == t.(acl := t'.acl) {
      forall c | c in acl ensures MechRows(t', id, m, c, ms[m]) == MechRows(t, id, m, c, ms[m]) {}
    }
  }

  lemma BareRowsNext(t: Tables, id: nat, acl: seq<Ctx>, n: nat)
    requires n < |acl|
    ensures BareRows(t, id, acl[..n + 1]) ==
            BareRows(t, id, acl[..n]) + {AclRow(id, None, None, IdFor(t.secctx, acl[n]))}
  {
    assert acl[..n + 1] == acl[..n] + [acl[n]];
  }

  lemma NoMethodsNoNames(named: Tables, r: Record)
    ensures MethodsIn(r) == map[] ==> EditedMethods(r) == {} && EditedMechanisms(r) == {}
    ensures named.methods.ids.Keys + {} == named.methods.ids.Keys
    ensures named.mechanisms.ids.Keys + {} == named.mechanisms.ids.Keys
    ensures named.secctx.ids.Keys + {} == named.secctx.ids.Keys
  {
  }

  function Restricted(ms: MethodMap, done: set<string>): MethodMap { map m | m in ms && m in done :: ms[m] }

  lemma NothingRestricted(ms: MethodMap)
    ensures MechanismNames(Restricted(ms, {})) == {}
  {
    assert Restricted(ms, {}) == map[];
  }

  lemma MechanismsNext(ms: MethodMap, done: set<string>, m: string)
    requires m in ms
    ensures MechanismNames(Restricted(ms, done + {m})) == MechanismNames(Restricted(ms, done)) + Elements(ms[m])
  {
    var more := Restricted(ms, done + {m});
    forall k | k in MechanismNames(Restricted(ms, done)) + Elements(ms[m]) ensures k in MechanismNames(more) {
      if k in ms[m] {
        assert m in more && k in more[m];
      } else {
        var n :| n in Restricted(ms, done) && k in Restricted(ms, done)[n];
        assert n in more && k in more[n];
      }
    }
  }

  class MetadataDatabase {
    var now: Tables
    var undo: Option<Tables>

    ghost predicate Valid()
      reads this
    {
      undo == None && Wf(now)
    }

    constructor ()
      ensures Valid() && now == NO_TABLES
    {
      now, undo := NO_TABLES, None;
    }

    // -------------------------------------------------------- transactions

    method StartTransaction(ok: bool) returns (started: bool)
      modifies this
      ensures now == old(now) && started == (ok && old(undo) == None)
      ensures undo == if started then Some(old(now)) else old(undo)
    {
      started := ok && undo == None;
      if started { undo := Some(now); }
    }

    method RollbackTransaction()
      modifies this
      ensures undo == None && now == RolledBack(old(now), old(undo))
    {
      if undo.Some? { now := undo.value; }
      undo := None;
    }

    method CommitTransaction(ok: bool) returns (done: bool)
      modifies this
      ensures done == (ok && old(undo).Some?) && undo == None
      ensures now == if done then old(now) else RolledBack(old(now), old(undo))
    {
      done := ok && undo.Some?;
      if done { undo := None; } else { RollbackTransaction(); }
    }

    // --------------------------------------------------- row-wise inserts

    method InsertAclRow(row: AclRow)
      modifies this
      ensures row.identity in old(now).identity ==>
                now == old(now).(acl := old(now).acl + {row}) && undo == old(undo)
      ensures row.identity !in old(now).identity ==>
                now == RolledBack(old(now), old(undo)) && undo == None
    {
      if row.identity in now.identity {
        now := now.(acl := now.acl + {row});
      } else {
        RollbackTransaction();
      }
    }

    method InsertOwner(id: nat, owner: Ctx)
      modifies this
      ensures id in old(now).identity ==> now == InsertOwnerRow(old(now), id, owner) && undo == old(undo)
      ensures id !in old(now).identity ==> now == RolledBack(old(now), old(undo)) && undo == None
    {
      if id in now.identity {
        now := InsertOwnerRow(now, id, owner);
      } else {
        RollbackTransaction();
      }
    }

    method InsertRealm(id: nat, realm: string) returns (ok: bool)
      modifies this
      ensures ok == (id in old(now).identity)
      ensures ok ==> now == old(now).(realms := old(now).realms + [RealmRow(id, realm)]) && undo == old(undo)
      ensures !ok ==> now == RolledBack(old(now), old(undo)) && undo == None
    {
      ok := id in now.identity;
      if ok {
        now := now.(realms := now.realms + [RealmRow(id, realm)]);
      } else {
        RollbackTransaction();
      }
    }

    // --------------------------------------------- pieces of update_identity

    method UpdateCredentials(r: Record) returns (id: nat)
      modifies this
      ensures id == TargetId(old(now), r) && now == WriteIdentityRow(old(now), r) && undo == old(undo)
      ensures id == (if IsNew(r) then old(now).nextIdentity else GetId(r))
      ensures now == old(now).(identity := now.identity, nextIdentity := now.nextIdentity)
      ensures now.nextIdentity == old(now).nextIdentity + (if IsNew(r) then 1 else 0)
      ensures !IsNew(r) && id !in old(now).identity ==> now.identity == old(now).identity
      ensures IsNew(r) || id in old(now).identity ==>
                var caption := if GetCaption(r).Some? then GetCaption(r).value else "";
                var username := if r.username.Some? && !GetUsernameIsSecret(r) then r.username.value else "";
                now.identity == old(now).identity[id := IdentityRow(
                  caption, username, GetUsernameIsSecret(r), GetStoreSecret(r), GetValidated(r), GetType(r))]
    {
      var row := IdentityRow(
        if GetCaption(r).Some? then GetCaption(r).value else "",
        if !GetUsernameIsSecret(r) && r.username.Some? then r.username.value else "",
        GetUsernameIsSecret(r), GetStoreSecret(r), GetValidated(r), GetType(r));
      id := GetId(r);
      if !IsNew(r) {
        if id in now.identity { now := now.(identity := now.identity[id := row]); }
      } else {
        id := now.nextIdentity;
        now := now.(identity := now.identity[id := row], nextIdentity := id + 1);
      }
    }

    method UpdateRealms(r: Record, id: nat, realms: Option<seq<string>>) returns (ok: bool)
      modifies this
      ensures realms == None || realms.value == [] ==> ok && now == old(now) && undo == old(undo)
      ensures realms.Some? && realms.value != [] && id in old(now).identity ==>
                ok && now == WriteRealms(old(now), id, IsNew(r), realms.value) && undo == old(undo)
      ensures realms.Some? && realms.value != [] && id !in old(now).identity && old(undo).Some? ==>
                !ok && now == old(undo).value && undo == None
    {
      ok := true;
      if realms.Some? && |realms.value| > 0 {
        if !IsNew(r) {
          now := RemoveRealms(now, id);
        }
        ghost var base := now;
        var items := realms.value;
        var i := 0;
        while i < |items|
          modifies this
          invariant 0 <= i <= |items| && ok && undo == old(undo)
          invariant base.identity == old(now).identity
          invariant id in base.identity ==> now == base.(realms := base.realms + RealmRows(id, items[..i]))
          invariant id !in base.identity ==> i == 0 && now == base
        {
          assert RealmRows(id, items[..i + 1]) == RealmRows(id, items[..i]) + [RealmRow(id, items[i])];
          ok := InsertRealm(id, items[i]);
          if !ok { return; }
          i := i + 1;
        }
        assert items[..i] == items;
      }
    }

    /** INSERT OR IGNORE of every context of the list */
    method InsertContexts(acl: seq<Ctx>)
      requires WfNames(now.secctx)
      modifies this
      ensures now == old(now).(secctx := now.secctx) && undo == old(undo)
      ensures Grown(old(now).secctx, now.secctx, Elements(acl))
    {
      var i := 0;
      while i < |acl|
        modifies this
        invariant 0 <= i <= |acl| && undo == old(undo) && now == old(now).(secctx := now.secctx)
        invariant Grown(old(now).secctx, now.secctx, Elements(acl[..i]))
      {
        GrownByOne(old(now).secctx, now.secctx, Elements(acl[..i]), acl[i]);
        ElementsOfPrefix(acl, i);
        now := now.(secctx := InsertName(now.secctx, acl[i]));
        i := i + 1;
      }
      assert acl[..i] == acl;
    }

    method InsertMechanisms(ks: seq<string>)
      requires WfNames(now.mechanisms)
      modifies this
      ensures now == old(now).(mechanisms := now.mechanisms) && undo == old(undo)
      ensures Grown(old(now).mechanisms, now.mechanisms, Elements(ks))
    {
      var i := 0;
      while i < |ks|
        modifies this
        invariant 0 <= i <= |ks| && undo == old(undo) && now == old(now).(mechanisms := now.mechanisms)
        invariant Grown(old(now).mechanisms, now.mechanisms, Elements(ks[..i]))
      {
        GrownByOne(old(now).mechanisms, now.mechanisms, Elements(ks[..i]), ks[i]);
        ElementsOfPrefix(ks, i);
        now := now.(mechanisms := InsertName(now.mechanisms, ks[i]));
        i := i + 1;
      }
      assert ks[..i] == ks;
    }

    /** _insert_methods, in whatever order the hash table is walked */
    method InsertMethods(ms: MethodMap)
      requires WfNames(now.methods) && WfNames(now.mechanisms)
      modifies this
      ensures now == old(now).(methods := now.methods, mechanisms := now.mechanisms) && undo == old(undo)
      ensures Grown(old(now).methods, now.methods, ms.Keys)
      ensures Grown(old(now).mechanisms, now.mechanisms, MechanismNames(ms))
    {
      var todo := ms.Keys;
      ghost var done: set<string> := {};
      NothingRestricted(ms);
      while todo != {}
        modifies this
        invariant ms.Keys == done + todo && undo == old(undo)
        invariant now == old(now).(methods := now.methods, mechanisms := now.mechanisms)
        invariant Grown(old(now).methods, now.methods, done)
        invariant Grown(old(now).mechanisms, now.mechanisms, MechanismNames(Restricted(ms, done)))
        decreases todo
      {
        var m :| m in todo;
        ghost var before := now;
        GrownByOne(old(now).methods, now.methods, done, m);
        now := now.(methods := InsertName(now.methods, m));
        InsertMechanisms(ms[m]);
        MechanismsNext(ms, done, m);
        GrownTwice(old(now).mechanisms, before.mechanisms, now.mechanisms,
                   MechanismNames(Restricted(ms, done)), Elements(ms[m]));
        todo, done := todo - {m}, done + {m};
      }
      assert Restricted(ms, done) == ms;
    }

    /** The rows of one method and one context. */
    method StoreMechanismRows(id: nat, m: string, c: Ctx, ks: seq<string>)
      requires id !in now.identity ==> id !in RolledBack(now, undo).identity
      modifies this
      ensures id in old(now).identity ==>
                now == old(now).(acl := old(now).acl + MechRows(old(now), id, m, c, ks)) && undo == old(undo)
      ensures id !in old(now).identity ==> now == RolledBack(old(now), old(undo)) && undo == None
    {
      var i := 0;
      while i < |ks|
        modifies this
        invariant 0 <= i <= |ks|
        invariant id in old(now).identity ==> undo == old(undo)
        invariant id in old(now).identity ==>
                    now == old(now).(acl := old(now).acl + MechRowsUpTo(old(now), id, m, c, ks, i))
        invariant id !in old(now).identity ==>
                    if i == 0 then now == old(now) && undo == old(undo)
                    else now == RolledBack(old(now), old(undo)) && undo == None
      {
        InsertAclRow(AclRow(id, IdFor(now.methods, m), IdFor(now.mechanisms, ks[i]), IdFor(now.secctx, c)));
        MechRowsNext(old(now), id, m, c, ks, i);
        i := i + 1;
      }
      if |ks| <= 0 {
        InsertAclRow(AclRow(id, IdFor(now.methods, m), None, IdFor(now.secctx, c)));
      } else {
        MechRowsAll(old(now), id, m, c, ks);
      }
    }

    /** The rows of one method. */
    method StoreContextRows(id: nat, m: string, acl: seq<Ctx>, ks: seq<string>)
      requires id !in now.identity ==> id !in RolledBack(now, undo).identity
      requires acl != []
      modifies this
      ensures id in old(now).identity ==>
                now == old(now).(acl := old(now).acl + CtxRows(old(now), id, m, acl, ks)) && undo == old(undo)
      ensures id !in old(now).identity ==> now == RolledBack(old(now), old(undo)) && undo == None
    {
      var i := 0;
      while i < |acl|
        modifies this
        invariant 0 <= i <= |acl|
        invariant id in old(now).identity ==> undo == old(undo)
        invariant id in old(now).identity ==>
                    now == old(now).(acl := old(now).acl + CtxRows(old(now), id, m, acl[..i], ks))
        invariant id !in old(now).identity ==>
                    if i == 0 then now == old(now) && undo == old(undo)
                    else now == RolledBack(old(now), old(undo)) && undo == None
      {
        CtxRowsNext(old(now), now, id, m, acl, ks, i);
        StoreMechanismRows(id, m, acl[i], ks);
        i := i + 1;
      }
      assert acl[..i] == acl;
    }

    method StoreBareRows(id: nat, acl: seq<Ctx>)
      requires id !in now.identity ==> id !in RolledBack(now, undo).identity
      requires acl != []
      modifies this
      ensures id in old(now).identity ==>
                now == old(now).(acl := old(now).acl + BareRows(old(now), id, acl)) && undo == old(undo)
      ensures id !in old(now).identity ==> now == RolledBack(old(now), old(undo)) && undo == None
    {
      var i := 0;
      while i < |acl|
        modifies this
        invariant 0 <= i <= |acl|
        invariant id in old(now).identity ==> undo == old(undo)
        invariant id in old(now).identity ==>
                    now == old(now).(acl := old(now).acl + BareRows(old(now), id, acl[..i]))
        invariant id !in old(now).identity ==>
                    if i == 0 then now == old(now) && undo == old(undo)
                    else now == RolledBack(old(now), old(undo)) && undo == None
      {
        BareRowsNext(old(now), id, acl, i);
        InsertAclRow(AclRow(id, None, None, IdFor(now.secctx, acl[i])));
        i := i + 1;
      }
      assert acl[..i] == acl;
    }

    /** The rows of all methods, in whatever order the hash table is walked. */
    method StoreMethodRows(id: nat, ms: MethodMap, acl: seq<Ctx>)
      requires id !in now.identity ==> id !in RolledBack(now, undo).identity
      requires acl != [] && ms != map[]
      modifies this
      ensures id in old(now).identity ==>
                now == old(now).(acl := old(now).acl + MethodRows(old(now), id, ms, ms.Keys, acl)) && undo == old(undo)
      ensures id !in old(now).identity ==> now == RolledBack(old(now), old(undo)) && undo == None
    {
      var todo := ms.Keys;
      while todo != {}
        modifies this
        invariant todo <= ms.Keys
        invariant id in old(now).identity ==> undo == old(undo)
        invariant id in old(now).identity ==>
                    now == old(now).(acl := old(now).acl + MethodRows(old(now), id, ms, ms.Keys - todo, acl))
        invariant id !in old(now).identity ==>
                    if todo == ms.Keys then now == old(now) && undo == old(undo)
                    else now == RolledBack(old(now), old(undo)) && undo == None
        decreases todo
      {
        var m :| m in todo;
        MethodRowsNext(old(now), now, id, ms, ms.Keys - todo, acl, m);
        assert ms.Keys - (todo - {m}) == ms.Keys - todo + {m};
        StoreContextRows(id, m, acl, ms[m]);
        todo := todo - {m};
      }
      assert ms.Keys - {} == ms.Keys && ms.Keys != {};
    }

    /** All rows of the cross product. */
    method StoreRows(id: nat, ms: MethodMap, acl: seq<Ctx>)
      requires id !in now.identity ==> id !in RolledBack(now, undo).identity
      requires acl != []
      modifies this
      ensures id in old(now).identity ==> now == InsertProduct(old(now), id, ms, acl) && undo == old(undo)
      ensures id !in old(now).identity ==> now == RolledBack(old(now), old(undo)) && undo == None
    {
      if ms != map[] {
        StoreMethodRows(id, ms, acl);
      } else {
        StoreBareRows(id, acl);
      }
    }

    /** The owner part of update_identity. */
    method WriteOwner(r: Record, id: nat, owner: Ctx)
      requires GetOwner(r) == Some(owner) && undo.Some?
      modifies this
      ensures id in old(now).identity || Owner !in r.edits ==>
                now == AfterOwner(old(now), id, r) && undo == old(undo)
      ensures id !in old(now).identity && Owner in r.edits ==> now == old(undo).value && undo == None
    {
      if Owner in r.edits {
        if !IsNew(r) {
          now := DeleteOwners(now, id);
        }
        if owner.sys != "" {
          now := now.(secctx := InsertName(now.secctx, owner));
        }
        InsertOwner(id, owner);
      }
    }

    /** The delete of old ACL rows and the new names, up to the ACL rows themselves. */
    method WriteNames(r: Record, id: nat, acl: seq<Ctx>, methods: Option<MethodMap>)
      requires WfNames(now.methods) && WfNames(now.mechanisms) && WfNames(now.secctx)
      requires acl == GetAcl(r) && methods == GetMethods(r)
      modifies this
      ensures NamesAdded(AfterAclDelete(old(now), id, r), now, r) && undo == old(undo)
    {
      if Acl in r.edits {
        if !IsNew(r) {
          DropNamesIsWf(now.secctx, AclContexts(AclOf(now, id)) - RefContexts(now) - OwnerContexts(now.owners));
          now := DeleteAcl(now, id);
        }
        InsertContexts(acl);
      }
      ghost var named := now;
      assert named.secctx.ids.Keys == AfterAclDelete(old(now), id, r).secctx.ids.Keys + EditedContexts(r);
      if Methods in r.edits && methods.Some? && |methods.value| > 0 {
        InsertMethods(methods.value);
        GrowsTransitive(AfterAclDelete(old(now), id, r), named, now);
      }
      NoMethodsNoNames(named, r);
    }

    /** The statements up to the OWNER row, in a transaction that has just begun. */
    method WriteFirst(r: Record) returns (id: nat, ok: bool)
      requires undo == Some(now) && Wf(now)
      modifies this
      ensures id == TargetId(old(now), r)
      ensures !ok ==> undo == None && now == old(now)
      ensures Live(old(now), r) ==> ok == GetOwner(r).Some?
      ensures ok && Live(old(now), r) ==> now == AfterOwner(AfterRealms(old(now), r), id, r) && undo == old(undo)
      ensures !Live(old(now), r) ==> now == old(now) && ok == (RealmsToWrite(r) == [] && GetOwner(r).Some?)
      ensures ok && !Live(old(now), r) ==> undo == if Owner in r.edits then None else old(undo)
    {
      ok := true;
      ghost var live := Live(now, r);
      id := UpdateCredentials(r);
      assert live <==> id in now.identity;
      if Realms in r.edits {
        ok := UpdateRealms(r, id, GetRealms(r));
        if !ok { RollbackTransaction(); return; }
      }
      var owner := GetOwner(r);
      ok := owner.Some?;
      if !ok { RollbackTransaction(); return; }
      WriteOwner(r, id, owner.value);
    }

    /** The statements after it. */
    method WriteLast(r: Record, id: nat)
      requires id !in now.identity ==> id !in RolledBack(now, undo).identity
      requires WfNames(now.methods) && WfNames(now.mechanisms) && WfNames(now.secctx) && GetAcl(r) != []
      modifies this
      ensures exists named :: NamesAdded(AfterAclDelete(old(now), id, r), named, r) &&
                (if id in old(now).identity then now == AfterRows(named, id, r) && undo == old(undo)
                 else if WritesRows(r) then now == RolledBack(named, old(undo)) && undo == None
                 else now == named && undo == old(undo))
    {
      var acl, methods := GetAcl(r), GetMethods(r);
      WriteNames(r, id, acl, methods);
      ghost var named := now;
      if (Acl in r.edits || Methods in r.edits) && methods.Some? {
        StoreRows(id, methods.value, acl);
      }
      assert NamesAdded(AfterAclDelete(old(now), id, r), named, r);
    }

    /** All of the statements between BEGIN and COMMIT. */
    method WriteAll(r: Record) returns (id: nat, ok: bool)
      requires undo == Some(now) && Wf(now)
      modifies this
      ensures id == TargetId(old(now), r)
      ensures Live(old(now), r) ==> ok == (GetOwner(r).Some? && GetAcl(r) != [])
      ensures Live(old(now), r) && ok ==> Stored(old(now), r, now, id) && undo == old(undo)
      ensures Live(old(now), r) && !ok ==> now == old(now) && undo == None
      ensures !Live(old(now), r) && !GetsToRows(r) ==> !ok && now == old(now) && undo == None
      ensures !Live(old(now), r) && GetsToRows(r) ==>
                ok && DeadOutcome(old(now), r, now, undo.Some?) && (undo.Some? ==> undo == old(undo))
    {
      ghost var t, live := now, Live(now, r);
      FreshIdHasNoRows(t);
      id, ok := WriteFirst(r);
      if !ok { return; }
      ghost var before, undo0 := now, undo;
      ok := GetAcl(r) != [];
      if !ok { RollbackTransaction(); return; }
      if live { FirstSteps(t, r); }
      WriteLast(r, id);
      ghost var named :| NamesAdded(AfterAclDelete(before, id, r), named, r) &&
                (if id in before.identity then now == AfterRows(named, id, r)
                 else if WritesRows(r) then now == RolledBack(named, undo0) else now == named);
      if live {
        StepsMeanStored(t, r, named);
      } else {
        NothingToDelete(before, id);
      }
    }

    /** gsignond_db_metadata_database_update_identity */
    method UpdateIdentity(r: Record, beginOk: bool, commitOk: bool) returns (ret: nat)
      requires Valid()
      modifies this
      ensures Valid()
      ensures r.edits == {} ==> ret == GetId(r) && now == old(now)
      ensures r.edits != {} ==> (ret != 0 <==> Accepted(old(now), r, beginOk, commitOk))
      ensures r.edits != {} && (IsNew(r) || GetId(r) in old(now).identity) ==>
                ret == if beginOk && commitOk && GetOwner(r).Some? && GetAcl(r) != [] then
                         (if IsNew(r) then old(now).nextIdentity else GetId(r))
                       else 0
      ensures r.edits != {} && Live(old(now), r) ==>
                if ret != 0 then Stored(old(now), r, now, ret) else now == old(now)
      ensures r.edits != {} && !Live(old(now), r) ==>
                ret == if beginOk && commitOk && GetOwner(r).Some? && GetAcl(r) != []
                          && !(Realms in r.edits && GetRealms(r).Some? && GetRealms(r).value != [])
                          && Owner !in r.edits
                          && !((Acl in r.edits || Methods in r.edits) && GetMethods(r).Some?)
                       then GetId(r) else 0
      ensures r.edits != {} && !Live(old(now), r) ==>
                DeadUpdate(old(now), r, beginOk, commitOk, now)
    {
      ret := 0;
      if r.edits == {} { return GetId(r); }
      ghost var t := now;
      var started := StartTransaction(beginOk);
      if !started { return; }
      var id, ok := WriteAll(r);
      if !ok { RollbackTransaction(); }
      if !Live(t, r) { GrowsEffect(t, now); }
      if !ok { return; }
      var done := CommitTransaction(commitOk);
      if done { ret := id; }
    }

    /** The texts a query returns, in any order, made a sorted sequence. */
    method ListToSequence(texts: set<string>) returns (s: seq<string>)
      ensures s == SortedElements(texts)
    {
      s := [];
      var todo := texts;
      StrLeqIsTotalOrder();
      while todo != {}
        invariant todo <= texts
        invariant Sorted(StrLeq, s) && multiset(s) == multiset(texts - todo)
        decreases todo
      {
        var x :| x in todo;
        InsertKeepsSorted(StrLeq, x, s);
        InsertContents(StrLeq, x, s);
        s := Insert(StrLeq, x, s);
        assert texts - (todo - {x}) == texts - todo + {x};
        todo := todo - {x};
      }
      assert texts - {} == texts;
      SortedElementsContents(texts);
      SortedUnique(StrLeq, s, SortedElements(texts));
    }

    /** Rows as a hash table from system to application context; a later row replaces an earlier one. */
    method StringTuples(rows: set<Ctx>) returns (tuples: map<string, string>)
      ensures Collapsed(rows, tuples)
    {
      tuples := map[];
      var todo := rows;
      while todo != {}
        invariant todo <= rows
        invariant Collapsed(rows - todo, tuples)
        decreases todo
      {
        var c :| c in todo;
        tuples := tuples[c.sys := c.app];
        todo := todo - {c};
      }
      assert rows - {} == rows;
    }

    /** gsignond_db_metadata_database_get_accesscontrol_list */
    method GetAccessControlList(id: nat) returns (list: seq<Ctx>)
      ensures AclListOf(list, CtxsOf(now, id))
    {
      var tuples := StringTuples(CtxsOf(now, id));
      list := [];
      var todo := tuples.Keys;
      while todo != {}
        invariant todo <= tuples.Keys
        invariant forall i :: 0 <= i < |list| ==>
                    list[i].sys in tuples && list[i].sys !in todo && list[i].app == tuples[list[i].sys]
        invariant forall i, j :: 0 <= i < j < |list| ==> list[i].sys != list[j].sys
        invariant forall k :: k in tuples && k !in todo ==> Ctx(k, tuples[k]) in list
        decreases todo
      {
        var sys :| sys in todo;
        list := list + [Ctx(sys, tuples[sys])];
        todo := todo - {sys};
      }
      forall i | 0 <= i < |list| ensures list[i] in CtxsOf(now, id) {
        assert list[i] == Ctx(list[i].sys, tuples[list[i].sys]);
      }
    }

    /** gsignond_db_metadata_database_get_owner */
    method GetOwnerContext(id: nat) returns (owner: Option<Ctx>)
      ensures OwnerChoice(owner, OwnerCtxsOf(now, id))
      ensures owner.Some? ==> owner.value in OwnerCtxsOf(now, id)
      ensures owner == None <==> OwnerCtxsOf(now, id) == {}
    {
      var tuples := StringTuples(OwnerCtxsOf(now, id));
      owner := None;
      if tuples != map[] {
        var sys :| sys in tuples;
        owner := Some(Ctx(sys, tuples[sys]));
      }
    }

    method ReadMethods(id: nat) returns (methods: MethodMap)
      ensures methods == SortedMethods(MethodsOf(now, id))
    {
      methods := map[];
      var todo := MethodsOf(now, id).Keys;
      while todo != {}
        invariant todo <= MethodsOf(now, id).Keys
        invariant methods.Keys == MethodsOf(now, id).Keys - todo
        invariant forall m :: m in methods ==> methods[m] == SortedElements(MethodsOf(now, id)[m])
        decreases todo
      {
        var m :| m in todo;
        var mechanisms := ListToSequence(MechsOf(now, id, m));
        methods := methods[m := mechanisms];
        todo := todo - {m};
      }
    }

    /** _gsignond_db_metadata_database_read_identity on a new record */
    method ReadIdentity(row: IdentityRow) returns (record: IdentityInfo)
      ensures fresh(record) && record.State() == RowRecord(row)
    {
      record := new IdentityInfo();
      record.SetCaption(Some(row.caption));
      record.SetUsernameSecret(row.usernameIsSecret);
      if row.usernameIsSecret {
        record.SetCaption(Some(""));
      } else {
        record.SetUsername(Some(row.username));
      }
      record.SetStoreSecret(row.rememberSecret);
      record.SetValidated(row.validated);
      record.SetIdentityType(row.kind);
    }

    /** gsignond_db_metadata_database_get_identity; acl and owner are the lists the queries gave. */
    method GetIdentity(id: nat) returns (info: IdentityInfo?, ghost acl: seq<Ctx>, ghost owner: Option<Ctx>)
      ensures info == null <==> id !in now.identity
      ensures info != null ==> fresh(info)
      ensures info != null ==> AclListOf(acl, CtxsOf(now, id)) && OwnerChoice(owner, OwnerCtxsOf(now, id))
      ensures info != null ==> info.State() == LoadedRecord(id, ViewOf(now, id).value, acl, owner)
    {
      acl, owner := [], None;
      info := null;
      if id !in now.identity { return; }
      var row := now.identity[id];
      var record := ReadIdentity(row);
      record.SetId(id);

      var realms := Sort(StrLeq, RealmsOf(now.realms, id));
      record.SetRealms(realms);

      var list := GetAccessControlList(id);
      if list != [] { record.SetAccessControlList(list); }

      var own := GetOwnerContext(id);
      if own.Some? { record.SetOwner(own.value); }

      if MethodsOf(now, id) != map[] {
        var methods := ReadMethods(id);
        record.SetMethods(methods);
      }
      info, acl, owner := record, list, own;
    }

    /** gsignond_db_metadata_database_remove_identity */
    method RemoveIdentity(id: nat, order: seq<Child>, beginOk: bool, commitOk: bool) returns (ok: bool)
      requires Valid() && CompleteOrder(order)
      modifies this
      ensures Valid()
      ensures ok == (beginOk && commitOk && ContextsIntact(DeleteIdentity(old(now), id, order)))
      ensures var after := DeleteIdentity(old(now), id, order);
              var named := after.secctx.ids.Values;
              var intact := && (forall r :: r in after.acl && r.ctx.Some? ==> r.ctx.value in named)
                            && (forall r :: r in after.owners && r.ctx.Some? ==> r.ctx.value in named)
                            && (forall r :: r in after.refs ==> r.ctx in named);
              ok == (beginOk && commitOk && intact)
      ensures now == if ok then DeleteIdentity(old(now), id, order) else old(now)
    {
      ok := false;
      var started := StartTransaction(beginOk);
      if !started { return; }
      var after := DeleteIdentity(now, id, order);
      if !ContextsIntact(after) {
        RollbackTransaction();
        return;
      }
      RemovalEffect(now, id, order);
      now := after;
      ok := CommitTransaction(commitOk);
    }

    /** _gsignond_db_metadata_database_clear: the AUTOINCREMENT counters stay. */
    method Clear(beginOk: bool, commitOk: bool) returns (ok: bool)
      requires Valid()
      modifies this
      ensures Valid() && ok == (beginOk && commitOk)
      ensures now == if ok then ClearedTables(old(now)) else old(now)
      ensures ok ==> now.identity == map[] && now.realms == [] && now.acl == {} && now.refs == {} && now.owners == {}
      ensures ok ==> now.methods.ids == map[] && now.mechanisms.ids == map[] && now.secctx.ids == map[]
      ensures now.nextIdentity == old(now).nextIdentity && now.methods.next == old(now).methods.next
      ensures now.mechanisms.next == old(now).mechanisms.next && now.secctx.next == old(now).secctx.next
    {
      ok := StartTransaction(beginOk);
      if !ok { return; }
      now := now.(identity := map[], realms := [], acl := {}, refs := {}, owners := {});
      now := now.(methods := Names(map[], now.methods.next));
      now := now.(mechanisms := Names(map[], now.mechanisms.next));
      now := now.(secctx := Names(map[], now.secctx.next));
      ok := CommitTransaction(commitOk);
    }

    /** gsignond_db_metadata_database_get_method_id: 0 when there is none. */
    method GetMethodId(name: string) returns (id: nat)
      requires Valid()
      ensures id == 0 <==> name !in now.methods.ids
      ensures forall other :: other in now.methods.ids ==> (now.methods.ids[other] == id <==> other == name)
    {
      id := if name in now.methods.ids then now.methods.ids[name] else 0;
    }

    /** gsignond_db_metadata_database_insert_method */
    method InsertMethod(name: string, beginOk: bool, commitOk: bool) returns (ok: bool, id: nat)
      requires Valid()
      modifies this
      ensures Valid() && ok == (beginOk && commitOk && name !in old(now).methods.ids)
      ensures now == if ok then old(now).(methods := InsertName(old(now).methods, name)) else old(now)
      ensures ok ==> id == old(now).methods.next
      ensures forall y :: ViewOf(now, y) == ViewOf(old(now), y)
    {
      id, ok := 0, false;
      var started := StartTransaction(beginOk);
      if !started { return; }
      if name in now.methods.ids {
        RollbackTransaction();
        return;
      }
      InsertNameIsWf(now.methods, name);
      GrowsEffect(now, now.(methods := InsertName(now.methods, name)));
      now := now.(methods := InsertName(now.methods, name));
      ok := CommitTransaction(commitOk);
      if ok { id := GetMethodId(name); }
    }
  }
}
