/**
 When the removal of an identity meets the foreign-key check: the orphan
 triggers look at two of the three tables that can name a context, so they
 delete contexts that rows of the third still name.
 */
module MetadataRemoval {
  import opened Ordering
  import opened MetadataTables
  import opened MetadataStore
  import opened MetadataDatabase
  import opened MetadataRestore

  function RefCtxs(rows: set<RefRow>): set<nat> { set r | r in rows :: r.ctx }

  // The contexts that rows of the identity name, and that rows of others name.
  function OwnAcl(t: Tables, id: nat): set<nat> { AclContexts(AclOf(t, id)) }
  function OwnOwners(t: Tables, id: nat): set<nat> { OwnerContexts(OwnersOf(t, id)) }
  function OwnRefs(t: Tables, id: nat): set<nat> { RefCtxs(RefsOf(t, id)) }
  function OtherAcl(t: Tables, id: nat): set<nat> { AclContexts(t.acl - AclOf(t, id)) }
  function OtherOwners(t: Tables, id: nat): set<nat> { OwnerContexts(t.owners - OwnersOf(t, id)) }
  function OtherRefs(t: Tables, id: nat): set<nat> { RefCtxs(t.refs - RefsOf(t, id)) }

  function Own(t: Tables, id: nat, child: Child): set<nat> {
    match child
    case AclTable => OwnAcl(t, id) case OwnerTable => OwnOwners(t, id) case RefsTable => OwnRefs(t, id)
    case RealmsTable => {}
  }

  function Other(t: Tables, id: nat, child: Child): set<nat> {
    match child
    case AclTable => OtherAcl(t, id) case OwnerTable => OtherOwners(t, id) case RefsTable => OtherRefs(t, id)
    case RealmsTable => {}
  }

  function NamedByOthers(t: Tables, id: nat): set<nat> {
    OtherAcl(t, id) + OtherOwners(t, id) + OtherRefs(t, id)
  }

  // ------------------------------------------------- one table of the cascade

  lemma AclContextsSplit(rows: set<AclRow>, part: set<AclRow>)
    requires part <= rows
    ensures AclContexts(rows) == AclContexts(part) + AclContexts(rows - part)
  {
  }

  lemma OwnerContextsSplit(rows: set<OwnerRow>, part: set<OwnerRow>)
    requires part <= rows
    ensures OwnerContexts(rows) == OwnerContexts(part) + OwnerContexts(rows - part)
  {
  }

  lemma RefCtxsSplit(rows: set<RefRow>, part: set<RefRow>)
    requires part <= rows
    ensures RefCtxs(rows) == RefCtxs(part) + RefCtxs(rows - part)
  {
  }

  lemma Split(t: Tables, id: nat)
    ensures AclContexts(t.acl) == OwnAcl(t, id) + OtherAcl(t, id)
    ensures OwnerContexts(t.owners) == OwnOwners(t, id) + OtherOwners(t, id)
    ensures RefContexts(t) == OwnRefs(t, id) + OtherRefs(t, id)
  {
    AclContextsSplit(t.acl, AclOf(t, id));
    OwnerContextsSplit(t.owners, OwnersOf(t, id));
    RefCtxsSplit(t.refs, RefsOf(t, id));
    assert RefContexts(t) == RefCtxs(t.refs);
  }

  /** One table of the cascade: what it leaves of the identity's rows, and of others'. */
  lemma CascadeOneKeepsOthers(t: Tables, id: nat, child: Child)
    ensures var t' := CascadeOne(t, id, child);
            && OtherAcl(t', id) == OtherAcl(t, id) && OtherOwners(t', id) == OtherOwners(t, id)
            && OtherRefs(t', id) == OtherRefs(t, id)
            && OwnAcl(t', id) == (if child == AclTable then {} else OwnAcl(t, id))
            && OwnOwners(t', id) == (if child == OwnerTable then {} else OwnOwners(t, id))
            && OwnRefs(t', id) == (if child == RefsTable then {} else OwnRefs(t, id))
  {
    var t' := CascadeOne(t, id, child);
    assert t'.acl - AclOf(t', id) == t.acl - AclOf(t, id);
    assert t'.owners - OwnersOf(t', id) == t.owners - OwnersOf(t, id);
    assert t'.refs - RefsOf(t', id) == t.refs - RefsOf(t, id);
    assert AclOf(t', id) == if child == AclTable then {} else AclOf(t, id);
    assert OwnersOf(t', id) == if child == OwnerTable then {} else OwnersOf(t, id);
    assert RefsOf(t', id) == if child == RefsTable then {} else RefsOf(t, id);
  }

  /** The contexts that the trigger of one table deletes. */
  function Dropped(t: Tables, id: nat, child: Child): set<nat> {
    match child
    case AclTable => OwnAcl(t, id) - RefContexts(t) - OwnerContexts(t.owners)
    case OwnerTable => OwnOwners(t, id) - RefContexts(t) - AclContexts(t.acl)
    case RefsTable => OwnRefs(t, id) - AclContexts(t.acl) - OwnerContexts(t.owners)
    case RealmsTable => {}
  }

  lemma CascadeOneDrops(t: Tables, id: nat, child: Child)
    ensures CascadeOne(t, id, child).secctx == DropNames(t.secctx, Dropped(t, id, child))
  {
    if child == RealmsTable { assert DropNames(t.secctx, {}) == t.secctx; }
  }

  // --------------------------------------------------------- the whole cascade

  lemma DropTwice<T(!new)>(n: Names<T>, a: set<nat>, b: set<nat>)
    ensures DropNames(DropNames(n, a), b) == DropNames(n, a + b)
  {
  }

  /** The contexts that the triggers delete over the whole cascade. */
  function AllDropped(t: Tables, id: nat, order: seq<Child>): set<nat>
    decreases |order|
  {
    if order == [] then {}
    else Dropped(t, id, order[0]) + AllDropped(CascadeOne(t, id, order[0]), id, order[1..])
  }

  lemma {:induction false} CascadeDrops(t: Tables, id: nat, order: seq<Child>)
    ensures Cascade(t, id, order).secctx == DropNames(t.secctx, AllDropped(t, id, order))
    ensures NamedByOthers(Cascade(t, id, order), id) == NamedByOthers(t, id)
    decreases |order|
  {
    if order == [] {
      assert DropNames(t.secctx, {}) == t.secctx;
    } else {
      var t1 := CascadeOne(t, id, order[0]);
      CascadeOneKeepsOthers(t, id, order[0]);
      CascadeOneDrops(t, id, order[0]);
      CascadeDrops(t1, id, order[1..]);
      DropTwice(t.secctx, Dropped(t, id, order[0]), AllDropped(t1, id, order[1..]));
    }
  }

  /** Does the cascade visit x before its first visit to y? */
  predicate Before(order: seq<Child>, x: Child, y: Child)
    decreases |order|
  {
    order != [] && (order[0] == x || (order[0] != y && Before(order[1..], x, y)))
  }

  /** The tables that can name a context. */
  const NAMING: set<Child> := {AclTable, OwnerTable, RefsTable}

  /**
   The trigger of a table deletes a context that the identity's rows there name,
   if then no row of the two other tables does: none of another identity, and
   none of its own that the cascade has not deleted yet.
   */
  predicate DroppedAt(t: Tables, id: nat, order: seq<Child>, child: Child, c: nat) {
    && child in order && c in Own(t, id, child)
    && forall x :: x in NAMING && x != child ==>
         c !in Other(t, id, x) && (c in Own(t, id, x) ==> Before(order, x, child))
  }

  lemma {:induction false} DroppedIff(t: Tables, id: nat, order: seq<Child>, c: nat)
    ensures c in AllDropped(t, id, order) <==> exists child :: child in NAMING && DroppedAt(t, id, order, child, c)
    decreases |order|
  {
    if order == [] {
    } else {
      var t1 := CascadeOne(t, id, order[0]);
      CascadeOneKeepsOthers(t, id, order[0]);
      DroppedIff(t1, id, order[1..], c);
      Split(t, id);
      forall child | child in NAMING { DroppedAtStep(t, id, order, child, c); }
    }
  }

  /** A table's turn comes first, or its trigger acts as it would on what the first turn leaves. */
  lemma DroppedAtStep(t: Tables, id: nat, order: seq<Child>, child: Child, c: nat)
    requires order != [] && child in NAMING
    ensures DroppedAt(t, id, order, child, c) <==>
            if child == order[0] then c in Dropped(t, id, child)
            else DroppedAt(CascadeOne(t, id, order[0]), id, order[1..], child, c)
    ensures child == order[0] ==> !DroppedAt(CascadeOne(t, id, order[0]), id, order[1..], child, c)
  {
    var t1 := CascadeOne(t, id, order[0]);
    assert child in order <==> child == order[0] || child in order[1..];
    forall x | x in NAMING
      ensures Other(t1, id, x) == Other(t, id, x) && Own(t1, id, x) == if x == order[0] then {} else Own(t, id, x)
    {
      CascadeOneKeepsOthers(t, id, order[0]);
    }
    if child == order[0] { FirstTurn(t, id, order, c); }
  }

  lemma FirstTurn(t: Tables, id: nat, order: seq<Child>, c: nat)
    requires order != [] && order[0] in NAMING
    ensures DroppedAt(t, id, order, order[0], c) <==> c in Dropped(t, id, order[0])
  {
    Split(t, id);
    assert forall x :: x != order[0] ==> !Before(order, x, order[0]);
  }

  // -------------------------------------------------- when a removal is refused

  lemma IntactIffNamed(t: Tables, id: nat)
    requires AclOf(t, id) == {} && OwnersOf(t, id) == {} && RefsOf(t, id) == {}
    ensures ContextsIntact(t) <==> NamedByOthers(t, id) <= t.secctx.ids.Values
  {
    if NamedByOthers(t, id) <= t.secctx.ids.Values {
      forall r | r in t.acl ensures Refers(r.ctx, t.secctx) {
        if r.ctx.Some? { assert r in t.acl - AclOf(t, id); assert r.ctx.value in OtherAcl(t, id); }
      }
      forall r | r in t.owners ensures Refers(r.ctx, t.secctx) {
        if r.ctx.Some? { assert r in t.owners - OwnersOf(t, id); assert r.ctx.value in OtherOwners(t, id); }
      }
      forall r | r in t.refs ensures Refers(Some(r.ctx), t.secctx) {
        assert r in t.refs - RefsOf(t, id);
        assert r.ctx in OtherRefs(t, id);
      }
    }
    if ContextsIntact(t) {
      forall i | i in NamedByOthers(t, id) ensures i in t.secctx.ids.Values {
        if i in OtherAcl(t, id) {
          var r :| r in t.acl && r.ctx == Some(i);
          assert Refers(r.ctx, t.secctx);
        } else if i in OtherOwners(t, id) {
          var r :| r in t.owners && r.ctx == Some(i);
          assert Refers(r.ctx, t.secctx);
        } else {
          var r :| r in t.refs && r.ctx == i;
          assert Refers(Some(r.ctx), t.secctx);
        }
      }
    }
  }

  lemma RowsGone(t: Tables, id: nat, order: seq<Child>)
    requires CompleteOrder(order)
    ensures var t' := DeleteIdentity(t, id, order);
            AclOf(t', id) == {} && OwnersOf(t', id) == {} && RefsOf(t', id) == {}
  {
    var t0 := t.(identity := t.identity - {id});
    CascadeRemoves(t0, id, order);
    assert AclOf(t0, id) == AclOf(t, id) && OwnersOf(t0, id) == OwnersOf(t, id) && RefsOf(t0, id) == RefsOf(t, id);
  }

  lemma IdentityRowIsNoContext(t: Tables, id: nat, keep: set<nat>)
    ensures var t0 := t.(identity := t.identity - keep);
            && OwnAcl(t0, id) == OwnAcl(t, id) && OwnOwners(t0, id) == OwnOwners(t, id)
            && OwnRefs(t0, id) == OwnRefs(t, id) && OtherAcl(t0, id) == OtherAcl(t, id)
            && OtherOwners(t0, id) == OtherOwners(t, id) && OtherRefs(t0, id) == OtherRefs(t, id)
  {
    var t0 := t.(identity := t.identity - keep);
    assert AclOf(t0, id) == AclOf(t, id) && OwnersOf(t0, id) == OwnersOf(t, id) && RefsOf(t0, id) == RefsOf(t, id);
  }

  lemma NamedContextsExist(t: Tables, id: nat)
    requires ContextsIntact(t)
    ensures NamedByOthers(t, id) <= t.secctx.ids.Values
  {
    forall i | i in NamedByOthers(t, id) ensures i in t.secctx.ids.Values {
      if i in OtherAcl(t, id) {
        var r :| r in t.acl && r.ctx == Some(i);
        assert Refers(r.ctx, t.secctx);
      } else if i in OtherOwners(t, id) {
        var r :| r in t.owners && r.ctx == Some(i);
        assert Refers(r.ctx, t.secctx);
      } else {
        var r :| r in t.refs && r.ctx == i;
        assert Refers(Some(r.ctx), t.secctx);
      }
    }
  }

  /** Some context that another identity's row names is deleted on the way. */
  ghost predicate RemovalBlocked(t: Tables, id: nat, order: seq<Child>) {
    exists child, c :: child in NAMING && c in Other(t, id, child) && DroppedAt(t, id, order, child, c)
  }

  /** The removal goes through exactly when it is not blocked, in whatever order SQLite cascades. */
  lemma RemovalOutcome(t: Tables, id: nat, order: seq<Child>)
    requires Wf(t) && CompleteOrder(order)
    ensures ContextsIntact(DeleteIdentity(t, id, order)) <==> !RemovalBlocked(t, id, order)
  {
    var t0 := t.(identity := t.identity - {id});
    var t' := DeleteIdentity(t, id, order);
    RowsGone(t, id, order);
    IntactIffNamed(t', id);
    IdentityRowIsNoContext(t, id, {id});
    CascadeDrops(t0, id, order);
    NamedContextsExist(t, id);
    forall i | i in NamedByOthers(t, id) ensures i in t'.secctx.ids.Values <==> i !in AllDropped(t0, id, order) {
      DroppedNames(t.secctx, AllDropped(t0, id, order), i);
    }
    BlockedIffDropped(t0, id, order);
    assert RemovalBlocked(t0, id, order) <==> RemovalBlocked(t, id, order) by {
      forall child, c { SameDroppedAt(t, t0, id, order, child, c); }
    }
  }

  lemma SameDroppedAt(t: Tables, t0: Tables, id: nat, order: seq<Child>, child: Child, c: nat)
    requires t0 == t.(identity := t.identity - {id})
    ensures DroppedAt(t0, id, order, child, c) <==> DroppedAt(t, id, order, child, c)
    ensures Other(t0, id, child) == Other(t, id, child)
  {
    IdentityRowIsNoContext(t, id, {id});
  }

  lemma BlockedIffDropped(t: Tables, id: nat, order: seq<Child>)
    ensures RemovalBlocked(t, id, order) <==> exists c :: c in NamedByOthers(t, id) && c in AllDropped(t, id, order)
  {
    if c :| c in NamedByOthers(t, id) && c in AllDropped(t, id, order) {
      DroppedIff(t, id, order, c);
      var child :| child in NAMING && DroppedAt(t, id, order, child, c);
      assert c in Other(t, id, child);
    }
    if RemovalBlocked(t, id, order) {
      var child, c :| child in NAMING && c in Other(t, id, child) && DroppedAt(t, id, order, child, c);
      DroppedIff(t, id, order, c);
      assert c in NamedByOthers(t, id);
    }
  }

  /** No table names a context both for the identity and for another. */
  predicate NothingShared(t: Tables, id: nat) {
    && OwnAcl(t, id) !! OtherAcl(t, id)
    && OwnOwners(t, id) !! OtherOwners(t, id)
    && OwnRefs(t, id) !! OtherRefs(t, id)
  }

  /** Hence an identity that shares no context within a table can be removed. */
  lemma UnsharedIdentityIsRemoved(t: Tables, id: nat, order: seq<Child>)
    requires Wf(t) && CompleteOrder(order) && NothingShared(t, id)
    ensures ContextsIntact(DeleteIdentity(t, id, order))
  {
    RemovalOutcome(t, id, order);
    forall child | child in NAMING ensures Own(t, id, child) !! Other(t, id, child) {}
  }

  /** An identity whose access control list alone names a context, with another's, cannot be removed. */
  lemma SharedContextBlocksRemoval(order: seq<Child>)
    requires CompleteOrder(order)
    ensures Wf(TWO_SHARE) && !ContextsIntact(DeleteIdentity(TWO_SHARE, 1, order))
  {
    var t := TWO_SHARE;
    TwoShareIsWf();
    RemovalOutcome(t, 1, order);
    SharedIsDropped(order);
    assert RemovalBlocked(t, 1, order);
  }

  lemma SharedIsDropped(order: seq<Child>)
    requires CompleteOrder(order)
    ensures 2 in Other(TWO_SHARE, 1, AclTable) && DroppedAt(TWO_SHARE, 1, order, AclTable, 2)
  {
    var t := TWO_SHARE;
    var row1, row2 := AclRow(1, Some(1), None, Some(2)), AclRow(2, Some(1), None, Some(2));
    assert row1 in AclOf(t, 1) && row2 in t.acl - AclOf(t, 1);
    assert 2 in OwnAcl(t, 1) && 2 in OtherAcl(t, 1);
    assert 2 !in OwnerContexts(t.owners) && RefsOf(t, 1) == {} && t.refs == {};
    Split(t, 1);
  }
}
