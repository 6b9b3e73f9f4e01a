/**
 Comparison of contexts and of identity records
 (src/common/gsignond-security-context.c, src/common/gsignond-identity-info.c).
 */
module IdentityCompare {
  import opened Ordering
  import opened IdentityRecord

  // ------------------------------------------------------ security contexts

  /** gsignond_security_context_match on two non-NULL contexts */
  predicate CtxMatch(a: Ctx, b: Ctx) {
    || a.sys == "*" || b.sys == "*"
    || (a.sys == b.sys && (a.app == "*" || b.app == "*" || a.app == b.app))
  }

  /** gsignond_security_context_check on two non-NULL contexts */
  predicate CtxCheck(reference: Ctx, test: Ctx) {
    reference.sys == "*" ||
    (reference.sys == test.sys && (reference.app == "*" || reference.app == test.app))
  }

  predicate HasWildcard(c: Ctx) { c.sys == "*" || c.app == "*" }

  /** A reference covers everything, one system context, or itself alone. */
  lemma CheckMeaning(reference: Ctx, test: Ctx)
    ensures reference.sys == "*" ==> CtxCheck(reference, test)
    ensures reference.sys != "*" && reference.app == "*" ==> (CtxCheck(reference, test) <==> reference.sys == test.sys)
    ensures !HasWildcard(reference) ==> (CtxCheck(reference, test) <==> reference == test)
  {
  }

  /** Matching is covering in either direction; without wildcards it is equality. */
  lemma MatchIsCheckEitherWay(a: Ctx, b: Ctx)
    ensures CtxMatch(a, b) <==> CtxCheck(a, b) || CtxCheck(b, a)
    ensures !HasWildcard(a) && !HasWildcard(b) ==> (CtxMatch(a, b) <==> CtxCmp(a, b) == 0)
  {
    StrCmpSign(a.sys, b.sys);
    StrCmpSign(a.app, b.app);
  }

  // ------------------------------------------------------------ list compare

  function ItemsOf(s: Option<seq<string>>): seq<string> { if s.Some? then s.value else [] }

  /** _gsignond_identity_info_seq_cmp: NULL and the empty sequence are the same. */
  method SeqCmp(one: Option<seq<string>>, two: Option<seq<string>>) returns (equal: bool)
    ensures equal <==> ItemsOf(one) == ItemsOf(two)
  {
    equal := true;
    if one == None { return ItemsOf(two) == []; }
    if two == None { return one.value == []; }
    if |one.value| != |two.value| { return false; }
    var i := 0;
    while i < |one.value|
      invariant 0 <= i <= |one.value| && equal
      invariant one.value[..i] == two.value[..i]
    {
      if one.value[i] != two.value[i] {
        equal := false;
        break;
      }
      assert one.value[..i + 1] == one.value[..i] + [one.value[i]];
      assert two.value[..i + 1] == two.value[..i] + [two.value[i]];
      i := i + 1;
    }
    if equal {
      assert one.value == one.value[..i] && two.value == two.value[..i];
    }
  }

  predicate MatchPairwise(one: seq<Ctx>, two: seq<Ctx>) {
    |one| == |two| && forall i :: 0 <= i < |one| ==> CtxMatch(one[i], two[i])
  }

  /** _gsignond_identity_info_sec_context_list_cmp */
  method ContextListCmp(one: seq<Ctx>, two: seq<Ctx>) returns (equal: bool)
    ensures equal <==> MatchPairwise(one, two)
    ensures equal <==>
            |one| == |two| && forall i :: 0 <= i < |one| ==> CtxCheck(one[i], two[i]) || CtxCheck(two[i], one[i])
  {
    equal := true;
    if |one| != |two| { return false; }
    var i := 0;
    while i < |one|
      invariant 0 <= i <= |one| && equal
      invariant forall j :: 0 <= j < i ==> CtxMatch(one[j], two[j])
    {
      if !CtxMatch(one[i], two[i]) {
        equal := false;
        break;
      }
      i := i + 1;
    }
  }

  /** What methods_cmp accepts: a method missing from two passes if its own list is empty. */
  predicate MethodsMatch(one: Option<MethodMap>, two: Option<MethodMap>) {
    match (one, two)
    case (None, None) => true
    case (Some(a), Some(b)) =>
      |a| == |b| && forall m :: m in a ==> if m in b then a[m] == b[m] else a[m] == []
    case _ => false
  }

  /** _gsignond_identity_info_methods_cmp */
  method MethodsCmp(one: Option<MethodMap>, two: Option<MethodMap>) returns (equal: bool)
    ensures equal <==> MethodsMatch(one, two)
  {
    if one == None && two == None { return true; }
    if one == None || two == None { return false; }
    if |one.value| != |two.value| { return false; }
    equal := true;
    var todo := one.value.Keys;
    while todo != {}
      invariant todo <= one.value.Keys && equal
      invariant forall m :: m in one.value && m !in todo ==>
                  if m in two.value then one.value[m] == two.value[m] else one.value[m] == []
      decreases todo
    {
      var m :| m in todo;
      equal := SeqCmp(Some(one.value[m]), if m in two.value then Some(two.value[m]) else None);
      if !equal { break; }
      todo := todo - {m};
    }
  }

  predicate OwnerMatch(one: Option<Ctx>, two: Option<Ctx>) {
    match (one, two)
    case (None, None) => true
    case (Some(a), Some(b)) => CtxMatch(a, b)
    case _ => false
  }

  lemma OwnersMatchIff(one: Option<Ctx>, two: Option<Ctx>)
    ensures OwnerMatch(one, two) <==>
            || (one == None && two == None)
            || (one.Some? && two.Some? && (CtxCheck(one.value, two.value) || CtxCheck(two.value, one.value)))
  {
  }

  /** The scalar fields that the comparison reads. */
  predicate SameScalars(info: Record, other: Record) {
    && GetId(info) == GetId(other) && info.username == other.username && info.secret == other.secret
    && GetStoreSecret(info) == GetStoreSecret(other) && GetCaption(info) == GetCaption(other)
    && GetValidated(info) == GetValidated(other) && GetType(info) == GetType(other)
  }

  predicate Same(info: Record, other: Record) {
    && SameScalars(info, other)
    && ItemsOf(GetRealms(info)) == ItemsOf(GetRealms(other))
    && MethodsMatch(GetMethods(info), GetMethods(other))
    && MatchPairwise(Sort(CtxLeq, GetAcl(info)), Sort(CtxLeq, GetAcl(other)))
    && OwnerMatch(GetOwner(info), GetOwner(other))
  }

  /** gsignond_identity_info_compare */
  method Compare(info: Record, other: Record) returns (equal: bool)
    ensures equal <==> Same(info, other)
  {
    if GetId(info) != GetId(other) { return false; }
    if info.username != other.username { return false; }
    if info.secret != other.secret { return false; }
    if GetStoreSecret(info) != GetStoreSecret(other) { return false; }
    if GetCaption(info) != GetCaption(other) { return false; }
    equal := SeqCmp(GetRealms(info), GetRealms(other));
    if !equal { return false; }
    equal := MethodsCmp(GetMethods(info), GetMethods(other));
    if !equal { return false; }
    equal := ContextListCmp(Sort(CtxLeq, GetAcl(info)), Sort(CtxLeq, GetAcl(other)));
    if !equal { return false; }
    equal := OwnerMatch(GetOwner(info), GetOwner(other));
    if !equal { return false; }
    if GetValidated(info) != GetValidated(other) { return false; }
    if GetType(info) != GetType(other) { return false; }
    return true;
  }

  // ------------------------------------------------- comparison as multisets

  /** The realms as they stand in the record, before sorting. */
  function RealmItems(r: Record): seq<string> {
    match Entry(r, KRealms) case Some(VStrs(items)) => items case _ => []
  }

  function RawMethods(r: Record): Option<MethodMap> {
    match Entry(r, KAuthMethods) case Some(VMethods(m)) => Some(m) case _ => None
  }

  ghost predicate SameMethodSets(one: Option<MethodMap>, two: Option<MethodMap>) {
    match (one, two)
    case (None, None) => true
    case (Some(a), Some(b)) => a.Keys == b.Keys && forall m :: m in a ==> multiset(a[m]) == multiset(b[m])
    case _ => false
  }

  ghost predicate EveryMethodHasMechanisms(one: Option<MethodMap>) {
    one.Some? ==> forall m :: m in one.value ==> one.value[m] != []
  }

  ghost predicate WildcardFree(list: seq<Ctx>) { forall c :: c in list ==> !HasWildcard(c) }

  lemma RealmsCompareAsMultisets(info: Record, other: Record)
    ensures ItemsOf(GetRealms(info)) == ItemsOf(GetRealms(other)) <==>
            multiset(RealmItems(info)) == multiset(RealmItems(other))
  {
    StrLeqIsTotalOrder();
    assert Sort(StrLeq, []) == [];
    assert ItemsOf(GetRealms(info)) == Sort(StrLeq, RealmItems(info));
    assert ItemsOf(GetRealms(other)) == Sort(StrLeq, RealmItems(other));
    SortEqualIffPermutation(StrLeq, RealmItems(info), RealmItems(other));
  }

  /** Two lists without wildcards match after sorting exactly when one is a permutation of the other. */
  lemma ListsCompareAsMultisets(one: seq<Ctx>, two: seq<Ctx>)
    requires WildcardFree(one) && WildcardFree(two)
    ensures MatchPairwise(Sort(CtxLeq, one), Sort(CtxLeq, two)) <==> multiset(one) == multiset(two)
  {
    var a, b := Sort(CtxLeq, one), Sort(CtxLeq, two);
    CtxLeqIsTotalOrder();
    SortIsSortedPermutation(CtxLeq, one);
    SortIsSortedPermutation(CtxLeq, two);
    SortEqualIffPermutation(CtxLeq, one, two);
    forall i, j | 0 <= i < |a| && 0 <= j < |b| ensures CtxMatch(a[i], b[j]) <==> a[i] == b[j] {
      assert a[i] in multiset(one) && b[j] in multiset(two);
      MatchIsCheckEitherWay(a[i], b[j]);
      StrCmpSign(a[i].sys, b[j].sys);
      StrCmpSign(a[i].app, b[j].app);
    }
    if MatchPairwise(a, b) {
      assert a == b;
    }
  }

  lemma SameSizeSubset<T>(a: set<T>, b: set<T>)
    requires a <= b && |a| == |b|
    ensures a == b
  {
    assert |b| == |a| + |b - a| by { assert b == a + (b - a); }
  }

  /** When every method of one has a mechanism, the methods compare as maps to multisets. */
  lemma MethodsCompareAsMaps(info: Record, other: Record)
    requires EveryMethodHasMechanisms(RawMethods(info))
    ensures MethodsMatch(GetMethods(info), GetMethods(other)) <==>
            SameMethodSets(RawMethods(info), RawMethods(other))
  {
    StrLeqIsTotalOrder();
    if RawMethods(info).Some? && RawMethods(other).Some? {
      var a, b := RawMethods(info).value, RawMethods(other).value;
      var sa, sb := SortAll(a), SortAll(b);
      assert sa.Keys == a.Keys && sb.Keys == b.Keys && |sa| == |sa.Keys| && |sb| == |sb.Keys|;
      assert |a| == |a.Keys| && |b| == |b.Keys|;
      forall m | m in a
        ensures sa[m] != []
        ensures m in b ==> (sa[m] == sb[m] <==> multiset(a[m]) == multiset(b[m]))
      {
        SortIsSortedPermutation(StrLeq, a[m]);
        assert a[m][0] in multiset(sa[m]);
        if m in b { SortEqualIffPermutation(StrLeq, a[m], b[m]); }
      }
      if MethodsMatch(Some(sa), Some(sb)) {
        assert sa.Keys <= sb.Keys;
        SameSizeSubset(sa.Keys, sb.Keys);
      }
    }
  }

  const NO_MECHANISMS: MethodMap := map["password" := []]
  const ONE_MECHANISM: MethodMap := map["digest" := ["md5"]]

  /** Without that condition different maps can compare equal, in one direction only. */
  lemma EmptyMechanismListsConfuseCompare()
    ensures MethodsMatch(Some(NO_MECHANISMS), Some(ONE_MECHANISM))
    ensures !MethodsMatch(Some(ONE_MECHANISM), Some(NO_MECHANISMS))
    ensures !SameMethodSets(Some(NO_MECHANISMS), Some(ONE_MECHANISM))
  {
    assert "password" in NO_MECHANISMS && "digest" in ONE_MECHANISM;
    assert "password" != "digest" by { assert |"password"| == 8 && |"digest"| == 6; }
  }

  ghost function FreshName(names: set<string>): (n: string)
    ensures forall m :: m in names ==> |m| < |n|
  {
    seq(1 + Longest(names), _ => 'x')
  }

  /** A bound on the length of the names. */
  ghost function Longest(names: set<string>): (n: nat)
    ensures forall m :: m in names ==> |m| <= n
  {
    if names == {} then 0 else
      var m :| m in names;
      var rest := Longest(names - {m});
      if |m| > rest then |m| else rest
  }

  /** A map compares equal to exactly the maps it should if and only if each of its methods has a mechanism. */
  lemma ComparesExactlyIff(a: MethodMap)
    ensures (forall b: MethodMap :: MethodsMatch(Some(SortAll(a)), Some(SortAll(b))) <==>
                                    SameMethodSets(Some(a), Some(b)))
            <==> EveryMethodHasMechanisms(Some(a))
  {
    if EveryMethodHasMechanisms(Some(a)) {
      forall b: MethodMap
        ensures MethodsMatch(Some(SortAll(a)), Some(SortAll(b))) <==> SameMethodSets(Some(a), Some(b))
      {
        MethodsCompareAsMaps(EMPTY.(dict := map[KAuthMethods := VMethods(a)]),
                             EMPTY.(dict := map[KAuthMethods := VMethods(b)]));
      }
    } else {
      var m :| m in a && a[m] == [];
      RenamedMethodMatches(a, m, FreshName(a.Keys));
    }
  }

  lemma RenamedMethodMatches(a: MethodMap, m: string, other: string)
    requires m in a && a[m] == [] && other !in a
    ensures var b := (a - {m})[other := []];
            MethodsMatch(Some(SortAll(a)), Some(SortAll(b))) && !SameMethodSets(Some(a), Some(b))
  {
    var b := (a - {m})[other := []];
    assert SortAll(a).Keys == a.Keys && SortAll(b).Keys == b.Keys == a.Keys - {m} + {other};
    assert |a.Keys| == |a.Keys - {m}| + 1;
    assert |SortAll(a)| == |SortAll(a).Keys| && |SortAll(b)| == |SortAll(b).Keys|;
    assert other in b;
  }

  /**
   Records with wildcard-free lists, and mechanisms for every method, compare
   equal exactly when the compared fields are equal up to the order of lists.
   */
  lemma CompareMeansEqualUpToOrder(info: Record, other: Record)
    requires WildcardFree(GetAcl(info)) && WildcardFree(GetAcl(other))
    requires GetOwner(info).Some? ==> !HasWildcard(GetOwner(info).value)
    requires GetOwner(other).Some? ==> !HasWildcard(GetOwner(other).value)
    requires EveryMethodHasMechanisms(RawMethods(info))
    ensures Same(info, other) <==>
            && GetId(info) == GetId(other) && GetType(info) == GetType(other)
            && info.username == other.username && info.secret == other.secret
            && GetCaption(info) == GetCaption(other) && GetStoreSecret(info) == GetStoreSecret(other)
            && GetValidated(info) == GetValidated(other)
            && multiset(RealmItems(info)) == multiset(RealmItems(other))
            && SameMethodSets(RawMethods(info), RawMethods(other))
            && multiset(GetAcl(info)) == multiset(GetAcl(other))
            && GetOwner(info) == GetOwner(other)
  {
    RealmsCompareAsMultisets(info, other);
    MethodsCompareAsMaps(info, other);
    ListsCompareAsMultisets(GetAcl(info), GetAcl(other));
  }
}
