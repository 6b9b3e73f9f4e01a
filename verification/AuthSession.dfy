/**
 src/daemon/gsignond-auth-session.c: negotiation of mechanisms, and the token
 data that a session caches.  Access checks come before and are not modelled.
 */
module AuthSession {
  import opened Ordering
  import opened IdentityRecord
  import opened IdentityInfo
  import opened SecretDatabase

  /** gsignond_identity_info_get_mechanisms */
  function AllowedMechanisms(r: Record, name: string): Option<seq<string>> {
    match Entry(r, KAuthMethods)
    case Some(VMethods(m)) => if name in m then Some(Sort(StrLeq, m[name])) else None
    case _ => None
  }

  /** Which of the plugin's mechanisms an identity may use. */
  predicate MayUse(r: Record, name: string, mechanism: string) {
    IsNew(r) ||
    (AllowedMechanisms(r, name).Some? &&
     ("*" in AllowedMechanisms(r, name).value || mechanism in AllowedMechanisms(r, name).value))
  }

  function Usable(r: Record, name: string): string -> bool { k => MayUse(r, name, k) }

  function Filter(items: seq<string>, keep: string -> bool): seq<string> {
    if items == [] then [] else
      var rest := Filter(items[..|items| - 1], keep);
      if keep(items[|items| - 1]) then rest + [items[|items| - 1]] else rest
  }

  function Negotiated(r: Record, name: string, plugin: Option<seq<string>>): seq<string> {
    if plugin == None then [] else Sort(StrLeq, Filter(plugin.value, Usable(r, name)))
  }

  lemma {:induction false} FilterContents(items: seq<string>, keep: string -> bool)
    ensures forall k :: multiset(Filter(items, keep))[k] == if keep(k) then multiset(items)[k] else 0
    ensures |Filter(items, keep)| <= |items|
  {
    if items == [] {
    } else {
      FilterContents(items[..|items| - 1], keep);
      assert items == items[..|items| - 1] + [items[|items| - 1]];
    }
  }

  /**
   The cached list is sorted, and has exactly the plugin's mechanisms that may be
   used, as often as the plugin lists them.
   */
  lemma NegotiatedMeaning(r: Record, name: string, plugin: Option<seq<string>>)
    ensures Sorted(StrLeq, Negotiated(r, name, plugin))
    ensures forall k :: multiset(Negotiated(r, name, plugin))[k] ==
              if plugin.Some? && MayUse(r, name, k) then multiset(plugin.value)[k] else 0
  {
    if plugin.Some? {
      var kept := Filter(plugin.value, Usable(r, name));
      StrLeqIsTotalOrder();
      SortIsSortedPermutation(StrLeq, kept);
      FilterContents(plugin.value, Usable(r, name));
    }
  }

  lemma AllowedAreThoseStored(r: Record, name: string, k: string)
    ensures AllowedMechanisms(r, name).Some? ==>
              Entry(r, KAuthMethods).Some? && Entry(r, KAuthMethods).value.VMethods? &&
              (k in AllowedMechanisms(r, name).value <==> k in Entry(r, KAuthMethods).value.methods[name])
  {
    if AllowedMechanisms(r, name).Some? {
      var stored := Entry(r, KAuthMethods).value.methods[name];
      StrLeqIsTotalOrder();
      SortIsSortedPermutation(StrLeq, stored);
      assert k in multiset(Sort(StrLeq, stored)) <==> k in multiset(stored);
    }
  }

  /**
   The negotiation in terms of the record: a new identity may use all of the
   plugin's mechanisms, a saved one those that are stored for the method, or all
   if "*" is among them, and none without an entry for it.
   */
  lemma NegotiatedMechanisms(r: Record, name: string, plugin: seq<string>, k: string)
    ensures GetId(r) == 0 ==> multiset(Negotiated(r, name, Some(plugin)))[k] == multiset(plugin)[k]
    ensures GetId(r) != 0 ==>
              var stored := KAuthMethods in r.dict && r.dict[KAuthMethods].VMethods?
                            && name in r.dict[KAuthMethods].methods;
              var allowed := if stored then r.dict[KAuthMethods].methods[name] else [];
              multiset(Negotiated(r, name, Some(plugin)))[k] ==
                if "*" in allowed || k in allowed then multiset(plugin)[k] else 0
    ensures Negotiated(r, name, None) == []
  {
    NegotiatedMeaning(r, name, Some(plugin));
    AllowedAreThoseStored(r, name, k);
    AllowedAreThoseStored(r, name, "*");
  }

  /** The items of wanted that are available, in wanted order. */
  function Matching(wanted: seq<string>, available: seq<string>): seq<string> {
    Filter(wanted, k => k in available)
  }

  lemma {:induction false} FilterConcat(a: seq<string>, b: seq<string>, keep: string -> bool)
    ensures Filter(a + b, keep) == Filter(a, keep) + Filter(b, keep)
  {
    if b == [] {
      assert a + b == a;
    } else {
      FilterConcat(a, b[..|b| - 1], keep);
      assert (a + b)[..|a + b| - 1] == a + b[..|b| - 1];
    }
  }

  /** Each item is kept or left out on its own, and the order stays. */
  lemma MatchingInOrder(a: seq<string>, k: string, b: seq<string>, available: seq<string>)
    ensures Matching([], available) == []
    ensures Matching(a + [k] + b, available) ==
            Matching(a, available) + (if k in available then [k] else []) + Matching(b, available)
  {
    FilterConcat(a + [k], b, x => x in available);
    assert (a + [k])[..|a|] == a;
  }

  lemma {:induction false} FilterKeepsDistinct(items: seq<string>, keep: string -> bool)
    requires NoDuplicates(items)
    ensures NoDuplicates(Filter(items, keep))
    ensures forall i :: 0 <= i < |Filter(items, keep)| ==>
              Filter(items, keep)[i] in items && keep(Filter(items, keep)[i])
  {
    if items == [] {
    } else {
      FilterKeepsDistinct(items[..|items| - 1], keep);
      assert items == items[..|items| - 1] + [items[|items| - 1]];
    }
  }

  lemma {:induction false} DistinctFits(a: seq<string>, b: seq<string>)
    requires NoDuplicates(a) && forall i :: 0 <= i < |a| ==> a[i] in b
    ensures |a| <= |b|
  {
    if a == [] {
    } else {
      var init, x := a[..|a| - 1], a[|a| - 1];
      var j :| 0 <= j < |b| && b[j] == x;
      var rest := b[..j] + b[j + 1..];
      forall i | 0 <= i < |init| ensures init[i] in rest {
        assert init[i] == a[i] && a[i] in b && a[i] != x;
        var k :| 0 <= k < |b| && b[k] == init[i];
        assert rest[if k < j then k else k - 1] == init[i];
      }
      DistinctFits(init, rest);
    }
  }

  /** A wanted list without repetitions fits the slots allocated for the answer. */
  lemma DistinctWantedFits(wanted: seq<string>, available: seq<string>)
    requires NoDuplicates(wanted)
    ensures |Matching(wanted, available)| <= |available|
  {
    FilterKeepsDistinct(wanted, k => k in available);
    DistinctFits(Matching(wanted, available), available);
  }

  /** A repeated one need not. */
  lemma RepeatedWantedNeedNotFit()
    ensures |Matching(["md5", "md5"], ["md5"])| > |["md5"]|
  {
    var w := ["md5", "md5"];
    assert w[..1] == ["md5"] && w[..1][..0] == [];
    assert Filter(w[..1], k => k in ["md5"]) == ["md5"];
  }

  class AuthSession {
    const name: string
    const info: IdentityInfo
    var available: Option<seq<string>>
    var tokenData: Data

    constructor (name: string, info: IdentityInfo, tokenData: Option<Data>)
      ensures this.name == name && this.info == info && available == None
      ensures this.tokenData == if tokenData.Some? then tokenData.value else map[]
    {
      this.name, this.info, available := name, info, None;
      this.tokenData := if tokenData.Some? then tokenData.value else map[];
    }

    /** _create_mechanism_cache: the cache is made once, and not again when the record changes. */
    method CreateMechanismCache(plugin: Option<seq<string>>)
      modifies this`available
      ensures available.Some?
      ensures available == if old(available).Some? then old(available) else Some(Negotiated(info.State(), name, plugin))
    {
      if available.Some? { return; }
      var r := info.State();
      available := Some([]);
      assert info.State() == r;
      var allowed: Option<seq<string>>, wildcard := None, false;
      if !IsNew(r) {
        allowed := AllowedMechanisms(r, name);
        if allowed == None {
          NothingAllowed(r, name, plugin);
          return;
        }
        wildcard := "*" in allowed.value;
      }
      if plugin == None { return; }
      var cache := UsableOf(r, plugin.value, allowed, wildcard);
      assert Some(plugin.value) == plugin;
      available := Some(cache);
      assert info.State() == r;
    }

    /** The loops over the plugin's mechanisms. */
    method UsableOf(r: Record, plugin: seq<string>, allowed: Option<seq<string>>, wildcard: bool)
      returns (cache: seq<string>)
      requires allowed == if IsNew(r) then None else AllowedMechanisms(r, name)
      requires allowed == None <==> IsNew(r)
      requires wildcard <==> allowed.Some? && "*" in allowed.value
      ensures cache == Negotiated(r, name, Some(plugin))
    {
      cache := [];
      var i := 0;
      while i < |plugin|
        invariant 0 <= i <= |plugin|
        invariant cache == Sort(StrLeq, Filter(plugin[..i], Usable(r, name)))
      {
        assert plugin[..i + 1][..i] == plugin[..i];
        if wildcard || allowed == None || plugin[i] in allowed.value {
          SortAppends(Filter(plugin[..i], Usable(r, name)), plugin[i]);
          cache := Insert(StrLeq, plugin[i], cache);
        }
        i := i + 1;
      }
      assert plugin[..i] == plugin;
    }

    /**
     gsignond_auth_session_query_available_mechanisms: the answer ends with the NULL
     slots.  The source does not look at the end of the slots; beyond counts the
     writes, that of the last NULL among them, that land past it.
     */
    method QueryAvailableMechanisms(wanted: seq<string>, plugin: Option<seq<string>>)
      returns (answer: array<Option<string>>, ghost beyond: nat)
      modifies this`available
      ensures available == if old(available).Some? then old(available) else Some(Negotiated(info.State(), name, plugin))
      ensures fresh(answer) && answer.Length == |available.value| + 1
      ensures var found := Matching(wanted, available.value);
              forall i :: 0 <= i < answer.Length ==> answer[i] == if i < |found| then Some(found[i]) else None
      ensures var found := Matching(wanted, available.value);
              beyond == if |found| <= |available.value| then 0 else |found| - |available.value|
    {
      CreateMechanismCache(plugin);
      var cache := available.value;
      answer := new Option<string>[|cache| + 1](_ => None);
      beyond := 0;
      var i, n := 0, 0;
      while i < |wanted|
        modifies answer
        invariant 0 <= i <= |wanted| && n == |Matching(wanted[..i], cache)|
        invariant beyond == if n <= answer.Length then 0 else n - answer.Length
        invariant forall j :: 0 <= j < answer.Length ==>
                    answer[j] == if j < n then Some(Matching(wanted[..i], cache)[j]) else None
      {
        assert wanted[..i + 1][..i] == wanted[..i];
        if wanted[i] in cache {
          if n < answer.Length { answer[n] := Some(wanted[i]); } else { beyond := beyond + 1; }
          n := n + 1;
        }
        i := i + 1;
      }
      assert wanted[..i] == wanted && info.State() == old(info.State());
      if n < answer.Length { answer[n] := None; } else { beyond := beyond + 1; }
    }

    /** The part of notify_store that caches; the signal is Identity.OnStoreToken. */
    method NotifyStore(data: Data)
      modifies this`tokenData
      ensures tokenData == data
    {
      tokenData := data;
    }
  }

  lemma NothingAllowed(r: Record, name: string, plugin: Option<seq<string>>)
    requires !IsNew(r) && AllowedMechanisms(r, name) == None
    ensures Negotiated(r, name, plugin) == []
  {
    if plugin.Some? { NothingUsable(r, name, plugin.value); }
  }

  lemma {:induction false} NothingUsable(r: Record, name: string, items: seq<string>)
    requires !IsNew(r) && AllowedMechanisms(r, name) == None
    ensures Filter(items, Usable(r, name)) == []
  {
    if items == [] {
    } else {
      NothingUsable(r, name, items[..|items| - 1]);
    }
  }

  lemma SortAppends(items: seq<string>, k: string)
    ensures Sort(StrLeq, items + [k]) == Insert(StrLeq, k, Sort(StrLeq, items))
  {
    assert (items + [k])[..|items|] == items;
  }
}
