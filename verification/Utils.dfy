/** src/common/gsignond-utils.c: host matching and the sorted string sequences. */
module Utils {
  import opened Ordering

  // ------------------------------------------- splitting and joining on dots

  /** The pieces of s between its dots; always at least one piece. */
  function Parts(s: string): (r: seq<string>)
    ensures |r| > 0
  {
    if s == [] then [""]
    else if s[0] == '.' then [""] + Parts(s[1..])
    else
      var rest := Parts(s[1..]);
      [[s[0]] + rest[0]] + rest[1..]
  }

  /** g_strsplit (s, ".", 0): the empty string has no pieces at all. */
  function StrSplit(s: string): seq<string> {
    if s == "" then [] else Parts(s)
  }

  /** g_strjoinv (".", parts) */
  function StrJoin(parts: seq<string>): string {
    if parts == [] then ""
    else if |parts| == 1 then parts[0]
    else parts[0] + "." + StrJoin(parts[1..])
  }

  predicate EndsWith(s: string, tail: string) {
    |tail| <= |s| && s[|s| - |tail|..] == tail
  }

  lemma EndsWithIff(s: string, tail: string)
    ensures EndsWith(s, tail) <==> exists p: string :: s == p + tail
  {
    if EndsWith(s, tail) { assert s == s[..|s| - |tail|] + tail; }
  }

  /** What one more character does to the pieces. */
  function Prepend(c: char, parts: seq<string>): seq<string>
    requires parts != []
  {
    if c == '.' then [""] + parts else [[c] + parts[0]] + parts[1..]
  }

  lemma PartsStep(c: char, s: string)
    ensures Parts([c] + s) == Prepend(c, Parts(s))
  {
    assert ([c] + s)[1..] == s;
  }

  lemma JoinOfPrepended(c: char, parts: seq<string>)
    requires parts != []
    ensures StrJoin(Prepend(c, parts)) == [c] + StrJoin(parts)
  {
    if c == '.' {
      assert ([""] + parts)[1..] == parts;
    } else if |parts| > 1 {
      assert Prepend(c, parts)[1..] == parts[1..];
      Regroup([c], parts[0], ".");
      Regroup([c], parts[0] + ".", StrJoin(parts[1..]));
    }
  }

  lemma Regroup(a: string, b: string, c: string)
    ensures (a + b) + c == a + (b + c)
  {
  }

  lemma {:induction false} JoinOfParts(s: string)
    ensures StrJoin(Parts(s)) == s
  {
    if s == [] {
    } else {
      JoinOfParts(s[1..]);
      PartsStep(s[0], s[1..]);
      JoinOfPrepended(s[0], Parts(s[1..]));
      assert s == [s[0]] + s[1..];
    }
  }

  lemma PrependToConcat(c: char, a: seq<string>, b: seq<string>)
    requires a != []
    ensures Prepend(c, a + b) == Prepend(c, a) + b
  {
    assert (a + b)[1..] == a[1..] + b;
  }

  lemma SplitHead(p: string, rest: string)
    requires p != []
    ensures p + rest == [p[0]] + (p[1..] + rest) && p == [p[0]] + p[1..]
  {
  }

  lemma {:induction false} PartsOfConcat(p: string, d: string)
    ensures Parts(p + ("." + d)) == Parts(p) + Parts(d)
  {
    if p == [] {
      PartsStep('.', d);
      assert p + ("." + d) == ['.'] + d;
    } else {
      SplitHead(p, "." + d);
      PartsOfConcat(p[1..], d);
      PartsStep(p[0], p[1..]);
      PartsStep(p[0], p[1..] + ("." + d));
      PrependToConcat(p[0], Parts(p[1..]), Parts(d));
    }
  }

  lemma {:induction false} JoinOfConcat(ps: seq<string>, k: nat)
    requires 0 < k < |ps|
    ensures StrJoin(ps) == StrJoin(ps[..k]) + "." + StrJoin(ps[k..])
  {
    if k == 1 {
    } else {
      JoinOfConcat(ps[1..], k - 1);
      assert ps[1..][..k - 1] == ps[..k][1..];
      assert ps[1..][k - 1..] == ps[k..];
    }
  }

  /** The pieces of the host that are compared. */
  function LastPieces(host: string, domain: string): seq<string> {
    var h, d := StrSplit(host), StrSplit(domain);
    h[if |h| > |d| then |h| - |d| else 0..]
  }

  lemma SuffixIsDomain(host: string, domain: string)
    requires domain != "" && EndsWith(host, "." + domain)
    ensures StrJoin(LastPieces(host, domain)) == domain
  {
    var p := host[..|host| - |domain| - 1];
    assert host == p + ("." + domain);
    PartsOfConcat(p, domain);
    assert LastPieces(host, domain) == Parts(domain);
    JoinOfParts(domain);
  }

  lemma DomainIsSuffix(host: string, domain: string)
    requires domain != "" && StrJoin(LastPieces(host, domain)) == domain
    ensures host == domain || EndsWith(host, "." + domain)
  {
    var h, d := StrSplit(host), StrSplit(domain);
    JoinOfParts(host);
    if |h| > |d| {
      JoinOfConcat(h, |h| - |d|);
      var p := StrJoin(h[..|h| - |d|]);
      Regroup(p, ".", domain);
      EndsWithIff(p + ("." + domain), "." + domain);
    } else {
      assert LastPieces(host, domain) == h;
    }
  }

  /** What joining the last pieces of the host amounts to. */
  lemma TruncatedHostIsDomain(host: string, domain: string)
    requires domain != ""
    ensures StrJoin(LastPieces(host, domain)) == domain <==> host == domain || EndsWith(host, "." + domain)
  {
    if EndsWith(host, "." + domain) { SuffixIsDomain(host, domain); }
    if host == domain {
      JoinOfParts(domain);
      assert LastPieces(host, domain) == Parts(domain);
    }
    if StrJoin(LastPieces(host, domain)) == domain { DomainIsSuffix(host, domain); }
  }

  /** gsignond_is_host_in_domain */
  method IsHostInDomain(host: string, domain: string) returns (result: bool)
    ensures domain == "" ==> result
    ensures domain != "" ==> (result <==> host == domain || EndsWith(host, "." + domain))
  {
    var domainParts := StrSplit(domain);
    var hostParts := StrSplit(host);
    var truncated := 0;
    var extra := |hostParts| - |domainParts|;
    while extra > 0
      invariant 0 <= truncated <= |hostParts|
      invariant truncated == if |hostParts| > |domainParts| then |hostParts| - |domainParts| - extra else 0
      invariant extra >= 0 || truncated == 0
      invariant |hostParts| <= |domainParts| ==> extra == |hostParts| - |domainParts|
    {
      truncated := truncated + 1;
      extra := extra - 1;
    }
    var truncatedHost := StrJoin(hostParts[truncated..]);
    result := domain == truncatedHost;
    if domain != "" {
      TruncatedHostIsDomain(host, domain);
    } else {
      assert hostParts[truncated..] == [];
    }
  }

  // ------------------------------------------------------- string sequences

  /** gsignond_variant_to_sequence and gsignond_array_to_sequence */
  method ToSequence(items: seq<string>) returns (s: seq<string>)
    ensures s == Sort(StrLeq, items)
    ensures Sorted(StrLeq, s) && multiset(s) == multiset(items)
  {
    s := [];
    var i := 0;
    while i < |items|
      invariant 0 <= i <= |items|
      invariant s == Sort(StrLeq, items[..i])
    {
      assert items[..i + 1][..i] == items[..i];
      s := Insert(StrLeq, items[i], s);
      i := i + 1;
    }
    assert items[..i] == items;
    StrLeqIsTotalOrder();
    SortIsSortedPermutation(StrLeq, items);
  }
}
