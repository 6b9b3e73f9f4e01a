/**
 src/common/db/gsignond-db-secret-database.c: the tables CREDENTIALS and STORE.

 update_data and remove_data print their DELETE with a format string that a
 comma ends after the first condition; the number printed there is then the
 address of the second string.  AsWritten(operand) is that statement, for
 whatever number comes out; AsMeant has both conditions, as the comment above
 it says.  The outcomes of BEGIN, of each statement and of COMMIT are
 parameters.  Identity and method ids are below 2^31, where the signed bind of
 the insert and the unsigned print of the query agree.
 */
module SecretDatabase {
  import opened Ordering
  import opened VariantTypes

  const MAX_DATA_STORAGE: nat := 4096
  const COUNTER_RANGE: nat := 0x1_0000_0000

  datatype Credentials = Credentials(username: string, password: string)
  datatype StoreKey = StoreKey(identity: nat, meth: nat, key: string)
  type Store = map<StoreKey, string>
  type Data = map<string, Value>

  datatype Secrets = Secrets(creds: map<nat, Credentials>, store: Store)

  const NO_SECRETS := Secrets(map[], map[])

  datatype Deletion = AsMeant | AsWritten(operand: nat)

  predicate Hit(k: StoreKey, del: Deletion, id: nat, m: nat) {
    if del.AsMeant? then k.identity == id && k.meth == m else k.identity == del.operand
  }

  function DeleteRows(store: Store, del: Deletion, id: nat, m: nat): Store {
    map k | k in store && !Hit(k, del, id, m) :: store[k]
  }

  /** The rows for the entries of data whose keys are in done. */
  function Rows(id: nat, m: nat, data: Data, done: set<string>): Store {
    map k | k in (set key | key in done && key in data :: StoreKey(id, m, key)) :: Encode(data[k.key])
  }

  lemma RowsNext(store: Store, id: nat, m: nat, data: Data, done: set<string>, key: string)
    requires key in data
    ensures (store + Rows(id, m, data, done))[StoreKey(id, m, key) := Encode(data[key])] ==
            store + Rows(id, m, data, done + {key})
  {
  }

  function Updated(store: Store, del: Deletion, id: nat, m: nat, data: Data): Store {
    DeleteRows(store, del, id, m) + Rows(id, m, data, data.Keys)
  }

  /** What remove_data deletes: everything of the identity when the method is 0. */
  function Removed(store: Store, del: Deletion, id: nat, m: nat): Store {
    if m == 0 then RemoveIdentityRows(store, id) else DeleteRows(store, del, id, m)
  }

  function RemoveIdentityRows(store: Store, id: nat): Store {
    map k | k in store && k.identity != id :: store[k]
  }

  function KeysOf(store: Store, id: nat, m: nat): set<string> {
    set k | k in store && k.identity == id && k.meth == m :: k.key
  }

  function Loaded(store: Store, id: nat, m: nat): Option<Data> {
    if KeysOf(store, id, m) == {} then None
    else Some(map key | key in KeysOf(store, id, m) :: Decode(store[StoreKey(id, m, key)]))
  }

  /** A dictionary with the keys and values of the rows is what is loaded. */
  lemma LoadedIs(store: Store, id: nat, m: nat, data: Data)
    ensures Loaded(store, id, m) == (if data == map[] then None else Some(data)) <==>
            data.Keys == KeysOf(store, id, m) &&
            forall key :: key in data ==> data[key] == Decode(store[StoreKey(id, m, key)])
  {
    var loaded := Loaded(store, id, m);
    assert data == map[] <==> data.Keys == {};
    if loaded.Some? {
      assert loaded.value.Keys == KeysOf(store, id, m);
      assert loaded.value == data <==>
             loaded.value.Keys == data.Keys && forall key :: key in data ==> loaded.value[key] == data[key];
    }
  }

  ghost predicate AllTyped(data: Data) { forall k :: k in data ==> Typed(data[k]) }

  // --------------------------------------------------------- orders of keys

  /** The order in which a hash table with these keys is walked. */
  predicate Enumerates(order: seq<string>, keys: set<string>) {
    NoDuplicates(order) && Elements(order) == keys
  }

  lemma EnumeratesOneMore(order: seq<string>, keys: set<string>, name: string)
    requires Enumerates(order, keys) && name !in keys
    ensures Enumerates(order + [name], keys + {name})
  {
    assert forall i :: 0 <= i < |order| ==> order[i] in order && order[i] in Elements(order);
  }

  lemma EnumeratesBoth(a: seq<string>, b: seq<string>, some: set<string>, rest: set<string>)
    requires Enumerates(a, some) && Enumerates(b, rest) && some !! rest
    ensures Enumerates(a + b, some + rest)
  {
    assert forall i :: 0 <= i < |a| ==> a[i] in a && a[i] in Elements(a);
    assert forall i :: 0 <= i < |b| ==> b[i] in b && b[i] in Elements(b);
    assert Elements(a + b) == Elements(a) + Elements(b);
  }

  /** A walk over a table, with the keys in done behind it and those in todo ahead. */
  predicate Walking(keys: set<string>, order: seq<string>, done: set<string>, todo: set<string>) {
    keys == done + todo && done !! todo && Enumerates(order, done)
  }

  lemma WalkStep(keys: set<string>, order: seq<string>, done: set<string>, todo: set<string>, k: string)
    requires Walking(keys, order, done, todo) && k in todo
    ensures Walking(keys, order + [k], done + {k}, todo - {k})
  {
    EnumeratesOneMore(order, done, k);
  }

  lemma WalkEnds(keys: set<string>, order: seq<string>, done: set<string>)
    requires Walking(keys, order, done, {})
    ensures Enumerates(order, keys)
  {
    assert done == keys;
  }

  lemma AnyOrder(keys: set<string>) returns (order: seq<string>)
    ensures Enumerates(order, keys)
  {
    order := [];
    var todo := keys;
    while todo != {}
      invariant todo <= keys && Enumerates(order, keys - todo)
      decreases todo
    {
      var name :| name in todo;
      EnumeratesOneMore(order, keys - todo, name);
      assert keys - (todo - {name}) == keys - todo + {name};
      order, todo := order + [name], todo - {name};
    }
    assert keys - {} == keys;
  }

  // -------------------------------------------------------- accounted size

  function ItemSize(key: string, v: Value): nat { |key| + |v.kind| + 1 + |v.bytes| }

  ghost function Total(data: Data): nat {
    if data == map[] then 0 else
      var k :| k in data;
      ItemSize(k, data[k]) + Total(data - {k})
  }

  lemma {:induction false} TotalWithout(data: Data, k: string)
    requires k in data
    ensures Total(data) == ItemSize(k, data[k]) + Total(data - {k})
  {
    var j :| j in data && Total(data) == ItemSize(j, data[j]) + Total(data - {j});
    if j == k {
    } else {
      TotalWithout(data - {j}, k);
      TotalWithout(data - {k}, j);
      assert data - {j} - {k} == data - {k} - {j};
    }
  }

  /** The accounted size is that of the keys and the stored bytes. */
  lemma TotalIsStoredSize(data: Data, k: string, v: Value)
    requires k !in data
    ensures Total(map[]) == 0
    ensures Total(data[k := v]) == Total(data) + |k| + |Encode(v)|
  {
    TotalWithout(data[k := v], k);
    assert data[k := v] - {k} == data;
  }

  /** No single entry can carry the 32-bit counter past its range. */
  ghost predicate CounterHolds(data: Data) {
    forall k :: k in data ==> ItemSize(k, data[k]) < COUNTER_RANGE - MAX_DATA_STORAGE
  }

  /** The 32-bit counter after the entries in order. */
  function Counter(data: Data, order: seq<string>): nat {
    if order == [] then 0
    else
      var last := order[|order| - 1];
      (Counter(data, order[..|order| - 1]) + if last in data then ItemSize(last, data[last]) else 0) % COUNTER_RANGE
  }

  /** Does the counter stay under the limit at every entry? */
  predicate Accepts(data: Data, order: seq<string>) {
    order == [] || (Accepts(data, order[..|order| - 1]) && Counter(data, order) < MAX_DATA_STORAGE)
  }

  lemma CounterStep(data: Data, order: seq<string>, k: string)
    requires k in data
    ensures Counter(data, order + [k]) == (Counter(data, order) + ItemSize(k, data[k])) % COUNTER_RANGE
    ensures Accepts(data, order + [k]) <==> Accepts(data, order) && Counter(data, order + [k]) < MAX_DATA_STORAGE
  {
    assert (order + [k])[..|order|] == order;
  }

  function SumOf(data: Data, order: seq<string>): nat {
    if order == [] then 0
    else
      var last := order[|order| - 1];
      SumOf(data, order[..|order| - 1]) + if last in data then ItemSize(last, data[last]) else 0
  }

  lemma {:induction false} AcceptsSum(data: Data, order: seq<string>)
    requires CounterHolds(data)
    ensures Accepts(data, order) <==> SumOf(data, order) < MAX_DATA_STORAGE
    ensures Accepts(data, order) ==> Counter(data, order) == SumOf(data, order)
  {
    if order == [] {
    } else {
      AcceptsSum(data, order[..|order| - 1]);
    }
  }

  function Part(data: Data, keys: set<string>): Data { map k | k in data && k in keys :: data[k] }

  lemma LastOfOrder(order: seq<string>, keys: set<string>)
    requires Enumerates(order, keys) && order != []
    ensures order[|order| - 1] in keys && Enumerates(order[..|order| - 1], keys - {order[|order| - 1]})
  {
    var init, last := order[..|order| - 1], order[|order| - 1];
    assert order == init + [last];
    assert Elements(order) == Elements(init) + {last};
  }

  lemma {:induction false} SumIsTotal(data: Data, order: seq<string>, keys: set<string>)
    requires Enumerates(order, keys) && keys <= data.Keys
    ensures SumOf(data, order) == Total(Part(data, keys))
  {
    if order == [] {
      assert Part(data, keys) == map[];
    } else {
      var last := order[|order| - 1];
      LastOfOrder(order, keys);
      SumIsTotal(data, order[..|order| - 1], keys - {last});
      TotalWithout(Part(data, keys), last);
      assert Part(data, keys) - {last} == Part(data, keys - {last});
    }
  }

  /** In whatever order, the check accepts exactly a total under the limit, if no entry is near 2^32. */
  lemma AcceptsIff(data: Data, order: seq<string>)
    requires Enumerates(order, data.Keys)
    ensures CounterHolds(data) ==> (Accepts(data, order) <==> Total(data) < MAX_DATA_STORAGE)
  {
    if CounterHolds(data) { AcceptsSum(data, order); }
    SumIsTotal(data, order, data.Keys);
    assert Part(data, data.Keys) == data;
  }

  /**
   The limit itself.  What is rejected is too large; what is accepted is under
   the limit exactly if no entry is near 2^32.
   */
  lemma AcceptedIsSmallIff(data: Data, order: seq<string>)
    requires Enumerates(order, data.Keys)
    ensures !Accepts(data, order) ==> Total(data) >= MAX_DATA_STORAGE
    ensures Accepts(data, order) ==> (Total(data) < MAX_DATA_STORAGE <==> CounterHolds(data))
    ensures MAX_DATA_STORAGE == 4096
    ensures CounterHolds(data) <==> forall k :: k in data ==> |k| + |Encode(data[k])| < 0x1_0000_0000 - 4096
  {
    AcceptsIff(data, order);
    if !CounterHolds(data) {
      var k :| k in data && ItemSize(k, data[k]) >= COUNTER_RANGE - MAX_DATA_STORAGE;
      TotalWithout(data, k);
    }
  }

  lemma {:induction false} AcceptsPrefix(data: Data, order: seq<string>, more: seq<string>)
    requires Accepts(data, order + more)
    ensures Accepts(data, order)
  {
    if more == [] {
      assert order + more == order;
    } else {
      assert (order + more)[..|order + more| - 1] == order + more[..|more| - 1];
      AcceptsPrefix(data, order, more[..|more| - 1]);
    }
  }

  predicate CountedUp(data: Data, order: seq<string>, counter: nat) {
    Accepts(data, order) && counter == Counter(data, order)
  }

  lemma OneMoreEntry(data: Data, order: seq<string>, done: set<string>, todo: set<string>, k: string, counter: nat)
    requires Walking(data.Keys, order, done, todo) && k in todo && CountedUp(data, order, counter)
    ensures Walking(data.Keys, order + [k], done + {k}, todo - {k})
    ensures var next := (counter + ItemSize(k, data[k])) % COUNTER_RANGE;
            if next < MAX_DATA_STORAGE then CountedUp(data, order + [k], next) else !Accepts(data, order + [k])
  {
    WalkStep(data.Keys, order, done, todo, k);
    CounterStep(data, order, k);
  }

  /** What the check promises of its answer. */
  ghost predicate Checked(data: Data, order: seq<string>, fits: bool) {
    && Enumerates(order, data.Keys) && (fits <==> Accepts(data, order))
    && (fits ==> (Total(data) < MAX_DATA_STORAGE <==> CounterHolds(data)))
    && (!fits ==> Total(data) >= MAX_DATA_STORAGE)
  }

  lemma WholeWalk(data: Data, order: seq<string>, done: set<string>, counter: nat)
    requires Walking(data.Keys, order, done, {}) && CountedUp(data, order, counter)
    ensures Checked(data, order, true)
  {
    WalkEnds(data.Keys, order, done);
    AcceptedIsSmallIff(data, order);
  }

  /** An order that begins with one that is not accepted. */
  lemma Rejected(data: Data, order: seq<string>, done: set<string>, todo: set<string>) returns (full: seq<string>)
    requires Walking(data.Keys, order, done, todo) && !Accepts(data, order)
    ensures Checked(data, full, false)
  {
    var rest := AnyOrder(todo);
    EnumeratesBoth(order, rest, done, todo);
    full := order + rest;
    if Accepts(data, full) { AcceptsPrefix(data, order, rest); }
    AcceptedIsSmallIff(data, full);
  }

  const WIDE: Data := map["k" := Value("s", seq(COUNTER_RANGE - 3, _ => 'x'))]

  /** An entry of 2^32 bytes wraps the counter around and passes. */
  lemma WideEntryPasses()
    ensures Accepts(WIDE, ["k"]) && Enumerates(["k"], WIDE.Keys) && Total(WIDE) >= MAX_DATA_STORAGE
  {
    TotalWithout(WIDE, "k");
    assert ItemSize("k", WIDE["k"]) == COUNTER_RANGE;
    assert ["k"][..0] == [];
    assert Counter(WIDE, ["k"][..0]) == 0;
  }

  // ------------------------------------------------------------- properties

  /** The stored pair, with NULL as empty text. */
  function Pair(username: Option<string>, password: Option<string>): Credentials {
    Credentials(if username.Some? then username.value else "", if password.Some? then password.value else "")
  }

  function WithPair(s: Secrets, id: nat, username: Option<string>, password: Option<string>): Secrets {
    s.(creds := s.creds[id := Pair(username, password)])
  }

  function WithoutIdentity(s: Secrets, id: nat): Secrets {
    Secrets(s.creds - {id}, RemoveIdentityRows(s.store, id))
  }

  function PairOf(s: Secrets, id: nat): Option<Credentials> {
    if id in s.creds then Some(s.creds[id]) else None
  }

  /**
   A stored pair is what is loaded, until it is stored again or removed; storing
   one touches no data and no other pair, removing takes the identity's data along.
   */
  lemma PairsReadBack(s: Secrets, id: nat, username: Option<string>, password: Option<string>, i: nat, n: nat)
    ensures var after := WithPair(s, id, username, password);
            && PairOf(after, i) == (if i == id then Some(Pair(username, password)) else PairOf(s, i))
            && Loaded(after.store, i, n) == Loaded(s.store, i, n)
    ensures var after := WithoutIdentity(s, id);
            && PairOf(after, i) == (if i == id then None else PairOf(s, i))
            && Loaded(after.store, i, n) == (if i == id then None else Loaded(s.store, i, n))
  {
    RemovedIdentity(s.store, id);
  }

  /** The keys of a pair's rows that the DELETE does not find. */
  function KeptKeys(store: Store, del: Deletion, id: nat, m: nat, i: nat, n: nat): set<string> {
    set k | k in store && k.identity == i && k.meth == n && !Hit(k, del, id, m) :: k.key
  }

  lemma UpdatedKeys(store: Store, del: Deletion, id: nat, m: nat, data: Data, i: nat, n: nat)
    ensures KeysOf(Updated(store, del, id, m, data), i, n) ==
            KeptKeys(store, del, id, m, i, n) + (if i == id && n == m then data.Keys else {})
  {
    forall key
      ensures key in KeysOf(Updated(store, del, id, m, data), i, n) <==>
              key in KeptKeys(store, del, id, m, i, n) || (i == id && n == m && key in data.Keys)
    {
      UpdatedKey(store, del, id, m, data, StoreKey(i, n, key));
    }
  }

  lemma UpdatedKey(store: Store, del: Deletion, id: nat, m: nat, data: Data, k: StoreKey)
    ensures k in Updated(store, del, id, m, data) <==>
            (k in store && !Hit(k, del, id, m)) || (k.identity == id && k.meth == m && k.key in data.Keys)
    ensures k in Updated(store, del, id, m, data) <==>
            k.key in KeysOf(Updated(store, del, id, m, data), k.identity, k.meth)
    ensures k in store && !Hit(k, del, id, m) <==> k.key in KeptKeys(store, del, id, m, k.identity, k.meth)
  {
    assert StoreKey(k.identity, k.meth, k.key) == k;
  }

  /** Do all old rows of the pair go, or get replaced? */
  predicate OldRowsGo(store: Store, del: Deletion, id: nat, m: nat, data: Data) {
    del == AsMeant || del == AsWritten(id) || KeysOf(store, id, m) <= data.Keys
  }

  lemma RowsReadBack(store: Store, del: Deletion, id: nat, m: nat, data: Data)
    requires AllTyped(data)
    ensures forall key :: key in data ==>
              StoreKey(id, m, key) in Updated(store, del, id, m, data) &&
              Decode(Updated(store, del, id, m, data)[StoreKey(id, m, key)]) == data[key]
  {
    forall key | key in data ensures Decode(Encode(data[key])) == data[key] { DecodeEncode(data[key]); }
  }

  lemma KeysAfterUpdate(store: Store, del: Deletion, id: nat, m: nat, data: Data)
    ensures KeysOf(Updated(store, del, id, m, data), id, m) == data.Keys <==> OldRowsGo(store, del, id, m, data)
  {
    UpdatedKeys(store, del, id, m, data, id, m);
    var kept := KeptKeys(store, del, id, m, id, m);
    assert kept + data.Keys == data.Keys <==> kept <= data.Keys;
    if del == AsMeant || del == AsWritten(id) {
      assert kept == {};
    } else {
      assert kept == KeysOf(store, id, m);
    }
  }

  /**
   What is stored for an identity and a method is what is loaded: always with
   the statement that was meant, and otherwise exactly when no old key stays.
   */
  lemma LoadAfterUpdate(store: Store, del: Deletion, id: nat, m: nat, data: Data)
    requires AllTyped(data)
    ensures Loaded(Updated(store, del, id, m, data), id, m) == (if data == map[] then None else Some(data))
            <==> OldRowsGo(store, del, id, m, data)
    ensures OldRowsGo(store, del, id, m, data) <==>
            || del == AsMeant || del == AsWritten(id)
            || forall k :: k in store && k.identity == id && k.meth == m ==> k.key in data
  {
    KeysAfterUpdate(store, del, id, m, data);
    RowsReadBack(store, del, id, m, data);
    LoadedIs(Updated(store, del, id, m, data), id, m, data);
  }

  /** Does the DELETE find rows of another pair? */
  predicate HitsOthers(store: Store, del: Deletion, id: nat, m: nat) {
    exists k :: k in store && Hit(k, del, id, m) && (k.identity != id || k.meth != m)
  }

  lemma SameRowsSameLoad(a: Store, b: Store, i: nat, n: nat)
    requires forall key :: StoreKey(i, n, key) in a <==> StoreKey(i, n, key) in b
    requires forall key :: StoreKey(i, n, key) in a ==> a[StoreKey(i, n, key)] == b[StoreKey(i, n, key)]
    ensures Loaded(a, i, n) == Loaded(b, i, n)
  {
    forall key ensures key in KeysOf(a, i, n) <==> key in KeysOf(b, i, n) {
      if key in KeysOf(a, i, n) { assert StoreKey(i, n, key) in b; }
      if key in KeysOf(b, i, n) { assert StoreKey(i, n, key) in a; }
    }
    assert KeysOf(a, i, n) == KeysOf(b, i, n);
    var data: Data := if Loaded(a, i, n).Some? then Loaded(a, i, n).value else map[];
    LoadedIs(a, i, n, data);
    LoadedIs(b, i, n, data);
  }

  ghost predicate OthersLoadTheSame(a: Store, b: Store, id: nat, m: nat) {
    forall i, n :: i != id || n != m ==> Loaded(b, i, n) == Loaded(a, i, n)
  }

  lemma LostKeyShows(a: Store, b: Store, k: StoreKey)
    requires k in a && k !in b
    ensures Loaded(b, k.identity, k.meth) != Loaded(a, k.identity, k.meth)
  {
    assert StoreKey(k.identity, k.meth, k.key) == k;
    assert k.key in KeysOf(a, k.identity, k.meth) && k.key !in KeysOf(b, k.identity, k.meth);
    assert Loaded(a, k.identity, k.meth).value.Keys == KeysOf(a, k.identity, k.meth);
    if Loaded(b, k.identity, k.meth).Some? {
      assert Loaded(b, k.identity, k.meth).value.Keys == KeysOf(b, k.identity, k.meth);
    }
  }

  /** All other pairs load as before exactly when the DELETE finds no row of theirs. */
  lemma OthersAfterUpdate(store: Store, del: Deletion, id: nat, m: nat, data: Data)
    ensures OthersLoadTheSame(store, Updated(store, del, id, m, data), id, m)
            <==> !HitsOthers(store, del, id, m)
    ensures HitsOthers(store, del, id, m) <==>
            del.AsWritten? &&
            exists k :: k in store && k.identity == del.operand && (k.identity != id || k.meth != m)
  {
    var s := Updated(store, del, id, m, data);
    if HitsOthers(store, del, id, m) {
      var k :| k in store && Hit(k, del, id, m) && (k.identity != id || k.meth != m);
      LostKeyShows(store, s, k);
    } else {
      forall i, n | i != id || n != m ensures Loaded(s, i, n) == Loaded(store, i, n) {
        SameRowsSameLoad(s, store, i, n);
      }
    }
  }

  /** The meant statement never finds another pair's rows. */
  lemma MeantHitsNoOthers(store: Store, id: nat, m: nat)
    ensures !HitsOthers(store, AsMeant, id, m)
  {
  }

  const OLD_DATA: Data := map["refresh" := Value("s", "x")]
  const NEW_DATA: Data := map["token" := Value("s", "y")]

  /** With the statement as written an old key of the pair stays behind. */
  lemma WrittenDeleteKeepsOldKeys(operand: nat)
    requires operand != 7
    ensures var before := Updated(map[], AsMeant, 7, 1, OLD_DATA);
            Loaded(Updated(before, AsWritten(operand), 7, 1, NEW_DATA), 7, 1) != Some(NEW_DATA)
  {
    var before := Updated(map[], AsMeant, 7, 1, OLD_DATA);
    assert Text(Basic('s')) == "s";
    assert WellFormed(Basic('s'));
    assert "refresh" in OLD_DATA;
    assert "refresh" !in NEW_DATA by { assert |"refresh"| == 7 && |"token"| == 5; }
    UpdatedKeys(map[], AsMeant, 7, 1, OLD_DATA, 7, 1);
    assert "refresh" in KeysOf(before, 7, 1);
    assert Typed(Value("s", "y"));
    LoadAfterUpdate(before, AsWritten(operand), 7, 1, NEW_DATA);
  }

  /** By the number of another identity it deletes that identity's data. */
  lemma WrittenDeleteHitsOthers()
    ensures var before := Updated(map[], AsMeant, 7, 1, OLD_DATA);
            && HitsOthers(before, AsWritten(7), 8, 1)
            && !OthersLoadTheSame(before, Updated(before, AsWritten(7), 8, 1, NEW_DATA), 8, 1)
  {
    var before := Updated(map[], AsMeant, 7, 1, OLD_DATA);
    assert StoreKey(7, 1, "refresh") in before;
    assert Hit(StoreKey(7, 1, "refresh"), AsWritten(7), 8, 1);
    OthersAfterUpdate(before, AsWritten(7), 8, 1, NEW_DATA);
  }

  /** Removing data of one method: gone and framed under the same conditions. */
  lemma RemovedData(store: Store, del: Deletion, id: nat, m: nat)
    requires m != 0
    ensures Loaded(Removed(store, del, id, m), id, m) == None <==>
              del == AsMeant || del == AsWritten(id) || KeysOf(store, id, m) == {}
    ensures OthersLoadTheSame(store, Removed(store, del, id, m), id, m) <==> !HitsOthers(store, del, id, m)
  {
    assert Rows(id, m, map[], {}) == map[];
    assert Updated(store, del, id, m, map[]) == Removed(store, del, id, m);
    LoadAfterUpdate(store, del, id, m, map[]);
    OthersAfterUpdate(store, del, id, m, map[]);
  }

  /** Removing an identity's rows, as remove_credentials and remove_data for method 0 do. */
  lemma RemovedIdentity(store: Store, id: nat)
    ensures forall i, n :: Loaded(RemoveIdentityRows(store, id), i, n) ==
                           if i == id then None else Loaded(store, i, n)
  {
    var s := RemoveIdentityRows(store, id);
    forall i, n ensures Loaded(s, i, n) == if i == id then None else Loaded(store, i, n) {
      if i == id {
        assert KeysOf(s, i, n) == {};
      } else {
        SameRowsSameLoad(s, store, i, n);
      }
    }
  }

  /** remove_data for method 0 takes all data of the identity, whatever the number in the statement is. */
  lemma RemovedForAllMethods(store: Store, del: Deletion, id: nat)
    ensures forall i, n :: Loaded(Removed(store, del, id, 0), i, n) == if i == id then None else Loaded(store, i, n)
  {
    RemovedIdentity(store, id);
  }

  class SecretDatabase {
    var now: Secrets
    var undo: Option<Secrets>

    predicate Valid()
      reads this
    {
      undo == None
    }

    constructor ()
      ensures Valid() && now == NO_SECRETS
    {
      now, undo := NO_SECRETS, None;
    }

    method StartTransaction(ok: bool) returns (started: bool)
      requires Valid()
      modifies this
      ensures now == old(now) && started == ok && undo == if ok then Some(old(now)) else None
    {
      started := ok;
      if started { undo := Some(now); }
    }

    method RollbackTransaction()
      requires undo.Some?
      modifies this
      ensures Valid() && now == old(undo).value
    {
      now, undo := undo.value, None;
    }

    method CommitTransaction(ok: bool) returns (done: bool)
      requires undo.Some?
      modifies this
      ensures Valid() && done == ok && now == if ok then old(now) else old(undo).value
    {
      done := ok;
      if done { undo := None; } else { RollbackTransaction(); }
    }

    /** transaction_exec: the statements give the table contents after, or fail. */
    method TransactionExec(after: Secrets, beginOk: bool, execOk: bool, commitOk: bool) returns (ok: bool)
      requires Valid()
      modifies this
      ensures Valid() && ok == (beginOk && execOk && commitOk)
      ensures now == if ok then after else old(now)
    {
      ok := StartTransaction(beginOk);
      if !ok { return; }
      if !execOk {
        RollbackTransaction();
        return false;
      }
      now := after;
      ok := CommitTransaction(commitOk);
    }

    method LoadCredentials(id: nat) returns (creds: Option<Credentials>)
      ensures creds == PairOf(now, id)
    {
      creds := None;
      if id in now.creds { creds := Some(now.creds[id]); }
    }

    /** INSERT OR REPLACE: the delete trigger does not fire, so STORE stays. */
    method UpdateCredentials(id: nat, username: Option<string>, password: Option<string>, execOk: bool)
      returns (ok: bool)
      requires Valid()
      modifies this
      ensures Valid() && ok == execOk
      ensures now == if ok then WithPair(old(now), id, username, password) else old(now)
    {
      ok := TransactionExec(WithPair(now, id, username, password), true, execOk, true);
    }

    /** The rows of CREDENTIALS with their trigger, then those of STORE. */
    method RemoveCredentials(id: nat, execOk: bool) returns (ok: bool)
      requires Valid()
      modifies this
      ensures Valid() && ok == execOk
      ensures now == if ok then WithoutIdentity(old(now), id) else old(now)
    {
      var triggered := if id in now.creds then RemoveIdentityRows(now.store, id) else now.store;
      assert RemoveIdentityRows(triggered, id) == RemoveIdentityRows(now.store, id);
      ok := TransactionExec(Secrets(now.creds - {id}, RemoveIdentityRows(triggered, id)), true, execOk, true);
    }

    method LoadData(id: nat, m: nat) returns (data: Option<Data>)
      ensures data == Loaded(now.store, id, m)
    {
      var rows: Data := map[];
      var todo := KeysOf(now.store, id, m);
      while todo != {}
        invariant todo <= KeysOf(now.store, id, m)
        invariant rows.Keys == KeysOf(now.store, id, m) - todo
        invariant forall key :: key in rows ==> rows[key] == Decode(now.store[StoreKey(id, m, key)])
        decreases todo
      {
        var key :| key in todo;
        rows := rows[key := Decode(now.store[StoreKey(id, m, key)])];
        todo := todo - {key};
      }
      data := if rows == map[] then None else Some(rows);
      LoadedIs(now.store, id, m, rows);
    }

    /** The loop that adds up the sizes; it stops at the first one too many. */
    static method CheckSize(data: Data) returns (fits: bool, ghost order: seq<string>)
      ensures Checked(data, order, fits)
      ensures !fits ==> Total(data) >= 4096
      ensures fits ==> (Total(data) < 4096 <==> CounterHolds(data))
    {
      fits, order := true, [];
      var counter: nat := 0;
      var todo := data.Keys;
      ghost var done: set<string> := {};
      while todo != {}
        invariant Walking(data.Keys, order, done, todo) && CountedUp(data, order, counter)
        decreases todo
      {
        var k :| k in todo;
        OneMoreEntry(data, order, done, todo, k, counter);
        order, done, todo := order + [k], done + {k}, todo - {k};
        counter := (counter + ItemSize(k, data[k])) % COUNTER_RANGE;
        if counter >= MAX_DATA_STORAGE {
          order := Rejected(data, order, done, todo);
          return false, order;
        }
      }
      WholeWalk(data, order, done, counter);
    }

    /** Inserts of the entries; failing holds the keys whose statement fails. */
    method InsertRows(id: nat, m: nat, data: Data, failing: set<string>) returns (ok: bool)
      requires undo.Some?
      modifies this
      ensures ok <==> data.Keys !! failing
      ensures ok ==> undo == old(undo)
      ensures ok ==> now == old(now).(store := old(now).store + Rows(id, m, data, data.Keys))
      ensures !ok ==> Valid() && now == old(undo).value
    {
      ok := true;
      var todo := data.Keys;
      ghost var done: set<string> := {};
      assert Rows(id, m, data, done) == map[];
      while todo != {}
        modifies this
        invariant data.Keys == done + todo && done !! failing && undo == old(undo)
        invariant now == old(now).(store := old(now).store + Rows(id, m, data, done))
        decreases todo
      {
        var key :| key in todo;
        if key in failing {
          RollbackTransaction();
          return false;
        }
        RowsNext(old(now).store, id, m, data, done, key);
        now := now.(store := now.store[StoreKey(id, m, key) := Encode(data[key])]);
        todo, done := todo - {key}, done + {key};
      }
      assert done == data.Keys;
    }

    /**
     gsignond_db_secret_database_update_data.  A blob is stored whole; from 2^31 bytes
     on, which only an entry that breaks the limit has, the source cuts its length.
     */
    method UpdateData(id: nat, m: nat, data: Data, del: Deletion, beginOk: bool, deleteOk: bool,
                      failing: set<string>, commitOk: bool) returns (ok: bool, ghost order: seq<string>)
      requires Valid()
      modifies this
      ensures Valid()
      ensures now == if ok then old(now).(store := Updated(old(now).store, del, id, m, data)) else old(now)
      ensures Enumerates(order, data.Keys)
      ensures ok <==> beginOk && deleteOk && data.Keys !! failing && commitOk && Accepts(data, order)
      ensures ok ==> (Total(data) < MAX_DATA_STORAGE <==> CounterHolds(data))
      ensures CounterHolds(data) ==>
                (ok <==> beginOk && deleteOk && data.Keys !! failing && commitOk && Total(data) < MAX_DATA_STORAGE)
    {
      order := AnyOrder(data.Keys);
      AcceptedIsSmallIff(data, order);
      ok := StartTransaction(beginOk);
      if !ok { return; }
      if !deleteOk {
        RollbackTransaction();
        ok := false;
        return;
      }
      now := now.(store := DeleteRows(now.store, del, id, m));
      ok, order := CheckSize(data);
      if !ok { RollbackTransaction(); return; }
      ok := InsertRows(id, m, data, failing);
      if !ok { return; }
      ok := CommitTransaction(commitOk);
    }

    /** gsignond_db_secret_database_remove_data */
    method RemoveData(id: nat, m: nat, del: Deletion, execOk: bool) returns (ok: bool)
      requires Valid()
      modifies this
      ensures Valid() && ok == execOk
      ensures now == if ok then old(now).(store := Removed(old(now).store, del, id, m)) else old(now)
    {
      ok := TransactionExec(now.(store := Removed(now.store, del, id, m)), true, execOk, true);
    }

    /** gsignond_db_secret_database_clear */
    method Clear(execOk: bool) returns (ok: bool)
      requires Valid()
      modifies this
      ensures Valid() && ok == execOk && now == if ok then Secrets(map[], map[]) else old(now)
    {
      ok := TransactionExec(NO_SECRETS, true, execOk, true);
    }
  }
}
