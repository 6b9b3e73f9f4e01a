/**
 Type-tagged values as the secret database stores them
 (src/common/db/gsignond-db-secret-database.c): the type string, a NUL, and the
 serialised bytes.  A byte is written as a character, so that type strings read
 as they do in C.  The reader finds the end of the type string by scanning it,
 not by looking for the NUL.
 */
module VariantTypes {

  /** A definite GVariant type. */
  datatype VariantType =
    | Basic(code: char)
    | Maybe(element: VariantType)
    | Array(element: VariantType)
    | Tuple(items: TypeList)
    | DictEntry(key: VariantType, value: VariantType)

  datatype TypeList = Nil | Cons(head: VariantType, tail: TypeList)

  predicate IsBasicCode(c: char) { c in "bynqiuxthdsogv" }

  predicate WellFormed(t: VariantType) {
    match t
    case Basic(c) => IsBasicCode(c)
    case Maybe(e) => WellFormed(e)
    case Array(e) => WellFormed(e)
    case Tuple(items) => AllWellFormed(items)
    case DictEntry(k, v) => WellFormed(k) && WellFormed(v)
  }

  predicate AllWellFormed(ts: TypeList) {
    ts.Nil? || (WellFormed(ts.head) && AllWellFormed(ts.tail))
  }

  /** g_variant_type_peek_string */
  function Text(t: VariantType): string {
    match t
    case Basic(c) => [c]
    case Maybe(e) => "m" + Text(e)
    case Array(e) => "a" + Text(e)
    case Tuple(items) => "(" + TextOfAll(items) + ")"
    case DictEntry(k, v) => "{" + (Text(k) + Text(v)) + "}"
  }

  function TextOfAll(ts: TypeList): string {
    if ts.Nil? then "" else Text(ts.head) + TextOfAll(ts.tail)
  }

  /** The scan of g_variant_type_get_string_length, from inside depth brackets. */
  function ScanFrom(s: string, depth: nat): (n: nat)
    ensures n <= |s|
  {
    if s == "" then 0
    else if s[0] == 'a' || s[0] == 'm' then 1 + ScanFrom(s[1..], depth)
    else
      var inside := if s[0] == '(' || s[0] == '{' then depth + 1
                    else if (s[0] == ')' || s[0] == '}') && depth > 0 then depth - 1 else depth;
      if inside == 0 then 1 else 1 + ScanFrom(s[1..], inside)
  }

  function TypeLength(s: string): (n: nat)
    ensures n <= |s|
  {
    ScanFrom(s, 0)
  }

  /** What the scan does with a whole type at its start. */
  function AfterType(n: nat, rest: string, depth: nat): nat {
    if depth == 0 then n else n + ScanFrom(rest, depth)
  }

  /** One step of the scan. */
  lemma ScanStep(c: char, rest: string, depth: nat)
    ensures c in "am" ==> ScanFrom([c] + rest, depth) == 1 + ScanFrom(rest, depth)
    ensures c in "({" ==> ScanFrom([c] + rest, depth) == 1 + ScanFrom(rest, depth + 1)
    ensures c in ")}" && depth > 0 ==> ScanFrom([c] + rest, depth) == AfterType(1, rest, depth - 1)
    ensures IsBasicCode(c) ==> ScanFrom([c] + rest, depth) == AfterType(1, rest, depth)
  {
    assert ([c] + rest)[1..] == rest;
  }

  lemma ScanPrefixed(c: char, body: string, rest: string, depth: nat)
    requires c in "am" && ScanFrom(body + rest, depth) == AfterType(|body|, rest, depth)
    ensures ScanFrom([c] + body + rest, depth) == AfterType(|body| + 1, rest, depth)
  {
    ScanStep(c, body + rest, depth);
    assert [c] + body + rest == [c] + (body + rest);
  }

  lemma ScanBracketed(open: char, body: string, close: char, rest: string, depth: nat)
    requires open in "({" && close in ")}"
    requires ScanFrom(body + ([close] + rest), depth + 1) == |body| + ScanFrom([close] + rest, depth + 1)
    ensures ScanFrom([open] + body + [close] + rest, depth) == AfterType(|body| + 2, rest, depth)
  {
    ScanStep(open, body + ([close] + rest), depth);
    ScanStep(close, rest, depth + 1);
    assert [open] + body + [close] + rest == [open] + (body + ([close] + rest));
  }

  lemma {:induction false} ScanSkipsType(t: VariantType, rest: string, depth: nat)
    requires WellFormed(t)
    ensures ScanFrom(Text(t) + rest, depth) == AfterType(|Text(t)|, rest, depth)
    decreases t, 2
  {
    match t
    case Basic(c) =>
      ScanStep(c, rest, depth);
    case Maybe(e) =>
      ScanSkipsType(e, rest, depth);
      ScanPrefixed('m', Text(e), rest, depth);
    case Array(e) =>
      ScanSkipsType(e, rest, depth);
      ScanPrefixed('a', Text(e), rest, depth);
    case Tuple(items) =>
      ScanSkipsTuple(items, rest, depth);
    case DictEntry(k, v) =>
      ScanSkipsEntry(k, v, rest, depth);
  }

  lemma {:induction false} ScanSkipsTuple(items: TypeList, rest: string, depth: nat)
    requires AllWellFormed(items)
    ensures ScanFrom(Text(Tuple(items)) + rest, depth) == AfterType(|Text(Tuple(items))|, rest, depth)
    decreases Tuple(items), 1
  {
    ScanSkipsAll(items, [')'] + rest, depth + 1);
    ScanBracketed('(', TextOfAll(items), ')', rest, depth);
  }

  lemma {:induction false} ScanSkipsPair(k: VariantType, v: VariantType, rest: string, depth: nat)
    requires WellFormed(k) && WellFormed(v) && depth > 0
    ensures ScanFrom(Text(k) + Text(v) + rest, depth) == |Text(k) + Text(v)| + ScanFrom(rest, depth)
    decreases DictEntry(k, v), 0
  {
    ScanSkipsType(v, rest, depth);
    ScanSkipsType(k, Text(v) + rest, depth);
    assert Text(k) + Text(v) + rest == Text(k) + (Text(v) + rest);
  }

  lemma {:induction false} ScanSkipsEntry(k: VariantType, v: VariantType, rest: string, depth: nat)
    requires WellFormed(k) && WellFormed(v)
    ensures ScanFrom(Text(DictEntry(k, v)) + rest, depth) == AfterType(|Text(DictEntry(k, v))|, rest, depth)
    decreases DictEntry(k, v), 1
  {
    ScanSkipsPair(k, v, ['}'] + rest, depth + 1);
    ScanBracketed('{', Text(k) + Text(v), '}', rest, depth);
  }

  lemma {:induction false} ScanSkipsAll(ts: TypeList, rest: string, depth: nat)
    requires AllWellFormed(ts) && depth > 0
    ensures ScanFrom(TextOfAll(ts) + rest, depth) == |TextOfAll(ts)| + ScanFrom(rest, depth)
    decreases ts, 0
  {
    if ts.Nil? {
      assert TextOfAll(ts) + rest == rest;
    } else {
      ScanSkipsType(ts.head, TextOfAll(ts.tail) + rest, depth);
      ScanSkipsAll(ts.tail, rest, depth);
      assert TextOfAll(ts) + rest == Text(ts.head) + (TextOfAll(ts.tail) + rest);
    }
  }

  // ----------------------------------------------------------------- values

  /** A value: its type string and its serialised bytes. */
  datatype Value = Value(kind: string, bytes: string)

  ghost predicate Typed(v: Value) { exists t :: WellFormed(t) && v.kind == Text(t) }

  const NUL: char := 0 as char

  function Encode(v: Value): string { v.kind + [NUL] + v.bytes }

  function Decode(blob: string): Value {
    var n := TypeLength(blob);
    Value(blob[..n], if n < |blob| then blob[n + 1..] else "")
  }

  /** The type string, a NUL and the bytes; type tag and bytes of every value come back. */
  lemma DecodeEncode(v: Value)
    requires Typed(v)
    ensures Encode(v)[..|v.kind|] == v.kind && Encode(v)[|v.kind|] == 0 as char
    ensures Encode(v)[|v.kind| + 1..] == v.bytes
    ensures Decode(Encode(v)) == v
  {
    var t :| WellFormed(t) && v.kind == Text(t);
    assert Encode(v) == Text(t) + ([NUL] + v.bytes);
    ScanSkipsType(t, [NUL] + v.bytes, 0);
    assert Encode(v)[..|v.kind|] == v.kind && Encode(v)[|v.kind| + 1..] == v.bytes;
  }
}
