/**
 The canonical JSON printer and the newline-delimited stream of the recorded-run exporter.
 Object members are kept in whatever order the value iterates them; keys are distinct.
 */
module CanonicalJson {
  import opened Outcomes
  import opened Text
  import opened Sorting

  /** `serde_json::Number`: an integer in one of two ranges, or the bits of a finite double. */
  datatype Number = Unsigned(n: nat) | Negative(n: nat) | Double(bits: nat)

  datatype Json =
    | Null
    | Bool(b: bool)
    | Num(n: Number)
    | Str(s: string)
    | Arr(items: seq<Json>)
    | Obj(members: seq<Member>)

  datatype Member = Member(key: string, value: Json)

  /**
   The two foreign number functions: `as_f64`, which rounds to a double and may refuse, and the
   shortest ECMAScript text of a double.
   */
  datatype NumberFormat = NumberFormat(asDouble: Number -> Option<real>, text: real -> string)

  predicate IsNumberChar(c: char) {
    '0' <= c <= '9' || c == '-' || c == '+' || c == '.' || c == 'e'
  }

  predicate IsNumberText(s: string) {
    s != "" && (s[0] == '-' || '0' <= s[0] <= '9') && forall c :: c in s ==> IsNumberChar(c)
  }

  /** What the formatter promises: a number token, and different tokens for different doubles. */
  ghost predicate Faithful(nf: NumberFormat) {
    && (forall n :: nf.asDouble(n).Some? ==> IsNumberText(nf.text(nf.asDouble(n).value)))
    && (forall m, n :: nf.asDouble(m).Some? && nf.asDouble(n).Some?
                       && nf.text(nf.asDouble(m).value) == nf.text(nf.asDouble(n).value)
                       ==> nf.asDouble(m) == nf.asDouble(n))
  }

  function WholeNumber(n: Number): int {
    match n
    case Unsigned(k) => k
    case Negative(k) => 0 - k
    case Double(bits) => bits
  }

  function WholeText(i: int): string {
    if i < 0 then "-" + Decimal(-i) else Decimal(i)
  }

  /** A formatter of whole numbers, to show that such a pair exists. */
  function WholeFormat(): NumberFormat {
    NumberFormat((n: Number) => Some(WholeNumber(n) as real), (r: real) => WholeText(r.Floor))
  }

  /** Faithful formats exist, and this one prints every number. */
  lemma FaithfulExists()
    ensures Faithful(WholeFormat()) && forall n :: WholeFormat().asDouble(n).Some?
  {
    var nf := WholeFormat();
    hide WholeText, WholeNumber, IsNumberText;
    forall n ensures nf.asDouble(n).Some? && IsNumberText(nf.text(nf.asDouble(n).value)) {
      WholeTextIsNumber(WholeNumber(n));
    }
    forall m, n | nf.text(nf.asDouble(m).value) == nf.text(nf.asDouble(n).value) ensures nf.asDouble(m) == nf.asDouble(n) {
      WholeTextUnique(WholeNumber(m), WholeNumber(n));
    }
  }

  lemma WholeTextIsNumber(i: int)
    ensures IsNumberText(WholeText(i))
  {
    var digits := if i < 0 then Decimal(-i) else Decimal(i);
    hide Decimal;
    assert digits[0] in digits;
  }

  lemma WholeTextUnique(i: int, j: int)
    requires WholeText(i) == WholeText(j)
    ensures i == j
  {
    var x, y := WholeText(i), WholeText(j);
    HeadIsDigit(if i < 0 then -i else i);
    HeadIsDigit(if j < 0 then -j else j);
    hide Decimal;
    if i < 0 && j < 0 {
      assert Decimal(-i) == x[1..] == y[1..] == Decimal(-j);
      DecimalInjective(-i, -j);
    } else if i >= 0 && j >= 0 {
      DecimalInjective(i, j);
    } else {
      assert false;
    }
  }

  lemma HeadIsDigit(n: nat)
    ensures '0' <= Decimal(n)[0] <= '9'
  {
    var digits := Decimal(n);
    assert digits[0] in digits;
  }

  datatype EncodeError = InvalidNumber | RecordOrStreamLimit

  function Keys(members: seq<Member>): (keys: seq<string>)
    ensures |keys| == |members|
    ensures forall i :: 0 <= i < |keys| ==> keys[i] == members[i].key
  {
    if members == [] then [] else [members[0].key] + Keys(members[1..])
  }

  predicate DistinctKeys(members: seq<Member>) {
    forall i, j :: 0 <= i < j < |members| ==> members[i].key != members[j].key
  }

  /** Keys of one object are distinct, at every depth: what `serde_json::Map` guarantees. */
  predicate WellFormed(v: Json) {
    match v
    case Arr(items) => forall x :: x in items ==> WellFormed(x)
    case Obj(members) => DistinctKeys(members) && forall m :: m in members ==> WellFormed(m.value)
    case _ => true
  }

  /** Every number converts to a double. */
  predicate Printable(nf: NumberFormat, v: Json) {
    match v
    case Num(n) => nf.asDouble(n).Some?
    case Arr(items) => forall x :: x in items ==> Printable(nf, x)
    case Obj(members) => forall m :: m in members ==> Printable(nf, m.value)
    case _ => true
  }

  // ---------- Strings ----------

  /** How `serde_json` writes one character inside a string. */
  function Escape(c: char): (r: string)
    ensures r != "" && r[0] != '"'
  {
    if c == '"' then "\\\""
    else if c == '\\' then "\\\\"
    else if c == '\n' then "\\n"
    else if c == '\r' then "\\r"
    else if c == '\t' then "\\t"
    else if c as int == 8 then "\\b"
    else if c as int == 12 then "\\f"
    else if c as int < 0x20 then "\\u00" + [Digit(c as int / 16), Digit(c as int % 16)]
    else [c]
  }

  function EscapeAll(s: string): string {
    if s == "" then "" else Escape(s[0]) + EscapeAll(s[1..])
  }

  function Quote(s: string): string {
    "\"" + EscapeAll(s) + "\""
  }

  // ---------- Values ----------

  function Lookup(members: seq<Member>, key: string): (m: Member)
    requires key in Keys(members)
    ensures m in members && m.key == key
  {
    if members[0].key == key then members[0]
    else
      assert Keys(members)[1..] == Keys(members[1..]);
      assert key in Keys(members)[1..];
      Lookup(members[1..], key)
  }

  /** The keys in the order of their UTF-16 code units. */
  function SortedKeys(members: seq<Member>): (keys: seq<string>)
    ensures |keys| == |members|
    ensures forall k :: k in keys <==> k in Keys(members)
  {
    var keys := StableSort(KeyLe, Keys(members));
    SortPermutes(KeyLe, Keys(members));
    SameMembers(keys, Keys(members));
    keys
  }

  function Print(nf: NumberFormat, v: Json): string
    requires Printable(nf, v)
    decreases v, 1
  {
    match v
    case Null => "null"
    case Bool(b) => if b then "true" else "false"
    case Num(n) => nf.text(nf.asDouble(n).value)
    case Str(s) => Quote(s)
    case Arr(items) =>
      if items == [] then "[]" else "[" + Print(nf, items[0]) + ItemsTail(nf, items[1..])
    case Obj(members) =>
      var keys := SortedKeys(members);
      if keys == [] then "{}"
      else "{" + PrintMember(nf, members, keys[0]) + MembersTail(nf, members, keys[1..])
  }

  /** The rest of an array after an item. */
  function ItemsTail(nf: NumberFormat, items: seq<Json>): string
    requires forall x :: x in items ==> Printable(nf, x)
    decreases items, 0
  {
    if items == [] then "]" else "," + Print(nf, items[0]) + ItemsTail(nf, items[1..])
  }

  function PrintMember(nf: NumberFormat, members: seq<Member>, key: string): string
    requires key in Keys(members) && forall m :: m in members ==> Printable(nf, m.value)
    decreases members, 0, 0
  {
    Quote(key) + ":" + Print(nf, Lookup(members, key).value)
  }

  /** The rest of an object after a member. */
  function MembersTail(nf: NumberFormat, members: seq<Member>, keys: seq<string>): string
    requires forall k :: k in keys ==> k in Keys(members)
    requires forall m :: m in members ==> Printable(nf, m.value)
    decreases members, 0, |keys| + 1
  {
    if keys == [] then "}"
    else "," + PrintMember(nf, members, keys[0]) + MembersTail(nf, members, keys[1..])
  }

  // ---------- The printer of the source ----------

  /** The text still to be written when `i` items are out. */
  ghost function ItemsFrom(nf: NumberFormat, items: seq<Json>, i: nat): string
    requires i <= |items| && forall x :: x in items ==> Printable(nf, x)
  {
    if i > 0 || items == [] then ItemsTail(nf, items[i..]) else Print(nf, items[0]) + ItemsTail(nf, items[1..])
  }

  ghost function MembersFrom(nf: NumberFormat, members: seq<Member>, keys: seq<string>, i: nat): string
    requires i <= |keys| && (forall k :: k in keys ==> k in Keys(members))
    requires forall m :: m in members ==> Printable(nf, m.value)
  {
    if i > 0 || keys == [] then MembersTail(nf, members, keys[i..])
    else PrintMember(nf, members, keys[0]) + MembersTail(nf, members, keys[1..])
  }

  lemma ItemsFromStep(nf: NumberFormat, items: seq<Json>, i: nat, text: string)
    requires i < |items| && forall x :: x in items ==> Printable(nf, x)
    ensures text + ItemsFrom(nf, items, i)
            == ((if i > 0 then text + "," else text) + Print(nf, items[i])) + ItemsFrom(nf, items, i + 1)
  {
    assert items[i..][0] == items[i] && items[i..][1..] == items[i + 1..];
    var p, rest := Print(nf, items[i]), ItemsTail(nf, items[i + 1..]);
    assert text + ("," + p + rest) == (text + "," + p) + rest;
    assert text + (p + rest) == (text + p) + rest;
  }

  lemma ItemsFromEnds(nf: NumberFormat, items: seq<Json>)
    requires forall x :: x in items ==> Printable(nf, x)
    ensures Print(nf, Arr(items)) == "[" + ItemsFrom(nf, items, 0)
    ensures ItemsFrom(nf, items, |items|) == "]"
  {
    if items != [] {
      var p, rest := Print(nf, items[0]), ItemsTail(nf, items[1..]);
      assert ("[" + p) + rest == "[" + (p + rest);
    }
  }

  lemma MembersFromStep(nf: NumberFormat, members: seq<Member>, keys: seq<string>, i: nat, text: string)
    requires i < |keys| && (forall k :: k in keys ==> k in Keys(members))
    requires forall m :: m in members ==> Printable(nf, m.value)
    ensures text + MembersFrom(nf, members, keys, i)
            == ((if i > 0 then text + "," else text) + PrintMember(nf, members, keys[i]))
               + MembersFrom(nf, members, keys, i + 1)
  {
    hide PrintMember;
    assert keys[i..][0] == keys[i] && keys[i..][1..] == keys[i + 1..];
    var p, rest := PrintMember(nf, members, keys[i]), MembersTail(nf, members, keys[i + 1..]);
    assert text + ("," + p + rest) == (text + "," + p) + rest;
    assert text + (p + rest) == (text + p) + rest;
  }

  lemma MembersFromEnds(nf: NumberFormat, members: seq<Member>)
    requires forall m :: m in members ==> Printable(nf, m.value)
    ensures var keys := SortedKeys(members);
            && Print(nf, Obj(members)) == "{" + MembersFrom(nf, members, keys, 0)
            && MembersFrom(nf, members, keys, |keys|) == "}"
  {
    hide PrintMember, SortedKeys, Quote, ItemsTail, Printable;
    var keys := SortedKeys(members);
    if keys != [] {
      var p, rest := PrintMember(nf, members, keys[0]), MembersTail(nf, members, keys[1..]);
      assert ("{" + p) + rest == "{" + (p + rest);
    }
  }

  lemma {:induction false} LookupIsUnique(members: seq<Member>, m: Member)
    requires DistinctKeys(members) && m in members
    ensures m.key in Keys(members) && Lookup(members, m.key) == m
  {
    if members[0].key != m.key {
      LookupIsUnique(members[1..], m);
      assert Keys(members)[1..] == Keys(members[1..]);
    }
  }

  lemma MembersPrintable(nf: NumberFormat, members: seq<Member>)
    ensures Printable(nf, Obj(members)) <==> forall m :: m in members ==> Printable(nf, m.value)
  {
  }

  lemma AllKeysPrintable(nf: NumberFormat, members: seq<Member>, keys: seq<string>)
    requires DistinctKeys(members) && forall k :: k in keys <==> k in Keys(members)
    requires KeysPrintable(nf, members, keys)
    ensures forall m :: m in members ==> Printable(nf, m.value)
  {
    forall m | m in members ensures Printable(nf, m.value) {
      LookupIsUnique(members, m);
    }
  }

  lemma AllItemsWellFormed(items: seq<Json>)
    requires WellFormed(Arr(items))
    ensures forall x :: x in items ==> WellFormed(x)
  {
  }

  lemma AllMembersWellFormed(members: seq<Member>)
    requires WellFormed(Obj(members))
    ensures DistinctKeys(members) && forall m :: m in members ==> WellFormed(m.value)
  {
  }

  /** The recursive writer: it appends to the text it is given. */
  method Write(nf: NumberFormat, v: Json, out: string) returns (r: Result<string, EncodeError>)
    requires WellFormed(v)
    ensures r.Ok? <==> Printable(nf, v)
    ensures r.Ok? ==> r.value == out + Print(nf, v)
    ensures r.Err? ==> r.error == InvalidNumber
    decreases v, 1
  {
    match v
    case Null => return Ok(out + "null");
    case Bool(b) => return Ok(out + if b then "true" else "false");
    case Num(n) =>
      var number := nf.asDouble(n);
      if number.None? {
        return Err(InvalidNumber);
      }
      return Ok(out + nf.text(number.value));
    case Str(s) => return Ok(out + Quote(s));
    case Arr(items) =>
      r := WriteItems(nf, items, out);
    case Obj(members) =>
      r := WriteMembers(nf, members, out);
  }

  method WriteItems(nf: NumberFormat, items: seq<Json>, out: string) returns (r: Result<string, EncodeError>)
    requires WellFormed(Arr(items))
    ensures r.Ok? <==> Printable(nf, Arr(items))
    ensures r.Ok? ==> r.value == out + Print(nf, Arr(items))
    ensures r.Err? ==> r.error == InvalidNumber
    decreases items, 0
  {
    hide Print, ItemsFrom, WellFormed;
    AllItemsWellFormed(items);
    ghost var ok := forall x :: x in items ==> Printable(nf, x);
    var text := out + "[";
    for i := 0 to |items|
      invariant forall x :: x in items[..i] ==> Printable(nf, x)
      invariant ok ==> text + ItemsFrom(nf, items, i) == out + "[" + ItemsFrom(nf, items, 0)
    {
      if ok {
        ItemsFromStep(nf, items, i, text);
      }
      if i > 0 {
        text := text + ",";
      }
      assert items[i] in items;
      var item := Write(nf, items[i], text);
      if item.Err? {
        return item;
      }
      assert items[..i + 1] == items[..i] + [items[i]];
      text := item.value;
    }
    assert items[..|items|] == items;
    ItemsFromEnds(nf, items);
    return Ok(text + "]");
  }

  method WriteMembers(nf: NumberFormat, members: seq<Member>, out: string) returns (r: Result<string, EncodeError>)
    requires WellFormed(Obj(members))
    ensures r.Ok? <==> Printable(nf, Obj(members))
    ensures r.Ok? ==> r.value == out + Print(nf, Obj(members))
    ensures r.Err? ==> r.error == InvalidNumber
    decreases members, 0, 1
  {
    hide *;
    AllMembersWellFormed(members);
    MembersPrintable(nf, members);
    ghost var ok := forall m :: m in members ==> Printable(nf, m.value);
    var keys := SortedKeys(members);
    var text := out + "{";
    NoKeysPrintable(nf, members);
    for i := 0 to |keys|
      invariant KeysPrintable(nf, members, keys[..i])
      invariant ok ==> text + MembersFrom(nf, members, keys, i) == out + "{" + MembersFrom(nf, members, keys, 0)
    {
      if ok {
        MembersFromStep(nf, members, keys, i, text);
      }
      if i > 0 {
        text := text + ",";
      }
      var item := WriteMember(nf, members, keys[i], text);
      if item.Err? {
        return item;
      }
      assert keys[..i + 1] == keys[..i] + [keys[i]];
      OneMoreKeyPrintable(nf, members, keys[..i], keys[i]);
      text := item.value;
    }
    assert keys[..|keys|] == keys;
    AllKeysPrintable(nf, members, keys);
    MembersFromEnds(nf, members);
    return Ok(text + "}");
  }

  ghost predicate KeysPrintable(nf: NumberFormat, members: seq<Member>, keys: seq<string>) {
    forall k :: k in keys ==> k in Keys(members) && Printable(nf, Lookup(members, k).value)
  }

  lemma NoKeysPrintable(nf: NumberFormat, members: seq<Member>)
    ensures KeysPrintable(nf, members, [])
  {
  }

  lemma OneMoreKeyPrintable(nf: NumberFormat, members: seq<Member>, keys: seq<string>, key: string)
    requires KeysPrintable(nf, members, keys)
    requires key in Keys(members) && Printable(nf, Lookup(members, key).value)
    ensures KeysPrintable(nf, members, keys + [key])
  {
  }

  method WriteMember(nf: NumberFormat, members: seq<Member>, key: string, out: string)
    returns (r: Result<string, EncodeError>)
    requires key in Keys(members) && forall m :: m in members ==> WellFormed(m.value)
    ensures r.Ok? <==> Printable(nf, Lookup(members, key).value)
    ensures r.Ok? && (forall m :: m in members ==> Printable(nf, m.value)) ==>
            r.value == out + PrintMember(nf, members, key)
    ensures r.Err? ==> r.error == InvalidNumber
    decreases members, 0, 0
  {
    hide Quote, Print, Printable, WellFormed, Lookup, Keys;
    var prefix := Quote(key) + ":";
    r := Write(nf, Lookup(members, key).value, out + prefix);
    if r.Ok? {
      assert r.value == out + (prefix + Print(nf, Lookup(members, key).value));
    }
  }

  /** The bytes of the canonical form. */
  method Canonical(nf: NumberFormat, v: Json) returns (r: Result<seq<byte>, EncodeError>)
    requires WellFormed(v)
    ensures r.Ok? <==> Printable(nf, v)
    ensures r.Ok? ==> r.value == Utf8(Print(nf, v))
    ensures r.Err? ==> r.error == InvalidNumber
  {
    var text := Write(nf, v, "");
    match text
    case Err(error) => return Err(error);
    case Ok(out) =>
      assert out == Print(nf, v);
      return Ok(Utf8(out));
  }

  // ---------- Equal values print equally ----------

  /** Equality up to member order and the double value of numbers. */
  ghost predicate Equivalent(nf: NumberFormat, a: Json, b: Json) {
    match (a, b)
    case (Num(m), Num(n)) => nf.asDouble(m) == nf.asDouble(n)
    case (Arr(xs), Arr(ys)) => |xs| == |ys| && forall i :: 0 <= i < |xs| ==> Equivalent(nf, xs[i], ys[i])
    case (Obj(ms), Obj(ns)) =>
      && (forall k :: k in Keys(ms) <==> k in Keys(ns))
      && (forall k :: k in Keys(ms) ==> Equivalent(nf, Lookup(ms, k).value, Lookup(ns, k).value))
    case _ => a == b
  }

  lemma KeyOrderIsStrict()
    ensures TotalOrder(KeyLe) && Antisymmetric(KeyLe)
  {
    forall a, b ensures KeyLe(a, b) || KeyLe(b, a) {
      LexTotal(Utf16(a), Utf16(b));
    }
    forall a, b, c | KeyLe(a, b) && KeyLe(b, c) ensures KeyLe(a, c) {
      LexTransitive(Utf16(a), Utf16(b), Utf16(c));
    }
    forall a, b | KeyLe(a, b) && KeyLe(b, a) ensures a == b {
      LexAntisymmetric(Utf16(a), Utf16(b));
      Utf16Injective(a, b);
    }
  }

  lemma SameKeysSortEqually(ms: seq<Member>, ns: seq<Member>)
    requires DistinctKeys(ms) && DistinctKeys(ns)
    requires forall k :: k in Keys(ms) <==> k in Keys(ns)
    ensures SortedKeys(ms) == SortedKeys(ns)
  {
    var x, y := Keys(ms), Keys(ns);
    assert Distinct(x) && Distinct(y);
    forall k ensures multiset(x)[k] == multiset(y)[k] {
      DistinctMultiplicity(x, k);
      DistinctMultiplicity(y, k);
    }
    assert multiset(x) == multiset(y);
    KeyOrderIsStrict();
    SortPermutes(KeyLe, x);
    SortPermutes(KeyLe, y);
    SortSorted(KeyLe, x);
    SortSorted(KeyLe, y);
    SortedUnique(KeyLe, StableSort(KeyLe, x), StableSort(KeyLe, y));
  }

  /** Values that differ only in member order and number spelling print to the same text. */
  lemma {:induction false} EquivalentPrintsEqually(nf: NumberFormat, a: Json, b: Json)
    requires WellFormed(a) && WellFormed(b) && Printable(nf, a) && Printable(nf, b)
    requires Equivalent(nf, a, b)
    ensures Print(nf, a) == Print(nf, b)
    decreases a, 1
  {
    match a
    case Arr(xs) =>
      if xs != [] {
        EquivalentPrintsEqually(nf, xs[0], b.items[0]);
        ItemsPrintEqually(nf, xs[1..], b.items[1..]);
      }
    case Obj(ms) =>
      SameKeysSortEqually(ms, b.members);
      var keys := SortedKeys(ms);
      if keys != [] {
        MembersPrintEqually(nf, ms, b.members, keys);
      }
    case _ =>
  }

  lemma {:induction false} ItemsPrintEqually(nf: NumberFormat, xs: seq<Json>, ys: seq<Json>)
    requires |xs| == |ys|
    requires forall i :: 0 <= i < |xs| ==>
               && WellFormed(xs[i]) && WellFormed(ys[i]) && Printable(nf, xs[i]) && Printable(nf, ys[i])
               && Equivalent(nf, xs[i], ys[i])
    ensures ItemsTail(nf, xs) == ItemsTail(nf, ys)
    decreases xs, 0
  {
    if xs != [] {
      EquivalentPrintsEqually(nf, xs[0], ys[0]);
      ItemsPrintEqually(nf, xs[1..], ys[1..]);
    }
  }

  lemma {:induction false} MembersPrintEqually(nf: NumberFormat, ms: seq<Member>, ns: seq<Member>, keys: seq<string>)
    requires forall k :: k in keys ==> k in Keys(ms) && k in Keys(ns)
    requires forall m :: m in ms ==> WellFormed(m.value) && Printable(nf, m.value)
    requires forall n :: n in ns ==> WellFormed(n.value) && Printable(nf, n.value)
    requires forall k :: k in keys ==> Equivalent(nf, Lookup(ms, k).value, Lookup(ns, k).value)
    ensures MembersTail(nf, ms, keys) == MembersTail(nf, ns, keys)
    ensures keys != [] ==>
            && PrintMember(nf, ms, keys[0]) == PrintMember(nf, ns, keys[0])
            && MembersTail(nf, ms, keys[1..]) == MembersTail(nf, ns, keys[1..])
    decreases ms, 0, |keys|
  {
    if keys != [] {
      EquivalentPrintsEqually(nf, Lookup(ms, keys[0]).value, Lookup(ns, keys[0]).value);
      MembersPrintEqually(nf, ms, ns, keys[1..]);
    }
  }

  // ---------- Equal prints come from equal values ----------

  /** What may follow a value: nothing, or a character that no number contains. */
  predicate Follow(s: string) {
    s == "" || !IsNumberChar(s[0])
  }

  lemma EscapePrefixFree(c: char, d: char, s: string, t: string)
    requires Escape(c) + s == Escape(d) + t
    ensures c == d && s == t
  {
    var x, y := Escape(c), Escape(d);
    var w := x + s;
    assert w[0] == x[0] == y[0];
    if |x| > 1 && |y| > 1 {
      assert w[1] == x[1] == y[1];
    }
    if |x| == 6 && |y| == 6 {
      assert w[4] == x[4] == y[4] && w[5] == x[5] == y[5];
      assert HexValue(x[4]) == c as int / 16 && HexValue(x[5]) == c as int % 16;
      assert HexValue(y[4]) == d as int / 16 && HexValue(y[5]) == d as int % 16;
    }
    assert |x| == |y|;
    assert s == w[|x|..] == t;
  }

  lemma EscapedHead(x: string, s: string)
    ensures (EscapeAll(x) + "\"" + s)[0] == '"' <==> x == ""
  {
  }

  lemma {:induction false} QuoteUnique(x: string, y: string, s: string, t: string)
    requires EscapeAll(x) + "\"" + s == EscapeAll(y) + "\"" + t
    ensures x == y && s == t
  {
    hide Escape;
    EscapedHead(x, s);
    EscapedHead(y, t);
    var w := EscapeAll(x) + "\"" + s;
    if x == "" {
      assert s == w[1..] == t;
    } else {
      var u, v := EscapeAll(x[1..]) + "\"" + s, EscapeAll(y[1..]) + "\"" + t;
      assert w == Escape(x[0]) + u && w == Escape(y[0]) + v;
      EscapePrefixFree(x[0], y[0], u, v);
      QuoteUnique(x[1..], y[1..], s, t);
      assert x == [x[0]] + x[1..] && y == [y[0]] + y[1..];
    }
  }

  lemma NumberUnique(x: string, y: string, s: string, t: string)
    requires x + s == y + t && Follow(s) && Follow(t)
    requires (forall c :: c in x ==> IsNumberChar(c)) && (forall c :: c in y ==> IsNumberChar(c))
    ensures x == y && s == t
  {
    if |x| < |y| {
      CharBehind(x, y, s, t);
      assert false;
    }
    if |y| < |x| {
      CharBehind(y, x, t, s);
      assert false;
    }
    var w := x + s;
    assert x == w[..|x|] == y && s == w[|x|..] == t;
  }

  lemma CharBehind(x: string, y: string, s: string, t: string)
    requires x + s == y + t && |x| < |y|
    ensures s != "" && s[0] in y
  {
    var w := x + s;
    assert w[|x|] == s[0] && w[|x|] == y[|x|];
  }

  /** The value kind that a first character announces. */
  function Kind(c: char): nat {
    if c == 'n' then 0
    else if c == 't' || c == 'f' then 1
    else if c == '-' || '0' <= c <= '9' then 2
    else if c == '"' then 3
    else if c == '[' then 4
    else if c == '{' then 5
    else 6
  }

  function KindOf(v: Json): nat {
    match v
    case Null => 0
    case Bool(_) => 1
    case Num(_) => 2
    case Str(_) => 3
    case Arr(_) => 4
    case Obj(_) => 5
  }

  lemma PrintHead(nf: NumberFormat, v: Json)
    requires Faithful(nf) && Printable(nf, v)
    ensures Print(nf, v) != "" && Kind(Print(nf, v)[0]) == KindOf(v)
  {
  }

  lemma SameHead(c: char, d: char, s: string, t: string)
    requires [c] + s == [d] + t
    ensures c == d && s == t
  {
    var w := [c] + s;
    assert w[0] == c && w[0] == d;
    assert s == w[1..] == t;
  }

  // The shape of each text in front of a continuation `s`.

  lemma StringText(x: string, s: string)
    ensures Quote(x) + s == "\"" + (EscapeAll(x) + "\"" + s)
  {
  }

  lemma ArrayText(nf: NumberFormat, xs: seq<Json>, s: string)
    requires forall x :: x in xs ==> Printable(nf, x)
    ensures Print(nf, Arr(xs)) + s
            == "[" + if xs == [] then "]" + s else Print(nf, xs[0]) + (ItemsTail(nf, xs[1..]) + s)
  {
    hide ItemsTail, Quote, PrintMember, MembersTail, SortedKeys;
    if xs != [] {
      var p, r := Print(nf, xs[0]), ItemsTail(nf, xs[1..]);
      assert ("[" + p + r) + s == "[" + (p + (r + s));
    } else {
      assert "[]" + s == "[" + ("]" + s);
    }
  }

  lemma ItemsText(nf: NumberFormat, xs: seq<Json>, s: string)
    requires forall x :: x in xs ==> Printable(nf, x)
    ensures ItemsTail(nf, xs) + s
            == if xs == [] then "]" + s else "," + (Print(nf, xs[0]) + (ItemsTail(nf, xs[1..]) + s))
  {
    if xs != [] {
      hide Print;
      var p, r := Print(nf, xs[0]), ItemsTail(nf, xs[1..]);
      assert ("," + p + r) + s == "," + (p + (r + s));
    }
  }

  lemma ObjectText(nf: NumberFormat, ms: seq<Member>, s: string)
    requires forall m :: m in ms ==> Printable(nf, m.value)
    ensures Print(nf, Obj(ms)) + s
            == "{" + if ms == [] then "}" + s
                     else PrintMember(nf, ms, SortedKeys(ms)[0]) + (MembersTail(nf, ms, SortedKeys(ms)[1..]) + s)
  {
    hide PrintMember, MembersTail, SortedKeys, Quote, ItemsTail;
    var keys := SortedKeys(ms);
    if keys != [] {
      var p, r := PrintMember(nf, ms, keys[0]), MembersTail(nf, ms, keys[1..]);
      assert ("{" + p + r) + s == "{" + (p + (r + s));
    } else {
      assert "{}" + s == "{" + ("}" + s);
    }
  }

  lemma MembersText(nf: NumberFormat, ms: seq<Member>, keys: seq<string>, s: string)
    requires forall k :: k in keys ==> k in Keys(ms)
    requires forall m :: m in ms ==> Printable(nf, m.value)
    ensures MembersTail(nf, ms, keys) + s
            == if keys == [] then "}" + s
               else "," + (PrintMember(nf, ms, keys[0]) + (MembersTail(nf, ms, keys[1..]) + s))
  {
    hide PrintMember, Keys, Printable;
    if keys != [] {
      var p, r := PrintMember(nf, ms, keys[0]), MembersTail(nf, ms, keys[1..]);
      assert ("," + p + r) + s == "," + (p + (r + s));
    }
  }

  lemma MemberText(nf: NumberFormat, ms: seq<Member>, key: string, s: string)
    requires key in Keys(ms) && forall m :: m in ms ==> Printable(nf, m.value)
    ensures PrintMember(nf, ms, key) + s
            == "\"" + (EscapeAll(key) + "\"" + (":" + (Print(nf, Lookup(ms, key).value) + s)))
  {
    hide Print, EscapeAll;
    var q, p := EscapeAll(key), Print(nf, Lookup(ms, key).value);
    assert ("\"" + q + "\"" + ":" + p) + s == "\"" + (q + "\"" + (":" + (p + s)));
  }

  /** A value's text ends where the value ends, and determines the value up to equivalence. */
  lemma {:induction false} PrintUnique(nf: NumberFormat, a: Json, b: Json, s: string, t: string)
    requires Faithful(nf) && Printable(nf, a) && Printable(nf, b)
    requires Print(nf, a) + s == Print(nf, b) + t && Follow(s) && Follow(t)
    ensures Equivalent(nf, a, b) && s == t
    decreases a, 1
  {
    SameKind(nf, a, b, s, t);
    match a
    case Null => assert s == ("null" + s)[4..] == t;
    case Bool(x) => BoolUnique(x, b.b, s, t);
    case Num(m) => NumberUnique(Print(nf, a), Print(nf, b), s, t);
    case Str(x) => StringUnique(x, b.s, s, t);
    case Arr(xs) => ArrayUnique(nf, xs, b.items, s, t);
    case Obj(ms) => ObjectUnique(nf, ms, b.members, s, t);
  }

  lemma SameKind(nf: NumberFormat, a: Json, b: Json, s: string, t: string)
    requires Faithful(nf) && Printable(nf, a) && Printable(nf, b)
    requires Print(nf, a) + s == Print(nf, b) + t
    ensures KindOf(a) == KindOf(b)
  {
    hide Print, Kind, KindOf, Printable, Faithful;
    PrintHead(nf, a);
    PrintHead(nf, b);
    assert (Print(nf, a) + s)[0] == Print(nf, a)[0] && (Print(nf, b) + t)[0] == Print(nf, b)[0];
  }

  lemma StringUnique(x: string, y: string, s: string, t: string)
    requires Quote(x) + s == Quote(y) + t
    ensures x == y && s == t
  {
    StringText(x, s);
    StringText(y, t);
    hide *;
    SameHead('"', '"', EscapeAll(x) + "\"" + s, EscapeAll(y) + "\"" + t);
    QuoteUnique(x, y, s, t);
  }

  lemma BoolUnique(x: bool, y: bool, s: string, t: string)
    requires (if x then "true" else "false") + s == (if y then "true" else "false") + t
    ensures x == y && s == t
  {
    var w := (if x then "true" else "false") + s;
    assert w[0] == (if x then 't' else 'f') && w[0] == (if y then 't' else 'f');
    assert s == w[(if x then 4 else 5)..] == t;
  }

  ghost predicate PairwiseEquivalent(nf: NumberFormat, xs: seq<Json>, ys: seq<Json>) {
    |xs| == |ys| && forall i :: 0 <= i < |xs| ==> Equivalent(nf, xs[i], ys[i])
  }

  lemma PairwiseCons(nf: NumberFormat, xs: seq<Json>, ys: seq<Json>)
    requires xs != [] && ys != []
    requires Equivalent(nf, xs[0], ys[0]) && PairwiseEquivalent(nf, xs[1..], ys[1..])
    ensures PairwiseEquivalent(nf, xs, ys)
  {
    hide Equivalent;
    forall i | 0 <= i < |xs| ensures Equivalent(nf, xs[i], ys[i]) {
      if i > 0 {
        assert xs[i] == xs[1..][i - 1] && ys[i] == ys[1..][i - 1];
      }
    }
  }

  /** The first items of two non-empty lists agree, and so do the texts behind them. */
  lemma {:induction false} HeadsUnique(nf: NumberFormat, xs: seq<Json>, ys: seq<Json>, s: string, t: string)
    requires Faithful(nf) && xs != [] && ys != []
    requires (forall x :: x in xs ==> Printable(nf, x)) && (forall y :: y in ys ==> Printable(nf, y))
    requires Print(nf, xs[0]) + (ItemsTail(nf, xs[1..]) + s) == Print(nf, ys[0]) + (ItemsTail(nf, ys[1..]) + t)
    ensures Equivalent(nf, xs[0], ys[0]) && ItemsTail(nf, xs[1..]) + s == ItemsTail(nf, ys[1..]) + t
    decreases xs, 0, 0
  {
    hide Print, ItemsTail, Equivalent, Printable, Faithful;
    ItemsText(nf, xs[1..], s);
    ItemsText(nf, ys[1..], t);
    PrintUnique(nf, xs[0], ys[0], ItemsTail(nf, xs[1..]) + s, ItemsTail(nf, ys[1..]) + t);
  }

  lemma {:induction false} ArrayUnique(nf: NumberFormat, xs: seq<Json>, ys: seq<Json>, s: string, t: string)
    requires Faithful(nf)
    requires (forall x :: x in xs ==> Printable(nf, x)) && (forall y :: y in ys ==> Printable(nf, y))
    requires Print(nf, Arr(xs)) + s == Print(nf, Arr(ys)) + t
    ensures PairwiseEquivalent(nf, xs, ys) && s == t
    decreases xs, 1
  {
    ArrayText(nf, xs, s);
    ArrayText(nf, ys, t);
    var u := if xs == [] then "]" + s else Print(nf, xs[0]) + (ItemsTail(nf, xs[1..]) + s);
    var v := if ys == [] then "]" + t else Print(nf, ys[0]) + (ItemsTail(nf, ys[1..]) + t);
    SameHead('[', '[', u, v);
    ItemStart(nf, xs, s);
    ItemStart(nf, ys, t);
    hide Print, ItemsTail, Equivalent, Printable, Faithful;
    if xs == [] {
      SameHead(']', ']', s, t);
    } else {
      HeadsUnique(nf, xs, ys, s, t);
      ItemsUnique(nf, xs[1..], ys[1..], s, t);
      PairwiseCons(nf, xs, ys);
    }
  }

  lemma ItemStart(nf: NumberFormat, xs: seq<Json>, s: string)
    requires Faithful(nf) && forall x :: x in xs ==> Printable(nf, x)
    ensures xs != [] ==> (Print(nf, xs[0]) + (ItemsTail(nf, xs[1..]) + s))[0] != ']'
  {
    if xs != [] {
      PrintHead(nf, xs[0]);
    }
  }

  lemma {:induction false} ItemsUnique(nf: NumberFormat, xs: seq<Json>, ys: seq<Json>, s: string, t: string)
    requires Faithful(nf)
    requires (forall x :: x in xs ==> Printable(nf, x)) && (forall y :: y in ys ==> Printable(nf, y))
    requires ItemsTail(nf, xs) + s == ItemsTail(nf, ys) + t
    ensures PairwiseEquivalent(nf, xs, ys) && s == t
    decreases xs, 0, 1
  {
    hide Print, ItemsTail, Equivalent, Printable, Faithful;
    ItemsText(nf, xs, s);
    ItemsText(nf, ys, t);
    var w := ItemsTail(nf, xs) + s;
    assert w[0] == (if xs == [] then ']' else ',') && w[0] == (if ys == [] then ']' else ',');
    if xs == [] {
      SameHead(']', ']', s, t);
    } else {
      SameHead(',', ',', Print(nf, xs[0]) + (ItemsTail(nf, xs[1..]) + s), Print(nf, ys[0]) + (ItemsTail(nf, ys[1..]) + t));
      HeadsUnique(nf, xs, ys, s, t);
      ItemsUnique(nf, xs[1..], ys[1..], s, t);
      PairwiseCons(nf, xs, ys);
    }
  }

  ghost predicate AgreeOn(nf: NumberFormat, ms: seq<Member>, ns: seq<Member>, keys: seq<string>) {
    forall k :: k in keys ==>
      k in Keys(ms) && k in Keys(ns) && Equivalent(nf, Lookup(ms, k).value, Lookup(ns, k).value)
  }

  lemma {:induction false} MemberUnique(nf: NumberFormat, ms: seq<Member>, ns: seq<Member>, k: string, l: string, s: string, t: string)
    requires Faithful(nf)
    requires (forall m :: m in ms ==> Printable(nf, m.value)) && (forall n :: n in ns ==> Printable(nf, n.value))
    requires k in Keys(ms) && l in Keys(ns)
    requires PrintMember(nf, ms, k) + s == PrintMember(nf, ns, l) + t && Follow(s) && Follow(t)
    ensures k == l && s == t && Equivalent(nf, Lookup(ms, k).value, Lookup(ns, l).value)
    decreases ms, 0, 0
  {
    hide Print, PrintMember, Equivalent, Printable, Faithful, Follow, EscapeAll, Lookup, Keys;
    MemberText(nf, ms, k, s);
    MemberText(nf, ns, l, t);
    var x, y := Lookup(ms, k).value, Lookup(ns, l).value;
    var u, v := Print(nf, x) + s, Print(nf, y) + t;
    SameHead('"', '"', EscapeAll(k) + "\"" + (":" + u), EscapeAll(l) + "\"" + (":" + v));
    QuoteUnique(k, l, ":" + u, ":" + v);
    SameHead(':', ':', u, v);
    PrintUnique(nf, x, y, s, t);
  }

  /** The members behind `keys` and `keys2` agree, and so do the texts behind them. */
  lemma {:induction false} MembersUnique(nf: NumberFormat, ms: seq<Member>, ns: seq<Member>,
                                         ks: seq<string>, ls: seq<string>, s: string, t: string)
    requires Faithful(nf)
    requires (forall m :: m in ms ==> Printable(nf, m.value)) && (forall n :: n in ns ==> Printable(nf, n.value))
    requires (forall k :: k in ks ==> k in Keys(ms)) && (forall l :: l in ls ==> l in Keys(ns))
    requires MembersTail(nf, ms, ks) + s == MembersTail(nf, ns, ls) + t
    ensures ks == ls && s == t && AgreeOn(nf, ms, ns, ks)
    decreases ms, 0, |ks| + 1
  {
    hide Print, PrintMember, MembersTail, Equivalent, Printable, Faithful, AgreeOn, Keys;
    MembersText(nf, ms, ks, s);
    MembersText(nf, ns, ls, t);
    var w := MembersTail(nf, ms, ks) + s;
    assert w[0] == (if ks == [] then '}' else ',') && w[0] == (if ls == [] then '}' else ',');
    if ks == [] {
      SameHead('}', '}', s, t);
      AgreeOnNone(nf, ms, ns);
    } else {
      var u, v := MembersTail(nf, ms, ks[1..]) + s, MembersTail(nf, ns, ls[1..]) + t;
      SameHead(',', ',', PrintMember(nf, ms, ks[0]) + u, PrintMember(nf, ns, ls[0]) + v);
      MembersText(nf, ms, ks[1..], s);
      MembersText(nf, ns, ls[1..], t);
      MemberUnique(nf, ms, ns, ks[0], ls[0], u, v);
      MembersUnique(nf, ms, ns, ks[1..], ls[1..], s, t);
      AgreeOnMore(nf, ms, ns, ks);
      assert ks == [ks[0]] + ks[1..] && ls == [ls[0]] + ls[1..];
    }
  }

  lemma AgreeOnNone(nf: NumberFormat, ms: seq<Member>, ns: seq<Member>)
    ensures AgreeOn(nf, ms, ns, [])
  {
  }

  lemma AgreeOnMore(nf: NumberFormat, ms: seq<Member>, ns: seq<Member>, keys: seq<string>)
    requires keys != [] && keys[0] in Keys(ms) && keys[0] in Keys(ns)
    requires Equivalent(nf, Lookup(ms, keys[0]).value, Lookup(ns, keys[0]).value)
    requires AgreeOn(nf, ms, ns, keys[1..])
    ensures AgreeOn(nf, ms, ns, keys)
  {
    assert keys == [keys[0]] + keys[1..];
  }

  lemma MembersTailFollows(nf: NumberFormat, ms: seq<Member>, keys: seq<string>, s: string)
    requires forall k :: k in keys ==> k in Keys(ms)
    requires forall m :: m in ms ==> Printable(nf, m.value)
    ensures Follow(MembersTail(nf, ms, keys) + s)
  {
  }

  lemma {:induction false} ObjectUnique(nf: NumberFormat, ms: seq<Member>, ns: seq<Member>, s: string, t: string)
    requires Faithful(nf)
    requires (forall m :: m in ms ==> Printable(nf, m.value)) && (forall n :: n in ns ==> Printable(nf, n.value))
    requires Print(nf, Obj(ms)) + s == Print(nf, Obj(ns)) + t
    ensures Equivalent(nf, Obj(ms), Obj(ns)) && s == t
    decreases ms, 1
  {
    hide *;
    ObjectText(nf, ms, s);
    ObjectText(nf, ns, t);
    var ks, ls := SortedKeys(ms), SortedKeys(ns);
    MemberStart(nf, ms, s);
    MemberStart(nf, ns, t);
    var u := if ms == [] then "}" + s else PrintMember(nf, ms, ks[0]) + (MembersTail(nf, ms, ks[1..]) + s);
    var v := if ns == [] then "}" + t else PrintMember(nf, ns, ls[0]) + (MembersTail(nf, ns, ls[1..]) + t);
    SameHead('{', '{', u, v);
    if ms == [] {
      SameHead('}', '}', s, t);
      AgreeOnNone(nf, ms, ns);
      ObjectsAgree(nf, ms, ns);
    } else {
      MembersTailFollows(nf, ms, ks[1..], s);
      MembersTailFollows(nf, ns, ls[1..], t);
      MemberUnique(nf, ms, ns, ks[0], ls[0], MembersTail(nf, ms, ks[1..]) + s, MembersTail(nf, ns, ls[1..]) + t);
      MembersUnique(nf, ms, ns, ks[1..], ls[1..], s, t);
      AgreeOnMore(nf, ms, ns, ks);
      assert ks == [ks[0]] + ks[1..] && ls == [ls[0]] + ls[1..];
      ObjectsAgree(nf, ms, ns);
    }
  }

  lemma ObjectsAgree(nf: NumberFormat, ms: seq<Member>, ns: seq<Member>)
    requires SortedKeys(ms) == SortedKeys(ns) && AgreeOn(nf, ms, ns, SortedKeys(ms))
    ensures Equivalent(nf, Obj(ms), Obj(ns))
  {
  }

  lemma MemberStart(nf: NumberFormat, ms: seq<Member>, s: string)
    requires forall m :: m in ms ==> Printable(nf, m.value)
    ensures ms != [] ==>
            (PrintMember(nf, ms, SortedKeys(ms)[0]) + (MembersTail(nf, ms, SortedKeys(ms)[1..]) + s))[0] == '"'
  {
    if ms != [] {
      MemberText(nf, ms, SortedKeys(ms)[0], MembersTail(nf, ms, SortedKeys(ms)[1..]) + s);
    }
  }

  /**
   The canonical bytes of two values are equal exactly when the values are equal up to member
   order and the double value of their numbers.
   */
  lemma CanonicalForm(nf: NumberFormat, a: Json, b: Json)
    requires Faithful(nf)
    requires WellFormed(a) && WellFormed(b) && Printable(nf, a) && Printable(nf, b)
    ensures Utf8(Print(nf, a)) == Utf8(Print(nf, b)) <==> Equivalent(nf, a, b)
  {
    if Utf8(Print(nf, a)) == Utf8(Print(nf, b)) {
      Utf8Injective(Print(nf, a), Print(nf, b));
      assert Print(nf, a) + "" == Print(nf, b) + "";
      PrintUnique(nf, a, b, "", "");
    }
    if Equivalent(nf, a, b) {
      EquivalentPrintsEqually(nf, a, b);
    }
  }

  // ---------- Newline-delimited streams ----------

  lemma {:induction false} EscapeAllOneLine(s: string)
    ensures '\n' !in EscapeAll(s)
  {
    if s != "" {
      EscapeAllOneLine(s[1..]);
    }
  }

  lemma {:induction false} PrintOneLine(nf: NumberFormat, v: Json)
    requires Faithful(nf) && Printable(nf, v)
    ensures '\n' !in Print(nf, v)
    decreases v, 1
  {
    match v
    case Str(s) => EscapeAllOneLine(s);
    case Arr(items) =>
      if items != [] {
        PrintOneLine(nf, items[0]);
        ItemsOneLine(nf, items[1..]);
      }
    case Obj(members) =>
      var keys := SortedKeys(members);
      if keys != [] {
        MembersOneLine(nf, members, keys);
      }
    case _ =>
  }

  lemma {:induction false} ItemsOneLine(nf: NumberFormat, items: seq<Json>)
    requires Faithful(nf) && forall x :: x in items ==> Printable(nf, x)
    ensures '\n' !in ItemsTail(nf, items)
    decreases items, 0
  {
    if items != [] {
      PrintOneLine(nf, items[0]);
      ItemsOneLine(nf, items[1..]);
    }
  }

  lemma {:induction false} MembersOneLine(nf: NumberFormat, members: seq<Member>, keys: seq<string>)
    requires Faithful(nf) && forall m :: m in members ==> Printable(nf, m.value)
    requires forall k :: k in keys ==> k in Keys(members)
    ensures '\n' !in MembersTail(nf, members, keys)
    ensures keys != [] ==> '\n' !in PrintMember(nf, members, keys[0]) && '\n' !in MembersTail(nf, members, keys[1..])
    decreases members, 0, |keys|
  {
    if keys != [] {
      EscapeAllOneLine(keys[0]);
      PrintOneLine(nf, Lookup(members, keys[0]).value);
      MembersOneLine(nf, members, keys[1..]);
    }
  }

  const MAX_RECORD_BYTES: int := 65_536
  const MAX_STREAM_BYTES: int := 16 * 1024 * 1024
  const NEWLINE: byte := 10

  ghost predicate AllPrintable(nf: NumberFormat, rows: seq<Json>) {
    forall row :: row in rows ==> Printable(nf, row)
  }

  ghost function Stream(nf: NumberFormat, rows: seq<Json>): seq<byte>
    requires AllPrintable(nf, rows)
  {
    if rows == [] then [] else Utf8(Print(nf, rows[0])) + [NEWLINE] + Stream(nf, rows[1..])
  }

  lemma {:induction false} StreamSnoc(nf: NumberFormat, rows: seq<Json>, row: Json)
    requires AllPrintable(nf, rows) && Printable(nf, row)
    ensures AllPrintable(nf, rows + [row])
    ensures Stream(nf, rows + [row]) == Stream(nf, rows) + Utf8(Print(nf, row)) + [NEWLINE]
  {
    hide Print, Printable;
    if rows == [] {
      assert rows + [row] == [row] && [row][1..] == [];
    } else {
      StreamSnoc(nf, rows[1..], row);
      assert (rows + [row])[1..] == rows[1..] + [row];
      var first := Utf8(Print(nf, rows[0])) + [NEWLINE];
      assert first + (Stream(nf, rows[1..]) + Utf8(Print(nf, row)) + [NEWLINE])
          == (first + Stream(nf, rows[1..])) + Utf8(Print(nf, row)) + [NEWLINE];
    }
  }

  lemma {:induction false} StreamPrefix(nf: NumberFormat, rows: seq<Json>, i: nat)
    requires AllPrintable(nf, rows) && i <= |rows|
    ensures AllPrintable(nf, rows[..i]) && |Stream(nf, rows[..i])| <= |Stream(nf, rows)|
    decreases |rows| - i
  {
    if i == |rows| {
      assert rows[..i] == rows;
    } else {
      StreamPrefix(nf, rows, i + 1);
      assert rows[..i + 1] == rows[..i] + [rows[i]];
      StreamSnoc(nf, rows[..i], rows[i]);
    }
  }

  /** Every record and the whole stream stay within their limits. */
  ghost predicate StreamFits(nf: NumberFormat, rows: seq<Json>) {
    && AllPrintable(nf, rows)
    && (forall row :: row in rows ==> |Utf8(Print(nf, row))| <= MAX_RECORD_BYTES)
    && |Stream(nf, rows)| <= MAX_STREAM_BYTES
  }

  /** The stream loop. A refusal names the first row that cannot be added and what is wrong with it. */
  method Ndjson(nf: NumberFormat, rows: seq<Json>) returns (r: Result<seq<byte>, EncodeError>)
    requires forall row :: row in rows ==> WellFormed(row)
    ensures r.Ok? <==> StreamFits(nf, rows)
    ensures r.Ok? ==> r.value == Stream(nf, rows)
    ensures r.Err? ==> exists i :: 0 <= i < |rows| && StreamFits(nf, rows[..i]) && !StreamFits(nf, rows[..i + 1])
                                   && (r.error == InvalidNumber <==> !Printable(nf, rows[i]))
  {
    hide Print, Printable, WellFormed;
    var out: seq<byte> := [];
    for i := 0 to |rows|
      invariant StreamFits(nf, rows[..i])
      invariant out == Stream(nf, rows[..i])
    {
      assert rows[..i + 1] == rows[..i] + [rows[i]];
      assert rows[i] in rows[..i + 1];
      var bytes := Canonical(nf, rows[i]);
      if bytes.Err? {
        NotFitting(nf, rows, i);
        return Err(bytes.error);
      }
      StreamSnoc(nf, rows[..i], rows[i]);
      if |bytes.value| > MAX_RECORD_BYTES || |out| + |bytes.value| + 1 > MAX_STREAM_BYTES {
        NotFitting(nf, rows, i);
        return Err(RecordOrStreamLimit);
      }
      out := out + bytes.value + [NEWLINE];
    }
    assert rows[..|rows|] == rows;
    return Ok(out);
  }

  lemma NotFitting(nf: NumberFormat, rows: seq<Json>, i: nat)
    requires i < |rows| && !StreamFits(nf, rows[..i + 1])
    ensures !StreamFits(nf, rows)
  {
    hide Print, Printable;
    if StreamFits(nf, rows) {
      StreamPrefix(nf, rows, i + 1);
    }
  }

  /** The pieces between newlines; a last piece without a newline counts too. */
  ghost function Lines(bytes: seq<byte>): seq<seq<byte>> {
    if bytes == [] then [] else LinesFrom(bytes, 0)
  }

  ghost function LinesFrom(bytes: seq<byte>, at: nat): seq<seq<byte>>
    requires at <= |bytes|
    decreases |bytes|, |bytes| - at
  {
    if at == |bytes| then [bytes]
    else if bytes[at] == NEWLINE then
      [bytes[..at]] + if at + 1 == |bytes| then [] else LinesFrom(bytes[at + 1..], 0)
    else LinesFrom(bytes, at + 1)
  }

  lemma {:induction false} LinesFromFirst(line: seq<byte>, rest: seq<byte>, at: nat)
    requires NEWLINE !in line && at <= |line|
    ensures LinesFrom(line + [NEWLINE] + rest, at) == [line] + Lines(rest)
    decreases |line| - at
  {
    var bytes := line + [NEWLINE] + rest;
    if at == |line| {
      assert bytes[at] == NEWLINE && bytes[..at] == line && bytes[at + 1..] == rest;
    } else {
      assert bytes[at] == line[at];
      LinesFromFirst(line, rest, at + 1);
    }
  }

  ghost function Encoded(nf: NumberFormat, rows: seq<Json>): (lines: seq<seq<byte>>)
    requires AllPrintable(nf, rows)
    ensures |lines| == |rows|
    ensures forall i :: 0 <= i < |rows| ==> lines[i] == Utf8(Print(nf, rows[i]))
  {
    if rows == [] then [] else [Utf8(Print(nf, rows[0]))] + Encoded(nf, rows[1..])
  }

  /** Splitting the stream at newlines recovers the canonical bytes of every record, in order. */
  lemma {:induction false} StreamSplits(nf: NumberFormat, rows: seq<Json>)
    requires Faithful(nf) && AllPrintable(nf, rows)
    ensures Lines(Stream(nf, rows)) == Encoded(nf, rows)
  {
    hide Print, Printable, Faithful, LinesFrom;
    if rows != [] {
      var line := Utf8(Print(nf, rows[0]));
      PrintOneLine(nf, rows[0]);
      Utf8Ascii(Print(nf, rows[0]), '\n');
      StreamSplits(nf, rows[1..]);
      LinesFromFirst(line, Stream(nf, rows[1..]), 0);
    }
  }

  /** Equal streams come from equally long row lists whose rows are pairwise equivalent, and back. */
  lemma StreamDeterminesRows(nf: NumberFormat, a: seq<Json>, b: seq<Json>)
    requires Faithful(nf) && AllPrintable(nf, a) && AllPrintable(nf, b)
    requires (forall row :: row in a ==> WellFormed(row)) && (forall row :: row in b ==> WellFormed(row))
    ensures Stream(nf, a) == Stream(nf, b) <==> PairwiseEquivalent(nf, a, b)
  {
    hide Print, Printable, Faithful, LinesFrom, Lines, Equivalent, WellFormed, Stream;
    StreamSplits(nf, a);
    StreamSplits(nf, b);
    var x, y := Encoded(nf, a), Encoded(nf, b);
    if Stream(nf, a) == Stream(nf, b) {
      forall i | 0 <= i < |a| ensures Equivalent(nf, a[i], b[i]) {
        assert x[i] == y[i];
        CanonicalForm(nf, a[i], b[i]);
      }
    }
    if PairwiseEquivalent(nf, a, b) {
      PairwiseStreams(nf, a, b);
    }
  }

  lemma {:induction false} PairwiseStreams(nf: NumberFormat, a: seq<Json>, b: seq<Json>)
    requires Faithful(nf) && AllPrintable(nf, a) && AllPrintable(nf, b)
    requires (forall row :: row in a ==> WellFormed(row)) && (forall row :: row in b ==> WellFormed(row))
    requires PairwiseEquivalent(nf, a, b)
    ensures Stream(nf, a) == Stream(nf, b)
  {
    hide Print, Printable, Faithful, Equivalent, WellFormed;
    if a != [] {
      CanonicalForm(nf, a[0], b[0]);
      PairwiseStreams(nf, a[1..], b[1..]);
    }
  }
}
