/**
 A reader of JSON texts written from the grammar of RFC 8259, and what it makes of the texts that the
 exporter writes. The value of a number token is a parameter.
 */
module JsonReader {
  import opened Outcomes
  import opened Text
  import opened Sorting
  import opened CanonicalJson

  /** What a number token stands for. */
  type Numbers = string -> Option<Number>

  // ---------- Tokens, sections 2, 6 and 7 of RFC 8259 ----------

  predicate IsSpace(c: char) {
    c == ' ' || c == '\t' || c == '\n' || c == '\r'
  }

  function SkipSpace(s: string): (r: string)
    ensures |r| <= |s|
  {
    if s != "" && IsSpace(s[0]) then SkipSpace(s[1..]) else s
  }

  function HexDigit(c: char): Option<nat> {
    if '0' <= c <= '9' then Some(c as int - '0' as int)
    else if 'a' <= c <= 'f' then Some(10 + c as int - 'a' as int)
    else if 'A' <= c <= 'F' then Some(10 + c as int - 'A' as int)
    else None
  }

  /** Four hexadecimal digits: one UTF-16 code unit. */
  function ReadUnit(s: string): Option<nat> {
    if |s| < 4 then None
    else
      var a, b, c, d := HexDigit(s[0]), HexDigit(s[1]), HexDigit(s[2]), HexDigit(s[3]);
      if a.None? || b.None? || c.None? || d.None? then None
      else Some(4096 * a.value + 256 * b.value + 16 * c.value + d.value)
  }

  /** The character that an escape stands for and how long the escape is. */
  function ReadEscape(s: string): Option<(char, nat)> {
    if |s| < 2 || s[0] != '\\' then None
    else if s[1] == '"' || s[1] == '\\' || s[1] == '/' then Some((s[1], 2))
    else if s[1] == 'b' then Some((8 as char, 2))
    else if s[1] == 'f' then Some((12 as char, 2))
    else if s[1] == 'n' then Some(('\n', 2))
    else if s[1] == 'r' then Some(('\r', 2))
    else if s[1] == 't' then Some(('\t', 2))
    else if s[1] == 'u' && ReadUnit(s[2..]).Some? then
      var u := ReadUnit(s[2..]).value;
      if IsScalar(u) then Some((u as char, 6))
      else if 0xD800 <= u < 0xDC00 && |s| >= 12 && s[6] == '\\' && s[7] == 'u' && ReadUnit(s[8..]).Some?
              && 0xDC00 <= ReadUnit(s[8..]).value < 0xE000 then
        Some(((0x1_0000 + 0x400 * (u - 0xD800) + (ReadUnit(s[8..]).value - 0xDC00)) as char, 12))
      else None
    else None
  }

  lemma ReadEscapeBounds(s: string)
    ensures ReadEscape(s).Some? ==> 2 <= ReadEscape(s).value.1 <= |s|
  {
  }

  /** The characters up to the closing quotation mark, and what follows it. */
  function ReadString(s: string): (r: Option<(string, string)>)
    ensures r.Some? ==> |r.value.1| < |s|
  {
    ReadEscapeBounds(s);
    if s == "" then None
    else if s[0] == '"' then Some(("", s[1..]))
    else if s[0] == '\\' then
      match ReadEscape(s)
      case None => None
      case Some((c, k)) => Prefixed(c, ReadString(s[k..]))
    else if s[0] as int < 0x20 then None
    else Prefixed(s[0], ReadString(s[1..]))
  }

  function Prefixed(c: char, r: Option<(string, string)>): Option<(string, string)> {
    match r
    case None => None
    case Some((text, rest)) => Some(([c] + text, rest))
  }

  predicate InNumber(c: char) {
    '0' <= c <= '9' || c == '-' || c == '+' || c == '.' || c == 'e' || c == 'E'
  }

  /** How many of the first characters can be part of a number. */
  function NumberLength(s: string): (n: nat)
    ensures n <= |s|
  {
    if s != "" && InNumber(s[0]) then 1 + NumberLength(s[1..]) else 0
  }

  // ---------- Values, sections 3 to 5 of RFC 8259 ----------

  /** A value, after any white space, and what follows it. */
  function ReadValue(numbers: Numbers, s: string): (r: Option<(Json, string)>)
    ensures r.Some? ==> |r.value.1| < |s|
    decreases |s|, 1
  {
    var t := SkipSpace(s);
    if t == "" then None
    else if "null" <= t then Some((Null, t[4..]))
    else if "true" <= t then Some((Bool(true), t[4..]))
    else if "false" <= t then Some((Bool(false), t[5..]))
    else if t[0] == '"' then
      (match ReadString(t[1..])
       case None => None
       case Some((text, rest)) => Some((Str(text), rest)))
    else if t[0] == '[' then
      var u := SkipSpace(t[1..]);
      if u != "" && u[0] == ']' then Some((Arr([]), u[1..]))
      else
        (match ReadItems(numbers, u)
         case None => None
         case Some((items, rest)) => Some((Arr(items), rest)))
    else if t[0] == '{' then
      var u := SkipSpace(t[1..]);
      if u != "" && u[0] == '}' then Some((Obj([]), u[1..]))
      else
        (match ReadMembers(numbers, u)
         case None => None
         case Some((members, rest)) => Some((Obj(members), rest)))
    else
      var n := NumberLength(t);
      if n == 0 || numbers(t[..n]).None? then None else Some((Num(numbers(t[..n]).value), t[n..]))
  }

  /** Values separated by commas up to the closing bracket. */
  function ReadItems(numbers: Numbers, s: string): (r: Option<(seq<Json>, string)>)
    ensures r.Some? ==> |r.value.1| < |s|
    decreases |s|, 2
  {
    match ReadValue(numbers, s)
    case None => None
    case Some((item, rest)) =>
      var t := SkipSpace(rest);
      if t == "" then None
      else if t[0] == ']' then Some(([item], t[1..]))
      else if t[0] == ',' then
        match ReadItems(numbers, t[1..])
        case None => None
        case Some((items, end)) => Some(([item] + items, end))
      else None
  }

  /** A name, a colon and a value. */
  function ReadMember(numbers: Numbers, s: string): (r: Option<(Member, string)>)
    ensures r.Some? ==> |r.value.1| < |s|
    decreases |s|, 2
  {
    var t := SkipSpace(s);
    if t == "" || t[0] != '"' then None
    else
      match ReadString(t[1..])
      case None => None
      case Some((key, rest)) =>
        var u := SkipSpace(rest);
        if u == "" || u[0] != ':' then None
        else
          match ReadValue(numbers, u[1..])
          case None => None
          case Some((value, end)) => Some((Member(key, value), end))
  }

  /** Members separated by commas up to the closing brace. */
  function ReadMembers(numbers: Numbers, s: string): (r: Option<(seq<Member>, string)>)
    ensures r.Some? ==> |r.value.1| < |s|
    decreases |s|, 3
  {
    match ReadMember(numbers, s)
    case None => None
    case Some((member, rest)) =>
      var t := SkipSpace(rest);
      if t == "" then None
      else if t[0] == '}' then Some(([member], t[1..]))
      else if t[0] == ',' then
        match ReadMembers(numbers, t[1..])
        case None => None
        case Some((members, end)) => Some(([member] + members, end))
      else None
  }

  /** A JSON text: one value and nothing but white space after it. */
  function ReadJson(numbers: Numbers, text: string): Option<Json> {
    match ReadValue(numbers, text)
    case None => None
    case Some((v, rest)) => if SkipSpace(rest) == "" then Some(v) else None
  }

  // ---------- Strings read back ----------

  lemma EscapeReads(c: char, t: string)
    ensures var w := Escape(c) + t;
            if Escape(c)[0] == '\\' then ReadEscape(w) == Some((c, |Escape(c)|))
            else Escape(c) == [c] && c as int >= 0x20 && c != '"' && c != '\\'
  {
    var r := Escape(c);
    var w := r + t;
    if r[0] == '\\' {
      assert w[0] == r[0] && w[1] == r[1];
      if |r| == 6 {
        UnitReads(c as int, t);
        assert w[2..] == ['0', '0', Digit(c as int / 16), Digit(c as int % 16)] + t;
      }
    }
  }

  lemma UnitReads(n: nat, t: string)
    requires n < 0x20
    ensures ReadUnit(['0', '0', Digit(n / 16), Digit(n % 16)] + t) == Some(n)
  {
    DigitReads(n / 16);
    DigitReads(n % 16);
  }

  lemma DigitReads(n: nat)
    requires n < 16
    ensures HexDigit(Digit(n)) == Some(n)
  {
  }

  lemma {:induction false} StringReads(x: string, s: string)
    ensures ReadString(EscapeAll(x) + "\"" + s) == Some((x, s))
  {
    hide Escape, ReadEscape;
    if x == "" {
      assert EscapeAll(x) + "\"" + s == "\"" + s;
    } else {
      var c, t := x[0], EscapeAll(x[1..]) + "\"" + s;
      assert EscapeAll(x) + "\"" + s == Escape(c) + t;
      StringReads(x[1..], s);
      hide ReadString, EscapeAll;
      StringStep(c, t, x[1..], s);
      assert x == [c] + x[1..];
    }
  }

  lemma StringStep(c: char, t: string, y: string, s: string)
    requires ReadString(t) == Some((y, s))
    ensures ReadString(Escape(c) + t) == Some(([c] + y, s))
  {
    hide Escape, ReadEscape;
    EscapeReads(c, t);
    var w := Escape(c) + t;
    assert w[0] == Escape(c)[0] && w[|Escape(c)|..] == t;
  }

  lemma QuoteReads(numbers: Numbers, x: string, s: string)
    ensures ReadValue(numbers, Quote(x) + s) == Some((Str(x), s))
  {
    var w := Quote(x) + s;
    StringText(x, s);
    StringReads(x, s);
    hide Quote, EscapeAll, ReadString;
    assert w[0] == '"' && w[1..] == EscapeAll(x) + "\"" + s;
  }

  // ---------- What is read back from a print ----------

  /** The token reader gives back the double that was written. */
  ghost predicate Inverts(nf: NumberFormat, numbers: Numbers) {
    forall n :: nf.asDouble(n).Some? ==>
      var r := numbers(nf.text(nf.asDouble(n).value));
      r.Some? && nf.asDouble(r.value) == nf.asDouble(n)
  }

  /** The value that a reader finds: members in printed order, numbers as their tokens read. */
  function Reread(nf: NumberFormat, numbers: Numbers, v: Json): Json
    requires Printable(nf, v)
    decreases v, 1
  {
    match v
    case Num(n) =>
      var r := numbers(nf.text(nf.asDouble(n).value));
      if r.Some? then Num(r.value) else v
    case Arr(items) => Arr(RereadItems(nf, numbers, items))
    case Obj(members) => Obj(RereadMembers(nf, numbers, members, SortedKeys(members)))
    case _ => v
  }

  function RereadItems(nf: NumberFormat, numbers: Numbers, items: seq<Json>): (r: seq<Json>)
    requires forall x :: x in items ==> Printable(nf, x)
    ensures |r| == |items|
    ensures forall i :: 0 <= i < |items| ==> r[i] == Reread(nf, numbers, items[i])
    decreases items, 0
  {
    if items == [] then [] else [Reread(nf, numbers, items[0])] + RereadItems(nf, numbers, items[1..])
  }

  function RereadMembers(nf: NumberFormat, numbers: Numbers, members: seq<Member>, keys: seq<string>): (r: seq<Member>)
    requires (forall k :: k in keys ==> k in Keys(members)) && forall m :: m in members ==> Printable(nf, m.value)
    ensures |r| == |keys|
    ensures forall i :: 0 <= i < |keys| ==> r[i] == RereadMember(nf, numbers, members, keys[i])
    decreases members, 0, |keys| + 1
  {
    if keys == [] then [] else [RereadMember(nf, numbers, members, keys[0])] + RereadMembers(nf, numbers, members, keys[1..])
  }

  function RereadMember(nf: NumberFormat, numbers: Numbers, members: seq<Member>, key: string): Member
    requires key in Keys(members) && forall m :: m in members ==> Printable(nf, m.value)
    decreases members, 0, 0
  {
    Member(key, Reread(nf, numbers, Lookup(members, key).value))
  }

  /** What ends a value: nothing, or a character that no value continues with. */
  predicate Ends(s: string) {
    s == "" || s[0] == ',' || s[0] == ']' || s[0] == '}' || IsSpace(s[0])
  }

  lemma {:induction false} NumberReads(token: string, s: string)
    requires (forall c :: c in token ==> IsNumberChar(c)) && Ends(s)
    ensures NumberLength(token + s) == |token|
  {
    if token == "" {
      assert token + s == s;
    } else {
      assert token[0] in token && (token + s)[0] == token[0] && (token + s)[1..] == token[1..] + s;
      NumberReads(token[1..], s);
    }
  }

  lemma LiteralReads(numbers: Numbers, v: Json, text: string, s: string)
    requires (v == Null && text == "null") || (v == Bool(true) && text == "true") || (v == Bool(false) && text == "false")
    ensures ReadValue(numbers, text + s) == Some((v, s))
  {
    var w := text + s;
    assert w[0] == text[0] && w[1] == text[1] && w[..|text|] == text && w[|text|..] == s;
  }

  lemma TokenReads(numbers: Numbers, token: string, s: string)
    requires IsNumberText(token) && Ends(s) && numbers(token).Some?
    ensures ReadValue(numbers, token + s) == Some((Num(numbers(token).value), s))
  {
    var w := token + s;
    NumberReads(token, s);
    hide NumberLength;
    assert w[0] == token[0] && w[..|token|] == token && w[|token|..] == s;
  }

  /** No value starts with white space or a closing bracket. */
  lemma ValueStarts(nf: NumberFormat, v: Json, s: string)
    requires Faithful(nf) && Printable(nf, v)
    ensures var w := Print(nf, v) + s;
            w != "" && SkipSpace(w) == w && w[0] != ']' && w[0] != '}'
  {
    PrintHead(nf, v);
    hide Print, Printable, Faithful;
    assert (Print(nf, v) + s)[0] == Print(nf, v)[0];
  }

  /** The text of a value is read as that value, up to member order and number spelling, and nothing more. */
  lemma {:induction false} PrintReads(nf: NumberFormat, numbers: Numbers, v: Json, s: string)
    requires Faithful(nf) && Inverts(nf, numbers) && Printable(nf, v) && Ends(s)
    ensures ReadValue(numbers, Print(nf, v) + s) == Some((Reread(nf, numbers, v), s))
    decreases v, 1
  {
    match v
    case Null => LiteralReads(numbers, v, "null", s);
    case Bool(b) => LiteralReads(numbers, v, if b then "true" else "false", s);
    case Num(n) => TokenReads(numbers, Print(nf, v), s);
    case Str(x) => QuoteReads(numbers, x, s);
    case Arr(items) => ArrayReads(nf, numbers, items, s);
    case Obj(members) => ObjectReads(nf, numbers, members, s);
  }

  lemma {:induction false} ArrayReads(nf: NumberFormat, numbers: Numbers, items: seq<Json>, s: string)
    requires Faithful(nf) && Inverts(nf, numbers) && (forall x :: x in items ==> Printable(nf, x)) && Ends(s)
    ensures ReadValue(numbers, Print(nf, Arr(items)) + s) == Some((Arr(RereadItems(nf, numbers, items)), s))
    decreases items, 3
  {
    assert Printable(nf, Arr(items));
    hide Print, ItemsTail, Reread, Faithful, Inverts, Printable, ReadItems, NumberLength, ReadString, ReadMembers;
    ArrayText(nf, items, s);
    if items == [] {
      EmptyArrayReads(numbers, s);
    } else {
      var u := Print(nf, items[0]) + (ItemsTail(nf, items[1..]) + s);
      ValueStarts(nf, items[0], ItemsTail(nf, items[1..]) + s);
      ItemsRead(nf, numbers, items, s);
      hide ReadValue;
      BracketReads(numbers, u);
    }
  }

  lemma EmptyArrayReads(numbers: Numbers, s: string)
    ensures ReadValue(numbers, "[" + ("]" + s)) == Some((Arr([]), s))
  {
    var w := "[" + ("]" + s);
    assert w[0] == '[' && w[1..] == "]" + s;
  }

  /** An opening bracket in front of items that read. */
  lemma BracketReads(numbers: Numbers, u: string)
    requires u != "" && SkipSpace(u) == u && u[0] != ']' && ReadItems(numbers, u).Some?
    ensures ReadValue(numbers, "[" + u) == Some((Arr(ReadItems(numbers, u).value.0), ReadItems(numbers, u).value.1))
  {
    hide ReadMembers, ReadItems, ReadString, NumberLength;
    var w := "[" + u;
    assert w[0] == '[' && w[1..] == u;
  }

  lemma {:induction false} ItemsRead(nf: NumberFormat, numbers: Numbers, items: seq<Json>, s: string)
    requires Faithful(nf) && Inverts(nf, numbers) && (forall x :: x in items ==> Printable(nf, x)) && items != [] && Ends(s)
    ensures ReadItems(numbers, Print(nf, items[0]) + (ItemsTail(nf, items[1..]) + s)) == Some((RereadItems(nf, numbers, items), s))
    decreases items, 2
  {
    hide Print, ItemsTail, Reread, Faithful, Inverts, Printable, ReadValue;
    var tail := items[1..];
    assert RereadItems(nf, numbers, items) == [Reread(nf, numbers, items[0])] + RereadItems(nf, numbers, tail);
    var t := ItemsTail(nf, tail) + s;
    ItemsText(nf, tail, s);
    assert t[0] == if tail == [] then ']' else ',';
    PrintReads(nf, numbers, items[0], t);
    if tail == [] {
      assert t[1..] == s && RereadItems(nf, numbers, items) == [Reread(nf, numbers, items[0])];
    } else {
      assert t[1..] == Print(nf, tail[0]) + (ItemsTail(nf, tail[1..]) + s);
      ItemsRead(nf, numbers, tail, s);
    }
  }

  lemma {:induction false} ObjectReads(nf: NumberFormat, numbers: Numbers, members: seq<Member>, s: string)
    requires Faithful(nf) && Inverts(nf, numbers) && (forall m :: m in members ==> Printable(nf, m.value)) && Ends(s)
    ensures ReadValue(numbers, Print(nf, Obj(members)) + s)
            == Some((Obj(RereadMembers(nf, numbers, members, SortedKeys(members))), s))
    decreases members, 0, |members| + 3
  {
    assert Printable(nf, Obj(members));
    hide Print, PrintMember, MembersTail, Reread, Faithful, Inverts, Printable, ReadItems, NumberLength, ReadString, ReadMembers, SortedKeys, Keys;
    ObjectText(nf, members, s);
    var keys := SortedKeys(members);
    if members == [] {
      EmptyObjectReads(numbers, s);
    } else {
      var u := PrintMember(nf, members, keys[0]) + (MembersTail(nf, members, keys[1..]) + s);
      MemberText(nf, members, keys[0], MembersTail(nf, members, keys[1..]) + s);
      MembersRead(nf, numbers, members, keys, s);
      hide ReadValue;
      BraceReads(numbers, u);
    }
  }

  lemma EmptyObjectReads(numbers: Numbers, s: string)
    ensures ReadValue(numbers, "{" + ("}" + s)) == Some((Obj([]), s))
  {
    var w := "{" + ("}" + s);
    assert w[0] == '{' && w[1..] == "}" + s;
  }

  /** An opening brace in front of a member that reads. */
  lemma BraceReads(numbers: Numbers, u: string)
    requires u != "" && u[0] == '"' && ReadMembers(numbers, u).Some?
    ensures ReadValue(numbers, "{" + u) == Some((Obj(ReadMembers(numbers, u).value.0), ReadMembers(numbers, u).value.1))
  {
    hide ReadMembers, ReadItems, ReadString, NumberLength;
    var w := "{" + u;
    assert w[0] == '{' && w[1..] == u;
  }

  lemma {:induction false} MemberReads(nf: NumberFormat, numbers: Numbers, members: seq<Member>, key: string, s: string)
    requires Faithful(nf) && Inverts(nf, numbers) && (forall m :: m in members ==> Printable(nf, m.value)) && Ends(s)
    requires key in Keys(members)
    ensures ReadMember(numbers, PrintMember(nf, members, key) + s)
            == Some((RereadMember(nf, numbers, members, key), s))
    decreases members, 0, 0
  {
    hide Print, PrintMember, Reread, Faithful, Inverts, Printable, ReadValue, ReadString, EscapeAll, Keys, Lookup;
    var v := Lookup(members, key).value;
    MemberText(nf, members, key, s);
    var w := PrintMember(nf, members, key) + s;
    var u := ":" + (Print(nf, v) + s);
    assert w[0] == '"' && w[1..] == EscapeAll(key) + "\"" + u;
    StringReads(key, u);
    assert u[0] == ':' && u[1..] == Print(nf, v) + s;
    PrintReads(nf, numbers, v, s);
  }

  lemma {:induction false} MembersRead(nf: NumberFormat, numbers: Numbers, members: seq<Member>, keys: seq<string>, s: string)
    requires Faithful(nf) && Inverts(nf, numbers) && (forall m :: m in members ==> Printable(nf, m.value)) && Ends(s)
    requires keys != [] && forall k :: k in keys ==> k in Keys(members)
    ensures ReadMembers(numbers, PrintMember(nf, members, keys[0]) + (MembersTail(nf, members, keys[1..]) + s))
            == Some((RereadMembers(nf, numbers, members, keys), s))
    decreases members, 0, |keys| + 1
  {
    hide Print, PrintMember, MembersTail, RereadMember, Faithful, Inverts, Printable, ReadMembers, Keys, Lookup;
    var tail := keys[1..];
    var t := MembersTail(nf, members, tail) + s;
    MembersText(nf, members, tail, s);
    assert t[0] == if tail == [] then '}' else ',';
    MemberReads(nf, numbers, members, keys[0], t);
    if tail == [] {
      assert t[1..] == s;
      assert RereadMembers(nf, numbers, members, keys) == [RereadMember(nf, numbers, members, keys[0])];
    } else {
      assert t[1..] == PrintMember(nf, members, tail[0]) + (MembersTail(nf, members, tail[1..]) + s);
      MembersRead(nf, numbers, members, tail, s);
    }
    OneMoreMember(numbers, PrintMember(nf, members, keys[0]) + t, RereadMember(nf, numbers, members, keys[0]), t);
  }

  /** A member that reads, and what comes after it. */
  lemma OneMoreMember(numbers: Numbers, w: string, m: Member, t: string)
    requires ReadMember(numbers, w) == Some((m, t)) && t != ""
    ensures t[0] == '}' ==> ReadMembers(numbers, w) == Some(([m], t[1..]))
    ensures t[0] == ',' && ReadMembers(numbers, t[1..]).Some? ==>
              ReadMembers(numbers, w) == Some(([m] + ReadMembers(numbers, t[1..]).value.0, ReadMembers(numbers, t[1..]).value.1))
  {
    hide ReadMember;
  }

  // ---------- The value that is read ----------

  lemma SortedKeysDistinct(members: seq<Member>)
    requires DistinctKeys(members)
    ensures Distinct(SortedKeys(members)) && Sorted(KeyLe, SortedKeys(members))
  {
    var keys := Keys(members);
    assert Distinct(keys);
    SortPermutes(KeyLe, keys);
    DistinctPermutes(keys, StableSort(KeyLe, keys));
    KeyOrderIsStrict();
    SortSorted(KeyLe, keys);
  }

  lemma RereadKeys(nf: NumberFormat, numbers: Numbers, members: seq<Member>, keys: seq<string>)
    requires (forall k :: k in keys ==> k in Keys(members)) && (forall m :: m in members ==> Printable(nf, m.value)) && Distinct(keys)
    ensures var again := RereadMembers(nf, numbers, members, keys);
            && Keys(again) == keys && DistinctKeys(again)
            && forall k :: k in keys ==> Lookup(again, k) == RereadMember(nf, numbers, members, k)
  {
    hide Printable, Reread;
    var again := RereadMembers(nf, numbers, members, keys);
    assert DistinctKeys(again) && Keys(again) == keys;
    hide DistinctKeys, Keys;
    forall k | k in keys ensures k in Keys(again) && Lookup(again, k) == RereadMember(nf, numbers, members, k) {
      var i :| 0 <= i < |keys| && keys[i] == k;
      assert again[i] in again;
      LookupIsUnique(again, again[i]);
    }
  }

  /** Equality up to member order and number spelling. */
  lemma {:induction false} RereadEquivalent(nf: NumberFormat, numbers: Numbers, v: Json)
    requires Inverts(nf, numbers) && Printable(nf, v) && WellFormed(v)
    ensures Equivalent(nf, v, Reread(nf, numbers, v))
    decreases v
  {
    match v
    case Arr(items) =>
      forall i | 0 <= i < |items| ensures Equivalent(nf, items[i], Reread(nf, numbers, items[i])) {
        RereadEquivalent(nf, numbers, items[i]);
      }
    case Obj(members) =>
      var keys := SortedKeys(members);
      forall k | k in keys ensures Equivalent(nf, Lookup(members, k).value, Reread(nf, numbers, Lookup(members, k).value)) {
        RereadEquivalent(nf, numbers, Lookup(members, k).value);
      }
      SortedKeysDistinct(members);
      RereadKeys(nf, numbers, members, keys);
    case _ =>
  }

  /** The first UTF-16 code unit in which two keys differ is smaller in the first, or the first ends there. */
  ghost predicate UnitsBefore(a: string, b: string) {
    a != b && exists i :: AtOrBefore(Utf16(a), Utf16(b), i)
  }

  /** In every object the keys come in strictly increasing order, as section 3.2.3 of RFC 8785 asks. */
  ghost predicate KeysIncrease(v: Json) {
    match v
    case Arr(items) => forall x :: x in items ==> KeysIncrease(x)
    case Obj(members) =>
      && (forall i, j :: 0 <= i < j < |members| ==> UnitsBefore(members[i].key, members[j].key))
      && forall m :: m in members ==> KeysIncrease(m.value)
    case _ => true
  }

  lemma SortedUnits(keys: seq<string>)
    requires Distinct(keys) && Sorted(KeyLe, keys)
    ensures forall i, j :: 0 <= i < j < |keys| ==> UnitsBefore(keys[i], keys[j])
  {
    forall i, j | 0 <= i < j < |keys| ensures UnitsBefore(keys[i], keys[j]) {
      LexLeMeans(Utf16(keys[i]), Utf16(keys[j]));
    }
  }

  lemma {:induction false} RereadIncreases(nf: NumberFormat, numbers: Numbers, v: Json)
    requires Printable(nf, v) && WellFormed(v)
    ensures KeysIncrease(Reread(nf, numbers, v))
    decreases v
  {
    match v
    case Arr(items) =>
      forall i | 0 <= i < |items| ensures KeysIncrease(Reread(nf, numbers, items[i])) {
        RereadIncreases(nf, numbers, items[i]);
      }
    case Obj(members) =>
      var keys := SortedKeys(members);
      forall k | k in keys ensures KeysIncrease(Reread(nf, numbers, Lookup(members, k).value)) {
        RereadIncreases(nf, numbers, Lookup(members, k).value);
      }
      SortedKeysDistinct(members);
      SortedUnits(keys);
      MembersIncrease(nf, numbers, members, keys);
    case _ =>
  }

  lemma MembersIncrease(nf: NumberFormat, numbers: Numbers, members: seq<Member>, keys: seq<string>)
    requires (forall k :: k in keys ==> k in Keys(members)) && (forall m :: m in members ==> Printable(nf, m.value))
    requires forall i, j :: 0 <= i < j < |keys| ==> UnitsBefore(keys[i], keys[j])
    requires forall k :: k in keys ==> KeysIncrease(Reread(nf, numbers, Lookup(members, k).value))
    ensures KeysIncrease(Obj(RereadMembers(nf, numbers, members, keys)))
  {
    hide UnitsBefore, Printable, Reread, Keys, Lookup;
    var again := RereadMembers(nf, numbers, members, keys);
    forall m | m in again ensures KeysIncrease(m.value) {
      var i :| 0 <= i < |again| && again[i] == m;
      assert keys[i] in keys;
    }
  }

  /**
   The canonical bytes are a JSON text of the value: read by the grammar they give the value up to member
   order and number spelling, with the keys of every object in increasing order and nothing left over.
   */
  lemma CanonicalIsJson(nf: NumberFormat, numbers: Numbers, v: Json)
    requires Faithful(nf) && Inverts(nf, numbers) && WellFormed(v) && Printable(nf, v)
    ensures var text := FromUtf8(Utf8(Print(nf, v)));
            && text.Some? && ReadJson(numbers, text.value).Some?
            && var w := ReadJson(numbers, text.value).value;
               Equivalent(nf, v, w) && KeysIncrease(w)
  {
    Utf8RoundTrip(Print(nf, v));
    PrintReads(nf, numbers, v, "");
    assert Print(nf, v) + "" == Print(nf, v);
    RereadEquivalent(nf, numbers, v);
    RereadIncreases(nf, numbers, v);
    hide Print, Utf8, FromUtf8, ReadValue, Equivalent, KeysIncrease, Reread;
  }

  /** Number tokens that a faithful format writes can be read back. */
  lemma ReaderOfNumbersExists(nf: NumberFormat)
    requires Faithful(nf)
    ensures exists numbers: Numbers :: Inverts(nf, numbers)
  {
    var numbers: Numbers := token =>
      if exists n :: nf.asDouble(n).Some? && nf.text(nf.asDouble(n).value) == token
      then (var n :| nf.asDouble(n).Some? && nf.text(nf.asDouble(n).value) == token; Some(n)) else None;
    assert Inverts(nf, numbers);
  }
}
