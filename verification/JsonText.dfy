/** Compact JSON objects with their members in a given order, as `serde_json` writes them, and how they read. */
module JsonText {
  import opened Outcomes
  import opened Text
  import opened CanonicalJson
  import opened JsonReader

  /** A member name and the text of its value. */
  datatype Field = Field(name: string, text: string)

  /** The members with what separates and ends them. */
  function FieldsText(fields: seq<Field>): string
    requires fields != []
  {
    Quote(fields[0].name) + ":" + fields[0].text + if |fields| == 1 then "}" else "," + FieldsText(fields[1..])
  }

  function ObjectOf(fields: seq<Field>): string {
    if fields == [] then "{}" else "{" + FieldsText(fields)
  }

  // ---------- Reading ----------

  /** In front of anything that can follow a value, the text is read as `v`. */
  ghost predicate ReadsAs(numbers: Numbers, text: string, v: Json) {
    forall s :: Ends(s) ==> ReadValue(numbers, text + s) == Some((v, s))
  }

  /** The fields read as the members, name by name. */
  ghost predicate FieldsReadAs(numbers: Numbers, fields: seq<Field>, members: seq<Member>) {
    && |fields| == |members|
    && forall i :: 0 <= i < |fields| ==> fields[i].name == members[i].key && ReadsAs(numbers, fields[i].text, members[i].value)
  }

  lemma TextReads(numbers: Numbers, x: string)
    ensures ReadsAs(numbers, Quote(x), Str(x))
  {
    forall s | Ends(s) ensures ReadValue(numbers, Quote(x) + s) == Some((Str(x), s)) {
      QuoteReads(numbers, x, s);
    }
  }

  lemma NumberTextReads(numbers: Numbers, token: string)
    requires IsNumberText(token) && numbers(token).Some?
    ensures ReadsAs(numbers, token, Num(numbers(token).value))
  {
    hide ReadValue;
    forall s | Ends(s) ensures ReadValue(numbers, token + s) == Some((Num(numbers(token).value), s)) {
      TokenReads(numbers, token, s);
    }
  }

  lemma FieldReads(numbers: Numbers, f: Field, m: Member, t: string)
    requires f.name == m.key && ReadsAs(numbers, f.text, m.value) && Ends(t)
    ensures ReadMember(numbers, Quote(f.name) + ":" + f.text + t) == Some((m, t))
  {
    hide ReadValue, ReadString, EscapeAll;
    var u := ":" + (f.text + t);
    var w := Quote(f.name) + ":" + f.text + t;
    StringText(f.name, u);
    assert w == Quote(f.name) + u;
    hide Quote;
    assert w[0] == '"' && w[1..] == EscapeAll(f.name) + "\"" + u;
    StringReads(f.name, u);
    assert u[0] == ':' && u[1..] == f.text + t;
  }

  lemma {:induction false} FieldsRead(numbers: Numbers, fields: seq<Field>, members: seq<Member>, s: string)
    requires FieldsReadAs(numbers, fields, members) && fields != [] && Ends(s)
    ensures ReadMembers(numbers, FieldsText(fields) + s) == Some((members, s))
    decreases |fields|
  {
    hide ReadMember, ReadsAs, Quote;
    var f, m := fields[0], members[0];
    var t := (if |fields| == 1 then "}" else "," + FieldsText(fields[1..])) + s;
    assert FieldsText(fields) + s == Quote(f.name) + ":" + f.text + t;
    FieldReads(numbers, f, m, t);
    if |fields| == 1 {
      assert t[1..] == s && members == [m];
    } else {
      assert t[1..] == FieldsText(fields[1..]) + s && members == [m] + members[1..];
      FieldsRead(numbers, fields[1..], members[1..], s);
    }
  }

  /** An object text is read as its members, in their order. */
  lemma ObjectReadsAs(numbers: Numbers, fields: seq<Field>, members: seq<Member>)
    requires FieldsReadAs(numbers, fields, members) && fields != []
    ensures ReadsAs(numbers, ObjectOf(fields), Obj(members))
  {
    hide ReadValue, ReadMembers, Quote, FieldsReadAs;
    forall s | Ends(s) ensures ReadValue(numbers, ObjectOf(fields) + s) == Some((Obj(members), s)) {
      var u := FieldsText(fields) + s;
      assert ObjectOf(fields) + s == "{" + u;
      FieldsRead(numbers, fields, members, s);
      QuoteStarts(fields, s);
      BraceReads(numbers, u);
    }
  }

  lemma QuoteStarts(fields: seq<Field>, s: string)
    requires fields != []
    ensures FieldsText(fields) + s != "" && (FieldsText(fields) + s)[0] == '"'
  {
  }

  /** White space may follow the text. */
  lemma ReadsAsJson(numbers: Numbers, text: string, v: Json, space: string)
    requires ReadsAs(numbers, text, v) && forall c :: c in space ==> IsSpace(c)
    ensures ReadJson(numbers, text + space) == Some(v)
  {
    hide ReadValue;
    assert Ends(space) by {
      assert space != "" ==> space[0] in space;
    }
    OnlySpace(space);
  }

  lemma {:induction false} OnlySpace(space: string)
    requires forall c :: c in space ==> IsSpace(c)
    ensures SkipSpace(space) == ""
  {
    if space != "" {
      assert space[0] in space && forall c :: c in space[1..] ==> c in space;
      OnlySpace(space[1..]);
    }
  }

  // ---------- Members by name ----------

  /** Unsigned whole numbers; nothing else is a number here. */
  function Whole(token: string): Option<Number> {
    if IsDecimal(token) then Some(Unsigned(UnDecimal(token))) else None
  }

  /** The value of the member with a name. */
  function Find(members: seq<Member>, name: string): Option<Json> {
    if members == [] then None
    else if members[0].key == name then Some(members[0].value)
    else Find(members[1..], name)
  }

  function FindText(members: seq<Member>, name: string): Option<string> {
    match Find(members, name)
    case Some(Str(s)) => Some(s)
    case _ => None
  }

  lemma {:induction false} FindAt(members: seq<Member>, i: nat)
    requires i < |members| && forall j :: 0 <= j < i ==> members[j].key != members[i].key
    ensures Find(members, members[i].key) == Some(members[i].value)
  {
    if i > 0 {
      FindAt(members[1..], i - 1);
    }
  }

  lemma WholeNumberReads(n: nat)
    ensures ReadsAs(Whole, Decimal(n), Num(Unsigned(n)))
  {
    DecimalRoundTrip(n);
    WholeTextIsNumber(n);
    hide ReadsAs, Decimal, UnDecimal, IsNumberText;
    NumberTextReads(Whole, Decimal(n));
  }

  // ---------- Lines and sizes ----------

  lemma {:induction false} FieldsOneLine(fields: seq<Field>)
    requires fields != [] && forall f :: f in fields ==> '\n' !in f.text
    ensures '\n' !in FieldsText(fields)
    decreases |fields|
  {
    EscapeAllOneLine(fields[0].name);
    assert fields[0] in fields;
    if |fields| > 1 {
      assert forall f :: f in fields[1..] ==> f in fields;
      FieldsOneLine(fields[1..]);
    }
  }

  /** The bytes of the members: names with their quotation marks, values, and two more characters each. */
  function FieldsSize(fields: seq<Field>): nat {
    if fields == [] then 0 else |Utf8(Quote(fields[0].name))| + |Utf8(fields[0].text)| + 2 + FieldsSize(fields[1..])
  }

  function FieldSize(f: Field): nat {
    |Utf8(Quote(f.name))| + |Utf8(f.text)| + 2
  }

  lemma FiveSizes(a: Field, b: Field, c: Field, d: Field, e: Field)
    ensures FieldsSize([a, b, c, d, e]) == FieldSize(a) + FieldSize(b) + FieldSize(c) + FieldSize(d) + FieldSize(e)
  {
    hide Quote, Utf8, FieldsSize, FieldSize;
    SizeCons([a, b, c, d, e], a, [b, c, d, e]);
    FourSizes(b, c, d, e);
  }

  lemma SizeCons(fields: seq<Field>, f: Field, rest: seq<Field>)
    requires fields == [f] + rest
    ensures FieldsSize(fields) == FieldSize(f) + FieldsSize(rest)
  {
    assert fields[1..] == rest;
  }

  lemma FourSizes(a: Field, b: Field, c: Field, d: Field)
    ensures FieldsSize([a, b, c, d]) == FieldSize(a) + FieldSize(b) + FieldSize(c) + FieldSize(d)
  {
    assert FieldsSize([]) == 0;
    hide Quote, Utf8, FieldsSize, FieldSize;
    SizeCons([a, b, c, d], a, [b, c, d]);
    SizeCons([b, c, d], b, [c, d]);
    SizeCons([c, d], c, [d]);
    SizeCons([d], d, []);
  }

  lemma {:induction false} SizeOfFields(fields: seq<Field>)
    requires fields != []
    ensures |Utf8(FieldsText(fields))| == FieldsSize(fields)
    decreases |fields|
  {
    hide Quote, Utf8;
    var f := fields[0];
    var end := if |fields| == 1 then "}" else "," + FieldsText(fields[1..]);
    Utf8Concat(Quote(f.name) + ":" + f.text, end);
    Utf8Concat(Quote(f.name) + ":", f.text);
    Utf8Concat(Quote(f.name), ":");
    OneByte(':');
    OneByte('}');
    if |fields| > 1 {
      SizeOfFields(fields[1..]);
      Utf8Concat(",", FieldsText(fields[1..]));
      OneByte(',');
    }
  }

  lemma OneByte(c: char)
    requires c as int < 0x80
    ensures |Utf8([c])| == 1
  {
    Utf8AsciiLength([c]);
  }

  lemma SizeOfObject(fields: seq<Field>)
    requires fields != []
    ensures |Utf8(ObjectOf(fields))| == 1 + FieldsSize(fields)
  {
    hide Utf8, FieldsText;
    Utf8Concat("{", FieldsText(fields));
    OneByte('{');
    SizeOfFields(fields);
  }

  lemma EscapeGrowth(c: char)
    ensures |Utf8(Escape(c))| <= 6 * |Utf8Char(c)|
  {
    var r := Escape(c);
    if r == [c] {
      assert Utf8(r) == Utf8Char(c) + Utf8("");
    } else {
      assert |r| <= 6;
      assert forall x :: x in r ==> x as int < 0x80;
      Utf8AsciiLength(r);
    }
  }

  lemma {:induction false} EscapeAllGrowth(s: string)
    ensures |Utf8(EscapeAll(s))| <= 6 * |Utf8(s)|
  {
    hide Escape, Utf8Char;
    if s != "" {
      EscapeGrowth(s[0]);
      EscapeAllGrowth(s[1..]);
      Utf8Concat(Escape(s[0]), EscapeAll(s[1..]));
    }
  }

  lemma QuoteSize(s: string)
    ensures |Utf8(Quote(s))| <= 6 * |Utf8(s)| + 2
  {
    hide Utf8;
    OneByte('"');
    EscapeAllGrowth(s);
    Utf8Concat("\"" + EscapeAll(s), "\"");
    Utf8Concat("\"", EscapeAll(s));
  }

  /** Characters that are written as they are. */
  predicate IsPlain(s: string) {
    forall c :: c in s ==> 0x20 <= c as int < 0x80 && c != '"' && c != '\\'
  }

  lemma {:induction false} PlainText(s: string)
    requires IsPlain(s)
    ensures EscapeAll(s) == s
  {
    hide Escape;
    if s != "" {
      assert s[0] in s && forall c :: c in s[1..] ==> c in s;
      PlainCharacter(s[0]);
      PlainText(s[1..]);
    }
  }

  lemma PlainCharacter(c: char)
    requires 0x20 <= c as int && c != '"' && c != '\\'
    ensures Escape(c) == [c]
  {
  }

  /** Plain text takes its own bytes and two quotation marks. */
  lemma PlainSize(s: string)
    requires IsPlain(s)
    ensures |Utf8(s)| == |s| && Quote(s) == "\"" + s + "\"" && |Utf8(Quote(s))| == |s| + 2
  {
    hide Utf8, EscapeAll;
    PlainText(s);
    Utf8AsciiLength(s);
    QuotedAscii(s);
  }

  lemma QuotedAscii(s: string)
    requires forall c :: c in s ==> c as int < 0x80
    ensures |Utf8("\"" + s + "\"")| == |s| + 2
  {
    hide Utf8;
    Utf8AsciiLength("\"" + s + "\"");
  }
}
