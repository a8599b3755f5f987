/** The estimated size of a value against the JSON text it stands for. */
module Sizes {
  import opened Text
  import opened Json
  import opened Batch

  lemma {:induction false} Utf8Concat(a: string, b: string)
    ensures Utf8Len(a + b) == Utf8Len(a) + Utf8Len(b)
  {
    if a == [] {
      assert a + b == b;
    } else {
      SliceConcat(a, b, 1);
      Utf8Concat(a[1..], b);
    }
  }

  /** What escaping a character adds. */
  function Escape(c: char): nat {
    if c == '"' || c == '\\' || '\U{0008}' <= c <= '\n' || c == '\U{000C}' || c == '\r' then 1
    else if c < ' ' then 5
    else 0
  }

  function Escapes(s: string): nat { if s == [] then 0 else Escape(s[0]) + Escapes(s[1..]) }

  /** How much longer the text of a value is than estimated: by its escapes and commas, and by what its numbers have
      over twelve characters and its other atoms over five. */
  function Beyond(v: Json): int
    decreases v
  {
    match v
    case Null => -1
    case Bool(b) => if b then -1 else 0
    case Number(text) => |text| - 12
    case Str(s) => Escapes(s)
    case Arr(items) => BeyondItems(items)
    case Obj(fields) => BeyondFields(fields)
  }

  function BeyondItems(items: seq<Json>): int
    decreases items
  {
    if items == [] then 0 else Beyond(items[0]) + (if |items| == 1 then 0 else 1 + BeyondItems(items[1..]))
  }

  function BeyondFields(fields: seq<Member>): int
    decreases fields
  {
    if fields == [] then 0
    else
      Escapes(fields[0].key) + Beyond(fields[0].value)
      + if |fields| == 1 then 0 else 1 + BeyondFields(fields[1..])
  }

  lemma {:induction false} AsciiLen(s: string)
    requires forall c | c in s :: c < '\U{0080}'
    ensures Utf8Len(s) == |s|
  {
    if s != [] {
      assert s[0] in s && forall c | c in s[1..] :: c in s;
      AsciiLen(s[1..]);
    }
  }

  lemma EscapeLen(c: char)
    ensures Utf8Len(EscapeChar(c)) == Utf8Len([c]) + Escape(c)
  {
    hide LowerHex;
    assert [c][1..] == [] && Utf8Len([]) == 0;
    if EscapeChar(c) != [c] {
      HexIsAscii();
      AsciiLen(EscapeChar(c));
    }
  }

  lemma HexIsAscii()
    ensures forall n: nat | n < 16 :: LowerHex(n) < '\U{0080}'
  {
  }

  lemma {:induction false} EscapedLen(s: string)
    ensures Utf8Len(EscapeAll(s)) == Utf8Len(s) + Escapes(s)
  {
    if s != [] {
      EscapedLen(s[1..]);
      EscapeLen(s[0]);
      Utf8Concat(EscapeChar(s[0]), EscapeAll(s[1..]));
      Utf8Concat([s[0]], s[1..]);
      assert [s[0]] + s[1..] == s;
    }
  }

  lemma NumberLen(text: NumberText)
    ensures Utf8Len(text) == |text|
  {
    forall c | c in text ensures c < '\U{0080}' {
      var i :| 0 <= i < |text| && text[i] == c;
      assert NumberAt(text, i);
    }
    AsciiLen(text);
  }

  lemma Around(open: char, s: string, close: char)
    requires open < '\U{0080}' && close < '\U{0080}'
    ensures Utf8Len([open] + s + [close]) == Utf8Len(s) + 2
  {
    Utf8Concat([open] + s, [close]);
    Utf8Concat([open], s);
    AsciiLen([open]);
    AsciiLen([close]);
  }

  lemma WordLens()
    ensures Utf8Len("null") == 4 && Utf8Len("true") == 4 && Utf8Len("false") == 5 && Utf8Len(",") == 1
  {
    AsciiLen("null");
    AsciiLen("true");
    AsciiLen("false");
    AsciiLen(",");
  }

  /** The estimate, exactly: what it leaves out is what `Beyond` counts. */
  lemma {:induction false} SizeIsExact(v: Json)
    ensures Utf8Len(JsonText(v)) == ApproxSize(v) + Beyond(v)
    decreases v
  {
    hide Utf8Len;
    match v
    case Null => WordLens();
    case Bool(b) => WordLens();
    case Number(text) => NumberLen(text);
    case Str(s) => EscapedLen(s); Around('"', EscapeAll(s), '"');
    case Arr(items) => ItemsSize(items); Around('[', ItemsText(items), ']');
    case Obj(fields) => FieldsSizes(fields); Around('{', FieldsText(fields), '}');
  }

  lemma {:induction false} ItemsSize(items: seq<Json>)
    ensures Utf8Len(ItemsText(items)) == RowSize(items) + BeyondItems(items)
    decreases items
  {
    hide JsonText, ApproxSize, Beyond;
    if items != [] {
      SizeIsExact(items[0]);
      var first, more := JsonText(items[0]), ItemsText(items[1..]);
      ItemsSize(items[1..]);
      hide Utf8Len;
      WordLens();
      Utf8Concat(first, "," + more);
      Utf8Concat(",", more);
      assert |items| == 1 ==> items[1..] == [] && first + [] == first;
    } else {
      NoText();
    }
  }

  lemma NoText()
    ensures Utf8Len([]) == 0
  {
  }

  lemma {:induction false} FieldsSizes(fields: seq<Member>)
    ensures Utf8Len(FieldsText(fields)) == FieldsSize(fields) + BeyondFields(fields)
    decreases fields
  {
    hide JsonText, ApproxSize, Beyond, Utf8Len;
    NoText();
    if fields != [] {
      var f, more := fields[0], FieldsText(fields[1..]);
      SizeIsExact(f.value);
      FieldsSizes(fields[1..]);
      var first := FieldText(f);
      FieldLen(f);
      WordLens();
      Utf8Concat(first, "," + more);
      Utf8Concat(",", more);
      assert |fields| == 1 ==> fields[1..] == [] && first + [] == first;
    }
  }

  function FieldText(f: Member): string { "\"" + EscapeAll(f.key) + "\":" + JsonText(f.value) }

  lemma FieldLen(f: Member)
    ensures Utf8Len(FieldText(f)) == Utf8Len(f.key) + Escapes(f.key) + 3 + Utf8Len(JsonText(f.value))
  {
    hide JsonText, Utf8Len, EscapeAll;
    var k, t := EscapeAll(f.key), JsonText(f.value);
    EscapedLen(f.key);
    Utf8Concat("\"" + k + "\":", t);
    Utf8Concat("\"" + k, "\":");
    Utf8Concat("\"", k);
    AsciiLen("\"");
    AsciiLen("\":");
  }
}
