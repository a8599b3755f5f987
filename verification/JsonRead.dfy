/** A reader of JSON texts (RFC 8259), and the JSON export as it reads it. */
module JsonRead {
  import opened Text
  import opened Lexer
  import opened Json
  import opened Export
  import Csv

  // ------------------------------ the reader ----------------------------

  predicate IsSpace(c: char) { c == ' ' || c == '\t' || c == '\n' || c == '\r' }

  function Skip(s: string): (n: nat)
    ensures n <= |s|
  {
    if s != [] && IsSpace(s[0]) then 1 + Skip(s[1..]) else 0
  }

  function HexValue(c: char): (r: Option<nat>)
    ensures r.Some? ==> r.value < 16
  {
    if '0' <= c <= '9' then Some(c as int - '0' as int)
    else if 'a' <= c <= 'f' then Some(c as int - 'a' as int + 10)
    else if 'A' <= c <= 'F' then Some(c as int - 'A' as int + 10)
    else None
  }

  /** Four hexadecimal digits; the halves of a surrogate pair are no characters. */
  function ReadHex(s: string): Option<char> {
    if |s| < 4 then None
    else
      match (HexValue(s[0]), HexValue(s[1]), HexValue(s[2]), HexValue(s[3]))
      case (Some(a), Some(b), Some(c), Some(d)) =>
        var n := ((a * 16 + b) * 16 + c) * 16 + d;
        if 0xD800 <= n < 0xE000 then None else Some(n as char)
      case _ => None
  }

  /** A character behind a backslash, and how long its escape is from there. */
  function ReadEscape(s: string): (r: Option<(char, nat)>)
    ensures r.Some? ==> 0 < r.value.1 <= |s|
  {
    if s == [] then None
    else
      match s[0]
      case '"' => Some(('"', 1))
      case '\\' => Some(('\\', 1))
      case '/' => Some(('/', 1))
      case 'b' => Some(('\U{0008}', 1))
      case 'f' => Some(('\U{000C}', 1))
      case 'n' => Some(('\n', 1))
      case 'r' => Some(('\r', 1))
      case 't' => Some(('\t', 1))
      case 'u' => (match ReadHex(s[1..]) case None => None case Some(c) => Some((c, 5)))
      case _ => None
  }

  /** A string after its opening quote, and its length. */
  function ReadString(s: string): (r: Option<(string, nat)>)
    ensures r.Some? ==> 0 < r.value.1 <= |s|
    decreases |s|
  {
    if s == [] || s[0] < ' ' then None
    else if s[0] == '"' then Some(([], 1))
    else if s[0] == '\\' then
      match ReadEscape(s[1..])
      case None => None
      case Some((c, k)) =>
        match ReadString(s[1 + k..])
        case None => None
        case Some((t, n)) => Some(([c] + t, 1 + k + n))
    else
      match ReadString(s[1..])
      case None => None
      case Some((t, n)) => Some(([s[0]] + t, n + 1))
  }

  predicate InNumber(c: char) { IsDigit(c) || c in {'.', '+', '-', 'e', 'E'} }

  function NumberLen(s: string): (n: nat)
    ensures n <= |s|
  {
    if s != [] && InNumber(s[0]) then 1 + NumberLen(s[1..]) else 0
  }

  predicate Begins(s: string, w: string) { |w| <= |s| && s[..|w|] == w }

  /** A value and its length. */
  function ReadAt(s: string): (r: Option<(Json, nat)>)
    ensures r.Some? ==> 0 < r.value.1 <= |s|
    decreases |s|, 0
  {
    if s == [] then None
    else
      match s[0]
      case '"' => (match ReadString(s[1..]) case None => None case Some((x, n)) => Some((Str(x), 1 + n)))
      case '[' => (match ReadItems(s[1..], true) case None => None case Some((x, n)) => Some((Arr(x), 1 + n)))
      case '{' => (match ReadFields(s[1..], true) case None => None case Some((x, n)) => Some((Obj(x), 1 + n)))
      case _ =>
        if Begins(s, "null") then Some((Null, 4))
        else if Begins(s, "true") then Some((Bool(true), 4))
        else if Begins(s, "false") then Some((Bool(false), 5))
        else
          var n := NumberLen(s);
          if IsNumberText(s[..n]) then Some((Number(s[..n]), n)) else None
  }

  /** A value and its length, with the space in front of it. */
  function ReadValue(s: string): (r: Option<(Json, nat)>)
    ensures r.Some? ==> 0 < r.value.1 <= |s|
    decreases |s|, 1
  {
    var k := Skip(s);
    match ReadAt(s[k..])
    case None => None
    case Some((v, n)) => Some((v, k + n))
  }

  /** The elements of an array up to its closing bracket, which may come at once when they are the `first`. */
  function ReadItems(s: string, first: bool): (r: Option<(seq<Json>, nat)>)
    ensures r.Some? ==> 0 < r.value.1 <= |s|
    decreases |s|, 2
  {
    var k := Skip(s);
    if first && k < |s| && s[k] == ']' then Some(([], k + 1))
    else
      match ReadValue(s)
      case None => None
      case Some((v, n)) => ItemsAfter(s, v, n)
  }

  function ItemsAfter(s: string, v: Json, n: nat): (r: Option<(seq<Json>, nat)>)
    requires 0 < n <= |s|
    ensures r.Some? ==> 0 < r.value.1 <= |s|
    decreases |s|, 0
  {
    var m := n + Skip(s[n..]);
    if m == |s| then None
    else if s[m] == ']' then Some(([v], m + 1))
    else if s[m] == ',' then
      match ReadItems(s[m + 1..], false)
      case None => None
      case Some((rest, j)) => Some(([v] + rest, m + 1 + j))
    else None
  }

  function ReadFields(s: string, first: bool): (r: Option<(seq<Member>, nat)>)
    ensures r.Some? ==> 0 < r.value.1 <= |s|
    decreases |s|, 2
  {
    var k := Skip(s);
    if k == |s| then None
    else if first && s[k] == '}' then Some(([], k + 1))
    else if s[k] != '"' then None
    else
      match ReadString(s[k + 1..])
      case None => None
      case Some((key, n)) =>
        var p := k + 1 + n;
        var q := p + Skip(s[p..]);
        if q == |s| || s[q] != ':' then None
        else
          match ReadValue(s[q + 1..])
          case None => None
          case Some((v, m)) => FieldsAfter(s, Member(key, v), q + 1 + m)
  }

  function FieldsAfter(s: string, f: Member, n: nat): (r: Option<(seq<Member>, nat)>)
    requires 0 < n <= |s|
    ensures r.Some? ==> 0 < r.value.1 <= |s|
    decreases |s|, 0
  {
    var m := n + Skip(s[n..]);
    if m == |s| then None
    else if s[m] == '}' then Some(([f], m + 1))
    else if s[m] == ',' then
      match ReadFields(s[m + 1..], false)
      case None => None
      case Some((rest, j)) => Some(([f] + rest, m + 1 + j))
    else None
  }

  // ------------------------------ strings -------------------------------

  lemma HexReads(n: nat)
    requires n < 16
    ensures HexValue(LowerHex(n)) == Some(n)
  {
    var digits := "0123456789abcdef";
    assert digits[n] as int == if n < 10 then '0' as int + n else 'a' as int + n - 10;
  }

  lemma EscapeReads(c: char, rest: string)
    requires c < ' ' || c == '"' || c == '\\'
    ensures var e := EscapeChar(c); |e| > 1 && e[0] == '\\' && ReadEscape(e[1..] + rest) == Some((c, |e| - 1))
  {
    hide LowerHex, HexValue;
    var e := EscapeChar(c);
    if |e| == 6 {
      var t := e[1..] + rest;
      HexReads(c as int / 16);
      HexReads(c as int % 16);
      ZeroIsHex();
      assert t[1..][0] == '0' && t[1..][1] == '0';
      assert t[1..][2] == LowerHex(c as int / 16) && t[1..][3] == LowerHex(c as int % 16);
    }
  }

  lemma ZeroIsHex()
    ensures HexValue('0') == Some(0)
  {
  }

  lemma CharReads(c: char, rest: string)
    ensures ReadString(EscapeChar(c) + rest) ==
      match ReadString(rest) case None => None case Some((t, n)) => Some(([c] + t, |EscapeChar(c)| + n))
  {
    hide EscapeChar, ReadString, ReadEscape;
    if c < ' ' || c == '"' || c == '\\' {
      EscapeReads(c, rest);
      EscapedReads(EscapeChar(c), c, rest);
    } else {
      PlainIsPlain(c);
      PlainReads(c, rest);
    }
  }

  lemma PlainIsPlain(c: char)
    requires c >= ' ' && c != '"' && c != '\\'
    ensures EscapeChar(c) == [c]
  {
  }

  lemma EscapedReads(e: string, c: char, rest: string)
    requires |e| > 1 && e[0] == '\\' && ReadEscape(e[1..] + rest) == Some((c, |e| - 1))
    ensures ReadString(e + rest) ==
      match ReadString(rest) case None => None case Some((t, n)) => Some(([c] + t, |e| + n))
  {
    hide ReadEscape;
    var s := e + rest;
    assert s[1..] == e[1..] + rest && s[1 + (|e| - 1)..] == rest;
  }

  lemma PlainReads(c: char, rest: string)
    requires c >= ' ' && c != '"' && c != '\\'
    ensures ReadString([c] + rest) ==
      match ReadString(rest) case None => None case Some((t, n)) => Some(([c] + t, 1 + n))
  {
    assert ([c] + rest)[1..] == rest;
  }

  lemma {:induction false} StringReads(s: string, post: string)
    ensures ReadString(EscapeAll(s) + ("\"" + post)) == Some((s, |EscapeAll(s)| + 1))
  {
    hide EscapeChar, ReadString;
    if s == [] {
      assert EscapeAll(s) + ("\"" + post) == "\"" + post;
      QuoteEnds(post);
    } else {
      StringReads(s[1..], post);
      var rest := EscapeAll(s[1..]) + ("\"" + post);
      CharReads(s[0], rest);
      assert EscapeAll(s) + ("\"" + post) == EscapeChar(s[0]) + rest;
      assert [s[0]] + s[1..] == s;
    }
  }

  lemma QuoteEnds(post: string)
    ensures ReadString("\"" + post) == Some(([], 1))
  {
  }

  // ------------------------------ values --------------------------------

  /** What may follow a number. */
  predicate Apart(post: string) { post == [] || !InNumber(post[0]) }

  lemma {:induction false} NumberReads(text: string, post: string)
    requires (forall c | c in text :: InNumber(c)) && Apart(post)
    ensures NumberLen(text + post) == |text|
  {
    if text == [] {
      assert text + post == post;
    } else {
      assert text[0] in text && forall c | c in text[1..] :: c in text;
      NumberReads(text[1..], post);
      assert (text + post)[1..] == text[1..] + post;
    }
  }

  lemma NumberIsRead(text: NumberText, post: string)
    requires Apart(post)
    ensures ReadValue(text + post) == Some((Number(text), |text|))
  {
    hide NumberLen;
    var s := text + post;
    forall c | c in text ensures InNumber(c) {
      var i :| 0 <= i < |text| && text[i] == c;
      assert NumberAt(text, i);
    }
    NumberReads(text, post);
    assert s[0] == text[0] && text[0] in text;
    assert Skip(s) == 0 && s[0..] == s;
    assert |s| >= 4 ==> s[..4][0] == s[0];
    assert |s| >= 5 ==> s[..5][0] == s[0];
    assert s[..|text|] == text;
  }

  lemma AtomReads(post: string)
    ensures ReadValue("null" + post) == Some((Null, 4))
    ensures ReadValue("true" + post) == Some((Bool(true), 4))
    ensures ReadValue("false" + post) == Some((Bool(false), 5))
  {
    WordReads("null", post);
    WordReads("true", post);
    WordReads("false", post);
  }

  lemma WordReads(w: string, post: string)
    requires w == "null" || w == "true" || w == "false"
    ensures ReadValue(w + post)
      == Some((if w == "null" then Null else Bool(w == "true"), |w|))
  {
    var s := w + post;
    assert s[0] == w[0] && Skip(s) == 0 && s[0..] == s && s[..|w|] == w;
    assert |s| >= 4 ==> s[..4][0] == s[0];
  }

  lemma QuotedReads(x: string, post: string)
    ensures ReadValue("\"" + EscapeAll(x) + "\"" + post) == Some((Str(x), |EscapeAll(x)| + 2))
  {
    hide EscapeAll, ReadString;
    var s := "\"" + EscapeAll(x) + "\"" + post;
    StringReads(x, post);
    assert Skip(s) == 0 && s[0..] == s && s[1..] == EscapeAll(x) + ("\"" + post);
  }

  /** What `ReadValue` does with brackets and braces. */
  lemma BracketReads(rest: string)
    ensures ReadValue("[" + rest) ==
      match ReadItems(rest, true) case None => None case Some((x, n)) => Some((Arr(x), 1 + n))
    ensures ReadValue("{" + rest) ==
      match ReadFields(rest, true) case None => None case Some((x, n)) => Some((Obj(x), 1 + n))
  {
    hide ReadItems, ReadFields;
    var a, b := "[" + rest, "{" + rest;
    assert Skip(a) == 0 && a[0..] == a && a[1..] == rest;
    assert Skip(b) == 0 && b[0..] == b && b[1..] == rest;
  }

  /** The text of a value begins with neither space nor a closing mark. */
  predicate Starts(s: string) { s != [] && !IsSpace(s[0]) && s[0] != ']' && s[0] != '}' && s[0] != ',' && s[0] != ':' }

  lemma TextStarts(v: Json)
    ensures Starts(JsonText(v))
  {
    if v.Number? { assert NumberAt(v.text, 0); }
  }

  lemma {:induction false} ValueReads(v: Json, post: string)
    requires Apart(post)
    ensures ReadValue(JsonText(v) + post) == Some((v, |JsonText(v)|))
    decreases v
  {
    hide ReadValue, JsonText;
    match v
    case Arr(items) =>
      ItemsRead(items, post);
      ArrayReads(items, post);
    case Obj(fields) =>
      FieldsRead(fields, post);
      ObjectReads(fields, post);
    case _ => SimpleReads(v, post);
  }

  lemma SimpleReads(v: Json, post: string)
    requires !v.Arr? && !v.Obj? && Apart(post)
    ensures ReadValue(JsonText(v) + post) == Some((v, |JsonText(v)|))
  {
    hide ReadValue, EscapeAll;
    match v
    case Null => AtomReads(post);
    case Bool(b) => AtomReads(post);
    case Number(text) => NumberIsRead(text, post);
    case Str(x) => QuotedReads(x, post);
  }

  lemma ArrayReads(items: seq<Json>, post: string)
    requires ReadItems(ItemsText(items) + ("]" + post), true) == Some((items, |ItemsText(items)| + 1))
    ensures ReadValue(JsonText(Arr(items)) + post) == Some((Arr(items), |JsonText(Arr(items))|))
  {
    hide ReadItems, ReadValue, ItemsText;
    BracketReads(ItemsText(items) + ("]" + post));
    assert JsonText(Arr(items)) + post == "[" + (ItemsText(items) + ("]" + post));
  }

  lemma ObjectReads(fields: seq<Member>, post: string)
    requires ReadFields(FieldsText(fields) + ("}" + post), true) == Some((fields, |FieldsText(fields)| + 1))
    ensures ReadValue(JsonText(Obj(fields)) + post) == Some((Obj(fields), |JsonText(Obj(fields))|))
  {
    hide ReadFields, ReadValue, FieldsText;
    BracketReads(FieldsText(fields) + ("}" + post));
    assert JsonText(Obj(fields)) + post == "{" + (FieldsText(fields) + ("}" + post));
  }

  /** An element, then a comma and more elements, or the end. */
  lemma ItemsStep(s: string, first: bool, v: Json, n: nat)
    requires s != [] && Skip(s) < |s| && s[Skip(s)] != ']' && ReadValue(s) == Some((v, n))
    ensures 0 < n <= |s| && ReadItems(s, first) == ItemsAfter(s, v, n)
  {
    hide ReadValue, ItemsAfter;
  }

  lemma ItemsEnd(s: string, v: Json, n: nat)
    requires 0 < n < |s| && s[n] == ']'
    ensures ItemsAfter(s, v, n) == Some(([v], n + 1))
  {
    assert Skip(s[n..]) == 0;
  }

  lemma ItemsMore(s: string, v: Json, n: nat, rest: string)
    requires 0 < n < |s| && s[n] == ',' && s[n + 1..] == rest
    ensures ItemsAfter(s, v, n) ==
      match ReadItems(rest, false) case None => None case Some((more, j)) => Some(([v] + more, n + 1 + j))
  {
    hide ReadItems;
    assert Skip(s[n..]) == 0;
  }

  lemma {:induction false} ItemsRead(items: seq<Json>, post: string)
    ensures ReadItems(ItemsText(items) + ("]" + post), true) == Some((items, |ItemsText(items)| + 1))
    decreases items, 1
  {
    hide JsonText, ReadValue;
    if items == [] {
      assert ItemsText(items) + ("]" + post) == "]" + post;
    } else {
      ItemsReadOn(items, post, true);
    }
  }

  lemma {:induction false} ItemsReadOn(items: seq<Json>, post: string, first: bool)
    requires items != []
    ensures ReadItems(ItemsText(items) + ("]" + post), first) == Some((items, |ItemsText(items)| + 1))
    decreases items, 0
  {
    hide JsonText, ReadValue, ReadItems, ItemsAfter;
    var text, v := JsonText(items[0]), items[0];
    TextStarts(v);
    if |items| == 1 {
      var tail := "]" + post;
      assert ItemsText(items) + tail == text + tail && items == [v];
      ValueReads(v, tail);
      ItemsStep(text + tail, first, v, |text|);
      ItemsEnd(text + tail, v, |text|);
    } else {
      var rest := ItemsText(items[1..]) + ("]" + post);
      var s := text + ("," + rest);
      assert ItemsText(items) + ("]" + post) == s;
      ValueReads(v, "," + rest);
      ItemsReadOn(items[1..], post, false);
      ItemsStep(s, first, v, |text|);
      assert s[|text|] == ',' && s[|text| + 1..] == rest;
      ItemsMore(s, v, |text|, rest);
      assert [v] + items[1..] == items;
    }
  }

  // ------------------------------ objects -------------------------------

  function Key(f: Member): string { "\"" + EscapeAll(f.key) + "\":" }

  lemma FieldsStep(s: string, first: bool, f: Member, rest: string)
    requires s == Key(f) + rest && ReadValue(rest).Some? && ReadValue(rest).value.0 == f.value
    ensures var n := |Key(f)| + ReadValue(rest).value.1;
      0 < n <= |s| && ReadFields(s, first) == FieldsAfter(s, f, n)
  {
    hide ReadValue, FieldsAfter, EscapeAll, ReadString;
    var k := EscapeAll(f.key);
    assert s == "\"" + (k + ("\"" + (":" + rest)));
    assert Skip(s) == 0 && s[1..] == k + ("\"" + (":" + rest));
    StringReads(f.key, ":" + rest);
    var p := |k| + 2;
    assert s[p..] == ":" + rest && Skip(s[p..]) == 0 && s[p + 1..] == rest;
  }

  lemma FieldsEnd(s: string, f: Member, n: nat)
    requires 0 < n < |s| && s[n] == '}'
    ensures FieldsAfter(s, f, n) == Some(([f], n + 1))
  {
    assert Skip(s[n..]) == 0;
  }

  lemma FieldsMore(s: string, f: Member, n: nat, rest: string)
    requires 0 < n < |s| && s[n] == ',' && s[n + 1..] == rest
    ensures FieldsAfter(s, f, n) ==
      match ReadFields(rest, false) case None => None case Some((more, j)) => Some(([f] + more, n + 1 + j))
  {
    hide ReadFields;
    assert Skip(s[n..]) == 0;
  }

  lemma {:induction false} FieldsRead(fields: seq<Member>, post: string)
    ensures ReadFields(FieldsText(fields) + ("}" + post), true) == Some((fields, |FieldsText(fields)| + 1))
    decreases fields, 1
  {
    hide JsonText, ReadValue, EscapeAll;
    if fields == [] {
      assert FieldsText(fields) + ("}" + post) == "}" + post;
    } else {
      FieldsReadOn(fields, post, true);
    }
  }

  lemma FieldsUnfold(fields: seq<Member>)
    requires fields != []
    ensures FieldsText(fields) == Key(fields[0]) + JsonText(fields[0].value)
      + (if |fields| == 1 then [] else "," + FieldsText(fields[1..]))
  {
    hide JsonText, EscapeAll;
  }

  lemma {:induction false} FieldsReadOn(fields: seq<Member>, post: string, first: bool)
    requires fields != []
    ensures ReadFields(FieldsText(fields) + ("}" + post), first) == Some((fields, |FieldsText(fields)| + 1))
    decreases fields, 0
  {
    hide JsonText, ReadValue, ReadFields, FieldsAfter, Key, FieldsText;
    var f := fields[0];
    var key, text := Key(f), JsonText(f.value);
    var n := |key| + |text|;
    FieldsUnfold(fields);
    if |fields| == 1 {
      var rest := text + ("}" + post);
      var s := key + rest;
      assert FieldsText(fields) + ("}" + post) == s && fields == [f];
      ValueReads(f.value, "}" + post);
      FieldsStep(s, first, f, rest);
      assert s[n] == '}';
      FieldsEnd(s, f, n);
    } else {
      var more := FieldsText(fields[1..]) + ("}" + post);
      var rest := text + ("," + more);
      var s := key + rest;
      assert FieldsText(fields) + ("}" + post) == s;
      ValueReads(f.value, "," + more);
      FieldsReadOn(fields[1..], post, false);
      FieldsStep(s, first, f, rest);
      assert s[n] == ',' && s[n + 1..] == more;
      FieldsMore(s, f, n, more);
      assert [f] + fields[1..] == fields;
    }
  }

  /** The text of a value reads back as that value. */
  lemma JsonRoundTrip(v: Json)
    ensures ReadValue(JsonText(v)) == Some((v, |JsonText(v)|))
  {
    ValueReads(v, []);
    assert JsonText(v) + [] == JsonText(v);
  }

  /** A cell of a CSV export: nothing for a null, a text as it is, a blob by its size, and any other as JSON text that
      reads back. */
  lemma RenderedReads(v: Json)
    ensures v.Null? ==> Csv.RenderCell(v) == ""
    ensures v.Str? ==> Csv.RenderCell(v) == v.s
    ensures forall n | v.Obj? && Get(v.fields, "__type") == Some(Str("bytes"))
        && Get(v.fields, "size") == Some(Number(n)) :: Csv.RenderCell(v) == "<binary " + n + " bytes>"
    ensures !v.Null? && !v.Str? && !(v.Obj? && Get(v.fields, "__type") == Some(Str("bytes"))) ==>
      ReadValue(Csv.RenderCell(v)) == Some((v, |Csv.RenderCell(v)|))
  {
    hide ReadValue;
    JsonRoundTrip(v);
  }

  // ------------------------------ the export ----------------------------

  /** An exported row: its cells under their columns. */
  function RowObject(columns: seq<string>, row: seq<Json>): Json { Obj(PutAll([], columns, row)) }

  function RowObjects(columns: seq<string>, rows: seq<seq<Json>>): (r: seq<Json>)
    ensures |r| == |rows|
  {
    seq(|rows|, i requires 0 <= i < |rows| => RowObject(columns, rows[i]))
  }

  /** The rows of an export from one of them on, to its end. */
  function RowsOn(columns: seq<string>, rows: seq<seq<Json>>): string
    requires rows != []
  {
    JsonRow(columns, rows[0]) + if |rows| == 1 then "\n]" else ",\n  " + RowsOn(columns, rows[1..])
  }

  lemma RowUnfolds(columns: seq<string>, rows: seq<seq<Json>>, k: nat)
    requires 0 < k <= |rows|
    ensures JsonRows(columns, rows[..k])
      == JsonRows(columns, rows[..k - 1]) + (if k == 1 then "[\n  " else ",\n  ") + JsonRow(columns, rows[k - 1])
  {
    hide JsonRow;
    assert rows[..k][..k - 1] == rows[..k - 1];
  }

  lemma RowsOnUnfolds(columns: seq<string>, rows: seq<seq<Json>>, k: nat)
    requires 0 < k <= |rows|
    ensures RowsOn(columns, rows[k - 1..]) == JsonRow(columns, rows[k - 1]) + RowsAfter(columns, rows, k)
  {
    hide JsonRow;
    assert rows[k - 1..][1..] == rows[k..];
  }

  /** What follows the first `k` rows. */
  function RowsAfter(columns: seq<string>, rows: seq<seq<Json>>, k: nat): string
    requires k <= |rows|
  {
    if k == |rows| then "\n]" else ",\n  " + RowsOn(columns, rows[k..])
  }

  lemma Chain(before: string, sep: string, row: string, after: string)
    ensures before + sep + row + after == before + (sep + (row + after))
  {
  }

  lemma {:induction false} RowsInFront(columns: seq<string>, rows: seq<seq<Json>>, k: nat)
    requires 0 < k <= |rows|
    ensures JsonRows(columns, rows[..k]) + RowsAfter(columns, rows, k) == "[\n  " + RowsOn(columns, rows)
  {
    hide JsonRow, JsonRows, RowsOn;
    var row := JsonRow(columns, rows[k - 1]);
    RowUnfolds(columns, rows, k);
    RowsOnUnfolds(columns, rows, k);
    Chain(JsonRows(columns, rows[..k - 1]), if k == 1 then "[\n  " else ",\n  ", row, RowsAfter(columns, rows, k));
    if k == 1 {
      NoJsonRows(columns);
      assert rows[..0] == [] && rows[0..] == rows;
      assert [] + ("[\n  " + RowsOn(columns, rows)) == "[\n  " + RowsOn(columns, rows);
    } else {
      RowsInFront(columns, rows, k - 1);
    }
  }

  lemma NoJsonRows(columns: seq<string>)
    ensures JsonRows(columns, []) == []
  {
  }

  lemma {:induction false} SkipSpaces(lead: string, t: string)
    requires (forall c | c in lead :: IsSpace(c)) && t != [] && !IsSpace(t[0])
    ensures Skip(lead + t) == |lead|
  {
    if lead == [] {
      assert lead + t == t;
    } else {
      assert lead[0] in lead && forall c | c in lead[1..] :: c in lead;
      assert (lead + t)[1..] == lead[1..] + t;
      SkipSpaces(lead[1..], t);
    }
  }

  /** Space in front of a value does not matter. */
  lemma SpacedReads(lead: string, t: string)
    requires (forall c | c in lead :: IsSpace(c)) && t != [] && !IsSpace(t[0])
    ensures ReadValue(lead + t) ==
      match ReadValue(t) case None => None case Some((v, n)) => Some((v, |lead| + n))
  {
    hide ReadAt;
    var s := lead + t;
    SkipSpaces(lead, t);
    assert Skip(t) == 0 && s[|lead|..] == t && t[0..] == t;
  }

  lemma RowRead(lead: string, v: Json, more: string, first: bool)
    requires lead == "\n  " && Apart(more)
    ensures var s, n := lead + (JsonText(v) + more), |lead| + |JsonText(v)|;
      0 < n <= |s| && s[n..] == more && ReadItems(s, first) == ItemsAfter(s, v, n)
  {
    hide ReadValue, ReadItems, ItemsAfter, JsonText, IsSpace;
    LeadIsSpace(lead);
    var t := JsonText(v) + more;
    TextStarts(v);
    ValueReads(v, more);
    SpacedReads(lead, t);
    SkipSpaces(lead, t);
    ItemsStep(lead + t, first, v, |lead| + |JsonText(v)|);
  }

  lemma {:induction false} RowsRead(columns: seq<string>, rows: seq<seq<Json>>, lead: string, first: bool)
    requires rows != [] && lead == "\n  "
    ensures ReadItems(lead + RowsOn(columns, rows), first)
      == Some((RowObjects(columns, rows), |lead| + |RowsOn(columns, rows)|))
    decreases |rows|
  {
    hide ReadItems, ItemsAfter, JsonText, PutAll;
    var v := RowObject(columns, rows[0]);
    if |rows| == 1 {
      var s, n := lead + (JsonText(v) + "\n]"), |lead| + |JsonText(v)|;
      RowRead(lead, v, "\n]", first);
      CloseReads(s, v, n);
      assert RowObjects(columns, rows) == [v];
    } else {
      var rest := lead + RowsOn(columns, rows[1..]);
      RowsRead(columns, rows[1..], lead, false);
      assert ",\n  " + RowsOn(columns, rows[1..]) == "," + rest;
      RowRead(lead, v, "," + rest, first);
      CommaReads(lead + (JsonText(v) + ("," + rest)), v, |lead| + |JsonText(v)|, rest);
      assert RowObjects(columns, rows) == [v] + RowObjects(columns, rows[1..]);
    }
  }

  lemma CommaReads(s: string, v: Json, n: nat, rest: string)
    requires 0 < n <= |s| && s[n..] == "," + rest
    ensures ItemsAfter(s, v, n) ==
      match ReadItems(rest, false) case None => None case Some((more, j)) => Some(([v] + more, n + 1 + j))
  {
    hide ReadItems, ItemsAfter;
    assert s[n] == s[n..][0] && s[n + 1..] == s[n..][1..] == rest;
    ItemsMore(s, v, n, rest);
  }

  lemma LeadIsSpace(lead: string)
    requires lead == "\n  "
    ensures forall c | c in lead :: IsSpace(c)
  {
  }

  lemma CloseReads(s: string, v: Json, n: nat)
    requires 0 < n <= |s| && s[n..] == "\n]"
    ensures ItemsAfter(s, v, n) == Some(([v], |s|))
  {
    var u := s[n..];
    assert u[1..][0] == ']' && Skip(u[1..]) == 0 && Skip(u) == 1;
    assert s[n + 1] == u[1];
  }

  /** A JSON export reads back as the array of its rows, each an object of its cells under their columns. */
  lemma ExportReadsBack(kind: Kind, table: string, columns: seq<string>, rows: seq<seq<Json>>)
    ensures var text := Finished(JsonFormat, kind, table, columns, rows);
      ReadValue(text) == Some((Arr(RowObjects(columns, rows)), |text|))
  {
    hide JsonRow, ReadValue, ReadItems, RowObject;
    if rows == [] {
      NoRowsRead();
      assert Finished(JsonFormat, kind, table, columns, rows) == [] + "[]" == "[]";
      assert RowObjects(columns, rows) == [];
    } else {
      var rest := "\n  " + RowsOn(columns, rows);
      RowsInFront(columns, rows, |rows|);
      assert rows[..|rows|] == rows;
      assert "[\n  " + RowsOn(columns, rows) == "[" + rest;
      RowsRead(columns, rows, "\n  ", true);
      BracketReads(rest);
    }
  }

  lemma NoRowsRead()
    ensures ReadValue("[]") == Some((Arr([]), 2))
  {
    BracketReads("]");
    assert "[" + "]" == "[]" && Skip("]") == 0;
  }

  // ------------------------------ cells and columns ---------------------

  lemma {:induction false} GetPut(fields: seq<Member>, key: string, v: Json, k: string)
    ensures Get(Put(fields, key, v), k) == if k == key then Some(v) else Get(fields, k)
  {
    if fields != [] && fields[0].key != key {
      GetPut(fields[1..], key, v, k);
      assert Put(fields, key, v)[1..] == Put(fields[1..], key, v);
    } else if fields == [] {
      assert Put(fields, key, v)[1..] == [];
    } else {
      assert Put(fields, key, v)[1..] == fields[1..];
    }
  }

  /** Column `j` has a cell, and no later column with a cell has its name. */
  predicate LastOf(columns: seq<string>, row: seq<Json>, j: nat) {
    && j < |columns| && j < |row|
    && forall i :: j < i < |columns| && i < |row| ==> columns[i] != columns[j]
  }

  /** A row's object holds each cell under its own column; of columns of one name the last has it. */
  lemma {:induction false} CellUnderColumn(fields: seq<Member>, columns: seq<string>, row: seq<Json>, k: string)
    ensures forall j: nat :: LastOf(columns, row, j) && columns[j] == k ==>
      Get(PutAll(fields, columns, row), k) == Some(row[j])
    ensures (forall j :: 0 <= j < |columns| && j < |row| ==> columns[j] != k) ==>
      Get(PutAll(fields, columns, row), k) == Get(fields, k)
    decreases |columns|
  {
    hide Put, Get;
    if columns != [] && row != [] {
      var more, rest := columns[1..], row[1..];
      CellUnderColumn(Put(fields, columns[0], row[0]), more, rest, k);
      GetPut(fields, columns[0], row[0], k);
      forall j: nat | LastOf(columns, row, j) && columns[j] == k
        ensures Get(PutAll(fields, columns, row), k) == Some(row[j])
      {
        if j > 0 { assert LastOf(more, rest, j - 1); }
      }
    }
  }

  predicate Distinct(columns: seq<string>) { forall i, j :: 0 <= i < j < |columns| ==> columns[i] != columns[j] }

  lemma {:induction false} PutAppends(fields: seq<Member>, key: string, v: Json)
    requires forall f | f in fields :: f.key != key
    ensures Put(fields, key, v) == fields + [Member(key, v)]
  {
    if fields != [] {
      assert fields[0] in fields && forall f | f in fields[1..] :: f in fields;
      PutAppends(fields[1..], key, v);
    }
  }

  function Pairs(columns: seq<string>, row: seq<Json>): seq<Member>
    decreases |columns|
  {
    if columns == [] || row == [] then [] else [Member(columns[0], row[0])] + Pairs(columns[1..], row[1..])
  }

  /** Columns of different names keep their order. */
  lemma {:induction false} ColumnsInOrder(fields: seq<Member>, columns: seq<string>, row: seq<Json>)
    requires Distinct(columns) && forall f | f in fields :: f.key !in columns
    ensures PutAll(fields, columns, row) == fields + Pairs(columns, row)
    decreases |columns|
  {
    hide Put;
    if columns == [] || row == [] {
      assert fields + [] == fields;
    } else {
      var f, more := Member(columns[0], row[0]), columns[1..];
      assert columns[0] in columns && forall c | c in more :: c in columns;
      PutAppends(fields, columns[0], row[0]);
      assert forall j :: 0 <= j < |more| ==> more[j] == columns[j + 1] && more[j] != columns[0];
      ColumnsInOrder(fields + [f], more, row[1..]);
      assert fields + [f] + Pairs(more, row[1..]) == fields + ([f] + Pairs(more, row[1..]));
    }
  }
}
