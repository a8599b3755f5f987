/** PostgreSQL array literals (`bind.rs`), and a reader for sections 8.15.2 and 8.15.6 of the PostgreSQL
    documentation: the grammar, then the extents. */
module PgArray {
  import opened Text
  import opened Json

  /** `replace(c, r)` for one character. */
  function Replace(s: string, c: char, r: string): string {
    if s == [] then [] else (if s[0] == c then r else [s[0]]) + Replace(s[1..], c, r)
  }

  /** The two passes of the printer. */
  function EscapeElement(s: string): string { Replace(Replace(s, '\\', "\\\\"), '"', "\\\"") }

  /** One escape for each character that needs it. */
  function EscapeEach(s: string): string {
    if s == [] then [] else (if s[0] == '\\' || s[0] == '"' then ['\\', s[0]] else [s[0]]) + EscapeEach(s[1..])
  }

  lemma {:induction false} ReplaceConcat(a: string, b: string, c: char, r: string)
    ensures Replace(a + b, c, r) == Replace(a, c, r) + Replace(b, c, r)
  {
    if a == [] {
      assert a + b == b;
    } else {
      SliceConcat(a, b, 1);
      ReplaceConcat(a[1..], b, c, r);
    }
  }

  /** The second pass leaves the escapes of the first alone. */
  lemma {:induction false} TwoPassesAreOne(s: string)
    ensures EscapeElement(s) == EscapeEach(s)
  {
    if s != [] {
      var first := if s[0] == '\\' then "\\\\" else [s[0]];
      var rest := Replace(s[1..], '\\', "\\\\");
      ReplaceConcat(first, rest, '"', "\\\"");
      TwoPassesAreOne(s[1..]);
      assert Replace(first, '"', "\\\"") == (if s[0] == '\\' || s[0] == '"' then ['\\', s[0]] else [s[0]]) by {
        assert first[1..] == [] || first[1..] == ['\\'];
        assert ['\\'][1..] == [];
      }
    }
  }

  // ------------------------------ the printer ---------------------------

  function PgTextForm(v: Json): string
    decreases v, 1
  {
    match v
    case Arr(items) => "{" + Elements(items) + "}"
    case _ => JsonText(v)
  }

  function PgArrayElement(v: Json): string
    decreases v, 2
  {
    match v
    case Null => "NULL"
    case Arr(_) => PgTextForm(v)
    case Str(s) => "\"" + EscapeElement(s) + "\""
    case _ => "\"" + EscapeElement(JsonText(v)) + "\""
  }

  /** The elements, joined by commas. */
  function Elements(items: seq<Json>): string
    decreases items, 0
  {
    if items == [] then []
    else PgArrayElement(items[0]) + (if |items| == 1 then [] else "," + Elements(items[1..]))
  }

  // ------------------------------ the reader ----------------------------

  datatype Value = NullValue | Text(s: string) | Nested(items: seq<Value>)

  /** A quoted element after its opening quote, and its length: a backslash takes the next character. */
  function ReadQuoted(s: string): (r: Option<(string, nat)>)
    ensures r.Some? ==> 0 < r.value.1 <= |s|
    decreases |s|
  {
    if s == [] then None
    else if s[0] == '"' then Some(([], 1))
    else if s[0] == '\\' then
      if |s| == 1 then None
      else
        match ReadQuoted(s[2..])
        case None => None
        case Some((t, n)) => Some(([s[1]] + t, n + 2))
    else
      match ReadQuoted(s[1..])
      case None => None
      case Some((t, n)) => Some(([s[0]] + t, n + 1))
  }

  predicate IsDelimiter(c: char) { c == ',' || c == '{' || c == '}' || c == '"' || c == '\\' }

  function BareLen(s: string): (n: nat)
    ensures n <= |s|
  {
    if s == [] || IsDelimiter(s[0]) then 0 else 1 + BareLen(s[1..])
  }

  /** An element and its length. An unquoted NULL, in any case, is null. */
  function ReadElement(s: string): (r: Option<(Value, nat)>)
    ensures r.Some? ==> 0 < r.value.1 <= |s|
    decreases |s|, 1
  {
    if s == [] then None
    else if s[0] == '{' then ReadArray(s)
    else if s[0] == '"' then
      match ReadQuoted(s[1..])
      case None => None
      case Some((t, n)) => Some((Text(t), n + 1))
    else
      var n := BareLen(s);
      if n == 0 then None
      else if Uppercase(s[..n]) == "NULL" then Some((NullValue, n))
      else Some((Text(s[..n]), n))
  }

  function ReadArray(s: string): (r: Option<(Value, nat)>)
    requires s != [] && s[0] == '{'
    ensures r.Some? ==> 0 < r.value.1 <= |s|
    decreases |s|, 0
  {
    if |s| > 1 && s[1] == '}' then Some((Nested([]), 2))
    else
      match ReadElements(s[1..])
      case None => None
      case Some((items, n)) => Some((Nested(items), n + 1))
  }

  /** At least one element, up to the closing brace. */
  function ReadElements(s: string): (r: Option<(seq<Value>, nat)>)
    ensures r.Some? ==> 0 < r.value.1 <= |s|
    decreases |s|, 2
  {
    match ReadElement(s)
    case None => None
    case Some((v, n)) =>
      if n == |s| then None
      else if s[n] == '}' then Some(([v], n + 1))
      else if s[n] == ',' then
        match ReadElements(s[n + 1..])
        case None => None
        case Some((rest, k)) => Some(([v] + rest, n + 1 + k))
      else None
  }

  // ------------------------------ round trip ----------------------------

  /** What a value denotes as an array element: null, a nested array, or its text. */
  function Denotes(v: Json): Value
    decreases v, 1
  {
    match v
    case Null => NullValue
    case Arr(items) => Nested(DenoteAll(items))
    case Str(s) => Text(s)
    case _ => Text(JsonText(v))
  }

  function DenoteAll(items: seq<Json>): (r: seq<Value>)
    ensures |r| == |items|
    decreases items, 0
  {
    if items == [] then [] else [Denotes(items[0])] + DenoteAll(items[1..])
  }

  lemma ReadEscape(c: char, rest: string)
    ensures ReadQuoted(['\\', c] + rest) ==
      match ReadQuoted(rest) case None => None case Some((t, n)) => Some(([c] + t, n + 2))
  {
    assert (['\\', c] + rest)[2..] == rest;
  }

  lemma ReadChar(c: char, rest: string)
    requires c != '\\' && c != '"'
    ensures ReadQuoted([c] + rest) ==
      match ReadQuoted(rest) case None => None case Some((t, n)) => Some(([c] + t, n + 1))
  {
    assert ([c] + rest)[1..] == rest;
  }

  lemma {:induction false} QuotedReadsBack(s: string, post: string)
    ensures ReadQuoted(EscapeEach(s) + "\"" + post) == Some((s, |EscapeEach(s)| + 1))
  {
    if s == [] {
      assert EscapeEach(s) + "\"" + post == "\"" + post;
    } else {
      hide ReadQuoted;
      QuotedReadsBack(s[1..], post);
      var escaped := s[0] == '\\' || s[0] == '"';
      var first, rest := if escaped then ['\\', s[0]] else [s[0]], EscapeEach(s[1..]) + "\"" + post;
      Regroup(first, EscapeEach(s[1..]), "\"", post);
      assert s == [s[0]] + s[1..];
      if escaped { ReadEscape(s[0], rest); } else { ReadChar(s[0], rest); }
    }
  }

  predicate AtElementEnd(post: string) { post != [] && (post[0] == ',' || post[0] == '}') }

  lemma NullReadsBack(post: string)
    requires AtElementEnd(post)
    ensures ReadElement("NULL" + post) == Some((NullValue, 4))
  {
    var s := "NULL" + post;
    assert ("L" + post)[1..] == post && ("LL" + post)[1..] == "L" + post && ("ULL" + post)[1..] == "LL" + post;
    assert s[1..] == "ULL" + post;
    assert BareLen("L" + post) == 1;
    assert BareLen("LL" + post) == 2;
    assert BareLen("ULL" + post) == 3;
    assert s[..4] == "NULL" && Uppercase("NULL") == "NULL";
  }

  lemma TextReadsBack(t: string, post: string)
    ensures ReadElement("\"" + EscapeElement(t) + "\"" + post) == Some((Text(t), |EscapeElement(t)| + 2))
  {
    TwoPassesAreOne(t);
    QuotedReadsBack(t, post);
    var s := "\"" + EscapeElement(t) + "\"" + post;
    assert s[1..] == EscapeEach(t) + "\"" + post;
  }

  lemma {:induction false} ElementReadsBack(v: Json, post: string)
    requires AtElementEnd(post)
    ensures ReadElement(PgArrayElement(v) + post) == Some((Denotes(v), |PgArrayElement(v)|))
    ensures PgArrayElement(v) != []
    ensures PgArrayElement(v)[0] != '}'
    decreases v, 1
  {
    match v
    case Null => NullReadsBack(post);
    case Arr(items) => ArrayReadsBack(items, post);
    case Str(s) => TextReadsBack(s, post);
    case _ => TextReadsBack(JsonText(v), post);
  }

  lemma {:induction false} ArrayReadsBack(items: seq<Json>, post: string)
    ensures ReadArray(PgTextForm(Arr(items)) + post) == Some((Nested(DenoteAll(items)), |PgTextForm(Arr(items))|))
    decreases items, 2
  {
    hide ReadElements, Elements, DenoteAll, PgArrayElement;
    var s := PgTextForm(Arr(items)) + post;
    if items == [] {
      NoElements();
      assert s == "{}" + post;
    } else {
      var tail := "}" + post;
      assert s == "{" + (Elements(items) + tail);
      assert s[1..] == Elements(items) + tail;
      ElementsReadBack(items, post);
      FirstOfElements(items);
      assert s[1] == Elements(items)[0];
    }
  }

  lemma NoElements()
    ensures Elements([]) == [] && DenoteAll([]) == []
  {
  }

  lemma FirstOfElements(items: seq<Json>)
    requires items != [] && PgArrayElement(items[0]) != []
    ensures Elements(items) != [] && Elements(items)[0] == PgArrayElement(items[0])[0]
  {
    hide PgArrayElement;
  }

  /** One element and what follows it, read as the head of a list. */
  lemma ElementsReadStep(s: string, v: Value, n: nat, rest: seq<Value>, k: nat)
    requires ReadElement(s) == Some((v, n)) && n < |s| && s[n] == ','
    requires ReadElements(s[n + 1..]) == Some((rest, k))
    ensures ReadElements(s) == Some(([v] + rest, n + 1 + k))
  {
    hide ReadElement, ReadArray, ReadQuoted, BareLen;
    assert ReadElements(s) == MoreAfter(s, v, n);
  }

  /** What a list of elements reads as after its first. */
  function MoreAfter(s: string, v: Value, n: nat): Option<(seq<Value>, nat)>
    requires n <= |s|
  {
    if n == |s| then None
    else if s[n] == '}' then Some(([v], n + 1))
    else if s[n] == ',' then
      match ReadElements(s[n + 1..])
      case None => None
      case Some((rest, k)) => Some(([v] + rest, n + 1 + k))
    else None
  }

  lemma ElementsReadLast(s: string, v: Value, n: nat)
    requires ReadElement(s) == Some((v, n)) && n < |s| && s[n] == '}'
    ensures ReadElements(s) == Some(([v], n + 1))
  {
    hide ReadElement, ReadArray;
  }

  lemma {:induction false} ElementsReadBack(items: seq<Json>, post: string)
    requires items != []
    ensures ReadElements(Elements(items) + ("}" + post)) == Some((DenoteAll(items), |Elements(items)| + 1))
    ensures Elements(items) != [] && PgArrayElement(items[0]) != [] && PgArrayElement(items[0])[0] != '}'
    decreases items, 0
  {
    hide ReadElement, ReadElements, PgArrayElement, Denotes, Elements, DenoteAll;
    var first, v := PgArrayElement(items[0]), Denotes(items[0]);
    ElementsUnfold(items);
    if |items| == 1 {
      ElementReadsBack(items[0], "}" + post);
      ElementsReadLast(first + ("}" + post), v, |first|);
    } else {
      var texts := Elements(items[1..]);
      var more := texts + ("}" + post);
      ElementReadsBack(items[0], "," + more);
      ElementsReadBack(items[1..], post);
      var s := first + ("," + more);
      AfterComma(first, more);
      ElementsReadStep(s, v, |first|, DenoteAll(items[1..]), |texts| + 1);
      CommaJoins(first, texts, "}" + post);
    }
  }

  lemma ElementsUnfold(items: seq<Json>)
    requires items != []
    ensures |items| == 1 ==> Elements(items) == PgArrayElement(items[0]) && DenoteAll(items) == [Denotes(items[0])]
    ensures |items| > 1 ==> Elements(items) == PgArrayElement(items[0]) + "," + Elements(items[1..])
    ensures |items| > 1 ==> DenoteAll(items) == [Denotes(items[0])] + DenoteAll(items[1..])
  {
    hide PgArrayElement, Denotes;
    assert |items| == 1 ==> items[1..] == [];
  }

  lemma AfterComma(first: string, more: string)
    ensures var s := first + ("," + more); s[|first|] == ',' && s[|first| + 1..] == more
  {
  }

  lemma CommaJoins(first: string, texts: string, tail: string)
    ensures first + "," + texts + tail == first + ("," + (texts + tail))
  {
  }

  /** Reading the text form of an array gives back the array, of any depth. */
  lemma ArrayRoundTrip(items: seq<Json>)
    ensures ReadArray(PgTextForm(Arr(items))) == Some((Denotes(Arr(items)), |PgTextForm(Arr(items))|))
  {
    ArrayReadsBack(items, []);
    assert PgTextForm(Arr(items)) + [] == PgTextForm(Arr(items));
  }

  /** Two arrays with the same text hold the same values; in particular a null is not the text NULL. */
  lemma TextFormIsInjective(a: seq<Json>, b: seq<Json>)
    requires PgTextForm(Arr(a)) == PgTextForm(Arr(b))
    ensures DenoteAll(a) == DenoteAll(b)
  {
    ArrayRoundTrip(a);
    ArrayRoundTrip(b);
  }

  // ------------------------------ extents -------------------------------

  /** PostgreSQL's limit on dimensions. */
  const MAX_DIMENSIONS: nat := 6

  /** The extents of a value as they are read, from the left: none of a single value, and of an array its length and
      then the extents all its elements share. */
  function Extents(v: Value): Option<seq<nat>>
    decreases v, 1
  {
    match v
    case Nested(items) => ExtentsAll(items)
    case _ => Some([])
  }

  function ExtentsAll(items: seq<Value>): (r: Option<seq<nat>>)
    ensures r.Some? ==> r.value != []
    decreases items, 0
  {
    if items == [] then Some([0])
    else
      match Extents(items[0])
      case None => None
      case Some(d) =>
        if |items| == 1 then Some([1] + d) else OneMore(d, ExtentsAll(items[1..]))
  }

  /** One element in front of others, when they share its extents. */
  function OneMore(d: seq<nat>, more: Option<seq<nat>>): (r: Option<seq<nat>>)
    requires more.Some? ==> more.value != []
    ensures r.Some? ==> r.value != []
  {
    match more
    case None => None
    case Some(e) => if e[1..] == d then Some([e[0] + 1] + d) else None
  }

  /** What PostgreSQL takes a whole text for, as an array. */
  function PostgresReads(s: string): Option<seq<Value>> {
    if s == [] || s[0] != '{' then None
    else
      match ReadArray(s)
      case Some((Nested(items), n)) =>
        if n == |s| && ExtentsAll(items).Some? && |ExtentsAll(items).value| <= MAX_DIMENSIONS then Some(items) else None
      case _ => None
  }

  /** A value is a box of these extents: arrays of equal length at each depth, single values within. */
  predicate Box(v: Json, extents: seq<nat>)
    decreases extents
  {
    if extents == [] then !v.Arr?
    else v.Arr? && BoxAll(v.items, extents)
  }

  predicate BoxAll(items: seq<Json>, extents: seq<nat>)
    requires extents != []
    decreases extents, 0
  {
    && |items| == extents[0]
    && (items == [] ==> |extents| == 1)
    && forall i :: 0 <= i < |items| ==> Box(items[i], extents[1..])
  }

  /** Rectangular, in PostgreSQL's number of dimensions. */
  ghost predicate Rectangular(items: seq<Json>) {
    exists extents :: 0 < |extents| <= MAX_DIMENSIONS && BoxAll(items, extents)
  }

  lemma {:induction false} ExtentsAreBox(v: Json, extents: seq<nat>)
    ensures Extents(Denotes(v)) == Some(extents) <==> Box(v, extents)
    decreases v, 1
  {
    hide JsonText, BoxAll;
    if v.Arr? && extents != [] {
      ExtentsAreBoxAll(v.items, extents);
    }
  }

  lemma {:induction false} ExtentsAreBoxAll(items: seq<Json>, extents: seq<nat>)
    requires extents != []
    ensures ExtentsAll(DenoteAll(items)) == Some(extents) <==> BoxAll(items, extents)
    decreases items, 0
  {
    hide Denotes, Extents, Box, ExtentsAll, BoxAll;
    if items == [] {
      NoExtents(extents);
    } else {
      var inner, more := extents[1..], items[1..];
      ExtentsAreBox(items[0], inner);
      assert DenoteAll(items)[1..] == DenoteAll(more);
      ExtentsSplit(DenoteAll(items), extents);
      BoxSplits(items, extents);
      if |items| > 1 && extents[0] > 0 { ExtentsAreBoxAll(more, [extents[0] - 1] + inner); }
    }
  }

  lemma NoExtents(extents: seq<nat>)
    requires extents != []
    ensures ExtentsAll([]) == Some(extents) <==> BoxAll([], extents)
  {
    if |extents| == 1 { assert extents == [extents[0]]; }
  }

  lemma ExtentsSplit(vs: seq<Value>, extents: seq<nat>)
    requires vs != [] && extents != []
    ensures |vs| == 1 ==>
      (ExtentsAll(vs) == Some(extents) <==> extents[0] == 1 && Extents(vs[0]) == Some(extents[1..]))
    ensures |vs| > 1 ==>
      (ExtentsAll(vs) == Some(extents) <==>
        extents[0] > 0 && Extents(vs[0]) == Some(extents[1..])
        && ExtentsAll(vs[1..]) == Some([extents[0] - 1] + extents[1..]))
  {
    hide Extents, ExtentsAll;
    ExtentsUnfold(vs);
    if Extents(vs[0]).Some? {
      var d := Extents(vs[0]).value;
      FirstExtent(1, d, extents);
      if |vs| > 1 && ExtentsAll(vs[1..]).Some? {
        var e := ExtentsAll(vs[1..]).value;
        FirstExtent(e[0] + 1, d, extents);
        if extents[0] > 0 { FirstExtent(extents[0] - 1, extents[1..], e); }
      }
    }
  }

  lemma FirstExtent(n: nat, d: seq<nat>, extents: seq<nat>)
    requires extents != []
    ensures [n] + d == extents <==> n == extents[0] && d == extents[1..]
  {
    assert ([n] + d)[1..] == d && extents == [extents[0]] + extents[1..];
  }

  lemma ExtentsUnfold(vs: seq<Value>)
    requires vs != []
    ensures ExtentsAll(vs) ==
      match Extents(vs[0])
      case None => None
      case Some(d) => if |vs| == 1 then Some([1] + d) else OneMore(d, ExtentsAll(vs[1..]))
  {
    hide Extents, OneMore;
  }

  lemma BoxSplits(items: seq<Json>, extents: seq<nat>)
    requires extents != [] && items != []
    ensures |items| == 1 ==> (BoxAll(items, extents) <==> extents[0] == 1 && Box(items[0], extents[1..]))
    ensures |items| > 1 ==>
      (BoxAll(items, extents) <==>
        extents[0] > 0 && Box(items[0], extents[1..]) && BoxAll(items[1..], [extents[0] - 1] + extents[1..]))
  {
    hide Box;
    if extents[0] > 0 {
      var fewer, more := [extents[0] - 1] + extents[1..], items[1..];
      assert fewer[1..] == extents[1..];
      assert forall i :: 1 <= i < |items| ==> items[i] == more[i - 1];
      assert forall i :: 0 <= i < |more| ==> more[i] == items[i + 1];
    }
  }

  /** PostgreSQL reads the text form of an array as that array if and only if it is rectangular, in no more dimensions
      than it allows; it refuses every other. */
  lemma PostgresReadsIffRectangular(items: seq<Json>)
    ensures PostgresReads(PgTextForm(Arr(items))) == if Rectangular(items) then Some(DenoteAll(items)) else None
  {
    hide ReadArray, Elements, ExtentsAll, DenoteAll, BoxAll;
    ArrayRoundTrip(items);
    var all := ExtentsAll(DenoteAll(items));
    if all.Some? { ExtentsAreBoxAll(items, all.value); }
    if Rectangular(items) {
      var extents :| 0 < |extents| <= MAX_DIMENSIONS && BoxAll(items, extents);
      ExtentsAreBoxAll(items, extents);
    }
  }

  lemma SameLength(a: seq<Json>, b: seq<Json>, extents: seq<nat>)
    requires Box(Arr(a), extents) && Box(Arr(b), extents)
    ensures |a| == |b|
  {
    hide Box;
    BoxUnfolds(Arr(a), extents);
    BoxUnfolds(Arr(b), extents);
  }

  lemma BoxUnfolds(v: Json, extents: seq<nat>)
    requires v.Arr? && Box(v, extents)
    ensures extents != [] && |v.items| == extents[0]
  {
  }

  /** A ragged array: its text is an array literal, which PostgreSQL refuses. */
  lemma RaggedIsRefused()
    ensures var items := [Arr([Null]), Arr([Null, Null])];
      ReadArray(PgTextForm(Arr(items))).Some? && PostgresReads(PgTextForm(Arr(items))) == None
  {
    hide ReadArray, PostgresReads, Elements;
    var items := [Arr([Null]), Arr([Null, Null])];
    ArrayRoundTrip(items);
    PostgresReadsIffRectangular(items);
    forall extents: seq<nat> | 0 < |extents| <= MAX_DIMENSIONS ensures !BoxAll(items, extents) {
      var inner := extents[1..];
      if Box(items[0], inner) && Box(items[1], inner) { SameLength([Null], [Null, Null], inner); }
    }
  }
}
