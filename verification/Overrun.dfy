/** A MySQL text literal whose closing quote a backslash takes: from there on the lexer has text and statement the
    wrong way round, to the end of the row and past its `;`. */
module Overrun {
  import opened Text
  import opened Lexer
  import opened LexerLaws
  import opened Quoting
  import Words
  import opened RunEnds

  /** What is left of a row after a cell: plain stretches and text literals. */
  datatype Bit = Gap(text: string) | Cell(s: string)

  function BitText(b: Bit): string {
    match b
    case Gap(text) => text
    case Cell(s) => Enclosed('\'', Doubled('\'', s))
  }

  function BitsText(bits: seq<Bit>): string {
    if bits == [] then [] else BitText(bits[0]) + BitsText(bits[1..])
  }

  predicate Marks(c: char) { c == '"' || c == '`' || c == '/' || c == '\n' }

  predicate GapText(text: string) {
    forall i :: 0 <= i < |text| ==> !Marks(text[i]) && text[i] != '\'' && text[i] != '\\'
  }

  predicate GapsOk(bits: seq<Bit>) { forall b | b in bits :: b.Gap? ==> GapText(b.text) }

  /** The rest of a row, its `;`, and what follows. */
  function Tail(bits: seq<Bit>, rest: string): (t: string)
    ensures |BitsText(bits)| < |t|
  {
    BitsText(bits) + (";" + rest)
  }

  /** What stands after the opening quote of a cell. */
  function Inside(s: string, bits: seq<Bit>, rest: string): string { Doubled('\'', s) + ("'" + Tail(bits, rest)) }

  /** The distance to the `;` from there. */
  function ToEnd(s: string, bits: seq<Bit>): nat { |Doubled('\'', s)| + 1 + |BitsText(bits)| }

  /** `s` stands in the text of some cell, `end` characters before the `;` of the row. */
  ghost predicate InText(s: string, end: nat, rest: string) {
    exists r, bits :: GapsOk(bits) && s == Inside(r, bits, rest) && end == ToEnd(r, bits)
  }

  /** What a run of `n` characters in `s` does: it covers the `;`, or ends in the text of some cell. */
  ghost predicate Leads(s: string, n: nat, end: nat, rest: string) {
    n > end || (n <= |s| && InText(s[n..], end - n, rest))
  }

  lemma Leading(s: string, n: nat, end: nat, r: string, bits: seq<Bit>, rest: string)
    requires n <= |s| && n <= end && GapsOk(bits) && s[n..] == Inside(r, bits, rest) && end == n + ToEnd(r, bits)
    ensures Leads(s, n, end, rest)
  {
    hide Inside, ToEnd, GapsOk;
  }

  lemma LeadsOn(s: string, t: string, k: nat, n: nat, end: nat, rest: string)
    requires k <= |s| && s[k..] == t && Leads(t, n, end, rest)
    ensures Leads(s, k + n, k + end, rest)
  {
    hide InText;
    if n <= end { assert s[k + n..] == t[n..]; }
  }

  // ------------------------------ a literal run -------------------------

  lemma TailSplits(bits: seq<Bit>, rest: string)
    requires bits != []
    ensures Tail(bits, rest) == BitText(bits[0]) + Tail(bits[1..], rest)
    ensures |BitsText(bits)| == |BitText(bits[0])| + |BitsText(bits[1..])|
  {
    hide BitText;
    assert BitText(bits[0]) + BitsText(bits[1..]) + (";" + rest)
      == BitText(bits[0]) + (BitsText(bits[1..]) + (";" + rest));
  }

  lemma {:induction false} PassGap(text: string, t: string)
    requires GapText(text)
    ensures QuotedLen(text + t, '\'', true) == |text| + QuotedLen(t, '\'', true)
  {
    if text == [] {
      assert text + t == t;
    } else {
      SliceConcat(text, t, 1);
      PassGap(text[1..], t);
    }
  }

  lemma PassPair(t: string)
    ensures QuotedLen("''" + t, '\'', true) == 2 + QuotedLen(t, '\'', true)
  {
    assert ("''" + t)[2..] == t;
  }

  lemma PassEscape(c: char, t: string)
    ensures QuotedLen(['\\', c] + t, '\'', true) == 2 + QuotedLen(t, '\'', true)
  {
    assert (['\\', c] + t)[2..] == t;
  }

  lemma PassChar(c: char, t: string)
    requires c != '\'' && c != '\\'
    ensures QuotedLen([c] + t, '\'', true) == 1 + QuotedLen(t, '\'', true)
  {
    assert ([c] + t)[1..] == t;
  }

  lemma InsideSplits(s: string, bits: seq<Bit>, rest: string)
    requires s != []
    ensures Inside(s, bits, rest) == (if s[0] == '\'' then "''" else [s[0]]) + Inside(s[1..], bits, rest)
    ensures ToEnd(s, bits) == (if s[0] == '\'' then 2 else 1) + ToEnd(s[1..], bits)
  {
    hide Tail;
    var first := if s[0] == '\'' then "''" else [s[0]];
    Assoc(first, Doubled('\'', s[1..]), "'" + Tail(bits, rest));
  }

  lemma Assoc(a: string, b: string, c: string)
    ensures a + b + c == a + (b + c)
  {
  }

  lemma FirstInside(bits: seq<Bit>, rest: string)
    ensures Inside([], bits, rest) == "'" + Tail(bits, rest) && ToEnd([], bits) == 1 + |BitsText(bits)|
  {
  }

  /** A run that is open after a cell. */
  lemma {:induction false} OpenAfterCell(bits: seq<Bit>, rest: string)
    requires GapsOk(bits)
    ensures Leads(Tail(bits, rest), QuotedLen(Tail(bits, rest), '\'', true), |BitsText(bits)|, rest)
    decreases |bits|, 0
  {
    hide QuotedLen, Leads, GapText, GapsOk, Tail, Inside, ToEnd, BitsText, InText;
    if bits == [] {
      OverEnd(rest);
    } else {
      var v, t := Tail(bits, rest), Tail(bits[1..], rest);
      TailSplits(bits, rest);
      GapsRest(bits);
      match bits[0]
      case Gap(text) =>
        PassGap(text, t);
        OpenAfterCell(bits[1..], rest);
        assert v[|text|..] == t;
        LeadsOn(v, t, |text|, QuotedLen(t, '\'', true), |BitsText(bits[1..])|, rest);
      case Cell(s) =>
        OpenAtCell(s, bits[1..], rest);
        CellOpens(s, bits[1..], rest);
    }
  }

  lemma OverEnd(rest: string)
    ensures Leads(Tail([], rest), QuotedLen(Tail([], rest), '\'', true), |BitsText([])|, rest)
  {
  }

  lemma CellOpens(s: string, bits: seq<Bit>, rest: string)
    ensures BitText(Cell(s)) + Tail(bits, rest) == "'" + Inside(s, bits, rest)
    ensures |BitText(Cell(s))| + |BitsText(bits)| == 1 + ToEnd(s, bits)
  {
    hide Tail, Doubled, BitsText;
    var d, t := Doubled('\'', s), Tail(bits, rest);
    Assoc(d, "'", t);
    Regroup("'", d, "'", t);
  }

  /** A run that is open where a cell begins. */
  lemma {:induction false} OpenAtCell(s: string, bits: seq<Bit>, rest: string)
    requires GapsOk(bits)
    ensures var t := "'" + Inside(s, bits, rest);
      Leads(t, QuotedLen(t, '\'', true), 1 + ToEnd(s, bits), rest)
    decreases |bits|, |s| + 1
  {
    hide QuotedLen, Leads, GapsOk, Inside, Tail, ToEnd, BitsText, InText;
    var u := Inside(s, bits, rest);
    var t := "'" + u;
    if s == [] {
      var v := Tail(bits, rest);
      FirstInside(bits, rest);
      assert t == "''" + v && t[2..] == v;
      PassPair(v);
      OpenAfterCell(bits, rest);
      LeadsOn(t, v, 2, QuotedLen(v, '\'', true), |BitsText(bits)|, rest);
    } else {
      InsideSplits(s, bits, rest);
      if s[0] == '\'' {
        var v := "'" + Inside(s[1..], bits, rest);
        assert t == "''" + v && t[2..] == v;
        PassPair(v);
        OpenAtCell(s[1..], bits, rest);
        LeadsOn(t, v, 2, QuotedLen(v, '\'', true), 1 + ToEnd(s[1..], bits), rest);
      } else {
        ClosesAtOnce(u);
        assert t[1..] == u;
        Leading(t, 1, 1 + ToEnd(s, bits), s, bits, rest);
      }
    }
  }

  lemma ClosesAtOnce(u: string)
    requires u != [] && u[0] != '\''
    ensures QuotedLen("'" + u, '\'', true) == 1
  {
  }

  /** The literal of a text whose escapes do not pair up. */
  lemma {:induction false} UnpairedOverruns(s: string, bits: seq<Bit>, rest: string)
    requires GapsOk(bits) && !EscapesPaired('\'', s)
    ensures Leads(Inside(s, bits, rest), QuotedLen(Inside(s, bits, rest), '\'', true), ToEnd(s, bits), rest)
    decreases |s|, 1
  {
    hide QuotedLen, Leads, GapsOk, Inside, Tail, ToEnd, InText, BitsText;
    var t := Inside(s, bits, rest);
    assert s != [];
    InsideSplits(s, bits, rest);
    var u := Inside(s[1..], bits, rest);
    if s[0] == '\\' {
      if |s| == 1 {
        FirstInside(bits, rest);
        assert s[1..] == [];
        var v := Tail(bits, rest);
        assert t == ['\\', '\''] + v && t[2..] == v;
        PassEscape('\'', v);
        OpenAfterCell(bits, rest);
        LeadsOn(t, v, 2, QuotedLen(v, '\'', true), |BitsText(bits)|, rest);
      } else {
        EscapeOverruns(s, bits, rest);
      }
    } else {
      UnpairedOverruns(s[1..], bits, rest);
      if s[0] == '\'' {
        assert t[2..] == u;
        PassPair(u);
        LeadsOn(t, u, 2, QuotedLen(u, '\'', true), ToEnd(s[1..], bits), rest);
      } else {
        assert t[1..] == u;
        PassChar(s[0], u);
        LeadsOn(t, u, 1, QuotedLen(u, '\'', true), ToEnd(s[1..], bits), rest);
      }
    }
  }

  lemma {:induction false} EscapeOverruns(s: string, bits: seq<Bit>, rest: string)
    requires GapsOk(bits) && |s| > 1 && s[0] == '\\' && !EscapesPaired('\'', s)
    ensures Leads(Inside(s, bits, rest), QuotedLen(Inside(s, bits, rest), '\'', true), ToEnd(s, bits), rest)
    decreases |s|, 0
  {
    hide QuotedLen, Leads, GapsOk, Inside, Tail, ToEnd, InText, BitsText;
    var t, r := Inside(s, bits, rest), s[1..];
    InsideSplits(s, bits, rest);
    InsideSplits(r, bits, rest);
    assert r[1..] == s[2..] && r[0] == s[1];
    var u := Inside(s[2..], bits, rest);
    if s[1] == '\'' {
      var v := "'" + u;
      assert t == ['\\', '\''] + v && t[2..] == v;
      PassEscape('\'', v);
      OpenAtCell(s[2..], bits, rest);
      LeadsOn(t, v, 2, QuotedLen(v, '\'', true), 1 + ToEnd(s[2..], bits), rest);
    } else {
      assert t == ['\\', s[1]] + u && t[2..] == u;
      PassEscape(s[1], u);
      UnpairedOverruns(s[2..], bits, rest);
      LeadsOn(t, u, 2, QuotedLen(u, '\'', true), ToEnd(s[2..], bits), rest);
    }
  }

  // ------------------------------ other runs ----------------------------
  // A comment or another quoted run that begins in the text of a cell can only end in the text of a cell.

  predicate MarkAt(s: string, n: nat) {
    n == 0 || (n <= |s| && Marks(s[n - 1])) || (n < |s| && s[n] == '\n')
  }

  lemma {:induction false} InDoubled(s: string, n: nat) returns (r: string)
    requires n <= |Doubled('\'', s)| && MarkAt(Doubled('\'', s), n)
    ensures Doubled('\'', s)[n..] == Doubled('\'', r)
    decreases |s|
  {
    var d := Doubled('\'', s);
    if n == 0 {
      r := s;
      assert d[0..] == d;
    } else {
      var k := if s[0] == '\'' then 2 else 1;
      var e := Doubled('\'', s[1..]);
      assert d[k..] == e;
      assert n >= k && (n > k ==> e[n - k - 1] == d[n - 1]) && (n < |d| ==> e[n - k] == d[n]);
      r := InDoubled(s[1..], n - k);
      assert d[n..] == e[n - k..];
    }
  }

  lemma {:induction false} MarkInText(s: string, bits: seq<Bit>, rest: string, n: nat)
    requires GapsOk(bits) && n <= ToEnd(s, bits) && MarkAt(Inside(s, bits, rest), n)
    ensures Leads(Inside(s, bits, rest), n, ToEnd(s, bits), rest)
    decreases |bits|, 1
  {
    hide Marks, GapsOk, Leads, InText, Tail, BitsText;
    var d, t := Doubled('\'', s), Inside(s, bits, rest);
    var v := Tail(bits, rest);
    if n <= |d| {
      assert n < |d| ==> t[n] == d[n];
      assert t[|d|] == '\'';
      var r := InDoubled(s, n);
      assert t[n..] == d[n..] + ("'" + v);
      Leading(t, n, ToEnd(s, bits), r, bits, rest);
    } else {
      var k := |d| + 1;
      assert t[k..] == v;
      assert n > k ==> t[n - 1] == v[n - k - 1];
      assert n < |t| ==> t[n] == v[n - k];
      assert t[|d|] == '\'' && !Marks('\'') by { QuoteIsNoMark(); }
      MarkInTail(bits, rest, n - k);
      LeadsOn(t, v, k, n - k, |BitsText(bits)|, rest);
    }
  }

  lemma QuoteIsNoMark()
    ensures !Marks('\'') && !Marks(';')
  {
  }

  lemma {:induction false} MarkInTail(bits: seq<Bit>, rest: string, n: nat)
    requires GapsOk(bits) && n <= |BitsText(bits)|
    requires var v := Tail(bits, rest); (n > 0 && Marks(v[n - 1])) || v[n] == '\n'
    ensures Leads(Tail(bits, rest), n, |BitsText(bits)|, rest)
    decreases |bits|, 0, 1
  {
    hide GapsOk, Leads, GapText, Tail, Inside, ToEnd, BitsText, Marks, InText;
    if bits == [] {
      NoMarkAtEnd(rest, n);
    } else {
      TailSplits(bits, rest);
      GapsRest(bits);
      match bits[0]
      case Gap(text) => MarkAfterGap(text, bits[1..], rest, n, bits);
      case Cell(s) => MarkAfterQuote(s, bits[1..], rest, n, bits);
    }
  }

  lemma NoMarkAtEnd(rest: string, n: nat)
    requires n <= |BitsText([])|
    ensures Tail([], rest)[n] != '\n' && n == 0
  {
  }

  lemma {:induction false} MarkAfterGap(text: string, more: seq<Bit>, rest: string, n: nat, bits: seq<Bit>)
    requires GapsOk(more) && GapText(text) && n <= |text| + |BitsText(more)|
    requires bits != [] && more == bits[1..]
    requires var v := text + Tail(more, rest);
      && v == Tail(bits, rest) && |BitsText(bits)| == |text| + |BitsText(more)|
      && ((n > 0 && Marks(v[n - 1])) || v[n] == '\n')
    ensures Leads(Tail(bits, rest), n, |BitsText(bits)|, rest)
    decreases |bits|, 0, 0
  {
    hide GapsOk, Leads, Tail, BitsText, Inside, ToEnd, InText;
    var k, u := |text|, Tail(more, rest);
    var v := text + u;
    assert forall i :: 0 <= i < k ==> v[i] == text[i];
    assert n >= k && (n > k ==> v[n - 1] == u[n - k - 1]) && v[n] == u[n - k];
    assert v[k..] == u;
    MarkInTail(more, rest, n - k);
    LeadsOn(v, u, k, n - k, |BitsText(more)|, rest);
  }

  lemma {:induction false} MarkAfterQuote(s: string, more: seq<Bit>, rest: string, n: nat, bits: seq<Bit>)
    requires GapsOk(more) && bits != [] && more == bits[1..]
    requires var v := BitText(Cell(s)) + Tail(more, rest);
      && v == Tail(bits, rest) && |BitsText(bits)| == |BitText(Cell(s))| + |BitsText(more)|
      && n <= |BitsText(bits)| < |v| && ((n > 0 && Marks(v[n - 1])) || v[n] == '\n')
    ensures Leads(Tail(bits, rest), n, |BitsText(bits)|, rest)
    decreases |bits|, 0, 0
  {
    hide GapsOk, Leads, Tail, BitsText, Inside, ToEnd, InText, BitText;
    CellOpens(s, more, rest);
    var w := Inside(s, more, rest);
    var v := "'" + w;
    QuoteIsNoMark();
    assert v[0] == '\'' && v[1..] == w;
    assert n > 0 && (n > 1 ==> v[n - 1] == w[n - 2]) && v[n] == w[n - 1];
    MarkInText(s, more, rest, n - 1);
    LeadsOn(v, w, 1, n - 1, ToEnd(s, more), rest);
  }

  lemma GapsRest(bits: seq<Bit>)
    requires GapsOk(bits) && bits != []
    ensures GapsOk(bits[1..]) && (bits[0].Gap? ==> GapText(bits[0].text))
  {
    assert bits[0] in bits && forall b | b in bits[1..] :: b in bits;
  }

  // ------------------------------ the mask ------------------------------

  /** Where a token that begins in the text of a cell takes the lexer. */
  lemma TokenLeads(look: Look, s: string, bits: seq<Bit>, rest: string)
    requires GapsOk(bits)
    ensures var t := TokenAt(look, Inside(s, bits, rest), Mysql);
      (t.run || t.len <= ToEnd(s, bits)) && Leads(Inside(s, bits, rest), t.len, ToEnd(s, bits), rest)
  {
    hide QuotedLen, LineLen, BlockLen, Leads, GapsOk, Tail;
    var u := Inside(s, bits, rest);
    var o := OpeningAt(look, u, Mysql);
    if o.Quote? {
      QuoteLeads(s, bits, rest, look);
    } else if o.Line? {
      LineLeads(s, bits, rest, o.mark);
    } else if o.Block? {
      BlockLeads(s, bits, rest);
    } else {
      BareLeads(s, bits, rest, look);
    }
  }

  lemma BareLeads(s: string, bits: seq<Bit>, rest: string, look: Look)
    requires GapsOk(bits) && OpeningAt(look, Inside(s, bits, rest), Mysql) == Bare
    ensures Leads(Inside(s, bits, rest), 1, ToEnd(s, bits), rest)
  {
    hide Leads, GapsOk, Tail;
    var u := Inside(s, bits, rest);
    FirstInside(bits, rest);
    InsideSplits(s, bits, rest);
    assert u[1..] == Inside(s[1..], bits, rest);
    Leading(u, 1, ToEnd(s, bits), s[1..], bits, rest);
  }

  lemma QuoteLeads(s: string, bits: seq<Bit>, rest: string, look: Look)
    requires GapsOk(bits) && OpeningAt(look, Inside(s, bits, rest), Mysql).Quote?
    ensures var u := Inside(s, bits, rest);
      Leads(u, 1 + QuotedLen(u[1..], u[0], OpeningAt(look, u, Mysql).backslash), ToEnd(s, bits), rest)
  {
    hide QuotedLen, Leads, GapsOk, Inside, ToEnd;
    var u := Inside(s, bits, rest);
    EndInside(s, bits, rest);
    if u[0] == '\'' {
      SingleLeads(s, bits, rest);
    } else {
      var q, bs := u[0], OpeningAt(look, u, Mysql).backslash;
      assert q == '"' || q == '`';
      OtherQuoteLeads(s, bits, rest, bs);
    }
  }

  lemma SingleLeads(s: string, bits: seq<Bit>, rest: string)
    requires GapsOk(bits) && Inside(s, bits, rest) != [] && Inside(s, bits, rest)[0] == '\''
    ensures var u := Inside(s, bits, rest); Leads(u, 1 + QuotedLen(u[1..], '\'', true), ToEnd(s, bits), rest)
  {
    hide QuotedLen, Leads, GapsOk, Inside, Tail, ToEnd, BitsText, InText;
    var u := Inside(s, bits, rest);
    if s == [] {
      FirstInside(bits, rest);
      assert u[1..] == Tail(bits, rest);
      OpenAfterCell(bits, rest);
      LeadsOn(u, u[1..], 1, QuotedLen(u[1..], '\'', true), |BitsText(bits)|, rest);
    } else {
      InsideSplits(s, bits, rest);
      var v := "'" + Inside(s[1..], bits, rest);
      assert s[0] == '\'' && u[1..] == v;
      OpenAtCell(s[1..], bits, rest);
      LeadsOn(u, v, 1, QuotedLen(v, '\'', true), 1 + ToEnd(s[1..], bits), rest);
    }
  }

  lemma OtherQuoteLeads(s: string, bits: seq<Bit>, rest: string, backslash: bool)
    requires GapsOk(bits)
    requires var u := Inside(s, bits, rest); u != [] && (u[0] == '"' || u[0] == '`')
    ensures var u := Inside(s, bits, rest); Leads(u, 1 + QuotedLen(u[1..], u[0], backslash), ToEnd(s, bits), rest)
  {
    hide QuotedLen, Leads, GapsOk, Inside, ToEnd, Contained;
    var u := Inside(s, bits, rest);
    var n := QuotedLen(u[1..], u[0], backslash);
    QuotedRunEnds(u[1..], u[0], backslash);
    assert Marks(u[0]);
    assert n > 0 ==> u[1..][n - 1] == u[n];
    OtherRunLeads(s, bits, rest, 1 + n);
  }

  /** A run that reaches the end of the text, or ends at a mark. */
  lemma OtherRunLeads(s: string, bits: seq<Bit>, rest: string, n: nat)
    requires GapsOk(bits)
    requires var u := Inside(s, bits, rest); n <= |u| && (n == |u| || MarkAt(u, n))
    ensures Leads(Inside(s, bits, rest), n, ToEnd(s, bits), rest)
  {
    hide Marks, GapsOk;
    if n <= ToEnd(s, bits) { MarkInText(s, bits, rest, n); }
  }

  lemma LineLeads(s: string, bits: seq<Bit>, rest: string, mark: nat)
    requires GapsOk(bits) && mark <= |Inside(s, bits, rest)|
    ensures var u := Inside(s, bits, rest); Leads(u, mark + LineLen(u[mark..]), ToEnd(s, bits), rest)
  {
    hide LineLen, Leads, GapsOk, Tail;
    var u := Inside(s, bits, rest);
    LineEndsAtNewline(u[mark..]);
    OtherRunLeads(s, bits, rest, mark + LineLen(u[mark..]));
  }

  lemma BlockLeads(s: string, bits: seq<Bit>, rest: string)
    requires GapsOk(bits) && 2 <= |Inside(s, bits, rest)|
    ensures var u := Inside(s, bits, rest); Leads(u, 2 + BlockLen(u[2..], 1, false), ToEnd(s, bits), rest)
  {
    hide BlockLen, Leads, GapsOk, Tail, Find;
    var u := Inside(s, bits, rest);
    var v := u[2..];
    FlatCommentEndsAtClose(v);
    Words.FindFirst(v, "*/");
    var n := 2 + BlockLen(v, 1, false);
    if Find(v, "*/").Some? {
      var p := Find(v, "*/").value;
      assert v[p..p + 2][1] == '/' && u[n - 1] == v[p + 1];
    }
    OtherRunLeads(s, bits, rest, n);
  }

  /** From the text of a cell on, with no literal open, the `;` of the row is masked. */
  lemma {:induction false} EndIsMasked(look: Look, u: string, end: nat, rest: string)
    requires InText(u, end, rest)
    ensures end < |u| && !MaskFrom(look, u, Mysql)[end]
    decreases |u|
  {
    hide TokenAt, AfterAll, MaskFrom, Inside, ToEnd, GapsOk, InText;
    var s, bits := Within(u, end, rest);
    EndInside(s, bits, rest);
    TokenLeads(look, s, bits, rest);
    MaskUnfold(look, u, Mysql);
    var t := TokenAt(look, u, Mysql);
    if t.len <= end {
      EndIsMasked(AfterAll(look, u[..t.len]), u[t.len..], end - t.len, rest);
    }
  }

  lemma Within(u: string, end: nat, rest: string) returns (s: string, bits: seq<Bit>)
    requires InText(u, end, rest)
    ensures GapsOk(bits) && u == Inside(s, bits, rest) && end == ToEnd(s, bits)
  {
    s, bits :| GapsOk(bits) && u == Inside(s, bits, rest) && end == ToEnd(s, bits);
  }

  lemma EndInside(s: string, bits: seq<Bit>, rest: string)
    ensures 0 < ToEnd(s, bits) < |Inside(s, bits, rest)|
  {
  }

  /** From the opening quote of a text whose escapes do not pair up, the `;` of the row is masked. */
  lemma UnpairedMasksEnd(look: Look, s: string, bits: seq<Bit>, rest: string)
    requires GapsOk(bits) && !EscapesPaired('\'', s)
    ensures var u := "'" + Inside(s, bits, rest);
      1 + ToEnd(s, bits) < |u| && !MaskFrom(look, u, Mysql)[1 + ToEnd(s, bits)]
  {
    hide AfterAll, MaskFrom, Inside, ToEnd, GapsOk, InText, QuotedLen;
    var v := Inside(s, bits, rest);
    var u := "'" + v;
    EndInside(s, bits, rest);
    UnpairedOverruns(s, bits, rest);
    LeadsOn(u, v, 1, QuotedLen(v, '\'', true), ToEnd(s, bits), rest);
    assert u[1..] == v;
    MaskUnfold(look, u, Mysql);
    var t := TokenAt(look, u, Mysql);
    assert t == Token(1 + QuotedLen(v, '\'', true), true);
    if t.len <= 1 + ToEnd(s, bits) {
      EndIsMasked(AfterAll(look, u[..t.len]), u[t.len..], 1 + ToEnd(s, bits) - t.len, rest);
    }
  }
}
