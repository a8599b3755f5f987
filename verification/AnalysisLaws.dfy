/** Which changes to a bare text leave every judgement on it alone. */
module AnalysisLaws {
  import opened Text
  import opened Lexer
  import opened Words
  import opened Analysis

  // ------------------------------ more or less space --------------------

  lemma SpacesAreBlank(n: nat)
    ensures AllBlank(Spaces(n))
  {
  }

  lemma PrefixChar(s: string, p: string, i: nat)
    requires HasPrefix(s, p) && i < |p|
    ensures s[i] == p[i]
  {
    assert s[..|p|][i] == s[i];
  }

  lemma PrefixStopsAtGap(u: string, g: string, v: string, w: string)
    requires AllWord(w) && g != [] && !IsWord(Ascii, g[0])
    ensures HasPrefix(Uppercase(u + g + v), w) == HasPrefix(Uppercase(u), w)
  {
    var y := Uppercase(u + g + v);
    assert y[|u|] == Upper(g[0]);
    if |w| <= |u| {
      assert y[..|w|] == Uppercase(u)[..|w|];
    } else if HasPrefix(y, w) {
      PrefixChar(y, w, |u|);
    }
  }

  /** Whether the trimmed text begins with the word `w`, across a gap. */
  lemma HeadAcrossGap(u: string, g: string, v: string, w: string)
    requires AllWord(w) && g != [] && !IsWord(Ascii, g[0]) && AllBlank(g)
    ensures HasPrefix(Head(u + g + v), w)
         == if AllBlank(u) then HasPrefix(Head(v), w) else HasPrefix(Uppercase(TrimStart(u)), w)
  {
    hide TrimStart, Uppercase, IsWord, IsBlank, HasPrefix;
    assert u + g + v == u + (g + v);
    TrimStartConcat(u, g + v);
    TrimStartConcat(g, v);
    if !AllBlank(u) {
      assert TrimStart(u) + (g + v) == TrimStart(u) + g + v;
      PrefixStopsAtGap(TrimStart(u), g, v, w);
    }
  }

  lemma AfterLastEqAppend(s: string, c: char)
    ensures AfterLastEq(s + [c]) == if c == '=' then [] else AfterLastEq(s) + [c]
  {
    assert (s + [c])[..|s|] == s;
  }

  lemma {:induction false} AfterLastEqConcat(u: string, v: string)
    ensures AfterLastEq(u + v) == if '=' in v then AfterLastEq(v) else AfterLastEq(u) + v
    decreases |v|
  {
    hide AfterLastEq;
    if v == [] {
      assert u + v == u;
      assert AfterLastEq(u) + v == AfterLastEq(u);
    } else {
      var w, c := v[..|v| - 1], v[|v| - 1];
      assert v == w + [c] && u + v == u + w + [c];
      AfterLastEqAppend(u + w, c);
      AfterLastEqAppend(w, c);
      AfterLastEqConcat(u, w);
      if '=' !in v { assert AfterLastEq(u) + w + [c] == AfterLastEq(u) + v; }
    }
  }

  predicate Solid(w: string) { w != [] && forall c | c in w :: !IsBlank(c) && c != ' ' }

  /** A text that trims to something without blanks does so whatever the size of its gaps. */
  lemma SolidAcrossGap(a: string, j: nat, k: nat, v: string, w: string)
    requires j > 0 && k > 0 && Solid(w)
    requires Uppercase(Trim(a + Spaces(j) + v)) == w
    ensures Uppercase(Trim(a + Spaces(k) + v)) == w
  {
    hide Trim;
    SpacesAreBlank(j);
    SpacesAreBlank(k);
    if AllBlank(a) {
      TrimBlankPrefix(a + Spaces(j), v);
      TrimBlankPrefix(a + Spaces(k), v);
    } else if AllBlank(v) {
      assert a + Spaces(j) + v == a + (Spaces(j) + v) && a + Spaces(k) + v == a + (Spaces(k) + v);
      TrimBlankSuffix(a, Spaces(j) + v);
      TrimBlankSuffix(a, Spaces(k) + v);
    } else {
      TrimKeepsGap(a, j, v);
    }
  }

  lemma TrimKeepsGap(a: string, j: nat, v: string)
    requires j > 0 && !AllBlank(a) && !AllBlank(v)
    ensures ' ' in Uppercase(Trim(a + Spaces(j) + v))
  {
    var x := a + Spaces(j) + v;
    var lo, hi := TrimSplits(x);
    InnerGap(a, j, v, lo, hi);
    assert x[lo..hi][|a| - lo] == ' ';
    assert Uppercase(Trim(x))[|a| - lo] == ' ';
  }

  lemma InnerGap(a: string, j: nat, v: string, lo: nat, hi: nat)
    requires j > 0 && !AllBlank(a) && !AllBlank(v)
    requires var x := a + Spaces(j) + v; lo <= hi <= |x| && AllBlank(x[..lo]) && AllBlank(x[hi..])
    ensures lo <= |a| < hi
  {
    var x := a + Spaces(j) + v;
    assert forall i :: 0 <= i < |a| ==> x[i] == a[i];
    assert forall i :: 0 <= i < |v| ==> x[|a| + j + i] == v[i];
    assert forall i :: 0 <= i < lo ==> x[i] == x[..lo][i];
    assert forall i :: hi <= i < |x| ==> x[i] == x[hi..][i - hi];
    var p :| 0 <= p < |a| && !IsBlank(a[p]);
    var q :| 0 <= q < |v| && !IsBlank(v[q]);
    assert x[p] == a[p] && x[|a| + j + q] == v[q];
  }

  lemma AutocommitAcrossGap(u: string, j: nat, k: nat, v: string, w: string)
    requires j > 0 && k > 0 && Solid(w)
    requires AssignsLast(u + Spaces(j) + v, w)
    ensures AssignsLast(u + Spaces(k) + v, w)
  {
    AfterLastEqConcat(u + Spaces(j), v);
    AfterLastEqConcat(u + Spaces(k), v);
    AfterLastEqConcat(u, Spaces(j));
    AfterLastEqConcat(u, Spaces(k));
    if '=' !in v {
      SolidAcrossGap(AfterLastEq(u), j, k, v, w);
    }
  }

  predicate SameSwitch(x: string, y: string) {
    forall w | w in {"0", "OFF", "1", "ON"} :: AssignsLast(x, w) == AssignsLast(y, w)
  }

  lemma AutocommitSame(u: string, j: nat, k: nat, v: string)
    requires j > 0 && k > 0
    ensures SameSwitch(u + Spaces(j) + v, u + Spaces(k) + v)
  {
    hide AssignsLast;
    forall w | w in {"0", "OFF", "1", "ON"}
      ensures AssignsLast(u + Spaces(j) + v, w) == AssignsLast(u + Spaces(k) + v, w)
    {
      if AssignsLast(u + Spaces(j) + v, w) { AutocommitAcrossGap(u, j, k, v, w); }
      if AssignsLast(u + Spaces(k) + v, w) { AutocommitAcrossGap(u, k, j, v, w); }
    }
  }

  lemma WordsAlike(u: string, j: nat, k: nat, v: string)
    requires j > 0 && k > 0
    ensures forall a :: WordsOf(a, u + Spaces(j) + v) == WordsOf(a, u + Spaces(k) + v)
  {
    forall a: Alphabet ensures WordsOf(a, u + Spaces(j) + v) == WordsOf(a, u + Spaces(k) + v) {
      WordsAroundSpaces(a, u, j, v);
      WordsAroundSpaces(a, u, k, v);
    }
  }

  lemma GateAlike(x: string, y: string)
    requires forall a :: WordsOf(a, x) == WordsOf(a, y)
    requires forall w | w in {"WITH", "EXPLAIN"} :: HasPrefix(Head(x), w) == HasPrefix(Head(y), w)
    ensures IsReadOnlySafeBare(x) == IsReadOnlySafeBare(y)
  {
    hide WordsOf, IsReadOnlySafeBare;
    GateIsExact(x);
    GateIsExact(y);
    HeadAsciiWords(x);
    HeadAsciiWords(y);
    assert "WITH" in {"WITH", "EXPLAIN"} && "EXPLAIN" in {"WITH", "EXPLAIN"};
    assert WordsOf(Unicode, x) == WordsOf(Unicode, y) && WordsOf(Ascii, x) == WordsOf(Ascii, y);
  }

  lemma HeadAsciiWords(bare: string)
    ensures WordsOf(Ascii, Head(bare)) == UppercaseAll(WordsOf(Ascii, bare))
  {
    TrimStartWords(Ascii, bare);
    WordsUppercase(Ascii, TrimStart(bare));
  }

  /** Nothing the helper asks of a statement depends on how much space stands where a literal was blanked. */
  lemma JudgeAcrossGap(u: string, j: nat, k: nat, v: string, kind: Kind)
    requires j > 0 && k > 0
    ensures Judge(u + Spaces(j) + v, kind) == Judge(u + Spaces(k) + v, kind)
  {
    hide WordsOf, IsReadOnlySafeBare, Head, AssignsLast;
    WordsAlike(u, j, k, v);
    AutocommitSame(u, j, k, v);
    SpacesAreBlank(j);
    SpacesAreBlank(k);
    forall w | w in {"WITH", "EXPLAIN"}
      ensures HasPrefix(Head(u + Spaces(j) + v), w) == HasPrefix(Head(u + Spaces(k) + v), w)
    {
      HeadAcrossGap(u, Spaces(j), v, w);
      HeadAcrossGap(u, Spaces(k), v, w);
    }
    GateAlike(u + Spaces(j) + v, u + Spaces(k) + v);
    TxnAlike(u + Spaces(j) + v, u + Spaces(k) + v, kind);
  }

  lemma TxnAlike(x: string, y: string, kind: Kind)
    requires WordsOf(Unicode, x) == WordsOf(Unicode, y)
    requires SameSwitch(x, y)
    ensures TxnEffectBare(x, kind) == TxnEffectBare(y, kind)
  {
    hide WordsOf, AssignsLast;
    assert "0" in {"0", "OFF", "1", "ON"} && "1" in {"0", "OFF", "1", "ON"};
    assert "OFF" in {"0", "OFF", "1", "ON"} && "ON" in {"0", "OFF", "1", "ON"};
  }
}
