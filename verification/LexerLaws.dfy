/** How the lexer behaves when a text is cut short, continued or entered in the middle. */
module LexerLaws {
  import opened Text
  import opened Lexer

  function Min(a: nat, b: nat): nat { if a < b then a else b }

  /** A character that is no part of a token opened before it. */
  predicate CutChar(c: char) { c != '-' && c != '*' && !IsIdentChar(c) }

  predicate CutAt(w: string) { w == [] || CutChar(w[0]) }

  // ------------------------------ cutting -------------------------------
  // A run that is cut short ends where the text does.

  lemma {:induction false} LineCut(t: string, w: string)
    ensures LineLen(t) == Min(LineLen(t + w), |t|)
  {
    if t != [] {
      assert (t + w)[1..] == t[1..] + w;
      LineCut(t[1..], w);
    }
  }

  lemma {:induction false} QuotedCut(t: string, w: string, q: char, bs: bool)
    ensures QuotedLen(t, q, bs) == Min(QuotedLen(t + w, q, bs), |t|)
    decreases |t|
  {
    var s := t + w;
    if |t| == 1 {
      assert s[0] == t[0] && t[1..] == [];
    } else if |t| > 1 {
      assert s[0] == t[0] && s[1] == t[1];
      if (bs && t[0] == '\\') || (t[0] == q && t[1] == q) {
        assert s[2..] == t[2..] + w;
        QuotedCut(t[2..], w, q, bs);
      } else if t[0] != q {
        assert s[1..] == t[1..] + w;
        QuotedCut(t[1..], w, q, bs);
      }
    }
  }

  lemma BlockStep(s: string, depth: nat, nests: bool)
    requires |s| > 1
    ensures BlockLen(s, depth, nests) ==
      if s[0] == '/' && s[1] == '*' && (depth == 0 || nests) then 2 + BlockLen(s[2..], depth + 1, nests)
      else if s[0] == '*' && s[1] == '/' then (if depth <= 1 then 2 else 2 + BlockLen(s[2..], depth - 1, nests))
      else 1 + BlockLen(s[1..], depth, nests)
  {
  }

  lemma {:induction false} BlockCut(t: string, w: string, depth: nat, nests: bool)
    ensures BlockLen(t, depth, nests) == Min(BlockLen(t + w, depth, nests), |t|)
    decreases |t|
  {
    var s := t + w;
    if |t| > 1 {
      hide BlockLen;
      BlockStep(t, depth, nests);
      BlockStep(s, depth, nests);
      SliceConcat(t, w, 1);
      SliceConcat(t, w, 2);
      if t[0] == '/' && t[1] == '*' && (depth == 0 || nests) {
        BlockCut(t[2..], w, depth + 1, nests);
      } else if t[0] == '*' && t[1] == '/' {
        if depth > 1 { BlockCut(t[2..], w, depth - 1, nests); }
      } else {
        BlockCut(t[1..], w, depth, nests);
      }
    }
  }

  lemma {:induction false} BracketCut(t: string, w: string)
    ensures BracketLen(t) == Min(BracketLen(t + w), |t|)
  {
    if t != [] {
      assert (t + w)[1..] == t[1..] + w;
      BracketCut(t[1..], w);
    }
  }

  lemma {:induction false} TagCut(t: string, w: string, first: bool)
    requires CutAt(w)
    ensures TagLen(t, first) == TagLen(t + w, first)
  {
    if t != [] {
      assert (t + w)[1..] == t[1..] + w;
      TagCut(t[1..], w, false);
    } else {
      assert t + w == w;
    }
  }

  lemma {:induction false} FindCut(t: string, w: string, tag: string)
    requires tag != []
    ensures Find(t, tag) == match Find(t + w, tag)
      case None => None
      case Some(p) => if p + |tag| <= |t| then Some(p) else None
  {
    if |tag| <= |t| {
      assert (t + w)[..|tag|] == t[..|tag|];
      assert (t + w)[1..] == t[1..] + w;
      FindCut(t[1..], w, tag);
    }
  }

  lemma DollarCut(look: Look, t: string, w: string)
    requires t != [] && CutAt(w)
    ensures DollarRun(look, t) == Min(DollarRun(look, t + w), |t|)
  {
    assert (t + w)[1..] == t[1..] + w;
    TagCut(t[1..], w, true);
    if !look.ident {
      var j := 1 + TagLen(t[1..], true);
      if j < |t| && t[j] == '$' {
        assert (t + w)[j + 1..] == t[j + 1..] + w;
        assert (t + w)[..j + 1] == t[..j + 1];
        FindCut(t[j + 1..], w, t[..j + 1]);
      }
    }
  }

  /** A MySQL `--` at the end of a text is a comment there, but not when the text goes on
      without whitespace. */
  predicate DashTail(t: string, kind: Kind) {
    kind == Mysql && |t| >= 2 && t[|t| - 2] == '-' && t[|t| - 1] == '-'
  }

  /** `m` is the mask of `t` as far as `n` goes, but for such a `--`. */
  predicate MaskAgrees(m: seq<bool>, n: seq<bool>, t: string, kind: Kind)
    requires |m| == |t| <= |n|
  {
    forall k :: 0 <= k < |t| && (DashTail(t, kind) ==> k < |t| - 2) ==> m[k] == n[k]
  }

  lemma OpeningCut(look: Look, t: string, w: string, kind: Kind)
    requires t != [] && CutAt(w)
    ensures var a, b := OpeningAt(look, t, kind), OpeningAt(look, t + w, kind);
      a == b || (|t| == 2 && DashTail(t, kind) && a == Line(2) && b == Bare)
  {
  }

  lemma RunCut(look: Look, t: string, w: string, o: Opening, kind: Kind)
    requires Fits(o, t) && CutAt(w)
    ensures RunLen(look, t, o, kind) == Min(RunLen(look, t + w, o, kind), |t|)
  {
    hide LineLen, QuotedLen, BlockLen, BracketLen, DollarRun;
    match o
    case Bare =>
    case Line(mark) =>
      SliceConcat(t, w, mark);
      LineCut(t[mark..], w);
    case Block =>
      SliceConcat(t, w, 2);
      BlockCut(t[2..], w, 1, kind == Postgres);
    case Quote(backslash) =>
      SliceConcat(t, w, 1);
      QuotedCut(t[1..], w, t[0], backslash);
    case Bracket =>
      SliceConcat(t, w, 1);
      BracketCut(t[1..], w);
    case Dollar => DollarCut(look, t, w);
  }

  lemma TokenCut(look: Look, t: string, w: string, kind: Kind)
    requires t != [] && CutAt(w)
    ensures var a, b := TokenAt(look, t, kind), TokenAt(look, t + w, kind);
      || (a.run == b.run && a.len == Min(b.len, |t|))
      || (|t| == 2 && DashTail(t, kind) && a == Token(2, true) && b == Token(1, false))
  {
    hide LineLen;
    OpeningCut(look, t, w, kind);
    RunCut(look, t, w, OpeningAt(look, t, kind), kind);
  }

  lemma MaskUnfold(look: Look, s: string, kind: Kind)
    requires s != []
    ensures var t := TokenAt(look, s, kind);
      MaskFrom(look, s, kind) == Flags(t.len, !t.run) + MaskFrom(AfterAll(look, s[..t.len]), s[t.len..], kind)
  {
    hide TokenAt, AfterAll;
  }

  lemma AgreeOn(m: seq<bool>, n: seq<bool>, u: string, f: seq<bool>, t: string, kind: Kind)
    requires |m| == |u| <= |n| && MaskAgrees(m, n, u, kind) && |t| == |f| + |u| && t[|f|..] == u
    ensures MaskAgrees(f + m, f + n, t, kind)
  {
    assert |u| >= 2 ==> u[|u| - 2] == t[|t| - 2] && u[|u| - 1] == t[|t| - 1];
  }

  lemma AgreeRun(k: nat, v: bool, n: seq<bool>, t: string, kind: Kind)
    requires |t| <= k
    ensures MaskAgrees(Flags(|t|, v), Flags(k, v) + n, t, kind)
  {
  }

  /** Cutting a text keeps its mask, except on a MySQL `--` that the cut leaves last. */
  lemma {:induction false} MaskCut(look: Look, t: string, w: string, kind: Kind)
    requires CutAt(w)
    ensures MaskAgrees(MaskFrom(look, t, kind), MaskFrom(look, t + w, kind), t, kind)
    decreases |t|
  {
    if t != [] {
      hide TokenAt, AfterAll, MaskFrom, MaskAgrees;
      TokenCut(look, t, w, kind);
      MaskUnfold(look, t, kind);
      MaskUnfold(look, t + w, kind);
      var a, b := TokenAt(look, t, kind), TokenAt(look, t + w, kind);
      SliceConcat(t, w, a.len);
      var u, look' := t[a.len..], AfterAll(look, t[..a.len]);
      if a == b {
        MaskCut(look', u, w, kind);
        AgreeOn(MaskFrom(look', u, kind), MaskFrom(look', u + w, kind), u, Flags(a.len, !a.run), t, kind);
      } else if a.run == b.run {
        assert u == [] && MaskFrom(look, t, kind) == Flags(|t|, !b.run) by { NoMask(AfterAll(look, t[..a.len]), kind); }
        AgreeRun(b.len, !b.run, MaskFrom(AfterAll(look, (t + w)[..b.len]), (t + w)[b.len..], kind), t, kind);
      } else {
        TwoDashes(MaskFrom(look, t, kind), MaskFrom(look, t + w, kind), t, kind);
      }
    }
  }

  lemma NoMask(look: Look, kind: Kind)
    ensures MaskFrom(look, [], kind) == []
  {
  }

  lemma TwoDashes(m: seq<bool>, n: seq<bool>, t: string, kind: Kind)
    requires |t| == 2 && DashTail(t, kind) && |m| == |t| <= |n|
    ensures MaskAgrees(m, n, t, kind)
  {
  }

  // ------------------------------ continuing ----------------------------
  // A run that ends within `t` ends there whatever follows, as long as the next character stays.

  predicate SameNext(w1: string, w2: string) { w1 != [] && w2 != [] && w1[0] == w2[0] && CutChar(w1[0]) }

  lemma {:induction false} LineAgree(t: string, w1: string, w2: string)
    requires SameNext(w1, w2) && LineLen(t + w1) <= |t|
    ensures LineLen(t + w2) == LineLen(t + w1)
  {
    if t != [] {
      assert (t + w1)[1..] == t[1..] + w1 && (t + w2)[1..] == t[1..] + w2;
      if t[0] != '\n' { LineAgree(t[1..], w1, w2); }
    }
    assert t == [] ==> t + w1 == w1 && t + w2 == w2;
  }

  lemma {:induction false} QuotedAgree(t: string, w1: string, w2: string, q: char, bs: bool)
    requires SameNext(w1, w2) && QuotedLen(t + w1, q, bs) <= |t|
    ensures QuotedLen(t + w2, q, bs) == QuotedLen(t + w1, q, bs)
    decreases |t|
  {
    var s1, s2 := t + w1, t + w2;
    assert t == [] ==> s1 == w1;
    if t != [] {
      assert s1[0] == s2[0] == t[0];
      assert |t| > 1 ==> s1[1] == s2[1] == t[1];
      assert |t| == 1 ==> s1[1] == s2[1] == w1[0];
      if |t| > 1 && ((bs && t[0] == '\\') || (t[0] == q && t[1] == q)) {
        assert s1[2..] == t[2..] + w1 && s2[2..] == t[2..] + w2;
        QuotedAgree(t[2..], w1, w2, q, bs);
      } else if t[0] != q && !(bs && t[0] == '\\') {
        assert s1[1..] == t[1..] + w1 && s2[1..] == t[1..] + w2;
        QuotedAgree(t[1..], w1, w2, q, bs);
      }
    }
  }

  lemma {:induction false} BlockAgree(t: string, w1: string, w2: string, depth: nat, nests: bool)
    requires SameNext(w1, w2) && BlockLen(t + w1, depth, nests) <= |t|
    ensures BlockLen(t + w2, depth, nests) == BlockLen(t + w1, depth, nests)
    decreases |t|
  {
    assert t == [] ==> t + w1 == w1;
    if |t| > 1 {
      hide BlockLen;
      BlockStep(t + w1, depth, nests);
      BlockStep(t + w2, depth, nests);
      SliceConcat(t, w1, 1);
      SliceConcat(t, w2, 1);
      SliceConcat(t, w1, 2);
      SliceConcat(t, w2, 2);
      if t[0] == '/' && t[1] == '*' && (depth == 0 || nests) {
        BlockAgree(t[2..], w1, w2, depth + 1, nests);
      } else if t[0] == '*' && t[1] == '/' {
        if depth > 1 { BlockAgree(t[2..], w1, w2, depth - 1, nests); }
      } else {
        BlockAgree(t[1..], w1, w2, depth, nests);
      }
    }
  }

  lemma {:induction false} BracketAgree(t: string, w1: string, w2: string)
    requires SameNext(w1, w2) && BracketLen(t + w1) <= |t|
    ensures BracketLen(t + w2) == BracketLen(t + w1)
  {
    if t != [] {
      assert (t + w1)[1..] == t[1..] + w1 && (t + w2)[1..] == t[1..] + w2;
      if t[0] != ']' { BracketAgree(t[1..], w1, w2); }
    }
    assert t == [] ==> t + w1 == w1;
  }

  lemma DollarAgree(look: Look, t: string, w1: string, w2: string)
    requires t != [] && SameNext(w1, w2) && DollarRun(look, t + w1) <= |t|
    ensures DollarRun(look, t + w2) == DollarRun(look, t + w1)
  {
    hide Find, TagLen;
    SliceConcat(t, w1, 1);
    SliceConcat(t, w2, 1);
    TagCut(t[1..], w1, true);
    TagCut(t[1..], w2, true);
    if !look.ident {
      var j := 1 + TagLen(t[1..], true);
      assert w1[0] != '$';
      if j < |t| && t[j] == '$' {
        var tag, u := t[..j + 1], t[j + 1..];
        SliceConcat(t, w1, j + 1);
        SliceConcat(t, w2, j + 1);
        FindCut(u, w1, tag);
        FindAgree(u, w1, w2, tag);
      }
    }
  }

  lemma {:induction false} FindAgree(t: string, w1: string, w2: string, tag: string)
    requires tag != [] && Find(t + w1, tag).Some? && Find(t + w1, tag).value + |tag| <= |t|
    ensures Find(t + w2, tag) == Find(t + w1, tag)
  {
    assert (t + w1)[..|tag|] == t[..|tag|] == (t + w2)[..|tag|];
    if t[..|tag|] != tag {
      assert (t + w1)[1..] == t[1..] + w1 && (t + w2)[1..] == t[1..] + w2;
      FindAgree(t[1..], w1, w2, tag);
    }
  }

  lemma RunAgree(look: Look, t: string, w1: string, w2: string, o: Opening, kind: Kind)
    requires Fits(o, t) && SameNext(w1, w2) && RunLen(look, t + w1, o, kind) <= |t|
    ensures RunLen(look, t + w2, o, kind) == RunLen(look, t + w1, o, kind)
  {
    hide LineLen, QuotedLen, BlockLen, BracketLen, DollarRun;
    var n := match o case Line(mark) => mark case Block => 2 case _ => 1;
    SliceConcat(t, w1, n);
    SliceConcat(t, w2, n);
    match o
    case Bare =>
    case Line(mark) => LineAgree(t[mark..], w1, w2);
    case Block => BlockAgree(t[2..], w1, w2, 1, kind == Postgres);
    case Quote(backslash) => QuotedAgree(t[1..], w1, w2, t[0], backslash);
    case Bracket => BracketAgree(t[1..], w1, w2);
    case Dollar => DollarAgree(look, t, w1, w2);
  }

  lemma OpeningAgree(look: Look, t: string, w1: string, w2: string, kind: Kind)
    requires t != [] && SameNext(w1, w2)
    ensures OpeningAt(look, t + w2, kind) == OpeningAt(look, t + w1, kind)
    ensures TokenAt(look, t + w1, kind).len <= |t| ==> Fits(OpeningAt(look, t + w1, kind), t)
  {
  }

  lemma TokenAgree(look: Look, t: string, w1: string, w2: string, kind: Kind)
    requires t != [] && SameNext(w1, w2) && TokenAt(look, t + w1, kind).len <= |t|
    ensures TokenAt(look, t + w2, kind) == TokenAt(look, t + w1, kind)
  {
    hide OpeningAt, RunLen;
    OpeningAgree(look, t, w1, w2, kind);
    RunAgree(look, t, w1, w2, OpeningAt(look, t + w1, kind), kind);
  }

  // ------------------------------ entering ------------------------------

  /** Some token boundary of `s` is at offset `m`. */
  predicate Reaches(look: Look, s: string, m: nat, kind: Kind)
    requires m <= |s|
    decreases |s|
  {
    m == 0 ||
    var t := TokenAt(look, s, kind);
    t.len <= m && Reaches(AfterAll(look, s[..t.len]), s[t.len..], m - t.len, kind)
  }

  lemma ReachesUnfold(look: Look, s: string, m: nat, kind: Kind)
    requires 0 < m <= |s|
    ensures var t := TokenAt(look, s, kind);
      Reaches(look, s, m, kind) <==> t.len <= m && Reaches(AfterAll(look, s[..t.len]), s[t.len..], m - t.len, kind)
  {
    hide TokenAt, AfterAll;
  }

  lemma ReachesStart(look: Look, s: string, kind: Kind)
    ensures Reaches(look, s, 0, kind)
  {
  }

  lemma TakeOn<T>(f: seq<T>, m: seq<T>, n: seq<T>, k: nat)
    requires k <= |m| && k <= |n| && m[..k] == n[..k]
    ensures (f + m)[..|f| + k] == (f + n)[..|f| + k]
  {
    assert (f + m)[..|f| + k] == f + m[..k] && (f + n)[..|f| + k] == f + n[..k];
  }

  lemma CutTwice<T>(s: seq<T>, n: nat, m: nat)
    requires n <= m <= |s|
    ensures s[..n] + s[n..][..m - n] == s[..m] && s[n..][m - n..] == s[m..]
  {
  }

  lemma {:induction false} AfterAllConcat(look: Look, a: string, b: string)
    ensures AfterAll(look, a + b) == AfterAll(AfterAll(look, a), b)
    decreases |a|
  {
    if a == [] {
      assert a + b == b;
    } else {
      assert (a + b)[1..] == a[1..] + b;
      AfterAllConcat(After(look, a[0]), a[1..], b);
    }
  }

  lemma DropDrop<T>(a: seq<T>, b: seq<T>, m: nat)
    requires |a| <= m <= |a| + |b|
    ensures (a + b)[m..] == b[m - |a|..]
  {
  }

  lemma AfterNothing(look: Look)
    ensures AfterAll(look, []) == look
  {
  }

  /** From a boundary on, the lexer starts afresh. */
  lemma {:induction false} MaskSplit(look: Look, s: string, m: nat, kind: Kind)
    requires m <= |s| && Reaches(look, s, m, kind)
    ensures MaskFrom(look, s, kind)[m..] == MaskFrom(AfterAll(look, s[..m]), s[m..], kind)
    decreases |s|
  {
    hide TokenAt, AfterAll, MaskFrom, Reaches;
    if m > 0 {
      ReachesUnfold(look, s, m, kind);
      MaskUnfold(look, s, kind);
      var t := TokenAt(look, s, kind);
      var look', s' := AfterAll(look, s[..t.len]), s[t.len..];
      MaskSplit(look', s', m - t.len, kind);
      CutTwice(s, t.len, m);
      AfterAllConcat(look, s[..t.len], s'[..m - t.len]);
      DropDrop(Flags(t.len, !t.run), MaskFrom(look', s', kind), m);
    } else {
      assert s[..0] == [] && s[0..] == s;
      AfterNothing(look);
    }
  }

  /** A bare character is a token of its own. */
  lemma {:induction false} CodeReaches(look: Look, s: string, m: nat, kind: Kind)
    requires m < |s| && MaskFrom(look, s, kind)[m]
    ensures Reaches(look, s, m, kind) && Reaches(look, s, m + 1, kind)
    decreases |s|
  {
    hide TokenAt, AfterAll;
    var t := TokenAt(look, s, kind);
    if t.len <= m {
      CodeReaches(AfterAll(look, s[..t.len]), s[t.len..], m - t.len, kind);
    }
  }

  lemma {:induction false} ReachesOn(look: Look, s: string, m: nat, n: nat, kind: Kind)
    requires m + n <= |s| && Reaches(look, s, m, kind)
    requires Reaches(AfterAll(look, s[..m]), s[m..], n, kind)
    ensures Reaches(look, s, m + n, kind)
    decreases |s|
  {
    hide TokenAt, AfterAll;
    if m > 0 {
      var t := TokenAt(look, s, kind);
      var look', s' := AfterAll(look, s[..t.len]), s[t.len..];
      CutTwice(s, t.len, m);
      AfterAllConcat(look, s[..t.len], s'[..m - t.len]);
      ReachesOn(look', s', m - t.len, n, kind);
    } else {
      assert s[..0] == [] && s[0..] == s;
      AfterNothing(look);
    }
  }

  /** Boundaries passed on the way stay boundaries seen from each other. */
  lemma {:induction false} ReachesFrom(look: Look, s: string, m: nat, n: nat, kind: Kind)
    requires m + n <= |s| && Reaches(look, s, m, kind) && Reaches(look, s, m + n, kind)
    ensures Reaches(AfterAll(look, s[..m]), s[m..], n, kind)
    decreases |s|
  {
    hide TokenAt, AfterAll;
    if m > 0 {
      var t := TokenAt(look, s, kind);
      var look', s' := AfterAll(look, s[..t.len]), s[t.len..];
      CutTwice(s, t.len, m);
      AfterAllConcat(look, s[..t.len], s'[..m - t.len]);
      ReachesFrom(look', s', m - t.len, n, kind);
    } else {
      assert s[..0] == [] && s[0..] == s;
      AfterNothing(look);
    }
  }

  /** A boundary does not depend on what follows the character after it, nor does the mask before it. */
  lemma {:induction false} ReachAgree(look: Look, t: string, w1: string, w2: string, kind: Kind)
    requires SameNext(w1, w2) && Reaches(look, t + w1, |t|, kind)
    ensures Reaches(look, t + w2, |t|, kind)
    ensures MaskFrom(look, t + w2, kind)[..|t|] == MaskFrom(look, t + w1, kind)[..|t|]
    decreases |t|
  {
    hide TokenAt, AfterAll, MaskFrom, Reaches;
    if t == [] {
      ReachesStart(look, t + w2, kind);
    } else {
      ReachesUnfold(look, t + w1, |t|, kind);
      ReachesUnfold(look, t + w2, |t|, kind);
      MaskUnfold(look, t + w1, kind);
      MaskUnfold(look, t + w2, kind);
      TokenAgree(look, t, w1, w2, kind);
      var n := TokenAt(look, t + w1, kind).len;
      SliceConcat(t, w1, n);
      SliceConcat(t, w2, n);
      var look', u := AfterAll(look, t[..n]), t[n..];
      ReachAgree(look', u, w1, w2, kind);
      TakeOn(Flags(n, !TokenAt(look, t + w1, kind).run), MaskFrom(look', u + w1, kind),
        MaskFrom(look', u + w2, kind), |u|);
    }
  }
}
