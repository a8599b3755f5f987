/** Splitting a script into statements. */
module Split {
  import opened Text
  import opened Lexer
  import opened LexerLaws

  /** A statement is a trimmed, non-empty stretch. */
  function Piece(s: string): seq<string> { if Trim(s) == [] then [] else [Trim(s)] }

  predicate IsSep(s: string, m: seq<bool>, k: nat)
    requires |s| == |m| && k < |s|
  {
    s[k] == ';' && m[k]
  }

  /** The first bare `;`, or the length of the text. */
  function FirstSep(s: string, m: seq<bool>): (k: nat)
    requires |s| == |m|
    ensures k <= |s| && (k < |s| ==> IsSep(s, m, k))
    ensures forall j :: 0 <= j < k ==> !IsSep(s, m, j)
  {
    if s == [] then 0 else if IsSep(s, m, 0) then 0
    else
      assert forall j :: 0 < j < |s| ==> IsSep(s, m, j) == IsSep(s[1..], m[1..], j - 1);
      1 + FirstSep(s[1..], m[1..])
  }

  function SplitMasked(s: string, m: seq<bool>): seq<string>
    requires |s| == |m|
    decreases |s|
  {
    var k := FirstSep(s, m);
    if k == |s| then Piece(s) else Piece(s[..k]) + SplitMasked(s[k + 1..], m[k + 1..])
  }

  /** `split_statements`. */
  function SplitStatements(s: string, kind: Kind): seq<string> { SplitMasked(s, Mask(s, kind)) }

  method PushTrimmed(out: seq<string>, s: string) returns (r: seq<string>)
    ensures r == out + Piece(s)
  {
    var t := Trim(s);
    r := if t == [] then out else out + [t];
  }

  /** The loop of `split_statements`. */
  method SplitLoop(sql: string, kind: Kind) returns (out: seq<string>)
    ensures out == SplitStatements(sql, kind)
  {
    hide Mask, Piece, SplitMasked, FirstSep;
    var mask := CodeMask(sql, kind);
    ghost var m := Mask(sql, kind);
    out := [];
    var start := 0;
    for i := 0 to |sql|
      invariant 0 <= start <= i
      invariant mask[..] == m && |m| == |sql|
      invariant forall j :: start <= j < i ==> !IsSep(sql, m, j)
      invariant SplitMasked(sql, m) == out + SplitMasked(sql[start..], m[start..])
    {
      assert mask[i] == m[i];
      if sql[i] == ';' && mask[i] {
        FirstSepIs(sql, m, start, i);
        out := PushTrimmed(out, sql[start..i]);
        start := i + 1;
      }
    }
    FirstSepIs(sql, m, start, |sql|);
    out := PushTrimmed(out, sql[start..]);
  }

  lemma FirstSepIs(s: string, m: seq<bool>, start: nat, i: nat)
    requires |s| == |m| && start <= i <= |s|
    requires forall j :: start <= j < i ==> !IsSep(s, m, j)
    requires i < |s| ==> IsSep(s, m, i)
    ensures i < |s| ==> SplitMasked(s[start..], m[start..]) == Piece(s[start..i]) + SplitMasked(s[i + 1..], m[i + 1..])
    ensures i == |s| ==> SplitMasked(s[start..], m[start..]) == Piece(s[start..])
  {
    hide Piece;
    var u, n := s[start..], m[start..];
    assert forall j :: 0 <= j < |u| ==> IsSep(u, n, j) == IsSep(s, m, start + j);
    var k := FirstSep(u, n);
    assert i < |s| ==> IsSep(u, n, i - start);
    assert k < |u| ==> IsSep(s, m, start + k);
    if i < |s| {
      assert u[..k] == s[start..i] && u[k + 1..] == s[i + 1..] && n[k + 1..] == m[i + 1..];
    }
  }

  // ------------------------------ homomorphism --------------------------

  lemma {:induction false} SplitConcat(a: string, ma: seq<bool>, b: string, mb: seq<bool>)
    requires |a| == |ma| && |b| == |mb|
    ensures SplitMasked(a + ";" + b, ma + [true] + mb) == SplitMasked(a, ma) + SplitMasked(b, mb)
    decreases |a|
  {
    hide Piece;
    var s, m := a + ";" + b, ma + [true] + mb;
    assert forall j :: 0 <= j < |a| ==> IsSep(s, m, j) == IsSep(a, ma, j);
    assert IsSep(s, m, |a|);
    var k := FirstSep(a, ma);
    assert FirstSep(s, m) == k;
    assert s[..k] == a[..k];
    if k == |a| {
      assert a[..k] == a && s[k + 1..] == b && m[k + 1..] == mb;
    } else {
      assert s[k + 1..] == a[k + 1..] + ";" + b && m[k + 1..] == ma[k + 1..] + [true] + mb;
      SplitConcat(a[k + 1..], ma[k + 1..], b, mb);
    }
  }

  /** Only the flags of semicolons matter. */
  lemma {:induction false} SplitSame(s: string, m: seq<bool>, n: seq<bool>)
    requires |s| == |m| == |n|
    requires forall k :: 0 <= k < |s| && s[k] == ';' ==> m[k] == n[k]
    ensures SplitMasked(s, m) == SplitMasked(s, n)
    decreases |s|
  {
    hide Piece;
    assert forall k :: 0 <= k < |s| ==> IsSep(s, m, k) == IsSep(s, n, k);
    var k := FirstSep(s, m);
    assert k == FirstSep(s, n);
    if k < |s| {
      SplitSame(s[k + 1..], m[k + 1..], n[k + 1..]);
    }
  }

  /** After a bare `;` lexing restarts. */
  lemma MaskRestart(a: string, b: string, kind: Kind)
    requires Mask(a + ";" + b, kind)[|a|]
    ensures Mask(a + ";" + b, kind)[|a| + 1..] == Mask(b, kind)
  {
    hide TokenAt;
    var s := a + ";" + b;
    CodeReaches(START, s, |a|, kind);
    MaskSplit(START, s, |a| + 1, kind);
    assert s[..|a| + 1] == a + ";" && s[|a| + 1..] == b;
    AfterAllConcat(START, a, ";");
  }

  /** Splitting is a homomorphism at every bare `;`. */
  lemma SplitHomomorphism(a: string, b: string, kind: Kind)
    requires Mask(a + ";" + b, kind)[|a|]
    ensures SplitStatements(a + ";" + b, kind) == SplitStatements(a, kind) + SplitStatements(b, kind)
  {
    hide MaskFrom, SplitMasked;
    var s, m := a + ";" + b, Mask(a + ";" + b, kind);
    MaskRestart(a, b, kind);
    assert s == a + (";" + b);
    MaskCut(START, a, ";" + b, kind);
    assert m == m[..|a|] + [true] + Mask(b, kind);
    SplitConcat(a, m[..|a|], b, Mask(b, kind));
    SplitSame(a, m[..|a|], Mask(a, kind));
  }

  // ------------------------------ pieces --------------------------------

  lemma BlankFirst(look: Look, s: string, kind: Kind)
    requires s != [] && IsBlank(s[0])
    ensures TokenAt(look, s, kind) == Token(1, false) && AfterAll(look, s[..1]) == START
  {
    hide RunLen;
    assert OpeningAt(look, s, kind) == Bare;
    assert RunLen(look, s, Bare, kind) == 1 by { BareIsOne(look, s, kind); }
    assert s[..1][1..] == [] && After(look, s[0]) == START;
  }

  lemma BareIsOne(look: Look, s: string, kind: Kind)
    requires s != []
    ensures RunLen(look, s, Bare, kind) == 1
  {
  }

  lemma {:induction false} BlankReaches(look: Look, s: string, n: nat, kind: Kind)
    requires n <= |s| && AllBlank(s[..n])
    ensures Reaches(look, s, n, kind)
    ensures n > 0 ==> AfterAll(look, s[..n]) == START
    decreases n
  {
    hide TokenAt, Reaches, AfterAll, IsBlank;
    if n == 0 {
      ReachesStart(look, s, kind);
    } else {
      assert s[0] == s[..n][0] && s[0] in s[..n];
      BlankFirst(look, s, kind);
      ReachesUnfold(look, s, n, kind);
      var rest := s[1..];
      assert forall c | c in rest[..n - 1] :: c in s[..n] by { assert rest[..n - 1] == s[..n][1..]; }
      BlankReaches(START, rest, n - 1, kind);
      CutTwice(s, 1, n);
      AfterAllConcat(look, s[..1], rest[..n - 1]);
      if n == 1 {
        assert rest[..0] == [];
        AfterNothing(START);
      }
    }
  }

  lemma BlankCuts(b: string, w: string)
    requires AllBlank(b) && CutAt(w)
    ensures CutAt(b + w)
  {
    assert b == [] ==> b + w == w;
    assert b != [] ==> (b + w)[0] == b[0] && b[0] in b;
  }

  /** A stretch between bare semicolons has, once trimmed, the mask it had in the text, but for a
      MySQL `--` left at its end. */
  lemma ChunkMask(c: string, w: string, kind: Kind) returns (lo: nat)
    requires w == [] || w[0] == ';'
    ensures lo + |Trim(c)| <= |c| && c[lo..lo + |Trim(c)|] == Trim(c)
    ensures MaskAgrees(Mask(Trim(c), kind), Mask(c + w, kind)[lo..], Trim(c), kind)
  {
    hide TokenAt, MaskFrom, Trim, AfterAll, Reaches, IsBlank;
    var l, hi := TrimSplits(c);
    lo := l;
    var t, s := c[lo..hi], c + w;
    assert s[..lo] == c[..lo];
    BlankReaches(START, s, lo, kind);
    MaskSplit(START, s, lo, kind);
    assert AfterAll(START, s[..lo]) == START by {
      AfterNothing(START);
      assert lo == 0 ==> s[..lo] == [];
    }
    var rest := c[hi..] + w;
    assert c == c[..lo] + t + c[hi..];
    assert s[lo..] == t + rest;
    BlankCuts(c[hi..], w);
    MaskCut(START, t, rest, kind);
  }

  /** A trimmed text without a bare `;` is one statement. */
  lemma OneStatement(t: string, kind: Kind)
    requires t != [] && Trim(t) == t
    requires forall k :: 0 <= k < |t| ==> !IsSep(t, Mask(t, kind), k)
    ensures SplitStatements(t, kind) == [t]
  {
    hide Mask;
    assert FirstSep(t, Mask(t, kind)) == |t|;
  }

  lemma UnfoldMasked(s: string, m: seq<bool>)
    requires |s| == |m|
    ensures var k := FirstSep(s, m);
      SplitMasked(s, m) == Piece(s[..k]) + (if k < |s| then SplitMasked(s[k + 1..], m[k + 1..]) else [])
  {
    hide Piece, FirstSep;
    var k := FirstSep(s, m);
    assert k == |s| ==> s[..k] == s;
  }

  lemma AroundSep(s: string, k: nat)
    requires k < |s| && s[k] == ';'
    ensures s == s[..k] + ";" + s[k + 1..]
  {
  }

  lemma SplitUnfold(p: string, kind: Kind)
    ensures var k := FirstSep(p, Mask(p, kind));
      SplitStatements(p, kind) == Piece(p[..k]) + (if k < |p| then SplitStatements(p[k + 1..], kind) else [])
  {
    hide Mask, Piece, FirstSep, SplitMasked;
    UnfoldMasked(p, Mask(p, kind));
    var k := FirstSep(p, Mask(p, kind));
    if k < |p| {
      AfterSep(p, k, kind);
    }
  }

  lemma AfterSep(p: string, k: nat, kind: Kind)
    requires k < |p| && IsSep(p, Mask(p, kind), k)
    ensures Mask(p, kind)[k + 1..] == Mask(p[k + 1..], kind)
  {
    hide Mask;
    AroundSep(p, k);
    MaskRestart(p[..k], p[k + 1..], kind);
  }

  /** The statement that ends at the first bare `;`. */
  lemma FirstInPlace(p: string, kind: Kind) returns (o: nat)
    requires var k := FirstSep(p, Mask(p, kind)); Trim(p[..k]) != []
    ensures var e := Trim(p[..FirstSep(p, Mask(p, kind))]);
      && o + |e| <= |p| && p[o..o + |e|] == e
      && MaskAgrees(Mask(e, kind), Mask(p, kind)[o..], e, kind)
      && SplitStatements(e, kind) == [e]
  {
    hide Mask, SplitStatements, Trim;
    var m := Mask(p, kind);
    var k := FirstSep(p, m);
    var c := p[..k];
    assert c + p[k..] == p;
    o := ChunkMask(c, p[k..], kind);
    var e := Trim(c);
    var me := Mask(e, kind);
    assert c[o..o + |e|] == p[o..o + |e|];
    forall j | 0 <= j < |e| ensures !IsSep(e, me, j) {
      assert e[j] == p[o + j];
      assert !IsSep(p, m, o + j);
      assert m[o..][j] == m[o + j];
    }
    TrimTwice(c);
    OneStatement(e, kind);
  }

  /** Every statement is a stretch of the script with the mask it has there (but for a MySQL `--` at
      its end), and splits again to exactly itself. */
  lemma {:induction false} StatementInPlace(p: string, kind: Kind, i: nat) returns (o: nat)
    requires i < |SplitStatements(p, kind)|
    ensures var e := SplitStatements(p, kind)[i];
      && e != [] && o + |e| <= |p| && p[o..o + |e|] == e
      && MaskAgrees(Mask(e, kind), Mask(p, kind)[o..], e, kind)
      && SplitStatements(e, kind) == [e]
    decreases |p|
  {
    hide Mask, SplitStatements, FirstSep, Trim, MaskAgrees;
    var m := Mask(p, kind);
    var k := FirstSep(p, m);
    SplitUnfold(p, kind);
    if i < |Piece(p[..k])| {
      o := FirstInPlace(p, kind);
    } else {
      var j := i - |Piece(p[..k])|;
      var rest := p[k + 1..];
      var o' := StatementInPlace(rest, kind, j);
      o := k + 1 + o';
      AfterSep(p, k, kind);
      DropTwice(p, k + 1, o');
      DropTwice(m, k + 1, o');
      var n := |SplitStatements(rest, kind)[j]|;
      assert rest[o'..o' + n] == p[o..o + n];
    }
  }

  lemma DropTwice<T>(s: seq<T>, a: nat, b: nat)
    requires a + b <= |s|
    ensures s[a..][b..] == s[a + b..]
  {
  }

  // ------------------------------ nothing is lost -----------------------

  function Solid(s: string): string {
    if s == [] then [] else (if IsBlank(s[0]) then [] else [s[0]]) + Solid(s[1..])
  }

  function Flat(parts: seq<string>): string { if parts == [] then [] else parts[0] + Flat(parts[1..]) }

  /** A text without its bare semicolons. */
  function Unseparated(s: string, m: seq<bool>): string
    requires |s| == |m|
  {
    if s == [] then [] else (if IsSep(s, m, 0) then [] else [s[0]]) + Unseparated(s[1..], m[1..])
  }

  lemma {:induction false} SolidConcat(a: string, b: string)
    ensures Solid(a + b) == Solid(a) + Solid(b)
  {
    hide IsBlank;
    if a == [] {
      assert a + b == b;
    } else {
      SliceConcat(a, b, 1);
      SolidConcat(a[1..], b);
    }
  }

  lemma {:induction false} FlatConcat(a: seq<string>, b: seq<string>)
    ensures Flat(a + b) == Flat(a) + Flat(b)
  {
    if a == [] {
      assert a + b == b;
    } else {
      SliceConcat(a, b, 1);
      FlatConcat(a[1..], b);
    }
  }

  lemma {:induction false} BlankIsNotSolid(s: string)
    requires AllBlank(s)
    ensures Solid(s) == []
  {
    hide IsBlank;
    if s != [] {
      assert s[0] in s && forall c | c in s[1..] :: c in s;
      BlankIsNotSolid(s[1..]);
    }
  }

  lemma PieceKeeps(s: string)
    ensures Solid(Flat(Piece(s))) == Solid(s)
  {
    hide Trim, Solid;
    var lo, hi := TrimSplits(s);
    BlankIsNotSolid(s[..lo]);
    BlankIsNotSolid(s[hi..]);
    SolidConcat(s[..lo], s[lo..hi]);
    SolidConcat(s[..lo] + s[lo..hi], s[hi..]);
    assert s[..lo] + s[lo..hi] + s[hi..] == s;
    var t := Trim(s);
    assert Flat([t]) == t + Flat([t][1..]) && t + [] == t;
  }

  lemma SepStep(s: string, m: seq<bool>)
    requires |s| == |m| && s != []
    ensures Unseparated(s, m) == (if IsSep(s, m, 0) then [] else [s[0]]) + Unseparated(s[1..], m[1..])
    ensures FirstSep(s, m) == if IsSep(s, m, 0) then 0 else 1 + FirstSep(s[1..], m[1..])
  {
  }

  lemma SepNothing(m: seq<bool>)
    requires m == []
    ensures Unseparated([], m) == [] && FirstSep([], m) == 0
  {
  }

  /** Up to the first bare `;` nothing is one. */
  lemma {:induction false} UnseparatedSplits(s: string, m: seq<bool>)
    requires |s| == |m|
    ensures var k := FirstSep(s, m);
      Unseparated(s, m) == s[..k] + if k < |s| then Unseparated(s[k + 1..], m[k + 1..]) else []
  {
    hide Unseparated, FirstSep, IsSep;
    if s == [] {
      SepNothing(m);
    } else {
      SepStep(s, m);
      if IsSep(s, m, 0) {
        assert s[..0] == [];
      } else {
        var rest := s[1..];
        UnseparatedSplits(rest, m[1..]);
        var j := FirstSep(rest, m[1..]);
        assert s[..j + 1] == [s[0]] + rest[..j];
        DropTwice(s, 1, j);
        if j < |rest| {
          DropTwice(s, 1, j + 1);
          DropTwice(m, 1, j + 1);
        }
      }
    }
  }

  /** Conservation: the statements of a script hold, in order, all of it but blanks and the semicolons between them. */
  lemma NothingIsLost(p: string, kind: Kind)
    ensures Solid(Flat(SplitStatements(p, kind))) == Solid(Unseparated(p, Mask(p, kind)))
  {
    hide Mask;
    MaskedKeeps(p, Mask(p, kind));
  }

  lemma {:induction false} MaskedKeeps(s: string, m: seq<bool>)
    requires |s| == |m|
    ensures Solid(Flat(SplitMasked(s, m))) == Solid(Unseparated(s, m))
    decreases |s|
  {
    hide FirstSep, Piece, Solid, Unseparated, Flat;
    var k := FirstSep(s, m);
    UnfoldMasked(s, m);
    UnseparatedSplits(s, m);
    PieceKeeps(s[..k]);
    if k < |s| {
      MaskedKeeps(s[k + 1..], m[k + 1..]);
      FlatConcat(Piece(s[..k]), SplitMasked(s[k + 1..], m[k + 1..]));
      SolidConcat(Flat(Piece(s[..k])), Flat(SplitMasked(s[k + 1..], m[k + 1..])));
      SolidConcat(s[..k], Unseparated(s[k + 1..], m[k + 1..]));
    } else {
      assert Piece(s[..k]) + [] == Piece(s[..k]) && s[..k] + [] == s[..k];
    }
  }

  /** No statement is empty, and none begins or ends with a blank. */
  lemma {:induction false} StatementsAreTrimmed(p: string, kind: Kind, e: string)
    requires e in SplitStatements(p, kind)
    ensures e != [] && !IsBlank(e[0]) && !IsBlank(e[|e| - 1])
    decreases |p|
  {
    hide Mask, IsBlank, SplitStatements, FirstSep, Trim;
    var k := FirstSep(p, Mask(p, kind));
    SplitUnfold(p, kind);
    if e in Piece(p[..k]) {
      var lo, hi := TrimSplits(p[..k]);
    } else {
      StatementsAreTrimmed(p[k + 1..], kind, e);
    }
  }
}
