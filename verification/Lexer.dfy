/** The dialect-aware lexer (`code_mask` and its helpers): first as a pure function that
    reads a text from left to right, then as the in-place scanner that fills a mask. */
module Lexer {
  import opened Text

  datatype Kind = Mysql | Postgres | Sqlite

  /** What the lexer remembers about the text before its position: whether the previous
      character is an identifier character, and whether it is the `E` of an E-string. */
  datatype Look = Look(ident: bool, estr: bool)

  const START := Look(false, false)

  /** One step of the lexer: `len` characters, masked when `run`. */
  datatype Token = Token(len: nat, run: bool)

  predicate IsIdentChar(c: char) { IsAlpha(c) || IsDigit(c) || c == '_' || c == '$' }

  function After(look: Look, c: char): Look {
    Look(IsIdentChar(c), (c == 'E' || c == 'e') && !look.ident)
  }

  function AfterAll(look: Look, s: string): Look
    decreases |s|
  {
    if s == [] then look else AfterAll(After(look, s[0]), s[1..])
  }

  // ------------------------------ runs ----------------------------------
  // Each function reads what follows the opening of a run and says how long the rest is.

  function LineLen(s: string): (n: nat)
    ensures n <= |s|
  {
    if s == [] || s[0] == '\n' then 0 else 1 + LineLen(s[1..])
  }

  /** A doubled quote is an escaped quote; a backslash escapes when `bs`. */
  function QuotedLen(s: string, q: char, bs: bool): (n: nat)
    ensures n <= |s|
    ensures s != [] ==> n > 0
  {
    if s == [] then 0
    else if bs && s[0] == '\\' then
      if |s| == 1 then 1 else 2 + QuotedLen(s[2..], q, bs)
    else if s[0] == q then
      if |s| > 1 && s[1] == q then 2 + QuotedLen(s[2..], q, bs) else 1
    else 1 + QuotedLen(s[1..], q, bs)
  }

  /** `depth` comments are open. */
  function BlockLen(s: string, depth: nat, nests: bool): (n: nat)
    ensures n <= |s|
    ensures s != [] ==> n > 0
    decreases |s|
  {
    if |s| < 2 then |s|
    else if s[0] == '/' && s[1] == '*' && (depth == 0 || nests) then 2 + BlockLen(s[2..], depth + 1, nests)
    else if s[0] == '*' && s[1] == '/' then
      if depth <= 1 then 2 else 2 + BlockLen(s[2..], depth - 1, nests)
    else 1 + BlockLen(s[1..], depth, nests)
  }

  function BracketLen(s: string): (n: nat)
    ensures n <= |s|
    ensures s != [] ==> n > 0
  {
    if s == [] then 0 else if s[0] == ']' then 1 else 1 + BracketLen(s[1..])
  }

  predicate IsTagChar(c: char, first: bool) { IsAlpha(c) || c == '_' || (!first && IsDigit(c)) }

  function TagLen(s: string, first: bool): (n: nat)
    ensures n <= |s|
  {
    if s != [] && IsTagChar(s[0], first) then 1 + TagLen(s[1..], false) else 0
  }

  /** The `$tag$` opening a dollar-quoted string at the `$` that `s` starts with. */
  function DollarTag(look: Look, s: string): (t: Option<nat>)
    requires s != []
    ensures t.Some? ==> 2 <= t.value <= |s|
  {
    if look.ident then None
    else
      var j := 1 + TagLen(s[1..], true);
      if j < |s| && s[j] == '$' then Some(j + 1) else None
  }

  /** Where `tag` first occurs in `s`. */
  function Find(s: string, tag: string): (p: Option<nat>)
    ensures p.Some? ==> p.value + |tag| <= |s|
  {
    if |tag| > |s| then None
    else if s[..|tag|] == tag then Some(0)
    else if s == [] then None
    else match Find(s[1..], tag)
      case None => None
      case Some(p) => Some(p + 1)
  }

  /** A dollar-quoted string up to its closing tag; a lone `$` is a run of one. */
  function DollarRun(look: Look, s: string): (n: nat)
    requires s != []
    ensures 0 < n <= |s|
  {
    match DollarTag(look, s)
    case None => 1
    case Some(t) =>
      match Find(s[t..], s[..t])
      case None => |s|
      case Some(p) => t + p + t
  }

  lemma DashLine(s: string)
    requires |s| >= 2 && s[0] == '-' && s[1] == '-'
    ensures LineLen(s) == 2 + LineLen(s[2..])
  {
    assert s[1..][1..] == s[2..];
  }

  // ------------------------------ the lexer -----------------------------

  datatype Opening = Bare | Line(mark: nat) | Block | Quote(backslash: bool) | Bracket | Dollar

  /** What opens at the first character of `s`. */
  function OpeningAt(look: Look, s: string, kind: Kind): Opening
    requires s != []
  {
    var c := s[0];
    // On MySQL `--` is two minus signs unless whitespace, or nothing, comes next.
    if c == '-' && |s| > 1 && s[1] == '-' && (kind != Mysql || |s| == 2 || IsAsciiSpace(s[2])) then Line(2)
    else if c == '#' && kind == Mysql then Line(1)
    else if c == '/' && |s| > 1 && s[1] == '*' then Block
    else if c == '\'' then Quote(kind == Mysql || (kind == Postgres && look.estr))
    else if c == '"' then Quote(kind == Mysql)
    else if c == '`' && kind != Postgres then Quote(false)
    else if c == '[' && kind == Sqlite then Bracket
    else if c == '$' && kind == Postgres then Dollar
    else Bare
  }

  predicate Fits(o: Opening, s: string) {
    && s != []
    && (o.Line? ==> 0 < o.mark <= |s|)
    && (o.Block? ==> 2 <= |s|)
  }

  function RunLen(look: Look, s: string, o: Opening, kind: Kind): (n: nat)
    requires Fits(o, s)
    ensures 0 < n <= |s|
  {
    match o
    case Bare => 1
    case Line(mark) => mark + LineLen(s[mark..])
    case Block => 2 + BlockLen(s[2..], 1, kind == Postgres)
    case Quote(backslash) => 1 + QuotedLen(s[1..], s[0], backslash)
    case Bracket => 1 + BracketLen(s[1..])
    case Dollar => DollarRun(look, s)
  }

  function TokenAt(look: Look, s: string, kind: Kind): (t: Token)
    requires s != []
    ensures 0 < t.len <= |s|
    ensures !t.run ==> t.len == 1
  {
    var o := OpeningAt(look, s, kind);
    Token(RunLen(look, s, o, kind), o != Bare)
  }

  function Flags(n: nat, v: bool): (m: seq<bool>)
    ensures |m| == n
    ensures forall k :: 0 <= k < n ==> m[k] == v
  {
    seq(n, _ => v)
  }

  /** One flag per character of `s`: true when it is bare SQL. */
  function MaskFrom(look: Look, s: string, kind: Kind): (m: seq<bool>)
    ensures |m| == |s|
    decreases |s|
  {
    if s == [] then []
    else
      var t := TokenAt(look, s, kind);
      Flags(t.len, !t.run) + MaskFrom(AfterAll(look, s[..t.len]), s[t.len..], kind)
  }

  function Mask(s: string, kind: Kind): (m: seq<bool>)
    ensures |m| == |s|
  {
    MaskFrom(START, s, kind)
  }

  // ------------------------------ the scanner ---------------------------

  function LookAt(b: string, i: nat): Look
    requires i <= |b|
  {
    if i == 0 then START
    else Look(IsIdentChar(b[i - 1]),
              (b[i - 1] == 'E' || b[i - 1] == 'e') && (i < 2 || !IsIdentChar(b[i - 2])))
  }

  /** Looking back two characters is what the pure lexer carries along. */
  lemma {:induction false} LookBack(b: string, i: nat, j: nat)
    requires i <= j <= |b|
    ensures AfterAll(LookAt(b, i), b[i..j]) == LookAt(b, j)
    decreases j - i
  {
    if i < j {
      var s := b[i..j];
      assert s[0] == b[i] && s[1..] == b[i + 1..j];
      assert After(LookAt(b, i), b[i]) == LookAt(b, i + 1);
      LookBack(b, i + 1, j);
    }
  }

  method LineEnd(b: string, i: nat) returns (j: nat)
    requires i <= |b|
    ensures j == i + LineLen(b[i..])
  {
    j := i;
    while j < |b| && b[j] != '\n'
      invariant i <= j <= |b|
      invariant i + LineLen(b[i..]) == j + LineLen(b[j..])
    {
      assert b[j..][1..] == b[j + 1..];
      j := j + 1;
    }
  }

  method BlockCommentEnd(b: string, start: nat, nests: bool) returns (i: nat)
    requires start + 1 < |b| && b[start] == '/' && b[start + 1] == '*'
    ensures i == start + 2 + BlockLen(b[start + 2..], 1, nests)
  {
    i := start;
    var depth: nat := 0;
    while i + 1 < |b|
      invariant start <= i <= |b|
      invariant i == start ==> depth == 0
      invariant i > start ==> depth > 0
      invariant i > start ==> i >= start + 2
      invariant i > start ==> start + 2 + BlockLen(b[start + 2..], 1, nests) == i + BlockLen(b[i..], depth, nests)
    {
      assert b[i..][2..] == b[i + 2..];
      assert b[i..][1..] == b[i + 1..];
      if b[i] == '/' && b[i + 1] == '*' && (depth == 0 || nests) {
        depth := depth + 1;
        i := i + 2;
      } else if b[i] == '*' && b[i + 1] == '/' {
        depth := depth - 1;
        i := i + 2;
        if depth == 0 {
          return;
        }
      } else {
        i := i + 1;
      }
    }
    i := |b|;
  }

  method QuotedEnd(b: string, i: nat, backslash: bool) returns (j: nat)
    requires i < |b|
    ensures j == i + 1 + QuotedLen(b[i + 1..], b[i], backslash)
  {
    var q := b[i];
    j := i + 1;
    while j < |b|
      invariant i + 1 <= j <= |b| + 1
      invariant j <= |b| ==> i + 1 + QuotedLen(b[i + 1..], q, backslash) == j + QuotedLen(b[j..], q, backslash)
      invariant j > |b| ==> i + 1 + QuotedLen(b[i + 1..], q, backslash) == |b|
    {
      if j + 2 <= |b| {
        assert b[j..][2..] == b[j + 2..];
      }
      assert b[j..][1..] == b[j + 1..];
      if backslash && b[j] == '\\' {
        j := j + 2;
      } else if b[j] == q {
        if j + 1 < |b| && b[j + 1] == q {
          j := j + 2;
        } else {
          j := j + 1;
          return;
        }
      } else {
        j := j + 1;
      }
    }
    j := |b|;
  }

  /** The position of the first `]` after the `[` at `i`, or the end of the text. */
  method BracketEnd(b: string, i: nat) returns (j: nat)
    requires i < |b| && b[i] == '['
    ensures j == i + 1 + BracketLen(b[i + 1..])
  {
    j := i;
    while j < |b| && b[j] != ']'
      invariant i <= j <= |b|
      invariant j > i ==> i + 1 + BracketLen(b[i + 1..]) == j + BracketLen(b[j..])
    {
      assert b[j..][1..] == b[j + 1..];
      j := j + 1;
    }
    if j < |b| {
      j := j + 1;
    }
  }

  /** The end of the opening `$tag$` at `i`, if it is one. */
  method DollarTagEnd(b: string, i: nat) returns (end: Option<nat>)
    requires i < |b|
    ensures end == match DollarTag(LookAt(b, i), b[i..]) case None => None case Some(n) => Some(i + n)
  {
    if i > 0 && IsIdentChar(b[i - 1]) {
      return None;
    }
    assert b[i..][1..] == b[i + 1..];
    var j := i + 1;
    while j < |b| && IsTagChar(b[j], j == i + 1)
      invariant i + 1 <= j <= |b|
      invariant i + 1 + TagLen(b[i + 1..], true) == j + TagLen(b[j..], j == i + 1)
    {
      assert b[j..][1..] == b[j + 1..];
      j := j + 1;
    }
    end := if j < |b| && b[j] == '$' then Some(j + 1) else None;
  }

  method FindFrom(hay: string, from: nat, needle: string) returns (p: Option<nat>)
    requires from <= |hay|
    ensures p == match Find(hay[from..], needle) case None => None case Some(k) => Some(from + k)
  {
    var i := from;
    while i + |needle| <= |hay|
      invariant from <= i <= |hay|
      invariant match Find(hay[from..], needle)
        case None => Find(hay[i..], needle) == None
        case Some(k) => from + k >= i && Find(hay[i..], needle) == Some(from + k - i)
    {
      assert hay[i..][..|needle|] == hay[i..i + |needle|];
      if hay[i..i + |needle|] == needle {
        return Some(i);
      }
      if i == |hay| {
        return None;
      }
      assert hay[i..][1..] == hay[i + 1..];
      i := i + 1;
    }
    p := None;
  }

  /** A dollar-quoted string runs to its closing tag; a lone `$` is a run of one. */
  method DollarEnd(b: string, i: nat) returns (end: nat)
    requires i < |b|
    ensures end == i + DollarRun(LookAt(b, i), b[i..])
  {
    ghost var s := b[i..];
    var tagEnd := DollarTagEnd(b, i);
    if tagEnd.None? {
      return i + 1;
    }
    var at := FindFrom(b, tagEnd.value, b[i..tagEnd.value]);
    assert s[tagEnd.value - i..] == b[tagEnd.value..] && s[..tagEnd.value - i] == b[i..tagEnd.value];
    end := if at.Some? then at.value + (tagEnd.value - i) else |b|;
  }

  /** The end of the token at `i`, and whether it is masked. */
  method ScanToken(b: string, i: nat, kind: Kind) returns (end: nat, run: bool)
    requires i < |b|
    ensures i < end <= |b|
    ensures TokenAt(LookAt(b, i), b[i..], kind) == Token(end - i, run)
  {
    var c := b[i];
    assert b[i..][1..] == b[i + 1..];
    run := true;
    if c == '-' && i + 1 < |b| && b[i + 1] == '-' && (kind != Mysql || i + 2 >= |b| || IsAsciiSpace(b[i + 2])) {
      assert b[i..][2..] == b[i + 2..];
      DashLine(b[i..]);
      end := LineEnd(b, i);
    } else if c == '#' && kind == Mysql {
      end := LineEnd(b, i);
    } else if c == '/' && i + 1 < |b| && b[i + 1] == '*' {
      assert b[i..][2..] == b[i + 2..];
      end := BlockCommentEnd(b, i, kind == Postgres);
    } else if c == '\'' {
      var eString := i > 0 && (b[i - 1] == 'E' || b[i - 1] == 'e') && (i < 2 || !IsIdentChar(b[i - 2]));
      end := QuotedEnd(b, i, kind == Mysql || (kind == Postgres && eString));
    } else if c == '"' {
      end := QuotedEnd(b, i, kind == Mysql);
    } else if c == '`' && kind != Postgres {
      end := QuotedEnd(b, i, false);
    } else if c == '[' && kind == Sqlite {
      end := BracketEnd(b, i);
    } else if c == '$' && kind == Postgres {
      end := DollarEnd(b, i);
    } else {
      end := i + 1;
      run := false;
    }
  }

  lemma MaskStep(b: string, i: nat, kind: Kind)
    requires i < |b|
    ensures var t := TokenAt(LookAt(b, i), b[i..], kind);
      MaskFrom(LookAt(b, i), b[i..], kind)
      == Flags(t.len, !t.run) + MaskFrom(LookAt(b, i + t.len), b[i + t.len..], kind)
  {
    hide TokenAt;
    var s, t := b[i..], TokenAt(LookAt(b, i), b[i..], kind);
    LookBack(b, i, i + t.len);
    assert s[..t.len] == b[i..i + t.len] && s[t.len..] == b[i + t.len..];
  }

  /** `code_mask`: fills the runs of a mask that starts all true. */
  method CodeMask(b: string, kind: Kind) returns (mask: array<bool>)
    ensures fresh(mask) && mask[..] == Mask(b, kind)
  {
    hide TokenAt, MaskFrom, AfterAll;
    var n := |b|;
    mask := new bool[n](_ => true);
    var i := 0;
    assert b[0..] == b;
    while i < n
      invariant 0 <= i <= n && mask.Length == n
      invariant forall k :: i <= k < n ==> mask[k]
      invariant Mask(b, kind) == mask[..i] + MaskFrom(LookAt(b, i), b[i..], kind)
    {
      var end, run := ScanToken(b, i, kind);
      ghost var before := mask[..i];
      MaskStep(b, i, kind);
      if run {
        forall k | i <= k < end {
          mask[k] := false;
        }
      }
      assert mask[..end] == before + Flags(end - i, !run);
      i := end;
    }
    assert mask[..n] == mask[..] && b[n..] == [];
  }
}
