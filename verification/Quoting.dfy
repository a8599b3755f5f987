/** Quoted literals and identifiers: how they are printed, how the lexer and a reader take them, and
    that nothing inside them influences what the helper makes of a script. */
module Quoting {
  import opened Text
  import opened Lexer
  import opened LexerLaws
  import opened Split
  import opened Words
  import opened Analysis
  import opened AnalysisLaws

  /** `replace(q, qq)`. */
  function Doubled(q: char, s: string): string {
    if s == [] then [] else (if s[0] == q then [q, q] else [s[0]]) + Doubled(q, s[1..])
  }

  function Enclosed(q: char, body: string): (r: string)
    ensures |r| == |body| + 2 && r[0] == q && r[|r| - 1] == q
  {
    [q] + body + [q]
  }

  function Quoted(q: char, s: string): string { Enclosed(q, Doubled(q, s)) }

  // ------------------------------ as the lexer reads --------------------

  /** Read from the left, every quote is followed by another, and where a backslash escapes it has a
      character to take. */
  predicate Contained(q: char, body: string, backslash: bool)
    decreases |body|
  {
    if body == [] then true
    else if backslash && body[0] == '\\' then |body| > 1 && Contained(q, body[2..], backslash)
    else if body[0] == q then |body| > 1 && body[1] == q && Contained(q, body[2..], backslash)
    else Contained(q, body[1..], backslash)
  }

  lemma {:induction false} ContainedCloses(q: char, body: string, post: string, backslash: bool)
    requires Contained(q, body, backslash) && q != '\\' && (post == [] || post[0] != q)
    ensures QuotedLen(body + [q] + post, q, backslash) == |body| + 1
    decreases |body|
  {
    var t := body + [q] + post;
    if body == [] {
      assert t == [q] + post;
    } else {
      assert t[1..] == body[1..] + [q] + post;
      if |body| > 1 {
        assert t[2..] == body[2..] + [q] + post;
      }
      if (backslash && body[0] == '\\') || body[0] == q {
        ContainedCloses(q, body[2..], post, backslash);
      } else {
        ContainedCloses(q, body[1..], post, backslash);
      }
    }
  }

  lemma {:induction false} UncontainedRunsOn(q: char, body: string, post: string, backslash: bool)
    requires !Contained(q, body, backslash) && q != '\\' && post != [] && post[0] != q
    ensures QuotedLen(body + [q] + post, q, backslash) != |body| + 1
    decreases |body|
  {
    var t := body + [q] + post;
    assert t[1..] == body[1..] + [q] + post;
    if |body| > 1 {
      assert t[2..] == body[2..] + [q] + post;
      if (backslash && body[0] == '\\') || (body[0] == q && body[1] == q) {
        UncontainedRunsOn(q, body[2..], post, backslash);
      } else if body[0] != q {
        UncontainedRunsOn(q, body[1..], post, backslash);
      }
    } else {
      assert t[2..] == post;
    }
  }

  /** A quoted text is one run of the lexer, ending at its closing quote, exactly when its body is
      contained. */
  lemma EnclosedIsOneRun(q: char, body: string, post: string, backslash: bool)
    requires q != '\\' && post != [] && post[0] != q
    ensures QuotedLen(body + [q] + post, q, backslash) == |body| + 1 <==> Contained(q, body, backslash)
  {
    if Contained(q, body, backslash) {
      ContainedCloses(q, body, post, backslash);
    } else {
      UncontainedRunsOn(q, body, post, backslash);
    }
  }

  /** Read from the left, every backslash takes a character that is not the quote. */
  predicate EscapesPaired(q: char, s: string)
    decreases |s|
  {
    if s == [] then true
    else if s[0] == '\\' then |s| > 1 && s[1] != q && EscapesPaired(q, s[2..])
    else EscapesPaired(q, s[1..])
  }

  lemma {:induction false} LoneQuote(q: char, s: string, backslash: bool)
    requires q != '\\'
    ensures !Contained(q, [q] + Doubled(q, s), backslash)
  {
    if s != [] && s[0] == q {
      LoneQuote(q, s[1..], backslash);
      assert ([q] + Doubled(q, s))[2..] == [q] + Doubled(q, s[1..]);
    }
  }

  /** Doubling the quotes contains a text always, or where a backslash escapes, exactly when its
      escapes pair up. */
  lemma {:induction false} DoubledIsContained(q: char, s: string, backslash: bool)
    requires q != '\\'
    ensures Contained(q, Doubled(q, s), backslash) <==> (backslash ==> EscapesPaired(q, s))
    decreases |s|
  {
    if s != [] {
      var d, rest := Doubled(q, s), Doubled(q, s[1..]);
      DoubledIsContained(q, s[1..], backslash);
      if s[0] == q {
        assert d == [q, q] + rest;
        ContainedPair(q, q, q, rest, backslash);
      } else {
        assert d == [s[0]] + rest;
        if backslash && s[0] == '\\' {
          EscapeIsContained(q, s[1..], backslash);
          if |s| > 1 && s[1] != q {
            assert s[1..][1..] == s[2..];
            DoubledIsContained(q, s[2..], backslash);
          }
        } else {
          ContainedChar(q, s[0], rest, backslash);
        }
      }
    }
  }

  lemma ContainedPair(q: char, c: char, d: char, rest: string, backslash: bool)
    requires c == q || (backslash && c == '\\')
    ensures Contained(q, [c, d] + rest, backslash)
      <==> ((backslash && c == '\\') || d == q) && Contained(q, rest, backslash)
  {
    assert ([c, d] + rest)[2..] == rest;
  }

  lemma ContainedChar(q: char, c: char, rest: string, backslash: bool)
    requires c != q && !(backslash && c == '\\')
    ensures Contained(q, [c] + rest, backslash) <==> Contained(q, rest, backslash)
  {
    assert ([c] + rest)[1..] == rest;
  }

  /** After a backslash that escapes. */
  lemma EscapeIsContained(q: char, s: string, backslash: bool)
    requires q != '\\' && backslash
    ensures Contained(q, ['\\'] + Doubled(q, s), backslash) <==>
      s != [] && s[0] != q && Contained(q, Doubled(q, s[1..]), backslash)
  {
    hide Contained;
    if s == [] {
      assert ['\\'] + Doubled(q, s) == ['\\'];
      LoneBackslash(q);
    } else {
      var rest := Doubled(q, s[1..]);
      if s[0] == q {
        assert ['\\'] + Doubled(q, s) == ['\\', q] + ([q] + rest);
        ContainedPair(q, '\\', q, [q] + rest, backslash);
        LoneQuote(q, s[1..], backslash);
      } else {
        assert ['\\'] + Doubled(q, s) == ['\\', s[0]] + rest;
        ContainedPair(q, '\\', s[0], rest, backslash);
      }
    }
  }

  lemma LoneBackslash(q: char)
    ensures !Contained(q, ['\\'], true)
  {
  }

  lemma {:induction false} NoBackslashPairs(q: char, s: string)
    requires '\\' !in s
    ensures EscapesPaired(q, s)
  {
    if s != [] {
      NoBackslashPairs(q, s[1..]);
    }
  }

  lemma {:induction false} NoQuoteIsContained(q: char, s: string, backslash: bool)
    requires q !in s && (backslash ==> '\\' !in s)
    ensures Contained(q, s, backslash)
  {
    if s != [] {
      NoQuoteIsContained(q, s[1..], backslash);
    }
  }

  // ------------------------------ as a reader reads ---------------------

  lemma DoubledStep(q: char, s: string, post: string)
    requires s != []
    ensures Doubled(q, s) + [q] + post
         == (if s[0] == q then [q, q] else [s[0]]) + (Doubled(q, s[1..]) + [q] + post)
  {
    Regroup(if s[0] == q then [q, q] else [s[0]], Doubled(q, s[1..]), [q], post);
  }

  /** What a MySQL escape denotes: the table of escape sequences under "String Literals" in the MySQL Reference
      Manual. Of `%` and `_` the backslash stays. */
  function Unescaped(c: char): string {
    match c
    case '0' => ['\0']
    case 'b' => ['\U{0008}']
    case 'n' => ['\n']
    case 'r' => ['\r']
    case 't' => ['\t']
    case 'Z' => ['\U{001A}']
    case '%' => ['\\', '%']
    case '_' => ['\\', '_']
    case _ => [c]
  }

  /** What a quoted literal or identifier denotes, read after its opening quote, and how far it reaches: sections
      4.1.1 and 4.1.2.1 of the PostgreSQL documentation, and with backslashes that escape, as MySQL has it. */
  function ReadQuoted(q: char, s: string, backslash: bool): Option<(string, nat)>
    decreases |s|
  {
    if s == [] then None
    else if backslash && s[0] == '\\' then
      if |s| == 1 then None
      else
        match ReadQuoted(q, s[2..], backslash)
        case None => None
        case Some((text, n)) => Some((Unescaped(s[1]) + text, n + 2))
    else if s[0] != q then
      match ReadQuoted(q, s[1..], backslash)
      case None => None
      case Some((text, n)) => Some(([s[0]] + text, n + 1))
    else if |s| > 1 && s[1] == q then
      match ReadQuoted(q, s[2..], backslash)
      case None => None
      case Some((text, n)) => Some(([q] + text, n + 2))
    else Some(([], 1))
  }

  /** Reading a printed literal gives back its text, where backslashes do not escape. */
  lemma {:induction false} ReadsBack(q: char, s: string, post: string)
    requires post == [] || post[0] != q
    ensures ReadQuoted(q, Doubled(q, s) + [q] + post, false) == Some((s, |Doubled(q, s)| + 1))
    decreases |s|
  {
    if s == [] {
      assert Doubled(q, s) + [q] + post == [q] + post;
    } else {
      DoubledStep(q, s, post);
      var t := Doubled(q, s[1..]) + [q] + post;
      ReadsBack(q, s[1..], post);
      assert [s[0]] + s[1..] == s;
      if s[0] == q {
        assert ([q, q] + t)[2..] == t;
      } else {
        assert ([s[0]] + t)[1..] == t;
      }
    }
  }

  /** What MySQL takes a text for that is printed with its quotes doubled only. */
  function Meant(s: string): (r: string)
    ensures |r| <= |s|
    decreases |s|
  {
    if s == [] then []
    else if s[0] == '\\' && |s| > 1 then Unescaped(s[1]) + Meant(s[2..])
    else [s[0]] + Meant(s[1..])
  }

  /** Where backslashes escape, a text whose escapes pair up reads back as what it is taken for. */
  lemma {:induction false} PairedReads(q: char, s: string, post: string)
    requires q != '\\' && EscapesPaired(q, s) && (post == [] || post[0] != q)
    ensures ReadQuoted(q, Doubled(q, s) + [q] + post, true) == Some((Meant(s), |Doubled(q, s)| + 1))
    decreases |s|
  {
    var t := Doubled(q, s) + [q] + post;
    if s == [] {
      assert t == [q] + post;
    } else {
      hide ReadQuoted, Meant;
      MeantStep(s);
      if s[0] == '\\' {
        var rest := Doubled(q, s[2..]) + [q] + post;
        PairedReads(q, s[2..], post);
        assert s[1..][1..] == s[2..];
        assert Doubled(q, s) == ['\\', s[1]] + Doubled(q, s[2..]);
        Regroup(['\\', s[1]], Doubled(q, s[2..]), [q], post);
        ReadEscape(q, s[1], rest);
      } else {
        var rest := Doubled(q, s[1..]) + [q] + post;
        PairedReads(q, s[1..], post);
        DoubledStep(q, s, post);
        if s[0] == q { ReadPair(q, rest, true); } else { ReadChar(q, s[0], rest, true); }
      }
    }
  }

  lemma ReadEscape(q: char, c: char, rest: string)
    ensures ReadQuoted(q, ['\\', c] + rest, true) ==
      match ReadQuoted(q, rest, true) case None => None case Some((text, n)) => Some((Unescaped(c) + text, n + 2))
  {
    assert (['\\', c] + rest)[2..] == rest;
  }

  lemma ReadPair(q: char, rest: string, backslash: bool)
    requires q != '\\'
    ensures ReadQuoted(q, [q, q] + rest, backslash) ==
      match ReadQuoted(q, rest, backslash) case None => None case Some((text, n)) => Some(([q] + text, n + 2))
  {
    assert ([q, q] + rest)[2..] == rest;
  }

  lemma ReadChar(q: char, c: char, rest: string, backslash: bool)
    requires c != q && !(backslash && c == '\\')
    ensures ReadQuoted(q, [c] + rest, backslash) ==
      match ReadQuoted(q, rest, backslash) case None => None case Some((text, n)) => Some(([c] + text, n + 1))
  {
    assert ([c] + rest)[1..] == rest;
  }

  /** The reader goes as far as the lexer. */
  lemma {:induction false} ReadsAsLexed(q: char, s: string, backslash: bool)
    ensures ReadQuoted(q, s, backslash).Some? ==> ReadQuoted(q, s, backslash).value.1 == QuotedLen(s, q, backslash)
    decreases |s|
  {
    if s != [] {
      if (backslash && s[0] == '\\') || (s[0] == q && |s| > 1 && s[1] == q) {
        if |s| > 1 { ReadsAsLexed(q, s[2..], backslash); }
      } else if s[0] != q {
        ReadsAsLexed(q, s[1..], backslash);
      }
    }
  }

  /** Every backslash stands before a `%` or a `_`. */
  predicate BackslashesKept(s: string) {
    forall i :: 0 <= i < |s| && s[i] == '\\' ==> i + 1 < |s| && (s[i + 1] == '%' || s[i + 1] == '_')
  }

  lemma KeptStep(s: string)
    requires s != []
    ensures s[0] == '\\' ==>
      (BackslashesKept(s) <==> |s| > 1 && (s[1] == '%' || s[1] == '_') && BackslashesKept(s[2..]))
    ensures s[0] != '\\' ==> (BackslashesKept(s) <==> BackslashesKept(s[1..]))
  {
    if |s| > 1 {
      var t := s[1..];
      assert forall i :: 0 <= i < |t| ==> t[i] == s[i + 1];
      assert forall i :: 1 <= i < |s| ==> s[i] == t[i - 1];
      assert BackslashesKept(s) ==> BackslashesKept(t) by {
        forall i | BackslashesKept(s) && 0 <= i < |t| && t[i] == '\\'
          ensures i + 1 < |t| && (t[i + 1] == '%' || t[i + 1] == '_') { assert s[i + 1] == '\\'; }
      }
      assert BackslashesKept(t) && (s[0] == '\\' ==> s[1] == '%' || s[1] == '_') ==> BackslashesKept(s) by {
        forall i | BackslashesKept(t) && 1 <= i < |s| && s[i] == '\\'
          ensures i + 1 < |s| && (s[i + 1] == '%' || s[i + 1] == '_') { assert t[i - 1] == '\\'; }
      }
      if s[0] == '\\' && (s[1] == '%' || s[1] == '_') { KeptStep(t); assert t[1..] == s[2..]; }
    }
  }

  lemma MeantStep(s: string)
    requires s != [] && (s[0] == '\\' ==> |s| > 1)
    ensures s[0] == '\\' ==> Meant(s) == Unescaped(s[1]) + Meant(s[2..])
    ensures s[0] != '\\' ==> Meant(s) == [s[0]] + Meant(s[1..])
  {
  }

  lemma SameEnds(a: string, b: string, c: string)
    ensures a + b == a + c <==> b == c
  {
    assert (a + b)[|a|..] == b && (a + c)[|a|..] == c;
  }

  /** MySQL takes a text for itself exactly when every backslash is kept. */
  lemma {:induction false} MeantIffKept(q: char, s: string)
    requires EscapesPaired(q, s)
    ensures Meant(s) == s <==> BackslashesKept(s)
    decreases |s|
  {
    hide Meant, BackslashesKept;
    if s == [] {
      MeantNothing();
    } else {
      KeptStep(s);
      MeantStep(s);
      var k := if s[0] == '\\' then 2 else 1;
      var rest := s[k..];
      MeantIffKept(q, rest);
      assert s == s[..k] + rest;
      if s[0] == '\\' && s[1] != '%' && s[1] != '_' {
        assert |Meant(s)| < |s|;
      } else {
        assert Meant(s) == s[..k] + Meant(rest);
        SameEnds(s[..k], Meant(rest), rest);
      }
    }
  }

  lemma MeantNothing()
    ensures Meant([]) == [] && BackslashesKept([])
  {
  }

  lemma {:induction false} KeptIsPaired(q: char, s: string)
    requires BackslashesKept(s) && q != '%' && q != '_'
    ensures EscapesPaired(q, s)
    decreases |s|
  {
    if s != [] {
      KeptStep(s);
      KeptIsPaired(q, if s[0] == '\\' then s[2..] else s[1..]);
    }
  }

  /** Where backslashes escape, a printed text reads back as itself exactly when every backslash is kept. */
  lemma ReadsBackIffKept(q: char, s: string, post: string)
    requires q != '\\' && q != '%' && q != '_' && post != [] && post[0] != q
    ensures ReadQuoted(q, Doubled(q, s) + [q] + post, true) == Some((s, |Doubled(q, s)| + 1)) <==> BackslashesKept(s)
  {
    hide ReadQuoted, Meant, QuotedLen, BackslashesKept, EscapesPaired;
    if EscapesPaired(q, s) {
      PairedReads(q, s, post);
      MeantIffKept(q, s);
    } else {
      ReadsAsLexed(q, Doubled(q, s) + [q] + post, true);
      EnclosedIsOneRun(q, Doubled(q, s), post, true);
      DoubledIsContained(q, s, true);
      if BackslashesKept(s) { KeptIsPaired(q, s); }
    }
  }

  // ------------------------------ in a script ---------------------------

  predicate IsQuote(q: char, kind: Kind) { q == '\'' || q == '"' || (q == '`' && kind != Postgres) }

  predicate Escaping(q: char, kind: Kind) { kind == Mysql && q != '`' }

  /** A quote after `pre` opens a quoted run of its own: it is no part of an earlier run, and on
      PostgreSQL it is not the quote of an E-string. */
  predicate CodePosition(pre: string, q: char, kind: Kind) {
    && Reaches(START, pre + [q], |pre|, kind)
    && (kind == Postgres && q == '\'' ==> !AfterAll(START, pre).estr)
  }

  predicate Placed(pre: string, q: char, s: string, post: string, kind: Kind) {
    && IsQuote(q, kind) && CodePosition(pre, q, kind)
    && (post == [] || post[0] != q)
    && Contained(q, s, Escaping(q, kind))
  }

  lemma LiteralToken(look: Look, q: char, s: string, post: string, kind: Kind)
    requires IsQuote(q, kind) && (post == [] || post[0] != q) && Contained(q, s, Escaping(q, kind))
    requires kind == Postgres && q == '\'' ==> !look.estr
    ensures TokenAt(look, Enclosed(q, s) + post, kind) == Token(|Enclosed(q, s)|, true)
  {
    hide QuotedLen;
    var t := Enclosed(q, s) + post;
    assert t[1..] == s + [q] + post;
    ContainedCloses(q, s, post, Escaping(q, kind));
    assert OpeningAt(look, t, kind) == Quote(Escaping(q, kind));
  }

  lemma AfterQuote(look: Look, q: char, s: string, kind: Kind)
    requires IsQuote(q, kind)
    ensures AfterAll(look, Enclosed(q, s)) == START
  {
    AfterAllConcat(look, [q] + s, [q]);
  }

  lemma RunInMiddle(pre: string, lit: string, post: string, kind: Kind)
    requires lit != [] && Reaches(START, pre + (lit + post), |pre|, kind)
    requires TokenAt(AfterAll(START, pre), lit + post, kind) == Token(|lit|, true)
    requires AfterAll(AfterAll(START, pre), lit) == START
    ensures Mask(pre + (lit + post), kind)[|pre|..] == Flags(|lit|, false) + Mask(post, kind)
  {
    hide TokenAt, AfterAll, Reaches;
    var t := lit + post;
    SliceConcat(pre, t, |pre|);
    SliceConcat(lit, post, |lit|);
    assert pre[..|pre|] == pre && pre[|pre|..] + t == t && lit[..|lit|] == lit && lit[|lit|..] + post == post;
    MaskSplit(START, pre + t, |pre|, kind);
  }

  /** The mask of a script around a literal: nothing outside depends on what is inside. */
  lemma LiteralMask(pre: string, q: char, s: string, post: string, kind: Kind)
    requires Placed(pre, q, s, post, kind)
    ensures Mask(pre + Enclosed(q, s) + post, kind)
         == Mask(pre + [q], kind)[..|pre|] + Flags(|Enclosed(q, s)|, false) + Mask(post, kind)
  {
    hide TokenAt, Enclosed, AfterAll, Reaches, MaskFrom;
    var lit := Enclosed(q, s);
    assert pre + lit + post == pre + (lit + post);
    ReachAgree(START, pre, [q], lit + post, kind);
    LiteralToken(AfterAll(START, pre), q, s, post, kind);
    AfterQuote(AfterAll(START, pre), q, s, kind);
    RunInMiddle(pre, lit, post, kind);
    var m := Mask(pre + (lit + post), kind);
    assert m == m[..|pre|] + m[|pre|..];
  }

  /** The bare text of a statement with a literal in it. */
  lemma LiteralBare(pre: string, q: char, s: string, post: string, kind: Kind)
    requires Placed(pre, q, s, post, kind)
    ensures BareSql(pre + Enclosed(q, s) + post, kind)
         == Blanked(pre, Mask(pre + [q], kind)[..|pre|]) + Spaces(|Enclosed(q, s)|) + BareSql(post, kind)
  {
    hide Mask, Enclosed;
    LiteralMask(pre, q, s, post, kind);
  }

  /** Text inside a literal never influences what the helper makes of a statement. */
  lemma LiteralIsOpaque(pre: string, q: char, x: string, y: string, post: string, kind: Kind)
    requires Placed(pre, q, x, post, kind) && Placed(pre, q, y, post, kind)
    ensures Judge(BareSql(pre + Enclosed(q, x) + post, kind), kind)
         == Judge(BareSql(pre + Enclosed(q, y) + post, kind), kind)
  {
    hide Mask, Judge, Enclosed, Blanked;
    LiteralBare(pre, q, x, post, kind);
    LiteralBare(pre, q, y, post, kind);
    JudgeAcrossGap(Blanked(pre, Mask(pre + [q], kind)[..|pre|]), |Enclosed(q, x)|, |Enclosed(q, y)|,
      BareSql(post, kind), kind);
  }

  // ------------------------------ across statements ---------------------

  /** What the helper makes of each statement of a script. */
  function Verdicts(statements: seq<string>, kind: Kind): (r: seq<Verdict>)
    ensures |r| == |statements|
  {
    seq(|statements|, i requires 0 <= i < |statements| => Judge(BareSql(statements[i], kind), kind))
  }

  lemma VerdictsConcat(a: seq<string>, b: seq<string>, kind: Kind)
    ensures Verdicts(a + b, kind) == Verdicts(a, kind) + Verdicts(b, kind)
  {
    hide Judge, BareSql;
  }

  /** A code position stays one after a bare `;` before it is cut away. */
  lemma PositionAfterCut(pre: string, q: char, n: nat, kind: Kind)
    requires n <= |pre| && CodePosition(pre, q, kind)
    requires Reaches(START, pre + [q], n, kind) && AfterAll(START, pre[..n]) == START
    ensures CodePosition(pre[n..], q, kind)
  {
    hide TokenAt, Reaches;
    SliceConcat(pre, [q], n);
    ReachesFrom(START, pre + [q], n, |pre| - n, kind);
    assert pre == pre[..n] + pre[n..];
    AfterAllConcat(START, pre[..n], pre[n..]);
  }

  /** A statement of its own: no bare `;` before or after the literal. */
  predicate Alone(pre: string, q: char, post: string, kind: Kind) {
    && FirstSep(pre, Mask(pre + [q], kind)[..|pre|]) == |pre|
    && FirstSep(post, Mask(post, kind)) == |post|
  }

  lemma AloneIsOne(pre: string, q: char, s: string, post: string, kind: Kind)
    requires Placed(pre, q, s, post, kind) && Alone(pre, q, post, kind)
    ensures SplitStatements(pre + Enclosed(q, s) + post, kind) == Piece(pre + Enclosed(q, s) + post)
  {
    hide Mask, Enclosed, Piece, FirstSep;
    var lit := Enclosed(q, s);
    var t := pre + lit + post;
    LiteralMask(pre, q, s, post, kind);
    var m, m1, m2 := Mask(t, kind), Mask(pre + [q], kind)[..|pre|], Mask(post, kind);
    forall k | 0 <= k < |t| ensures !IsSep(t, m, k) {
      if k < |pre| {
        NoSepBefore(pre, m1, k);
      } else if k >= |pre| + |lit| {
        NoSepBefore(post, m2, k - |pre| - |lit|);
      }
    }
    FirstSepIs(t, m, 0, |t|);
    assert t[0..] == t && m[0..] == m;
  }

  lemma NoSepBefore(s: string, m: seq<bool>, k: nat)
    requires |s| == |m| && k < FirstSep(s, m)
    ensures !IsSep(s, m, k)
  {
  }

  lemma TrimAround(pre: string, lit: string, post: string, n: nat, k: nat)
    requires lit != [] && !IsBlank(lit[0]) && !IsBlank(lit[|lit| - 1])
    requires n <= |pre| && AllBlank(pre[..n]) && (n < |pre| ==> !IsBlank(pre[n]))
    requires k <= |post| && AllBlank(post[k..]) && (k > 0 ==> !IsBlank(post[k - 1]))
    ensures Trim(pre + lit + post) == pre[n..] + lit + post[..k]
  {
    hide IsBlank, Trim;
    var t := pre + lit + post;
    var hi := |pre| + |lit| + k;
    assert t[..n] == pre[..n] && t[hi..] == post[k..];
    assert t[n] == if n < |pre| then pre[n] else lit[0];
    assert t[hi - 1] == if k > 0 then post[k - 1] else lit[|lit| - 1];
    TrimIs(t, n, hi);
    assert t[n..hi] == pre[n..] + lit + post[..k];
  }

  lemma BlankPositionCut(pre: string, q: char, n: nat, kind: Kind)
    requires n <= |pre| && AllBlank(pre[..n]) && CodePosition(pre, q, kind)
    ensures CodePosition(pre[n..], q, kind)
  {
    hide Reaches;
    assert (pre + [q])[..n] == pre[..n];
    BlankReaches(START, pre + [q], n, kind);
    if n == 0 {
      assert pre[..0] == [];
      AfterNothing(START);
    }
    PositionAfterCut(pre, q, n, kind);
  }

  /** A statement around a literal is judged alike whatever the literal says. */
  lemma AloneAlike(pre: string, q: char, x: string, y: string, post: string, kind: Kind)
    requires Placed(pre, q, x, post, kind) && Placed(pre, q, y, post, kind) && Alone(pre, q, post, kind)
    ensures Verdicts(SplitStatements(pre + Enclosed(q, x) + post, kind), kind)
         == Verdicts(SplitStatements(pre + Enclosed(q, y) + post, kind), kind)
  {
    hide Judge, BareSql, Enclosed, SplitStatements, Alone, Trim, CodePosition;
    AloneIsOne(pre, q, x, post, kind);
    AloneIsOne(pre, q, y, post, kind);
    var n := TrimStartSplits(pre);
    var k := TrimEndSplits(post);
    TrimAround(pre, Enclosed(q, x), post, n, k);
    TrimAround(pre, Enclosed(q, y), post, n, k);
    BlankPositionCut(pre, q, n, kind);
    LiteralIsOpaque(pre[n..], q, x, y, post[..k], kind);
  }

  /** A script with a literal, cut at a bare `;` before it. */
  lemma CutBefore(pre: string, q: char, s: string, post: string, kind: Kind, k: nat)
    requires Placed(pre, q, s, post, kind) && k < |pre| && IsSep(pre, Mask(pre + [q], kind)[..|pre|], k)
    ensures Placed(pre[k + 1..], q, s, post, kind)
    ensures SplitStatements(pre + Enclosed(q, s) + post, kind)
         == SplitStatements(pre[..k], kind) + SplitStatements(pre[k + 1..] + Enclosed(q, s) + post, kind)
  {
    hide Enclosed, SplitStatements, Reaches, TokenAt, AfterAll;
    var lit, rest := Enclosed(q, s), pre[k + 1..];
    LiteralMask(pre, q, s, post, kind);
    AroundSep(pre, k);
    assert pre + lit + post == pre[..k] + ";" + (rest + lit + post);
    SplitHomomorphism(pre[..k], rest + lit + post, kind);
    CodeReaches(START, pre + [q], k, kind);
    assert pre[..k + 1] == pre[..k] + ";";
    AfterAllConcat(START, pre[..k], ";");
    AfterSemicolon(AfterAll(START, pre[..k]));
    PositionAfterCut(pre, q, k + 1, kind);
  }

  lemma AfterSemicolon(look: Look)
    ensures AfterAll(look, ";") == START
  {
  }

  /** The same, cut at a bare `;` after it. */
  lemma CutAfter(pre: string, q: char, s: string, post: string, kind: Kind, k: nat)
    requires Placed(pre, q, s, post, kind) && k < |post| && IsSep(post, Mask(post, kind), k)
    ensures Placed(pre, q, s, post[..k], kind)
    ensures SplitStatements(pre + Enclosed(q, s) + post, kind)
         == SplitStatements(pre + Enclosed(q, s) + post[..k], kind) + SplitStatements(post[k + 1..], kind)
  {
    hide Enclosed, SplitStatements, CodePosition;
    var lit := Enclosed(q, s);
    LiteralMask(pre, q, s, post, kind);
    AroundSep(post, k);
    assert pre + lit + post == pre + lit + post[..k] + ";" + post[k + 1..];
    SplitHomomorphism(pre + lit + post[..k], post[k + 1..], kind);
  }

  /** Text inside a quoted literal or identifier never influences the analysis of a script: neither
      the number of statements nor what the helper makes of any of them. */
  lemma {:induction false} LiteralIsOpaqueInScript(pre: string, q: char, x: string, y: string, post: string, kind: Kind)
    requires Placed(pre, q, x, post, kind) && Placed(pre, q, y, post, kind)
    ensures Verdicts(SplitStatements(pre + Enclosed(q, x) + post, kind), kind)
         == Verdicts(SplitStatements(pre + Enclosed(q, y) + post, kind), kind)
    decreases |pre| + |post|
  {
    hide Judge, BareSql, Enclosed, SplitStatements, Verdicts, Placed;
    var k, j := FirstSep(pre, Mask(pre + [q], kind)[..|pre|]), FirstSep(post, Mask(post, kind));
    if k < |pre| {
      CutBefore(pre, q, x, post, kind, k);
      CutBefore(pre, q, y, post, kind, k);
      var rest := pre[k + 1..];
      VerdictsConcat(SplitStatements(pre[..k], kind), SplitStatements(rest + Enclosed(q, x) + post, kind), kind);
      VerdictsConcat(SplitStatements(pre[..k], kind), SplitStatements(rest + Enclosed(q, y) + post, kind), kind);
      LiteralIsOpaqueInScript(rest, q, x, y, post, kind);
    } else if j < |post| {
      CutAfter(pre, q, x, post, kind, j);
      CutAfter(pre, q, y, post, kind, j);
      VerdictsConcat(SplitStatements(pre + Enclosed(q, x) + post[..j], kind),
        SplitStatements(post[j + 1..], kind), kind);
      VerdictsConcat(SplitStatements(pre + Enclosed(q, y) + post[..j], kind),
        SplitStatements(post[j + 1..], kind), kind);
      LiteralIsOpaqueInScript(pre, q, x, y, post[..j], kind);
    } else {
      AloneAlike(pre, q, x, y, post, kind);
    }
  }

  // ------------------------------ where a literal may stand -------------

  lemma TokenBeforeQuote(look: Look, t: string, q: char, kind: Kind)
    requires t != [] && IsQuote(q, kind) && Reaches(look, t, |t| - 1, kind)
    requires !TokenAt(AfterAll(look, t[..|t| - 1]), [t[|t| - 1]], kind).run
    ensures Reaches(look, t + [q], |t|, kind)
    decreases |t|
  {
    hide AfterAll, TokenAt, Reaches;
    TokenCut(look, t, [q], kind);
    ReachesUnfold(look, t + [q], |t|, kind);
    SliceConcat(t, [q], TokenAt(look, t, kind).len);
    if |t| == 1 {
      AfterNothing(look);
      assert t[..0] == [] && t == [t[0]];
      ReachesStart(AfterAll(look, t), [q], kind);
      assert t[..1] == t && t[1..] + [q] == [q];
    } else {
      ReachesUnfold(look, t, |t| - 1, kind);
      var n := TokenAt(look, t, kind).len;
      assert t[..n] + t[n..][..|t| - n - 1] == t[..|t| - 1];
      AfterAllConcat(look, t[..n], t[n..][..|t| - n - 1]);
      TokenBeforeQuote(AfterAll(look, t[..n]), t[n..], q, kind);
    }
  }

  /** A literal may stand at the start of a text, and after any bare character that is no identifier
      character. */
  lemma AfterBareIsPosition(pre: string, q: char, kind: Kind)
    requires IsQuote(q, kind)
    requires pre != [] ==> Mask(pre, kind)[|pre| - 1] && !IsIdentChar(pre[|pre| - 1])
    ensures CodePosition(pre, q, kind)
  {
    hide TokenAt;
    if pre != [] {
      var m := |pre| - 1;
      CodeReaches(START, pre, m, kind);
      MaskSplit(START, pre, m, kind);
      assert pre[m..] == [pre[m]];
      TokenBeforeQuote(START, pre, q, kind);
      assert pre == pre[..m] + [pre[m]];
      AfterAllConcat(START, pre[..m], [pre[m]]);
      AfterOne(AfterAll(START, pre[..m]), pre[m]);
    }
  }

  lemma AfterOne(look: Look, c: char)
    ensures AfterAll(look, [c]) == After(look, c)
  {
  }
}
