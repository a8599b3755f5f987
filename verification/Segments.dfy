/** Texts built of plain stretches and quoted literals, and how the lexer takes them. */
module Segments {
  import opened Text
  import opened Lexer
  import opened LexerLaws
  import opened Split
  import opened Quoting

  datatype Seg = Plain(text: string) | Lit(q: char, body: string)

  function RenderSeg(s: Seg): string {
    match s
    case Plain(text) => text
    case Lit(q, body) => Enclosed(q, body)
  }

  function Render(segs: seq<Seg>): string {
    if segs == [] then [] else RenderSeg(segs[0]) + Render(segs[1..])
  }

  lemma {:induction false} RenderConcat(a: seq<Seg>, b: seq<Seg>)
    ensures Render(a + b) == Render(a) + Render(b)
  {
    if a == [] {
      assert a + b == b;
    } else {
      SliceConcat(a, b, 1);
      RenderConcat(a[1..], b);
    }
  }

  /** The mask of a rendered text: the literals, and nothing else, are runs. */
  function SegMask(segs: seq<Seg>): (m: seq<bool>)
    ensures |m| == |Render(segs)|
  {
    if segs == [] then [] else Flags(|RenderSeg(segs[0])|, segs[0].Plain?) + SegMask(segs[1..])
  }

  /** A character no engine gives a meaning to on its own. */
  predicate PlainChar(c: char) { c !in {'-', '#', '/', '\'', '"', '`', '[', '$', ';'} }

  predicate PlainAt(s: string, i: nat)
    requires i < |s|
  {
    PlainChar(s[i]) || (s[i] == '-' && i + 1 < |s| && s[i + 1] != '-')
  }

  predicate PlainText(s: string) { forall i :: 0 <= i < |s| ==> PlainAt(s, i) }

  predicate EndsInE(s: string) { s != [] && (s[|s| - 1] == 'E' || s[|s| - 1] == 'e') }

  function EndEstr(estr: bool, segs: seq<Seg>): bool
    decreases segs
  {
    if segs == [] then estr else EndEstr(segs[0].Plain? && EndsInE(segs[0].text), segs[1..])
  }

  /** Every literal is contained, stands after no E and before no other literal. */
  predicate SegsOk(estr: bool, segs: seq<Seg>, kind: Kind)
    decreases segs
  {
    if segs == [] then true
    else
      && (match segs[0]
          case Plain(text) => text != [] && PlainText(text)
          case Lit(q, body) =>
            && !estr && IsQuote(q, kind) && Contained(q, body, Escaping(q, kind))
            && (|segs| > 1 ==> segs[1].Plain?))
      && SegsOk(segs[0].Plain? && EndsInE(segs[0].text), segs[1..], kind)
  }

  predicate LastIsLit(segs: seq<Seg>) { segs != [] && segs[|segs| - 1].Lit? }

  lemma {:induction false} SegsOkConcat(estr: bool, a: seq<Seg>, b: seq<Seg>, kind: Kind)
    requires SegsOk(estr, a, kind) && SegsOk(EndEstr(estr, a), b, kind)
    requires LastIsLit(a) && b != [] ==> b[0].Plain?
    ensures SegsOk(estr, a + b, kind) && EndEstr(estr, a + b) == EndEstr(EndEstr(estr, a), b)
    decreases a
  {
    if a == [] {
      assert a + b == b;
    } else {
      SliceConcat(a, b, 1);
      SegsOkConcat(a[0].Plain? && EndsInE(a[0].text), a[1..], b, kind);
    }
  }

  lemma {:induction false} LessEstr(segs: seq<Seg>, kind: Kind)
    requires SegsOk(true, segs, kind)
    ensures SegsOk(false, segs, kind)
    ensures segs != [] ==> EndEstr(false, segs) == EndEstr(true, segs)
  {
  }

  // ------------------------------ as the lexer reads --------------------

  predicate MasksTo(look: Look, t: string, m: seq<bool>, rest: string, kind: Kind) {
    && MaskFrom(look, t + rest, kind) == m + MaskFrom(AfterAll(look, t), rest, kind)
    && Reaches(look, t + rest, |t|, kind)
  }

  lemma MasksJoin(look: Look, t: string, m: seq<bool>, u: string, n: seq<bool>, rest: string, kind: Kind)
    requires MasksTo(look, t, m, u + rest, kind) && MasksTo(AfterAll(look, t), u, n, rest, kind)
    ensures MasksTo(look, t + u, m + n, rest, kind)
  {
    hide TokenAt, MaskFrom, AfterAll, Reaches;
    var more := u + rest;
    assert t + u + rest == t + more;
    SliceConcat(t, more, |t|);
    assert t[..|t|] == t && t[|t|..] + more == more;
    ReachesOn(look, t + more, |t|, |u|, kind);
    AfterAllConcat(look, t, u);
    var last := MaskFrom(AfterAll(look, t + u), rest, kind);
    assert m + (n + last) == m + n + last;
  }

  lemma MasksNothing(look: Look, rest: string, kind: Kind)
    ensures MasksTo(look, [], [], rest, kind)
  {
    assert [] + rest == rest;
  }

  lemma OneCharMasks(look: Look, c: char, rest: string, kind: Kind)
    requires TokenAt(look, [c] + rest, kind) == Token(1, false)
    ensures MasksTo(look, [c], [true], rest, kind)
    ensures AfterAll(look, [c]) == After(look, c)
  {
    hide TokenAt;
    AfterOne(look, c);
    var s := [c] + rest;
    assert s[..1] == [c] && s[1..] == rest;
    assert Flags(1, true) == [true];
    assert Reaches(look, s, 1, kind) by { assert Reaches(AfterAll(look, s[..1]), s[1..], 0, kind); }
    assert MaskFrom(look, s, kind) == Flags(1, true) + MaskFrom(AfterAll(look, s[..1]), s[1..], kind);
  }

  lemma {:induction false} PlainMask(look: Look, p: string, rest: string, kind: Kind)
    requires PlainText(p)
    ensures MasksTo(look, p, Flags(|p|, true), rest, kind)
    decreases |p|
  {
    hide MasksTo, AfterAll, TokenAt;
    if p == [] {
      MasksNothing(look, rest, kind);
    } else {
      PlainToken(look, p, rest, kind);
      assert p + rest == [p[0]] + (p[1..] + rest);
      OneCharMasks(look, p[0], p[1..] + rest, kind);
      assert forall i :: 0 <= i < |p| - 1 ==> PlainAt(p[1..], i) == PlainAt(p, i + 1);
      PlainMask(After(look, p[0]), p[1..], rest, kind);
      MasksJoin(look, [p[0]], [true], p[1..], Flags(|p| - 1, true), rest, kind);
      assert [p[0]] + p[1..] == p && [true] + Flags(|p| - 1, true) == Flags(|p|, true);
    }
  }

  lemma PlainToken(look: Look, p: string, rest: string, kind: Kind)
    requires PlainText(p) && p != []
    ensures TokenAt(look, p + rest, kind) == Token(1, false)
  {
    hide RunLen;
    var s := p + rest;
    assert s[0] == p[0] && PlainAt(p, 0);
    assert |p| > 1 ==> s[1] == p[1];
    assert OpeningAt(look, s, kind) == Opening.Bare;
    BareIsOne(look, s, kind);
  }

  predicate NotQuote(s: string) { s != [] ==> s[0] != '\'' && s[0] != '"' && s[0] != '`' }

  lemma LitMask(look: Look, q: char, body: string, rest: string, kind: Kind)
    requires IsQuote(q, kind) && Contained(q, body, Escaping(q, kind)) && !look.estr && NotQuote(rest)
    ensures MaskFrom(look, Enclosed(q, body) + rest, kind)
      == Flags(|Enclosed(q, body)|, false) + MaskFrom(START, rest, kind)
    ensures Reaches(look, Enclosed(q, body) + rest, |Enclosed(q, body)|, kind)
    ensures AfterAll(look, Enclosed(q, body)) == START
  {
    hide TokenAt, AfterAll, Enclosed;
    LiteralToken(look, q, body, rest, kind);
    AfterQuote(look, q, body, kind);
    var lit := Enclosed(q, body);
    SliceConcat(lit, rest, |lit|);
    assert lit[..|lit|] == lit && lit[|lit|..] + rest == rest;
  }

  lemma {:induction false} EndsLook(look: Look, p: string)
    requires p != []
    ensures AfterAll(look, p).estr ==> EndsInE(p)
  {
    assert p == p[..|p| - 1] + [p[|p| - 1]];
    AfterAllConcat(look, p[..|p| - 1], [p[|p| - 1]]);
    AfterOne(AfterAll(look, p[..|p| - 1]), p[|p| - 1]);
  }

  lemma SegMasksTo(look: Look, seg: Seg, rest: string, kind: Kind)
    requires SegsOk(look.estr, [seg], kind) && (seg.Lit? ==> NotQuote(rest))
    ensures MasksTo(look, RenderSeg(seg), Flags(|RenderSeg(seg)|, seg.Plain?), rest, kind)
    ensures AfterAll(look, RenderSeg(seg)).estr ==> seg.Plain? && EndsInE(seg.text)
  {
    hide MaskFrom, AfterAll, Reaches, Enclosed, PlainText;
    assert [seg][0] == seg;
    if seg.Plain? {
      PlainMask(look, seg.text, rest, kind);
      EndsLook(look, seg.text);
    } else {
      LitMask(look, seg.q, seg.body, rest, kind);
    }
  }

  /** A rendered text has exactly its literals masked, whatever follows. */
  lemma {:induction false} SegsMask(look: Look, segs: seq<Seg>, rest: string, kind: Kind)
    requires SegsOk(look.estr, segs, kind)
    requires LastIsLit(segs) ==> NotQuote(rest)
    ensures MasksTo(look, Render(segs), SegMask(segs), rest, kind)
    decreases |segs|
  {
    hide RenderSeg, MasksTo;
    if segs == [] {
      MasksNothing(look, rest, kind);
    } else {
      var first, tail := segs[0], segs[1..];
      var estr := first.Plain? && EndsInE(first.text);
      if first.Lit? { PlainStart(tail, rest, estr, kind); }
      SegMasksTo(look, first, Render(tail) + rest, kind);
      var look' := AfterAll(look, RenderSeg(first));
      if estr && !look'.estr {
        LessEstr(tail, kind);
      }
      SegsMask(look', tail, rest, kind);
      MasksJoin(look, RenderSeg(first), Flags(|RenderSeg(first)|, first.Plain?),
        Render(tail), SegMask(tail), rest, kind);
    }
  }

  lemma PlainStart(segs: seq<Seg>, rest: string, estr: bool, kind: Kind)
    requires segs == [] || segs[0].Plain?
    requires SegsOk(estr, segs, kind)
    requires segs == [] ==> NotQuote(rest)
    ensures NotQuote(Render(segs) + rest)
  {
    if segs == [] {
      assert Render(segs) + rest == rest;
    } else {
      var text := segs[0].text;
      assert PlainAt(text, 0) && Render(segs)[0] == text[0];
    }
  }

  lemma {:induction false} NoSemicolon(segs: seq<Seg>, k: nat, estr: bool, kind: Kind)
    requires SegsOk(estr, segs, kind) && k < |Render(segs)|
    ensures !IsSep(Render(segs), SegMask(segs), k)
    decreases |segs|
  {
    var first, tail := RenderSeg(segs[0]), segs[1..];
    if k < |first| {
      assert Render(segs)[k] == first[k];
      assert SegMask(segs)[k] == segs[0].Plain?;
      if segs[0].Plain? { assert PlainAt(first, k); }
    } else {
      NoSemicolon(tail, k - |first|, segs[0].Plain? && EndsInE(segs[0].text), kind);
      assert Render(segs)[k] == Render(tail)[k - |first|];
      assert SegMask(segs)[k] == SegMask(tail)[k - |first|];
    }
  }

  /** A rendered text ended by `;` is one statement, whatever follows. */
  lemma SegsAreOneStatement(segs: seq<Seg>, rest: string, kind: Kind)
    requires SegsOk(false, segs, kind)
    requires var t := Render(segs); t != [] && Trim(t) == t
    ensures SplitStatements(Render(segs) + ";" + rest, kind) == [Render(segs)] + SplitStatements(rest, kind)
  {
    hide MaskFrom, SplitStatements, SegMask;
    var t := Render(segs);
    var tail := ";" + rest;
    assert t + ";" + rest == t + tail;
    SegsMask(START, segs, tail, kind);
    SemicolonIsBare(AfterAll(START, t), rest, kind);
    SplitHomomorphism(t, rest, kind);
    assert t + "" == t;
    SegsMask(START, segs, "", kind);
    var m := Mask(t, kind);
    NoMask(AfterAll(START, t), kind);
    assert m == SegMask(segs);
    forall k | 0 <= k < |t| ensures !IsSep(t, m, k) { NoSemicolon(segs, k, false, kind); }
    OneStatement(t, kind);
  }

  lemma SemicolonIsBare(look: Look, rest: string, kind: Kind)
    ensures MaskFrom(look, ";" + rest, kind)[0]
  {
    assert TokenAt(look, ";" + rest, kind) == Token(1, false);
  }

  /** Each literal of a rendered text is one token of the lexer. */
  lemma LitIsOneToken(segs: seq<Seg>, i: nat, rest: string, kind: Kind)
    requires SegsOk(false, segs, kind) && i < |segs| && segs[i].Lit? && NotQuote(rest)
    ensures var pre, post := Render(segs[..i]), Render(segs[i + 1..]) + rest;
      && Render(segs) + rest == pre + (RenderSeg(segs[i]) + post)
      && Reaches(START, Render(segs) + rest, |pre|, kind)
      && TokenAt(AfterAll(START, pre), RenderSeg(segs[i]) + post, kind) == Token(|RenderSeg(segs[i])|, true)
  {
    hide MaskFrom, TokenAt, Enclosed, Contained, Render, AfterAll, Reaches, NotQuote;
    var a, b, tail := segs[..i], segs[i..], segs[i + 1..];
    assert segs == a + b;
    SegsOkParts(false, a, b, kind);
    assert b[1..] == tail && segs == a + b;
    RenderAround(a, segs[i], tail, rest);
    assert b == [segs[i]] + tail;
    SegsMask(START, a, RenderSeg(segs[i]) + (Render(tail) + rest), kind);
    PlainStart(tail, rest, false, kind);
    LookAfterSegs(a, kind);
    LiteralToken(AfterAll(START, Render(a)), b[0].q, b[0].body, Render(tail) + rest, kind);
  }

  lemma RenderAround(a: seq<Seg>, s: Seg, b: seq<Seg>, rest: string)
    ensures Render(a + ([s] + b)) + rest == Render(a) + (RenderSeg(s) + (Render(b) + rest))
  {
    hide RenderSeg;
    RenderConcat(a, [s] + b);
    assert ([s] + b)[1..] == b;
    var x, y, z := Render(a), RenderSeg(s), Render(b);
    assert x + (y + z) + rest == x + (y + (z + rest));
  }

  lemma {:induction false} SegsOkParts(estr: bool, a: seq<Seg>, b: seq<Seg>, kind: Kind)
    requires SegsOk(estr, a + b, kind)
    ensures SegsOk(estr, a, kind) && SegsOk(EndEstr(estr, a), b, kind)
    ensures LastIsLit(a) && b != [] ==> b[0].Plain?
    decreases a
  {
    if a == [] {
      assert a + b == b;
    } else {
      SliceConcat(a, b, 1);
      SegsOkParts(a[0].Plain? && EndsInE(a[0].text), a[1..], b, kind);
      assert |a| > 1 ==> (a + b)[1] == a[1];
      assert |a| == 1 && b != [] ==> (a + b)[1] == b[0];
    }
  }

  lemma {:induction false} LookAfterSegs(segs: seq<Seg>, kind: Kind)
    requires SegsOk(false, segs, kind)
    ensures AfterAll(START, Render(segs)).estr ==> EndEstr(false, segs)
  {
    if segs == [] {
      AfterNothing(START);
    } else {
      var a, last := segs[..|segs| - 1], segs[|segs| - 1];
      assert segs == a + [last];
      RenderConcat(a, [last]);
      SegsOkParts(false, a, [last], kind);
      SegsOkConcat(false, a, [last], kind);
      AfterAllConcat(START, Render(a), Render([last]));
      assert Render([last]) == RenderSeg(last) + "";
      assert Render([last]) == RenderSeg(last);
      if last.Plain? {
        EndsLook(AfterAll(START, Render(a)), last.text);
        assert EndEstr(EndEstr(false, a), [last]) == EndEstr(EndsInE(last.text), [last][1..]);
      } else {
        AfterQuote(AfterAll(START, Render(a)), last.q, last.body, kind);
      }
    }
  }
}
