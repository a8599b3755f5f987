/** Where runs end: each at its first terminator, comments of PostgreSQL at the one that balances them, or at
    the end of the text. */
module RunEnds {
  import opened Text
  import opened Lexer
  import opened Quoting

  lemma {:induction false} LineEndsAtNewline(s: string)
    ensures var n := LineLen(s);
      '\n' !in s[..n] && (n < |s| ==> s[n] == '\n')
  {
    if s != [] && s[0] != '\n' {
      LineEndsAtNewline(s[1..]);
      var n := LineLen(s);
      assert s[..n] == [s[0]] + s[1..][..n - 1];
    }
  }

  lemma {:induction false} BracketEndsAtBracket(s: string)
    ensures var n := BracketLen(s);
      if ']' in s then n > 0 && s[n - 1] == ']' && ']' !in s[..n - 1] else n == |s|
  {
    if s != [] && s[0] != ']' {
      BracketEndsAtBracket(s[1..]);
      var n := BracketLen(s);
      assert s == [s[0]] + s[1..];
      if n > 1 { assert s[..n - 1] == [s[0]] + s[1..][..n - 2]; }
    }
  }

  lemma PassTwo(s: string, q: char, backslash: bool)
    requires |s| > 1 && ((backslash && s[0] == '\\') || (s[0] == q && s[1] == q))
    ensures QuotedLen(s, q, backslash) == 2 + QuotedLen(s[2..], q, backslash)
  {
  }

  lemma PassOne(s: string, q: char, backslash: bool)
    requires s != [] && !(backslash && s[0] == '\\')
    ensures s[0] != q ==> QuotedLen(s, q, backslash) == 1 + QuotedLen(s[1..], q, backslash)
    ensures s[0] == q && !(|s| > 1 && s[1] == q) ==> QuotedLen(s, q, backslash) == 1
  {
  }

  lemma {:induction false} QuotedRunIsContained(s: string, q: char, backslash: bool)
    requires q != '\\' && QuotedLen(s, q, backslash) < |s|
    ensures var n := QuotedLen(s, q, backslash);
      n > 0 && s[n - 1] == q && s[n] != q && Contained(q, s[..n - 1], backslash)
    decreases |s|
  {
    LoneEscapeRunsOn(s, q, backslash);
    hide Contained, QuotedLen;
    var n := QuotedLen(s, q, backslash);
    if (backslash && s[0] == '\\') || (s[0] == q && |s| > 1 && s[1] == q) {
      var t := s[2..];
      PassTwo(s, q, backslash);
      QuotedRunIsContained(t, q, backslash);
      assert s[..n - 1] == [s[0], s[1]] + t[..n - 3];
      ContainedPair(q, s[0], s[1], t[..n - 3], backslash);
    } else {
      PassOne(s, q, backslash);
      if s[0] != q {
        var t := s[1..];
        QuotedRunIsContained(t, q, backslash);
        assert s[..n - 1] == [s[0]] + t[..n - 2];
        ContainedChar(q, s[0], t[..n - 2], backslash);
      } else {
        assert s[..0] == [];
        NothingIsContained(q, backslash);
      }
    }
  }

  lemma LoneEscapeRunsOn(s: string, q: char, backslash: bool)
    requires QuotedLen(s, q, backslash) < |s|
    ensures s != [] && (backslash && s[0] == '\\' ==> |s| > 1)
  {
  }

  lemma NothingIsContained(q: char, backslash: bool)
    ensures Contained(q, [], backslash)
  {
  }

  /** A quoted run closes at `n`: at a quote that no other follows, with only doubled quotes and whole escapes before
      it. */
  predicate ClosesAt(s: string, q: char, backslash: bool, n: nat) {
    0 < n <= |s| && s[n - 1] == q && (n < |s| ==> s[n] != q) && Contained(q, s[..n - 1], backslash)
  }

  /** A quoted run ends where it closes, on the last character of the text as well; there is no other such place;
      and when there is none it reaches the end of the text. */
  lemma QuotedRunEnds(s: string, q: char, backslash: bool)
    requires q != '\\'
    ensures forall n: nat :: ClosesAt(s, q, backslash, n) ==> n == QuotedLen(s, q, backslash)
    ensures ClosesAt(s, q, backslash, QuotedLen(s, q, backslash)) || QuotedLen(s, q, backslash) == |s|
  {
    hide Contained, QuotedLen;
    forall n: nat | ClosesAt(s, q, backslash, n) ensures n == QuotedLen(s, q, backslash) {
      assert s == s[..n - 1] + [q] + s[n..];
      ContainedCloses(q, s[..n - 1], s[n..], backslash);
    }
    if QuotedLen(s, q, backslash) < |s| {
      QuotedRunIsContained(s, q, backslash);
    }
  }

  /** Where comments do not nest, a comment ends at the first mark that closes one. */
  lemma {:induction false} FlatCommentEndsAtClose(s: string)
    ensures BlockLen(s, 1, false) == match Find(s, "*/") case None => |s| case Some(p) => p + 2
  {
    if |s| >= 2 && !(s[0] == '*' && s[1] == '/') {
      FlatCommentEndsAtClose(s[1..]);
      assert s[..2] != "*/" by { assert s[..2][0] == s[0] && s[..2][1] == s[1]; }
    } else if |s| >= 2 {
      assert s[..2] == "*/";
    }
  }

  // ------------------------------ comments that nest --------------------

  /** The body of a comment: characters, and whole comments inside it. */
  datatype Piece = Ch(c: char) | Nested(body: seq<Piece>)

  function Body(ps: seq<Piece>): string
    decreases ps
  {
    if ps == [] then []
    else (match ps[0] case Ch(c) => [c] case Nested(body) => "/*" + Body(body) + "*/") + Body(ps[1..])
  }

  predicate Opens(s: string) { |s| >= 2 && s[0] == '/' && s[1] == '*' }

  predicate Closes(s: string) { |s| >= 2 && s[0] == '*' && s[1] == '/' }

  /** Before `tail`, the marks that open and close comments are those of the nested pieces. */
  predicate Balanced(ps: seq<Piece>, tail: string)
    decreases ps
  {
    if ps == [] then true
    else
      && Balanced(ps[1..], tail)
      && match ps[0]
        case Ch(c) => var t := [c] + Body(ps[1..]) + tail; !Opens(t) && !Closes(t)
        case Nested(body) => Balanced(body, "*/" + (Body(ps[1..]) + tail))
  }

  lemma OpenStep(t: string, depth: nat)
    ensures BlockLen("/*" + t, depth + 1, true) == 2 + BlockLen(t, depth + 2, true)
  {
    assert ("/*" + t)[2..] == t;
  }

  lemma CloseStep(t: string, depth: nat)
    ensures BlockLen("*/" + t, depth + 2, true) == 2 + BlockLen(t, depth + 1, true)
    ensures BlockLen("*/" + t, 1, true) == 2
  {
    assert ("*/" + t)[2..] == t;
  }

  lemma CharStep(s: string, depth: nat)
    requires |s| >= 2 && !Opens(s) && !Closes(s)
    ensures BlockLen(s, depth, true) == 1 + BlockLen(s[1..], depth, true)
  {
  }

  lemma {:induction false} BalancedSkipped(ps: seq<Piece>, tail: string, depth: nat)
    requires Balanced(ps, tail) && |tail| >= 2
    ensures BlockLen(Body(ps) + tail, depth + 1, true) == |Body(ps)| + BlockLen(tail, depth + 1, true)
    decreases ps
  {
    hide BlockLen, Opens, Closes;
    if ps == [] {
      assert [] + tail == tail;
    } else {
      var texts := Body(ps[1..]);
      var rest := texts + tail;
      BalancedSkipped(ps[1..], tail, depth);
      match ps[0]
      case Ch(c) =>
        var s := [c] + texts + tail;
        assert s[1..] == rest;
        CharStep(s, depth + 1);
      case Nested(body) =>
        OpenStep(Body(body) + ("*/" + rest), depth);
        BalancedSkipped(body, "*/" + rest, depth + 1);
        CloseStep(rest, depth);
        NestedText(Body(body), texts, tail);
    }
  }

  lemma NestedText(body: string, texts: string, tail: string)
    ensures "/*" + body + "*/" + texts + tail == "/*" + (body + ("*/" + (texts + tail)))
  {
    Regroup("/*", body, "*/", texts + tail);
    assert body + "*/" + (texts + tail) == body + ("*/" + (texts + tail));
    assert "/*" + body + "*/" + texts + tail == "/*" + body + "*/" + (texts + tail);
  }

  /** A comment whose body is balanced is read as one run, up to the mark that closes it. */
  lemma BalancedIsOneRun(ps: seq<Piece>, post: string)
    requires Balanced(ps, "*/" + post)
    ensures BlockLen(Body(ps) + ("*/" + post), 1, true) == |Body(ps)| + 2
  {
    hide BlockLen;
    BalancedSkipped(ps, "*/" + post, 0);
    CloseStep(post, 0);
  }

  /** The end of a text reached with comments still open. */
  ghost predicate Unclosed(s: string) { forall depth: nat :: depth > 0 ==> BlockLen(s, depth, true) == |s| }

  predicate IsBody(s: string, ps: seq<Piece>) {
    var m := |Body(ps)|;
    m + 2 <= |s| && s[..m] == Body(ps) && s[m..m + 2] == "*/" && Balanced(ps, s[m..])
  }

  /** Every run is a balanced comment, or reaches the end of the text. */
  lemma RunIsBalanced(s: string)
    ensures Unclosed(s) || exists ps :: IsBody(s, ps) && BlockLen(s, 1, true) == |Body(ps)| + 2
  {
    var closed, ps := Parse(s);
    if closed {
      var m := |Body(ps)|;
      assert s == Body(ps) + ("*/" + s[m + 2..]) by { assert s == s[..m] + s[m..m + 2] + s[m + 2..]; }
      assert s[m..] == "*/" + s[m + 2..];
      BalancedIsOneRun(ps, s[m + 2..]);
    }
  }

  lemma {:induction false} Parse(s: string) returns (closed: bool, ps: seq<Piece>)
    ensures if closed then IsBody(s, ps) else Unclosed(s)
    decreases |s|
  {
    hide BlockLen, IsBody;
    closed, ps := false, [];
    if |s| < 2 {
      ShortIsUnclosed(s);
    } else if Opens(s) {
      var inner, body := Parse(s[2..]);
      if !inner {
        OpenUnclosed(s);
      } else {
        var rest := InnerSplit(s, body);
        closed, ps := Parse(rest);
        if closed {
          ps := NestedInFront(s, body, rest, ps);
        } else {
          RestUnclosed(s, body, rest);
        }
      }
    } else if Closes(s) {
      closed := true;
      EmptyBody(s);
    } else {
      closed, ps := Parse(s[1..]);
      if closed {
        ps := CharInFront(s, ps);
      } else {
        forall depth: nat | depth > 0 ensures BlockLen(s, depth, true) == |s| { CharStep(s, depth); }
      }
    }
  }

  lemma ShortIsUnclosed(s: string)
    requires |s| < 2
    ensures Unclosed(s)
  {
  }

  lemma EmptyBody(s: string)
    requires Closes(s)
    ensures IsBody(s, [])
  {
    assert Body([]) == [] && s[..0] == [] && s[0..] == s;
    assert s[0..2] == "*/";
  }

  lemma OpenUnclosed(s: string)
    requires Opens(s) && Unclosed(s[2..])
    ensures Unclosed(s)
  {
    hide BlockLen;
    assert s == "/*" + s[2..];
    forall depth: nat | depth > 0 ensures BlockLen(s, depth, true) == |s| {
      OpenStep(s[2..], depth - 1);
      assert BlockLen(s[2..], depth + 1, true) == |s| - 2;
    }
  }

  /** What follows a comment inside a comment. */
  lemma InnerSplit(s: string, body: seq<Piece>) returns (rest: string)
    requires Opens(s) && IsBody(s[2..], body)
    ensures s == "/*" + (Body(body) + ("*/" + rest)) && Balanced(body, "*/" + rest) && |rest| < |s|
  {
    hide Body, Balanced;
    var t, m := s[2..], |Body(body)|;
    rest := t[m + 2..];
    ThreeParts(t, m, m + 2);
    assert s == "/*" + t;
  }

  lemma ThreeParts(t: string, m: nat, n: nat)
    requires m <= n <= |t|
    ensures t == t[..m] + (t[m..n] + t[n..]) && t[m..] == t[m..n] + t[n..]
  {
  }

  lemma RestUnclosed(s: string, body: seq<Piece>, rest: string)
    requires s == "/*" + (Body(body) + ("*/" + rest)) && Balanced(body, "*/" + rest) && Unclosed(rest)
    ensures Unclosed(s)
  {
    hide BlockLen;
    forall depth: nat | depth > 0 ensures BlockLen(s, depth, true) == |s| {
      OpenStep(Body(body) + ("*/" + rest), depth - 1);
      BalancedSkipped(body, "*/" + rest, depth);
      CloseStep(rest, depth - 1);
    }
  }

  lemma NestedInFront(s: string, body: seq<Piece>, rest: string, ps: seq<Piece>) returns (all: seq<Piece>)
    requires s == "/*" + (Body(body) + ("*/" + rest)) && Balanced(body, "*/" + rest) && IsBody(rest, ps)
    ensures IsBody(s, all)
  {
    all := [Nested(body)] + ps;
    var m, head := |Body(ps)|, "/*" + Body(body) + "*/";
    assert s == head + rest;
    assert rest == Body(ps) + rest[m..] by { assert rest == rest[..m] + rest[m..]; }
    NestedBody(body, ps, rest[m..]);
    Shifted(head, rest, m);
  }

  lemma NestedBody(body: seq<Piece>, ps: seq<Piece>, tail: string)
    requires Balanced(ps, tail) && Balanced(body, "*/" + (Body(ps) + tail))
    ensures Body([Nested(body)] + ps) == "/*" + Body(body) + "*/" + Body(ps) && Balanced([Nested(body)] + ps, tail)
  {
    assert ([Nested(body)] + ps)[1..] == ps;
  }

  lemma Shifted(head: string, rest: string, m: nat)
    requires m + 2 <= |rest|
    ensures var s, n := head + rest, |head| + m;
      s[..n] == head + rest[..m] && s[n..] == rest[m..] && s[n..n + 2] == rest[m..m + 2]
  {
  }

  lemma CharInFront(s: string, ps: seq<Piece>) returns (all: seq<Piece>)
    requires s != [] && !Opens(s) && !Closes(s) && IsBody(s[1..], ps)
    ensures IsBody(s, all)
  {
    var t, m := s[1..], |Body(ps)|;
    all := [Ch(s[0])] + ps;
    assert all[1..] == ps && all[0] == Ch(s[0]);
    assert s[m + 1..] == t[m..] && s[m + 1..m + 3] == t[m..m + 2];
    assert s[..m + 1] == [s[0]] + t[..m];
    assert s == [s[0]] + Body(ps) + s[m + 1..] by { assert s == s[..m + 1] + s[m + 1..]; }
  }
}
