/** LIKE patterns (`rows.rs`), and the wildcard matching that reads them: `%` is any text, `_` any one
    character, a backslash takes the next character literally. */
module Like {
  import opened Text

  predicate IsMeta(c: char) { c == '\\' || c == '%' || c == '_' }

  /** The characters of a term, metacharacters behind a backslash. */
  function Escaped(q: string): string {
    if q == [] then [] else (if IsMeta(q[0]) then ['\\', q[0]] else [q[0]]) + Escaped(q[1..])
  }

  function Pattern(q: string): string { "%" + Escaped(q) + "%" }

  lemma {:induction false} EscapedConcat(a: string, b: string)
    ensures Escaped(a + b) == Escaped(a) + Escaped(b)
  {
    if a == [] {
      assert a + b == b;
    } else {
      SliceConcat(a, b, 1);
      EscapedConcat(a[1..], b);
    }
  }

  lemma EscapedOne(q: string, c: char)
    ensures Escaped(q + [c]) == Escaped(q) + (if IsMeta(c) then ['\\', c] else [c])
  {
    EscapedConcat(q, [c]);
    assert [c][1..] == [];
  }

  /** `like_pattern`. A text matches the result exactly when it holds the term, character by character. */
  method LikePattern(q: string) returns (out: string)
    ensures out == Pattern(q)
    ensures forall t :: Matches(out, t) <==> Holds(t, q)
  {
    hide Matches, Holds, Escaped, IsMeta;
    out := "%";
    assert Escaped(q[..0]) == [] by { EscapedNothing(); }
    for i := 0 to |q|
      invariant out == "%" + Escaped(q[..i])
    {
      assert q[..i + 1] == q[..i] + [q[i]];
      EscapedOne(q[..i], q[i]);
      if IsMeta(q[i]) {
        out := out + ['\\'];
      }
      out := out + [q[i]];
    }
    assert q[..|q|] == q;
    out := out + "%";
    forall t ensures Matches(out, t) <==> Holds(t, q) { MatchesIffHolds(q, t); }
  }

  lemma EscapedNothing()
    ensures Escaped([]) == []
  {
  }

  predicate Matches(p: string, t: string)
    decreases |p|, |t|
  {
    if p == [] then t == []
    else if p[0] == '%' then Matches(p[1..], t) || (t != [] && Matches(p, t[1..]))
    else if t == [] then false
    else if p[0] == '_' then Matches(p[1..], t[1..])
    else if p[0] == '\\' then |p| > 1 && p[1] == t[0] && Matches(p[2..], t[1..])
    else p[0] == t[0] && Matches(p[1..], t[1..])
  }

  /** `q` stands somewhere in `t`. */
  predicate Holds(t: string, q: string) { exists i :: 0 <= i <= |t| && q <= t[i..] }

  lemma {:induction false} PercentMatchesAll(t: string)
    ensures Matches("%", t)
  {
    assert "%"[1..] == "";
    if t != [] { PercentMatchesAll(t[1..]); }
  }

  /** An escaped term matches itself only. */
  lemma {:induction false} EscapedMatchesPrefix(q: string, t: string)
    ensures Matches(Escaped(q) + "%", t) <==> q <= t
  {
    var p := Escaped(q) + "%";
    if q == [] {
      assert p == "%";
      PercentMatchesAll(t);
    } else if t != [] {
      var tail := Escaped(q[1..]) + "%";
      EscapedMatchesPrefix(q[1..], t[1..]);
      if IsMeta(q[0]) {
        assert p[2..] == tail && p[1] == q[0];
      } else {
        assert p[1..] == tail && p[0] == q[0];
      }
      PrefixStep(q, t);
    }
  }

  lemma PrefixStep(q: string, t: string)
    requires q != [] && t != []
    ensures q <= t <==> q[0] == t[0] && q[1..] <= t[1..]
  {
    if q[0] == t[0] && q[1..] <= t[1..] {
      assert q == [q[0]] + q[1..] && t == [t[0]] + t[1..];
      assert forall k :: 0 <= k < |q| - 1 ==> q[1..][k] == t[1..][k];
      assert forall k :: 1 <= k < |q| ==> q[k] == q[1..][k - 1] && t[k] == t[1..][k - 1];
    }
  }

  /** LIKE escaping is exact substring search. */
  lemma {:induction false} MatchesIffHolds(q: string, t: string)
    ensures Matches(Pattern(q), t) <==> Holds(t, q)
    decreases |t|
  {
    var p, tail := Pattern(q), Escaped(q) + "%";
    assert p[0] == '%' && p[1..] == tail;
    EscapedMatchesPrefix(q, t);
    assert t[0..] == t;
    if t != [] {
      MatchesIffHolds(q, t[1..]);
      assert forall i :: 0 <= i <= |t| - 1 ==> t[1..][i..] == t[i + 1..];
      if i :| 0 <= i <= |t| && q <= t[i..] {
        assert i > 0 ==> t[1..][i - 1..] == t[i..];
      }
      if j :| 0 <= j <= |t[1..]| && q <= t[1..][j..] {
        assert t[1..][j..] == t[j + 1..];
      }
    }
  }

  // ------------------------------ without case --------------------------

  /** A text folded character by character: a character may become several, as in `LOWER`. */
  function Fold(f: char -> string, s: string): string { if s == [] then [] else f(s[0]) + Fold(f, s[1..]) }

  /** Metacharacters stay as they are, and nothing else becomes one. */
  predicate KeepsMeta(f: char -> string, q: string) {
    && f('\\') == "\\" && f('%') == "%" && f('_') == "_"
    && forall c | c in q && !IsMeta(c) :: forall d | d in f(c) :: !IsMeta(d)
  }

  lemma {:induction false} FoldConcat(f: char -> string, a: string, b: string)
    ensures Fold(f, a + b) == Fold(f, a) + Fold(f, b)
  {
    if a == [] {
      assert a + b == b;
    } else {
      SliceConcat(a, b, 1);
      FoldConcat(f, a[1..], b);
    }
  }

  lemma {:induction false} PlainIsEscaped(s: string)
    requires forall c | c in s :: !IsMeta(c)
    ensures Escaped(s) == s
  {
    if s != [] {
      PlainIsEscaped(s[1..]);
      assert s[0] in s && s == [s[0]] + s[1..];
    }
  }

  lemma FoldOne(f: char -> string, c: char)
    ensures Fold(f, [c]) == f(c)
  {
    assert [c][1..] == [] && f(c) + [] == f(c);
  }

  lemma {:induction false} FoldEscaped(f: char -> string, q: string)
    requires KeepsMeta(f, q)
    ensures Fold(f, Escaped(q)) == Escaped(Fold(f, q))
  {
    if q != [] {
      var c := q[0];
      assert c in q && forall d | d in q[1..] :: d in q;
      var first := if IsMeta(c) then ['\\', c] else [c];
      FoldConcat(f, first, Escaped(q[1..]));
      FoldEscaped(f, q[1..]);
      EscapedConcat(f(c), Fold(f, q[1..]));
      FoldOne(f, c);
      if IsMeta(c) {
        FoldOne(f, '\\');
        FoldConcat(f, ['\\'], [c]);
        assert ['\\'] + [c] == first && Escaped([c]) == ['\\', c] + Escaped([c][1..]);
        assert f(c) == [c] && Escaped(f(c)) == ['\\', c];
      } else {
        PlainIsEscaped(f(c));
      }
    }
  }

  /** Folding the pattern and the cell alike, as the SQLite and PostgreSQL predicates do, searches for
      the term without regard to case. */
  lemma FoldedSearch(f: char -> string, q: string, t: string)
    requires KeepsMeta(f, q)
    ensures Matches(Fold(f, Pattern(q)), Fold(f, t)) <==> Holds(Fold(f, t), Fold(f, q))
  {
    FoldEscaped(f, q);
    FoldConcat(f, "%" + Escaped(q), "%");
    FoldConcat(f, "%", Escaped(q));
    FoldOne(f, '%');
    MatchesIffHolds(Fold(f, q), Fold(f, t));
  }
}
