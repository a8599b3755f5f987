/** Words of a text, and the scan for a keyword as a whole word. */
module Words {
  import opened Text
  import Lexer

  /** `is_ascii_alphanumeric` or `_`, and `is_alphanumeric` or `_`. */
  datatype Alphabet = Ascii | Unicode

  predicate IsWord(a: Alphabet, c: char) {
    || IsAlpha(c) || IsDigit(c) || c == '_'
    || (a == Unicode && c >= '\U{0080}' && !IsBlank(c))
  }

  function WordLen(a: Alphabet, s: string): (n: nat)
    ensures n <= |s|
    ensures forall k :: 0 <= k < n ==> IsWord(a, s[k])
    ensures n < |s| ==> !IsWord(a, s[n])
  {
    if s == [] || !IsWord(a, s[0]) then 0 else 1 + WordLen(a, s[1..])
  }

  /** The maximal words of `s`, in order. */
  function WordsOf(a: Alphabet, s: string): seq<string>
    decreases |s|
  {
    if s == [] then []
    else if !IsWord(a, s[0]) then WordsOf(a, s[1..])
    else
      var n := WordLen(a, s);
      [s[..n]] + WordsOf(a, s[n..])
  }

  predicate Apart(a: Alphabet, u: string, v: string) {
    u == [] || v == [] || !IsWord(a, u[|u| - 1]) || !IsWord(a, v[0])
  }

  lemma WordLenIs(a: Alphabet, s: string, n: nat)
    requires n <= |s| && (forall k :: 0 <= k < n ==> IsWord(a, s[k])) && (n < |s| ==> !IsWord(a, s[n]))
    ensures WordLen(a, s) == n
  {
  }

  lemma WordLenConcat(a: Alphabet, u: string, v: string)
    requires u != [] && Apart(a, u, v)
    ensures WordLen(a, u + v) == WordLen(a, u)
  {
    WordLenIs(a, u + v, WordLen(a, u));
  }

  lemma WordsSkip(a: Alphabet, s: string)
    requires s != [] && !IsWord(a, s[0])
    ensures WordsOf(a, s) == WordsOf(a, s[1..])
  {
  }

  lemma WordsTake(a: Alphabet, s: string)
    requires s != [] && IsWord(a, s[0])
    ensures var n := WordLen(a, s); n > 0 && WordsOf(a, s) == [s[..n]] + WordsOf(a, s[n..])
  {
  }

  lemma WordsOfNothing(a: Alphabet)
    ensures WordsOf(a, []) == []
  {
  }

  lemma ApartSlice(a: Alphabet, u: string, v: string, n: nat)
    requires Apart(a, u, v) && n <= |u|
    ensures Apart(a, u[n..], v)
  {
  }

  /** Words do not reach across a gap. */
  lemma {:induction false} WordsConcat(a: Alphabet, u: string, v: string)
    requires Apart(a, u, v)
    ensures WordsOf(a, u + v) == WordsOf(a, u) + WordsOf(a, v)
    decreases |u|
  {
    hide WordsOf, IsWord, WordLen, Apart;
    if u == [] {
      WordsOfNothing(a);
      assert u + v == v;
    } else {
      var n := if IsWord(a, u[0]) then WordLen(a, u) else 1;
      SliceConcat(u, v, n);
      ApartSlice(a, u, v, n);
      if IsWord(a, u[0]) {
        WordsTake(a, u);
        WordsTake(a, u + v);
        WordLenConcat(a, u, v);
      } else {
        WordsSkip(a, u);
        WordsSkip(a, u + v);
      }
      WordsConcat(a, u[n..], v);
    }
  }

  function Spaces(n: nat): (s: string)
    ensures |s| == n && forall k :: 0 <= k < n ==> s[k] == ' '
  {
    seq(n, _ => ' ')
  }

  lemma {:induction false} NoWords(a: Alphabet, s: string)
    requires forall k :: 0 <= k < |s| ==> !IsWord(a, s[k])
    ensures WordsOf(a, s) == []
  {
    if s != [] {
      NoWords(a, s[1..]);
    }
  }

  /** How much space stands at a gap does not matter. */
  lemma WordsAroundSpaces(a: Alphabet, u: string, n: nat, v: string)
    requires n > 0
    ensures WordsOf(a, u + Spaces(n) + v) == WordsOf(a, u) + WordsOf(a, v)
  {
    hide WordsOf;
    WordsConcat(a, u + Spaces(n), v);
    WordsConcat(a, u, Spaces(n));
    NoWords(a, Spaces(n));
  }

  // ------------------------------ the scan ------------------------------

  predicate Bounded(h: string, start: nat, end: nat)
    requires start <= end <= |h|
  {
    (start == 0 || !IsWord(Ascii, h[start - 1])) && (end == |h| || !IsWord(Ascii, h[end]))
  }

  predicate AllWord(n: string) { n != [] && forall k :: 0 <= k < |n| ==> IsWord(Ascii, n[k]) }

  /** `match_indices`: non-overlapping matches from `from` on; is one of them a whole word? */
  predicate AnyWholeMatch(h: string, needle: string, from: nat)
    requires AllWord(needle) && from <= |h|
    decreases |h| - from
  {
    match Lexer.Find(h[from..], needle)
    case None => false
    case Some(p) =>
      Bounded(h, from + p, from + p + |needle|) || AnyWholeMatch(h, needle, from + p + |needle|)
  }

  predicate WordPresent(h: string, needles: seq<string>)
    requires forall n | n in needles :: AllWord(n)
  {
    exists n | n in needles :: AnyWholeMatch(h, n, 0)
  }

  predicate StandsAt(h: string, needle: string, k: nat) {
    k + |needle| <= |h| && h[k..k + |needle|] == needle
  }

  /** `needle` stands at `k` as a whole word. */
  predicate WordAt(h: string, needle: string, k: nat) {
    StandsAt(h, needle, k) && Bounded(h, k, k + |needle|)
  }

  lemma StandsInRest(h: string, n: nat, needle: string, k: nat)
    requires n <= |h|
    ensures StandsAt(h[n..], needle, k) == StandsAt(h, needle, n + k)
  {
    if n + k + |needle| <= |h| {
      assert h[n..][k..k + |needle|] == h[n + k..n + k + |needle|];
    }
  }

  lemma StandsChar(h: string, needle: string, k: nat, j: nat)
    requires StandsAt(h, needle, k) && j < |needle|
    ensures h[k + j] == needle[j]
  {
    assert h[k..k + |needle|][j] == h[k + j];
  }

  /** The search finds the first place. */
  lemma {:induction false} FindFirst(s: string, needle: string)
    requires needle != []
    ensures var found := Lexer.Find(s, needle);
      && (found.Some? ==> StandsAt(s, needle, found.value))
      && (forall k: nat :: (found.None? || k < found.value) ==> !StandsAt(s, needle, k))
  {
    if |needle| <= |s| && s[..|needle|] != needle {
      FindFirst(s[1..], needle);
      forall k: nat | k > 0 ensures StandsAt(s, needle, k) == StandsAt(s[1..], needle, k - 1) {
        StandsInRest(s, 1, needle, k - 1);
      }
      forall k: nat | Lexer.Find(s, needle).None? || k < Lexer.Find(s, needle).value
        ensures !StandsAt(s, needle, k)
      {
        if k > 0 { assert StandsAt(s, needle, k) == StandsAt(s[1..], needle, k - 1); }
      }
    }
  }

  lemma MatchesKeepApart(h: string, needle: string, q: nat, k: nat)
    requires AllWord(needle) && StandsAt(h, needle, q) && WordAt(h, needle, k)
    ensures k <= q || k >= q + |needle|
  {
    if q < k < q + |needle| {
      StandsChar(h, needle, q, k - 1 - q);
    }
  }

  /** Skipping past a match that is no whole word skips no whole word. */
  lemma {:induction false} ScanFinds(h: string, needle: string, from: nat)
    requires AllWord(needle) && from <= |h|
    ensures AnyWholeMatch(h, needle, from) <==> exists k :: k >= from && WordAt(h, needle, k)
    decreases |h| - from
  {
    hide Lexer.Find, StandsAt;
    var found := Lexer.Find(h[from..], needle);
    FindFirst(h[from..], needle);
    forall k: nat | k >= from ensures StandsAt(h, needle, k) == StandsAt(h[from..], needle, k - from) {
      StandsInRest(h, from, needle, k - from);
    }
    if found.Some? {
      var q := from + found.value;
      assert StandsAt(h[from..], needle, q - from);
      ScanFinds(h, needle, q + |needle|);
      assert Bounded(h, q, q + |needle|) ==> WordAt(h, needle, q);
      forall k: nat | k >= from && WordAt(h, needle, k) ensures k == q || k >= q + |needle| {
        assert StandsAt(h[from..], needle, k - from);
        MatchesKeepApart(h, needle, q, k);
      }
    } else {
      forall k: nat | k >= from ensures !WordAt(h, needle, k) {
        assert !StandsAt(h[from..], needle, k - from);
      }
    }
  }

  lemma {:induction false} WordAtIsWord(h: string, needle: string, k: nat)
    requires AllWord(needle) && WordAt(h, needle, k)
    ensures needle in WordsOf(Ascii, h)
    decreases |h|
  {
    hide WordsOf, IsWord, WordLen;
    StandsChar(h, needle, k, 0);
    if !IsWord(Ascii, h[0]) {
      WordsSkip(Ascii, h);
      StandsInRest(h, 1, needle, k - 1);
      WordAtIsWord(h[1..], needle, k - 1);
    } else {
      WordsTake(Ascii, h);
      var n := WordLen(Ascii, h);
      if k == 0 {
        forall j | 0 <= j < |needle| ensures IsWord(Ascii, h[j]) { StandsChar(h, needle, 0, j); }
        WordLenIs(Ascii, h, |needle|);
        assert h[..|needle|] == h[0..|needle|];
      } else {
        assert k > n;
        StandsInRest(h, n, needle, k - n);
        WordAtIsWord(h[n..], needle, k - n);
      }
    }
  }

  lemma StandsFirst(h: string, n: nat)
    requires n <= |h|
    ensures StandsAt(h, h[..n], 0)
  {
    assert h[0..n] == h[..n];
  }

  lemma {:induction false} WordIsWordAt(h: string, needle: string) returns (k: nat)
    requires AllWord(needle) && needle in WordsOf(Ascii, h)
    ensures WordAt(h, needle, k)
    decreases |h|
  {
    hide WordsOf, IsWord, WordLen;
    if h == [] { WordsOfNothing(Ascii); }
    if !IsWord(Ascii, h[0]) {
      WordsSkip(Ascii, h);
      var j := WordIsWordAt(h[1..], needle);
      k := j + 1;
      StandsInRest(h, 1, needle, j);
    } else {
      WordsTake(Ascii, h);
      var n := WordLen(Ascii, h);
      if needle == h[..n] {
        k := 0;
        StandsFirst(h, n);
      } else {
        var j := WordIsWordAt(h[n..], needle);
        k := n + j;
        StandsInRest(h, n, needle, j);
        StandsChar(h, needle, k, 0);
      }
    }
  }

  /** The substring scan agrees with tokenisation. */
  lemma ScanIsTokenisation(h: string, needles: seq<string>)
    requires forall n | n in needles :: AllWord(n)
    ensures WordPresent(h, needles) <==> exists n | n in needles :: n in WordsOf(Ascii, h)
  {
    forall n | n in needles ensures AnyWholeMatch(h, n, 0) <==> n in WordsOf(Ascii, h) {
      ScanFinds(h, n, 0);
      if n in WordsOf(Ascii, h) {
        var k := WordIsWordAt(h, n);
      }
      if AnyWholeMatch(h, n, 0) {
        var k :| k >= 0 && WordAt(h, n, k);
        WordAtIsWord(h, n, k);
      }
    }
  }

  // ------------------------------ uppercase -----------------------------

  function UppercaseAll(ws: seq<string>): (r: seq<string>)
    ensures |r| == |ws|
  {
    seq(|ws|, i requires 0 <= i < |ws| => Uppercase(ws[i]))
  }

  lemma UppercaseSlices(s: string, n: nat)
    requires n <= |s|
    ensures Uppercase(s)[..n] == Uppercase(s[..n]) && Uppercase(s)[n..] == Uppercase(s[n..])
  {
  }

  lemma UppercaseIsWord(a: Alphabet, s: string)
    ensures forall k :: 0 <= k < |s| ==> IsWord(a, Uppercase(s)[k]) == IsWord(a, s[k])
  {
  }

  lemma UppercaseAllInFront(w: string, ws: seq<string>)
    ensures UppercaseAll([w] + ws) == [Uppercase(w)] + UppercaseAll(ws)
  {
    hide Uppercase;
  }

  lemma {:induction false} WordsUppercase(a: Alphabet, s: string)
    ensures WordsOf(a, Uppercase(s)) == UppercaseAll(WordsOf(a, s))
    decreases |s|
  {
    hide WordsOf, IsWord, WordLen, Uppercase, UppercaseAll;
    var t := Uppercase(s);
    UppercaseIsWord(a, s);
    if s == [] {
      WordsOfNothing(a);
      assert UppercaseAll([]) == [];
    } else {
      var n := if IsWord(a, s[0]) then WordLen(a, s) else 1;
      UppercaseSlices(s, n);
      if IsWord(a, s[0]) {
        WordsTake(a, s);
        WordLenIs(a, t, n);
        WordsTake(a, t);
        UppercaseAllInFront(s[..n], WordsOf(a, s[n..]));
      } else {
        WordsSkip(a, s);
        WordsSkip(a, t);
      }
      WordsUppercase(a, s[n..]);
    }
  }
}
