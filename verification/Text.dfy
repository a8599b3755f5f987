/** Characters and trimming, as the Rust standard library defines them. A text is a
    sequence of Unicode scalar values; every character the helper gives a meaning to is
    ASCII, so reading by character and reading by UTF-8 byte find the same runs. */
module Text {

  datatype Option<+T> = None | Some(value: T)

  type Byte = b: nat | b < 256

  predicate IsAlpha(c: char) { 'a' <= c <= 'z' || 'A' <= c <= 'Z' }

  predicate IsDigit(c: char) { '0' <= c <= '9' }

  /** `u8::is_ascii_whitespace`: no vertical tab. */
  predicate IsAsciiSpace(c: char) {
    c == ' ' || c == '\t' || c == '\n' || c == '\r' || c == '\U{000C}'
  }

  /** `char::is_whitespace`: the Unicode White_Space property. */
  predicate IsBlank(c: char) {
    || '\U{0009}' <= c <= '\U{000D}' || c == ' ' || c == '\U{0085}' || c == '\U{00A0}' || c == '\U{1680}'
    || '\U{2000}' <= c <= '\U{200A}' || c == '\U{2028}' || c == '\U{2029}' || c == '\U{202F}'
    || c == '\U{205F}' || c == '\U{3000}'
  }

  function Upper(c: char): char {
    if 'a' <= c <= 'z' then (c as int - 'a' as int + 'A' as int) as char else c
  }

  /** `str::to_ascii_uppercase`. */
  function Uppercase(s: string): (r: string)
    ensures |r| == |s|
  {
    seq(|s|, i requires 0 <= i < |s| => Upper(s[i]))
  }

  function TrimStart(s: string): string {
    if s != [] && IsBlank(s[0]) then TrimStart(s[1..]) else s
  }

  function TrimEnd(s: string): string {
    if s != [] && IsBlank(s[|s| - 1]) then TrimEnd(s[..|s| - 1]) else s
  }

  function Trim(s: string): string { TrimEnd(TrimStart(s)) }

  predicate AllBlank(s: string) { forall c | c in s :: IsBlank(c) }

  lemma SliceConcat<T>(u: seq<T>, v: seq<T>, n: nat)
    requires n <= |u|
    ensures (u + v)[..n] == u[..n] && (u + v)[n..] == u[n..] + v
  {
  }

  lemma Regroup<T>(a: seq<T>, b: seq<T>, c: seq<T>, d: seq<T>)
    ensures a + b + c + d == a + (b + c + d)
  {
  }

  /** What `TrimStart` removes. */
  lemma {:induction false} TrimStartSplits(s: string) returns (n: nat)
    ensures n <= |s| && AllBlank(s[..n]) && TrimStart(s) == s[n..]
    ensures n < |s| ==> !IsBlank(s[n])
  {
    if s != [] && IsBlank(s[0]) {
      var k := TrimStartSplits(s[1..]);
      n := k + 1;
      assert s[..n] == [s[0]] + s[1..][..k];
      assert s[1..][k..] == s[n..];
    } else {
      n := 0;
    }
  }

  /** What `TrimEnd` removes. */
  lemma {:induction false} TrimEndSplits(s: string) returns (n: nat)
    ensures n <= |s| && AllBlank(s[n..]) && TrimEnd(s) == s[..n]
    ensures n > 0 ==> !IsBlank(s[n - 1])
  {
    if s != [] && IsBlank(s[|s| - 1]) {
      n := TrimEndSplits(s[..|s| - 1]);
      assert s[n..] == s[..|s| - 1][n..] + [s[|s| - 1]];
      assert s[..|s| - 1][..n] == s[..n];
    } else {
      n := |s|;
    }
  }

  /** The trimmed text is the slice between the first and the last non-blank. */
  lemma TrimSplits(s: string) returns (lo: nat, hi: nat)
    ensures lo <= hi <= |s| && Trim(s) == s[lo..hi]
    ensures AllBlank(s[..lo]) && AllBlank(s[hi..])
    ensures lo < hi ==> !IsBlank(s[lo]) && !IsBlank(s[hi - 1])
  {
    lo := TrimStartSplits(s);
    var k := TrimEndSplits(s[lo..]);
    hi := lo + k;
    assert s[lo..][..k] == s[lo..hi];
    assert s[lo..][k..] == s[hi..];
  }

  lemma {:induction false} TrimEndsAt(s: string, n: nat)
    requires n <= |s| && AllBlank(s[n..]) && (n > 0 ==> !IsBlank(s[n - 1]))
    ensures TrimEnd(s) == s[..n]
  {
    var k := TrimEndSplits(s);
    assert forall i :: k <= i < |s| ==> s[i] == s[k..][i - k];
    assert forall i :: n <= i < |s| ==> s[i] == s[n..][i - n];
  }

  lemma {:induction false} TrimStartsAt(s: string, n: nat)
    requires n <= |s| && AllBlank(s[..n]) && (n < |s| ==> !IsBlank(s[n]))
    ensures TrimStart(s) == s[n..]
  {
    var k := TrimStartSplits(s);
    assert forall i :: 0 <= i < k ==> s[i] == s[..k][i];
    assert forall i :: 0 <= i < n ==> s[i] == s[..n][i];
  }

  /** Trimming is determined by its outcome. */
  lemma TrimIs(s: string, lo: nat, hi: nat)
    requires lo < hi <= |s| && AllBlank(s[..lo]) && AllBlank(s[hi..])
    requires !IsBlank(s[lo]) && !IsBlank(s[hi - 1])
    ensures Trim(s) == s[lo..hi]
  {
    TrimStartsAt(s, lo);
    var t := s[lo..];
    assert t[hi - lo..] == s[hi..];
    TrimEndsAt(t, hi - lo);
    assert t[..hi - lo] == s[lo..hi];
  }

  lemma TrimBlank(s: string)
    requires AllBlank(s)
    ensures Trim(s) == []
  {
    var lo, hi := TrimSplits(s);
    assert forall i :: 0 <= i < |s| ==> s[i] in s;
  }

  lemma TrimTwice(s: string)
    ensures Trim(Trim(s)) == Trim(s)
  {
    var lo, hi := TrimSplits(s);
    if lo < hi {
      TrimIs(s[lo..hi], 0, hi - lo);
    } else {
      TrimBlank(s[lo..hi]);
    }
  }

  lemma {:induction false} TrimStartConcat(u: string, v: string)
    ensures AllBlank(u) ==> TrimStart(u + v) == TrimStart(v)
    ensures !AllBlank(u) ==> TrimStart(u) != [] && TrimStart(u + v) == TrimStart(u) + v
  {
    if u == [] {
      assert u + v == v;
    } else {
      SliceConcat(u, v, 1);
      assert AllBlank(u) <==> IsBlank(u[0]) && AllBlank(u[1..]) by {
        assert u == [u[0]] + u[1..];
      }
      if IsBlank(u[0]) {
        TrimStartConcat(u[1..], v);
      }
    }
  }

  lemma {:induction false} TrimEndConcat(u: string, v: string)
    requires AllBlank(v)
    ensures TrimEnd(u + v) == TrimEnd(u)
  {
    if v == [] {
      assert u + v == u;
    } else {
      var w := v[..|v| - 1];
      assert (u + v)[..|u + v| - 1] == u + w;
      assert v[|v| - 1] in v;
      TrimEndConcat(u, w);
    }
  }

  lemma TrimBlankPrefix(u: string, v: string)
    requires AllBlank(u)
    ensures Trim(u + v) == Trim(v)
  {
    TrimStartConcat(u, v);
  }

  lemma TrimBlankSuffix(u: string, v: string)
    requires AllBlank(v)
    ensures Trim(u + v) == Trim(u)
  {
    TrimStartConcat(u, v);
    if AllBlank(u) {
      TrimBlank(v);
      TrimBlank(u);
    } else {
      TrimEndConcat(TrimStart(u), v);
    }
  }
}
