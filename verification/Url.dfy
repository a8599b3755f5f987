/** Connection urls: percent-encoding one path segment, and pointing a url at another database
    (`db.rs`). A database name is its UTF-8 bytes. */
module Url {
  import opened Text

  predicate IsUnreserved(b: Byte) {
    || 'A' as nat <= b <= 'Z' as nat || 'a' as nat <= b <= 'z' as nat || '0' as nat <= b <= '9' as nat
    || b == '-' as nat || b == '_' as nat || b == '.' as nat || b == '~' as nat
  }

  function UpperHex(n: nat): (c: char)
    requires n < 16
    ensures IsDigit(c) || 'A' <= c <= 'F'
  {
    if n < 10 then ('0' as nat + n) as char else ('A' as nat + n - 10) as char
  }

  function EncodeByte(b: Byte): string {
    if IsUnreserved(b) then [b as char] else ['%', UpperHex(b / 16), UpperHex(b % 16)]
  }

  function EncodeSegment(bytes: seq<Byte>): string {
    if bytes == [] then [] else EncodeByte(bytes[0]) + EncodeSegment(bytes[1..])
  }

  lemma {:induction false} EncodeAppend(bytes: seq<Byte>, b: Byte)
    ensures EncodeSegment(bytes + [b]) == EncodeSegment(bytes) + EncodeByte(b)
  {
    if bytes == [] {
      assert bytes + [b] == [b];
      assert EncodeSegment([b]) == EncodeByte(b) + EncodeSegment([b][1..]);
    } else {
      SliceConcat(bytes, [b], 1);
      EncodeAppend(bytes[1..], b);
    }
  }

  /** The loop of `encode_segment`. */
  method EncodeLoop(bytes: seq<Byte>) returns (out: string)
    ensures out == EncodeSegment(bytes)
  {
    out := [];
    for i := 0 to |bytes|
      invariant out == EncodeSegment(bytes[..i])
    {
      assert bytes[..i + 1] == bytes[..i] + [bytes[i]];
      EncodeAppend(bytes[..i], bytes[i]);
      if IsUnreserved(bytes[i]) {
        out := out + [bytes[i] as char];
      } else {
        out := out + ['%', UpperHex(bytes[i] / 16), UpperHex(bytes[i] % 16)];
      }
    }
    assert bytes[..|bytes|] == bytes;
  }

  // ------------------------------ decoding ------------------------------

  function HexValue(c: char): (n: Option<nat>)
    ensures n.Some? ==> n.value < 16
  {
    if IsDigit(c) then Some(c as nat - '0' as nat)
    else if 'A' <= c <= 'F' then Some(c as nat - 'A' as nat + 10)
    else if 'a' <= c <= 'f' then Some(c as nat - 'a' as nat + 10)
    else None
  }

  /** Percent-decoding, section 2.1 of RFC 3986. */
  function Decode(s: string): Option<seq<Byte>>
    decreases |s|
  {
    if s == [] then Some([])
    else if s[0] == '%' then
      if |s| < 3 || HexValue(s[1]).None? || HexValue(s[2]).None? then None
      else
        match Decode(s[3..])
        case None => None
        case Some(rest) => Some([HexValue(s[1]).value * 16 + HexValue(s[2]).value] + rest)
    else if s[0] as nat >= 128 then None
    else
      match Decode(s[1..])
      case None => None
      case Some(rest) => Some([s[0] as nat] + rest)
  }

  /** Decoding gives back the name: encoding is injective. */
  lemma {:induction false} DecodeEncode(bytes: seq<Byte>)
    ensures Decode(EncodeSegment(bytes)) == Some(bytes)
  {
    if bytes != [] {
      var b, rest := bytes[0], EncodeSegment(bytes[1..]);
      var s := EncodeByte(b) + rest;
      DecodeEncode(bytes[1..]);
      assert bytes == [b] + bytes[1..];
      if IsUnreserved(b) {
        assert s[1..] == rest;
      } else {
        assert s[0] == '%' && s[1] == UpperHex(b / 16) && s[2] == UpperHex(b % 16) && s[3..] == rest;
        assert HexValue(UpperHex(b / 16)) == Some(b / 16) && HexValue(UpperHex(b % 16)) == Some(b % 16);
      }
    }
  }

  predicate SegmentChar(c: char) { c == '%' || IsAlpha(c) || IsDigit(c) || c in {'-', '_', '.', '~'} }

  /** Nothing in an encoded segment ends it. */
  lemma {:induction false} EncodedIsSegment(bytes: seq<Byte>)
    ensures forall i :: 0 <= i < |EncodeSegment(bytes)| ==> SegmentChar(EncodeSegment(bytes)[i])
  {
    if bytes != [] {
      EncodedIsSegment(bytes[1..]);
      var a, b := EncodeByte(bytes[0]), EncodeSegment(bytes[1..]);
      forall i | 0 <= i < |a + b| ensures SegmentChar((a + b)[i]) {
        if i < |a| { assert (a + b)[i] == a[i]; } else { assert (a + b)[i] == b[i - |a|]; }
      }
    }
  }

  // ------------------------------ urls ----------------------------------

  /** Where `c` first stands, or the length of the text. */
  function IndexOf(s: string, c: char): (i: nat)
    ensures i <= |s| && (i < |s| ==> s[i] == c)
    ensures forall k :: 0 <= k < i ==> s[k] != c
  {
    if s == [] || s[0] == c then 0 else 1 + IndexOf(s[1..], c)
  }

  predicate SchemeEnd(s: string, i: nat) { i + 3 <= |s| && s[i] == ':' && s[i + 1] == '/' && s[i + 2] == '/' }

  /** Where the authority begins: after the first `://`, or at the start. */
  function AuthorityFrom(s: string, i: nat): (k: nat)
    requires i <= |s|
    ensures k <= |s|
    decreases |s| - i
  {
    if SchemeEnd(s, i) then i + 3 else if i == |s| then 0 else AuthorityFrom(s, i + 1)
  }

  function Head(url: string): string { url[..IndexOf(url, '?')] }

  function Query(url: string): string { url[IndexOf(url, '?')..] }

  /** What comes before the path. */
  function Base(head: string): string {
    var at := AuthorityFrom(head, 0);
    head[..at + IndexOf(head[at..], '/')]
  }

  /** `url_with_database`. */
  function UrlWithDatabase(url: string, database: seq<Byte>): string {
    Base(Head(url)) + "/" + EncodeSegment(database) + Query(url)
  }

  function AfterLastSlash(s: string): string
    decreases |s|
  {
    if s == [] || s[|s| - 1] == '/' then [] else AfterLastSlash(s[..|s| - 1]) + [s[|s| - 1]]
  }

  lemma {:induction false} AfterLastSlashIs(a: string, b: string)
    requires '/' !in b
    ensures AfterLastSlash(a + "/" + b) == b
    decreases |b|
  {
    if b == [] {
      assert a + "/" + b == a + "/";
    } else {
      var c := b[..|b| - 1];
      assert (a + "/" + b)[..|a + "/" + b| - 1] == a + "/" + c;
      AfterLastSlashIs(a, c);
      assert b == c + [b[|b| - 1]];
    }
  }

  lemma IndexIs(s: string, c: char, i: nat)
    requires i <= |s| && (i < |s| ==> s[i] == c) && forall k :: 0 <= k < i ==> s[k] != c
    ensures IndexOf(s, c) == i
  {
  }

  /** The new url has the old query, and its last path segment decodes to the database. */
  lemma UrlNamesDatabase(url: string, database: seq<Byte>)
    ensures var u := UrlWithDatabase(url, database);
      && Query(u) == Query(url)
      && Head(u) == Base(Head(url)) + "/" + EncodeSegment(database)
      && Decode(AfterLastSlash(Head(u))) == Some(database)
  {
    var u, e := UrlWithDatabase(url, database), EncodeSegment(database);
    var head := Base(Head(url)) + "/" + e;
    EncodedIsSegment(database);
    assert u == head + Query(url);
    forall k | 0 <= k < |head| ensures u[k] != '?' {
      if k < |Base(Head(url))| { assert head[k] == url[k]; } else if k > |Base(Head(url))| {
        assert head[k] == e[k - |Base(Head(url))| - 1];
      }
    }
    assert Query(url) != [] ==> Query(url)[0] == '?';
    IndexIs(u, '?', |head|);
    assert u[..|head|] == head && u[|head|..] == Query(url);
    forall c | c in e ensures c != '/' {}
    AfterLastSlashIs(Base(Head(url)), e);
    DecodeEncode(database);
  }

  lemma {:induction false} AuthorityIs(s: string, i: nat) returns (p: nat)
    requires i <= |s|
    ensures i <= p <= |s| && (forall k :: i <= k < p ==> !SchemeEnd(s, k))
    ensures if p < |s| then SchemeEnd(s, p) && AuthorityFrom(s, i) == p + 3 else AuthorityFrom(s, i) == 0
    decreases |s| - i
  {
    if SchemeEnd(s, i) || i == |s| {
      p := i;
    } else {
      p := AuthorityIs(s, i + 1);
    }
  }

  lemma {:induction false} AuthorityAt(s: string, i: nat, p: nat)
    requires i <= p <= |s| && (forall k :: i <= k < p ==> !SchemeEnd(s, k))
    requires p < |s| ==> SchemeEnd(s, p)
    ensures AuthorityFrom(s, i) == if p < |s| then p + 3 else 0
    decreases |s| - i
  {
    if i < p {
      AuthorityAt(s, i + 1, p);
    }
  }

  lemma AuthorityStays(head: string, e: string)
    requires '/' !in e
    ensures var t := Base(head) + "/" + e;
      AuthorityFrom(t, 0) == AuthorityFrom(head, 0) <= |Base(head)|
  {
    hide AuthorityFrom, IndexOf;
    var at := AuthorityFrom(head, 0);
    var p := AuthorityIs(head, 0);
    var base := Base(head);
    var t := base + "/" + e;
    assert forall k :: 0 <= k < |e| ==> e[k] in e;
    assert forall k :: 0 <= k < |base| ==> t[k] == head[k];
    assert forall k :: |base| < k < |t| ==> t[k] == e[k - |base| - 1];
    if p < |head| {
      forall k | 0 <= k < p ensures !SchemeEnd(t, k) { SchemeAgrees(head, t, |base|, k); }
      assert SchemeEnd(t, p);
      AuthorityAt(t, 0, p);
    } else {
      assert forall k :: 0 <= k < |base| ==> head[at..][k] == head[k];
      forall k | 0 <= k < |t| ensures !SchemeEnd(t, k) {}
      AuthorityAt(t, 0, |t|);
    }
  }

  /** A new path leaves what comes before it as it is. */
  lemma BaseStays(head: string, e: string)
    requires '/' !in e
    ensures Base(Base(head) + "/" + e) == Base(head)
  {
    hide AuthorityFrom;
    var at := AuthorityFrom(head, 0);
    var n := IndexOf(head[at..], '/');
    var base := Base(head);
    var t := base + "/" + e;
    AuthorityStays(head, e);
    assert t[at..] == head[at..][..n] + ("/" + e);
    IndexIs(t[at..], '/', n);
    assert t[..at + n] == base;
  }

  lemma SchemeAgrees(s: string, t: string, n: nat, k: nat)
    requires n <= |s| && n < |t| && (forall j :: 0 <= j < n ==> s[j] == t[j])
    requires !SchemeEnd(s, k) && k + 3 <= n
    ensures !SchemeEnd(t, k)
  {
  }

  /** Pointing a url at one database and then another is pointing it at the other: only the database
      segment is rewritten. */
  lemma OnlyTheSegmentChanges(url: string, a: seq<Byte>, b: seq<Byte>)
    ensures UrlWithDatabase(UrlWithDatabase(url, a), b) == UrlWithDatabase(url, b)
  {
    hide Base, Head, Query;
    UrlNamesDatabase(url, a);
    EncodedIsSegment(a);
    forall c | c in EncodeSegment(a) ensures c != '/' {}
    BaseStays(Head(url), EncodeSegment(a));
  }

  predicate Lacks(s: string, cs: set<char>) { forall c | c in s :: c !in cs }

  /** A url put together from its parts keeps scheme, credentials and host, and query; only the path is replaced. */
  lemma PartsStay(scheme: string, authority: string, path: string, query: string, database: seq<Byte>)
    requires Lacks(scheme, {':', '?'}) && Lacks(authority, {'/', '?'}) && Lacks(path, {'?'})
    requires (path == [] || path[0] == '/') && (query == [] || query[0] == '?')
    ensures UrlWithDatabase(scheme + "://" + authority + path + query, database)
      == scheme + "://" + authority + "/" + EncodeSegment(database) + query
  {
    hide EncodeSegment, AuthorityFrom, IndexOf;
    var front := scheme + "://" + authority;
    var head := front + path;
    var url := head + query;
    forall k | 0 <= k < |head| ensures url[k] != '?' {
      HeadChar(scheme, authority, path, k);
      assert url[k] == head[k];
    }
    IndexIs(url, '?', |head|);
    assert url[..|head|] == head && url[|head|..] == query;
    AuthorityBegins(scheme, authority + path);
    assert head == scheme + "://" + (authority + path);
    var n := |scheme| + 3;
    assert head[n..] == authority + path;
    assert forall k :: 0 <= k < |authority| ==> (authority + path)[k] == authority[k] && authority[k] in authority;
    IndexIs(authority + path, '/', |authority|);
    assert head[..n + |authority|] == front;
  }

  lemma HeadChar(scheme: string, authority: string, path: string, k: nat)
    requires Lacks(scheme, {':', '?'}) && Lacks(authority, {'/', '?'}) && Lacks(path, {'?'})
    requires k < |scheme + "://" + authority + path|
    ensures (scheme + "://" + authority + path)[k] != '?'
  {
    var a, b := scheme + "://", scheme + "://" + authority;
    var c := (scheme + "://" + authority + path)[k];
    assert c in scheme || c in "://" || c in authority || c in path;
  }

  lemma AuthorityBegins(scheme: string, rest: string)
    requires ':' !in scheme
    ensures AuthorityFrom(scheme + "://" + rest, 0) == |scheme| + 3
  {
    var s, p := scheme + "://" + rest, |scheme|;
    assert s[p] == ':' && s[p + 1] == '/' && s[p + 2] == '/';
    forall k | 0 <= k < p ensures !SchemeEnd(s, k) { assert s[k] == scheme[k] && scheme[k] in scheme; }
    AuthorityAt(s, 0, p);
  }
}
