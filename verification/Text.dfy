/** The one optional type shared by the project. */
module Options {
  datatype Option<+T> = None | Some(value: T)
}

/** Go's string helpers, on sequences of characters (a valid UTF-8 string, one character a code point). */
module Text {

  /** Go's unicode.IsSpace. */
  predicate IsSpace(c: char) {
    var n := c as int;
    || 0x09 <= n <= 0x0D || n == 0x20 || n == 0x85 || n == 0xA0 || n == 0x1680
    || 0x2000 <= n <= 0x200A || n == 0x2028 || n == 0x2029 || n == 0x202F || n == 0x205F || n == 0x3000
  }

  predicate AllSpace(s: string) {
    forall i :: 0 <= i < |s| ==> IsSpace(s[i])
  }

  function TrimLeft(s: string): (r: string)
    ensures |r| <= |s|
  {
    if s != [] && IsSpace(s[0]) then TrimLeft(s[1..]) else s
  }

  function TrimRight(s: string): (r: string)
    ensures |r| <= |s|
  {
    if s != [] && IsSpace(s[|s| - 1]) then TrimRight(s[..|s| - 1]) else s
  }

  /** strings.TrimSpace */
  function Trim(s: string): (r: string)
    ensures |r| <= |s|
  {
    TrimRight(TrimLeft(s))
  }

  /** Neither end is white space. */
  predicate Tight(s: string) {
    s != [] ==> !IsSpace(s[0]) && !IsSpace(s[|s| - 1])
  }

  lemma {:induction false} TrimLeftSpaces(w: string, s: string)
    requires AllSpace(w)
    ensures TrimLeft(w + s) == TrimLeft(s)
  {
    if w == [] {
      assert w + s == s;
    } else {
      assert (w + s)[1..] == w[1..] + s;
      TrimLeftSpaces(w[1..], s);
    }
  }

  lemma {:induction false} TrimRightSpaces(s: string, w: string)
    requires AllSpace(w)
    ensures TrimRight(s + w) == TrimRight(s)
  {
    if w == [] {
      assert s + w == s;
    } else {
      assert (s + w)[..|s + w| - 1] == s + w[..|w| - 1];
      TrimRightSpaces(s, w[..|w| - 1]);
    }
  }

  /** Trimming takes the text apart into white space, the trimmed text, and white space. */
  lemma {:induction false} TrimLeftParts(s: string) returns (w: string)
    ensures AllSpace(w) && s == w + TrimLeft(s)
    ensures TrimLeft(s) != [] ==> !IsSpace(TrimLeft(s)[0])
  {
    if s != [] && IsSpace(s[0]) {
      var v := TrimLeftParts(s[1..]);
      w := [s[0]] + v;
    } else {
      w := [];
    }
  }

  lemma {:induction false} TrimRightParts(s: string) returns (w: string)
    ensures AllSpace(w) && s == TrimRight(s) + w
    ensures TrimRight(s) != [] ==> !IsSpace(TrimRight(s)[|TrimRight(s)| - 1])
  {
    if s != [] && IsSpace(s[|s| - 1]) {
      var v := TrimRightParts(s[..|s| - 1]);
      w := v + [s[|s| - 1]];
    } else {
      w := [];
    }
  }

  lemma TrimTight(s: string)
    requires Tight(s)
    ensures Trim(s) == s
  {
  }

  lemma TrimIsTight(s: string)
    ensures Tight(Trim(s))
  {
    var l := TrimLeft(s);
    var v := TrimLeftParts(s);
    var w := TrimRightParts(l);
    if Trim(s) != [] {
      assert Trim(s)[0] == l[0];
    }
  }

  /** Surrounding white space does not change what is left after trimming. */
  lemma TrimPadding(v: string, s: string, w: string)
    requires AllSpace(v) && AllSpace(w)
    ensures Trim(v + s + w) == Trim(s)
  {
    TrimLeftSpaces(v, s + w);
    assert v + s + w == v + (s + w);
    var l := TrimLeft(s);
    var u := TrimLeftParts(s);
    if l == [] {
      assert s + w == (u + w) + [];
      assert AllSpace(u + w);
      TrimLeftSpaces(u + w, []);
    } else {
      TrimLeftSpaces(u, l + w);
      assert s + w == u + (l + w);
      assert TrimLeft(l + w) == l + w;
      TrimRightSpaces(l, w);
    }
  }

  /** A text that does not start with white space loses only a white-space tail. */
  lemma TrimTail(s: string) returns (w: string)
    requires s != [] && !IsSpace(s[0])
    ensures AllSpace(w) && s == Trim(s) + w
    ensures Trim(s) != [] && Trim(s)[0] == s[0]
  {
    w := TrimRightParts(s);
    assert TrimLeft(s) == s;
    assert Trim(s) == [] ==> s == w;
  }

  predicate HasPrefix(s: string, p: string) {
    p <= s
  }

  predicate HasSuffix(s: string, p: string) {
    |p| <= |s| && s[|s| - |p|..] == p
  }

  function TrimPrefix(s: string, p: string): (r: string)
    ensures |r| <= |s|
  {
    if HasPrefix(s, p) then s[|p|..] else s
  }

  function TrimSuffix(s: string, p: string): (r: string)
    ensures |r| <= |s|
  {
    if HasSuffix(s, p) then s[..|s| - |p|] else s
  }

  const OPEN: char := '('
  const CLOSE: char := ')'

  predicate IsQuote(c: char) {
    c == '\'' || c == '"'
  }

  /** strings.Trim with the cutset of the two quote characters. */
  function TrimQuotes(s: string): (r: string) {
    if s != [] && IsQuote(s[0]) then TrimQuotes(s[1..])
    else if s != [] && IsQuote(s[|s| - 1]) then TrimQuotes(s[..|s| - 1])
    else s
  }

  lemma TrimQuotesNone(s: string)
    requires forall i :: 0 <= i < |s| ==> !IsQuote(s[i])
    ensures TrimQuotes(s) == s
    ensures TrimQuotes("'" + s + "'") == s
  {
    var q := "'" + s + "'";
    var t := s + "'";
    assert q[1..] == t;
    assert TrimQuotes(q) == TrimQuotes(t);
    assert t[..|s|] == s;
    if s == [] {
      assert t[1..] == s;
    } else {
      assert t[0] == s[0];
      assert TrimQuotes(t) == TrimQuotes(s);
    }
  }

  predicate OccursAt(s: string, sub: string, i: nat) {
    i + |sub| <= |s| && s[i..i + |sub|] == sub
  }

  /** strings.Index from position `i` on: the first occurrence, or -1. */
  function IndexFrom(s: string, sub: string, i: nat): (r: int)
    requires i <= |s|
    ensures r == -1 || (i <= r && OccursAt(s, sub, r))
    ensures forall j: nat :: i <= j && (r == -1 || j < r) ==> !OccursAt(s, sub, j)
    decreases |s| - i
  {
    if OccursAt(s, sub, i) then i
    else if i == |s| then -1
    else IndexFrom(s, sub, i + 1)
  }

  function Index(s: string, sub: string): (r: int)
    ensures r == -1 || (0 <= r && OccursAt(s, sub, r))
    ensures forall j: nat :: r == -1 || j < r ==> !OccursAt(s, sub, j)
  {
    IndexFrom(s, sub, 0)
  }

  predicate Contains(s: string, sub: string) {
    Index(s, sub) >= 0
  }

  /** strings.Join */
  function Join(parts: seq<string>, sep: string): (r: string) {
    if |parts| == 0 then []
    else if |parts| == 1 then parts[0]
    else parts[0] + sep + Join(parts[1..], sep)
  }

  lemma {:induction false} JoinConcat(a: seq<string>, b: seq<string>, sep: string)
    requires a != [] && b != []
    ensures Join(a + b, sep) == Join(a, sep) + sep + Join(b, sep)
  {
    if |a| == 1 {
      assert (a + b)[1..] == b;
    } else {
      assert (a + b)[1..] == a[1..] + b;
      JoinConcat(a[1..], b, sep);
      assert (a + b)[0] == a[0];
      var x, y := Join(a[1..], sep), Join(b, sep);
      assert a[0] + sep + (x + sep + y) == a[0] + sep + x + sep + y;
    }
  }
}
