/** Rust string handling the models rely on: Unicode white space, trimming and UTF-8 length. */
module Text {

  /** The characters with the Unicode property White_Space. */
  predicate IsWhitespace(c: char) {
    var n := c as int;
    0x09 <= n <= 0x0D || n == 0x20 || n == 0x85 || n == 0xA0 || n == 0x1680
    || 0x2000 <= n <= 0x200A || n == 0x2028 || n == 0x2029 || n == 0x202F || n == 0x205F || n == 0x3000
  }

  function TrimStart(s: string): string {
    if s != [] && IsWhitespace(s[0]) then TrimStart(s[1..]) else s
  }

  function TrimEnd(s: string): string {
    if s != [] && IsWhitespace(s[|s| - 1]) then TrimEnd(s[..|s| - 1]) else s
  }

  function Trim(s: string): string {
    TrimEnd(TrimStart(s))
  }

  predicate IsBlank(s: string) {
    Trim(s) == ""
  }

  /** `str::len` counts bytes of the UTF-8 encoding, not characters. */
  function Utf8Len(s: string): nat {
    if s == [] then 0
    else
      var n := s[0] as int;
      (if n < 0x80 then 1 else if n < 0x800 then 2 else if n < 0x1_0000 then 3 else 4) + Utf8Len(s[1..])
  }

  lemma WhitespaceIs(c: char)
    ensures IsWhitespace(c) <==> c in {
      '\U{0009}', '\U{000A}', '\U{000B}', '\U{000C}', '\U{000D}', '\U{0020}', '\U{0085}', '\U{00A0}', '\U{1680}',
      '\U{2000}', '\U{2001}', '\U{2002}', '\U{2003}', '\U{2004}', '\U{2005}', '\U{2006}', '\U{2007}', '\U{2008}',
      '\U{2009}', '\U{200A}', '\U{2028}', '\U{2029}', '\U{202F}', '\U{205F}', '\U{3000}'}
  {
  }

  // ----- Characters and bytes -----

  /** The bytes of the UTF-8 encoding, section 3 of RFC 3629: six bits in each byte but the first. */
  function Utf8(c: char): (bytes: seq<int>)
    ensures forall b :: b in bytes ==> 0 <= b <= 0xF4
  {
    var n := c as int;
    if n <= 0x7F then [n]
    else if n <= 0x7FF then [0xC0 + n / 0x40, 0x80 + n % 0x40]
    else if n <= 0xFFFF then [0xE0 + n / 0x1000, 0x80 + n / 0x40 % 0x40, 0x80 + n % 0x40]
    else [0xF0 + n / 0x4_0000, 0x80 + n / 0x1000 % 0x40, 0x80 + n / 0x40 % 0x40, 0x80 + n % 0x40]
  }

  /** The length is that of the encodings one after the other. */
  lemma Utf8LenIs(a: string, c: char, b: string)
    ensures Utf8Len(a + [c] + b) == Utf8Len(a) + |Utf8(c)| + Utf8Len(b)
  {
    Utf8LenAdds(a + [c], b);
    Utf8LenAdds(a, [c]);
    assert [c][1..] == "";
  }

  lemma {:induction false} Utf8LenAdds(a: string, b: string)
    ensures Utf8Len(a + b) == Utf8Len(a) + Utf8Len(b)
  {
    if a == "" {
      assert a + b == b;
    } else {
      Utf8LenAdds(a[1..], b);
      assert (a + b)[1..] == a[1..] + b;
    }
  }

  predicate IsAscii(s: string) {
    forall i :: 0 <= i < |s| ==> s[i] as int < 0x80
  }

  predicate NoAscii(s: string) {
    forall i :: 0 <= i < |s| ==> s[i] as int >= 0x80
  }

  /** One to four bytes a character, exactly one for each in plain ASCII. */
  lemma {:induction false} Utf8LenBounds(s: string)
    ensures |s| <= Utf8Len(s) <= 4 * |s|
    ensures Utf8Len(s) == |s| <==> IsAscii(s)
    ensures NoAscii(s) ==> Utf8Len(s) >= 2 * |s|
  {
    if s != "" {
      var rest := s[1..];
      Utf8LenBounds(rest);
      assert forall i :: 0 < i < |s| ==> s[i] == rest[i - 1];
      assert forall i :: 0 <= i < |rest| ==> rest[i] == s[i + 1];
      assert IsAscii(s) <==> s[0] as int < 0x80 && IsAscii(rest);
      assert NoAscii(s) <==> s[0] as int >= 0x80 && NoAscii(rest);
    }
  }

  // ----- Trimming a concatenation -----

  predicate AllWhitespace(s: string) {
    forall c :: c in s ==> IsWhitespace(c)
  }

  lemma {:induction false} TrimEndAppend(x: string, y: string)
    ensures TrimEnd(x + y) == if TrimEnd(y) != "" then x + TrimEnd(y) else TrimEnd(x)
  {
    if y == "" {
      assert x + y == x;
    } else if IsWhitespace(y[|y| - 1]) {
      assert (x + y)[..|x + y| - 1] == x + y[..|y| - 1];
      TrimEndAppend(x, y[..|y| - 1]);
    }
  }

  lemma {:induction false} TrimStartAppend(x: string, y: string)
    ensures TrimStart(x + y) == if TrimStart(x) != "" then TrimStart(x) + y else TrimStart(y)
  {
    if x == "" {
      assert x + y == y;
    } else if IsWhitespace(x[0]) {
      assert (x + y)[1..] == x[1..] + y;
      TrimStartAppend(x[1..], y);
    }
  }

  lemma {:induction false} TrimsToNothing(s: string)
    requires AllWhitespace(s)
    ensures TrimStart(s) == "" && TrimEnd(s) == ""
    decreases |s|
  {
    if s != "" {
      TrimsToNothing(s[1..]);
      TrimsToNothing(s[..|s| - 1]);
    }
  }

  /** Both ends may be trimmed in either order. */
  lemma {:induction false} TrimEitherWay(s: string)
    ensures TrimStart(TrimEnd(s)) == Trim(s)
  {
    if s != "" {
      var front, last := s[..|s| - 1], s[|s| - 1..];
      assert s == front + last;
      TrimStartAppend(front, last);
      if IsWhitespace(last[0]) {
        TrimEitherWay(front);
        TrimEndAppend(TrimStart(front), last);
      } else {
        TrimEndAppend(TrimStart(front), last);
      }
    }
  }

  lemma {:induction false} TrimEndTwice(s: string)
    ensures TrimEnd(TrimEnd(s)) == TrimEnd(s)
  {
    if s != "" && IsWhitespace(s[|s| - 1]) {
      TrimEndTwice(s[..|s| - 1]);
    }
  }
}
