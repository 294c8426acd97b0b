/** Escaping and unescaping HTML text. */
module Html {
  import opened Octets

  const AMP: Byte := 0x26
  const SEMI: Byte := 0x3b
  const HASH: Byte := 0x23
  const LOWER_X: Byte := 0x78

  /** The position of the first `b`, or the length. */
  function IndexOf(s: Bytes, b: Byte): (k: nat)
    ensures k <= |s|
    ensures k < |s| ==> s[k] == b
    decreases |s|
  {
    if s == [] || s[0] == b then 0 else 1 + IndexOf(s[1..], b)
  }

  // Escaping

  function Name(b: Byte): Bytes {
    match b
    case 0x26 => [0x61, 0x6d, 0x70]        // amp
    case 0x22 => [0x71, 0x75, 0x6f, 0x74]  // quot
    case 0x27 => [0x61, 0x70, 0x6f, 0x73]  // apos
    case 0x3c => [0x6c, 0x74]              // lt
    case 0x3e => [0x67, 0x74]              // gt
    case _ => []
  }

  predicate IsSpecial(b: Byte) {
    b == 0x26 || b == 0x22 || b == 0x27 || b == 0x3c || b == 0x3e
  }

  function EscapeChar(b: Byte): (r: Bytes)
    ensures |r| >= 1
  {
    if IsSpecial(b) then [AMP] + Name(b) + [SEMI] else [b]
  }

  function Escape(s: Bytes): (r: Bytes)
    ensures |r| >= |s|
    decreases |s|
  {
    if s == [] then [] else EscapeChar(s[0]) + Escape(s[1..])
  }

  lemma {:induction false} EscapeConcat(a: Bytes, b: Bytes)
    ensures Escape(a + b) == Escape(a) + Escape(b)
    decreases |a|
  {
    if a == [] {
      assert a + b == b;
    } else {
      assert (a + b)[1..] == a[1..] + b;
      EscapeConcat(a[1..], b);
    }
  }

  lemma EscapeOne(b: Byte)
    ensures Escape([b]) == EscapeChar(b)
  {
    assert [b][1..] == [];
  }

  predicate Plain(s: Bytes) {
    forall k :: 0 <= k < |s| ==> !IsSpecial(s[k])
  }

  lemma {:induction false} EscapePlain(s: Bytes)
    requires Plain(s)
    ensures Escape(s) == s
    decreases |s|
  {
    if s != [] {
      EscapePlain(s[1..]);
    }
  }

  // Numeric entities

  const WORDS: nat := 0x1_0000_0000

  /** All digits, read into a 32 bit number that wraps around; or nothing if there is something else. */
  function Number(s: Bytes, hex: bool): (r: nat)
    ensures r < WORDS
    decreases |s|
  {
    if s == [] then 0 else
    var front, last := s[..|s| - 1], s[|s| - 1];
    if hex then (if IsHex(last) then (Number(front, hex) * 16 + HexDigit(last)) % WORDS else 0)
    else (if IsDigit(last) then (Number(front, hex) * 10 + (last - 0x30)) % WORDS else 0)
  }

  predicate AllDigits(s: Bytes, hex: bool) {
    forall k :: 0 <= k < |s| ==> if hex then IsHex(s[k]) else IsDigit(s[k])
  }

  /** The UTF-8 sequence of a code point (section 3 of RFC 3629). */
  function Utf8(v: nat): (r: Bytes)
    requires 0 < v <= 0x10ffff
    ensures 1 <= |r| <= 4
  {
    if v < 0x80 then [v]
    else if v < 0x800 then [0xc0 + v / 0x40, 0x80 + v % 0x40]
    else if v < 0x10000 then [0xe0 + v / 0x1000, 0x80 + v / 0x40 % 0x40, 0x80 + v % 0x40]
    else [0xf0 + v / 0x40000, 0x80 + v / 0x1000 % 0x40, 0x80 + v / 0x40 % 0x40, 0x80 + v % 0x40]
  }

  // Unescaping

  datatype Meaning = Literal | Means(bytes: Bytes)

  function NumericMeaning(digits: Bytes, hex: bool): Meaning {
    var v := Number(digits, hex);
    if AllDigits(digits, hex) && 0 < v <= 0x10ffff then Means(Utf8(v)) else Literal
  }

  /** What stands between an ampersand and a semicolon. */
  function Entity(e: Bytes): (m: Meaning)
    ensures m.Means? ==> 1 <= |m.bytes| <= |e| + 2
  {
    if e == Name(0x26) then Means([0x26])
    else if e == Name(0x22) then Means([0x22])
    else if e == Name(0x3c) then Means([0x3c])
    else if e == Name(0x3e) then Means([0x3e])
    else if e == Name(0x27) then Means([0x27])
    else if |e| < 2 || e[0] != HASH then Literal
    else if e[1] == LOWER_X then NumericMeaning(e[2..], true)
    else NumericMeaning(e[1..], false)
  }

  function Unescape(s: Bytes): Bytes
    decreases |s|, 0
  {
    var i := IndexOf(s, AMP);
    if i == |s| then s else s[..i] + UnescapeAfter(s[i + 1..])
  }

  /** The text after an ampersand. */
  function UnescapeAfter(after: Bytes): Bytes
    decreases |after|, 1
  {
    var j := IndexOf(after, SEMI);
    if j < |after| && Entity(after[..j]).Means?
    then Entity(after[..j]).bytes + Unescape(after[j + 1..])
    else [AMP] + Unescape(after)
  }

  lemma UnescapePlain(s: Bytes)
    requires IndexOf(s, AMP) == |s|
    ensures Unescape(s) == s
  {
  }

  lemma UnescapeTurn(s: Bytes, i: nat)
    requires i == IndexOf(s, AMP) < |s|
    ensures Unescape(s) == s[..i] + UnescapeAfter(s[i + 1..])
  {
    hide UnescapeAfter;
  }

  lemma AfterShrinks(after: Bytes, j: nat)
    requires j == IndexOf(after, SEMI)
    requires |Unescape(after)| <= |after| && (j < |after| ==> |Unescape(after[j + 1..])| <= |after| - j - 1)
    ensures |UnescapeAfter(after)| <= |after| + 1
  {
    hide Unescape, Entity;
  }

  /** The output is never longer than the input. */
  lemma {:induction false} UnescapeShrinks(s: Bytes)
    ensures |Unescape(s)| <= |s|
    decreases |s|
  {
    hide Unescape, UnescapeAfter;
    var i := IndexOf(s, AMP);
    if i == |s| {
      UnescapePlain(s);
    } else {
      var after := s[i + 1..];
      var j := IndexOf(after, SEMI);
      UnescapeTurn(s, i);
      UnescapeShrinks(after);
      if j < |after| {
        UnescapeShrinks(after[j + 1..]);
      }
      AfterShrinks(after, j);
    }
  }

  lemma UnescapeOrdinary(b: Byte, rest: Bytes)
    requires b != AMP
    ensures Unescape([b] + rest) == [b] + Unescape(rest)
  {
    hide UnescapeAfter;
    var s := [b] + rest;
    assert s[1..] == rest;
    var i := IndexOf(rest, AMP);
    assert IndexOf(s, AMP) == 1 + i;
    if i < |rest| {
      assert s[..1 + i] == [b] + rest[..i];
      assert s[1 + i + 1..] == rest[i + 1..];
    }
  }

  lemma NoSemi(name: Bytes, rest: Bytes)
    requires SEMI !in name
    ensures IndexOf(name + [SEMI] + rest, SEMI) == |name|
    decreases |name|
  {
    var s := name + [SEMI] + rest;
    if name != [] {
      assert s[1..] == name[1..] + [SEMI] + rest;
      NoSemi(name[1..], rest);
    }
  }

  lemma EntityOfName(b: Byte)
    requires IsSpecial(b)
    ensures SEMI !in Name(b) && Entity(Name(b)) == Means([b])
  {
  }

  lemma UnescapeEntity(name: Bytes, b: Byte, rest: Bytes)
    requires SEMI !in name && Entity(name) == Means([b])
    ensures Unescape([AMP] + name + [SEMI] + rest) == [b] + Unescape(rest)
  {
    hide Entity;
    var s, after := [AMP] + name + [SEMI] + rest, name + [SEMI] + rest;
    assert s[1..] == after;
    NoSemi(name, rest);
    assert after[..|name|] == name && after[|name| + 1..] == rest;
    assert Unescape(s) == [] + UnescapeAfter(after);
  }

  /** Unescaping undoes escaping. */
  lemma {:induction false} RoundTrip(s: Bytes)
    ensures Unescape(Escape(s)) == s
    decreases |s|
  {
    if s != [] {
      var b, rest := s[0], Escape(s[1..]);
      RoundTrip(s[1..]);
      if IsSpecial(b) {
        EntityOfName(b);
        UnescapeEntity(Name(b), b, rest);
      } else {
        UnescapeOrdinary(b, rest);
      }
      assert s == [b] + s[1..];
    }
  }

  // The loops

  /** ParseDecimal() and ParseHex(): the value of the leading digits, and what follows them. */
  method ParseNumber(s: Bytes, hex: bool) returns (value: nat, unparsed: Bytes)
    ensures |unparsed| <= |s| && unparsed == s[|s| - |unparsed|..]
    ensures AllDigits(s[..|s| - |unparsed|], hex) && value == Number(s[..|s| - |unparsed|], hex)
    ensures unparsed == [] <==> AllDigits(s, hex)
  {
    value := 0;
    for i := 0 to |s|
      invariant AllDigits(s[..i], hex) && value == Number(s[..i], hex)
    {
      var ch := s[i];
      assert s[..i + 1][..i] == s[..i];
      if hex {
        if !IsHex(ch) {
          return value, s[i..];
        }
        value := (value * 16 + HexDigit(ch)) % WORDS;
      } else {
        if !IsDigit(ch) {
          return value, s[i..];
        }
        value := (value * 10 + (ch - 0x30)) % WORDS;
      }
    }
    assert s[..|s|] == s;
    unparsed := [];
  }

  /** The entity that html_unescape() recognises. */
  method ParseEntity(e: Bytes) returns (m: Meaning)
    ensures m == Entity(e)
  {
    if e == Name(0x26) {
      return Means([0x26]);
    } else if e == Name(0x22) {
      return Means([0x22]);
    } else if e == Name(0x3c) {
      return Means([0x3c]);
    } else if e == Name(0x3e) {
      return Means([0x3e]);
    } else if e == Name(0x27) {
      return Means([0x27]);
    }
    if e == [] || e[0] != HASH || e[1..] == [] {
      return Literal;
    }
    var hex := e[1] == LOWER_X;
    var digits := if hex then e[2..] else e[1..];
    var value, unparsed := ParseNumber(digits, hex);
    assert unparsed == [] ==> digits[..|digits| - |unparsed|] == digits;
    if value == 0 || value > 0x10ffff || unparsed != [] {
      return Literal;
    }
    m := Means(Utf8(value));
  }

  /** Write bytes in front of the unread input, which may be in the same array. */
  method Put(src: array<Byte>, p: nat, n: nat, dst: array<Byte>, q: nat, bytes: Bytes)
    requires p <= n <= src.Length && q + |bytes| <= dst.Length && q + |bytes| <= p
    modifies dst
    ensures dst[..q + |bytes|] == old(dst[..q]) + bytes
    ensures src[p..n] == old(src[p..n])
    ensures src != dst ==> src[..] == old(src[..])
  {
    forall k | 0 <= k < |bytes| {
      dst[q + k] := bytes[k];
    }
    assert dst[..q + |bytes|] == dst[..q] + dst[q..q + |bytes|];
  }

  lemma Regroup(a: Bytes, b: Bytes, c: Bytes)
    ensures a + (b + c) == a + b + c
  {
  }

  /** The part of the loop that deals with what follows an ampersand. */
  method UnescapeAmpersand(src: array<Byte>, p0: nat, n: nat, dst: array<Byte>, q0: nat) returns (p: nat, q: nat)
    requires q0 < p0 <= n <= src.Length && n <= dst.Length
    modifies dst
    ensures q <= p <= n && p0 <= p
    ensures dst[..q] + Unescape(src[p..n]) == old(dst[..q0]) + UnescapeAfter(old(src[p0..n]))
    ensures src != dst ==> src[..] == old(src[..])
  {
    hide Entity, Unescape;
    p, q := p0, q0;
    ghost var done := dst[..q];
    var after := src[p..n];
    var j := IndexOf(after, SEMI);
    var m := Literal;
    if j < |after| {
      m := ParseEntity(after[..j]);
    }
    if m.Means? {
      Regroup(done, m.bytes, Unescape(after[j + 1..]));
      p := p + j + 1;
      assert src[p..n] == after[j + 1..];
      Put(src, p, n, dst, q, m.bytes);
      q := q + |m.bytes|;
    } else {
      Regroup(done, [AMP], Unescape(after));
      Put(src, p, n, dst, q, [AMP]);
      q := q + 1;
    }
  }

  /** One turn of the loop: everything up to an ampersand, and what the ampersand starts. */
  method UnescapeSome(src: array<Byte>, p0: nat, n: nat, dst: array<Byte>, q0: nat) returns (p: nat, q: nat)
    requires q0 <= p0 < n <= src.Length && n <= dst.Length
    modifies dst
    ensures q <= p <= n && p0 < p
    ensures dst[..q] + Unescape(src[p..n]) == old(dst[..q0]) + Unescape(old(src[p0..n]))
    ensures src != dst ==> src[..] == old(src[..])
  {
    hide Unescape, UnescapeAfter;
    var s := src[p0..n];
    var i := IndexOf(s, AMP);
    ghost var done := dst[..q0];
    if i == |s| {
      UnescapePlain(s);
      Put(src, n, n, dst, q0, s);
      UnescapePlain(src[n..n]);
      assert done + s + [] == done + s;
      p, q := n, q0 + i;
    } else {
      UnescapeTurn(s, i);
      Regroup(done, s[..i], UnescapeAfter(s[i + 1..]));
      assert src[p0 + i + 1..n] == s[i + 1..];
      Put(src, p0 + i + 1, n, dst, q0, s[..i]);
      p, q := UnescapeAmpersand(src, p0 + i + 1, n, dst, q0 + i);
    }
  }

  /**
   html_unescape(): the destination may be the source itself, because the write position never
   passes the read position.
   */
  method UnescapeInto(src: array<Byte>, n: nat, dst: array<Byte>) returns (length: nat)
    requires n <= src.Length && n <= dst.Length
    modifies dst
    ensures length <= n && dst[..length] == Unescape(old(src[..n]))
    ensures src != dst ==> src[..] == old(src[..])
  {
    hide Unescape, UnescapeAfter;
    ghost var whole := Unescape(src[..n]);
    var p, q := 0, 0;
    assert dst[..0] == [] && src[0..n] == src[..n];
    while p < n
      invariant 0 <= q <= p <= n
      invariant dst[..q] + Unescape(src[p..n]) == whole
      invariant src != dst ==> src[..] == old(src[..])
      decreases n - p
    {
      p, q := UnescapeSome(src, p, n, dst, q);
    }
    UnescapePlain(src[p..n]);
    assert dst[..q] + [] == dst[..q];
    length := q;
  }

  /** unescape_inplace(): the output is never longer than the input. */
  method UnescapeInPlace(a: array<Byte>, n: nat) returns (length: nat)
    requires n <= a.Length
    modifies a
    ensures length <= n && a[..length] == Unescape(old(a[..n]))
  {
    length := UnescapeInto(a, n, a);
  }

  // Escaping loops

  lemma EscapeSnoc(s: Bytes, i: nat)
    requires i < |s|
    ensures Escape(s[..i + 1]) == Escape(s[..i]) + EscapeChar(s[i])
    ensures |Escape(s[..i + 1])| <= |Escape(s)|
  {
    hide Escape, EscapeChar;
    assert s[..i + 1] == s[..i] + [s[i]] && s == s[..i + 1] + s[i + 1..];
    EscapeConcat(s[..i], [s[i]]);
    EscapeConcat(s[..i + 1], s[i + 1..]);
    EscapeOne(s[i]);
  }

  method EscapeSize(s: Bytes) returns (size: nat)
    ensures size == |Escape(s)|
  {
    size := 0;
    for i := 0 to |s|
      invariant size == |Escape(s[..i])|
    {
      EscapeSnoc(s, i);
      size := size + match s[i] {
        case 0x26 => 5
        case 0x22 => 6
        case 0x27 => 6
        case 0x3c => 4
        case 0x3e => 4
        case _ => 1
      };
    }
    assert s[..|s|] == s;
  }

  /** The position of the first character to be escaped, or the length. */
  method EscapeFind(s: Bytes) returns (k: nat)
    ensures k <= |s| && Plain(s[..k])
    ensures k < |s| ==> IsSpecial(s[k])
  {
    k := 0;
    while k < |s| && !IsSpecial(s[k])
      invariant k <= |s| && Plain(s[..k])
    {
      k := k + 1;
    }
  }

  /** html_escape() into a buffer of sufficient size. */
  method EscapeInto(s: Bytes, dst: array<Byte>) returns (length: nat)
    requires |Escape(s)| <= dst.Length
    modifies dst
    ensures length == |Escape(s)| && dst[..length] == Escape(s)
  {
    hide Escape, EscapeChar;
    length := 0;
    EscapePlain([]);
    for i := 0 to |s|
      invariant length <= dst.Length && dst[..length] == Escape(s[..i])
    {
      EscapeSnoc(s, i);
      var e := EscapeChar(s[i]);
      Put(dst, dst.Length, dst.Length, dst, length, e);
      length := length + |e|;
    }
    assert s[..|s|] == s;
  }
}
