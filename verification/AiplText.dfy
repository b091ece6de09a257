/** String literals as text: how the emitter writes them, with and without escapes, and what the AIPL
    reader makes of them. */
module AiplText {
  import opened Wrappers

  // ----- the reader: a quote, a body without a bare quote, a quote -----

  /** Characters in front of the closing quote; a backslash takes the next character with it. */
  function BodyLen(t: string): (r: Option<nat>)
    ensures r.Some? ==> r.value < |t|
    decreases |t|
  {
    if t == "" then None
    else if t[0] == '"' then Some(0)
    else if t[0] != '\\' then Further(1, BodyLen(t[1..]))
    else if |t| == 1 || t[1] == '\n' then None
    else Further(2, BodyLen(t[2..]))
  }

  function Further(k: nat, n: Option<nat>): Option<nat> {
    if n.Some? then Some(k + n.value) else None
  }

  // ----- what stands behind a backslash -----

  predicate IsOctal(c: char) {
    '0' <= c <= '7'
  }

  /** Characters that make an escape with a backslash in front; before others the backslash stays. */
  predicate Known(c: char) {
    c in "\\'\"abfnrtvxuUN" || IsOctal(c)
  }

  function HexDigit(c: char): Option<nat> {
    if '0' <= c <= '9' then Some(c as nat - '0' as nat)
    else if 'a' <= c <= 'f' then Some(c as nat - 'a' as nat + 10)
    else if 'A' <= c <= 'F' then Some(c as nat - 'A' as nat + 10)
    else None
  }

  /** The number of exactly these hexadecimal digits. */
  function Hex(t: string): Option<nat> {
    if t == "" then Some(0)
    else
      var front, last := Hex(t[..|t| - 1]), HexDigit(t[|t| - 1]);
      if front.None? || last.None? then None else Some(front.value * 16 + last.value)
  }

  function CharOf(n: nat): Option<char> {
    if n < 0xD800 || 0xE000 <= n < 0x11_0000 then Some(n as char) else None
  }

  function HexEscape(b: string, digits: nat): (r: Option<(char, nat)>)
    ensures r.Some? ==> r.value.1 == 2 + digits <= |b|
  {
    if |b| < 2 + digits || Hex(b[2..2 + digits]).None? || CharOf(Hex(b[2..2 + digits]).value).None? then None
    else Some((CharOf(Hex(b[2..2 + digits]).value).value, 2 + digits))
  }

  /** Up to three octal digits. */
  function OctalEscape(b: string): (r: (char, nat))
    requires |b| >= 2 && IsOctal(b[1])
    ensures 2 <= r.1 <= |b|
  {
    var d1 := b[1] as nat - '0' as nat;
    if |b| < 3 || !IsOctal(b[2]) then (d1 as char, 2)
    else
      var d2 := d1 * 8 + (b[2] as nat - '0' as nat);
      if |b| < 4 || !IsOctal(b[3]) then (d2 as char, 3)
      else ((d2 * 8 + (b[3] as nat - '0' as nat)) as char, 4)
  }

  /** The character of an escape and the length of the escape.  Characters by name are not part of
      this model. */
  function Escape(b: string): (r: Option<(char, nat)>)
    requires |b| >= 2 && b[0] == '\\' && Known(b[1])
    ensures r.Some? ==> 2 <= r.value.1 <= |b|
  {
    match b[1]
    case 'a' => Some((7 as char, 2))
    case 'b' => Some((8 as char, 2))
    case 't' => Some(('\t', 2))
    case 'n' => Some(('\n', 2))
    case 'v' => Some((11 as char, 2))
    case 'f' => Some((12 as char, 2))
    case 'r' => Some(('\r', 2))
    case 'x' => HexEscape(b, 2)
    case 'u' => HexEscape(b, 4)
    case 'U' => HexEscape(b, 8)
    case 'N' => None
    case c => if IsOctal(c) then Some(OctalEscape(b)) else Some((c, 2))
  }

  // ----- decoding: escapes are resolved in the bytes of the text, one byte one character -----

  predicate IsAscii(c: char) {
    c as int < 0x80
  }

  predicate Ascii(s: string) {
    forall k :: 0 <= k < |s| ==> IsAscii(s[k])
  }

  predicate NoAscii(s: string) {
    forall k :: 0 <= k < |s| ==> !IsAscii(s[k])
  }

  function ByteChar(n: nat): (c: char)
    requires n < 0x80
    ensures !IsAscii(c)
  {
    (0x80 + n) as char
  }

  /** The bytes of a character in UTF-8, each read as a character of its own. */
  function Bytes(c: char): (r: string)
    ensures if IsAscii(c) then r == [c] else |r| >= 2 && NoAscii(r)
  {
    var n := c as int;
    if n < 0x80 then [c]
    else if n < 0x800 then [ByteChar(0x40 + n / 0x40), ByteChar(n % 0x40)]
    else if n < 0x1_0000 then [ByteChar(0x60 + n / 0x1000), ByteChar(n / 0x40 % 0x40), ByteChar(n % 0x40)]
    else [ByteChar(0x70 + n / 0x4_0000), ByteChar(n / 0x1000 % 0x40), ByteChar(n / 0x40 % 0x40), ByteChar(n % 0x40)]
  }

  function Before(front: string, rest: Option<string>): Option<string> {
    if rest.Some? then Some(front + rest.value) else None
  }

  /** What the reader makes of a literal's body; None is a decoding error. */
  function Decoded(b: string): Option<string>
    decreases |b|
  {
    if b == "" then Some("")
    else if b[0] != '\\' then Before(Bytes(b[0]), Decoded(b[1..]))
    else if |b| == 1 then None
    else if !Known(b[1]) then Before("\\" + Bytes(b[1]), Decoded(b[2..]))
    else
      var e := Escape(b);
      if e.None? then None else Before([e.value.0], Decoded(b[e.value.1..]))
  }

  /** The literal at the front of a text, and the text behind it. */
  function ReadLiteral(t: string): Option<(string, string)> {
    if t == "" || t[0] != '"' then None
    else
      var n := BodyLen(t[1..]);
      if n.None? then None
      else
        var v := Decoded(t[1..1 + n.value]);
        if v.None? then None else Some((v.value, t[2 + n.value..]))
  }

  // ----- escapes and encoding, one by one -----

  lemma EscapeStep(b: string, d: char, n: nat, rest: string)
    requires |b| >= 2 && b[0] == '\\' && Known(b[1]) && Escape(b) == Some((d, n)) && b[n..] == rest
    ensures Decoded(b) == Before([d], Decoded(rest))
  {
  }

  /** The letters that stand for control characters, and the characters that stand for themselves. */
  lemma LetterEscapes(c: char, code: nat, rest: string)
    requires (c, code) in {('a', 7), ('b', 8), ('t', 9), ('n', 10), ('v', 11), ('f', 12), ('r', 13), ('\\', 92),
                           ('"', 34), ('\'', 39)}
    ensures Decoded(['\\', c] + rest) == Before([code as char], Decoded(rest))
  {
    EscapeStep(['\\', c] + rest, code as char, 2, rest);
  }

  /** A number in hexadecimal, with so many digits. */
  function HexText(n: nat, digits: nat): (t: string)
    ensures |t| == digits
  {
    if digits == 0 then "" else HexText(n / 16, digits - 1) + [HexChar(n % 16)]
  }

  function HexChar(k: nat): char
    requires k < 16
  {
    "0123456789abcdef"[k]
  }

  lemma HexCharBack(k: nat)
    requires k < 16
    ensures HexDigit(HexChar(k)) == Some(k)
  {
  }

  function Pow16(k: nat): nat {
    if k == 0 then 1 else 16 * Pow16(k - 1)
  }

  lemma HexLast(front: string, c: char, high: nat, low: nat)
    requires Hex(front) == Some(high) && HexDigit(c) == Some(low)
    ensures Hex(front + [c]) == Some(16 * high + low)
  {
    assert (front + [c])[..|front|] == front;
  }

  lemma {:induction false} HexBack(n: nat, digits: nat)
    requires n < Pow16(digits)
    ensures Hex(HexText(n, digits)) == Some(n)
  {
    if digits > 0 {
      HexBack(n / 16, digits - 1);
      HexCharBack(n % 16);
      HexLast(HexText(n / 16, digits - 1), HexChar(n % 16), n / 16, n % 16);
    }
  }

  /** A number behind x, u or U, in two, four or eight hexadecimal digits, is the character's. */
  lemma HexEscapes(n: nat, rest: string)
    ensures n < 0x100 ==> Decoded("\\x" + HexText(n, 2) + rest) == Before([n as char], Decoded(rest))
    ensures n < 0xD800 || 0xE000 <= n < 0x1_0000 ==>
              Decoded("\\u" + HexText(n, 4) + rest) == Before([n as char], Decoded(rest))
    ensures n < 0xD800 || 0xE000 <= n < 0x11_0000 ==>
              Decoded("\\U" + HexText(n, 8) + rest) == Before([n as char], Decoded(rest))
  {
    Pow16Values();
    OneHexEscape('x', 2, n, rest);
    OneHexEscape('u', 4, n, rest);
    OneHexEscape('U', 8, n, rest);
  }

  lemma OneHexEscape(c: char, digits: nat, n: nat, rest: string)
    requires (c, digits) in {('x', 2), ('u', 4), ('U', 8)}
    ensures n < Pow16(digits) ==>
              Decoded(['\\', c] + HexText(n, digits) + rest)
              == if CharOf(n).Some? then Before([CharOf(n).value], Decoded(rest)) else None
  {
    if n < Pow16(digits) {
      HexBack(n, digits);
      var b := ['\\', c] + HexText(n, digits) + rest;
      assert b[2..2 + digits] == HexText(n, digits) && b[2 + digits..] == rest;
      HexStep(b, digits, n);
    }
  }

  lemma HexStep(b: string, digits: nat, n: nat)
    requires |b| >= 2 + digits && b[0] == '\\' && (b[1], digits) in {('x', 2), ('u', 4), ('U', 8)}
    requires Hex(b[2..2 + digits]) == Some(n)
    ensures Decoded(b) == if CharOf(n).Some? then Before([CharOf(n).value], Decoded(b[2 + digits..])) else None
  {
    HexNumber(b, digits, n);
    EscapeIsHex(b, digits);
    if CharOf(n).Some? {
      EscapeStep(b, CharOf(n).value, 2 + digits, b[2 + digits..]);
    }
  }

  lemma HexNumber(b: string, digits: nat, n: nat)
    requires |b| >= 2 + digits && Hex(b[2..2 + digits]) == Some(n)
    ensures HexEscape(b, digits) == if CharOf(n).Some? then Some((CharOf(n).value, 2 + digits)) else None
  {
  }

  lemma EscapeIsHex(b: string, digits: nat)
    requires |b| >= 2 && b[0] == '\\' && (b[1], digits) in {('x', 2), ('u', 4), ('U', 8)}
    ensures Known(b[1]) && Escape(b) == HexEscape(b, digits)
  {
  }

  lemma Pow16Values()
    ensures Pow16(2) == 0x100 && Pow16(4) == 0x1_0000 && Pow16(8) == 0x1_0000_0000
  {
    assert Pow16(1) == 16 && Pow16(3) == 0x1000 && Pow16(5) == 0x10_0000 && Pow16(7) == 0x1000_0000;
  }

  /** Upper-case digits count like lower-case ones. */
  lemma UpperDigits(k: nat)
    requires k < 6
    ensures HexDigit("ABCDEF"[k]) == HexDigit("abcdef"[k]) == Some(10 + k)
  {
  }

  /** The octal digit of a number. */
  function Octal(i: nat): (c: char)
    requires i < 8
    ensures IsOctal(c) && c as nat == '0' as nat + i
  {
    "01234567"[i]
  }

  /** One to three octal digits, as many as there are, and no more than three. */
  lemma OctalEscapes(i: nat, j: nat, k: nat, rest: string)
    requires i < 8 && j < 8 && k < 8
    ensures Decoded(['\\', Octal(i), Octal(j), Octal(k)] + rest)
         == Before([(64 * i + 8 * j + k) as char], Decoded(rest))
    ensures rest == "" || !('0' <= rest[0] <= '7') ==>
              && Decoded(['\\', Octal(i), Octal(j)] + rest) == Before([(8 * i + j) as char], Decoded(rest))
              && Decoded(['\\', Octal(i)] + rest) == Before([i as char], Decoded(rest))
  {
    ThreeOctal(i, j, k, rest);
    if rest == "" || !('0' <= rest[0] <= '7') {
      TwoOctal(i, j, rest);
      OneOctal(i, rest);
    }
  }

  lemma OctalStep(b: string, d: char, n: nat, rest: string)
    requires |b| >= 2 && b[0] == '\\' && IsOctal(b[1]) && OctalEscape(b) == (d, n) && b[n..] == rest
    ensures Decoded(b) == Before([d], Decoded(rest))
  {
    EscapeStep(b, d, n, rest);
  }

  lemma OneOctal(i: nat, rest: string)
    requires i < 8 && (rest == "" || !IsOctal(rest[0]))
    ensures Decoded(['\\', Octal(i)] + rest) == Before([i as char], Decoded(rest))
  {
    var b := ['\\', Octal(i)] + rest;
    assert OctalEscape(b) == (i as char, 2);
    OctalStep(b, i as char, 2, rest);
  }

  lemma TwoDigits(b: string, i: nat, j: nat)
    requires |b| >= 3 && i < 8 && j < 8 && b[1] == Octal(i) && b[2] == Octal(j) && (|b| > 3 ==> !IsOctal(b[3]))
    ensures OctalEscape(b) == ((8 * i + j) as char, 3)
  {
  }

  lemma ThreeDigits(b: string, i: nat, j: nat, k: nat)
    requires |b| >= 4 && i < 8 && j < 8 && k < 8 && b[1] == Octal(i) && b[2] == Octal(j) && b[3] == Octal(k)
    ensures OctalEscape(b) == ((64 * i + 8 * j + k) as char, 4)
  {
  }

  lemma TwoOctal(i: nat, j: nat, rest: string)
    requires i < 8 && j < 8 && (rest == "" || !IsOctal(rest[0]))
    ensures Decoded(['\\', Octal(i), Octal(j)] + rest) == Before([(8 * i + j) as char], Decoded(rest))
  {
    var b := ['\\', Octal(i), Octal(j)] + rest;
    assert b[3..] == rest && b[1] == Octal(i) && b[2] == Octal(j) && (rest != "" ==> b[3] == rest[0]);
    TwoDigits(b, i, j);
    OctalStep(b, (8 * i + j) as char, 3, rest);
  }

  lemma ThreeOctal(i: nat, j: nat, k: nat, rest: string)
    requires i < 8 && j < 8 && k < 8
    ensures Decoded(['\\', Octal(i), Octal(j), Octal(k)] + rest)
         == Before([(64 * i + 8 * j + k) as char], Decoded(rest))
  {
    var b := ['\\', Octal(i), Octal(j), Octal(k)] + rest;
    assert b[4..] == rest && b[1] == Octal(i) && b[2] == Octal(j) && b[3] == Octal(k);
    ThreeDigits(b, i, j, k);
    OctalStep(b, (64 * i + 8 * j + k) as char, 4, rest);
  }

  /** The characters a character is decoded to are its UTF-8 bytes (RFC 3629, section 3): as many as its
      size needs, a first byte that tells how many and continuation bytes, with the number's bits. */
  lemma BytesAreUtf8(c: char)
    ensures var n, r := c as nat, Bytes(c);
            && |r| == (if n < 0x80 then 1 else if n < 0x800 then 2 else if n < 0x1_0000 then 3 else 4)
            && (forall k :: 1 <= k < |r| ==> 0x80 <= r[k] as nat < 0xC0)
            && (|r| == 1 ==> r[0] as nat == n)
            && (|r| == 2 ==> n == (r[0] as nat - 0xC0) * 0x40 + (r[1] as nat - 0x80))
            && (|r| == 3 ==> n == (r[0] as nat - 0xE0) * 0x1000 + (r[1] as nat - 0x80) * 0x40 + (r[2] as nat - 0x80))
            && (|r| == 4 ==> n == (r[0] as nat - 0xF0) * 0x4_0000 + (r[1] as nat - 0x80) * 0x1000
                                  + (r[2] as nat - 0x80) * 0x40 + (r[3] as nat - 0x80))
  {
    SixBits(c as nat);
    SixBits(c as nat / 0x40);
    SixBits(c as nat / 0x1000);
    assert forall n: nat :: n < 0x80 ==> ByteChar(n) as nat == 0x80 + n;
  }

  lemma SixBits(n: nat)
    ensures n == n / 0x40 * 0x40 + n % 0x40 && n % 0x40 < 0x40
    ensures n / 0x40 / 0x40 == n / 0x1000 && n / 0x1000 / 0x40 == n / 0x4_0000
  {
  }

  // ----- the two ways the emitter writes a literal -----

  /** As the coherence method is emitted: the text between two quotes. */
  function Raw(s: string): string {
    "\"" + s + "\""
  }

  function Replace(s: string, c: char, other: string): string {
    if s == "" then "" else (if s[0] == c then other else [s[0]]) + Replace(s[1..], c, other)
  }

  function Replaced(s: string): string {
    Replace(Replace(Replace(s, '\\', "\\\\"), '"', "\\\""), '\n', "\\n")
  }

  /** As the other texts of the program are emitted: backslashes, quotes and line ends replaced in turn. */
  function Escaped(s: string): string {
    Raw(Replaced(s))
  }

  // ----- bodies that decode to themselves -----

  /** No backslash makes an escape. */
  predicate NoEscape(b: string)
    decreases |b|
  {
    b == ""
    || if b[0] != '\\' then NoEscape(b[1..]) else |b| >= 2 && !Known(b[1]) && NoEscape(b[2..])
  }

  lemma {:induction false} HexAscii(t: string)
    ensures Hex(t).Some? ==> Ascii(t)
  {
    if t != "" {
      HexAscii(t[..|t| - 1]);
      assert t == t[..|t| - 1] + [t[|t| - 1]];
    }
  }

  lemma HexEscapeAscii(b: string, digits: nat)
    requires |b| >= 2 && b[0] == '\\' && Known(b[1]) && HexEscape(b, digits).Some?
    ensures Ascii(b[..2 + digits])
  {
    HexAscii(b[2..2 + digits]);
    assert b[..2 + digits] == [b[0], b[1]] + b[2..2 + digits];
  }

  lemma EscapeAscii(b: string)
    requires |b| >= 2 && b[0] == '\\' && Known(b[1]) && Escape(b).Some?
    ensures Ascii(b[..Escape(b).value.1])
  {
    if b[1] == 'x' {
      HexEscapeAscii(b, 2);
    } else if b[1] == 'u' {
      HexEscapeAscii(b, 4);
    } else if b[1] == 'U' {
      HexEscapeAscii(b, 8);
    }
  }

  /** Decoding never puts ASCII text in front of what it was given. */
  lemma {:induction false} NothingInFront(b: string, w: string)
    requires w != "" && Ascii(w)
    ensures Decoded(b) != Some(w + b)
    decreases |b|
  {
    if Decoded(b) == Some(w + b) && b != "" {
      if b[0] != '\\' {
        PlainShift(b, w);
        NothingInFront(b[1..], w[1..] + [b[0]]);
      } else if Known(b[1]) {
        var n := BehindEscape(b, w + b);
        EscapeAscii(b);
        Shifted(b, w, n);
        NothingInFront(b[n..], w[1..] + b[..n]);
      } else {
        KeptPair(b, w);
        assert (w + b)[2..] == (w[2..] + b[..2]) + b[2..];
        NothingInFront(b[2..], w[2..] + b[..2]);
      }
    }
  }

  lemma PlainShift(b: string, w: string)
    requires w != "" && Ascii(w) && b != "" && b[0] != '\\' && Decoded(b) == Some(w + b)
    ensures IsAscii(b[0]) && Decoded(b[1..]) == Some((w[1..] + [b[0]]) + b[1..])
  {
    assert (w + b)[0] == w[0] == Bytes(b[0])[0];
    assert (w + b)[1..] == (w[1..] + [b[0]]) + b[1..];
  }

  /** What follows an escape decodes to what follows its character. */
  lemma BehindEscape(b: string, v: string) returns (n: nat)
    requires |b| >= 2 && b[0] == '\\' && Known(b[1]) && Decoded(b) == Some(v)
    ensures Escape(b).Some? && n == Escape(b).value.1 && 2 <= n <= |b|
    ensures v != "" && Decoded(b[n..]) == Some(v[1..])
  {
    n := Escape(b).value.1;
    var u := Decoded(b[n..]).value;
    assert v == [Escape(b).value.0] + u;
    assert ([Escape(b).value.0] + u)[1..] == u;
  }

  lemma Shifted(b: string, w: string, n: nat)
    requires w != "" && n <= |b|
    ensures (w + b)[1..] == (w[1..] + b[..n]) + b[n..]
  {
  }

  lemma KeptPair(b: string, w: string)
    requires w != "" && Ascii(w) && |b| >= 2 && b[0] == '\\' && !Known(b[1]) && Decoded(b) == Some(w + b)
    ensures |w| >= 2 && IsAscii(b[1]) && Decoded(b[2..]) == Some((w + b)[2..])
  {
    assert (w + b)[1] == ("\\" + Bytes(b[1]))[1] == Bytes(b[1])[0];
  }

  /** Bytes in front never make up for what decoding adds. */
  lemma {:induction false} NothingRegained(w: string, b: string)
    requires w != "" && NoAscii(w) && Decoded(b).Some?
    ensures w + Decoded(b).value != b
    decreases |b|
  {
    if w + Decoded(b).value == b {
      assert b[0] == w[0];
      assert b[1..] == (w[1..] + Bytes(b[0])) + Decoded(b[1..]).value;
      NothingRegained(w[1..] + Bytes(b[0]), b[1..]);
    }
  }

  /** A body decodes to itself if and only if it is ASCII and no backslash in it makes an escape. */
  lemma {:induction false} DecodesToItself(b: string)
    ensures Decoded(b) == Some(b) <==> Ascii(b) && NoEscape(b)
    decreases |b|
  {
    if b == "" {
    } else if b[0] != '\\' {
      PlainFirst(b);
    } else if |b| >= 2 && Known(b[1]) {
      EscapeFirst(b);
    } else if |b| >= 2 {
      PairFirst(b);
    }
  }

  lemma BeforeOne(c: char, r: Option<string>, tail: string)
    ensures Before([c], r) == Some([c] + tail) <==> r == Some(tail)
  {
    if r.Some? && [c] + r.value == [c] + tail {
      assert r.value == ([c] + r.value)[1..] == ([c] + tail)[1..] == tail;
    }
  }

  lemma PlainFirst(b: string)
    requires b != "" && b[0] != '\\'
    ensures Decoded(b) == Some(b) <==> Ascii(b) && NoEscape(b)
    decreases |b|, 0
  {
    DecodesToItself(b[1..]);
    if IsAscii(b[0]) {
      BeforeOne(b[0], Decoded(b[1..]), b[1..]);
      assert b == [b[0]] + b[1..];
    } else {
      WideFirst(b);
    }
  }

  lemma WideFirst(b: string)
    requires b != "" && !IsAscii(b[0])
    ensures Decoded(b) != Some(b)
  {
    if Decoded(b) == Some(b) {
      var tail := Bytes(b[0])[1..];
      assert b[1..] == tail + Decoded(b[1..]).value;
      NothingRegained(tail, b[1..]);
    }
  }

  lemma NoneAfterEscape(b: string, n: nat)
    requires 2 <= n <= |b| && Ascii(b[..n])
    ensures Decoded(b[n..]) != Some(b[1..])
  {
    assert b[1..] == b[1..n] + b[n..];
    NothingInFront(b[n..], b[1..n]);
  }

  lemma EscapeFirst(b: string)
    requires |b| >= 2 && b[0] == '\\' && Known(b[1])
    ensures Decoded(b) != Some(b)
  {
    if Decoded(b) == Some(b) {
      var n := BehindEscape(b, b);
      EscapeAscii(b);
      NoneAfterEscape(b, n);
    }
  }

  lemma PairFirst(b: string)
    requires |b| >= 2 && b[0] == '\\' && !Known(b[1])
    ensures Decoded(b) == Some(b) <==> Ascii(b) && NoEscape(b)
    decreases |b|, 0
  {
    assert b == [b[0], b[1]] + b[2..];
    DecodesToItself(b[2..]);
    if Decoded(b[2..]).Some? {
      PairKept(b, Decoded(b[2..]).value);
    }
  }

  lemma PairKept(b: string, u: string)
    requires |b| >= 2 && b[0] == '\\' && Decoded(b[2..]) == Some(u)
    ensures ("\\" + Bytes(b[1])) + u == b <==> IsAscii(b[1]) && u == b[2..]
  {
    var front := "\\" + Bytes(b[1]);
    if IsAscii(b[1]) {
      assert front == b[..2];
      assert (front + u)[2..] == u;
      assert b == b[..2] + b[2..];
    } else if front + u == b {
      var tail := Bytes(b[1])[1..];
      assert b[2..] == (front + u)[2..] == tail + u;
      NothingRegained(tail, b[2..]);
    }
  }

  // ----- literals that read back -----

  /** No quote, and no backslash but in front of a character that makes no escape with it. */
  predicate Kept(s: string)
    decreases |s|
  {
    s == ""
    || if s[0] != '\\' then s[0] != '"' && Kept(s[1..])
       else |s| >= 2 && !Known(s[1]) && s[1] != '\n' && Kept(s[2..])
  }

  lemma {:induction false} KeptNoEscape(s: string)
    ensures Kept(s) ==> NoEscape(s)
    decreases |s|
  {
    if s != "" {
      if s[0] != '\\' {
        KeptNoEscape(s[1..]);
      } else if |s| >= 2 {
        KeptNoEscape(s[2..]);
      }
    }
  }

  lemma {:induction false} KeptBody(s: string, rest: string)
    requires NoEscape(s)
    ensures BodyLen(s + ("\"" + rest)) == Some(|s|) <==> Kept(s)
    decreases |s|
  {
    var t := s + ("\"" + rest);
    if s == "" {
      assert t[0] == '"';
    } else if s[0] != '\\' {
      assert t[0] == s[0] && t[1..] == s[1..] + ("\"" + rest);
      KeptBody(s[1..], rest);
    } else {
      assert t[0] == '\\' && t[1] == s[1] && t[2..] == s[2..] + ("\"" + rest);
      KeptBody(s[2..], rest);
    }
  }

  lemma RawParts(s: string, rest: string)
    ensures var t := Raw(s) + rest;
            && |t| == 2 + |s| + |rest| && t[0] == '"' && t[1..] == s + ("\"" + rest)
            && t[1..1 + |s|] == s && t[2 + |s|..] == rest
  {
  }

  lemma ReadsAs(s: string, rest: string)
    ensures ReadLiteral(Raw(s) + rest) == Some((s, rest)) <==>
            BodyLen(s + ("\"" + rest)) == Some(|s|) && Decoded(s) == Some(s)
  {
    RawParts(s, rest);
    var t, n := Raw(s) + rest, BodyLen(s + ("\"" + rest));
    if ReadLiteral(t) == Some((s, rest)) {
      assert |t[2 + n.value..]| == |rest|;
    }
  }

  /** A literal written without escapes reads back, whatever follows it, if and only if it is ASCII and
      holds no quote and no backslash that escapes something. */
  lemma RawReadsBack(s: string, rest: string)
    ensures ReadLiteral(Raw(s) + rest) == Some((s, rest)) <==> Ascii(s) && Kept(s)
  {
    ReadsAs(s, rest);
    DecodesToItself(s);
    KeptNoEscape(s);
    if NoEscape(s) {
      KeptBody(s, rest);
    }
  }

  // ----- comments -----

  /** What is left behind a line comment: the line end and what follows it. */
  function BehindLine(t: string): string {
    if t == "" || t[0] == '\n' then t else BehindLine(t[1..])
  }

  /** A comment made of given text ends with its line if and only if the text holds no line end. */
  lemma {:induction false} CommentCloses(line: string, rest: string)
    ensures |BehindLine(line + ("\n" + rest))| > |rest|
    ensures BehindLine(line + ("\n" + rest)) == "\n" + rest <==> '\n' !in line
  {
    var t := line + ("\n" + rest);
    if line != "" {
      if line[0] == '\n' {
        assert |t| > |"\n" + rest|;
      } else {
        assert t[1..] == line[1..] + ("\n" + rest);
        CommentCloses(line[1..], rest);
        assert line == [line[0]] + line[1..];
      }
    }
  }

  // ----- literals written with escapes -----

  function EscapedChar(c: char): string {
    if c == '\\' then "\\\\" else if c == '"' then "\\\"" else if c == '\n' then "\\n" else [c]
  }

  function EscapedBody(s: string): string {
    if s == "" then "" else EscapedChar(s[0]) + EscapedBody(s[1..])
  }

  lemma {:induction false} ReplaceJoin(a: string, b: string, c: char, other: string)
    ensures Replace(a + b, c, other) == Replace(a, c, other) + Replace(b, c, other)
  {
    if a == "" {
      assert a + b == b;
    } else {
      assert (a + b)[1..] == a[1..] + b;
      ReplaceJoin(a[1..], b, c, other);
    }
  }

  lemma ReplaceOne(x: char, c: char, other: string)
    ensures Replace([x], c, other) == if x == c then other else [x]
  {
    assert [x][1..] == "";
  }

  lemma ReplaceTwo(x: char, y: char, c: char, other: string)
    requires x != c && y != c
    ensures Replace([x, y], c, other) == [x, y]
  {
    assert [x, y] == [x] + [y];
    ReplaceJoin([x], [y], c, other);
    ReplaceOne(x, c, other);
    ReplaceOne(y, c, other);
  }

  lemma EscapedOne(x: char)
    ensures Replaced([x]) == EscapedChar(x)
  {
    ReplaceOne(x, '\\', "\\\\");
    ReplaceOne(x, '"', "\\\"");
    ReplaceOne(x, '\n', "\\n");
    ReplaceTwo('\\', '\\', '"', "\\\"");
    ReplaceTwo('\\', '\\', '\n', "\\n");
    ReplaceTwo('\\', '"', '\n', "\\n");
  }

  lemma ReplacedJoin(a: string, b: string)
    ensures Replaced(a + b) == Replaced(a) + Replaced(b)
  {
    var a1, b1 := Replace(a, '\\', "\\\\"), Replace(b, '\\', "\\\\");
    ReplaceJoin(a, b, '\\', "\\\\");
    ReplaceJoin(a1, b1, '"', "\\\"");
    ReplaceJoin(Replace(a1, '"', "\\\""), Replace(b1, '"', "\\\""), '\n', "\\n");
  }

  /** The three replacements come to one replacement of each character. */
  lemma {:induction false} ReplacedIs(s: string)
    ensures Replaced(s) == EscapedBody(s)
  {
    if s == "" {
      assert Replace("", '\\', "\\\\") == "" && Replace("", '"', "\\\"") == "" && Replace("", '\n', "\\n") == "";
    } else {
      ReplacedIs(s[1..]);
      assert s == [s[0]] + s[1..];
      ReplacedJoin([s[0]], s[1..]);
      EscapedOne(s[0]);
    }
  }

  /** Every character as its bytes. */
  function AllBytes(s: string): string {
    if s == "" then "" else Bytes(s[0]) + AllBytes(s[1..])
  }

  lemma {:induction false} BytesAreAscii(s: string)
    ensures |AllBytes(s)| >= |s|
    ensures AllBytes(s) == s <==> Ascii(s)
  {
    if s != "" {
      BytesAreAscii(s[1..]);
      assert s == [s[0]] + s[1..];
      if !IsAscii(s[0]) {
        assert |AllBytes(s)| > |s|;
      }
    }
  }

  lemma OneDecoded(c: char, more: string)
    ensures Decoded(EscapedChar(c) + more) == Before(Bytes(c), Decoded(more))
  {
    var first := EscapedChar(c);
    assert (first + more)[|first|..] == more;
    if |first| == 2 {
      assert first[0] == '\\' && Known(first[1]) && Escape(first + more) == Some((c, 2));
    }
  }

  lemma OneBody(c: char, more: string)
    ensures BodyLen(EscapedChar(c) + more) == Further(|EscapedChar(c)|, BodyLen(more))
  {
    var first := EscapedChar(c);
    assert (first + more)[|first|..] == more;
  }

  lemma {:induction false} EscapedDecodes(s: string)
    ensures Decoded(EscapedBody(s)) == Some(AllBytes(s))
  {
    if s != "" {
      EscapedDecodes(s[1..]);
      OneDecoded(s[0], EscapedBody(s[1..]));
    }
  }

  lemma {:induction false} EscapedCloses(s: string, rest: string)
    ensures BodyLen(EscapedBody(s) + ("\"" + rest)) == Some(|EscapedBody(s)|)
  {
    if s != "" {
      EscapedCloses(s[1..], rest);
      var first, more := EscapedChar(s[0]), EscapedBody(s[1..]);
      OneBody(s[0], more + ("\"" + rest));
      assert EscapedBody(s) + ("\"" + rest) == first + (more + ("\"" + rest));
    }
  }

  lemma ReadsBody(body: string, rest: string, v: string)
    requires BodyLen(body + ("\"" + rest)) == Some(|body|) && Decoded(body) == Some(v)
    ensures ReadLiteral(Raw(body) + rest) == Some((v, rest))
  {
    RawParts(body, rest);
  }

  /** A literal written with escapes reads back as its bytes: as what was written if and only if that is
      ASCII. */
  lemma EscapedReadsBack(s: string, rest: string)
    ensures ReadLiteral(Escaped(s) + rest) == Some((AllBytes(s), rest))
    ensures AllBytes(s) == s <==> Ascii(s)
  {
    ReplacedIs(s);
    EscapedDecodes(s);
    EscapedCloses(s, rest);
    BytesAreAscii(s);
    ReadsBody(EscapedBody(s), rest, AllBytes(s));
  }
}

/** The string literals of the emitted coherence method. */
module EmittedLiterals {
  import opened Wrappers
  import opened Aipl
  import opened Coherence
  import opened AiplText

  function ExprLits<N(==)>(e: Expr<N>): set<string> {
    match e
    case IntLit(_) => {}
    case StrLit(s) => {s}
    case Var(_) => {}
    case Plus(l, r) => ExprLits(l) + ExprLits(r)
    case Eq(l, r) => ExprLits(l) + ExprLits(r)
    case Ne(l, r) => ExprLits(l) + ExprLits(r)
    case Lt(l, r) => ExprLits(l) + ExprLits(r)
    case Ge(l, r) => ExprLits(l) + ExprLits(r)
    case StrLen(x) => ExprLits(x)
    case StrIndex(h, x) => ExprLits(h) + ExprLits(x)
    case StrFrom(x, i) => ExprLits(x) + ExprLits(i)
    case StrSub(x, i, j) => ExprLits(x) + ExprLits(i) + ExprLits(j)
  }

  /** A literal of a part is a literal of the whole. */
  lemma PartsAreIn<N>(l: Expr<N>, m: Expr<N>, r: Expr<N>)
    ensures forall e :: e in [Plus(l, r), Eq(l, r), Ne(l, r), Lt(l, r), Ge(l, r), StrIndex(l, r), StrFrom(l, r),
                              StrSub(l, r, m), StrSub(l, m, r), StrSub(m, l, r)] ==>
              ExprLits(l) <= ExprLits(e) && ExprLits(r) <= ExprLits(e)
    ensures ExprLits(l) <= ExprLits(StrLen(l))
  {
  }

  function StmtLits<N(==)>(s: Stmt<N>): set<string>
    decreases s
  {
    match s
    case VarDecl(_, e) => ExprLits(e)
    case Assign(_, e) => ExprLits(e)
    case If(c, thn, els) => ExprLits(c) + CodeLits(thn) + CodeLits(els)
    case Reply(e) => ExprLits(e)
  }

  function CodeLits<N(==)>(ss: seq<Stmt<N>>): set<string>
    decreases ss
  {
    if ss == [] then {} else StmtLits(ss[0]) + CodeLits(ss[1..])
  }

  lemma {:induction false} LitsJoin<N>(xs: seq<Stmt<N>>, ys: seq<Stmt<N>>)
    ensures CodeLits(xs + ys) == CodeLits(xs) + CodeLits(ys)
    decreases |xs|
  {
    if xs == [] {
      assert xs + ys == ys;
    } else {
      assert (xs + ys)[1..] == xs[1..] + ys;
      LitsJoin(xs[1..], ys);
    }
  }

  lemma LitsOne<N>(s: Stmt<N>)
    ensures CodeLits([s]) == StmtLits(s)
  {
    assert [s][1..] == [];
  }

  // ----- what a rule puts between quotes -----

  /** The texts that a rule contributes: the axis names with their equals sign, and the values. */
  function RuleTexts(r: Rule): set<string>
    requires !Skipped(r)
  {
    {r.conds[0].0 + "=", r.conds[0].1, ThenAxis(r) + "="}
    + if r.thenEq != [] then {r.thenEq[0].1} else set v | v in r.thenIn[0].1
  }

  /** The literals that every reading of an axis contains. */
  const FIXED: set<string> := {"", "|"}

  lemma BlockLits(axis: string, side: Side, k: nat)
    ensures CodeLits(GetAxisBlock(axis, side, k)) == {axis + "="} + FIXED
  {
    var out, key, at := Local(side, k, Whole), Local(side, k, Key), Local(side, k, At);
    ScanLits(side, k);
    var d1: Stmt<Name>, d2: Stmt<Name>, d3: Stmt<Name> :=
      VarDecl(key, StrLit(axis + "=")), VarDecl(at, StrIndex(Var(Genome), Var(key))), VarDecl(out, StrLit(""));
    var scan: Stmt<Name> := If(Ge(Var(at), IntLit(0)), ScanCode(side, k), []);
    assert ExprLits(d1.e) == {axis + "="} && ExprLits(d2.e) == {} && ExprLits(d3.e) == {""};
    assert CodeLits<Name>([]) == {} && ExprLits(scan.cond) == {};
    assert CodeLits(scan.thn) == {"|"} && CodeLits(scan.els) == {} && StmtLits(scan) == {"|"};
    LitsJoin([d1], [d2] + ([d3] + [scan]));
    LitsJoin([d2], [d3] + [scan]);
    LitsJoin([d3], [scan]);
    LitsOne(d1);
    LitsOne(d2);
    LitsOne(d3);
    LitsOne(scan);
  }

  lemma ScanLits(side: Side, k: nat)
    ensures CodeLits(ScanCode(side, k)) == {"|"}
  {
    var out, key, at := Local(side, k, Whole), Local(side, k, Key), Local(side, k, At);
    var rest, bar := Local(side, k, Rest), Local(side, k, Bar);
    var d1: Stmt<Name>, d2: Stmt<Name> :=
      VarDecl(rest, StrFrom(Var(Genome), Plus(Var(at), StrLen(Var(key))))), VarDecl(bar, StrIndex(Var(rest),
            StrLit("|")));
    var first: Stmt<Name>, second: Stmt<Name> := Assign(out, Var(rest)), Assign(out, StrSub(Var(rest), IntLit(0),
          Var(bar)));
    var length: Expr<Name>, at1: Expr<Name> := StrLen(Var(key)), Plus(Var(at), StrLen(Var(key)));
    assert ExprLits(length) == {} && ExprLits(at1) == {} && ExprLits(d1.e) == {} && ExprLits(d2.e) == {"|"};
    LitsOne(first);
    LitsOne(second);
    assert ExprLits(first.e) == {} && ExprLits(second.e) == {};
    assert ExprLits(CutCode(side, k).cond) == {} && StmtLits(CutCode(side, k)) == {};
    LitsJoin([d1], [d2] + [CutCode(side, k)]);
    LitsJoin([d2], [CutCode(side, k)]);
    LitsOne(d1);
    LitsOne(d2);
    LitsOne(CutCode(side, k));
  }

  lemma {:induction false} MatchLits(out: Name, vals: seq<string>)
    ensures CodeLits(MatchAny(out, vals)) == set v | v in vals
  {
    if vals != [] {
      var n := |vals| - 1;
      var last: Stmt<Name> := If(Eq(Var(out), StrLit(vals[n])), [Assign(InSet, IntLit(1))], []);
      MatchLits(out, vals[..n]);
      LitsJoin(MatchAny(out, vals[..n]), [last]);
      LitsOne(last);
      LitsOne<Name>(Assign(InSet, IntLit(1)));
      assert CodeLits<Name>([]) == {} && ExprLits<Name>(IntLit(1)) == {}
            && StmtLits<Name>(Assign(InSet, IntLit(1))) == {};
      assert ExprLits(last.cond) == {vals[n]} && StmtLits(last) == {vals[n]};
      assert vals == vals[..n] + [vals[n]];
    }
  }

  lemma VerdictLits(r: Rule, out: Name)
    requires !Skipped(r)
    ensures CodeLits(Verdict(r, out)) == if r.thenEq != [] then {r.thenEq[0].1} else set v | v in r.thenIn[0].1
  {
    LitsOne<Name>(Assign(Ok, IntLit(0)));
    assert ExprLits<Name>(IntLit(0)) == {} && StmtLits<Name>(Assign(Ok, IntLit(0))) == {};
    assert CodeLits(FailCode()) == {} && CodeLits<Name>([]) == {};
    if r.thenEq != [] {
      var v := r.thenEq[0].1;
      var check: Stmt<Name> := If(Ne(Var(out), StrLit(v)), FailCode(), []);
      assert ExprLits(check.cond) == {v} && CodeLits(check.thn) == {} && CodeLits(check.els) == {}
            && StmtLits(check) == {v};
      LitsOne(check);
    } else {
      var d: Stmt<Name>, last: Stmt<Name> := VarDecl(InSet, IntLit(0)), If(Eq(Var(InSet), IntLit(0)), FailCode(), []);
      assert ExprLits(d.e) == {} && ExprLits(last.cond) == {} && StmtLits(last) == {};
      MatchLits(out, r.thenIn[0].1);
      LitsJoin([d] + MatchAny(out, r.thenIn[0].1), [last]);
      LitsJoin([d], MatchAny(out, r.thenIn[0].1));
      LitsOne(d);
      LitsOne(last);
    }
  }

  lemma ThenLits(r: Rule, k: nat)
    requires !Skipped(r)
    ensures CodeLits(ThenCode(r, k)) == {ThenAxis(r) + "="} + FIXED + CodeLits(Verdict(r, Local(B, k, Whole)))
  {
    var out := Local(B, k, Whole);
    var inner: Stmt<Name> := If(Ne(Var(out), StrLit("")), Verdict(r, out), []);
    assert CodeLits<Name>([]) == {} && ExprLits(inner.cond) == {""};
    assert StmtLits(inner) == {""} + CodeLits(Verdict(r, out));
    BlockLits(ThenAxis(r), B, k);
    LitsOne(inner);
    LitsJoin(GetAxisBlock(ThenAxis(r), B, k), [inner]);
  }

  lemma RuleLits(r: Rule, k: nat)
    ensures CodeLits(RuleCode(r, k)) == if Skipped(r) then {} else RuleTexts(r) + FIXED
  {
    if !Skipped(r) {
      var outer: Stmt<Name> := If(Eq(Var(Local(A, k, Whole)), StrLit(r.conds[0].1)), ThenCode(r, k), []);
      assert CodeLits<Name>([]) == {} && ExprLits(outer.cond) == {r.conds[0].1};
      assert StmtLits(outer) == {r.conds[0].1} + CodeLits(ThenCode(r, k));
      BlockLits(r.conds[0].0, A, k);
      VerdictLits(r, Local(B, k, Whole));
      ThenLits(r, k);
      LitsOne(outer);
      LitsJoin(GetAxisBlock(r.conds[0].0, A, k), [outer]);
    }
  }

  lemma MethodLits(rules: seq<Rule>)
    ensures CodeLits(IsCoherentMethod(rules)) == CodeLits(RulesCode(rules))
  {
    var d: Stmt<Name>, last: Stmt<Name> := VarDecl(Ok, IntLit(1)), Reply(Var(Ok));
    LitsJoin([d] + RulesCode(rules), [last]);
    LitsJoin([d], RulesCode(rules));
    LitsOne(d);
    LitsOne(last);
  }

  /** ASCII, no quote, and no backslash that escapes something. */
  predicate Writable(s: string) {
    Ascii(s) && Kept(s)
  }

  predicate AllWritable(ts: set<string>) {
    forall s :: s in ts ==> Writable(s)
  }

  /** What a rule contributes to the method's text can be written without escapes. */
  predicate RuleWritable(r: Rule) {
    !Skipped(r) ==> AllWritable(RuleTexts(r))
  }

  lemma RuleLitsWritable(r: Rule, k: nat)
    ensures AllWritable(CodeLits(RuleCode(r, k))) <==> RuleWritable(r)
  {
    RuleLits(r, k);
  }

  lemma {:induction false} RulesWritable(rules: seq<Rule>)
    ensures AllWritable(CodeLits(RulesCode(rules))) <==> forall k :: 0 <= k < |rules| ==> RuleWritable(rules[k])
  {
    if rules != [] {
      var n := |rules| - 1;
      var front := rules[..n];
      RulesWritable(front);
      RuleLitsWritable(rules[n], n);
      LitsJoin(RulesCode(front), RuleCode(rules[n], n));
      assert forall k :: 0 <= k < n ==> front[k] == rules[k];
    }
  }

  /** As text, the method's literals are those of its tree, whatever stands behind them, if and only if
      every axis name and value that its rules contribute can be written without escapes. */
  lemma MethodReadsBack(rules: seq<Rule>, rest: string)
    ensures (forall s :: s in CodeLits(IsCoherentMethod(rules)) ==> ReadLiteral(Raw(s) + rest) == Some((s, rest)))
       <==> forall k :: 0 <= k < |rules| ==> RuleWritable(rules[k])
  {
    MethodLits(rules);
    RulesWritable(rules);
    forall s
      ensures ReadLiteral(Raw(s) + rest) == Some((s, rest)) <==> Writable(s)
    {
      RawReadsBack(s, rest);
    }
  }
}
