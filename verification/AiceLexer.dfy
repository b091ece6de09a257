/** The tokenizer of .aice files, and the way from a file to characters and back. */
module AiceLexer {
  import opened Wrappers
  import opened AiceSyntax

  // ----- characters -----

  predicate IsPunct(c: char) {
    c == '{' || c == '}' || c == '[' || c == ']' || c == '=' || c == ';' || c == ','
  }

  predicate IsSpace(c: char) {
    c == ' ' || '\U{09}' <= c <= '\U{0D}' || '\U{1C}' <= c <= '\U{1F}'
  }

  predicate IsDigit(c: char) {
    '0' <= c <= '9'
  }

  predicate IsWordStart(c: char) {
    'a' <= c <= 'z' || 'A' <= c <= 'Z' || c == '_'
  }

  predicate IsWordChar(c: char) {
    IsWordStart(c) || IsDigit(c)
  }

  function Unescape(c: char): char {
    if c == 'n' then '\n' else if c == 't' then '\t' else if c == 'r' then '\r' else c
  }

  // ----- what is left of the text after a piece of it -----

  function AfterLine(s: string): (r: string)
    ensures |r| <= |s|
  {
    if s == [] || s[0] == '\n' then s else AfterLine(s[1..])
  }

  /** After the end of a block comment; nothing is left if it does not end. */
  function AfterComment(s: string): (r: string)
    ensures |r| <= |s|
  {
    if |s| < 2 then []
    else if s[0] == '*' && s[1] == '/' then s[2..]
    else AfterComment(s[1..])
  }

  /** The content of a quoted string and what follows its closing quote; None if it has none. */
  function LexQuoted(s: string): (r: Option<(string, string)>)
    ensures r.Some? ==> |r.value.1| < |s|
  {
    if s == [] then None
    else if s[0] == '"' then Some(("", s[1..]))
    else if s[0] == '\\' && |s| > 1 then
      var r := LexQuoted(s[2..]);
      if r.None? then None else Some(([Unescape(s[1])] + r.value.0, r.value.1))
    else
      var r := LexQuoted(s[1..]);
      if r.None? then None else Some(([s[0]] + r.value.0, r.value.1))
  }

  function DigitsLen(s: string): (n: nat)
    ensures n <= |s|
  {
    if s == [] || !IsDigit(s[0]) then 0 else 1 + DigitsLen(s[1..])
  }

  function WordLen(s: string): (n: nat)
    ensures n <= |s|
  {
    if s == [] || !IsWordChar(s[0]) then 0 else 1 + WordLen(s[1..])
  }

  predicate StartsNumber(s: string) {
    s != [] && (IsDigit(s[0]) || (s[0] == '-' && |s| > 1 && IsDigit(s[1])))
  }

  /** Length of the number at the front: a sign, digits, and a fraction if it has digits. */
  function NumberLen(s: string): (n: nat)
    requires StartsNumber(s)
    ensures 0 < n <= |s|
  {
    var sign := if s[0] == '-' then 1 else 0;
    var whole := sign + DigitsLen(s[sign..]);
    if whole + 1 < |s| && s[whole] == '.' && IsDigit(s[whole + 1]) then whole + 1 + DigitsLen(s[whole + 1..])
    else whole
  }

  function WordToken(s: string): Token {
    if s == "true" then Boolean(true) else if s == "false" then Boolean(false) else Ident(s)
  }

  function Then(tok: Token, r: Option<seq<Token>>): Option<seq<Token>> {
    if r.None? then None else Some([tok] + r.value)
  }

  /** One token, comment or space at the front of a text, and what is left behind it; None for a
      character or an unended string that cannot be read. */
  function Lexeme(s: string): (r: Option<(Option<Token>, string)>)
    requires s != []
    ensures r.Some? ==> |r.value.1| < |s|
  {
    if IsSpace(s[0]) then Some((None, s[1..]))
    else if s[0] == '/' && |s| > 1 && s[1] == '/' then Some((None, AfterLine(s[1..])))
    else if s[0] == '/' && |s| > 1 && s[1] == '*' then Some((None, AfterComment(s[2..])))
    else if IsPunct(s[0]) then Some((Some(Punct(s[0])), s[1..]))
    else if s[0] == '"' then
      var r := LexQuoted(s[1..]);
      if r.None? then None else Some((Some(Quoted(r.value.0)), r.value.1))
    else if StartsNumber(s) then Some((Some(Number(s[..NumberLen(s)])), s[NumberLen(s)..]))
    else if IsWordStart(s[0]) then Some((Some(WordToken(s[..WordLen(s)])), s[WordLen(s)..]))
    else None
  }

  /** The tokens of a text. */
  function Lex(s: string): Option<seq<Token>>
    decreases |s|
  {
    if s == [] then Some([])
    else
      match Lexeme(s)
      case None => None
      case Some((tok, rest)) => if tok.Some? then Then(tok.value, Lex(rest)) else Lex(rest)
  }

  // ----- writing tokens as text -----

  function EscapedChar(c: char): string {
    if c == '"' || c == '\\' then ['\\', c] else if c == '\n' then ['\\', 'n'] else [c]
  }

  function Escape(s: string): string {
    if s == [] then [] else EscapedChar(s[0]) + Escape(s[1..])
  }

  /** One or more digits. */
  predicate Digits(s: string) {
    s != "" && forall k :: 0 <= k < |s| ==> '0' <= s[k] <= '9'
  }

  /** A number as it is written: a minus sign or none, digits, and a point with digits or none. */
  function NumeralText(negative: bool, whole: string, fraction: string): string {
    (if negative then "-" else "") + (whole + if fraction == "" then "" else "." + fraction)
  }

  ghost predicate IsNumeral(s: string) {
    exists negative, whole, fraction ::
      Digits(whole) && (fraction == "" || Digits(fraction)) && s == NumeralText(negative, whole, fraction)
  }

  predicate IsLetter(c: char) {
    'a' <= c <= 'z' || 'A' <= c <= 'Z' || c == '_'
  }

  /** A letter or underscore, then letters, digits and underscores; the truth values are none. */
  predicate IsWord(s: string) {
    && s != "" && IsLetter(s[0]) && (forall k :: 0 <= k < |s| ==> IsLetter(s[k]) || '0' <= s[k] <= '9')
    && s != "true" && s != "false"
  }

  /** Tokens that some text has. */
  ghost predicate Readable(tok: Token) {
    match tok
    case Punct(c) => c in {'{', '}', '[', ']', '=', ';', ','}
    case Quoted(_) => true
    case Number(text) => IsNumeral(text)
    case Boolean(_) => true
    case Ident(s) => IsWord(s)
  }

  function TextOf(tok: Token): string {
    match tok
    case Punct(c) => [c]
    case Quoted(s) => ['"'] + (Escape(s) + ['"'])
    case Number(text) => text
    case Boolean(b) => if b then "true" else "false"
    case Ident(s) => s
  }

  /** Every token followed by a space. */
  function Spell(ts: seq<Token>): string {
    if ts == [] then [] else TextOf(ts[0]) + ([' '] + Spell(ts[1..]))
  }

  // ----- reading back what was written -----

  lemma {:induction false} QuotedBack(s: string, rest: string)
    ensures LexQuoted(Escape(s) + (['"'] + rest)) == Some((s, rest))
  {
    if s == [] {
      var t := Escape(s) + (['"'] + rest);
      assert t == ['"'] + rest && t[1..] == rest;
    } else {
      QuotedBack(s[1..], rest);
      OneQuoted(s[0], Escape(s[1..]) + (['"'] + rest), s[1..], rest);
      assert Escape(s) + (['"'] + rest) == EscapedChar(s[0]) + (Escape(s[1..]) + (['"'] + rest));
      assert s == [s[0]] + s[1..];
    }
  }

  lemma OneQuoted(c: char, more: string, s: string, rest: string)
    requires LexQuoted(more) == Some((s, rest))
    ensures LexQuoted(EscapedChar(c) + more) == Some(([c] + s, rest))
  {
    var t := EscapedChar(c) + more;
    if c == '"' || c == '\\' || c == '\n' {
      assert t[2..] == more;
    } else {
      assert t[1..] == more;
    }
  }

  lemma {:induction false} DigitsStop(a: string, c: char, rest: string)
    requires !IsDigit(c)
    ensures DigitsLen(a + ([c] + rest)) == DigitsLen(a)
  {
    var t := a + ([c] + rest);
    if a != [] {
      assert t[1..] == a[1..] + ([c] + rest);
      DigitsStop(a[1..], c, rest);
    }
  }

  lemma {:induction false} WordStop(a: string, c: char, rest: string)
    requires !IsWordChar(c)
    ensures WordLen(a + ([c] + rest)) == WordLen(a)
  {
    var t := a + ([c] + rest);
    if a != [] {
      assert t[1..] == a[1..] + ([c] + rest);
      WordStop(a[1..], c, rest);
    }
  }

  lemma NumberStop(a: string, rest: string)
    requires StartsNumber(a)
    ensures StartsNumber(a + ([' '] + rest)) && NumberLen(a + ([' '] + rest)) == NumberLen(a)
  {
    var t := a + ([' '] + rest);
    var sign := if a[0] == '-' then 1 else 0;
    assert t[sign..] == a[sign..] + ([' '] + rest);
    DigitsStop(a[sign..], ' ', rest);
    var whole := sign + DigitsLen(a[sign..]);
    if whole + 1 < |a| {
      assert t[whole + 1..] == a[whole + 1..] + ([' '] + rest);
      DigitsStop(a[whole + 1..], ' ', rest);
    }
  }

  lemma SpaceSkipped(rest: string)
    ensures Lex([' '] + rest) == Lex(rest)
  {
    assert Lexeme([' '] + rest) == Some((None, rest)) by {
      assert ([' '] + rest)[1..] == rest;
    }
  }

  lemma WordBack(s: string, rest: string)
    requires s != [] && IsWordStart(s[0]) && WordLen(s) == |s|
    ensures Lex(s + ([' '] + rest)) == Then(WordToken(s), Lex(rest))
  {
    var t := s + ([' '] + rest);
    WordStop(s, ' ', rest);
    SpaceSkipped(rest);
    assert t[..|s|] == s && t[|s|..] == [' '] + rest;
  }

  lemma {:induction false} WordLenAll(s: string)
    requires forall k :: 0 <= k < |s| ==> IsLetter(s[k]) || '0' <= s[k] <= '9'
    ensures WordLen(s) == |s|
  {
    if s != "" {
      WordLenAll(s[1..]);
    }
  }

  /** A word is one token, its name. */
  lemma NameBack(s: string, rest: string)
    requires IsWord(s)
    ensures Lex(s + ([' '] + rest)) == Then(Ident(s), Lex(rest))
  {
    WordLenAll(s);
    WordBack(s, rest);
  }

  lemma {:induction false} DigitsAll(s: string, rest: string)
    requires (forall k :: 0 <= k < |s| ==> '0' <= s[k] <= '9') && (rest != "" ==> !IsDigit(rest[0]))
    ensures DigitsLen(s + rest) == |s|
  {
    if s == "" {
      assert s + rest == rest;
    } else {
      assert (s + rest)[1..] == s[1..] + rest;
      DigitsAll(s[1..], rest);
    }
  }

  lemma NumeralLen(negative: bool, whole: string, fraction: string)
    requires Digits(whole) && (fraction == "" || Digits(fraction))
    ensures var s := NumeralText(negative, whole, fraction); StartsNumber(s) && NumberLen(s) == |s|
  {
    var s, sign := NumeralText(negative, whole, fraction), if negative then 1 else 0;
    var tail := if fraction == "" then "" else "." + fraction;
    assert s[sign..] == whole + tail && s[sign] == whole[0];
    assert s[0] == (if negative then '-' else whole[0]);
    DigitsAll(whole, tail);
    if fraction != "" {
      assert s[sign + |whole|] == '.' && s[sign + |whole| + 1] == fraction[0];
      assert s[sign + |whole| + 1..] == fraction + "";
      DigitsAll(fraction, "");
    }
  }

  /** A number is one token: sign, digits and fraction together. */
  lemma NumberBack(negative: bool, whole: string, fraction: string, rest: string)
    requires Digits(whole) && (fraction == "" || Digits(fraction))
    ensures var s := NumeralText(negative, whole, fraction);
            Lex(s + ([' '] + rest)) == Then(Number(s), Lex(rest))
  {
    var s := NumeralText(negative, whole, fraction);
    NumeralLen(negative, whole, fraction);
    NumberStop(s, rest);
    SpaceSkipped(rest);
    var t := s + ([' '] + rest);
    assert t[..|s|] == s && t[|s|..] == [' '] + rest;
    NumeralStart(s);
  }

  /** What starts a number starts nothing else. */
  lemma NumeralStart(s: string)
    requires StartsNumber(s)
    ensures !IsSpace(s[0]) && s[0] != '/' && !IsPunct(s[0]) && s[0] != '"'
  {
  }

  lemma PunctBack(c: char, rest: string)
    requires IsPunct(c)
    ensures Lex([c] + ([' '] + rest)) == Then(Punct(c), Lex(rest))
  {
    assert ([c] + ([' '] + rest))[1..] == [' '] + rest;
    SpaceSkipped(rest);
  }

  lemma QuotedTokenBack(s: string, rest: string)
    ensures Lex(['"'] + (Escape(s) + ['"']) + ([' '] + rest)) == Then(Quoted(s), Lex(rest))
  {
    var t := ['"'] + (Escape(s) + ['"']) + ([' '] + rest);
    assert t[1..] == Escape(s) + (['"'] + ([' '] + rest));
    QuotedBack(s, [' '] + rest);
    SpaceSkipped(rest);
  }

  lemma BooleanBack(b: bool, rest: string)
    ensures Lex((if b then "true" else "false") + ([' '] + rest)) == Then(Boolean(b), Lex(rest))
  {
    assert "true"[1..] == "rue" && "rue"[1..] == "ue" && "ue"[1..] == "e" && "e"[1..] == "";
    assert WordLen("e") == 1 && WordLen("ue") == 2 && WordLen("rue") == 3;
    assert "false"[1..] == "alse" && "alse"[1..] == "lse" && "lse"[1..] == "se" && "se"[1..] == "e";
    assert WordLen("se") == 2 && WordLen("lse") == 3 && WordLen("alse") == 4;
    WordBack(if b then "true" else "false", rest);
  }

  lemma TokenBack(tok: Token, rest: string)
    requires Readable(tok)
    ensures Lex(TextOf(tok) + ([' '] + rest)) == Then(tok, Lex(rest))
  {
    match tok
    case Punct(c) => PunctBack(c, rest);
    case Quoted(s) => QuotedTokenBack(s, rest);
    case Number(text) =>
      var negative, whole, fraction :|
        Digits(whole) && (fraction == "" || Digits(fraction)) && text == NumeralText(negative, whole, fraction);
      NumberBack(negative, whole, fraction, rest);
    case Boolean(b) => BooleanBack(b, rest);
    case Ident(s) => NameBack(s, rest);
  }

  /** Tokenizing inverts spelling, for every list of tokens some text has. */
  lemma {:induction false} SpelledBack(ts: seq<Token>)
    requires forall k :: 0 <= k < |ts| ==> Readable(ts[k])
    ensures Lex(Spell(ts)) == Some(ts)
  {
    if ts != [] {
      SpelledBack(ts[1..]);
      TokenBack(ts[0], Spell(ts[1..]));
      assert ts == [ts[0]] + ts[1..];
    }
  }

  // ----- layout -----

  lemma {:induction false} LineEnds(line: string, rest: string)
    requires '\n' !in line
    ensures AfterLine(line + (['\n'] + rest)) == ['\n'] + rest
  {
    var t := line + (['\n'] + rest);
    if line == [] {
      assert t == ['\n'] + rest;
    } else {
      assert t[1..] == line[1..] + (['\n'] + rest);
      LineEnds(line[1..], rest);
    }
  }

  lemma {:induction false} NoLineEnd(line: string)
    requires '\n' !in line
    ensures AfterLine(line) == ""
  {
    if line != "" {
      NoLineEnd(line[1..]);
    }
  }

  lemma LastCommentSkipped(line: string)
    requires '\n' !in line
    ensures Lex("//" + line) == Lex("")
  {
    var t := "//" + line;
    assert t[1..] == ['/'] + line;
    NoLineEnd(['/'] + line);
    assert Lexeme(t) == Some((None, ""));
  }

  /** A line comment counts for nothing, with a line end behind it or at the end of the text. */
  lemma LineCommentSkipped(line: string, rest: string)
    requires '\n' !in line
    ensures Lex("//" + (line + (['\n'] + rest))) == Lex(rest)
    ensures Lex("//" + line) == Lex("")
  {
    LastCommentSkipped(line);
    var t := "//" + (line + (['\n'] + rest));
    var more, end := ['/'] + line, ['\n'] + rest;
    assert t[1..] == more + end;
    LineEnds(more, rest);
    assert Lexeme(t) == Some((None, end));
    assert Lexeme(end) == Some((None, rest)) by {
      assert end[1..] == rest;
    }
  }

  /** Text without the end of a block comment in it. */
  predicate NoEnd(body: string) {
    |body| < 2 || (!(body[0] == '*' && body[1] == '/') && NoEnd(body[1..]))
  }

  lemma {:induction false} CommentEnds(body: string, rest: string)
    requires NoEnd(body)
    ensures AfterComment(body + ("*/" + rest)) == rest
  {
    var t := body + ("*/" + rest);
    if body == [] {
      assert t[2..] == rest;
    } else {
      assert t[1..] == body[1..] + ("*/" + rest);
      CommentEnds(body[1..], rest);
    }
  }

  /** Nor does a block comment. */
  lemma BlockCommentSkipped(body: string, rest: string)
    requires NoEnd(body)
    ensures Lex("/*" + (body + ("*/" + rest))) == Lex(rest)
  {
    var t := "/*" + (body + ("*/" + rest));
    assert Lexeme(t) == Some((None, rest)) by {
      assert t[0] == '/' && t[1] == '*' && t[2..] == body + ("*/" + rest);
      CommentEnds(body, rest);
    }
  }

  // ----- what a text may hold besides tokens -----

  lemma {:induction false} NeverEnds(body: string)
    requires NoEnd(body)
    ensures AfterComment(body) == ""
  {
    if |body| >= 2 {
      NeverEnds(body[1..]);
    }
  }

  /** A block comment that is not closed takes the rest of the text. */
  lemma OpenCommentSkipped(body: string)
    requires NoEnd(body)
    ensures Lex("/*" + body) == Some([])
  {
    var t := "/*" + body;
    NeverEnds(body);
    assert t[0] == '/' && t[1] == '*' && t[2..] == body;
    assert Lexeme(t) == Some((None, ""));
  }

  /** Space, tab, line ends and the other ASCII blanks count for nothing. */
  lemma BlankSkipped(c: char, rest: string)
    requires c in {' ', '\t', '\n', '\r', '\U{0B}', '\U{0C}', '\U{1C}', '\U{1D}', '\U{1E}', '\U{1F}'}
    ensures Lex([c] + rest) == Lex(rest)
  {
    assert Lexeme([c] + rest) == Some((None, rest)) by {
      assert ([c] + rest)[1..] == rest;
    }
  }

  /** A character that starts no token, comment or blank cannot be read. */
  lemma Unreadable(c: char, rest: string)
    requires c as int >= 0x20 && c !in {' ', '{', '}', '[', ']', '=', ';', ',', '"', '/', '-'}
    requires !IsLetter(c) && !('0' <= c <= '9')
    ensures Lex([c] + rest) == None
  {
    assert Lexeme([c] + rest) == None;
  }

  /** A slash or a minus sign alone cannot be read either. */
  lemma LoneSign(c: char, next: char, rest: string)
    requires (c == '/' && next != '/' && next != '*') || (c == '-' && !('0' <= next <= '9'))
    ensures Lex([c, next] + rest) == None && Lex([c]) == None
  {
    assert Lexeme([c, next] + rest) == None && Lexeme([c]) == None;
  }

  lemma {:induction false} NoQuote(s: string)
    requires '"' !in s
    ensures LexQuoted(s) == None
    decreases |s|
  {
    if s != "" {
      if s[0] == '\\' && |s| > 1 {
        NoQuote(s[2..]);
      } else {
        NoQuote(s[1..]);
      }
    }
  }

  /** A string that is not closed cannot be read. */
  lemma OpenString(s: string)
    requires '"' !in s
    ensures Lex(['"'] + s) == None
  {
    NoQuote(s);
    assert (['"'] + s)[1..] == s;
    assert Lexeme(['"'] + s) == None;
  }

  /** What an escape in a string stands for: line end, tab and carriage return by their letters, any
      other character by itself. */
  lemma EscapeRead(c: char, more: string, s: string, rest: string)
    requires LexQuoted(more) == Some((s, rest))
    ensures c == 'n' ==> LexQuoted(['\\', c] + more) == Some((['\n'] + s, rest))
    ensures c == 't' ==> LexQuoted(['\\', c] + more) == Some((['\t'] + s, rest))
    ensures c == 'r' ==> LexQuoted(['\\', c] + more) == Some((['\r'] + s, rest))
    ensures c !in {'n', 't', 'r'} ==> LexQuoted(['\\', c] + more) == Some(([c] + s, rest))
  {
    assert (['\\', c] + more)[2..] == more;
  }

  // ----- the loops -----

  method SkipLine(src: string, start: nat) returns (i: nat)
    requires start <= |src|
    ensures start <= i <= |src| && src[i..] == AfterLine(src[start..])
  {
    i := start;
    while i < |src| && src[i] != '\n'
      invariant start <= i <= |src| && AfterLine(src[i..]) == AfterLine(src[start..])
    {
      assert src[i..][1..] == src[i + 1..];
      i := i + 1;
    }
  }

  /** Moves past the end of a block comment, or past the text. */
  method SkipComment(src: string, start: nat) returns (i: nat)
    requires start <= |src|
    ensures start <= i && (if i <= |src| then src[i..] else []) == AfterComment(src[start..])
  {
    i := start;
    while i + 1 < |src| && !(src[i] == '*' && src[i + 1] == '/')
      invariant start <= i <= |src| && AfterComment(src[i..]) == AfterComment(src[start..])
    {
      assert src[i..][1..] == src[i + 1..];
      i := i + 1;
    }
    i := i + 2;
  }

  function Behind(buf: string, r: Option<(string, string)>): Option<(string, string)> {
    if r.None? then None else Some((buf + r.value.0, r.value.1))
  }

  lemma NothingBefore(r: Option<(string, string)>)
    ensures Behind("", r) == r
  {
    if r.Some? {
      assert "" + r.value.0 == r.value.0;
    }
  }

  lemma Gather(buf: string, c: char, r: Option<(string, string)>)
    ensures Behind(buf + [c], r) == Behind(buf, Behind([c], r))
  {
    if r.Some? {
      assert buf + [c] + r.value.0 == buf + ([c] + r.value.0);
    }
  }

  /** Reads a quoted string from behind its opening quote. */
  method ReadQuoted(src: string, start: nat) returns (text: Option<string>, j: nat)
    requires start <= |src|
    ensures j <= |src|
    ensures match LexQuoted(src[start..])
            case None => text == None
            case Some((s, rest)) => text == Some(s) && src[j..] == rest && start < j
  {
    j := start;
    var buf := "";
    NothingBefore(LexQuoted(src[start..]));
    while j < |src| && src[j] != '"'
      invariant start <= j <= |src|
      invariant Behind(buf, LexQuoted(src[j..])) == LexQuoted(src[start..])
    {
      if src[j] == '\\' && j + 1 < |src| {
        assert src[j..][2..] == src[j + 2..];
        Gather(buf, Unescape(src[j + 1]), LexQuoted(src[j + 2..]));
        buf := buf + [Unescape(src[j + 1])];
        j := j + 2;
      } else {
        assert src[j..][1..] == src[j + 1..];
        Gather(buf, src[j], LexQuoted(src[j + 1..]));
        buf := buf + [src[j]];
        j := j + 1;
      }
    }
    if j >= |src| {
      return None, |src|;
    }
    assert buf + "" == buf;
    text, j := Some(buf), j + 1;
  }

  function Before(done: seq<Token>, r: Option<seq<Token>>): Option<seq<Token>> {
    if r.None? then None else Some(done + r.value)
  }

  lemma NoneBefore(r: Option<seq<Token>>)
    ensures Before([], r) == r
  {
    if r.Some? {
      assert [] + r.value == r.value;
    }
  }

  lemma Append(done: seq<Token>, tok: Token, r: Option<seq<Token>>)
    ensures Before(done + [tok], r) == Before(done, Then(tok, r))
  {
    if r.Some? {
      assert done + [tok] + r.value == done + ([tok] + r.value);
    }
  }

  function RestOf(src: string, i: nat): string {
    if i <= |src| then src[i..] else []
  }

  lemma Further(src: string, i: nat, n: nat)
    requires i + n <= |src|
    ensures src[i..][n..] == src[i + n..]
  {
  }

  /** One token, comment or space at position i, which is not the end. */
  method Step(src: string, i: nat) returns (ok: bool, tok: Option<Token>, next: nat)
    requires i < |src|
    ensures match Lexeme(src[i..])
            case None => !ok
            case Some((t, rest)) => ok && tok == t && RestOf(src, next) == rest && i < next
  {
    var c, s := src[i], src[i..];
    ok, tok, next := true, None, i + 1;
    Further(src, i, 1);
    if IsSpace(c) {
    } else if c == '/' && i + 1 < |src| && src[i + 1] == '/' {
      next := SkipLine(src, i + 1);
    } else if c == '/' && i + 1 < |src| && src[i + 1] == '*' {
      Further(src, i, 2);
      next := SkipComment(src, i + 2);
    } else if IsPunct(c) {
      tok := Some(Punct(c));
    } else if c == '"' {
      var text;
      text, next := ReadQuoted(src, i + 1);
      ok := text.Some?;
      tok := if ok then Some(Quoted(text.value)) else None;
    } else if StartsNumber(s) {
      tok, next := Some(Number(s[..NumberLen(s)])), i + NumberLen(s);
      Further(src, i, NumberLen(s));
    } else if IsWordStart(c) {
      tok, next := Some(WordToken(s[..WordLen(s)])), i + WordLen(s);
      Further(src, i, WordLen(s));
    } else {
      ok := false;
    }
  }

  method Tokenize(src: string) returns (r: Option<seq<Token>>)
    ensures r == Lex(src)
  {
    var tokens: seq<Token> := [];
    var i := 0;
    assert RestOf(src, 0) == src;
    NoneBefore(Lex(src));
    while i < |src|
      invariant Before(tokens, Lex(RestOf(src, i))) == Lex(src)
      decreases |src| - i
    {
      var ok, tok, next := Step(src, i);
      if !ok {
        return None;
      }
      if tok.Some? {
        Append(tokens, tok.value, Lex(RestOf(src, next)));
        tokens := tokens + [tok.value];
      }
      i := next;
    }
    assert tokens + [] == tokens;
    r := Some(tokens);
  }

  // ----- from characters to a file -----

  function ParseText(src: string): Option<AiceFile> {
    var ts := Lex(src);
    if ts.None? then None
    else
      var r := ParseFile(ts.value);
      if r.None? then None else Some(FileOf(r.value.0))
  }

  /** Reading inverts writing: a file whose names are words and whose numbers are numerals is read
      back from its text, with all its strings, whatever they contain. */
  lemma TextRoundTrip(f: AiceFile)
    requires forall k :: 0 <= k < |Render(f)| ==> Readable(Render(f)[k])
    ensures ParseText(Spell(Render(f))) == Some(f)
  {
    SpelledBack(Render(f));
    assert Render(f) + [] == Render(f);
    RoundTrip(f, []);
  }
}
