/** What the lexer makes of single bytes, words, comments and escapes, in terms of the bytes themselves. */
module LexerLaws {
  import opened Common
  import opened Hbc
  import opened Source
  import opened Lexer

  // ---------- single bytes ----------

  predicate Letter(c: byte) { 65 <= c <= 90 || 97 <= c <= 122 || c == 95 }

  predicate Digit(c: byte) { 48 <= c <= 57 }

  /** The bytes that are operators or brackets by themselves: ( ) * + , - / ; < = > { } */
  predicate Sign(c: byte) { 40 <= c <= 45 || c == 47 || 59 <= c <= 62 || c == 123 || c == 125 }

  predicate Layout(c: byte) { c in {9, 10, 13, 32} }

  lemma OneByteScanned(c: byte)
    ensures var r := Scan([c], START); var next := Cursor(1, 1, 2);
            if Layout(c) then r.Skip? && r.next.at == 1
            else if Letter(c) then r == Found(TkIdent([c]), next)
            else if Digit(c) then r == Found(TkNumber(c - 48), next)
            else if Sign(c) then r.Found? && r.next == next
            else r == Bad(if c == 34 then -65 else -67)
  {
    var s := [c];
    if Letter(c) {
      assert WordEnd(s, 1) == 1 && s[0..1] == [c];
      assert WordToken([c]) == TkIdent([c]);
    }
    if Digit(c) { assert ReadNumber(s, 0, 0) == Some((1, ToI32(c as int - 48))); }
    if c == 34 { assert ReadLiteral(s, 1, 0) == Runaway(-65); }
  }

  /** What a source of one byte is: layout, a name, a number, a sign, or refused at its place. */
  lemma OneByteSources(c: byte)
    ensures var r := Lex([c]);
            if Layout(c) then r.Lexemes? && TokensOf(r.all) == [TkEof]
            else if Letter(c) then r.Lexemes? && TokensOf(r.all) == [TkIdent([c]), TkEof]
            else if Digit(c) then r.Lexemes? && TokensOf(r.all) == [TkNumber(c - 48), TkEof]
            else if Sign(c) then r.Lexemes? && |r.all| == 2 && r.all[1].token == TkEof
            else r == Refused(Refusal(if c == 34 then -65 else -67, 1, 1))
  {
    hide Scan;
    var s := [c];
    OneByteScanned(c);
    match Scan(s, START)
    case Bad(_) =>
    case Skip(next) => assert LexFrom(s, next, []) == Lexemes([] + [LexemeAt(TkEof, next)]);
    case Found(token, next) =>
      var seen := [LexemeAt(token, START)];
      assert LexFrom(s, next, seen) == Lexemes(seen + [LexemeAt(TkEof, next)]);
      assert [] + [LexemeAt(token, START)] == seen;
  }

  // ---------- words ----------

  /** The nine words that are no names. */
  const WORDS: seq<seq<byte>> :=
    [[0x69, 0x6E, 0x74], [0x72, 0x65, 0x74, 0x75, 0x72, 0x6E], [0x69, 0x66], [0x65, 0x6C, 0x73, 0x65],
     [0x77, 0x68, 0x69, 0x6C, 0x65], [0x77, 0x72, 0x69, 0x74, 0x65], [0x70, 0x72, 0x69, 0x6E, 0x74],
     [0x73, 0x6C, 0x65, 0x65, 0x70], [0x67, 0x70, 0x69, 0x6F, 0x5F, 0x74, 0x6F, 0x67, 0x67, 0x6C, 0x65]]

  const MEANINGS: seq<Token> := [TkInt, TkReturn, TkIf, TkElse, TkWhile, TkWrite, TkPrint, TkSleep, TkGpio]

  /** int, return, if, else, while, write, print, sleep and gpio_toggle are keywords; every other word is a name. */
  lemma WordsMean(n: Name)
    ensures n in WORDS || WordToken(n) == TkIdent(n)
    ensures forall k :: 0 <= k < 9 ==> WordToken(WORDS[k]) == MEANINGS[k] && Spelling(MEANINGS[k]) == WORDS[k]
  {
    if n !in WORDS { forall k | 0 <= k < 9 ensures n != WORDS[k] {} }
  }

  /** The four signs of two bytes: == != <= >= */
  lemma PairsMean(a: byte, b: byte)
    ensures TwoByteToken(a, b).Some? <==> b == 61 && a in {33, 60, 61, 62}
    ensures TwoByteToken(61, 61) == Some(TkEq) && TwoByteToken(33, 61) == Some(TkNe)
    ensures TwoByteToken(60, 61) == Some(TkLe) && TwoByteToken(62, 61) == Some(TkGe)
  {
  }

  /** The bytes ( ) { } ; , = + - * / < > and their tokens. */
  const SIGN_BYTES: seq<byte> := [40, 41, 123, 125, 59, 44, 61, 43, 45, 42, 47, 60, 62]

  const SIGN_TOKENS: seq<Token> :=
    [TkLParen, TkRParen, TkLBrace, TkRBrace, TkSemi, TkComma, TkAssign, TkPlus, TkMinus, TkStar, TkSlash, TkLt, TkGt]

  lemma SignsMean(k: nat)
    requires k < 13
    ensures Lex([SIGN_BYTES[k]]).Lexemes? && TokensOf(Lex([SIGN_BYTES[k]]).all) == [SIGN_TOKENS[k], TkEof]
    ensures Spelling(SIGN_TOKENS[k]) == [SIGN_BYTES[k]]
  {
    hide Lex;
    var c := SIGN_BYTES[k];
    SignScanned(c);
    SignLexed(c);
    assert OneByteToken(c) == Some(SIGN_TOKENS[k]);
  }

  lemma SignScanned(c: byte)
    requires Sign(c)
    ensures Scan([c], START) == Found(OneByteToken(c).value, Cursor(1, 1, 2)) && OneByteToken(c).Some?
  {
    OneByteScanned(c);
  }

  lemma SignLexed(c: byte)
    requires Sign(c) && Scan([c], START).Found? && Scan([c], START).next == Cursor(1, 1, 2)
    ensures Lex([c]).Lexemes? && TokensOf(Lex([c]).all) == [Scan([c], START).token, TkEof]
  {
    hide Scan;
    var next, token := Scan([c], START).next, Scan([c], START).token;
    var seen := [LexemeAt(token, START)];
    assert LexFrom([c], next, seen) == Lexemes(seen + [LexemeAt(TkEof, next)]);
    assert [] + [LexemeAt(token, START)] == seen;
  }

  // ---------- comments ----------

  lemma {:induction false} LineEndsAt(source: seq<byte>, at: nat, k: nat)
    requires at <= k <= |source| && (forall j :: at <= j < k ==> source[j] != 10) && (k < |source| ==> source[k] == 10)
    ensures LineEnd(source, at) == k
    decreases k - at
  {
    if at < k { LineEndsAt(source, at + 1, k); }
  }

  /** A line comment ends before the newline, or with the text. */
  lemma LineComments(source: seq<byte>, c: Cursor, k: nat)
    requires c.at + 2 <= k <= |source| && source[c.at] == 47 == source[c.at + 1]
    requires (forall j :: c.at + 2 <= j < k ==> source[j] != 10) && (k < |source| ==> source[k] == 10)
    ensures Scan(source, c) == Skip(Cursor(k, c.line, c.column + (k - c.at)))
  {
    LineEndsAt(source, c.at + 2, k);
  }

  /** Newlines from `at` up to k. */
  function Newlines(source: seq<byte>, at: nat, k: nat): nat
    requires k <= |source|
    decreases k - at
  {
    if at >= k then 0 else (if source[at] == 10 then 1 else 0) + Newlines(source, at + 1, k)
  }

  lemma {:induction false} CommentEndsAt(source: seq<byte>, c: Cursor, k: nat)
    requires c.at <= k && k + 1 < |source| && source[k] == 42 && source[k + 1] == 47
    requires forall j :: c.at <= j < k ==> !(source[j] == 42 && source[j + 1] == 47)
    ensures CommentEnd(source, c).at == k && CommentEnd(source, c).line == c.line + Newlines(source, c.at, k)
    decreases k - c.at
  {
    if c.at < k { CommentEndsAt(source, Step(source, c), k); }
  }

  /** A block comment ends behind the first star and slash after its start, and its newlines are counted. */
  lemma BlockComments(source: seq<byte>, c: Cursor, k: nat)
    requires c.at + 2 <= k && k + 1 < |source| && source[c.at] == 47 && source[c.at + 1] == 42
    requires source[k] == 42 && source[k + 1] == 47
    requires forall j :: c.at + 2 <= j < k ==> !(source[j] == 42 && source[j + 1] == 47)
    ensures var r := Scan(source, c);
            r.Skip? && r.next.at == k + 2 && r.next.line == c.line + Newlines(source, c.at + 2, k)
  {
    hide CommentEnd;
    CommentEndsAt(source, Along(c, c.at + 2), k);
  }

  // ---------- escapes ----------

  /** A byte as it is written in a literal. */
  function Written(c: byte): seq<byte> {
    if c == 10 then [0x5C, 0x6E] else if c == 13 then [0x5C, 0x72] else if c == 9 then [0x5C, 0x74]
    else if c == 34 then [0x5C, 0x22] else if c == 92 then [0x5C, 0x5C] else [c]
  }

  function Quoted(text: seq<byte>): seq<byte> {
    if text == [] then [] else Written(text[0]) + Quoted(text[1..])
  }

  /** Reading a literal undoes writing it, and what follows is read as it would be by itself. */
  lemma {:induction false} EscapesUndone(text: seq<byte>, rest: seq<byte>)
    ensures Unescape(Quoted(text) + rest) == if Unescape(rest).None? then None else Some(text + Unescape(rest).value)
    ensures Unescape(Quoted(text)) == Some(text)
    decreases |text|
  {
    hide Unescape, Written;
    if text == [] {
      assert Quoted(text) + rest == rest;
      NothingQuoted();
      assert Unescape(rest).Some? ==> [] + Unescape(rest).value == Unescape(rest).value;
    } else {
      var w, more := Written(text[0]), Quoted(text[1..]);
      EscapesUndone(text[1..], rest);
      OneUndone(text[0], more + rest);
      OneUndone(text[0], more);
      assert Quoted(text) + rest == w + (more + rest) && [text[0]] + text[1..] == text;
      assert Unescape(rest).Some? ==> [text[0]] + (text[1..] + Unescape(rest).value) == text + Unescape(rest).value;
    }
  }

  lemma NothingQuoted()
    ensures Unescape([]) == Some([])
  {
  }

  lemma {:induction false} OneUndone(c: byte, rest: seq<byte>)
    ensures Unescape(Written(c) + rest) == if Unescape(rest).None? then None else Some([c] + Unescape(rest).value)
  {
    if |Written(c)| == 2 { PairUndone(Written(c)[1], rest); } else { PlainUndone(c, rest); }
  }

  lemma {:induction false} PairUndone(e: byte, rest: seq<byte>)
    requires Escape(e).Some?
    ensures Unescape([0x5C, e] + rest) ==
              if Unescape(rest).None? then None else Some([Escape(e).value] + Unescape(rest).value)
  {
    assert ([0x5C, e] + rest)[2..] == rest;
  }

  lemma {:induction false} PlainUndone(c: byte, rest: seq<byte>)
    requires c != 92
    ensures Unescape([c] + rest) == if Unescape(rest).None? then None else Some([c] + Unescape(rest).value)
  {
    assert ([c] + rest)[1..] == rest;
  }

  /** A backslash before anything but n, r, t, a quote or a backslash, or before nothing, spoils the literal. */
  lemma BadEscapes(text: seq<byte>, c: byte, rest: seq<byte>)
    requires c !in {0x6E, 0x72, 0x74, 0x22, 0x5C}
    ensures Unescape(Quoted(text) + [0x5C]) == None && Unescape(Quoted(text) + ([0x5C, c] + rest)) == None
  {
    EscapesUndone(text, [0x5C]);
    EscapesUndone(text, [0x5C, c] + rest);
    assert Unescape([0x5C]) == None && Unescape([0x5C, c] + rest) == None;
  }
}
