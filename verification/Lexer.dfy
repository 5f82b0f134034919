/** From source text to tokens: blanks and comments dropped, names, numbers, literals and operators cut
    out left to right, each with the line and column it was found at. */
module Lexer {
  import opened Common
  import opened Hbc
  import opened Source
  import P = Parser

  const MAX_TOKENS: nat := 80
  const MAX_LITERAL: nat := 60
  const MAX_I32: nat := 0x7FFF_FFFF

  const NEWLINE: byte := 10
  const BLANK: byte := 32
  const QUOTE: byte := 34
  const STAR: byte := 42
  const SLASH: byte := 47
  const EQUALS: byte := 61
  const BACKSLASH: byte := 92

  /** A token, where its text starts (inside the quotes of a literal), and the place reported for it. */
  datatype Lexeme = Lexeme(token: Token, position: nat, line: nat, column: nat)

  datatype Refusal = Refusal(error: int, line: nat, column: nat)

  datatype Lexed = Lexemes(all: seq<Lexeme>) | Refused(why: Refusal)

  datatype Cursor = Cursor(at: nat, line: nat, column: nat)

  /** What stands at the cursor, and where the next thing stands. */
  datatype Piece = Skip(next: Cursor) | Found(token: Token, next: Cursor) | Bad(error: int)

  // ---------- character classes ----------

  predicate IsDigit(c: byte) { 48 <= c <= 57 }

  function DigitOf(c: byte): (d: nat)
    requires IsDigit(c)
    ensures d < 10
  {
    c - 48
  }

  predicate IsLetter(c: byte) { 97 <= c <= 122 || 65 <= c <= 90 || c == 95 }

  predicate IsSpace(c: byte) { c == BLANK || c == 9 || c == 13 }

  /** Letter, digit or underscore. */
  predicate IsWord(c: byte) { IsLetter(c) || IsDigit(c) }

  const INT: Name := [105, 110, 116]
  const RETURN: Name := [114, 101, 116, 117, 114, 110]
  const IF: Name := [105, 102]
  const ELSE: Name := [101, 108, 115, 101]
  const WHILE: Name := [119, 104, 105, 108, 101]
  const WRITE_NAME: Name := [119, 114, 105, 116, 101]
  const PRINT_NAME: Name := [112, 114, 105, 110, 116]
  const SLEEP_NAME: Name := [115, 108, 101, 101, 112]
  const GPIO_TOGGLE: Name := [103, 112, 105, 111, 95, 116, 111, 103, 103, 108, 101]

  function WordToken(n: Name): Token {
    if n == INT then TkInt else if n == RETURN then TkReturn else if n == IF then TkIf else if n == ELSE then TkElse
    else if n == WHILE then TkWhile else if n == WRITE_NAME then TkWrite else if n == PRINT_NAME then TkPrint
    else if n == SLEEP_NAME then TkSleep else if n == GPIO_TOGGLE then TkGpio else TkIdent(n)
  }

  /** `== != <= >=` */
  function TwoByteToken(a: byte, b: byte): Option<Token> {
    if b != EQUALS then None
    else if a == 61 then Some(TkEq) else if a == 33 then Some(TkNe) else if a == 60 then Some(TkLe)
    else if a == 62 then Some(TkGe) else None
  }

  function OneByteToken(c: byte): Option<Token> {
    if c == 40 then Some(TkLParen) else if c == 41 then Some(TkRParen) else if c == 123 then Some(TkLBrace)
    else if c == 125 then Some(TkRBrace) else if c == 59 then Some(TkSemi) else if c == 44 then Some(TkComma)
    else if c == EQUALS then Some(TkAssign) else if c == 43 then Some(TkPlus) else if c == 45 then Some(TkMinus)
    else if c == STAR then Some(TkStar) else if c == SLASH then Some(TkSlash) else if c == 60 then Some(TkLt)
    else if c == 62 then Some(TkGt) else None
  }

  // ---------- where a piece ends ----------

  function WordEnd(source: seq<byte>, at: nat): (end: nat)
    requires at <= |source|
    ensures at <= end <= |source|
    decreases |source| - at
  {
    if at < |source| && IsWord(source[at]) then WordEnd(source, at + 1) else at
  }

  function LineEnd(source: seq<byte>, at: nat): (end: nat)
    requires at <= |source|
    ensures at <= end <= |source|
    decreases |source| - at
  {
    if at < |source| && source[at] != NEWLINE then LineEnd(source, at + 1) else at
  }

  function Step(source: seq<byte>, c: Cursor): Cursor
    requires c.at < |source|
  {
    if source[c.at] == NEWLINE then Cursor(c.at + 1, c.line + 1, 1) else Cursor(c.at + 1, c.line, c.column + 1)
  }

  /** At the closing star and slash, or where fewer than two characters are left. */
  function CommentEnd(source: seq<byte>, c: Cursor): (end: Cursor)
    ensures c.at <= end.at && (c.at <= |source| ==> end.at <= |source|)
    decreases |source| - c.at
  {
    if c.at + 1 < |source| && !(source[c.at] == STAR && source[c.at + 1] == SLASH)
         then CommentEnd(source, Step(source, c)) else c
  }

  /** The end and the value of a run of digits. Digits are refused once the value so far is too large to
      take another; the accumulator is a 32-bit one. */
  function ReadNumber(source: seq<byte>, at: nat, value: i32): (r: Option<(nat, i32)>)
    requires at <= |source|
    ensures r.Some? ==> at <= r.value.0 <= |source|
    decreases |source| - at
  {
    if at < |source| && IsDigit(source[at]) then
      if value > 214748364 then None else ReadNumber(source, at + 1, ToI32(value * 10 + DigitOf(source[at])))
    else Some((at, value))
  }

  datatype Literal = Closed(end: nat) | Runaway(error: int)

  /** The closing quote. A backslash takes the next character with it, whatever it is. */
  function ReadLiteral(source: seq<byte>, at: nat, decoded: nat): (r: Literal)
    requires at <= |source|
    ensures r.Closed? ==> at <= r.end < |source| && source[r.end] == QUOTE
    decreases |source| - at
  {
    if at >= |source| then Runaway(-65)
    else if source[at] == QUOTE then Closed(at)
    else if source[at] == NEWLINE then Runaway(-65)
    else if decoded >= MAX_LITERAL then Runaway(-66)
    else if source[at] == BACKSLASH && at + 1 < |source| then ReadLiteral(source, at + 2, decoded + 1)
    else ReadLiteral(source, at + 1, decoded + 1)
  }

  function Along(c: Cursor, end: nat): Cursor
    requires c.at <= end
  {
    Cursor(end, c.line, c.column + (end - c.at))
  }

  // ---------- one piece, all pieces ----------

  function ScanWord(source: seq<byte>, c: Cursor): Piece
    requires c.at < |source|
  {
    var end := WordEnd(source, c.at);
    if end - c.at >= P.NAME_SIZE then Bad(-63) else Found(WordToken(source[c.at..end]), Along(c, end))
  }

  function ScanNumber(source: seq<byte>, c: Cursor): Piece
    requires c.at < |source|
  {
    match ReadNumber(source, c.at, 0)
    case None => Bad(-64)
    case Some(r) => Found(TkNumber(r.1), Along(c, r.0))
  }

  function ScanLiteral(source: seq<byte>, c: Cursor): Piece
    requires c.at < |source|
  {
    match ReadLiteral(source, c.at + 1, 0)
    case Runaway(error) => Bad(error)
    case Closed(end) => Found(TkString(source[c.at + 1..end]), Along(c, end + 1))
  }

  function ScanOperator(source: seq<byte>, c: Cursor): Piece
    requires c.at < |source|
  {
    var two := if c.at + 1 < |source| then TwoByteToken(source[c.at], source[c.at + 1]) else None;
    if two.Some? then Found(two.value, Along(c, c.at + 2))
    else
      var one := OneByteToken(source[c.at]);
      if one.Some? then Found(one.value, Along(c, c.at + 1)) else Bad(-67)
  }

  function ScanComment(source: seq<byte>, c: Cursor): Piece
    requires c.at + 1 < |source| && source[c.at] == SLASH
  {
    if source[c.at + 1] == SLASH then Skip(Along(c, LineEnd(source, c.at + 2)))
    else
      var end := CommentEnd(source, Along(c, c.at + 2));
      if end.at + 1 >= |source| then Bad(-62) else Skip(Along(end, end.at + 2))
  }

  function Scan(source: seq<byte>, c: Cursor): (r: Piece)
    requires c.at < |source|
    ensures !r.Bad? ==> c.at < r.next.at <= |source|
  {
    var ch := source[c.at];
    if IsSpace(ch) || ch == NEWLINE then Skip(Step(source, c))
    else if ch == SLASH && c.at + 1 < |source| && (source[c.at + 1] == SLASH || source[c.at + 1] == STAR) then
      ScanComment(source, c)
    else if IsLetter(ch) then ScanWord(source, c)
    else if IsDigit(ch) then ScanNumber(source, c)
    else if ch == QUOTE then ScanLiteral(source, c)
    else ScanOperator(source, c)
  }

  function LexemeAt(t: Token, c: Cursor): Lexeme {
    Lexeme(t, if t.TkString? then c.at + 1 else c.at, c.line, c.column)
  }

  /** The end marker takes one of the token slots. */
  function LexFrom(source: seq<byte>, c: Cursor, seen: seq<Lexeme>): (r: Lexed)
    requires c.at <= |source|
    ensures r.Lexemes? ==> r.all != []
    decreases |source| - c.at
  {
    if c.at == |source| then
      if |seen| >= MAX_TOKENS then Refused(Refusal(-61, c.line, c.column))
      else Lexemes(seen + [LexemeAt(TkEof, c)])
    else
      match Scan(source, c)
      case Bad(error) => Refused(Refusal(error, c.line, c.column))
      case Skip(next) => LexFrom(source, next, seen)
      case Found(token, next) =>
        if |seen| >= MAX_TOKENS then Refused(Refusal(-61, c.line, c.column))
        else LexFrom(source, next, seen + [LexemeAt(token, c)])
  }

  const START: Cursor := Cursor(0, 1, 1)

  function Lex(source: seq<byte>): (r: Lexed)
    ensures r.Lexemes? ==> r.all != []
  {
    LexFrom(source, START, [])
  }

  function TokensOf(all: seq<Lexeme>): (r: seq<Token>)
    ensures |r| == |all| && forall k :: 0 <= k < |all| ==> r[k] == all[k].token
  {
    seq(|all|, k requires 0 <= k < |all| => all[k].token)
  }

  // ---------- what a token can be ----------

  predicate IsName(n: Name) {
    0 < |n| < P.NAME_SIZE && IsLetter(n[0]) && forall k :: 0 <= k < |n| ==> IsWord(n[k])
  }

  /** The text between quotes of a literal that closes where it ends. */
  predicate IsLiteral(raw: seq<byte>) {
    ReadLiteral(raw + [QUOTE], 0, 0) == Closed(|raw|)
  }

  predicate Legal(t: Token) {
    match t
    case TkEof => false
    case TkIdent(n) => IsName(n) && WordToken(n) == t
    case TkString(raw) => IsLiteral(raw)
    case _ => true
  }

  /** A number that wrapped to a negative one has no spelling. */
  predicate Spellable(t: Token) {
    Legal(t) && (t.TkNumber? ==> t.value >= 0)
  }

  predicate AllLegal(all: seq<Lexeme>) {
    forall k :: 0 <= k < |all| ==> Legal(all[k].token)
  }

  lemma {:induction false} WordIsWord(source: seq<byte>, at: nat, k: nat)
    requires at <= |source| && at <= k < WordEnd(source, at)
    ensures IsWord(source[k])
    decreases |source| - at
  {
    if at < k { WordIsWord(source, at + 1, k); }
  }

  /** Two texts that agree up to the closing quote hold the same literal. */
  lemma {:induction false} SameLiteral(a: seq<byte>, i: nat, b: seq<byte>, j: nat, n: nat, decoded: nat)
    requires i + n < |a| && j + n < |b| && a[i..i + n + 1] == b[j..j + n + 1]
             && ReadLiteral(a, i, decoded) == Closed(i + n)
    ensures ReadLiteral(b, j, decoded) == Closed(j + n)
    decreases n
  {
    var slice := a[i..i + n + 1];
    assert a[i] == slice[0] == b[j];
    if a[i] != QUOTE {
      var d := if a[i] == BACKSLASH then 2 else 1;
      assert n >= d;
      assert a[i + d..i + n + 1] == slice[d..] == b[j + d..j + n + 1];
      SameLiteral(a, i + d, b, j + d, n - d, decoded + 1);
    }
  }

  lemma ScannedLegal(source: seq<byte>, c: Cursor)
    requires c.at < |source| && Scan(source, c).Found?
    ensures Legal(Scan(source, c).token)
  {
    hide ReadLiteral, ReadNumber, CommentEnd, LineEnd;
    var ch := source[c.at];
    if IsLetter(ch) {
      var end := WordEnd(source, c.at);
      forall k | c.at <= k < end ensures IsWord(source[k]) { WordIsWord(source, c.at, k); }
      assert end > c.at;
    } else if ch == QUOTE {
      var end := ReadLiteral(source, c.at + 1, 0).end;
      var raw := source[c.at + 1..end];
      assert source[c.at + 1..end + 1] == (raw + [QUOTE])[0..|raw| + 1];
      SameLiteral(source, c.at + 1, raw + [QUOTE], 0, |raw|, 0);
    }
  }

  /** Lexing only adds legal tokens and ends with the one end marker, within the token table. */
  lemma {:induction false} LexedLegal(source: seq<byte>, c: Cursor, seen: seq<Lexeme>)
    requires c.at <= |source| && AllLegal(seen) && LexFrom(source, c, seen).Lexemes?
    ensures var all := LexFrom(source, c, seen).all;
            0 < |all| <= MAX_TOKENS && all[|all| - 1].token == TkEof && AllLegal(all[..|all| - 1])
    decreases |source| - c.at
  {
    hide Scan, Legal;
    if c.at == |source| {
      assert (seen + [LexemeAt(TkEof, c)])[..|seen|] == seen;
    } else {
      match Scan(source, c)
      case Skip(next) => LexedLegal(source, next, seen);
      case Found(token, next) =>
        ScannedLegal(source, c);
        LexedLegal(source, next, seen + [LexemeAt(token, c)]);
    }
  }

  /** What the parser relies on. */
  lemma LexedWell(source: seq<byte>)
    requires Lex(source).Lexemes?
    ensures var all := Lex(source).all;
            && P.WellLexed(TokensOf(all)) && |all| <= MAX_TOKENS
            && forall k :: 0 <= k < |all| - 1 ==> Legal(all[k].token)
  {
    hide Legal, LexFrom;
    LexedLegal(source, START, []);
    var all := Lex(source).all;
    forall k | 0 <= k < |all| && all[k].token.TkIdent? ensures |all[k].token.name| < P.NAME_SIZE {
      assert Legal(all[..|all| - 1][k].token);
      LegalName(all[k].token);
    }
    forall k | 0 <= k < |all| - 1 ensures Legal(all[k].token) {
      assert all[..|all| - 1][k] == all[k];
    }
  }

  lemma LegalName(t: Token)
    requires Legal(t) && t.TkIdent?
    ensures |t.name| < P.NAME_SIZE
  {
  }

  // ---------- numbers ----------

  function Value(digits: seq<byte>): nat
    requires forall k :: 0 <= k < |digits| ==> IsDigit(digits[k])
  {
    if digits == [] then 0 else Value(digits[..|digits| - 1]) * 10 + DigitOf(digits[|digits| - 1])
  }

  /** A maximal run of digits. */
  predicate DigitRun(source: seq<byte>, at: nat, end: nat) {
    && at <= end <= |source| && (forall k :: at <= k < end ==> IsDigit(source[k]))
    && (end < |source| ==> !IsDigit(source[end]))
  }

  lemma ValueMore(source: seq<byte>, start: nat, at: nat)
    requires start <= at < |source| && forall k :: start <= k <= at ==> IsDigit(source[k])
    ensures Value(source[start..at + 1]) == Value(source[start..at]) * 10 + DigitOf(source[at])
  {
    var more := source[start..at + 1];
    assert more[..|more| - 1] == source[start..at] && more[|more| - 1] == source[at];
  }

  /** One more digit, in range. */
  lemma DigitTaken(value: nat, digit: nat)
    requires digit < 10 && value * 10 + digit <= MAX_I32
    ensures value <= 214748364 && ToI32(value * 10 + digit) == value * 10 + digit
  {
  }

  lemma ReadsDigit(source: seq<byte>, at: nat, value: nat)
    requires at < |source| && IsDigit(source[at]) && value * 10 + DigitOf(source[at]) <= MAX_I32
    ensures value <= MAX_I32
            && ReadNumber(source, at, value) == ReadNumber(source, at + 1, value * 10 + DigitOf(source[at]))
  {
    hide ToI32;
    DigitTaken(value, DigitOf(source[at]));
  }

  /** In range, the accumulator is exact and no digit is refused. */
  lemma {:induction false} ReadsExactly(source: seq<byte>, start: nat, at: nat, end: nat)
    requires start <= at <= end && DigitRun(source, start, end) && Value(source[start..end]) <= MAX_I32
    ensures Value(source[start..at]) <= MAX_I32
    ensures ReadNumber(source, at, Value(source[start..at])) == Some((end, Value(source[start..end])))
    decreases end - at
  {
    hide Value, ToI32;
    if at < end {
      ReadsExactly(source, start, at + 1, end);
      hide ReadNumber;
      ValueMore(source, start, at);
      ReadsDigit(source, at, Value(source[start..at]));
    } else {
      assert source[start..at] == source[start..end];
    }
  }

  /** Out of range, a run of digits is accepted only if some first part of it is one of the two numbers that
      the guard lets through. */
  lemma {:induction false} AcceptsOnlyWrapped(source: seq<byte>, start: nat, at: nat, end: nat)
    requires start <= at <= end && DigitRun(source, start, end)
             && Value(source[start..at]) <= MAX_I32 < Value(source[start..end])
    requires ReadNumber(source, at, Value(source[start..at])).Some?
    ensures exists k :: at < k <= end && MAX_I32 < Value(source[start..k]) <= MAX_I32 + 2
    decreases end - at
  {
    hide Value;
    assert at < end;
    ValueMore(source, start, at);
    if Value(source[start..at + 1]) <= MAX_I32 {
      AcceptsOnlyWrapped(source, start, at + 1, end);
    }
  }

  /** A number is read as its decimal value exactly when that fits 31 bits. Above, it is refused unless it
      starts with 2147483648 or 2147483649, which the guard before each digit lets through. */
  lemma NumbersReadExactly(source: seq<byte>, start: nat, end: nat)
    requires DigitRun(source, start, end)
    ensures var v := Value(source[start..end]);
            && (v <= MAX_I32 <==> ReadNumber(source, start, 0) == Some((end, v)))
            && (ReadNumber(source, start, 0).None? ==> v > MAX_I32)
            && (v > MAX_I32 && ReadNumber(source, start, 0).Some? ==>
                exists k :: start < k <= end && MAX_I32 < Value(source[start..k]) <= MAX_I32 + 2)
  {
    assert source[start..start] == [];
    if Value(source[start..end]) <= MAX_I32 {
      ReadsExactly(source, start, start, end);
    } else if ReadNumber(source, start, 0).Some? {
      AcceptsOnlyWrapped(source, start, start, end);
    }
  }

  /** The digits up to k have a value, read modulo 2^32, that cannot take the digit at k. */
  predicate NumberStops(source: seq<byte>, at: nat, k: nat) {
    && at <= k < |source| && (forall j :: at <= j <= k ==> IsDigit(source[j]))
    && ToI32(Value(source[at..k])) > 214748364
  }

  /** The accumulator holds the value of the digits so far modulo 2^32. */
  lemma WrapsAlong(value: nat, digit: nat)
    ensures ToI32(ToI32(value) * 10 + digit) == ToI32(value * 10 + digit)
  {
    var carry := value / 0x1_0000_0000 + if value % 0x1_0000_0000 < 0x8000_0000 then 0 else 1;
    assert ToI32(value) == value - 0x1_0000_0000 * carry;
    SameWord(value * 10 + digit, 10 * carry);
  }

  lemma SameWord(x: int, k: int)
    ensures ToI32(x - 0x1_0000_0000 * k) == ToI32(x)
  {
  }

  lemma {:induction false} ReadsModulo(source: seq<byte>, start: nat, at: nat, end: nat)
    requires start <= at <= end && DigitRun(source, start, end)
    ensures var r := ReadNumber(source, at, ToI32(Value(source[start..at])));
            && (r.None? <==> exists k :: at <= k && NumberStops(source, start, k))
            && (r.Some? ==> r.value == (end, ToI32(Value(source[start..end]))))
    decreases end - at
  {
    hide Value, ToI32;
    if at < end {
      var value := Value(source[start..at]);
      ValueMore(source, start, at);
      WrapsAlong(value, DigitOf(source[at]));
      if ToI32(value) > 214748364 {
        assert NumberStops(source, start, at);
      } else {
        ReadsModulo(source, start, at + 1, end);
      }
    }
  }

  /** Exactly which numbers are refused, and as what the others are read. */
  lemma NumbersReadModulo(source: seq<byte>, start: nat, end: nat)
    requires DigitRun(source, start, end)
    ensures ReadNumber(source, start, 0).None? <==> exists k :: NumberStops(source, start, k)
    ensures ReadNumber(source, start, 0).Some? ==>
              ReadNumber(source, start, 0).value == (end, ToI32(Value(source[start..end])))
  {
    hide ReadNumber, NumberStops;
    assert source[start..start] == [] && ToI32(Value([])) == 0;
    ReadsModulo(source, start, start, end);
    forall k | NumberStops(source, start, k) ensures start <= k { StopsBehind(source, start, k); }
  }

  lemma StopsBehind(source: seq<byte>, start: nat, k: nat)
    requires NumberStops(source, start, k)
    ensures start <= k
  {
  }

  lemma ReadMore(source: seq<byte>, at: nat, value: i32, next: i32)
    requires at < |source| && IsDigit(source[at]) && value <= 214748364
             && next == ToI32(value * 10 + DigitOf(source[at]))
    ensures ReadNumber(source, at, value) == ReadNumber(source, at + 1, next)
  {
  }

  const TWO_TO_31: seq<byte> := [50, 49, 52, 55, 52, 56, 51, 54, 52, 56]

  /** 2147483648 is one of them: it is taken, and turns negative. */
  lemma WrappedNumber()
    ensures DigitRun(TWO_TO_31, 0, 10) && Value(TWO_TO_31) == MAX_I32 + 1
    ensures ReadNumber(TWO_TO_31, 0, 0) == Some((10, -0x8000_0000))
  {
    hide Value, ReadNumber;
    var digits := TWO_TO_31;
    var values: seq<i32> := [0, 2, 21, 214, 2147, 21474, 214748, 2147483, 21474836, 214748364];
    var k := 0;
    assert digits[0..0] == [];
    NoDigits();
    while k < 9
      invariant k <= 9 && Value(digits[0..k]) == values[k]
                && ReadNumber(digits, 0, 0) == ReadNumber(digits, k, values[k])
    {
      ValueMore(digits, 0, k);
      ReadMore(digits, k, values[k], values[k + 1]);
      k := k + 1;
    }
    ValueMore(digits, 0, 9);
    assert digits[0..10] == digits;
    ReadMore(digits, 9, 214748364, -0x8000_0000);
    ReadEnds(digits, 10, -0x8000_0000);
  }

  lemma NoDigits()
    ensures Value([]) == 0
  {
  }

  lemma ReadEnds(source: seq<byte>, at: nat, value: i32)
    requires at == |source|
    ensures ReadNumber(source, at, value) == Some((at, value))
  {
  }

  // ---------- printing tokens ----------

  function Decimal(v: nat): (digits: seq<byte>)
    ensures digits != [] && (forall k :: 0 <= k < |digits| ==> IsDigit(digits[k])) && Value(digits) == v
  {
    if v < 10 then
      assert Value([]) == 0;
      [48 + v]
    else
      var front := Decimal(v / 10);
      assert (front + [48 + v % 10])[..|front|] == front;
      front + [48 + v % 10]
  }

  function Spelling(t: Token): (text: seq<byte>)
    requires Spellable(t)
    ensures text != []
  {
    match t
    case TkInt => INT case TkReturn => RETURN case TkIf => IF case TkElse => ELSE case TkWhile => WHILE
    case TkWrite => WRITE_NAME case TkPrint => PRINT_NAME case TkSleep => SLEEP_NAME case TkGpio => GPIO_TOGGLE
    case TkIdent(n) => n
    case TkNumber(v) => Decimal(v)
    case TkString(raw) => [QUOTE] + raw + [QUOTE]
    case TkEq => [61, EQUALS] case TkNe => [33, EQUALS] case TkLe => [60, EQUALS] case TkGe => [62, EQUALS]
    case TkLParen => [40] case TkRParen => [41] case TkLBrace => [123] case TkRBrace => [125] case TkSemi => [59]
    case TkComma => [44] case TkAssign => [EQUALS] case TkPlus => [43] case TkMinus => [45] case TkStar => [STAR]
    case TkSlash => [SLASH] case TkLt => [60] case TkGt => [62]
  }

  predicate AllSpellable(ts: seq<Token>) {
    forall k :: 0 <= k < |ts| ==> Spellable(ts[k])
  }

  /** Each token followed by a blank. */
  function Print(ts: seq<Token>): seq<byte>
    requires AllSpellable(ts)
  {
    if ts == [] then [] else Spelling(ts[0]) + [BLANK] + Print(ts[1..])
  }

  /** `text` and then a blank stand at the cursor. */
  predicate Before(source: seq<byte>, at: nat, text: seq<byte>) {
    at + |text| < |source| && source[at..at + |text|] == text && source[at + |text|] == BLANK
  }

  lemma {:induction false} WordEnds(source: seq<byte>, at: nat, end: nat)
    requires at <= end < |source| && (forall k :: at <= k < end ==> IsWord(source[k])) && !IsWord(source[end])
    ensures WordEnd(source, at) == end
    decreases end - at
  {
    if at < end { WordEnds(source, at + 1, end); }
  }

  /** A keyword or a name. */
  lemma ScansWord(source: seq<byte>, c: Cursor, n: Name)
    requires IsName(n) && Before(source, c.at, n)
    ensures Scan(source, c) == Found(WordToken(n), Along(c, c.at + |n|))
  {
    hide WordToken, ReadNumber, ReadLiteral, LineEnd, CommentEnd;
    var end := c.at + |n|;
    forall k | c.at <= k < end ensures source[k] == n[k - c.at] { assert source[c.at..end][k - c.at] == source[k]; }
    WordEnds(source, c.at, end);
  }

  lemma ScansNumber(source: seq<byte>, c: Cursor, v: i32)
    requires v >= 0 && Before(source, c.at, Decimal(v))
    ensures Scan(source, c) == Found(TkNumber(v), Along(c, c.at + |Decimal(v)|))
  {
    hide WordToken, ReadNumber, ReadLiteral, LineEnd, CommentEnd, Decimal, Value;
    var end := c.at + |Decimal(v)|;
    forall k | c.at <= k < end
      ensures source[k] == Decimal(v)[k - c.at] { assert source[c.at..end][k - c.at] == source[k]; }
    NumbersReadExactly(source, c.at, end);
  }

  lemma ScansLiteral(source: seq<byte>, c: Cursor, raw: seq<byte>)
    requires IsLiteral(raw) && Before(source, c.at, [QUOTE] + raw + [QUOTE])
    ensures Scan(source, c) == Found(TkString(raw), Along(c, c.at + |raw| + 2))
  {
    hide WordToken, ReadNumber, ReadLiteral, LineEnd, CommentEnd;
    var text, at, end := [QUOTE] + raw + [QUOTE], c.at + 1, c.at + 1 + |raw|;
    assert source[c.at..c.at + |text|][0] == QUOTE;
    assert source[at..end + 1] == text[1..] == raw + [QUOTE];
    assert (raw + [QUOTE])[0..|raw| + 1] == raw + [QUOTE];
    SameLiteral(raw + [QUOTE], 0, source, at, |raw|, 0);
    assert source[at..end] == source[at..end + 1][..|raw|] == raw;
  }

  /** Not the start of a word, a number, a literal or a blank. */
  predicate IsMark(c: byte) {
    !IsWord(c) && !IsSpace(c) && c != NEWLINE && c != QUOTE
  }

  predicate IsOperator(t: Token) {
    !t.TkIdent? && !t.TkNumber? && !t.TkString? && Spellable(t) && IsMark(Spelling(t)[0])
  }

  lemma OperatorBytes(t: Token)
    requires IsOperator(t)
    ensures var text := Spelling(t);
            || (|text| == 1 && OneByteToken(text[0]) == Some(t))
            || (|text| == 2 && TwoByteToken(text[0], text[1]) == Some(t) && text[1] == EQUALS)
  {
  }

  lemma ScansOperator(source: seq<byte>, c: Cursor, t: Token)
    requires IsOperator(t) && Before(source, c.at, Spelling(t))
    ensures Scan(source, c) == Found(t, Along(c, c.at + |Spelling(t)|))
  {
    hide WordToken, ReadNumber, ReadLiteral, LineEnd, CommentEnd, WordEnd, Spelling, Spellable, OneByteToken;
    var text := source[c.at..c.at + |Spelling(t)|];
    OperatorBytes(t);
    assert text[0] == source[c.at] && (|text| == 2 ==> text[1] == source[c.at + 1]);
  }

  lemma WordsAndOperators(t: Token)
    requires Spellable(t) && !t.TkIdent? && !t.TkNumber? && !t.TkString?
    ensures (IsName(Spelling(t)) && WordToken(Spelling(t)) == t) || IsOperator(t)
  {
  }

  /** A token's spelling is scanned as that token. */
  lemma ScansSpelling(source: seq<byte>, c: Cursor, t: Token)
    requires Spellable(t) && Before(source, c.at, Spelling(t))
    ensures Scan(source, c) == Found(t, Along(c, c.at + |Spelling(t)|))
  {
    hide Scan, IsName, WordToken, Decimal, IsLiteral, IsOperator, Before;
    if t.TkIdent? {
      ScansWord(source, c, t.name);
    } else if t.TkNumber? {
      ScansNumber(source, c, t.value);
    } else if t.TkString? {
      ScansLiteral(source, c, t.raw);
    } else {
      WordsAndOperators(t);
      hide Spelling, Spellable;
      if IsOperator(t) { ScansOperator(source, c, t); } else { ScansWord(source, c, Spelling(t)); }
    }
  }

  lemma {:induction false} LexesPrinted(source: seq<byte>, c: Cursor, seen: seq<Lexeme>, ts: seq<Token>)
    requires c.at <= |source| && AllSpellable(ts) && source[c.at..] == Print(ts) && |seen| + |ts| < MAX_TOKENS
    ensures LexFrom(source, c, seen).Lexemes? && TokensOf(LexFrom(source, c, seen).all) == TokensOf(seen) + ts + [TkEof]
    decreases |ts|
  {
    hide Scan, Spelling, Spellable;
    if ts != [] {
      var text, rest := Spelling(ts[0]), Print(ts[1..]);
      var end := c.at + |text|;
      var tail := source[c.at..];
      assert source[c.at..end] == tail[..|text|] == text && source[end] == tail[|text|];
      assert source[end + 1..] == tail[|text| + 1..] == rest;
      ScansSpelling(source, c, ts[0]);
      var next, more := Along(c, end), seen + [LexemeAt(ts[0], c)];
      ScansBlank(source, next);
      LexesPrinted(source, Along(next, end + 1), more, ts[1..]);
      assert TokensOf(more) == TokensOf(seen) + [ts[0]];
      assert TokensOf(seen) + [ts[0]] + ts[1..] == TokensOf(seen) + ts;
    }
  }

  lemma ScansBlank(source: seq<byte>, c: Cursor)
    requires c.at < |source| && source[c.at] == BLANK
    ensures Scan(source, c) == Skip(Along(c, c.at + 1))
  {
  }

  /** Main result: printing tokens and lexing the text gives the tokens back. */
  lemma PrintedTokensAreLexed(ts: seq<Token>)
    requires AllSpellable(ts) && |ts| < MAX_TOKENS
    ensures Lex(Print(ts)).Lexemes? && TokensOf(Lex(Print(ts)).all) == ts + [TkEof]
  {
    hide LexFrom, Print, Spellable;
    assert Print(ts)[0..] == Print(ts);
    LexesPrinted(Print(ts), START, [], ts);
    assert [] + ts == ts;
  }

  predicate NoneWrapped(all: seq<Lexeme>) {
    forall k :: 0 <= k < |all| ==> var t := all[k].token; t.TkNumber? ==> t.value >= 0
  }

  /** All tokens but the end marker. */
  function Front(all: seq<Lexeme>): seq<Token>
    requires all != []
  {
    TokensOf(all)[..|all| - 1]
  }

  /** Whatever spacing and comments a source has, it lexes like its plain printing. */
  lemma LayoutDoesNotMatter(source: seq<byte>)
    requires Lex(source).Lexemes? && NoneWrapped(Lex(source).all)
    ensures var all := Lex(source).all; var front := Front(all);
            AllSpellable(front) && Lex(Print(front)).Lexemes? && TokensOf(Lex(Print(front)).all) == TokensOf(all)
  {
    hide Lex, Legal, Print;
    LexedWell(source);
    var all := Lex(source).all;
    var front := Front(all);
    forall k | 0 <= k < |front| ensures Spellable(front[k]) {
      assert front[k] == all[k].token;
    }
    PrintedTokensAreLexed(front);
    assert TokensOf(all) == front + [TkEof];
  }

  // ---------- places ----------

  /** Newlines before `at`. */
  function Lines(source: seq<byte>, at: nat): nat
    requires at <= |source|
  {
    if at == 0 then 0 else Lines(source, at - 1) + if source[at - 1] == NEWLINE then 1 else 0
  }

  /** Distance from the start of the line, counted from 1. */
  function Column(source: seq<byte>, at: nat): nat
    requires at <= |source|
  {
    if at == 0 || source[at - 1] == NEWLINE then 1 else Column(source, at - 1) + 1
  }

  /** Newlines inside literals; one gets there only behind a backslash. */
  function Hidden(all: seq<Lexeme>): nat {
    if all == [] then 0
    else
      var t := all[|all| - 1].token;
      Hidden(all[..|all| - 1]) + if t.TkString? then Lines(t.raw, |t.raw|) else 0
  }

  predicate Placed(source: seq<byte>, c: Cursor, hidden: nat) {
    c.at <= |source| && c.line + hidden == 1 + Lines(source, c.at) && (hidden == 0 ==> c.column == Column(source, c.at))
  }

  lemma {:induction false} PlacedAlong(source: seq<byte>, c: Cursor, hidden: nat, end: nat)
    requires Placed(source, c, hidden) && c.at <= end <= |source|
             && forall k :: c.at <= k < end ==> source[k] != NEWLINE
    ensures Placed(source, Along(c, end), hidden)
    decreases end - c.at
  {
    if c.at < end {
      PlacedAlong(source, c, hidden, end - 1);
    }
  }

  lemma {:induction false} LineHasNoNewline(source: seq<byte>, at: nat, k: nat)
    requires at <= |source| && at <= k < LineEnd(source, at)
    ensures source[k] != NEWLINE
    decreases |source| - at
  {
    if at < k { LineHasNoNewline(source, at + 1, k); }
  }

  lemma {:induction false} NumberIsDigits(source: seq<byte>, at: nat, value: i32, k: nat)
    requires at <= |source| && ReadNumber(source, at, value).Some? && at <= k < ReadNumber(source, at, value).value.0
    ensures IsDigit(source[k])
    decreases |source| - at
  {
    if at < k { NumberIsDigits(source, at + 1, ToI32(value * 10 + DigitOf(source[at])), k); }
  }

  lemma {:induction false} CommentPlaced(source: seq<byte>, c: Cursor, hidden: nat)
    requires Placed(source, c, hidden)
    ensures Placed(source, CommentEnd(source, c), hidden)
    ensures var end := CommentEnd(source, c).at; end + 1 < |source| ==> source[end] == STAR && source[end + 1] == SLASH
    decreases |source| - c.at
  {
    if c.at + 1 < |source| && !(source[c.at] == STAR && source[c.at + 1] == SLASH) {
      CommentPlaced(source, Step(source, c), hidden);
    }
  }

  lemma {:induction false} LinesAdd(source: seq<byte>, at: nat, end: nat)
    requires at <= end <= |source|
    ensures Lines(source, end) == Lines(source, at) + Lines(source[at..end], end - at)
    decreases end
  {
    if at < end {
      LinesAdd(source, at, end - 1);
      SameLines(source[at..end - 1], source[at..end], end - 1 - at);
    }
  }

  lemma {:induction false} SameLines(a: seq<byte>, b: seq<byte>, n: nat)
    requires n <= |a| && n <= |b| && a[..n] == b[..n]
    ensures Lines(a, n) == Lines(b, n)
  {
    if n > 0 {
      assert a[n - 1] == a[..n][n - 1] == b[n - 1];
      assert a[..n - 1] == a[..n][..n - 1] == b[..n - 1];
      SameLines(a, b, n - 1);
    }
  }

  lemma {:induction false} NoLines(s: seq<byte>, n: nat, k: nat)
    requires k < n <= |s| && Lines(s, n) == 0
    ensures s[k] != NEWLINE
  {
    if k < n - 1 { NoLines(s, n - 1, k); }
  }

  lemma LiteralPlaced(source: seq<byte>, c: Cursor, hidden: nat, end: nat)
    requires Placed(source, c, hidden) && c.at < end < |source| && source[c.at] == source[end] == QUOTE
    ensures var raw := source[c.at + 1..end]; Placed(source, Along(c, end + 1), hidden + Lines(raw, |raw|))
  {
    var raw := source[c.at + 1..end];
    LinesAdd(source, c.at + 1, end);
    assert Lines(source, c.at + 1) == Lines(source, c.at) && Lines(source, end + 1) == Lines(source, end);
    if Lines(raw, |raw|) == 0 {
      forall k | c.at <= k < end + 1 ensures source[k] != NEWLINE {
        if c.at < k < end { NoLines(raw, |raw|, k - c.at - 1); }
      }
      PlacedAlong(source, c, hidden, end + 1);
    }
  }

  lemma ScanPlaced(source: seq<byte>, c: Cursor, hidden: nat)
    requires Placed(source, c, hidden) && c.at < |source|
    ensures var r := Scan(source, c);
            && (r.Skip? ==> Placed(source, r.next, hidden))
            && (r.Found? ==> Placed(source, r.next,
                                    hidden + if r.token.TkString? then Lines(r.token.raw, |r.token.raw|) else 0))
  {
    hide WordEnd, LineEnd, CommentEnd, ReadNumber, ReadLiteral, Placed, WordToken, OneByteToken, TwoByteToken;
    var ch := source[c.at];
    var r := Scan(source, c);
    if IsSpace(ch) || ch == NEWLINE {
      StepPlaced(source, c, hidden);
    } else if r.Skip? {
      SkipPlaced(source, c, hidden);
    } else if r.Found? && ch == QUOTE {
      LiteralPlaced(source, c, hidden, r.next.at - 1);
    } else if r.Found? {
      FoundPlaced(source, c, hidden);
    }
  }

  lemma StepPlaced(source: seq<byte>, c: Cursor, hidden: nat)
    requires Placed(source, c, hidden) && c.at < |source|
    ensures Placed(source, Step(source, c), hidden)
  {
  }

  lemma SkipPlaced(source: seq<byte>, c: Cursor, hidden: nat)
    requires Placed(source, c, hidden) && c.at + 1 < |source| && source[c.at] == SLASH
    requires source[c.at + 1] == SLASH || source[c.at + 1] == STAR
    requires ScanComment(source, c).Skip?
    ensures Placed(source, ScanComment(source, c).next, hidden)
  {
    hide LineEnd, CommentEnd, Placed;
    PlacedAlong(source, c, hidden, c.at + 2);
    var inside := Along(c, c.at + 2);
    if source[c.at + 1] == SLASH {
      var end := LineEnd(source, c.at + 2);
      forall k | c.at + 2 <= k < end ensures source[k] != NEWLINE { LineHasNoNewline(source, c.at + 2, k); }
      PlacedAlong(source, inside, hidden, end);
    } else {
      CommentPlaced(source, inside, hidden);
      var end := CommentEnd(source, inside);
      PlacedAlong(source, end, hidden, end.at + 2);
    }
  }

  lemma FoundPlaced(source: seq<byte>, c: Cursor, hidden: nat)
    requires Placed(source, c, hidden) && c.at < |source| && source[c.at] != QUOTE && source[c.at] != NEWLINE
    requires Scan(source, c).Found?
    ensures Placed(source, Scan(source, c).next, hidden) && !Scan(source, c).token.TkString?
  {
    hide WordEnd, LineEnd, CommentEnd, ReadNumber, ReadLiteral, Placed;
    var ch := source[c.at];
    var end := Scan(source, c).next.at;
    if IsLetter(ch) {
      forall k | c.at <= k < end ensures source[k] != NEWLINE { WordIsWord(source, c.at, k); }
    } else if IsDigit(ch) {
      forall k | c.at <= k < end ensures source[k] != NEWLINE { NumberIsDigits(source, c.at, 0, k); }
    } else {
      assert end == c.at + 1 || (end == c.at + 2 && source[c.at + 1] == EQUALS);
    }
    PlacedAlong(source, c, hidden, end);
  }

  /** The place reported for a token: its line, short of the newlines hidden in earlier literals, and its
      column if there were none. */
  predicate Reported(source: seq<byte>, l: Lexeme, hidden: nat) {
    var start := l.position - if l.token.TkString? then 1 else 0;
    && 0 <= start <= |source| && l.line + hidden == 1 + Lines(source, start)
    && (hidden == 0 ==> l.column == Column(source, start))
  }

  predicate AllReported(source: seq<byte>, all: seq<Lexeme>) {
    forall k :: 0 <= k < |all| ==> Reported(source, all[k], Hidden(all[..k]))
  }

  lemma ReportedMore(source: seq<byte>, c: Cursor, seen: seq<Lexeme>, t: Token)
    requires Placed(source, c, Hidden(seen)) && AllReported(source, seen)
    ensures AllReported(source, seen + [LexemeAt(t, c)])
    ensures Hidden(seen + [LexemeAt(t, c)]) == Hidden(seen) + if t.TkString? then Lines(t.raw, |t.raw|) else 0
  {
    hide Lines, Column, Hidden;
    var all := seen + [LexemeAt(t, c)];
    forall k | 0 <= k < |all| ensures Reported(source, all[k], Hidden(all[..k])) {
      assert all[..k] == seen[..k];
      if k == |seen| { assert seen[..k] == seen; }
    }
    HiddenMore(seen, LexemeAt(t, c));
  }

  lemma HiddenMore(seen: seq<Lexeme>, l: Lexeme)
    ensures Hidden(seen + [l]) == Hidden(seen) + if l.token.TkString? then Lines(l.token.raw, |l.token.raw|) else 0
  {
    hide Lines;
    assert (seen + [l])[..|seen|] == seen;
  }

  lemma {:induction false} LexReports(source: seq<byte>, c: Cursor, seen: seq<Lexeme>)
    requires Placed(source, c, Hidden(seen)) && AllReported(source, seen) && LexFrom(source, c, seen).Lexemes?
    ensures AllReported(source, LexFrom(source, c, seen).all)
    decreases |source| - c.at
  {
    hide Scan, AllReported, Hidden, Lines, Placed;
    assert c.at <= |source| by { PlacedInside(source, c, Hidden(seen)); }
    if c.at == |source| {
      ReportedMore(source, c, seen, TkEof);
    } else {
      ScanPlaced(source, c, Hidden(seen));
      match Scan(source, c)
      case Skip(next) => LexReports(source, next, seen);
      case Found(token, next) =>
        ReportedMore(source, c, seen, token);
        LexReports(source, next, seen + [LexemeAt(token, c)]);
    }
  }

  lemma PlacedInside(source: seq<byte>, c: Cursor, hidden: nat)
    requires Placed(source, c, hidden)
    ensures c.at <= |source|
  {
  }

  /** The line reported for a token is its true line exactly when no literal before it spans lines: newlines
      in comments are counted, those taken by a backslash inside a literal are not. */
  lemma ReportedPlaces(source: seq<byte>, k: nat)
    requires Lex(source).Lexemes? && k < |Lex(source).all|
    ensures var all := Lex(source).all; Reported(source, all[k], Hidden(all[..k]))
  {
    hide LexFrom, Reported;
    assert Placed(source, START, 0);
    LexReports(source, START, []);
  }

  /** The text from `c` on is refused: by the token table, or by what stands at `c`. */
  predicate Stops(source: seq<byte>, c: Cursor, seen: seq<Lexeme>, why: Refusal)
    requires c.at <= |source|
  {
    && (why.line, why.column) == (c.line, c.column)
    && if why.error == -61 then |seen| == MAX_TOKENS && (c.at < |source| ==> Scan(source, c).Found?)
       else c.at < |source| && Scan(source, c) == Bad(why.error)
  }

  lemma BadErrors(source: seq<byte>, c: Cursor)
    requires c.at < |source| && Scan(source, c).Bad?
    ensures Scan(source, c).error != -61
  {
    hide WordEnd, LineEnd, CommentEnd, ReadNumber, OneByteToken, TwoByteToken;
    if source[c.at] == QUOTE { LiteralErrors(source, c.at + 1, 0); }
  }

  lemma {:induction false} LiteralErrors(source: seq<byte>, at: nat, decoded: nat)
    requires at <= |source| && ReadLiteral(source, at, decoded).Runaway?
    ensures ReadLiteral(source, at, decoded).error in {-65, -66}
    decreases |source| - at
  {
    if at < |source| && source[at] != QUOTE && source[at] != NEWLINE && decoded < MAX_LITERAL {
      LiteralErrors(source, if source[at] == BACKSLASH && at + 1 < |source| then at + 2 else at + 1, decoded + 1);
    }
  }

  /** Cutting pieces off the text from `c` on reaches `stop`, with the tokens `found` so far. */
  ghost predicate CutTo(source: seq<byte>, c: Cursor, seen: seq<Lexeme>, stop: Cursor, found: seq<Lexeme>)
    requires c.at <= |source|
    decreases |source| - c.at
  {
    || (stop, found) == (c, seen)
    || (c.at < |source|
        && match Scan(source, c)
           case Bad(_) => false
           case Skip(next) => CutTo(source, next, seen, stop, found)
           case Found(token, next) =>
             |seen| < MAX_TOKENS && CutTo(source, next, seen + [LexemeAt(token, c)], stop, found))
  }

  /** The cursor at which lexing stops, and what was found before it. */
  lemma {:induction false} RefusedAt(source: seq<byte>, c: Cursor, seen: seq<Lexeme>)
    returns (stop: Cursor, found: seq<Lexeme>)
    requires Placed(source, c, Hidden(seen)) && AllReported(source, seen) && |seen| <= MAX_TOKENS
             && LexFrom(source, c, seen).Refused?
    ensures Placed(source, stop, Hidden(found)) && AllReported(source, found) && stop.at <= |source|
    ensures CutTo(source, c, seen, stop, found) && Stops(source, stop, found, LexFrom(source, c, seen).why)
    decreases |source| - c.at
  {
    hide Scan, AllReported, Hidden, Lines, Placed;
    assert c.at <= |source| by { PlacedInside(source, c, Hidden(seen)); }
    stop, found := c, seen;
    if c.at < |source| {
      ScanPlaced(source, c, Hidden(seen));
      match Scan(source, c)
      case Bad(_) => BadErrors(source, c);
      case Skip(next) => stop, found := RefusedAt(source, next, seen);
      case Found(token, next) =>
        if |seen| < MAX_TOKENS {
          ReportedMore(source, c, seen, token);
          stop, found := RefusedAt(source, next, seen + [LexemeAt(token, c)]);
        }
    }
  }

  /** Where the pieces lead to a stop, lexing is refused there. */
  lemma {:induction false} StopRefuses(source: seq<byte>, c: Cursor, seen: seq<Lexeme>, stop: Cursor,
                                       found: seq<Lexeme>, why: Refusal)
    requires c.at <= |source| && |seen| <= MAX_TOKENS && stop.at <= |source|
    requires CutTo(source, c, seen, stop, found) && Stops(source, stop, found, why)
    ensures LexFrom(source, c, seen) == Refused(why)
    decreases |source| - c.at
  {
    hide Scan;
    if (stop, found) != (c, seen) {
      match Scan(source, c)
      case Skip(next) => StopRefuses(source, next, seen, stop, found, why);
      case Found(token, next) => StopRefuses(source, next, seen + [LexemeAt(token, c)], stop, found, why);
    }
  }

  /** A text is refused with a place and an error exactly when cutting pieces off it reaches that place and
      stops there with that error; the place is that of the character, short of the newlines hidden in the
      literals cut off before. */
  lemma RefusedPlaces(source: seq<byte>, why: Refusal)
    ensures Lex(source) == Refused(why) <==>
              exists stop: Cursor, found ::
                && stop.at <= |source| && CutTo(source, START, [], stop, found) && Stops(source, stop, found, why)
                && Placed(source, stop, Hidden(found)) && AllReported(source, found)
  {
    hide LexFrom, Stops, Scan, CutTo;
    assert Placed(source, START, 0) && AllReported(source, []);
    if Lex(source) == Refused(why) {
      var stop, found := RefusedAt(source, START, []);
    }
    if stop: Cursor, found :|
      stop.at <= |source| && CutTo(source, START, [], stop, found) && Stops(source, stop, found, why)
    {
      StopRefuses(source, START, [], stop, found, why);
    }
  }

  // ---------- literals, position by position ----------

  /** The character at k of the literal that starts at `at` is taken by a backslash before it. */
  predicate Escaped(source: seq<byte>, at: nat, k: nat)
    requires k <= |source|
    decreases k
  {
    at < k && source[k - 1] == BACKSLASH && !Escaped(source, at, k - 1)
  }

  /** Characters of the literal before k, an escape being one. */
  function Characters(source: seq<byte>, at: nat, k: nat): nat
    requires k <= |source|
    decreases k
  {
    if k <= at then 0 else Characters(source, at, k - 1) + if Escaped(source, at, k - 1) then 0 else 1
  }

  /** No quote and no newline of its own before k. */
  predicate OpenTo(source: seq<byte>, at: nat, k: nat) {
    && at <= k <= |source|
    && forall j :: at <= j < k && !Escaped(source, at, j) ==> source[j] != QUOTE && source[j] != NEWLINE
  }

  /** The literal ends at k with r: closed, broken off by the line or the text, or too long. */
  predicate EndsWith(source: seq<byte>, at: nat, k: nat, r: Literal) {
    OpenTo(source, at, k) &&
    match r
    case Closed(end) =>
      end == k < |source| && !Escaped(source, at, k) && source[k] == QUOTE && Characters(source, at, k) <= MAX_LITERAL
    case Runaway(error) =>
      if error == -65 then
        && (k == |source| || (!Escaped(source, at, k) && source[k] == NEWLINE))
        && Characters(source, at, k) <= MAX_LITERAL
      else
        && error == -66 && k < |source| && !Escaped(source, at, k) && Characters(source, at, k) == MAX_LITERAL
        && source[k] != QUOTE && source[k] != NEWLINE
  }

  /** The literal ends somewhere with r. */
  ghost predicate Ends(source: seq<byte>, at: nat, r: Literal) {
    exists k :: EndsWith(source, at, k, r)
  }

  lemma {:induction false} CharactersGrow(source: seq<byte>, at: nat, k: nat, m: nat)
    requires at <= k <= m <= |source|
    ensures Characters(source, at, k) <= Characters(source, at, m)
    ensures k < m && !Escaped(source, at, k) ==> Characters(source, at, k) < Characters(source, at, m)
    decreases m
  {
    if k < m { CharactersGrow(source, at, k, m - 1); }
  }

  lemma EndsBefore(source: seq<byte>, at: nat, k: nat, r: Literal, m: nat, q: Literal)
    requires EndsWith(source, at, k, r) && EndsWith(source, at, m, q)
    ensures m <= k
  {
    hide Escaped, Characters;
    if k < m {
      CharactersGrow(source, at, k, m);
    }
  }

  /** A literal has one end. */
  lemma OneEnd(source: seq<byte>, at: nat, k: nat, r: Literal, m: nat, q: Literal)
    requires EndsWith(source, at, k, r) && EndsWith(source, at, m, q)
    ensures k == m && r == q
  {
    EndsBefore(source, at, k, r, m, q);
    EndsBefore(source, at, m, q, k, r);
  }

  lemma {:induction false} ReadsToEnd(source: seq<byte>, start: nat, at: nat) returns (k: nat)
    requires OpenTo(source, start, at) && (at < |source| ==> !Escaped(source, start, at))
             && Characters(source, start, at) <= MAX_LITERAL
    ensures EndsWith(source, start, k, ReadLiteral(source, at, Characters(source, start, at)))
    decreases |source| - at
  {
    k := at;
    if at < |source| && source[at] != QUOTE && source[at] != NEWLINE && Characters(source, start, at) < MAX_LITERAL {
      k := ReadsToEnd(source, start, if source[at] == BACKSLASH && at + 1 < |source| then at + 2 else at + 1);
    }
  }

  /** What reading a literal gives, in terms of where its quotes, newlines and escapes are. */
  lemma LiteralsReadExactly(source: seq<byte>, at: nat, r: Literal)
    requires at <= |source|
    ensures ReadLiteral(source, at, 0) == r <==> Ends(source, at, r)
  {
    hide EndsWith, ReadLiteral;
    var k := ReadsToEnd(source, at, at);
    if m :| EndsWith(source, at, m, r) { OneEnd(source, at, k, ReadLiteral(source, at, 0), m, r); }
  }

  /** What each refusal of the text at `at` says about it. */
  ghost predicate Refusable(source: seq<byte>, at: nat, error: int)
    requires at < |source|
  {
    match error
    case -62 =>
      && at + 1 < |source| && source[at] == SLASH && source[at + 1] == STAR
      && forall k :: at + 2 <= k < |source| - 1 ==> !(source[k] == STAR && source[k + 1] == SLASH)
    case -63 =>
      && IsLetter(source[at]) && at + P.NAME_SIZE <= |source|
      && forall k :: at <= k < at + P.NAME_SIZE ==> IsWord(source[k])
    case -64 => exists k :: NumberStops(source, at, k)
    case -65 => source[at] == QUOTE && Ends(source, at + 1, Runaway(-65))
    case -66 => source[at] == QUOTE && Ends(source, at + 1, Runaway(-66))
    case -67 =>
      && !IsSpace(source[at]) && source[at] != NEWLINE && !IsWord(source[at]) && source[at] != QUOTE
      && OneByteToken(source[at]).None?
      && (at + 1 < |source| ==> TwoByteToken(source[at], source[at + 1]).None?)
    case _ => false
  }

  lemma {:induction false} CommentOpen(source: seq<byte>, c: Cursor, k: nat)
    requires CommentEnd(source, c).at + 1 >= |source| && c.at <= k < |source| - 1
    ensures !(source[k] == STAR && source[k + 1] == SLASH)
    decreases k - c.at
  {
    if c.at < k { CommentOpen(source, Step(source, c), k); }
  }

  lemma {:induction false} CommentCloses(source: seq<byte>, c: Cursor)
    ensures var end := CommentEnd(source, c).at; end + 1 < |source| ==> source[end] == STAR && source[end + 1] == SLASH
    decreases |source| - c.at
  {
    if c.at + 1 < |source| && !(source[c.at] == STAR && source[c.at + 1] == SLASH) { CommentCloses(source,
        Step(source, c)); }
  }

  lemma CommentRefused(source: seq<byte>, c: Cursor)
    requires c.at + 1 < |source| && source[c.at] == SLASH && source[c.at + 1] == STAR
    ensures Scan(source, c).Bad? <==> Refusable(source, c.at, -62)
    ensures Scan(source, c).Bad? ==> Scan(source, c) == Bad(-62)
  {
    hide WordEnd, LineEnd, CommentEnd, ReadNumber, ReadLiteral, WordToken;
    var inside := Along(c, c.at + 2);
    var end := CommentEnd(source, inside).at;
    CommentCloses(source, inside);
    if end + 1 >= |source| {
      forall k | c.at + 2 <= k < |source| - 1 ensures !(source[k] == STAR && source[k + 1] == SLASH) {
        CommentOpen(source, inside, k);
      }
    }
  }

  lemma {:induction false} WordReaches(source: seq<byte>, at: nat, n: nat)
    requires at <= |source|
    ensures WordEnd(source, at) >= at + n <==>
              at + n <= |source| && forall k :: at <= k < at + n ==> IsWord(source[k])
    decreases n
  {
    if n > 0 {
      if at < |source| && IsWord(source[at]) {
        WordReaches(source, at + 1, n - 1);
      } else if at + n <= |source| {
        assert !IsWord(source[at]);
      }
    }
  }

  lemma {:induction false} DigitsEnd(source: seq<byte>, start: nat, at: nat) returns (end: nat)
    requires start <= at <= |source| && forall k :: start <= k < at ==> IsDigit(source[k])
    ensures DigitRun(source, start, end)
    decreases |source| - at
  {
    end := at;
    if at < |source| && IsDigit(source[at]) { end := DigitsEnd(source, start, at + 1); }
  }

  lemma NumberRefused(source: seq<byte>, at: nat)
    requires at < |source|
    ensures IsDigit(source[at]) && ReadNumber(source, at, 0).None? <==> Refusable(source, at, -64)
  {
    hide ReadNumber, Value, ToI32;
    if IsDigit(source[at]) {
      var end := DigitsEnd(source, at, at);
      NumbersReadModulo(source, at, end);
    }
  }

  lemma LiteralRefused(source: seq<byte>, at: nat, error: int)
    requires at < |source| && (error == -65 || error == -66)
    ensures source[at] == QUOTE && ReadLiteral(source, at + 1, 0) == Runaway(error) <==> Refusable(source, at, error)
  {
    hide ReadLiteral, Ends;
    LiteralsReadExactly(source, at + 1, Runaway(error));
  }

  /** What stands at the cursor is refused with an error exactly when that error's condition holds there. */
  lemma RefusalMeans(source: seq<byte>, c: Cursor, error: int)
    requires c.at < |source|
    ensures Scan(source, c) == Bad(error) <==> Refusable(source, c.at, error)
  {
    hide WordEnd, LineEnd, CommentEnd, ReadNumber, ReadLiteral, WordToken, Ends, NumberStops;
    NumberRefused(source, c.at);
    LiteralRefused(source, c.at, -65);
    LiteralRefused(source, c.at, -66);
    WordReaches(source, c.at, P.NAME_SIZE);
    if c.at + 1 < |source| && source[c.at] == SLASH && source[c.at + 1] == STAR {
      CommentRefused(source, c);
    } else if source[c.at] == QUOTE {
      if ReadLiteral(source, c.at + 1, 0).Runaway? { LiteralErrors(source, c.at + 1, 0); }
    }
  }
}
