/** The lexer as it runs: a position that moves over the source with its line and column, and a token table
    that fills up. Proved to do what Lexer says. */
module Scanning {
  import opened Common
  import opened Hbc
  import opened Source
  import opened Lexer
  import P = Parser

  class Scanner {
    const source: seq<byte>
    var position: nat
    var line: nat
    var column: nat
    const lexemes: array<Lexeme>
    var tokenCount: nat
    var failure: Option<Refusal>

    ghost predicate Valid()
      reads this
    {
      lexemes.Length == MAX_TOKENS && tokenCount <= MAX_TOKENS && position <= |source|
    }

    ghost function Here(): Cursor
      reads this
    {
      Cursor(position, line, column)
    }

    ghost function Seen(): seq<Lexeme>
      requires Valid()
      reads this, lexemes
    {
      lexemes[..tokenCount]
    }

    constructor (source: seq<byte>)
      ensures Valid() && fresh(lexemes) && this.source == source && Here() == START && Seen() == [] && failure.None?
    {
      this.source := source;
      position, line, column, tokenCount, failure := 0, 1, 1, 0, None;
      lexemes := new Lexeme[80](_ => Lexeme(TkEof, 0, 0, 0));
    }

    /** The state after a piece found at `here` was dealt with. */
    ghost predicate Handled(piece: Piece, here: Cursor, seen: seq<Lexeme>, ok: bool)
      requires Valid()
      reads this, lexemes
    {
      match piece
      case Bad(error) => !ok && failure == Some(Refusal(error, here.line, here.column))
      case Skip(next) => ok && failure.None? && Here() == next && Seen() == seen
      case Found(token, next) =>
        if |seen| >= MAX_TOKENS then !ok && failure == Some(Refusal(-61, here.line, here.column))
        else ok && failure.None? && Here() == next && Seen() == seen + [LexemeAt(token, here)]
    }

    method AddToken(token: Token, start: nat, startLine: nat, startColumn: nat) returns (ok: bool)
      requires Valid() && failure.None?
      modifies this`tokenCount, this`failure, lexemes
      ensures Valid() && ok == (old(tokenCount) < MAX_TOKENS)
      ensures ok ==> failure.None? && Seen() == old(Seen()) + [Lexeme(token, start, startLine, startColumn)]
      ensures !ok ==> failure == Some(Refusal(-61, startLine, startColumn))
    {
      if tokenCount >= MAX_TOKENS {
        failure := Some(Refusal(-61, startLine, startColumn));
        return false;
      }
      lexemes[tokenCount] := Lexeme(token, start, startLine, startColumn);
      tokenCount := tokenCount + 1;
      return true;
    }

    method SkipLine()
      requires Valid()
      modifies this`position, this`column
      ensures Valid() && Here() == Along(old(Here()), LineEnd(source, old(position)))
    {
      while position < |source| && source[position] != NEWLINE
        invariant Valid() && old(position) <= position && Here() == Along(old(Here()), position)
        invariant LineEnd(source, position) == LineEnd(source, old(position))
      {
        position, column := position + 1, column + 1;
      }
    }

    method SkipBlock()
      requires Valid()
      modifies this`position, this`line, this`column
      ensures Valid() && Here() == CommentEnd(source, old(Here()))
    {
      while position + 1 < |source| && !(source[position] == STAR && source[position + 1] == SLASH)
        invariant Valid() && CommentEnd(source, Here()) == CommentEnd(source, old(Here()))
      {
        if source[position] == NEWLINE {
          line, column, position := line + 1, 1, position + 1;
        } else {
          position, column := position + 1, column + 1;
        }
      }
    }

    method SkipComment() returns (ok: bool)
      requires Valid() && failure.None? && position + 1 < |source| && source[position] == SLASH
      requires source[position + 1] == SLASH || source[position + 1] == STAR
      modifies this`position, this`line, this`column, this`failure
      ensures Valid() && Handled(ScanComment(source, old(Here())), old(Here()), Seen(), ok)
    {
      var startLine, startColumn := line, column;
      var oneLine := source[position + 1] == SLASH;
      position, column := position + 2, column + 2;
      if oneLine {
        SkipLine();
        return true;
      }
      SkipBlock();
      if position + 1 >= |source| {
        failure := Some(Refusal(-62, startLine, startColumn));
        return false;
      }
      position, column := position + 2, column + 2;
      return true;
    }

    method LexWord() returns (ok: bool)
      requires Valid() && failure.None? && position < |source|
      modifies this, lexemes
      ensures Valid() && Handled(ScanWord(source, old(Here())), old(Here()), old(Seen()), ok)
    {
      hide WordToken;
      var start, startColumn := position, column;
      while position < |source| && IsWord(source[position])
        invariant Valid() && start <= position && Here() == Along(old(Here()), position) && failure.None?
                  && Seen() == old(Seen())
        invariant WordEnd(source, position) == WordEnd(source, start)
        decreases |source| - position
      {
        position, column := position + 1, column + 1;
      }
      if position - start >= P.NAME_SIZE {
        failure := Some(Refusal(-63, line, startColumn));
        return false;
      }
      WordIsNoLiteral(source[start..position]);
      ok := AddToken(WordToken(source[start..position]), start, line, startColumn);
    }

    method LexNumber() returns (ok: bool)
      requires Valid() && failure.None? && position < |source|
      modifies this, lexemes
      ensures Valid() && Handled(ScanNumber(source, old(Here())), old(Here()), old(Seen()), ok)
    {
      var start, startColumn, value: i32 := position, column, 0;
      while position < |source| && IsDigit(source[position])
        invariant Valid() && start <= position && Here() == Along(old(Here()), position) && failure.None?
                  && Seen() == old(Seen())
        invariant ReadNumber(source, position, value) == ReadNumber(source, start, 0)
        decreases |source| - position
      {
        if value > 214748364 {
          failure := Some(Refusal(-64, line, startColumn));
          return false;
        }
        value := ToI32(value * 10 + DigitOf(source[position]));
        position, column := position + 1, column + 1;
      }
      ok := AddToken(TkNumber(value), start, line, startColumn);
    }

    method LexLiteral() returns (ok: bool)
      requires Valid() && failure.None? && position < |source| && source[position] == QUOTE
      modifies this, lexemes
      ensures Valid() && Handled(ScanLiteral(source, old(Here())), old(Here()), old(Seen()), ok)
    {
      var startColumn := column;
      position, column := position + 1, column + 1;
      var start, decoded := position, 0;
      while position < |source| && source[position] != QUOTE
        invariant Valid() && start <= position && Here() == Along(old(Here()), position) && failure.None?
                  && Seen() == old(Seen())
        invariant decoded <= MAX_LITERAL && ReadLiteral(source, position, decoded) == ReadLiteral(source, start, 0)
        decreases |source| - position
      {
        if source[position] == NEWLINE {
          failure := Some(Refusal(-65, line, startColumn));
          return false;
        }
        if source[position] == BACKSLASH && position + 1 < |source| {
          position, column := position + 2, column + 2;
        } else {
          position, column := position + 1, column + 1;
        }
        decoded := decoded + 1;
        if decoded > MAX_LITERAL {
          failure := Some(Refusal(-66, line, startColumn));
          return false;
        }
      }
      if position >= |source| {
        failure := Some(Refusal(-65, line, startColumn));
        return false;
      }
      ok := AddToken(TkString(source[start..position]), start, line, startColumn);
      if ok { position, column := position + 1, column + 1; }
    }

    method LexOperator() returns (ok: bool)
      requires Valid() && failure.None? && position < |source|
      modifies this, lexemes
      ensures Valid() && Handled(ScanOperator(source, old(Here())), old(Here()), old(Seen()), ok)
    {
      hide OneByteToken, TwoByteToken;
      var kind, length := None, 1;
      if position + 1 < |source| { kind, length := TwoByteToken(source[position], source[position + 1]), 2; }
      if kind.None? { kind, length := OneByteToken(source[position]), 1; }
      if kind.None? {
        failure := Some(Refusal(-67, line, column));
        return false;
      }
      OperatorIsNoLiteral(source, Here());
      ok := AddToken(kind.value, position, line, column);
      if ok { position, column := position + length, column + length; }
    }

    /** Lexes the whole source. */
    method Lex() returns (ok: bool)
      requires Valid() && failure.None? && Here() == START && Seen() == []
      modifies this, lexemes
      ensures Valid() && (ok || failure.Some?)
      ensures Lexer.Lex(source) == if ok then Lexemes(Seen()) else Refused(failure.value)
    {
      hide ScanComment, ScanWord, ScanNumber, ScanLiteral, ScanOperator;
      while position < |source|
        invariant Valid() && failure.None? && LexFrom(source, Here(), Seen()) == Lexer.Lex(source)
        decreases |source| - position
      {
        ghost var here, seen := Here(), Seen();
        var character := source[position];
        if IsSpace(character) {
          position, column := position + 1, column + 1;
          ok := true;
        } else if character == NEWLINE {
          position, line, column := position + 1, line + 1, 1;
          ok := true;
        } else if character == SLASH && position + 1 < |source|
                  && (source[position + 1] == SLASH || source[position + 1] == STAR) {
          ok := SkipComment();
        } else if IsLetter(character) {
          ok := LexWord();
        } else if IsDigit(character) {
          ok := LexNumber();
        } else if character == QUOTE {
          ok := LexLiteral();
        } else {
          ok := LexOperator();
        }
        assert Handled(Scan(source, here), here, seen, ok);
        if !ok { return; }
      }
      ok := AddToken(TkEof, position, line, column);
    }
  }

  lemma WordIsNoLiteral(n: Name)
    ensures !WordToken(n).TkString?
  {
  }

  lemma OperatorIsNoLiteral(source: seq<byte>, c: Cursor)
    requires c.at < |source| && ScanOperator(source, c).Found?
    ensures !ScanOperator(source, c).token.TkString?
  {
  }
}
