/** The scanner as it runs: one position moving through the source. */
module Scanner {
  import opened Lexer

  class Scanner {
    const source: string
    const cl: Classes
    var pos: nat

    constructor (source: string, cl: Classes)
      ensures this.source == source && this.cl == cl && pos == 0
    {
      this.source, this.cl := source, cl;
      pos := 0;
    }

    ghost predicate Valid()
      reads this
    {
      pos <= |source|
    }

    function Rest(): string
      reads this
      requires pos <= |source|
    {
      source[pos..]
    }

    /** The position is n characters past where it was. */
    twostate predicate Took(n: nat)
      reads this
    {
      pos == old(pos) + n && pos <= |source|
    }

    method Advance()
      requires Valid()
      modifies this`pos
      ensures Took(if old(pos) < |source| then 1 else 0)
    {
      if pos < |source| {
        pos := pos + 1;
      }
    }

    /** Is the character k places ahead this one? */
    predicate Ahead(k: nat, c: char)
      reads this
    {
      pos + k < |source| && source[pos + k] == c
    }

    method SkipWhile(p: char -> bool)
      requires Valid()
      modifies this`pos
      ensures Took(TakeWhile(old(Rest()), p))
    {
      ghost var start := pos;
      while pos < |source| && p(source[pos])
        invariant start <= pos <= |source|
        invariant TakeWhile(source[start..], p) == pos - start + TakeWhile(source[pos..], p)
      {
        assert source[pos..][1..] == source[pos + 1..];
        pos := pos + 1;
      }
    }

    method SkipBlock()
      requires Valid()
      modifies this`pos
      ensures Took(BlockLen(old(Rest()), 1))
    {
      hide BlockLen;
      ghost var start := pos;
      var depth: nat := 1;
      while depth > 0 && pos < |source|
        invariant start <= pos <= |source|
        invariant BlockLen(source[start..], 1) == pos - start + BlockLen(source[pos..], depth)
        decreases |source| - pos
      {
        ghost var s := source[pos..];
        BlockStep(s, depth);
        if Ahead(0, '/') && Ahead(1, '*') {
          assert s[2..] == source[pos + 2..];
          pos, depth := pos + 2, depth + 1;
        } else if Ahead(0, '*') && Ahead(1, '/') {
          assert s[2..] == source[pos + 2..];
          pos, depth := pos + 2, depth - 1;
        } else {
          assert s[1..] == source[pos + 1..];
          pos := pos + 1;
        }
      }
      BlockDone(Rest(), depth);
    }

    method LexComment() returns (any: bool)
      requires Valid()
      modifies this`pos
      ensures Took(CommentLen(old(Rest()))) && any == (pos > old(pos))
    {
      hide BlockLen, TakeWhile;
      ghost var s := Rest();
      any := true;
      if Ahead(0, '/') && Ahead(1, '/') {
        pos := pos + 2;
        assert Rest() == s[2..];
        SkipWhile(NotNewline);
      } else if Ahead(0, '/') && Ahead(1, '*') {
        pos := pos + 2;
        assert Rest() == s[2..];
        SkipBlock();
      } else {
        any := false;
      }
    }

    method LexTrivia() returns (any: bool)
      requires Valid()
      modifies this`pos
      ensures Took(TriviaLen(old(Rest()))) && any == (pos > old(pos))
    {
      hide TriviaLen, CommentLen;
      var start := pos;
      while pos < |source|
        invariant start <= pos <= |source|
        invariant TriviaLen(source[start..]) == pos - start + TriviaLen(source[pos..])
        decreases |source| - pos
      {
        ghost var s, from := source[pos..], pos;
        TriviaStep(s);
        if Blank(source[pos]) {
          assert s[1..] == source[pos + 1..];
          pos := pos + 1;
        } else {
          var comment := LexComment();
          if !comment {
            break;
          }
          assert s[pos - from..] == source[pos..];
        }
      }
      TriviaDone(Rest());
      any := pos > start;
    }

    /** After the opening quote. */
    method SkipQuoted(close: char)
      requires Valid()
      modifies this`pos
      ensures Took(QuotedLen(old(Rest()), close))
    {
      ghost var start := pos;
      while pos < |source|
        invariant start <= pos <= |source|
        invariant QuotedLen(source[start..], close) == pos - start + QuotedLen(source[pos..], close)
        decreases |source| - pos
      {
        ghost var s := source[pos..];
        if source[pos] == close {
          pos := pos + 1;
          return;
        }
        if source[pos] == '\\' {
          assert |s| > 1 ==> s[2..] == source[pos + 2..];
          assert s[1..] == source[pos + 1..];
          Advance();
          Advance();
        } else {
          assert s[1..] == source[pos + 1..];
          pos := pos + 1;
        }
      }
    }

    method LexNumberSuffix()
      requires Valid()
      modifies this`pos
      ensures Took(SuffixLen(cl, old(Rest())))
    {
      SkipWhile(WordChars(cl));
    }

    method LexRadix() returns (kind: Kind)
      requires Valid() && RadixPrefix(Rest())
      modifies this`pos
      ensures kind == RadixNumber(cl, old(Rest())).0 && Took(RadixNumber(cl, old(Rest())).1)
    {
      ghost var s, start := Rest(), pos;
      var part := RadixPart(source[pos + 1]);
      pos := pos + 2;
      assert Rest() == s[2..];
      SkipWhile(part);
      assert Rest() == s[pos - start..];
      LexNumberSuffix();
      kind := IntLit;
    }

    method LexNumber() returns (kind: Kind)
      requires Valid()
      modifies this`pos
      ensures kind == Number(cl, old(Rest())).0 && Took(Number(cl, old(Rest())).1)
    {
      hide RadixNumber, DecimalNumber;
      if Ahead(0, '0')
        && (Ahead(1, 'x') || Ahead(1, 'X') || Ahead(1, 'b') || Ahead(1, 'B') || Ahead(1, 'o') || Ahead(1, 'O')) {
        kind := LexRadix();
      } else {
        kind := LexDecimal();
      }
    }

    method LexDecimal() returns (kind: Kind)
      requires Valid()
      modifies this`pos
      ensures kind == DecimalNumber(cl, old(Rest())).0 && Took(DecimalNumber(cl, old(Rest())).1)
    {
      hide FractionLen, NumberTail, TakeWhile;
      ghost var s, start := Rest(), pos;
      SkipWhile(DecimalPart);
      ghost var a := pos - start;
      assert Rest() == s[a..];
      var isFloat := SkipFraction();
      ghost var b := pos - start;
      assert Rest() == s[b..];
      kind := LexNumberTail(isFloat);
      assert kind == AfterFraction(cl, s, b, isFloat).0;
    }

    method LexNumberTail(isFloat: bool) returns (kind: Kind)
      requires Valid()
      modifies this`pos
      ensures kind == NumberTail(cl, old(Rest()), isFloat).0 && Took(NumberTail(cl, old(Rest()), isFloat).1)
    {
      hide Lexer.SuffixLen, ExponentHead, ExponentDigits;
      kind := FloatIf(isFloat);
      if Ahead(0, 'e') || Ahead(0, 'E') {
        ghost var s := Rest();
        var expStart := pos;
        SkipExponentHead();
        assert Rest() == s[pos - expStart..];
        var hasDigits := SkipExponentDigits();
        if !hasDigits {
          pos := expStart;
          return;
        }
        kind := FloatLit;
        assert Rest() == s[pos - expStart..];
      }
      LexNumberSuffix();
    }

    method SkipFraction() returns (any: bool)
      requires Valid()
      modifies this`pos
      ensures Took(FractionLen(old(Rest()))) && any == (pos > old(pos))
    {
      any := Ahead(0, '.') && pos + 1 < |source| && Digit(source[pos + 1]);
      if any {
        ghost var s := Rest();
        pos := pos + 1;
        assert Rest() == s[1..];
        SkipWhile(DecimalPart);
      }
    }

    method SkipExponentHead()
      requires Valid() && ExponentMark(Rest())
      modifies this`pos
      ensures Took(ExponentHead(old(Rest())))
    {
      pos := pos + 1;
      if Ahead(0, '+') || Ahead(0, '-') {
        pos := pos + 1;
      }
    }

    method SkipExponentDigits() returns (any: bool)
      requires Valid()
      modifies this`pos
      ensures Took(ExponentDigits(old(Rest()))) && any == (pos > old(pos))
    {
      ghost var start := pos;
      any := false;
      while pos < |source| && (Digit(source[pos]) || (source[pos] == '_' && any))
        invariant start <= pos <= |source| && any == (pos > start)
        invariant ExponentDigits(source[start..]) ==
                  pos - start + if any then TakeWhile(source[pos..], DecimalPart) else ExponentDigits(source[pos..])
      {
        assert source[pos..][1..] == source[pos + 1..];
        if Digit(source[pos]) {
          any := true;
        }
        pos := pos + 1;
      }
    }

    /** Look past the quote for a word before deciding. */
    method LexQuote() returns (kind: Kind)
      requires Valid() && Ahead(0, '\'')
      modifies this`pos
      ensures kind == Quote(cl, old(Rest())).0 && Took(Quote(cl, old(Rest())).1)
    {
      ghost var s, start := Rest(), pos;
      var identEnd := pos + 1;
      var isLifetime := false;
      if identEnd < |source| && WordStart(cl, source[identEnd]) {
        identEnd := identEnd + 1;
        ghost var word := WordChars(cl);
        assert s[2..] == source[identEnd..];
        while identEnd < |source| && WordPart(cl, source[identEnd])
          invariant start + 2 <= identEnd <= |source|
          invariant TakeWhile(s[2..], word) == identEnd - (start + 2) + TakeWhile(source[identEnd..], word)
        {
          assert source[identEnd..][1..] == source[identEnd + 1..];
          identEnd := identEnd + 1;
        }
        assert identEnd - start < |s| ==> s[identEnd - start] == source[identEnd];
        isLifetime := !(identEnd < |source| && source[identEnd] == '\'');
      }
      if isLifetime {
        pos := identEnd;
        kind := Lifetime;
      } else {
        Advance();
        assert pos == start + 1;
        assert source[start..][1..] == source[start + 1..];
        assert Rest() == s[1..];
        SkipQuoted('\'');
        kind := CharLit;
      }
    }

    method LexWord() returns (kind: Kind)
      requires Valid() && pos < |source|
      modifies this`pos
      ensures kind == Word(cl, old(Rest())).0 && Took(Word(cl, old(Rest())).1)
    {
      hide LookupKeyword, Lexer.SuffixLen, QuotedLen;
      ghost var s, start := Rest(), pos;
      if (Ahead(0, 'b') || Ahead(0, 'B')) && (Ahead(1, '\'') || Ahead(1, '"')) {
        var open := source[pos + 1];
        pos := pos + 2;
        assert Rest() == s[2..];
        SkipQuoted(open);
        return ByteLit;
      }
      var from := pos;
      LexNumberSuffix();
      assert source[from..pos] == s[..pos - start];
      kind := LookupKeyword(source[from..pos]);
    }

    method LexOperator() returns (kind: Kind)
      requires Valid() && pos < |source|
      modifies this`pos
      ensures Took(OperatorLen(old(Rest()))) && kind == Punct(old(Rest())[..OperatorLen(old(Rest()))])
    {
      ghost var s, start := Rest(), pos;
      var from := pos;
      Advance();
      if pos < |source| && Doubles(source[from], source[pos]) {
        Advance();
        if source[from] == source[from + 1] && source[from] in ".<>" && Ahead(0, '=') {
          Advance();
        }
      }
      assert source[from..pos] == s[..pos - start];
      kind := Punct(source[from..pos]);
    }

    /** One token that is not trivia. */
    method LexToken() returns (kind: Kind)
      requires Valid() && pos < |source| && TriviaLen(Rest()) == 0
      modifies this`pos
      ensures kind == Next(cl, old(Rest())).0 && Took(Next(cl, old(Rest())).1)
    {
      hide Lexer.TriviaLen, Lexer.Number, Lexer.Quote, Lexer.Word, Lexer.OperatorLen, Lexer.QuotedLen;
      ghost var s := Rest();
      var ch := source[pos];
      if AsciiLetter(ch) || ch == '_' {
        kind := LexWord();
      } else if Digit(ch) {
        kind := LexNumber();
      } else if ch == '"' {
        Advance();
        assert Rest() == s[1..];
        SkipQuoted('"');
        kind := StringLit;
      } else if ch == '\'' {
        kind := LexQuote();
      } else if OperatorStart(ch) {
        kind := LexOperator();
      } else {
        Advance();
        kind := Error;
      }
    }

    /** A run of trivia, or one token. */
    method LexOne() returns (token: Token)
      requires Valid() && pos < |source|
      modifies this`pos
      ensures var (kind, n) := Next(cl, old(Rest())); Took(n) && token == Token(kind, old(pos), old(Rest())[..n])
    {
      hide Lexer.Next, Lexer.TriviaLen, Lexer.TriviaKind;
      var start := pos;
      ghost var s := Rest();
      NextByTrivia(cl, s);
      var trivia := LexTrivia();
      var kind;
      if trivia {
        assert source[start..pos] == s[..pos - start];
        kind := TriviaKind(source[start..pos]);
      } else {
        kind := LexToken();
      }
      assert source[start..pos] == s[..pos - start];
      token := Token(kind, start, source[start..pos]);
    }

    /** The whole source as tokens, trivia included. */
    method LexAll() returns (tokens: seq<Token>)
      requires AsciiRight(cl) && pos == 0
      modifies this`pos
      ensures tokens == Tokens(cl, source, 0) && pos == |source|
    {
      hide Lexer.Next, Tokens;
      tokens := [];
      assert Rest() == source;
      while pos < |source|
        invariant pos <= |source|
        invariant Tokens(cl, source, 0) == tokens + Tokens(cl, Rest(), pos)
        decreases |source| - pos
      {
        ghost var start, s := pos, Rest();
        TokensStep(cl, s, start);
        var token := LexOne();
        assert s[pos - start..] == Rest();
        tokens := tokens + [token];
      }
      TokensDone(cl, Rest(), pos);
    }

    /** The tokens a parser of meaning wants: everything but trivia. */
    method Lex() returns (tokens: seq<Token>)
      requires AsciiRight(cl) && pos == 0
      modifies this`pos
      ensures tokens == Meaningful(Tokens(cl, source, 0))
    {
      var all := LexAll();
      tokens := DropTrivia(all);
    }
  }

  method DropTrivia(all: seq<Token>) returns (tokens: seq<Token>)
    ensures tokens == Meaningful(all)
  {
    tokens := [];
    for k := 0 to |all|
      invariant Meaningful(all) == tokens + Meaningful(all[k..])
    {
      assert all[k..][0] == all[k] && all[k..][1..] == all[k + 1..];
      if !IsTrivia(all[k].kind) {
        tokens := tokens + [all[k]];
      }
    }
  }

  function Meaningful(tokens: seq<Token>): seq<Token> {
    if tokens == [] then []
    else (if IsTrivia(tokens[0].kind) then [] else [tokens[0]]) + Meaningful(tokens[1..])
  }

  lemma TokensStep(cl: Classes, s: string, at: nat)
    requires s != [] && AsciiRight(cl)
    ensures var (kind, n) := Next(cl, s);
            n >= 1 && Tokens(cl, s, at) == [Token(kind, at, s[..n])] + Tokens(cl, s[n..], at + n)
  {
    hide Next;
    Progress(cl, s);
  }

  lemma TokensDone(cl: Classes, s: string, at: nat)
    requires AsciiRight(cl)
    ensures s == [] ==> Tokens(cl, s, at) == []
  {
  }

  lemma NextByTrivia(cl: Classes, s: string)
    requires s != []
    ensures TriviaLen(s) > 0 ==> Next(cl, s) == (TriviaKind(s[..TriviaLen(s)]), TriviaLen(s))
  {
  }

  lemma BlockStep(s: string, depth: nat)
    requires s != [] && depth > 0
    ensures BlockLen(s, depth) ==
            if Starts(s, '/', '*') then 2 + BlockLen(s[2..], depth + 1)
            else if Starts(s, '*', '/') then 2 + BlockLen(s[2..], depth - 1)
            else 1 + BlockLen(s[1..], depth)
  {
  }

  lemma BlockDone(s: string, depth: nat)
    ensures depth == 0 || s == [] ==> BlockLen(s, depth) == 0
  {
  }

  lemma TriviaStep(s: string)
    requires s != []
    ensures TriviaLen(s) ==
            if Blank(s[0]) then 1 + TriviaLen(s[1..])
            else if CommentLen(s) > 0 then CommentLen(s) + TriviaLen(s[CommentLen(s)..])
            else 0
  {
  }

  lemma TriviaDone(s: string)
    ensures s == [] ==> TriviaLen(s) == 0
  {
  }
}
