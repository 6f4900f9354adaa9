/**
The scanner loses nothing, never puts two trivia tokens side by side, and every token's text on its
own is that token again.
*/
module LexerCorrectness {
  import opened Lexer

  // ----- tiling -----

  /** The tokens cover s from its front without gap or overlap, the first at offset `at`. */
  predicate Tiles(tokens: seq<Token>, s: string, at: nat)
    decreases |tokens|
  {
    if tokens == [] then s == []
    else
      var t := tokens[0];
      t.start == at && t.text != [] && t.text <= s && Tiles(tokens[1..], s[|t.text|..], at + |t.text|)
  }

  function Concat(tokens: seq<Token>): string {
    if tokens == [] then "" else tokens[0].text + Concat(tokens[1..])
  }

  lemma {:induction false} TilesConcat(tokens: seq<Token>, s: string, at: nat)
    requires Tiles(tokens, s, at)
    ensures Concat(tokens) == s
    decreases |tokens|
  {
    if tokens != [] {
      var t := tokens[0];
      TilesConcat(tokens[1..], s[|t.text|..], at + |t.text|);
      assert s == t.text + s[|t.text|..];
    }
  }

  /** Lossless: the token texts tile the source, and put together they are the source. */
  lemma {:induction false} Lossless(cl: Classes, s: string, at: nat)
    requires AsciiRight(cl)
    ensures Tiles(Tokens(cl, s, at), s, at) && Concat(Tokens(cl, s, at)) == s
    decreases |s|
  {
    hide Next, AsciiRight;
    if s != [] {
      Progress(cl, s);
      var n := Next(cl, s).1;
      Lossless(cl, s[n..], at + n);
      assert s[..n] + s[n..] == s;
    }
    TilesConcat(Tokens(cl, s, at), s, at);
  }

  // ----- trivia runs are maximal -----

  lemma {:induction false} TriviaMaximal(s: string)
    ensures TriviaLen(s[TriviaLen(s)..]) == 0
    decreases |s|
  {
    hide CommentLen;
    if s != [] {
      var n := if Blank(s[0]) then 1 else CommentLen(s);
      if n > 0 {
        TriviaMaximal(s[n..]);
        assert s[n..][TriviaLen(s[n..])..] == s[TriviaLen(s)..];
      } else {
        assert s[0..] == s;
      }
    }
  }

  lemma KindByTrivia(cl: Classes, s: string)
    requires s != []
    ensures IsTrivia(Next(cl, s).0) <==> TriviaLen(s) > 0
    ensures TriviaLen(s) > 0 ==> Next(cl, s).1 == TriviaLen(s)
  {
    hide TriviaLen, QuotedLen, OperatorLen, SuffixLen, RadixNumber, AfterFraction, IsKeyword;
    if Digit(s[0]) {
      NumberKind(cl, s);
    }
  }

  lemma NumberKind(cl: Classes, s: string)
    ensures Number(cl, s).0.IntLit? || Number(cl, s).0.FloatLit?
  {
    hide SuffixLen, TakeWhile, FractionLen, ExponentHead, ExponentDigits;
  }

  ghost predicate Apart(tokens: seq<Token>) {
    forall j, k :: 0 <= j && k == j + 1 && k < |tokens| ==> !(IsTrivia(tokens[j].kind) && IsTrivia(tokens[k].kind))
  }

  lemma {:induction false} NoAdjacentTrivia(cl: Classes, s: string, at: nat)
    requires AsciiRight(cl)
    ensures Apart(Tokens(cl, s, at))
    decreases |s|
  {
    hide Next, AsciiRight, TriviaLen;
    if s != [] {
      Progress(cl, s);
      var n := Next(cl, s).1;
      var rest := Tokens(cl, s[n..], at + n);
      NoAdjacentTrivia(cl, s[n..], at + n);
      KindByTrivia(cl, s);
      TriviaMaximal(s);
      if s[n..] != [] {
        KindByTrivia(cl, s[n..]);
        FirstToken(cl, s[n..], at + n);
      }
    }
  }

  lemma FirstToken(cl: Classes, s: string, at: nat)
    requires AsciiRight(cl) && s != []
    ensures Tokens(cl, s, at) != [] && Tokens(cl, s, at)[0].kind == Next(cl, s).0
  {
    hide Next, AsciiRight;
  }

  // ----- what a scanner takes does not depend on what comes after -----

  lemma {:induction false} TakeWhileCut(s: string, p: char -> bool, n: nat)
    requires TakeWhile(s, p) <= n <= |s|
    ensures TakeWhile(s[..n], p) == TakeWhile(s, p)
  {
    if s != [] && p(s[0]) {
      assert s[..n][1..] == s[1..][..n - 1];
      TakeWhileCut(s[1..], p, n - 1);
    }
  }

  lemma {:induction false} BlockCut(s: string, depth: nat, n: nat)
    requires BlockLen(s, depth) <= n <= |s|
    ensures BlockLen(s[..n], depth) == BlockLen(s, depth)
    decreases |s|
  {
    if depth > 0 && s != [] {
      if Starts(s, '/', '*') {
        assert s[..n][2..] == s[2..][..n - 2];
        BlockCut(s[2..], depth + 1, n - 2);
      } else if Starts(s, '*', '/') {
        assert s[..n][2..] == s[2..][..n - 2];
        BlockCut(s[2..], depth - 1, n - 2);
      } else {
        assert s[..n][1..] == s[1..][..n - 1];
        BlockCut(s[1..], depth, n - 1);
      }
    }
  }

  lemma CommentCut(s: string, n: nat)
    requires CommentLen(s) <= n <= |s|
    ensures CommentLen(s[..n]) == CommentLen(s)
  {
    hide BlockLen, TakeWhile;
    if Starts(s, '/', '/') {
      assert s[..n][2..] == s[2..][..n - 2];
      TakeWhileCut(s[2..], NotNewline, n - 2);
    } else if Starts(s, '/', '*') {
      assert s[..n][2..] == s[2..][..n - 2];
      BlockCut(s[2..], 1, n - 2);
    }
  }

  lemma {:induction false} TriviaCut(s: string, n: nat)
    requires TriviaLen(s) <= n <= |s|
    ensures TriviaLen(s[..n]) == TriviaLen(s)
    decreases |s|
  {
    hide CommentLen;
    if s != [] {
      if Blank(s[0]) {
        assert s[..n][1..] == s[1..][..n - 1];
        TriviaCut(s[1..], n - 1);
      } else {
        var c := CommentLen(s);
        CommentCut(s, n);
        if c > 0 {
          assert s[..n][c..] == s[c..][..n - c];
          TriviaCut(s[c..], n - c);
        }
      }
    }
  }

  lemma {:induction false} QuotedCut(s: string, close: char, n: nat)
    requires QuotedLen(s, close) <= n <= |s|
    ensures QuotedLen(s[..n], close) == QuotedLen(s, close)
    decreases |s|
  {
    if s != [] && s[0] != close {
      if s[0] == '\\' && |s| > 1 {
        assert s[..n][2..] == s[2..][..n - 2];
        QuotedCut(s[2..], close, n - 2);
      } else {
        assert s[..n][1..] == s[1..][..n - 1];
        QuotedCut(s[1..], close, n - 1);
      }
    }
  }

  lemma SuffixCut(cl: Classes, s: string, n: nat)
    requires SuffixLen(cl, s) <= n <= |s|
    ensures SuffixLen(cl, s[..n]) == SuffixLen(cl, s)
  {
    TakeWhileCut(s, WordChars(cl), n);
  }

  lemma FractionCut(s: string, n: nat)
    requires FractionLen(s) <= n <= |s|
    ensures FractionLen(s[..n]) == FractionLen(s)
  {
    if |s| >= 2 && s[0] == '.' && Digit(s[1]) {
      FirstTaken(s[1..], DecimalPart);
      assert s[..n][1..] == s[1..][..n - 1];
      TakeWhileCut(s[1..], DecimalPart, n - 1);
    }
  }

  lemma CutDrop(s: string, n: nat, d: nat)
    requires d <= n <= |s|
    ensures s[..n][d..] == s[d..][..n - d]
  {
  }

  /** Also when the cut falls inside an exponent that is given back. */
  lemma TailCut(cl: Classes, s: string, isFloat: bool, n: nat)
    requires NumberTail(cl, s, isFloat).1 <= n <= |s|
    ensures NumberTail(cl, s[..n], isFloat) == NumberTail(cl, s, isFloat)
  {
    hide SuffixLen, TakeWhile;
    if !ExponentMark(s) {
      SuffixCut(cl, s, n);
    } else {
      var d := ExponentHead(s);
      var e := d + ExponentDigits(s[d..]);
      if e > d {
        CutDrop(s, n, d);
        CutDrop(s, n, e);
        DigitsCut(s[d..], n - d);
        SuffixCut(cl, s[e..], n - e);
      } else if n > 0 {
        var d' := ExponentHead(s[..n]);
        GivenBack(s, n);
      } else {
        assert s[..n] == [];
        NothingLeft(cl);
      }
    }
  }

  lemma NothingLeft(cl: Classes)
    ensures SuffixLen(cl, "") == 0
  {
  }

  lemma DigitsCut(s: string, n: nat)
    requires ExponentDigits(s) <= n <= |s| && ExponentDigits(s) > 0
    ensures ExponentDigits(s[..n]) == ExponentDigits(s)
  {
    TakeWhileCut(s, DecimalPart, n);
  }

  lemma GivenBack(s: string, n: nat)
    requires ExponentMark(s) && ExponentDigits(s[ExponentHead(s)..]) == 0 && 0 < n <= |s|
    ensures ExponentMark(s[..n]) && ExponentDigits(s[..n][ExponentHead(s[..n])..]) == 0
  {
    var d, d' := ExponentHead(s), ExponentHead(s[..n]);
    if d < |s| && Digit(s[d]) {
      FirstTaken(s[d..], DecimalPart);
    }
  }

  lemma RadixCut(cl: Classes, s: string, n: nat)
    requires RadixPrefix(s) && RadixNumber(cl, s).1 <= n <= |s|
    ensures RadixPrefix(s[..n]) && RadixNumber(cl, s[..n]) == RadixNumber(cl, s)
  {
    hide TakeWhile, SuffixLen;
    var a := 2 + TakeWhile(s[2..], RadixPart(s[1]));
    assert s[..n][2..] == s[2..][..n - 2] && s[..n][a..] == s[a..][..n - a];
    TakeWhileCut(s[2..], RadixPart(s[1]), n - 2);
    SuffixCut(cl, s[a..], n - a);
  }

  lemma DecimalCut(cl: Classes, s: string, n: nat)
    requires DecimalNumber(cl, s).1 <= n <= |s|
    ensures DecimalNumber(cl, s[..n]) == DecimalNumber(cl, s)
  {
    hide TakeWhile, FractionLen, NumberTail;
    var a := TakeWhile(s, DecimalPart);
    TakeWhileCut(s, DecimalPart, n);
    var f := FractionLen(s[a..]);
    var b := a + f;
    assert s[..n][a..] == s[a..][..n - a];
    assert DecimalNumber(cl, s) == AfterFraction(cl, s, b, f > 0);
    FractionCut(s[a..], n - a);
    assert s[..n][b..] == s[b..][..n - b];
    TailCut(cl, s[b..], f > 0, n - b);
  }

  lemma NumberCut(cl: Classes, s: string, n: nat)
    requires Number(cl, s).1 <= n <= |s|
    ensures Number(cl, s[..n]) == Number(cl, s)
  {
    hide RadixNumber, DecimalNumber;
    if RadixPrefix(s) {
      RadixCut(cl, s, n);
    } else {
      DecimalCut(cl, s, n);
    }
  }

  /** A word's characters are neither quotes nor backslashes. */
  lemma {:induction false} QuotedSkipsWord(cl: Classes, s: string)
    requires AsciiRight(cl) && SuffixLen(cl, s) < |s| && s[SuffixLen(cl, s)] == '\''
    ensures QuotedLen(s, '\'') == SuffixLen(cl, s) + 1
    decreases |s|
  {
    if WordPart(cl, s[0]) {
      assert SuffixLen(cl, s) == 1 + SuffixLen(cl, s[1..]);
      QuotedSkipsWord(cl, s[1..]);
    }
  }

  lemma QuoteCut(cl: Classes, s: string)
    requires AsciiRight(cl) && s != [] && s[0] == '\''
    ensures var n := Quote(cl, s).1; Quote(cl, s[..n]) == Quote(cl, s)
  {
    hide AsciiRight, SuffixLen, QuotedLen, WordStart;
    var n := Quote(cl, s).1;
    if |s| > 1 {
      QuotedSome(s);
    }
    if |s| > 1 && WordStart(cl, s[1]) {
      var m := 2 + SuffixLen(cl, s[2..]);
      if m < |s| && s[m] == '\'' {
        WordThenQuote(cl, s);
      }
      assert s[..n][2..] == s[2..][..n - 2];
      SuffixCut(cl, s[2..], n - 2);
    }
    if Quote(cl, s).0.CharLit? {
      assert s[..n][1..] == s[1..][..n - 1];
      QuotedCut(s[1..], '\'', n - 1);
    }
  }

  lemma QuotedSome(s: string)
    requires |s| > 1
    ensures QuotedLen(s[1..], '\'') >= 1
  {
  }

  lemma WordThenQuote(cl: Classes, s: string)
    requires AsciiRight(cl) && |s| > 1 && WordStart(cl, s[1])
    requires var m := 2 + SuffixLen(cl, s[2..]); m < |s| && s[m] == '\''
    ensures QuotedLen(s[1..], '\'') == 2 + SuffixLen(cl, s[2..])
  {
    assert s[1..][1..] == s[2..];
    assert SuffixLen(cl, s[1..]) == 1 + SuffixLen(cl, s[2..]);
    QuotedSkipsWord(cl, s[1..]);
  }

  lemma WordCut(cl: Classes, s: string)
    requires AsciiRight(cl) && s != [] && (AsciiLetter(s[0]) || s[0] == '_')
    ensures var n := Word(cl, s).1; Word(cl, s[..n]) == Word(cl, s)
  {
    hide LookupKeyword, QuotedLen;
    var n := Word(cl, s).1;
    if |s| > 1 && (s[0] == 'b' || s[0] == 'B') && (s[1] == '\'' || s[1] == '"') {
      assert s[..n][2..] == s[2..][..n - 2];
      QuotedCut(s[2..], s[1], n - 2);
    } else {
      SuffixCut(cl, s, n);
      assert s[..n][..n] == s[..n];
      if n > 1 {
        TakenPart(s, WordChars(cl), 1);
      }
    }
  }

  lemma {:induction false} TakenPart(s: string, p: char -> bool, k: nat)
    requires k < TakeWhile(s, p)
    ensures k < |s| && p(s[k])
  {
    if k > 0 {
      TakenPart(s[1..], p, k - 1);
    }
  }

  lemma OperatorCut(s: string)
    requires s != []
    ensures OperatorLen(s[..OperatorLen(s)]) == OperatorLen(s)
  {
  }

  /** The next token is the same when everything after it is cut off. */
  lemma NextCut(cl: Classes, s: string)
    requires AsciiRight(cl) && s != []
    ensures var n := Next(cl, s).1; n >= 1 && Next(cl, s[..n]) == Next(cl, s)
  {
    hide AsciiRight, TriviaLen, Word, Number, QuotedLen, Quote, OperatorLen, TriviaKind;
    Progress(cl, s);
    var n := Next(cl, s).1;
    TriviaCut(s, n);
    assert s[..n][..n] == s[..n];
    if TriviaLen(s) == 0 {
      if AsciiLetter(s[0]) || s[0] == '_' {
        WordCut(cl, s);
      } else if Digit(s[0]) {
        NumberCut(cl, s, n);
      } else if s[0] == '"' {
        assert s[..n][1..] == s[1..][..n - 1];
        QuotedCut(s[1..], '"', n - 1);
      } else if s[0] == '\'' {
        QuoteCut(cl, s);
      } else if OperatorStart(s[0]) {
        OperatorCut(s);
      }
    }
  }

  /** Scanning the text of one token alone gives that token and nothing else. */
  lemma {:induction false} SelfDelimiting(cl: Classes, s: string, at: nat, k: nat)
    requires AsciiRight(cl) && k < |Tokens(cl, s, at)|
    ensures var t := Tokens(cl, s, at)[k]; Tokens(cl, t.text, 0) == [Token(t.kind, 0, t.text)]
    decreases |s|
  {
    hide Next, AsciiRight;
    Progress(cl, s);
    var n := Next(cl, s).1;
    if k == 0 {
      NextCut(cl, s);
      assert s[..n][..n] == s[..n] && s[..n][n..] == [];
      assert Tokens(cl, "", n) == [];
    } else {
      SelfDelimiting(cl, s[n..], at + n, k - 1);
    }
  }

  // ----- operators -----

  /** The language's operators, by their text. */
  predicate IsOperator(op: string) {
    || (|op| == 1 && OperatorStart(op[0]))
    || op == ".." || op == "..=" || op == "::" || op == "+=" || op == "->" || op == "-=" || op == "*=" || op == "/="
    || op == "%=" || op == "==" || op == "=>" || op == "!=" || op == "<=" || op == "<<" || op == "<<=" || op == ">="
    || op == ">>" || op == ">>=" || op == "&&" || op == "&=" || op == "||" || op == "|=" || op == "^="
  }

  lemma OperatorTaken(s: string)
    requires s != [] && OperatorStart(s[0])
    ensures IsOperator(s[..OperatorLen(s)])
  {
    var n := OperatorLen(s);
    if n == 2 {
      assert s[..n] == [s[0], s[1]];
    } else if n == 3 {
      assert s[..n] == [s[0], s[1], s[2]];
    }
  }

  lemma NoLongerOperator(s: string, op: string)
    requires s != [] && OperatorStart(s[0]) && IsOperator(op) && op <= s
    ensures |op| <= OperatorLen(s)
  {
    assert forall k :: 0 <= k < |op| ==> op[k] == s[k];
  }

  /** The operator scanner takes the longest operator at the front. */
  lemma LongestOperator(s: string, op: string)
    requires s != [] && OperatorStart(s[0])
    ensures IsOperator(s[..OperatorLen(s)])
    ensures IsOperator(op) && op <= s ==> |op| <= OperatorLen(s)
  {
    hide IsOperator, OperatorLen;
    OperatorTaken(s);
    if IsOperator(op) && op <= s {
      NoLongerOperator(s, op);
    }
  }
}
