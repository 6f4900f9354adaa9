/**
What the text of each kind of token looks like, told by its characters and not by the scanner
(crates/glyim-frontend/src/lexer.rs).
*/
module TokenGrammar {
  import opened Lexer
  import LC = LexerCorrectness

  function Joined(parts: seq<string>): string {
    if parts == [] then "" else parts[0] + Joined(parts[1..])
  }

  predicate AllOf(s: string, p: char -> bool) {
    forall k :: 0 <= k < |s| ==> p(s[k])
  }

  // ----- comments -----

  predicate MarkAt(s: string) {
    |s| >= 2 && (s[..2] == "/*" || s[..2] == "*/")
  }

  /** How many more comments these parts open than they close. */
  function Level(parts: seq<string>): int {
    if parts == [] then 0
    else (if parts[0] == "/*" then 1 else if parts[0] == "*/" then -1 else 0) + Level(parts[1..])
  }

  /** Opening and closing marks, and single characters where none begins. */
  ghost predicate Cut(parts: seq<string>, rest: string) {
    forall k :: 0 <= k < |parts| ==>
      parts[k] == "/*" || parts[k] == "*/" || (|parts[k]| == 1 && !MarkAt(Joined(parts[k..]) + rest))
  }

  /** The rest of a comment inside `depth` others: it ends where all are closed, or with the source. */
  ghost predicate Closes(parts: seq<string>, depth: nat, rest: string) {
    && Cut(parts, rest)
    && (forall k :: 0 <= k < |parts| ==> depth + Level(parts[..k]) > 0)
    && (depth + Level(parts) == 0 || rest == "")
  }

  ghost predicate BlockPiece(s: string, rest: string) {
    exists parts :: s == "/*" + Joined(parts) && Closes(parts, 1, rest)
  }

  predicate LinePiece(s: string, rest: string) {
    |s| >= 2 && s[..2] == "//" && AllOf(s, c => c != '\n') && (rest == "" || rest[0] == '\n')
  }

  predicate BlankPiece(s: string) {
    s == " " || s == "\t" || s == "\n" || s == "\r"
  }

  ghost predicate TriviaPiece(s: string, rest: string) {
    BlankPiece(s) || LinePiece(s, rest) || BlockPiece(s, rest)
  }

  ghost predicate TriviaPieces(pieces: seq<string>, rest: string) {
    forall k :: 0 <= k < |pieces| ==> TriviaPiece(pieces[k], Joined(pieces[k + 1..]) + rest)
  }

  /** Blanks and comments one after the other, and no more of them. */
  ghost predicate TriviaText(s: string, rest: string) {
    && (exists pieces :: s == Joined(pieces) && TriviaPieces(pieces, rest) && pieces != [])
    && !(rest != "" && BlankPiece(rest[..1])) && !(|rest| >= 2 && (rest[..2] == "//" || rest[..2] == "/*"))
  }

  /** Length of the first part, and the depth after it. */
  function FirstPart(s: string): nat {
    if MarkAt(s) then 2 else 1
  }

  function DepthAfter(s: string, depth: nat): nat
    requires depth > 0
  {
    if |s| >= 2 && s[..2] == "/*" then depth + 1 else if MarkAt(s) then depth - 1 else depth
  }

  lemma BlockStep(s: string, depth: nat)
    requires s != [] && depth > 0
    ensures var m := FirstPart(s);
            1 <= m <= |s| && BlockLen(s, depth) == m + BlockLen(s[m..], DepthAfter(s, depth))
    ensures DepthAfter(s, depth) == 0 ==> BlockLen(s[FirstPart(s)..], 0) == 0
  {
  }

  lemma {:induction false} BlockCloses(s: string, depth: nat) returns (parts: seq<string>)
    requires depth > 0
    ensures Joined(parts) == s[..BlockLen(s, depth)] && Closes(parts, depth, s[BlockLen(s, depth)..])
    decreases |s|
  {
    hide Closes, BlockLen, Joined, FirstPart, DepthAfter;
    if s == [] {
      parts := [];
      NothingCloses(s, depth);
    } else {
      var m, next := FirstPart(s), DepthAfter(s, depth);
      BlockStep(s, depth);
      var tail := [];
      if next > 0 {
        tail := BlockCloses(s[m..], next);
      } else {
        ClosedNow(s[m..]);
      }
      parts := [s[..m]] + tail;
      PartInFront(s, tail, depth, BlockLen(s, depth));
    }
  }

  lemma PartInFront(s: string, tail: seq<string>, depth: nat, n: nat)
    requires s != [] && depth > 0
    requires var m := FirstPart(s);
             && m <= n <= |s| && Joined(tail) == s[m..][..n - m]
             && Closes(tail, DepthAfter(s, depth), s[m..][n - m..])
    ensures FirstPart(s) <= |s| && Joined([s[..FirstPart(s)]] + tail) == s[..n]
    ensures Closes([s[..FirstPart(s)]] + tail, depth, s[n..])
  {
    hide Closes;
    var m := FirstPart(s);
    var parts := [s[..m]] + tail;
    assert parts[1..] == tail && s[m..][n - m..] == s[n..];
    assert s[..n] == s[..m] + s[m..][..n - m];
    assert s == s[..n] + s[n..];
    OneMore(s[..m], tail, depth, DepthAfter(s, depth), s[n..], s);
  }

  lemma NothingCloses(s: string, depth: nat)
    requires s == []
    ensures BlockLen(s, depth) == 0 && Closes([], depth, s) && Joined([]) == s
  {
  }

  lemma ClosedNow(rest: string)
    ensures Closes([], 0, rest) && Joined([]) == ""
  {
  }

  lemma OneMore(first: string, tail: seq<string>, depth: nat, next: nat, rest: string, s: string)
    requires depth > 0 && Closes(tail, next, rest) && s == first + Joined(tail) + rest
    requires if |first| == 2 then first == "/*" || first == "*/" else |first| == 1 && !MarkAt(s)
    requires next == depth + (if first == "/*" then 1 else if first == "*/" then -1 else 0)
    ensures Closes([first] + tail, depth, rest)
  {
    var parts := [first] + tail;
    assert parts[1..] == tail && Joined(parts) == first + Joined(tail);
    forall k | 0 <= k < |parts|
      ensures parts[k] == "/*" || parts[k] == "*/" || (|parts[k]| == 1 && !MarkAt(Joined(parts[k..]) + rest))
      ensures depth + Level(parts[..k]) > 0
    {
      if k == 0 {
        assert parts[0..] == parts;
      } else {
        assert parts[k..] == tail[k - 1..] && parts[..k] == [first] + tail[..k - 1];
        assert parts[..k][1..] == tail[..k - 1];
      }
    }
  }

  // ----- blanks and comments together -----

  lemma {:induction false} TakenAll(s: string, p: char -> bool)
    ensures AllOf(s[..TakeWhile(s, p)], p) && (TakeWhile(s, p) < |s| ==> !p(s[TakeWhile(s, p)]))
    decreases |s|
  {
    if s != [] && p(s[0]) {
      TakenAll(s[1..], p);
      var n := TakeWhile(s[1..], p);
      var t := s[..n + 1];
      forall k | 0 <= k < |t|
        ensures p(t[k])
      {
        assert k > 0 ==> t[k] == s[1..][..n][k - 1];
      }
    }
  }

  lemma CommentIsPiece(s: string)
    requires CommentLen(s) > 0
    ensures TriviaPiece(s[..CommentLen(s)], s[CommentLen(s)..])
  {
    hide BlockLen, TakeWhile;
    var n := CommentLen(s);
    if Starts(s, '/', '/') {
      TakenAll(s[2..], NotNewline);
      assert s[..n] == s[..2] + s[2..][..n - 2];
      assert forall k :: 2 <= k < n ==> s[..n][k] == s[2..][..n - 2][k - 2];
    } else {
      var parts := BlockCloses(s[2..], 1);
      assert s[..n] == "/*" + s[2..][..n - 2] && s[2..][n - 2..] == s[n..];
    }
  }

  lemma {:induction false} TriviaIsPieces(s: string) returns (pieces: seq<string>)
    ensures Joined(pieces) == s[..TriviaLen(s)] && TriviaPieces(pieces, s[TriviaLen(s)..])
    ensures TriviaLen(s) > 0 ==> pieces != []
    decreases |s|
  {
    hide CommentLen, TriviaPiece, Joined;
    pieces := [];
    var m := if s != [] && Blank(s[0]) then 1 else CommentLen(s);
    TriviaStep(s);
    if m > 0 {
      var tail := TriviaIsPieces(s[m..]);
      if Blank(s[0]) {
        BlankIsPiece(s);
      } else {
        CommentIsPiece(s);
      }
      pieces := [s[..m]] + tail;
      PieceInFront(s, m, tail, TriviaLen(s));
    } else {
      NoPieces(s);
    }
  }

  lemma NoPieces(s: string)
    ensures Joined([]) == s[..0]
  {
  }

  lemma BlankIsPiece(s: string)
    requires s != [] && Blank(s[0])
    ensures TriviaPiece(s[..1], s[1..])
  {
    assert s[..1] == [s[0]];
  }

  lemma TriviaStep(s: string)
    ensures var m := if s != [] && Blank(s[0]) then 1 else CommentLen(s);
            m <= |s| && TriviaLen(s) == if m > 0 then m + TriviaLen(s[m..]) else 0
  {
    hide CommentLen;
    if s == [] {
      NoComment(s);
    }
  }

  lemma NoComment(s: string)
    requires |s| < 2
    ensures CommentLen(s) == 0
  {
  }

  lemma PieceInFront(s: string, m: nat, tail: seq<string>, n: nat)
    requires 0 < m <= n <= |s| && Joined(tail) == s[m..][..n - m] && TriviaPieces(tail, s[m..][n - m..])
    requires TriviaPiece(s[..m], s[m..])
    ensures Joined([s[..m]] + tail) == s[..n] && TriviaPieces([s[..m]] + tail, s[n..])
  {
    hide TriviaPiece;
    var pieces := [s[..m]] + tail;
    assert pieces[1..] == tail && s[m..][n - m..] == s[n..] && s[m..] == s[m..][..n - m] + s[n..];
    assert s[..n] == s[..m] + s[m..][..n - m];
    forall k | 0 <= k < |pieces|
      ensures TriviaPiece(pieces[k], Joined(pieces[k + 1..]) + s[n..])
    {
      assert pieces[k + 1..] == tail[k..];
      if k == 0 {
        assert tail[0..] == tail;
      } else {
        assert tail[k - 1..][1..] == tail[k..] && pieces[k] == tail[k - 1];
      }
    }
  }

  lemma {:induction false} NoMoreTrivia(s: string)
    ensures var rest := s[TriviaLen(s)..];
            && !(rest != "" && BlankPiece(rest[..1])) && !(|rest| >= 2 && (rest[..2] == "//" || rest[..2] == "/*"))
    decreases |s|
  {
    hide CommentLen, TriviaLen, BlankPiece;
    var m := if s != [] && Blank(s[0]) then 1 else CommentLen(s);
    TriviaStep(s);
    if m > 0 {
      NoMoreTrivia(s[m..]);
      assert s[m..][TriviaLen(s[m..])..] == s[TriviaLen(s)..];
    } else {
      assert s[0..] == s;
      CommentSeen(s);
      BlankSeen(s);
    }
  }

  lemma BlankSeen(s: string)
    ensures s != "" && BlankPiece(s[..1]) ==> Blank(s[0])
  {
    assert s != "" ==> s[..1] == [s[0]];
  }

  lemma CommentSeen(s: string)
    ensures |s| >= 2 && (s[..2] == "//" || s[..2] == "/*") ==> CommentLen(s) > 0
  {
  }

  lemma TriviaIs(s: string)
    requires TriviaLen(s) > 0
    ensures TriviaText(s[..TriviaLen(s)], s[TriviaLen(s)..])
  {
    hide TriviaLen, TriviaPieces, BlankPiece;
    var pieces := TriviaIsPieces(s);
    NoMoreTrivia(s);
  }

  // ----- quoted texts -----

  /** The character at k stands behind a backslash that does not itself stand behind one. */
  predicate Protected(s: string, k: nat)
    requires k <= |s|
    decreases k
  {
    k > 0 && s[k - 1] == '\\' && !Protected(s, k - 1)
  }

  /** What follows the opening quote: it ends with the first closing quote not protected, or with the source. */
  predicate QuotedText(s: string, close: char, rest: string) {
    && (forall k :: 0 <= k < |s| - 1 && s[k] == close ==> Protected(s, k))
    && if s != "" && s[|s| - 1] == close && !Protected(s, |s| - 1) then true else rest == ""
  }

  lemma {:induction false} ProtectedShift(s: string, m: nat, k: nat)
    requires m <= k <= |s| && !Protected(s, m)
    ensures Protected(s, k) == Protected(s[m..], k - m)
    decreases k
  {
    if k > m {
      ProtectedShift(s, m, k - 1);
    }
  }

  /** A backslash and the character it protects, or one character. */
  function QuotedPart(s: string): nat {
    if |s| > 1 && s[0] == '\\' then 2 else 1
  }

  lemma QuotedStep(s: string, close: char)
    requires s != [] && s[0] != close
    ensures var m := QuotedPart(s); 1 <= m <= |s| && QuotedLen(s, close) == m + QuotedLen(s[m..], close)
  {
  }

  lemma {:induction false} QuotedIs(s: string, close: char)
    requires close != '\\'
    ensures QuotedText(s[..QuotedLen(s, close)], close, s[QuotedLen(s, close)..])
    decreases |s|
  {
    hide QuotedLen, QuotedText, QuotedPart;
    if s == [] || s[0] == close {
      QuotedEnd(s, close);
    } else {
      QuotedStep(s, close);
      QuotedIs(s[QuotedPart(s)..], close);
      QuotedLonger(s, close, QuotedLen(s, close));
    }
  }

  lemma QuotedEnd(s: string, close: char)
    requires s == [] || s[0] == close
    ensures QuotedText(s[..QuotedLen(s, close)], close, s[QuotedLen(s, close)..])
  {
  }

  lemma QuotedLonger(s: string, close: char, n: nat)
    requires close != '\\' && s != [] && s[0] != close && QuotedPart(s) <= n <= |s|
    requires var m := QuotedPart(s); QuotedText(s[m..][..n - m], close, s[m..][n - m..])
    ensures QuotedText(s[..n], close, s[n..])
  {
    hide QuotedText;
    var m, t := QuotedPart(s), s[..n];
    assert s[m..][..n - m] == t[m..] && s[m..][n - m..] == s[n..];
    if s[0] == '\\' && |s| == 1 {
      LoneBackslash(s, close);
    } else {
      PartQuoted(t, m, close, s[n..]);
    }
  }

  lemma LoneBackslash(s: string, close: char)
    requires |s| == 1 && s[0] != close
    ensures QuotedText(s[..1], close, s[1..])
  {
    assert s[..1] == s && s[1..] == [];
  }

  lemma PartQuoted(t: string, m: nat, close: char, rest: string)
    requires close != '\\' && 1 <= m <= 2 && m <= |t| && t[0] != close
    requires if m == 2 then t[0] == '\\' else t[0] != '\\'
    requires QuotedText(t[m..], close, rest)
    ensures QuotedText(t, close, rest)
  {
    assert !Protected(t, m) by {
      assert !Protected(t, 0);
      assert Protected(t, 1) <==> t[0] == '\\';
    }
    forall k | m <= k <= |t|
      ensures Protected(t, k) == Protected(t[m..], k - m)
    {
      ProtectedShift(t, m, k);
    }
    forall k | 0 <= k < |t| - 1 && t[k] == close
      ensures Protected(t, k)
    {
      if k >= m {
        assert t[m..][k - m] == close;
      }
    }
  }

  // ----- words and numbers -----

  /** The longest run of such characters from i on ends at j. */
  predicate Spans(s: string, i: nat, j: nat, p: char -> bool) {
    i <= j <= |s| && (forall k :: i <= k < j ==> p(s[k])) && (j == |s| || !p(s[j]))
  }

  lemma SpanTaken(s: string, i: nat, p: char -> bool)
    requires i <= |s|
    ensures Spans(s, i, i + TakeWhile(s[i..], p), p)
  {
    hide TakeWhile;
    var t, n := s[i..], TakeWhile(s[i..], p);
    TakenAll(t, p);
    forall k | i <= k < i + n
      ensures p(s[k])
    {
      assert t[..n][k - i] == s[k];
    }
  }

  predicate WordAt(cl: Classes, s: string, n: nat) {
    0 < n <= |s| && (AsciiLetter(s[0]) || s[0] == '_') && Spans(s, 0, n, WordChars(cl))
  }

  predicate Reserved(s: string) {
    || s == "as" || s == "async" || s == "await" || s == "break" || s == "comptime" || s == "const" || s == "continue"
    || s == "crate" || s == "dyn" || s == "else" || s == "enum" || s == "extern" || s == "false" || s == "fn"
    || s == "for" || s == "if" || s == "impl" || s == "in" || s == "let" || s == "loop" || s == "macro"
    || s == "macro_rules" || s == "match" || s == "mod" || s == "move" || s == "mut" || s == "priv" || s == "pub"
    || s == "ref" || s == "return" || s == "self" || s == "static" || s == "struct" || s == "super" || s == "trait"
    || s == "true" || s == "type" || s == "unsafe" || s == "use" || s == "where" || s == "while"
  }

  lemma ReservedWords(s: string)
    ensures IsKeyword(s) <==> Reserved(s)
  {
  }

  predicate RadixAt(s: string) {
    |s| >= 2 && s[0] == '0' && s[1] in "xXbBoO"
  }

  predicate RadixDigit(mark: char, c: char) {
    || c == '_'
    || (mark in "bB" && c in "01") || (mark in "oO" && c in "01234567")
    || (mark in "xX" && (c in "0123456789" || c in "abcdefABCDEF"))
  }

  /** Prefix, digits of the radix up to a, and a suffix. */
  predicate RadixParts(cl: Classes, s: string, n: nat, a: nat) {
    RadixAt(s) && Spans(s, 2, a, c => RadixDigit(s[1], c)) && Spans(s, a, n, WordChars(cl))
  }

  /** A point and a digit: two points or a method call are no fraction. */
  predicate FractionAt(s: string, i: nat) {
    i + 1 < |s| && s[i] == '.' && Digit(s[i + 1])
  }

  predicate Fraction(s: string, i: nat, j: nat) {
    if FractionAt(s, i) then Spans(s, i + 1, j, DecimalPart) else j == i
  }

  /** Mark, perhaps a sign, and a digit. */
  predicate MarkOfExponent(s: string, i: nat) {
    i < |s| && (s[i] == 'e' || s[i] == 'E')
  }

  function SignedDigits(s: string, i: nat): nat {
    if i + 1 < |s| && (s[i + 1] == '+' || s[i + 1] == '-') then i + 2 else i + 1
  }

  predicate Exponent(s: string, i: nat, j: nat) {
    var d := SignedDigits(s, i);
    if MarkOfExponent(s, i) && d < |s| && Digit(s[d]) then Spans(s, d, j, DecimalPart) else j == i
  }

  /** After a mark without digits nothing more belongs to the number. */
  predicate Suffix(cl: Classes, s: string, i: nat, j: nat, hasExponent: bool) {
    if !hasExponent && MarkOfExponent(s, i) then j == i else Spans(s, i, j, WordChars(cl))
  }

  /** Digits up to a, fraction up to b, exponent up to c and suffix up to n. */
  predicate DecimalParts(cl: Classes, s: string, n: nat, isFloat: bool, a: nat, b: nat, c: nat) {
    && 0 < a <= b <= c <= n <= |s| && Digit(s[0]) && Spans(s, 0, a, DecimalPart)
    && Fraction(s, a, b) && Exponent(s, b, c) && Suffix(cl, s, c, n, c > b) && isFloat == (c > a)
  }

  ghost predicate NumberAt(cl: Classes, s: string, n: nat, isFloat: bool) {
    if RadixAt(s) then !isFloat && exists a :: RadixParts(cl, s, n, a)
    else exists a, b, c :: DecimalParts(cl, s, n, isFloat, a, b, c)
  }

  lemma FractionIs(s: string, i: nat)
    requires i <= |s|
    ensures Fraction(s, i, i + FractionLen(s[i..])) && FractionLen(s[i..]) <= |s| - i
  {
    hide TakeWhile;
    if FractionAt(s, i) {
      assert s[i..][1..] == s[i + 1..];
      SpanTaken(s, i + 1, DecimalPart);
    }
  }

  /** How long the exponent is. */
  function ExponentLen(s: string): (n: nat)
    ensures n <= |s|
  {
    if !ExponentMark(s) then 0
    else
      var d := ExponentHead(s);
      var e := ExponentDigits(s[d..]);
      if e == 0 then 0 else d + e
  }

  lemma ExponentIs(s: string, i: nat)
    requires i <= |s|
    ensures Exponent(s, i, i + ExponentLen(s[i..]))
  {
    hide TakeWhile;
    var t := s[i..];
    if ExponentMark(t) {
      var d := ExponentHead(t);
      assert t[d..] == s[i + d..];
      SpanTaken(s, i + d, DecimalPart);
      if t[d..] != [] && Digit(t[d..][0]) {
        FirstTaken(t[d..], DecimalPart);
      }
    }
  }

  lemma SuffixIs(cl: Classes, s: string, i: nat, isFloat: bool)
    requires i <= |s|
    ensures var (kind, n) := NumberTail(cl, s[i..], isFloat);
            var e := ExponentLen(s[i..]);
            && e <= n && i + n <= |s| && Suffix(cl, s, i + e, i + n, e > 0)
            && kind == if isFloat || e > 0 then FloatLit else IntLit
  {
    hide TakeWhile;
    var t := s[i..];
    var e := ExponentLen(t);
    if ExponentMark(t) && e > 0 {
      assert t[e..] == s[i + e..];
      SpanTaken(s, i + e, WordChars(cl));
    } else {
      SpanTaken(s, i, WordChars(cl));
    }
  }

  lemma DecimalIs(cl: Classes, s: string)
    requires s != [] && Digit(s[0]) && !RadixPrefix(s)
    ensures var (kind, n) := DecimalNumber(cl, s);
            (kind.IntLit? || kind.FloatLit?) && NumberAt(cl, s, n, kind.FloatLit?)
  {
    hide TakeWhile, NumberTail, FractionLen, ExponentLen, Fraction, Exponent, Suffix, Spans;
    var (kind, n) := DecimalNumber(cl, s);
    var a := TakeWhile(s, DecimalPart);
    var b := a + FractionLen(s[a..]);
    var c := b + ExponentLen(s[b..]);
    assert s[0..] == s;
    FirstTaken(s, DecimalPart);
    SpanTaken(s, 0, DecimalPart);
    FractionIs(s, a);
    ExponentIs(s, b);
    SuffixIs(cl, s, b, b > a);
    assert DecimalParts(cl, s, n, kind.FloatLit?, a, b, c);
  }

  lemma RadixIs(cl: Classes, s: string)
    requires RadixPrefix(s)
    ensures RadixNumber(cl, s).0 == IntLit && NumberAt(cl, s, RadixNumber(cl, s).1, false)
  {
    hide TakeWhile;
    var n := RadixNumber(cl, s).1;
    var a := 2 + TakeWhile(s[2..], RadixPart(s[1]));
    SpanTaken(s, 2, RadixPart(s[1]));
    SpanTaken(s, a, WordChars(cl));
    forall c: char
      ensures RadixPart(s[1])(c) == RadixDigit(s[1], c)
    {
    }
    assert RadixParts(cl, s, n, a);
  }

  // ----- every token -----

  ghost predicate BeginsTrivia(s: string, n: nat) {
    0 < n <= |s| && TriviaText(s[..n], s[n..])
  }

  /** After the opening quote, up to the closing one. */
  predicate QuotedFrom(s: string, i: nat, n: nat, close: char) {
    i <= n <= |s| && QuotedText(s[i..n], close, s[n..])
  }

  /** A name behind a quote that no quote follows. */
  predicate LifetimeAt(cl: Classes, s: string, n: nat) {
    && 2 <= n <= |s| && s[0] == '\'' && WordStart(cl, s[1]) && Spans(s, 2, n, WordChars(cl))
    && !(n < |s| && s[n] == '\'')
  }

  /** The first n characters are a token of that kind, whatever comes next. */
  ghost predicate TokenAt(cl: Classes, kind: Kind, s: string, n: nat) {
    match kind
    case Whitespace => BeginsTrivia(s, n) && BlankPiece(s[..1])
    case LineComment => BeginsTrivia(s, n) && |s| >= 2 && s[..2] == "//"
    case BlockComment => BeginsTrivia(s, n) && |s| >= 2 && s[..2] == "/*"
    case Ident => WordAt(cl, s, n) && !Reserved(s[..n]) && s[..n] != "_"
    case Underscore => WordAt(cl, s, n) && s[..n] == "_"
    case Keyword(word) => WordAt(cl, s, n) && s[..n] == word && Reserved(word)
    case IntLit => n <= |s| && NumberAt(cl, s, n, false)
    case FloatLit => n <= |s| && NumberAt(cl, s, n, true)
    case StringLit => s != "" && s[0] == '"' && QuotedFrom(s, 1, n, '"')
    case CharLit =>
      && s != "" && s[0] == '\'' && QuotedFrom(s, 1, n, '\'')
      && !(exists m :: LifetimeAt(cl, s, m))
    case ByteLit =>
      && |s| >= 2 && (s[0] == 'b' || s[0] == 'B') && (s[1] == '\'' || s[1] == '"') && QuotedFrom(s, 2, n, s[1])
    case Lifetime => LifetimeAt(cl, s, n)
    case Punct(op) =>
      && 0 < n <= |s| && s[..n] == op && LC.IsOperator(op)
      && forall longer :: LC.IsOperator(longer) && longer <= s ==> |longer| <= n
    case Error => s != "" && n == 1 && Unknown(s[0])
  }

  /** No token begins so: neither a blank, a letter, a digit, a quote nor an operator. */
  predicate Unknown(c: char) {
    !BlankPiece([c]) && !AsciiLetter(c) && c != '_' && !Digit(c) && c != '"' && c != '\'' && !OperatorStart(c)
  }

  /** What the scanner finds at the front is a token of the kind it says. */
  lemma NextIsToken(cl: Classes, s: string)
    requires s != [] && AsciiRight(cl)
    ensures TokenAt(cl, Next(cl, s).0, s, Next(cl, s).1)
  {
    hide TriviaLen, Word, Number, Quote, OperatorLen, LC.IsOperator, TokenAt;
    var t := TriviaLen(s);
    if t > 0 {
      TriviaIs(s);
      TriviaToken(cl, s);
    } else if AsciiLetter(s[0]) || s[0] == '_' {
      WordToken(cl, s);
    } else if Digit(s[0]) {
      NumberToken(cl, s);
    } else if s[0] == '"' {
      StringToken(cl, s);
    } else if s[0] == '\'' {
      QuoteToken(cl, s);
    } else {
      OtherToken(cl, s);
    }
  }

  lemma TriviaToken(cl: Classes, s: string)
    requires TriviaLen(s) > 0 && TriviaText(s[..TriviaLen(s)], s[TriviaLen(s)..])
    ensures TokenAt(cl, TriviaKind(s[..TriviaLen(s)]), s, TriviaLen(s))
  {
    hide TriviaText, TriviaLen;
    TriviaStart(s);
    var n := TriviaLen(s);
    assert s[..1] == [s[0]];
    if |s| >= 2 && n >= 2 {
      assert s[..2] == [s[0], s[1]] && s[..n][0] == s[0] && s[..n][1] == s[1];
    }
  }

  lemma TriviaStart(s: string)
    requires TriviaLen(s) > 0
    ensures s != [] && (Blank(s[0]) || (CommentLen(s) > 0 && TriviaLen(s) >= 2))
  {
  }

  lemma WordToken(cl: Classes, s: string)
    requires s != [] && AsciiRight(cl) && (AsciiLetter(s[0]) || s[0] == '_')
    ensures TokenAt(cl, Word(cl, s).0, s, Word(cl, s).1)
  {
    hide TakeWhile, IsKeyword, Reserved, QuotedLen, QuotedText;
    if |s| > 1 && (s[0] == 'b' || s[0] == 'B') && (s[1] == '\'' || s[1] == '"') {
      QuotedIs(s[2..], s[1]);
      Behind(s, 2, QuotedLen(s[2..], s[1]));
    } else {
      var n := SuffixLen(cl, s);
      assert s[0..] == s;
      SpanTaken(s, 0, WordChars(cl));
      FirstTaken(s, WordChars(cl)) by {
        assert WordPart(cl, s[0]);
      }
      ReservedWords(s[..n]);
    }
  }

  lemma Behind(s: string, i: nat, n: nat)
    requires i + n <= |s|
    ensures s[i..][..n] == s[i..i + n] && s[i..][n..] == s[i + n..]
  {
  }

  lemma NumberToken(cl: Classes, s: string)
    requires s != [] && Digit(s[0])
    ensures TokenAt(cl, Number(cl, s).0, s, Number(cl, s).1)
  {
    hide NumberAt, RadixNumber, DecimalNumber;
    if RadixPrefix(s) {
      RadixIs(cl, s);
    } else {
      DecimalIs(cl, s);
    }
  }

  lemma StringToken(cl: Classes, s: string)
    requires s != [] && s[0] == '"'
    ensures TokenAt(cl, StringLit, s, 1 + QuotedLen(s[1..], '"'))
  {
    hide QuotedLen, QuotedText;
    QuotedIs(s[1..], '"');
    Behind(s, 1, QuotedLen(s[1..], '"'));
  }

  lemma QuoteToken(cl: Classes, s: string)
    requires s != [] && s[0] == '\''
    ensures TokenAt(cl, Quote(cl, s).0, s, Quote(cl, s).1)
  {
    hide QuotedLen, QuotedText, TakeWhile;
    QuotedIs(s[1..], '\'');
    Behind(s, 1, QuotedLen(s[1..], '\''));
    if |s| > 1 && WordStart(cl, s[1]) {
      SpanTaken(s, 2, WordChars(cl));
      var n := 2 + SuffixLen(cl, s[2..]);
      forall m | LifetimeAt(cl, s, m)
        ensures m == n
      {
        OneSpan(s, 2, m, n, WordChars(cl));
      }
    }
  }

  lemma OneSpan(s: string, i: nat, j: nat, k: nat, p: char -> bool)
    requires Spans(s, i, j, p) && Spans(s, i, k, p)
    ensures j == k
  {
  }

  lemma OtherToken(cl: Classes, s: string)
    requires s != [] && TriviaLen(s) == 0 && !AsciiLetter(s[0]) && s[0] != '_' && !Digit(s[0]) && s[0] != '"'
    requires s[0] != '\''
    ensures TokenAt(cl, Next(cl, s).0, s, Next(cl, s).1)
  {
    hide OperatorLen, LC.IsOperator, OperatorStart;
    if OperatorStart(s[0]) {
      forall op
        ensures LC.IsOperator(s[..OperatorLen(s)]) && (LC.IsOperator(op) && op <= s ==> |op| <= OperatorLen(s))
      {
        LC.LongestOperator(s, op);
      }
    } else {
      NotBlank(s);
    }
  }

  lemma NotBlank(s: string)
    requires s != [] && TriviaLen(s) == 0
    ensures !Blank(s[0]) && !BlankPiece([s[0]])
  {
  }

  /** The token stands at its place in what starts at offset `at` of the source. */
  ghost predicate TokenOf(cl: Classes, s: string, at: nat, t: Token) {
    && at <= t.start && t.start - at + |t.text| <= |s|
    && t.text <= s[t.start - at..] && TokenAt(cl, t.kind, s[t.start - at..], |t.text|)
  }

  lemma TokenFurther(cl: Classes, s: string, at: nat, n: nat, t: Token)
    requires n <= |s| && TokenOf(cl, s[n..], at + n, t)
    ensures TokenOf(cl, s, at, t)
  {
    hide TokenAt;
    assert s[n..][t.start - at - n..] == s[t.start - at..];
  }

  /** So is every token of a source, at its place. */
  lemma {:induction false} TokensAreTokens(cl: Classes, s: string, at: nat, k: nat)
    requires AsciiRight(cl) && k < |Tokens(cl, s, at)|
    ensures TokenOf(cl, s, at, Tokens(cl, s, at)[k])
    decreases |s|
  {
    hide Next, TokenAt, TokenOf, AsciiRight;
    Progress(cl, s);
    var n := Next(cl, s).1;
    if k == 0 {
      NextIsToken(cl, s);
      FirstTokenOf(cl, s, at);
    } else {
      TokensAreTokens(cl, s[n..], at + n, k - 1);
      TokenFurther(cl, s, at, n, Tokens(cl, s[n..], at + n)[k - 1]);
    }
  }

  lemma FirstTokenOf(cl: Classes, s: string, at: nat)
    requires s != [] && TokenAt(cl, Next(cl, s).0, s, Next(cl, s).1)
    ensures TokenOf(cl, s, at, Token(Next(cl, s).0, at, s[..Next(cl, s).1]))
  {
    hide Next, TokenAt;
    assert s[0..] == s;
  }
}
