/** The hand-written scanner (crates/glyim-frontend/src/lexer.rs) on a sequence of characters. */
module Lexer {

  /** Punctuation kinds and keywords are named by their text. */
  datatype Kind =
    | Whitespace | LineComment | BlockComment
    | Ident | Underscore | Keyword(word: string)
    | IntLit | FloatLit | StringLit | CharLit | ByteLit
    | Lifetime
    | Punct(op: string)
    | Error

  datatype Token = Token(kind: Kind, start: nat, text: string)

  predicate IsTrivia(k: Kind) {
    k.Whitespace? || k.LineComment? || k.BlockComment?
  }

  /** The host language's tests on characters; beyond ASCII they are left open. */
  datatype Classes = Classes(alphabetic: char -> bool, numeric: char -> bool)

  predicate AsciiLetter(c: char) {
    'a' <= c <= 'z' || 'A' <= c <= 'Z'
  }

  predicate Digit(c: char) {
    '0' <= c <= '9'
  }

  ghost predicate AsciiRight(cl: Classes) {
    forall c: char :: c < '\U{0080}' ==> cl.alphabetic(c) == AsciiLetter(c) && cl.numeric(c) == Digit(c)
  }

  predicate WordStart(cl: Classes, c: char) {
    cl.alphabetic(c) || c == '_'
  }

  predicate WordPart(cl: Classes, c: char) {
    cl.alphabetic(c) || cl.numeric(c) || c == '_'
  }

  predicate HexPart(c: char) {
    Digit(c) || 'a' <= c <= 'f' || 'A' <= c <= 'F' || c == '_'
  }

  predicate BinaryPart(c: char) {
    c == '0' || c == '1' || c == '_'
  }

  predicate OctalPart(c: char) {
    '0' <= c <= '7' || c == '_'
  }

  predicate DecimalPart(c: char) {
    Digit(c) || c == '_'
  }

  predicate NotNewline(c: char) {
    c != '\n'
  }

  predicate Blank(c: char) {
    c == ' ' || c == '\t' || c == '\n' || c == '\r'
  }

  predicate Starts(s: string, a: char, b: char) {
    |s| >= 2 && s[0] == a && s[1] == b
  }

  // ----- how many characters each scanner takes from what is left -----

  function TakeWhile(s: string, p: char -> bool): (n: nat)
    ensures n <= |s|
  {
    if s == [] || !p(s[0]) then 0 else 1 + TakeWhile(s[1..], p)
  }

  /** The rest of a block comment that is `depth` levels deep. */
  function BlockLen(s: string, depth: nat): (n: nat)
    ensures n <= |s|
  {
    if depth == 0 || s == [] then 0
    else if Starts(s, '/', '*') then 2 + BlockLen(s[2..], depth + 1)
    else if Starts(s, '*', '/') then 2 + BlockLen(s[2..], depth - 1)
    else 1 + BlockLen(s[1..], depth)
  }

  /** A comment at the front, or nothing. */
  function CommentLen(s: string): (n: nat)
    ensures n <= |s| && n != 1
  {
    if Starts(s, '/', '/') then 2 + TakeWhile(s[2..], NotNewline)
    else if Starts(s, '/', '*') then 2 + BlockLen(s[2..], 1)
    else 0
  }

  /** Blanks and comments in any mixture. */
  function TriviaLen(s: string): (n: nat)
    ensures n <= |s|
    decreases |s|
  {
    if s == [] then 0
    else if Blank(s[0]) then 1 + TriviaLen(s[1..])
    else if CommentLen(s) > 0 then CommentLen(s) + TriviaLen(s[CommentLen(s)..])
    else 0
  }

  /** What follows an opening quote, up to and with the closing one; a backslash protects the next character. */
  function QuotedLen(s: string, close: char): (n: nat)
    ensures n <= |s|
    decreases |s|
  {
    if s == [] then 0
    else if s[0] == close then 1
    else if s[0] == '\\' && |s| > 1 then 2 + QuotedLen(s[2..], close)
    else 1 + QuotedLen(s[1..], close)
  }

  function WordChars(cl: Classes): char -> bool {
    c => WordPart(cl, c)
  }

  function SuffixLen(cl: Classes, s: string): (n: nat)
    ensures n <= |s|
  {
    TakeWhile(s, WordChars(cl))
  }

  /** A fraction needs a digit right after its point. */
  function FractionLen(s: string): (n: nat)
    ensures n <= |s|
  {
    if |s| >= 2 && s[0] == '.' && Digit(s[1]) then 1 + TakeWhile(s[1..], DecimalPart) else 0
  }

  predicate ExponentMark(s: string) {
    s != [] && (s[0] == 'e' || s[0] == 'E')
  }

  /** Mark and sign. */
  function ExponentHead(s: string): (n: nat)
    requires ExponentMark(s)
    ensures 1 <= n <= 2 && n <= |s|
  {
    if |s| >= 2 && (s[1] == '+' || s[1] == '-') then 2 else 1
  }

  /** An underscore does not count as the first digit of an exponent. */
  function ExponentDigits(s: string): (n: nat)
    ensures n <= |s|
  {
    if s != [] && Digit(s[0]) then TakeWhile(s, DecimalPart) else 0
  }

  predicate RadixPrefix(s: string) {
    |s| >= 2 && s[0] == '0' && s[1] in ['x', 'X', 'b', 'B', 'o', 'O']
  }

  function RadixPart(c: char): char -> bool {
    if c == 'x' || c == 'X' then HexPart else if c == 'b' || c == 'B' then BinaryPart else OctalPart
  }

  function FloatIf(isFloat: bool): Kind {
    if isFloat then FloatLit else IntLit
  }

  /** Exponent and suffix; a bad exponent is given back and ends the number without a suffix. */
  function NumberTail(cl: Classes, s: string, isFloat: bool): (r: (Kind, nat))
    ensures r.1 <= |s|
  {
    if !ExponentMark(s) then (FloatIf(isFloat), SuffixLen(cl, s))
    else
      var d := ExponentHead(s);
      var e := d + ExponentDigits(s[d..]);
      if e == d then (FloatIf(isFloat), 0) else (FloatLit, e + SuffixLen(cl, s[e..]))
  }

  function RadixNumber(cl: Classes, s: string): (r: (Kind, nat))
    requires RadixPrefix(s)
    ensures 2 <= r.1 <= |s|
  {
    var a := 2 + TakeWhile(s[2..], RadixPart(s[1]));
    (IntLit, a + SuffixLen(cl, s[a..]))
  }

  /** The tail of a decimal number whose first b characters are its digits and any fraction. */
  function AfterFraction(cl: Classes, s: string, b: nat, isFloat: bool): (r: (Kind, nat))
    requires b <= |s|
    ensures b <= r.1 <= |s|
  {
    (NumberTail(cl, s[b..], isFloat).0, b + NumberTail(cl, s[b..], isFloat).1)
  }

  function AfterDigits(cl: Classes, s: string, a: nat): (r: (Kind, nat))
    requires a <= |s|
    ensures a <= r.1 <= |s|
  {
    AfterFraction(cl, s, a + FractionLen(s[a..]), FractionLen(s[a..]) > 0)
  }

  function DecimalNumber(cl: Classes, s: string): (r: (Kind, nat))
    ensures TakeWhile(s, DecimalPart) <= r.1 <= |s|
  {
    AfterDigits(cl, s, TakeWhile(s, DecimalPart))
  }

  function Number(cl: Classes, s: string): (r: (Kind, nat))
    ensures r.1 <= |s|
  {
    if RadixPrefix(s) then RadixNumber(cl, s) else DecimalNumber(cl, s)
  }

  /** A quote opens a lifetime when a word follows that no quote closes, otherwise a character. */
  function Quote(cl: Classes, s: string): (r: (Kind, nat))
    requires s != []
    ensures 1 <= r.1 <= |s|
  {
    if |s| > 1 && WordStart(cl, s[1]) then
      var m := 2 + SuffixLen(cl, s[2..]);
      if m < |s| && s[m] == '\'' then (CharLit, 1 + QuotedLen(s[1..], '\'')) else (Lifetime, m)
    else (CharLit, 1 + QuotedLen(s[1..], '\''))
  }

  predicate IsKeyword(text: string) {
    || text == "fn" || text == "let" || text == "struct" || text == "enum" || text == "if" || text == "else"
    || text == "return" || text == "match" || text == "mod" || text == "comptime" || text == "self" || text == "super"
    || text == "crate" || text == "true" || text == "false" || text == "mut" || text == "move" || text == "ref"
    || text == "as" || text == "while" || text == "for" || text == "in" || text == "break" || text == "continue"
    || text == "loop" || text == "trait" || text == "impl" || text == "where" || text == "dyn" || text == "type"
    || text == "use" || text == "pub" || text == "priv" || text == "extern" || text == "unsafe" || text == "const"
    || text == "static" || text == "async" || text == "await" || text == "macro" || text == "macro_rules"
  }

  function LookupKeyword(text: string): Kind {
    if IsKeyword(text) then Keyword(text) else if text == "_" then Underscore else Ident
  }

  /** A word, or a byte literal when a lone b or B stands right before a quote. */
  function Word(cl: Classes, s: string): (r: (Kind, nat))
    requires s != []
    ensures r.1 <= |s|
  {
    if |s| > 1 && (s[0] == 'b' || s[0] == 'B') && (s[1] == '\'' || s[1] == '"') then
      (ByteLit, 2 + QuotedLen(s[2..], s[1]))
    else
      var n := SuffixLen(cl, s);
      (LookupKeyword(s[..n]), n)
  }

  /** The second character extends the operator to two. */
  predicate Doubles(a: char, b: char) {
    || (b == '=' && a in "+-*/%=!<>&|^")
    || (b == '>' && a in "-=>")
    || (a == b && a in ".:<&|")
  }

  /** A third `=` extends `..`, `<<` and `>>`. */
  function OperatorLen(s: string): (n: nat)
    requires s != []
    ensures 1 <= n <= |s|
  {
    if |s| == 1 || !Doubles(s[0], s[1]) then 1
    else if |s| > 2 && s[0] == s[1] && s[0] in ".<>" && s[2] == '=' then 3
    else 2
  }

  predicate OperatorStart(c: char) {
    c in "(){}[],;.:+-*/%=!<>&|^@#$~?"
  }

  /** Kind of the trivia run, by how it begins. */
  function TriviaKind(text: string): Kind {
    if Starts(text, '/', '*') then BlockComment else if Starts(text, '/', '/') then LineComment else Whitespace
  }

  /** Kind and length of the token at the front. */
  function Next(cl: Classes, s: string): (r: (Kind, nat))
    requires s != []
    ensures r.1 <= |s|
  {
    var t := TriviaLen(s);
    if t > 0 then (TriviaKind(s[..t]), t)
    else if AsciiLetter(s[0]) || s[0] == '_' then Word(cl, s)
    else if Digit(s[0]) then Number(cl, s)
    else if s[0] == '"' then (StringLit, 1 + QuotedLen(s[1..], '"'))
    else if s[0] == '\'' then Quote(cl, s)
    else if OperatorStart(s[0]) then (Punct(s[..OperatorLen(s)]), OperatorLen(s))
    else (Error, 1)
  }

  lemma {:induction false} FirstTaken(s: string, p: char -> bool)
    requires s != [] && p(s[0])
    ensures TakeWhile(s, p) >= 1
  {
  }

  /** Every token takes something. */
  lemma Progress(cl: Classes, s: string)
    requires s != [] && AsciiRight(cl)
    ensures Next(cl, s).1 >= 1
  {
    if TriviaLen(s) == 0 {
      if AsciiLetter(s[0]) || s[0] == '_' {
        assert WordPart(cl, s[0]);
        FirstTaken(s, WordChars(cl));
      } else if Digit(s[0]) && !RadixPrefix(s) {
        FirstTaken(s, DecimalPart);
      }
    }
  }

  /** The tokens of what is left, the first at offset `at`. */
  ghost function Tokens(cl: Classes, s: string, at: nat): seq<Token>
    requires AsciiRight(cl)
    decreases |s|
  {
    if s == [] then []
    else
      Progress(cl, s);
      var (kind, n) := Next(cl, s);
      [Token(kind, at, s[..n])] + Tokens(cl, s[n..], at + n)
  }
}
