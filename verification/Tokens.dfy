/** What the lexer returns. */
module Tokens {
  import opened Options
  import opened Unicode

  datatype Loc = Loc(start: nat, end: nat)

  /** A number before it is rounded to a double: from a 64-bit word, from a big integer, or from decimal text. */
  datatype Number = Word(value: nat) | Big(value: nat) | Text(text: seq<Byte>)

  datatype Punctuator =
    | Plus | Minus | Multiply | Divide | Remainder | Exponent
    | LogicalAnd | LogicalOr | NullishCoalesce | BitwiseAnd | BitwiseOr | BitwiseXor
    | ShiftLeft | ShiftRightArithmetic | ShiftRightLogical | Increment | Decrement | LogicalNot | BitwiseNot
    | Equals | EqEq | EqEqEq | NotEq | NotEqEq
    | GreaterThan | GreaterThanOrEqual | LessThan | LessThanOrEqual
    | AddEq | SubtractEq | MultiplyEq | DivideEq | RemainderEq | ExponentEq
    | AndEq | OrEq | XorEq | ShiftLeftEq | ShiftRightArithmeticEq | ShiftRightLogicalEq
    | LogicalAndEq | LogicalOrEq | NullishCoalesceEq
    | LeftParen | RightParen | LeftBrace | RightBrace | LeftBracket | RightBracket
    | Semicolon | Comma | Period | Question | QuestionDot | Colon | Arrow | Spread

  datatype Token =
    | Punctuation(kind: Punctuator)
    | Identifier(text: seq<Byte>)
    | PrivateIdentifier(text: seq<Byte>)
    | NumberLiteral(number: Number)
    | BigIntLiteral(digits: seq<Byte>, radix: nat)
    | StringLiteral(value: seq<Byte>)
    | TemplatePart(raw: seq<Byte>, cooked: Option<seq<Byte>>, isHead: bool, isTail: bool)
    | Eof

  /** A token and where it ends. */
  datatype Lexed = Lexed(token: Token, end: nat)

  datatype LexError =
    | MalformedNumericLiteral
    | AdjacentNumericSeparators
    | TrailingNumericSeparator
    | BigIntLeadingZero
    | InvalidNumericLiteralNextChar
    | LegacyOctalLiteralInStrictMode
    | LegacyOctalEscapeInStrictMode
    | LegacyNonOctalEscapeInStrictMode
    | UnterminatedStringLiteral
    | UnterminatedComment
    | MalformedEscape
    | InvalidUnicode
    | UnknownToken
    | HashNotFollowedByIdentifier

  /** A result, an error, or a panic: decoding past the end of input, or encoding what is not a code point. */
  datatype Outcome<+T> = Ok(value: T) | Err(error: LexError) | Panic {
    predicate IsFailure() {
      !Ok?
    }

    function PropagateFailure<U>(): Outcome<U>
      requires IsFailure()
    {
      if Err? then Outcome<U>.Err(error) else Outcome<U>.Panic
    }

    function Extract(): T
      requires Ok?
    {
      value
    }
  }

  /** A token that was read at `start`, or why there is none. */
  ghost predicate Reads(lexed: Outcome<Lexed>, start: nat, r: Outcome<(Token, Loc)>) {
    match lexed
    case Ok(lexed) => r == Ok((lexed.token, Loc(start, lexed.end)))
    case Err(error) => r == Err(error)
    case Panic => r.Panic?
  }
}
