/** The text that error messages print for a punctuator, and whether lexing that text gives the punctuator back. */
module TokenTexts {
  import opened Identifiers
  import opened Lexemes
  import opened Options
  import opened Punctuators
  import opened Tokens
  import opened Unicode

  function Printed(k: Punctuator): seq<Byte> {
    match k
    case Plus => ['+' as Byte]
    case Minus => ['-' as Byte]
    case Multiply => ['*' as Byte]
    case Divide => ['/' as Byte]
    case Remainder => ['%' as Byte]
    case Exponent => ['*' as Byte, '*' as Byte]
    case LogicalAnd => ['&' as Byte, '&' as Byte]
    case LogicalOr => ['|' as Byte, '|' as Byte]
    case NullishCoalesce => ['?' as Byte, '?' as Byte]
    case BitwiseAnd => ['&' as Byte]
    case BitwiseOr => ['|' as Byte]
    case BitwiseXor => ['^' as Byte]
    case ShiftLeft => ['<' as Byte, '<' as Byte]
    case ShiftRightArithmetic => ['>' as Byte, '>' as Byte]
    case ShiftRightLogical => ['>' as Byte, '>' as Byte, '>' as Byte]
    case Increment => ['+' as Byte, '+' as Byte]
    case Decrement => ['-' as Byte, '-' as Byte]
    case LogicalNot => ['~' as Byte]
    case BitwiseNot => [',' as Byte]
    case Equals => ['=' as Byte]
    case EqEq => ['=' as Byte, '=' as Byte]
    case EqEqEq => ['=' as Byte, '=' as Byte, '=' as Byte]
    case NotEq => ['!' as Byte, '=' as Byte]
    case NotEqEq => ['!' as Byte, '=' as Byte, '=' as Byte]
    case GreaterThan => ['>' as Byte]
    case GreaterThanOrEqual => ['>' as Byte, '=' as Byte]
    case LessThan => ['<' as Byte]
    case LessThanOrEqual => ['<' as Byte, '=' as Byte]
    case AddEq => ['a' as Byte]
    case SubtractEq => ['-' as Byte, '=' as Byte]
    case MultiplyEq => ['*' as Byte, '=' as Byte]
    case DivideEq => ['/' as Byte, '=' as Byte]
    case RemainderEq => ['%' as Byte, '=' as Byte]
    case ExponentEq => ['*' as Byte, '*' as Byte, '=' as Byte]
    case AndEq => ['&' as Byte, '=' as Byte]
    case OrEq => ['|' as Byte, '=' as Byte]
    case XorEq => ['^' as Byte, '=' as Byte]
    case ShiftLeftEq => ['<' as Byte, '<' as Byte, '=' as Byte]
    case ShiftRightArithmeticEq => ['>' as Byte, '>' as Byte, '=' as Byte]
    case ShiftRightLogicalEq => ['>' as Byte, '>' as Byte, '>' as Byte, '=' as Byte]
    case LogicalAndEq => ['&' as Byte, '&' as Byte, '=' as Byte]
    case LogicalOrEq => ['|' as Byte, '|' as Byte, '=' as Byte]
    case NullishCoalesceEq => ['?' as Byte, '?' as Byte, '=' as Byte]
    case LeftParen => ['(' as Byte]
    case RightParen => [')' as Byte]
    case LeftBrace => ['{' as Byte]
    case RightBrace => ['}' as Byte]
    case LeftBracket => ['[' as Byte]
    case RightBracket => [']' as Byte]
    case Semicolon => [';' as Byte]
    case Comma => [',' as Byte]
    case Period => ['.' as Byte]
    case Question => ['?' as Byte]
    case QuestionDot => ['?' as Byte, '.' as Byte]
    case Colon => [':' as Byte]
    case Arrow => ['=' as Byte, '>' as Byte]
    case Spread => ['.' as Byte, '.' as Byte, '.' as Byte]
  }

  /** These three are printed with the text of another token. */
  predicate IsMisprinted(k: Punctuator) {
    k.LogicalNot? || k.BitwiseNot? || k.AddEq?
  }

  // The others, by their first characters.

  predicate IsBracket(k: Punctuator) {
    k.LeftParen? || k.RightParen? || k.LeftBrace? || k.RightBrace? || k.LeftBracket? || k.RightBracket?
  }

  predicate IsSeparator(k: Punctuator) {
    k.Semicolon? || k.Comma? || k.Colon?
  }

  predicate IsSimple(k: Punctuator) {
    k.Plus? || k.Minus? || k.Divide? || k.Remainder? || k.BitwiseXor? || k.Increment? || k.Decrement?
    || k.SubtractEq? || k.DivideEq? || k.RemainderEq? || k.XorEq?
  }

  predicate IsStar(k: Punctuator) {
    k.Multiply? || k.MultiplyEq? || k.Exponent? || k.ExponentEq? || k.BitwiseAnd? || k.AndEq? || k.LogicalAnd?
    || k.LogicalAndEq?
  }

  predicate IsBar(k: Punctuator) {
    k.BitwiseOr? || k.OrEq? || k.LogicalOr? || k.LogicalOrEq? || k.LessThan? || k.LessThanOrEqual?
    || k.ShiftLeft? || k.ShiftLeftEq?
  }

  predicate IsGreater(k: Punctuator) {
    k.GreaterThan? || k.GreaterThanOrEqual? || k.ShiftRightArithmetic? || k.ShiftRightArithmeticEq?
    || k.ShiftRightLogical? || k.ShiftRightLogicalEq?
  }

  predicate IsEqual(k: Punctuator) {
    k.Equals? || k.EqEq? || k.EqEqEq? || k.NotEq? || k.NotEqEq? || k.Arrow?
  }

  predicate IsMark(k: Punctuator) {
    k.Question? || k.QuestionDot? || k.NullishCoalesce? || k.NullishCoalesceEq? || k.Period? || k.Spread?
  }

  lemma BracketIsRead(k: Punctuator)
    requires IsBracket(k)
    ensures PunctuatorAt(Printed(k), 0) == Some(k) && !NumberStarts(Printed(k), 0)
    ensures |Printed(k)| == Spell(k).Length()
  {
  }

  lemma SeparatorIsRead(k: Punctuator)
    requires IsSeparator(k)
    ensures PunctuatorAt(Printed(k), 0) == Some(k) && !NumberStarts(Printed(k), 0)
    ensures |Printed(k)| == Spell(k).Length()
  {
  }

  lemma SimpleIsRead(k: Punctuator)
    requires IsSimple(k)
    ensures PunctuatorAt(Printed(k), 0) == Some(k) && !NumberStarts(Printed(k), 0)
    ensures |Printed(k)| == Spell(k).Length()
  {
  }

  lemma StarIsRead(k: Punctuator)
    requires IsStar(k)
    ensures PunctuatorAt(Printed(k), 0) == Some(k) && !NumberStarts(Printed(k), 0)
    ensures |Printed(k)| == Spell(k).Length()
  {
  }

  lemma BarIsRead(k: Punctuator)
    requires IsBar(k)
    ensures PunctuatorAt(Printed(k), 0) == Some(k) && !NumberStarts(Printed(k), 0)
    ensures |Printed(k)| == Spell(k).Length()
  {
  }

  lemma GreaterIsRead(k: Punctuator)
    requires IsGreater(k)
    ensures PunctuatorAt(Printed(k), 0) == Some(k) && !NumberStarts(Printed(k), 0)
    ensures |Printed(k)| == Spell(k).Length()
  {
  }

  lemma EqualIsRead(k: Punctuator)
    requires IsEqual(k)
    ensures PunctuatorAt(Printed(k), 0) == Some(k) && !NumberStarts(Printed(k), 0)
    ensures |Printed(k)| == Spell(k).Length()
  {
  }

  lemma MarkIsRead(k: Punctuator)
    requires IsMark(k)
    ensures PunctuatorAt(Printed(k), 0) == Some(k) && !NumberStarts(Printed(k), 0)
    ensures |Printed(k)| == Spell(k).Length()
  {
  }

  lemma PrintedIsRead(k: Punctuator)
    requires !IsMisprinted(k)
    ensures PunctuatorAt(Printed(k), 0) == Some(k) && !NumberStarts(Printed(k), 0)
    ensures |Printed(k)| == Spell(k).Length()
  {
    hide PunctuatorAt, Printed, NumberStarts, Spell;
    if IsBracket(k) { BracketIsRead(k); }
    if IsSeparator(k) { SeparatorIsRead(k); }
    if IsSimple(k) { SimpleIsRead(k); }
    if IsStar(k) { StarIsRead(k); }
    if IsBar(k) { BarIsRead(k); }
    if IsGreater(k) { GreaterIsRead(k); }
    if IsEqual(k) { EqualIsRead(k); }
    if IsMark(k) { MarkIsRead(k); }
  }

  lemma MisprintedIsRead(classes: Classes, k: Punctuator, strict: bool)
    requires IsMisprinted(k)
    ensures TokenAt(classes, Printed(k), 0, strict) != Ok(Lexed(Punctuation(k), |Printed(k)|))
  {
    match k
    case LogicalNot => assert PunctuatorAt(Printed(k), 0) == Some(BitwiseNot);
    case BitwiseNot => assert PunctuatorAt(Printed(k), 0) == Some(Comma);
    case AddEq => assert PunctuatorAt(Printed(k), 0) == None;
  }

  lemma PunctuationIsToken(classes: Classes, buf: seq<Byte>, k: Punctuator, strict: bool)
    requires PunctuatorAt(buf, 0) == Some(k) && !NumberStarts(buf, 0) && |buf| == Spell(k).Length()
    ensures TokenAt(classes, buf, 0, strict) == Ok(Lexed(Punctuation(k), |buf|))
  {
    PunctuatorIsSpelled(buf, 0);
    hide PunctuatorAt, Spell, NumberStarts, NumberAt, NameAt, OtherTokenAt, Spelling.At;
  }

  /** Lexing the printed text gives the punctuator back exactly if it is none of the three. */
  lemma PrintedText(classes: Classes, k: Punctuator, strict: bool)
    ensures TokenAt(classes, Printed(k), 0, strict) == Ok(Lexed(Punctuation(k), |Printed(k)|)) <==> !IsMisprinted(k)
  {
    hide TokenAt, Printed, IsMisprinted, PunctuatorAt, Spell, NumberStarts;
    if IsMisprinted(k) {
      MisprintedIsRead(classes, k, strict);
    } else {
      PrintedIsRead(k);
      PunctuationIsToken(classes, Printed(k), k, strict);
    }
  }
}
