/** The punctuators, their spelling, and how the lexer tells them apart. */
module Punctuators {
  import opened Numbers
  import opened Options
  import opened TextLiterals
  import opened Tokens
  import opened Unicode

  const STAR: Byte := 0x2A
  const SLASH: Byte := 0x2F
  const PERCENT: Byte := 0x25
  const AMPERSAND: Byte := 0x26
  const BAR: Byte := 0x7C
  const QUESTION_MARK: Byte := 0x3F
  const CARET: Byte := 0x5E
  const LESS: Byte := 0x3C
  const GREATER: Byte := 0x3E
  const BANG: Byte := 0x21
  const TILDE: Byte := 0x7E
  const EQUAL: Byte := 0x3D
  const LEFT_PAREN: Byte := 0x28
  const RIGHT_PAREN: Byte := 0x29
  const LEFT_BRACKET: Byte := 0x5B
  const RIGHT_BRACKET: Byte := 0x5D
  const SEMICOLON: Byte := 0x3B
  const COMMA: Byte := 0x2C
  const COLON: Byte := 0x3A

  datatype Spelling =
    | One(first: Byte)
    | Two(first: Byte, second: Byte)
    | Three(first: Byte, second: Byte, third: Byte)
    | Four(first: Byte, second: Byte, third: Byte, fourth: Byte)
  {
    function Length(): nat {
      match this
      case One(_) => 1
      case Two(_, _) => 2
      case Three(_, _, _) => 3
      case Four(_, _, _, _) => 4
    }

    predicate At(buf: seq<Byte>, p: nat) {
      && Unicode.At(buf, p) == first
      && (!One? ==> Unicode.At(buf, p + 1) == second)
      && (Three? || Four? ==> Unicode.At(buf, p + 2) == third)
      && (Four? ==> Unicode.At(buf, p + 3) == fourth)
    }
  }

  function Spell(k: Punctuator): Spelling {
    match k
    case Plus => One(PLUS)
    case Minus => One(MINUS)
    case Multiply => One(STAR)
    case Divide => One(SLASH)
    case Remainder => One(PERCENT)
    case Exponent => Two(STAR, STAR)
    case LogicalAnd => Two(AMPERSAND, AMPERSAND)
    case LogicalOr => Two(BAR, BAR)
    case NullishCoalesce => Two(QUESTION_MARK, QUESTION_MARK)
    case BitwiseAnd => One(AMPERSAND)
    case BitwiseOr => One(BAR)
    case BitwiseXor => One(CARET)
    case ShiftLeft => Two(LESS, LESS)
    case ShiftRightArithmetic => Two(GREATER, GREATER)
    case ShiftRightLogical => Three(GREATER, GREATER, GREATER)
    case Increment => Two(PLUS, PLUS)
    case Decrement => Two(MINUS, MINUS)
    case LogicalNot => One(BANG)
    case BitwiseNot => One(TILDE)
    case Equals => One(EQUAL)
    case EqEq => Two(EQUAL, EQUAL)
    case EqEqEq => Three(EQUAL, EQUAL, EQUAL)
    case NotEq => Two(BANG, EQUAL)
    case NotEqEq => Three(BANG, EQUAL, EQUAL)
    case GreaterThan => One(GREATER)
    case GreaterThanOrEqual => Two(GREATER, EQUAL)
    case LessThan => One(LESS)
    case LessThanOrEqual => Two(LESS, EQUAL)
    case AddEq => Two(PLUS, EQUAL)
    case SubtractEq => Two(MINUS, EQUAL)
    case MultiplyEq => Two(STAR, EQUAL)
    case DivideEq => Two(SLASH, EQUAL)
    case RemainderEq => Two(PERCENT, EQUAL)
    case ExponentEq => Three(STAR, STAR, EQUAL)
    case AndEq => Two(AMPERSAND, EQUAL)
    case OrEq => Two(BAR, EQUAL)
    case XorEq => Two(CARET, EQUAL)
    case ShiftLeftEq => Three(LESS, LESS, EQUAL)
    case ShiftRightArithmeticEq => Three(GREATER, GREATER, EQUAL)
    case ShiftRightLogicalEq => Four(GREATER, GREATER, GREATER, EQUAL)
    case LogicalAndEq => Three(AMPERSAND, AMPERSAND, EQUAL)
    case LogicalOrEq => Three(BAR, BAR, EQUAL)
    case NullishCoalesceEq => Three(QUESTION_MARK, QUESTION_MARK, EQUAL)
    case LeftParen => One(LEFT_PAREN)
    case RightParen => One(RIGHT_PAREN)
    case LeftBrace => One(LEFT_BRACE)
    case RightBrace => One(RIGHT_BRACE)
    case LeftBracket => One(LEFT_BRACKET)
    case RightBracket => One(RIGHT_BRACKET)
    case Semicolon => One(SEMICOLON)
    case Comma => One(COMMA)
    case Period => One(PERIOD)
    case Question => One(QUESTION_MARK)
    case QuestionDot => Two(QUESTION_MARK, PERIOD)
    case Colon => One(COLON)
    case Arrow => Two(EQUAL, GREATER)
    case Spread => Three(PERIOD, PERIOD, PERIOD)
  }

  /** The ways on from an operator: doubled with an equals sign, doubled, with an equals sign, or none of them. */
  function Doubled(b: seq<Byte>, p: nat, c: Byte, plain: Punctuator, withEqual: Punctuator, twice: Punctuator,
                   twiceAssigned: Punctuator): Punctuator {
    if At(b, p + 1) == c then (if At(b, p + 2) == EQUAL then twiceAssigned else twice)
    else if At(b, p + 1) == EQUAL then withEqual
    else plain
  }

  function Assigned(b: seq<Byte>, p: nat, plain: Punctuator, withEqual: Punctuator): Punctuator {
    if At(b, p + 1) == EQUAL then withEqual else plain
  }

  function Bracket(c: nat): Option<Punctuator> {
    if c == LEFT_PAREN then Some(LeftParen)
    else if c == RIGHT_PAREN then Some(RightParen)
    else if c == LEFT_BRACE then Some(LeftBrace)
    else if c == RIGHT_BRACE then Some(RightBrace)
    else if c == LEFT_BRACKET then Some(LeftBracket)
    else if c == RIGHT_BRACKET then Some(RightBracket)
    else None
  }

  function Mark(c: nat): Option<Punctuator> {
    if c == TILDE then Some(BitwiseNot)
    else if c == SEMICOLON then Some(Semicolon)
    else if c == COMMA then Some(Comma)
    else if c == COLON then Some(Colon)
    else None
  }

  function QuestionMark(b: seq<Byte>, p: nat): Punctuator {
    if At(b, p + 1) == QUESTION_MARK then (if At(b, p + 2) == EQUAL then NullishCoalesceEq else NullishCoalesce)
    else if At(b, p + 1) == PERIOD && !IsDecimalDigit(At(b, p + 2)) then QuestionDot
    else Question
  }

  function GreaterSign(b: seq<Byte>, p: nat): Punctuator {
    if At(b, p + 1) == GREATER && At(b, p + 2) == GREATER then
      (if At(b, p + 3) == EQUAL then ShiftRightLogicalEq else ShiftRightLogical)
    else Doubled(b, p, GREATER, GreaterThan, GreaterThanOrEqual, ShiftRightArithmetic, ShiftRightArithmeticEq)
  }

  /** The operators that go on with an equals sign at most, or with themselves. */
  function Simple(b: seq<Byte>, p: nat): Option<Punctuator> {
    var c, c1 := At(b, p), At(b, p + 1);
    if c == PLUS then Some(if c1 == PLUS then Increment else Assigned(b, p, Plus, AddEq))
    else if c == MINUS then Some(if c1 == MINUS then Decrement else Assigned(b, p, Minus, SubtractEq))
    else if c == SLASH then Some(Assigned(b, p, Divide, DivideEq))
    else if c == PERCENT then Some(Assigned(b, p, Remainder, RemainderEq))
    else if c == CARET then Some(Assigned(b, p, BitwiseXor, XorEq))
    else None
  }

  /** The operators that are doubled, compared or assigned. */
  function Doubling(b: seq<Byte>, p: nat): Option<Punctuator> {
    var c := At(b, p);
    if c == STAR then Some(Doubled(b, p, STAR, Multiply, MultiplyEq, Exponent, ExponentEq))
    else if c == AMPERSAND then Some(Doubled(b, p, AMPERSAND, BitwiseAnd, AndEq, LogicalAnd, LogicalAndEq))
    else if c == BAR then Some(Doubled(b, p, BAR, BitwiseOr, OrEq, LogicalOr, LogicalOrEq))
    else if c == LESS then Some(Doubled(b, p, LESS, LessThan, LessThanOrEqual, ShiftLeft, ShiftLeftEq))
    else None
  }

  function Longer(b: seq<Byte>, p: nat): Option<Punctuator> {
    var c, c1, c2 := At(b, p), At(b, p + 1), At(b, p + 2);
    if c == QUESTION_MARK then Some(QuestionMark(b, p))
    else if c == GREATER then Some(GreaterSign(b, p))
    else if c == EQUAL then
      Some(if c1 == EQUAL then (if c2 == EQUAL then EqEqEq else EqEq) else if c1 == GREATER then Arrow else Equals)
    else if c == BANG then
      Some(if c1 == EQUAL then (if c2 == EQUAL then NotEqEq else NotEq) else LogicalNot)
    else if c == PERIOD then Some(if c1 == PERIOD && c2 == PERIOD then Spread else Period)
    else None
  }

  /** The punctuator that the lexer reads at `p`. Comments and numbers, which start like one, are told apart before. */
  function PunctuatorAt(b: seq<Byte>, p: nat): Option<Punctuator> {
    if Bracket(At(b, p)).Some? then Bracket(At(b, p))
    else if Mark(At(b, p)).Some? then Mark(At(b, p))
    else if Simple(b, p).Some? then Simple(b, p)
    else if Doubling(b, p).Some? then Doubling(b, p)
    else Longer(b, p)
  }

  ghost predicate IsSpelled(buf: seq<Byte>, p: nat, k: Option<Punctuator>) {
    k.Some? ==> Spell(k.value).At(buf, p) && p + Spell(k.value).Length() <= |buf|
  }

  lemma BracketIsSpelled(buf: seq<Byte>, p: nat)
    ensures IsSpelled(buf, p, Bracket(At(buf, p)))
  {
  }

  lemma MarkIsSpelled(buf: seq<Byte>, p: nat)
    ensures IsSpelled(buf, p, Mark(At(buf, p)))
  {
  }

  lemma SimpleIsSpelled(buf: seq<Byte>, p: nat)
    ensures IsSpelled(buf, p, Simple(buf, p))
  {
  }

  lemma DoublingIsSpelled(buf: seq<Byte>, p: nat)
    ensures IsSpelled(buf, p, Doubling(buf, p))
  {
  }

  lemma LongerIsSpelled(buf: seq<Byte>, p: nat)
    ensures IsSpelled(buf, p, Longer(buf, p))
  {
  }

  /** What is read is spelled out in the source. */
  lemma PunctuatorIsSpelled(buf: seq<Byte>, p: nat)
    requires PunctuatorAt(buf, p).Some?
    ensures Spell(PunctuatorAt(buf, p).value).At(buf, p)
    ensures p + Spell(PunctuatorAt(buf, p).value).Length() <= |buf|
  {
    hide Spell, Spelling.At, Bracket, Mark, Simple, Doubling, Longer;
    BracketIsSpelled(buf, p);
    MarkIsSpelled(buf, p);
    SimpleIsSpelled(buf, p);
    DoublingIsSpelled(buf, p);
    LongerIsSpelled(buf, p);
  }

  ghost predicate IsAtLeast(k: Option<Punctuator>, n: nat) {
    k.Some? && n <= Spell(k.value).Length()
  }

  // The bytes that punctuators are spelled with.

  predicate OneByte(a: nat) {
    || a in [PLUS as nat, MINUS, SLASH, PERCENT, CARET, STAR, AMPERSAND, BAR, LESS]
    || a in [QUESTION_MARK as nat, GREATER, EQUAL, BANG, PERIOD]
    || a in [LEFT_PAREN as nat, RIGHT_PAREN, LEFT_BRACE, RIGHT_BRACE, LEFT_BRACKET, RIGHT_BRACKET]
    || a in [TILDE as nat, SEMICOLON, COMMA, COLON]
  }

  predicate TwoSimple(a: nat, b: nat) {
    || (a in [PLUS as nat, MINUS] && (b == a || b == EQUAL))
    || (a in [SLASH as nat, PERCENT, CARET] && b == EQUAL)
  }

  predicate TwoDoubling(a: nat, b: nat) {
    a in [STAR as nat, AMPERSAND, BAR, LESS] && (b == a || b == EQUAL)
  }

  predicate TwoLonger(a: nat, b: nat) {
    || (a in [GREATER as nat, EQUAL] && b in [GREATER as nat, EQUAL])
    || (a == BANG && b == EQUAL)
    || (a == QUESTION_MARK && b in [QUESTION_MARK as nat, PERIOD])
  }

  predicate ThreeDoubling(a: nat, b: nat, c: nat) {
    a in [STAR as nat, AMPERSAND, BAR, LESS] && b == a && c == EQUAL
  }

  predicate ThreeLonger(a: nat, b: nat, c: nat) {
    || (a in [EQUAL as nat, BANG] && b == EQUAL && c == EQUAL)
    || (a == GREATER && b == GREATER && c in [GREATER as nat, EQUAL])
    || (a == QUESTION_MARK && b == QUESTION_MARK && c == EQUAL)
    || (a == PERIOD && b == PERIOD && c == PERIOD)
  }

  lemma OneTable(k: Punctuator)
    requires Spell(k).One?
    ensures OneByte(Spell(k).first)
  {
  }

  lemma TwoTable(k: Punctuator)
    requires Spell(k).Two?
    ensures
      var (a, b) := (Spell(k).first, Spell(k).second);
      TwoSimple(a, b) || TwoDoubling(a, b) || TwoLonger(a, b)
  {
  }

  lemma QuestionDotIsUnique(k: Punctuator)
    requires Spell(k) == Two(QUESTION_MARK, PERIOD)
    ensures k == QuestionDot
  {
  }

  lemma ThreeTable(k: Punctuator)
    requires Spell(k).Three?
    ensures
      var (a, b, c) := (Spell(k).first, Spell(k).second, Spell(k).third);
      ThreeDoubling(a, b, c) || ThreeLonger(a, b, c)
  {
  }

  lemma FourTable(k: Punctuator)
    requires Spell(k).Four?
    ensures k == ShiftRightLogicalEq
  {
  }

  lemma OneIsReached(buf: seq<Byte>, p: nat)
    requires OneByte(At(buf, p))
    ensures PunctuatorAt(buf, p).Some?
  {
  }

  lemma TwoSimpleIsReached(buf: seq<Byte>, p: nat)
    requires TwoSimple(At(buf, p), At(buf, p + 1))
    ensures IsAtLeast(PunctuatorAt(buf, p), 2)
  {
  }

  lemma TwoDoublingIsReached(buf: seq<Byte>, p: nat)
    requires TwoDoubling(At(buf, p), At(buf, p + 1))
    ensures IsAtLeast(PunctuatorAt(buf, p), 2)
  {
  }

  lemma TwoLongerIsReached(buf: seq<Byte>, p: nat)
    requires TwoLonger(At(buf, p), At(buf, p + 1))
    requires At(buf, p) == QUESTION_MARK && At(buf, p + 1) == PERIOD ==> !IsDecimalDigit(At(buf, p + 2))
    ensures IsAtLeast(PunctuatorAt(buf, p), 2)
  {
  }

  lemma ThreeDoublingIsReached(buf: seq<Byte>, p: nat)
    requires ThreeDoubling(At(buf, p), At(buf, p + 1), At(buf, p + 2))
    ensures IsAtLeast(PunctuatorAt(buf, p), 3)
  {
  }

  lemma ThreeLongerIsReached(buf: seq<Byte>, p: nat)
    requires ThreeLonger(At(buf, p), At(buf, p + 1), At(buf, p + 2))
    ensures IsAtLeast(PunctuatorAt(buf, p), 3)
  {
  }

  lemma FourIsReached(buf: seq<Byte>, p: nat)
    requires Spell(ShiftRightLogicalEq).At(buf, p)
    ensures PunctuatorAt(buf, p) == Some(ShiftRightLogicalEq)
  {
  }

  /** Maximal munch: no longer punctuator is spelled at the same place, except `?.` before a digit. */
  lemma PunctuatorIsLongest(buf: seq<Byte>, p: nat, k: Punctuator)
    requires Spell(k).At(buf, p) && !(k == QuestionDot && IsDecimalDigit(At(buf, p + 2)))
    ensures PunctuatorAt(buf, p).Some? && Spell(k).Length() <= Spell(PunctuatorAt(buf, p).value).Length()
  {
    hide PunctuatorAt, Spell, OneByte, TwoSimple, TwoDoubling, TwoLonger, ThreeDoubling, ThreeLonger;
    match Spell(k) {
      case One(a) =>
        OneTable(k);
        OneIsReached(buf, p);
      case Two(a, b) =>
        TwoTable(k);
        if a == QUESTION_MARK && b == PERIOD { QuestionDotIsUnique(k); }
        if TwoSimple(a, b) { TwoSimpleIsReached(buf, p); }
        else if TwoDoubling(a, b) { TwoDoublingIsReached(buf, p); }
        else { TwoLongerIsReached(buf, p); }
      case Three(a, b, c) =>
        ThreeTable(k);
        if ThreeDoubling(a, b, c) { ThreeDoublingIsReached(buf, p); } else { ThreeLongerIsReached(buf, p); }
      case Four(_, _, _, _) =>
        FourTable(k);
        FourIsReached(buf, p);
    }
  }
}
