/** What the operators of an operand expression compute: the laws of addition, subtraction,
    multiplication and division on 32-bit words, on the meaning of expressions. */
module Arithmetic {
  import opened Words
  import opened Expressions

  /** The next word; after the last one comes zero. */
  function Succ(v: U32): U32 {
    if v == 0xffff_ffff then 0 else v + 1
  }

  function Plus(a: Tree, b: Tree): Tree {
    Infix(Add, a, b)
  }

  function Minus(a: Tree, b: Tree): Tree {
    Infix(Sub, a, b)
  }

  function Times(a: Tree, b: Tree): Tree {
    Infix(Mul, a, b)
  }

  predicate Defined(e: Tree, t: Table) {
    Meaning(e, t).Known?
  }

  /** The two expressions mean the same word. */
  predicate Same(a: Tree, b: Tree, t: Table) {
    Meaning(a, t).Known? && Meaning(a, t) == Meaning(b, t)
  }

  const ZERO: Tree := Literal(0)
  const ONE: Tree := Literal(1)

  // ----- addition and subtraction -----

  lemma SmallIsItself(x: int)
    requires 0 <= x < 0x1_0000_0000
    ensures Wrap(x) == x
  {
  }

  lemma PlusMeans(x: Tree, y: Tree, t: Table)
    requires Defined(x, t) && Defined(y, t)
    ensures Meaning(Plus(x, y), t) == Known(Wrap(Meaning(x, t).v + Meaning(y, t).v))
  {
  }

  lemma MinusMeans(x: Tree, y: Tree, t: Table)
    requires Defined(x, t) && Defined(y, t)
    ensures Meaning(Minus(x, y), t) == Known(Wrap(Meaning(x, t).v - Meaning(y, t).v))
  {
  }

  lemma PlusZero(x: Tree, t: Table)
    requires Defined(x, t)
    ensures Same(Plus(x, ZERO), x, t)
  {
    PlusMeans(x, ZERO, t);
    SmallIsItself(Meaning(x, t).v);
  }

  lemma SuccIsSum(a: U32)
    ensures Wrap(a + 1) == Succ(a)
  {
  }

  lemma PlusOne(x: Tree, t: Table)
    requires Defined(x, t)
    ensures Meaning(Plus(x, ONE), t) == Known(Succ(Meaning(x, t).v))
  {
    PlusMeans(x, ONE, t);
    SuccIsSum(Meaning(x, t).v);
  }

  lemma SumNext(a: int, b: int)
    ensures Wrap(a + Wrap(b + 1)) == Wrap(Wrap(a + b) + 1)
  {
    WrapAbsorbs(a + b, 1);
    WrapAbsorbs(b + 1, a);
  }

  lemma PlusTwice(x: Tree, y: Tree, z: Tree, t: Table)
    requires Defined(x, t) && Defined(y, t) && Defined(z, t)
    ensures var a, b, c := Meaning(x, t).v as int, Meaning(y, t).v as int, Meaning(z, t).v as int;
            && Meaning(Plus(x, Plus(y, z)), t) == Known(Wrap(a + Wrap(b + c)))
            && Meaning(Plus(Plus(x, y), z), t) == Known(Wrap(Wrap(a + b) + c))
  {
    PlusMeans(y, z, t);
    PlusMeans(x, Plus(y, z), t);
    PlusMeans(x, y, t);
    PlusMeans(Plus(x, y), z, t);
  }

  lemma PlusNext(x: Tree, y: Tree, t: Table)
    requires Defined(x, t) && Defined(y, t)
    ensures Same(Plus(x, Plus(y, ONE)), Plus(Plus(x, y), ONE), t)
  {
    PlusTwice(x, y, ONE, t);
    SumNext(Meaning(x, t).v, Meaning(y, t).v);
  }

  /** Addition by counting: x + 0 is x, x + 1 the next word, x + (y + 1) is (x + y) + 1. */
  lemma AdditionCounts(x: Tree, y: Tree, t: Table)
    requires Defined(x, t) && Defined(y, t)
    ensures Same(Plus(x, ZERO), x, t)
    ensures Meaning(Plus(x, ONE), t) == Known(Succ(Meaning(x, t).v))
    ensures Same(Plus(x, Plus(y, ONE)), Plus(Plus(x, y), ONE), t)
  {
    PlusZero(x, t);
    PlusOne(x, t);
    PlusNext(x, y, t);
  }

  lemma DifferenceRestores(a: U32, b: int)
    ensures Wrap(Wrap(a + b) - b) == a
  {
    WrapAbsorbs((a as int) + b, -b);
    SmallIsItself(a);
  }

  lemma PlusMinus(x: Tree, y: Tree, t: Table)
    requires Defined(x, t) && Defined(y, t)
    ensures Same(Minus(Plus(x, y), y), x, t)
  {
    PlusMeans(x, y, t);
    MinusMeans(Plus(x, y), y, t);
    DifferenceRestores(Meaning(x, t).v, Meaning(y, t).v);
  }

  lemma MinusPlus(x: Tree, y: Tree, t: Table)
    requires Defined(x, t) && Defined(y, t)
    ensures Same(Plus(Minus(x, y), y), x, t)
  {
    MinusMeans(x, y, t);
    PlusMeans(Minus(x, y), y, t);
    DifferenceRestores(Meaning(x, t).v, -(Meaning(y, t).v as int));
  }

  /** Subtraction undoes addition, and addition subtraction. */
  lemma SubtractionUndoesAddition(x: Tree, y: Tree, t: Table)
    requires Defined(x, t) && Defined(y, t)
    ensures Same(Minus(Plus(x, y), y), x, t)
    ensures Same(Plus(Minus(x, y), y), x, t)
  {
    PlusMinus(x, y, t);
    MinusPlus(x, y, t);
  }

  // ----- multiplication -----

  lemma MultiplesVanish(k: int)
    ensures Wrap(k * 0x1_0000_0000) == 0
  {
  }

  lemma ProductNext(a: U32, b: U32)
    ensures Wrap(a * Succ(b)) == Wrap(Wrap(a * b) + a)
  {
    WrapAbsorbs(a * b, a);
    assert a * (b + 1) == a * b + a;
    if b == 0xffff_ffff {
      MultiplesVanish(a);
      assert a * (b + 1) == a * 0x1_0000_0000;
    }
  }

  lemma TimesMeans(x: Tree, y: Tree, t: Table)
    requires Defined(x, t) && Defined(y, t)
    ensures Meaning(Times(x, y), t) == Known(Wrap(Meaning(x, t).v * Meaning(y, t).v))
  {
  }

  lemma TimesZero(x: Tree, t: Table)
    requires Defined(x, t)
    ensures Same(Times(x, ZERO), ZERO, t)
  {
    TimesMeans(x, ZERO, t);
    SmallIsItself(0);
  }

  lemma TimesNext(x: Tree, y: Tree, t: Table)
    requires Defined(x, t) && Defined(y, t)
    ensures Same(Times(x, Plus(y, ONE)), Plus(Times(x, y), x), t)
  {
    PlusOne(y, t);
    TimesMeans(x, Plus(y, ONE), t);
    TimesMeans(x, y, t);
    PlusMeans(Times(x, y), x, t);
    ProductNext(Meaning(x, t).v, Meaning(y, t).v);
  }

  /** Multiplication by counting: x * 0 is zero, x * (y + 1) is x * y + x. */
  lemma MultiplicationCounts(x: Tree, y: Tree, t: Table)
    requires Defined(x, t) && Defined(y, t)
    ensures Same(Times(x, ZERO), ZERO, t)
    ensures Same(Times(x, Plus(y, ONE)), Plus(Times(x, y), x), t)
  {
    TimesZero(x, t);
    TimesNext(x, y, t);
  }

  // ----- division -----

  lemma QuotientAndRemainder(a: U32, b: U32)
    requires b > 0
    ensures 0 <= a / b <= a && 0 <= a % b < b && (a / b) * b + a % b == a
  {
  }

  /** Division with remainder, as whole numbers: x is quotient times y plus remainder, and the
      remainder is less than y.  Without a divisor both end the process. */
  lemma DivisionLeavesRemainder(x: Tree, y: Tree, t: Table)
    requires Defined(x, t) && Defined(y, t)
    ensures Meaning(y, t).v == 0 ==> Meaning(Infix(Div, x, y), t).Trap? && Meaning(Infix(Mod, x, y), t).Trap?
    ensures var q, r := Meaning(Infix(Div, x, y), t), Meaning(Infix(Mod, x, y), t);
            Meaning(y, t).v > 0 ==>
              && q.Known? && r.Known? && r.v < Meaning(y, t).v
              && q.v * Meaning(y, t).v + r.v == Meaning(x, t).v
  {
    var a, b := Meaning(x, t).v, Meaning(y, t).v;
    if b > 0 {
      QuotientAndRemainder(a, b);
      SmallIsItself(a / b);
      SmallIsItself(a % b);
    }
  }

  // ----- what is not a word -----

  /** An operand that ends the process does so in every context; otherwise one without a value
      leaves every operation without one, division by zero included. */
  lemma OperatorsAreStrict(op: Op, x: Tree, y: Tree, t: Table)
    ensures Meaning(x, t).Trap? || Meaning(y, t).Trap? ==> Meaning(Infix(op, x, y), t).Trap?
    ensures !Meaning(x, t).Trap? && !Meaning(y, t).Trap? && (Meaning(x, t).Unknown? || Meaning(y, t).Unknown?) ==>
              Meaning(Infix(op, x, y), t).Unknown?
  {
  }
}
