/** What csh's expressions come to, in numbers and bits: the evaluator on the words of one operation. */
module CshArith {
  import opened CshNumbers
  import opened CshExpr
  import Text = CshNumberText
  import Tree = CshExprTree

  /** No word has anything to expand in it. */
  ghost predicate Literal(env: Env) { forall w :: env.glob(w) == Some(w) }

  function Evaluate(ts: seq<Word>, env: Env): Result<int> { Exp0(ts, Mode(false, false), env) }

  // ---- numbers as operands -----------------------------------------------------------------

  /** The text of a number is an operand that stands for the number. */
  lemma NumberInert(n: int)
    requires InRange(n)
    ensures Tree.Inert(Putn(n)) && Egetn(Putn(n)) == Some(n)
  {
    PutnNumeric(n);
    PutnSecond(n);
  }

  lemma PutnSecond(n: int)
    requires InRange(n)
    ensures var s := Putn(n); s != "" && (Digit(s[0]) || (s[0] == '-' && |s| > 1 && Digit(s[1])))
  {
    PutnFirst(n);
    NumberRoundTrip(n);
    if Putn(n)[0] == '-' {
      SecondDigit(Putn(n));
    }
  }

  /** A sign is not a number alone. */
  lemma SecondDigit(s: Word)
    requires Getn(s).Some? && s != "" && s[0] == '-'
    ensures |s| > 1 && Digit(s[1])
  {
  }

  lemma NumberWord(n: int, m: Mode, env: Env)
    requires InRange(n) && Literal(env)
    ensures Tree.Normal(Tree.Leaf(Putn(n)), 10) && Tree.Text(Tree.Leaf(Putn(n)), m, env) == Some(Putn(n))
    ensures Egetn(Putn(n)) == Some(n)
  {
    NumberInert(n);
  }

  /** The tree of an operation on two numbers. */
  function Operation(op: Tree.Op, a: int, b: int): Tree.Expr
    requires InRange(a) && InRange(b)
  {
    Tree.Binary(op, Tree.Leaf(Putn(a)), Tree.Leaf(Putn(b)))
  }

  lemma LeafNormal(w: Word, k: nat)
    requires Tree.Inert(w) && k <= 10
    ensures Tree.Normal(Tree.Leaf(w), k)
    decreases 10 - k
  {
    if k < 10 {
      LeafNormal(w, k + 1);
    }
  }

  lemma LevelNormal(op: Tree.Op, l: Word, r: Word, k: nat)
    requires Tree.Inert(l) && Tree.Inert(r) && k <= Tree.Level(op)
    ensures Tree.Normal(Tree.Binary(op, Tree.Leaf(l), Tree.Leaf(r)), k)
    decreases 10 - k
  {
    var e := Tree.Binary(op, Tree.Leaf(l), Tree.Leaf(r));
    if k < Tree.Level(op) {
      LevelNormal(op, l, r, k + 1);
    } else {
      LeafNormal(l, k + 1);
      LeafNormal(r, if k == 5 then 6 else k);
    }
  }

  /** The evaluator on the words of an operation. */
  lemma Operated(op: Tree.Op, l: Word, r: Word, env: Env)
    requires Tree.Inert(l) && Tree.Inert(r)
    ensures Evaluate([l] + (Tree.Sign(op) + [r]), env) ==
      Tree.Lift(Tree.Value(Tree.Binary(op, Tree.Leaf(l), Tree.Leaf(r)), Mode(false, false), env), [])
  {
    LevelNormal(op, l, r, 0);
    Tree.EvaluatesTree(Tree.Binary(op, Tree.Leaf(l), Tree.Leaf(r)), env);
  }

  /** An operation of numbers: the number its text holds. */
  lemma Numbers(op: Arith, a: int, b: int, env: Env)
    requires InRange(a) && InRange(b) && Literal(env)
    ensures Evaluate([Putn(a)] + (Tree.Sign(Tree.Number(op)) + [Putn(b)]), env) ==
      var c := Compute(op, a, b); if c.None? then Fail else Ok(Wrap(c.value), [])
  {
    NumberInert(a);
    NumberInert(b);
    Operated(Tree.Number(op), Putn(a), Putn(b), env);
    NumberWord(a, Mode(false, false), env);
    NumberWord(b, Mode(false, false), env);
    var c := Compute(op, a, b);
    if c.Some? {
      NumberInert(Wrap(c.value));
    }
  }

  /** An operation on trees depends on the numbers they stand for only. */
  lemma OperandsByValue(op: Tree.Op, l: Tree.Expr, r: Tree.Expr, x: int, y: int, env: Env)
    requires InRange(x) && InRange(y) && Literal(env) && (op.Number? || op.Bitwise?)
    requires op.Number? ==> Tree.Number1(Tree.Text(l, Mode(false, false), env)) == Some(x)
    requires op.Number? ==> Tree.Number1(Tree.Text(r, Mode(false, false), env)) == Some(y)
    requires op.Bitwise? ==> Tree.Value(l, Mode(false, false), env) == Some(x)
    requires op.Bitwise? ==> Tree.Value(r, Mode(false, false), env) == Some(y)
    ensures Tree.Value(Tree.Binary(op, l, r), Mode(false, false), env) == Tree.Value(Operation(op, x, y), Mode(false, false), env)
  {
    NumberWord(x, Mode(false, false), env);
    NumberWord(y, Mode(false, false), env);
  }

  // ---- arithmetic and comparisons ------------------------------------------------------------

  lemma Sums(a: int, b: int, env: Env)
    requires InRange(a) && InRange(b) && Literal(env)
    ensures Evaluate([Putn(a), "+", Putn(b)], env) == Ok(Wrap(a + b), [])
    ensures Evaluate([Putn(a), "-", Putn(b)], env) == Ok(Wrap(a - b), [])
    ensures Evaluate([Putn(a), "*", Putn(b)], env) == Ok(Wrap(a * b), [])
  {
    Numbers(Plus, a, b, env);
    Numbers(Minus, a, b, env);
    Numbers(Times, a, b, env);
    WrapSame(Wrap(a + b));
    WrapSame(Wrap(a - b));
    WrapSame(Wrap(a * b));
    Three(Putn(a), "+", Putn(b));
    Three(Putn(a), "-", Putn(b));
    Three(Putn(a), "*", Putn(b));
  }

  lemma Three(a: Word, b: Word, c: Word)
    ensures [a] + ([b] + [c]) == [a, b, c]
  {
  }

  lemma Four(a: Word, b: Word, c: Word, d: Word)
    ensures [a] + ([b, c] + [d]) == [a, b, c, d]
  {
  }

  /** Division is towards zero; of the smallest number by -1 it wraps around. */
  lemma Divisions(a: int, b: int, env: Env) returns (q: int, r: int)
    requires InRange(a) && InRange(b) && Literal(env)
    ensures b == 0 ==> Evaluate([Putn(a), "/", Putn(b)], env) == Fail == Evaluate([Putn(a), "%", Putn(b)], env)
    ensures b != 0 ==> a == b * q + r && -Size(b) < r < Size(b) && (r == 0 || (r < 0 <==> a < 0))
    ensures b != 0 ==> Evaluate([Putn(a), "/", Putn(b)], env) == Ok(Wrap(q), [])
    ensures b != 0 ==> Evaluate([Putn(a), "%", Putn(b)], env) == Ok(r, [])
  {
    OverWords(a, b, env);
    RemWords(a, b, env);
    q, r := 0, 0;
    if b != 0 {
      q, r := Quotient(a, b), a - b * Quotient(a, b);
      Remainder(a, b);
      WrapSame(r);
    }
  }

  lemma OverWords(a: int, b: int, env: Env)
    requires InRange(a) && InRange(b) && Literal(env)
    ensures Evaluate([Putn(a), "/", Putn(b)], env) == if b == 0 then Fail else Ok(Wrap(Quotient(a, b)), [])
  {
    Numbers(Over, a, b, env);
    Three(Putn(a), "/", Putn(b));
    if b != 0 {
      WrapSame(Wrap(Quotient(a, b)));
    }
  }

  lemma RemWords(a: int, b: int, env: Env)
    requires InRange(a) && InRange(b) && Literal(env)
    ensures Evaluate([Putn(a), "%", Putn(b)], env) == if b == 0 then Fail else Ok(Wrap(a - b * Quotient(a, b)), [])
  {
    Numbers(Rem, a, b, env);
    Three(Putn(a), "%", Putn(b));
    if b != 0 {
      WrapSame(Wrap(a - b * Quotient(a, b)));
    }
  }

  /** The distance from zero. */
  function Size(b: int): int { if b < 0 then -b else b }

  lemma Remainder(a: int, b: int)
    requires b != 0
    ensures var r := a - b * Quotient(a, b); -Size(b) < r < Size(b) && (r == 0 || (r < 0 <==> a < 0))
  {
    var n, d := Size(a), Size(b);
    var k := n / d;
    assert n == d * k + n % d && 0 <= n % d < d;
    Signs(d, k);
  }

  lemma Signs(d: int, k: int)
    ensures (-d) * k == -(d * k) && d * -k == -(d * k) && (-d) * -k == d * k
  {
  }

  lemma Comparisons(a: int, b: int, env: Env)
    requires InRange(a) && InRange(b) && Literal(env)
    ensures Evaluate([Putn(a), "<", Putn(b)], env) == Ok(if a < b then 1 else 0, [])
    ensures Evaluate([Putn(a), "<", "=", Putn(b)], env) == Ok(if a <= b then 1 else 0, [])
    ensures Evaluate([Putn(a), ">", Putn(b)], env) == Ok(if a > b then 1 else 0, [])
    ensures Evaluate([Putn(a), ">", "=", Putn(b)], env) == Ok(if a >= b then 1 else 0, [])
  {
    Numbers(Less, a, b, env);
    Numbers(LessEq, a, b, env);
    Numbers(Greater, a, b, env);
    Numbers(GreaterEq, a, b, env);
    WrapSame(0);
    WrapSame(1);
    Three(Putn(a), "<", Putn(b));
    Four(Putn(a), "<", "=", Putn(b));
    Three(Putn(a), ">", Putn(b));
    Four(Putn(a), ">", "=", Putn(b));
  }

  // ---- shifts ----------------------------------------------------------------------------------

  /** Shifting by nothing changes nothing. */
  lemma ShiftNothing(a: int, env: Env)
    requires InRange(a) && Literal(env)
    ensures Evaluate([Putn(a), "<<", Putn(0)], env) == Ok(a, []) == Evaluate([Putn(a), ">>", Putn(0)], env)
  {
    ShiftLeftWords(a, 0, env);
    ShiftRightWords(a, 0, env);
    WrapSame(a);
    assert a * 1 == a / 1 == a;
  }

  lemma ShiftLeftWords(a: int, b: int, env: Env)
    requires InRange(a) && InRange(b) && Literal(env)
    ensures Evaluate([Putn(a), "<<", Putn(b)], env) == Ok(Wrap(a * Pow2(b % 32)), [])
  {
    Numbers(ShiftLeft, a, b, env);
    WrapSame(Wrap(a * Pow2(b % 32)));
    Three(Putn(a), "<<", Putn(b));
  }

  lemma ShiftRightWords(a: int, b: int, env: Env)
    requires InRange(a) && InRange(b) && Literal(env)
    ensures Evaluate([Putn(a), ">>", Putn(b)], env) == Ok(Wrap(a / Pow2(b % 32)), [])
  {
    Numbers(ShiftRight, a, b, env);
    WrapSame(Wrap(a / Pow2(b % 32)));
    Three(Putn(a), ">>", Putn(b));
  }

  /** Only the count modulo 32 matters. */
  lemma ShiftLeftModulo(a: int, b: int, k: int, env: Env)
    requires InRange(a) && InRange(b) && k == b % 32 && Literal(env)
    ensures Evaluate([Putn(a), "<<", Putn(b)], env) == Evaluate([Putn(a), "<<", Putn(k)], env)
  {
    SameCount(b, k);
    ShiftLeftWords(a, b, env);
    ShiftLeftWords(a, k, env);
  }

  lemma SameCount(b: int, k: int)
    requires k == b % 32
    ensures k % 32 == b % 32 && InRange(k)
  {
  }

  lemma ShiftRightModulo(a: int, b: int, k: int, env: Env)
    requires InRange(a) && InRange(b) && k == b % 32 && Literal(env)
    ensures Evaluate([Putn(a), ">>", Putn(b)], env) == Evaluate([Putn(a), ">>", Putn(k)], env)
  {
    SameCount(b, k);
    ShiftRightWords(a, b, env);
    ShiftRightWords(a, k, env);
  }

  /** One place more to the left doubles. */
  lemma ShiftLeftMore(a: int, k: nat, env: Env) returns (x: int)
    requires InRange(a) && k < 31 && Literal(env)
    ensures Evaluate([Putn(a), "<<", Putn(k)], env) == Ok(x, [])
    ensures Evaluate([Putn(a), "<<", Putn(k + 1)], env) == Ok(Wrap(2 * x), [])
  {
    x := ShiftedLeft(a, k);
    ShiftLeftWords(a, k, env);
    ShiftLeftWords(a, k + 1, env);
  }

  lemma ShiftedLeft(a: int, k: nat) returns (x: int)
    requires k < 31
    ensures x == Wrap(a * Pow2(k % 32)) && Wrap(2 * x) == Wrap(a * Pow2((k + 1) % 32))
  {
    x := Wrap(a * Pow2(k));
    TwiceAsMuch(a, k);
    Doubled(a * Pow2(k));
    SmallCount(k);
    SmallCount(k + 1);
  }

  lemma SmallCount(k: nat)
    requires k < 32
    ensures k % 32 == k
  {
  }

  lemma TwiceAsMuch(a: int, k: nat)
    ensures a * Pow2(k + 1) == 2 * (a * Pow2(k))
  {
  }

  /** One place more to the right halves, rounding down. */
  lemma ShiftRightMore(a: int, k: nat, env: Env) returns (y: int, z: int)
    requires InRange(a) && k < 31 && Literal(env)
    ensures Evaluate([Putn(a), ">>", Putn(k)], env) == Ok(y, [])
    ensures Evaluate([Putn(a), ">>", Putn(k + 1)], env) == Ok(z, [])
    ensures y == 2 * z || y == 2 * z + 1
  {
    y, z := ShiftedRight(a, k);
    ShiftRightWords(a, k, env);
    ShiftRightWords(a, k + 1, env);
  }

  lemma ShiftedRight(a: int, k: nat) returns (y: int, z: int)
    requires InRange(a) && k < 31
    ensures y == Wrap(a / Pow2(k % 32)) && z == Wrap(a / Pow2((k + 1) % 32)) && (y == 2 * z || y == 2 * z + 1)
  {
    y, z := a / Pow2(k), a / Pow2(k + 1);
    Halved(a, k);
    Quotients(a, k);
    Quotients(a, k + 1);
    SmallCount(k);
    SmallCount(k + 1);
  }

  lemma Doubled(n: int)
    ensures Wrap(2 * Wrap(n)) == Wrap(2 * n)
  {
    var j := (Wrap(n) - n) / TWO32;
    WrapEqual(2 * Wrap(n), 2 * n, 2 * j);
  }

  lemma Halved(a: int, k: nat)
    ensures var y, z := a / Pow2(k), a / Pow2(k + 1); y == 2 * z || y == 2 * z + 1
  {
    var d := Pow2(k);
    var z := a / (2 * d);
    assert a == (2 * d) * z + a % (2 * d);
    if a % (2 * d) < d {
      Floor(a, d, 2 * z);
    } else {
      Floor(a, d, 2 * z + 1);
    }
  }

  lemma Floor(a: int, d: int, q: int)
    requires d > 0 && d * q <= a < d * q + d
    ensures a / d == q
  {
    var p := a / d;
    assert a == d * p + a % d;
    if p < q {
      Below(d, p, q);
    } else if p > q {
      Below(d, q, p);
    }
  }

  lemma Below(d: int, p: int, q: int)
    requires d > 0 && p < q
    ensures d * p + d <= d * q
  {
    Grows(d, q - p);
  }

  lemma Grows(d: int, n: int)
    requires d > 0 && n >= 1
    ensures d * n >= d
  {
  }

  lemma Quotients(a: int, k: nat)
    requires InRange(a)
    ensures InRange(a / Pow2(k)) && Wrap(a / Pow2(k)) == a / Pow2(k)
  {
    Smaller(a, Pow2(k));
    WrapSame(a / Pow2(k));
  }

  lemma Smaller(a: int, d: int)
    requires d >= 1
    ensures if a >= 0 then 0 <= a / d <= a else a <= a / d < 0
  {
    var q := a / d;
    assert a == d * q + a % d && 0 <= a % d < d;
    if q >= 0 {
      Stretched(d, q);
    } else {
      Stretched(d, -q - 1);
      assert d * (-q - 1) == -(d * q) - d;
    }
  }

  lemma Stretched(d: int, n: int)
    requires d >= 1 && n >= 0
    ensures d * n >= n
  {
  }

  // ---- bits ------------------------------------------------------------------------------------

  /** The i-th bit of a number, negative ones in two's complement. */
  function BitAt(x: int, i: nat): (b: int)
    ensures 0 <= b <= 1
    decreases i
  {
    if i == 0 then x % 2 else BitAt(x / 2, i - 1)
  }

  lemma {:induction false} CombinedBits(op: Bits, a: int, b: int, n: nat, i: nat)
    requires i < n
    ensures BitAt(Combined(op, a, b, n), i) == Bit(op, BitAt(a, i), BitAt(b, i))
    decreases n
  {
    var low, high := Bit(op, a % 2, b % 2), Combined(op, a / 2, b / 2, n - 1);
    assert (low + 2 * high) % 2 == low && (low + 2 * high) / 2 == high;
    if i > 0 {
      CombinedBits(op, a / 2, b / 2, n - 1, i - 1);
    }
  }

  function Two(n: nat): int { if n == 0 then 1 else 2 * Two(n - 1) }

  /** A multiple of 2^n does not matter to the bits below. */
  lemma {:induction false} SameBits(x: int, k: int, n: nat, i: nat)
    requires i < n
    ensures BitAt(x + k * Two(n), i) == BitAt(x, i)
    decreases n
  {
    var half := k * Two(n - 1);
    Doubling(k, Two(n - 1));
    assert (x + 2 * half) % 2 == x % 2 && (x + 2 * half) / 2 == x / 2 + half;
    if i > 0 {
      SameBits(x / 2, k, n - 1, i - 1);
    }
  }

  lemma Doubling(k: int, n: int)
    ensures k * (2 * n) == 2 * (k * n)
  {
  }

  lemma Two32()
    ensures Two(32) == TWO32
  {
    assert Two(8) == 0x100;
    assert Two(16) == 0x1_0000;
    assert Two(24) == 0x100_0000;
  }

  lemma WrapBits(x: int, i: nat)
    requires i < 32
    ensures BitAt(Wrap(x), i) == BitAt(x, i)
  {
    var k := (Wrap(x) - x) / TWO32;
    assert Wrap(x) == x + k * TWO32;
    Two32();
    SameBits(x, k, 32, i);
  }

  lemma BitwiseBits(op: Bits, a: int, b: int, i: nat)
    requires i < 32
    ensures BitAt(Bitwise(op, a, b), i) == Bit(op, BitAt(a, i), BitAt(b, i))
  {
    CombinedBits(op, a, b, 32, i);
    WrapBits(Combined(op, a, b, 32), i);
  }

  /** The words of a bitwise operation. */
  lemma BitWords(op: Bits, a: int, b: int, env: Env)
    requires InRange(a) && InRange(b) && Literal(env)
    ensures Evaluate([Putn(a)] + (Tree.Sign(Tree.Bitwise(op)) + [Putn(b)]), env) == Ok(Bitwise(op, a, b), [])
  {
    NumberInert(a);
    NumberInert(b);
    Operated(Tree.Bitwise(op), Putn(a), Putn(b), env);
    NumberWord(a, Mode(false, false), env);
    NumberWord(b, Mode(false, false), env);
  }

  /** Every bit of the three operations on bits. */
  lemma BitsOfOr(a: int, b: int, env: Env) returns (r: int)
    requires InRange(a) && InRange(b) && Literal(env)
    ensures Evaluate([Putn(a), "|", Putn(b)], env) == Ok(r, []) && InRange(r)
    ensures forall i :: 0 <= i < 32 ==> (BitAt(r, i) == 1 <==> BitAt(a, i) == 1 || BitAt(b, i) == 1)
  {
    BitWords(BitOr, a, b, env);
    Three(Putn(a), "|", Putn(b));
    r := Bitwise(BitOr, a, b);
    forall i | 0 <= i < 32 ensures BitAt(r, i) == 1 <==> BitAt(a, i) == 1 || BitAt(b, i) == 1 {
      BitwiseBits(BitOr, a, b, i);
    }
  }

  lemma BitsOfXor(a: int, b: int, env: Env) returns (r: int)
    requires InRange(a) && InRange(b) && Literal(env)
    ensures Evaluate([Putn(a), "^", Putn(b)], env) == Ok(r, []) && InRange(r)
    ensures forall i :: 0 <= i < 32 ==> (BitAt(r, i) == 1 <==> BitAt(a, i) != BitAt(b, i))
  {
    BitWords(BitXor, a, b, env);
    Three(Putn(a), "^", Putn(b));
    r := Bitwise(BitXor, a, b);
    forall i | 0 <= i < 32 ensures BitAt(r, i) == 1 <==> BitAt(a, i) != BitAt(b, i) {
      BitwiseBits(BitXor, a, b, i);
    }
  }

  lemma BitsOfAnd(a: int, b: int, env: Env) returns (r: int)
    requires InRange(a) && InRange(b) && Literal(env)
    ensures Evaluate([Putn(a), "&", Putn(b)], env) == Ok(r, []) && InRange(r)
    ensures forall i :: 0 <= i < 32 ==> (BitAt(r, i) == 1 <==> BitAt(a, i) == 1 && BitAt(b, i) == 1)
  {
    BitWords(BitAnd, a, b, env);
    Three(Putn(a), "&", Putn(b));
    r := Bitwise(BitAnd, a, b);
    forall i | 0 <= i < 32 ensures BitAt(r, i) == 1 <==> BitAt(a, i) == 1 && BitAt(b, i) == 1 {
      BitwiseBits(BitAnd, a, b, i);
    }
  }

  // ---- truth -----------------------------------------------------------------------------------

  /** The outcome of `||` and `&&` is 1 or 0. */
  lemma Connectives(a: int, b: int, env: Env)
    requires InRange(a) && InRange(b) && Literal(env)
    ensures Evaluate([Putn(a), "||", Putn(b)], env) == Ok(if a != 0 || b != 0 then 1 else 0, [])
    ensures Evaluate([Putn(a), "&&", Putn(b)], env) == Ok(if a != 0 && b != 0 then 1 else 0, [])
  {
    NumberInert(a);
    NumberInert(b);
    NumberWord(a, Mode(false, false), env);
    NumberWord(b, Mode(a != 0, false), env);
    NumberWord(b, Mode(a == 0, false), env);
    Operated(Tree.LogOr, Putn(a), Putn(b), env);
    Operated(Tree.LogAnd, Putn(a), Putn(b), env);
    Three(Putn(a), "||", Putn(b));
    Three(Putn(a), "&&", Putn(b));
  }

  /** Texts are compared as they are, or by the pattern match, whose pattern is not globbed. */
  lemma Equalities(w: Word, v: Word, g: Word, h: Word, env: Env)
    requires Tree.Inert(w) && Tree.Inert(v) && env.glob(w) == Some(g) && env.glob(v) == Some(h)
    ensures Evaluate([w, "==", v], env) == Ok(if g == h then 1 else 0, [])
    ensures Evaluate([w, "!=", v], env) == Ok(if g == h then 0 else 1, [])
  {
    Operated(Tree.Equality(EQEQ), w, v, env);
    Operated(Tree.Equality(NOTEQ), w, v, env);
    Three(w, "==", v);
    Three(w, "!=", v);
  }

  lemma Matches(w: Word, v: Word, g: Word, env: Env)
    requires Tree.Inert(w) && Tree.Inert(v) && env.glob(w) == Some(g)
    ensures Evaluate([w, "=~", v], env) == Ok(if env.matches(g, v) then 1 else 0, [])
    ensures Evaluate([w, "!~", v], env) == Ok(if env.matches(g, v) then 0 else 1, [])
  {
    Operated(Tree.Equality(EQMATCH), w, v, env);
    Operated(Tree.Equality(NOTEQMATCH), w, v, env);
    Three(w, "=~", v);
    Three(w, "!~", v);
  }

  // ---- values that are ignored -------------------------------------------------------------------

  /** Behind a left side that settles the outcome, anything may stand that can be parsed. */
  lemma ShortCircuit(n: int, e: Tree.Expr, env: Env)
    requires InRange(n) && Literal(env)
    ensures n == 0 && Tree.Normal(e, 1) && Tree.Value(e, Mode(true, false), env).Some? ==>
      Evaluate([Putn(n)] + (["&&"] + Tree.Print(e)), env) == Ok(0, [])
    ensures n != 0 && Tree.Normal(e, 0) && Tree.Value(e, Mode(true, false), env).Some? ==>
      Evaluate([Putn(n)] + (["||"] + Tree.Print(e)), env) == Ok(1, [])
  {
    NumberInert(n);
    NumberWord(n, Mode(false, false), env);
    LeafNormal(Putn(n), 1);
    LeafNormal(Putn(n), 2);
    var and, or := Tree.Binary(Tree.LogAnd, Tree.Leaf(Putn(n)), e), Tree.Binary(Tree.LogOr, Tree.Leaf(Putn(n)), e);
    if Tree.Normal(e, 1) {
      assert Tree.Normal(and, 1) && Tree.Normal(and, 0);
      Tree.EvaluatesTree(and, env);
    }
    if Tree.Normal(e, 0) {
      assert Tree.Normal(or, 0);
      Tree.EvaluatesTree(or, env);
    }
  }

  /** So a division by zero can. */
  lemma DivisionSkipped(n: int, a: int, env: Env)
    requires InRange(n) && InRange(a) && Literal(env)
    ensures n == 0 ==> Evaluate([Putn(n)] + (["&&"] + ([Putn(a)] + (["/"] + [Putn(0)]))), env) == Ok(0, [])
    ensures n != 0 ==> Evaluate([Putn(n)] + (["||"] + ([Putn(a)] + (["/"] + [Putn(0)]))), env) == Ok(1, [])
  {
    DivisionIgnored(a, env);
    ShortCircuit(n, Operation(Tree.Number(Over), a, 0), env);
  }

  lemma DivisionIgnored(a: int, env: Env)
    requires InRange(a) && Literal(env)
    ensures var e := Operation(Tree.Number(Over), a, 0);
      Tree.Normal(e, 0) && Tree.Normal(e, 1) && Tree.Value(e, Mode(true, false), env).Some? &&
      Tree.Print(e) == [Putn(a)] + (["/"] + [Putn(0)])
  {
    NumberInert(a);
    NumberInert(0);
    NumberWord(a, Mode(true, false), env);
    NumberWord(0, Mode(true, false), env);
    LevelNormal(Tree.Number(Over), Putn(a), Putn(0), 0);
    LevelNormal(Tree.Number(Over), Putn(a), Putn(0), 1);
  }

  /** What a comparison leaves then is the code of its operator. */
  lemma EqualityCodes(w: Word, v: Word, env: Env)
    requires Tree.Inert(w) && Tree.Inert(v) && Literal(env)
    ensures Exp2c([w, "==", v], Mode(true, false), env) == Ok(1, [])
    ensures Exp2c([w, "!=", v], Mode(true, false), env) == Ok(6, [])
    ensures Exp2c([w, "=~", v], Mode(true, false), env) == Ok(7, [])
    ensures Exp2c([w, "!~", v], Mode(true, false), env) == Ok(8, [])
  {
    EqualityIgnored(EQEQ, w, v, env);
    EqualityIgnored(NOTEQ, w, v, env);
    EqualityIgnored(EQMATCH, w, v, env);
    EqualityIgnored(NOTEQMATCH, w, v, env);
    Three(w, "==", v);
    Three(w, "!=", v);
    Three(w, "=~", v);
    Three(w, "!~", v);
  }

  lemma EqualityIgnored(op: Equality, w: Word, v: Word, env: Env)
    requires Tree.Inert(w) && Tree.Inert(v) && Literal(env)
    ensures Exp2c([w] + (Tree.Sign(Tree.Equality(op)) + [v]), Mode(true, false), env) ==
      Ok(Compare(op, w, v, Mode(true, false), env), [])
  {
    var e := Tree.Binary(Tree.Equality(op), Tree.Leaf(w), Tree.Leaf(v));
    LevelNormal(Tree.Equality(op), w, v, 5);
    assert Tree.Print(e) + [] == Tree.Print(e);
    Tree.Parses2c(e, Mode(true, false), env, []);
  }

  lemma RelationCodes(w: Word, v: Word, env: Env)
    requires Tree.Inert(w) && Tree.Inert(v) && Literal(env)
    ensures Exp3([w, "<", v], Mode(true, false), env) == Ok(Putn(4), [])
    ensures Exp3([w, "<", "=", v], Mode(true, false), env) == Ok(Putn(5), [])
    ensures Exp3([w, ">", v], Mode(true, false), env) == Ok(Putn(2), [])
    ensures Exp3([w, ">", "=", v], Mode(true, false), env) == Ok(Putn(3), [])
  {
    RelationIgnored(Less, w, v, env);
    RelationIgnored(LessEq, w, v, env);
    RelationIgnored(Greater, w, v, env);
    RelationIgnored(GreaterEq, w, v, env);
    Three(w, "<", v);
    Four(w, "<", "=", v);
    Three(w, ">", v);
    Four(w, ">", "=", v);
  }

  lemma RelationIgnored(op: Arith, w: Word, v: Word, env: Env)
    requires Tree.Inert(w) && Tree.Inert(v) && Literal(env) && Tree.Level(Tree.Number(op)) == 6
    ensures Exp3([w] + (Tree.Sign(Tree.Number(op)) + [v]), Mode(true, false), env) == Ok(Tree.Ignored(op), [])
  {
    var e := Tree.Binary(Tree.Number(op), Tree.Leaf(w), Tree.Leaf(v));
    LevelNormal(Tree.Number(op), w, v, 6);
    assert Tree.Print(e) + [] == Tree.Print(e);
    Tree.Parses3(e, Mode(true, false), env, []);
  }

  // ---- primaries -------------------------------------------------------------------------------

  lemma Primary(e: Tree.Expr, env: Env)
    requires Tree.Normal(e, 10) && !e.Binary?
    ensures Evaluate(Tree.Print(e), env) == Tree.Lift(Tree.Value(e, Mode(false, false), env), [])
  {
    PrimaryNormal(e, 0);
    Tree.EvaluatesTree(e, env);
  }

  lemma PrimaryNormal(e: Tree.Expr, k: nat)
    requires k <= 10 && Tree.Normal(e, 10) && !e.Binary?
    ensures Tree.Normal(e, k)
    decreases 10 - k
  {
    if k < 10 {
      PrimaryNormal(e, k + 1);
    }
  }

  /** A number is its value, in parentheses too. */
  lemma NumberAlone(n: int, env: Env)
    requires InRange(n) && Literal(env)
    ensures Evaluate([Putn(n)], env) == Ok(n, [])
  {
    NumberInert(n);
    NumberWord(n, Mode(false, false), env);
    Primary(Tree.Leaf(Putn(n)), env);
  }

  lemma NumberGrouped(n: int, env: Env)
    requires InRange(n) && Literal(env)
    ensures Evaluate(["(", Putn(n), ")"], env) == Ok(n, [])
  {
    NumberInert(n);
    LeafNormal(Putn(n), 0);
    GroupValue(n, env);
    Primary(Tree.Group(Tree.Leaf(Putn(n))), env);
    Three("(", Putn(n), ")");
  }

  lemma GroupValue(n: int, env: Env)
    requires InRange(n) && Literal(env)
    ensures Tree.Value(Tree.Group(Tree.Leaf(Putn(n))), Mode(false, false), env) == Some(n)
  {
    NumberWord(n, Mode(false, false), env);
    WrapSame(n);
    assert Tree.Value(Tree.Leaf(Putn(n)), Mode(false, false), env) == Some(n);
    assert Tree.Text(Tree.Group(Tree.Leaf(Putn(n))), Mode(false, false), env) == Some(Putn(n));
  }

  /** `!` tells whether a number is 0. */
  lemma Negation(n: int, env: Env)
    requires InRange(n) && Literal(env)
    ensures Evaluate(["!", Putn(n)], env) == Ok(if n == 0 then 1 else 0, [])
  {
    NumberWord(n, Mode(false, false), env);
    NumberInert(if n == 0 then 1 else 0);
    Primary(Tree.Prefix(false, Tree.Leaf(Putn(n))), env);
    assert ["!"] + [Putn(n)] == ["!", Putn(n)];
  }

  /** `~` turns all the bits of a number around. */
  lemma Complement(n: int, env: Env)
    requires InRange(n) && Literal(env)
    ensures Evaluate(["~", Putn(n)], env) == Ok(-1 - n, [])
    ensures forall i: nat :: BitAt(-1 - n, i) == 1 - BitAt(n, i)
  {
    NumberWord(n, Mode(false, false), env);
    NumberInert(-1 - n);
    Primary(Tree.Prefix(true, Tree.Leaf(Putn(n))), env);
    assert ["~"] + [Putn(n)] == ["~", Putn(n)];
    forall i: nat ensures BitAt(-1 - n, i) == 1 - BitAt(n, i) {
      ComplementBits(n, i);
    }
  }

  lemma {:induction false} ComplementBits(n: int, i: nat)
    ensures BitAt(-1 - n, i) == 1 - BitAt(n, i)
    decreases i
  {
    assert (-1 - n) % 2 == 1 - n % 2 && (-1 - n) / 2 == -1 - n / 2;
    if i > 0 {
      ComplementBits(n / 2, i - 1);
    }
  }

  /** The letters of the file inquiries. */
  predicate Letter(c: char) {
    c == 'e' || c == 'r' || c == 'w' || c == 'x' || c == 'f' || c == 'd' || c == 'z' || c == 'o' || c == 'p' || c == 'l' || c == 's'
  }

  /** Which words are file inquiries: those that begin with a minus and a letter. */
  lemma InquiryWords(w: Word)
    requires '\0' !in w
    ensures Inquiry(w) <==> |w| >= 2 && w[0] == '-' && Letter(w[1])
  {
    InquiryLetters(At(w, 1));
  }

  lemma InquiryLetters(c: char)
    ensures c in "erwxfdzopls" <==> Letter(c)
  {
    if c in "erwxfdzopls" {
      LetterOf(c);
    }
    if Letter(c) {
      LetterIn(c);
    }
  }

  lemma LetterOf(c: char)
    requires c in "erwxfdzopls"
    ensures Letter(c)
  {
    var s := "erwxfdzopls";
    var i :| 0 <= i < 11 && s[i] == c;
    assert i == 0 || i == 1 || i == 2 || i == 3 || i == 4 || i == 5 || i == 6 || i == 7 || i == 8 || i == 9 || i == 10;
  }

  lemma LetterIn(c: char)
    requires Letter(c)
    ensures c in "erwxfdzopls"
  {
    var s := "erwxfdzopls";
    var i := if c == 'e' then 0 else if c == 'r' then 1 else if c == 'w' then 2 else if c == 'x' then 3
      else if c == 'f' then 4 else if c == 'd' then 5 else if c == 'z' then 6 else if c == 'o' then 7
      else if c == 'p' then 8 else if c == 'l' then 9 else 10;
    assert s[i] == c;
  }

  /** Commands and file inquiries are 1 or 0. */
  lemma Outcomes(ws: seq<Word>, c: char, w: Word, f: Word, env: Env)
    requires "}" !in ws && Letter(c) && !AnyOp([w]) && env.glob(w) == Some(f)
    ensures Evaluate(["{"] + (ws + ["}"]), env) == Ok(if env.succeeds(ws) then 1 else 0, [])
    ensures Evaluate([['-', c], w], env) == Ok(if env.inquire(c, f) then 1 else 0, [])
  {
    NumberInert(0);
    NumberInert(1);
    InquiryWords(['-', c]);
    Primary(Tree.Command(ws), env);
    Primary(Tree.File(c, w), env);
  }

  /** An inquiry is an error if its word goes on behind the letter, and if no file is behind it: nothing at all,
      or an operator that is not the name of a file. */
  lemma InquiryErrors(p: Word, rest: seq<Word>, env: Env)
    requires '\0' !in p && |p| >= 2 && p[0] == '-' && Letter(p[1])
    ensures |p| > 2 || rest == [] || (AnyOp(rest) && !env.exists_(rest[0])) ==> Evaluate([p] + rest, env) == Fail
  {
    InquiryWords(p);
    var ts := [p] + rest;
    assert ts[1..] == rest && (|p| > 2 ==> p[2] in p);
    if |p| > 2 || rest == [] || (AnyOp(rest) && !env.exists_(rest[0])) {
      assert Inquire(ts, Mode(false, false), env) == Fail;
      assert Exp6(ts, Mode(false, false), env) == Fail;
      FailsThrough(ts, env);
    }
  }

  /** What the innermost level rejects is rejected. */
  lemma FailsThrough(ts: seq<Word>, env: Env)
    requires Exp6(ts, Mode(false, false), env) == Fail
    ensures Evaluate(ts, env) == Fail
  {
    var m := Mode(false, false);
    assert Exp4(ts, m, env) == Fail;
    assert Exp3(ts, m, env) == Fail;
    assert Exp2b(ts, m, env) == Fail;
    assert Exp2(ts, m, env) == Fail;
    assert Exp1(ts, m, env) == Fail;
  }

  /** As an operand a word is the number it is the text of, unless it begins with `+`. */
  lemma OperandNumber(w: Word)
    ensures Egetn(w) == if w != "" && w[0] == '+' then None else Getn(w)
  {
    if Getn(w).Some? {
      var p, d := Text.NumberOnly(w);
      assert p == "" && d != "" ==> w[0] == d[0];
    }
  }

  /** A word that is no number cannot be calculated with. */
  lemma NotANumber(w: Word, n: int, env: Env)
    requires Tree.Inert(w) && InRange(n) && Literal(env) && Getn(w).None?
    ensures Evaluate([w], env) == Fail
    ensures Evaluate([w, "+", Putn(n)], env) == Fail == Evaluate([Putn(n), "+", w], env)
  {
    NumberInert(n);
    Primary(Tree.Leaf(w), env);
    Operated(Tree.Number(Plus), w, Putn(n), env);
    Operated(Tree.Number(Plus), Putn(n), w, env);
    Three(w, "+", Putn(n));
    Three(Putn(n), "+", w);
  }

  /** Which words are operators: those that begin with `<` or `>`, and a few others. */
  lemma OperatorWords(w: Word)
    requires '\0' !in w
    ensures AnyOp([w]) <==>
      (w != "" && (w[0] == '<' || w[0] == '>')) ||
      w in {"+", "-", "*", "/", "%", "==", "!=", "=~", "!~", "(", ")", "!", "~", "^", "\"", "|&"}
  {
    if |w| == 1 {
      assert w == [w[0]];
    } else if |w| == 2 {
      assert w == [w[0], w[1]] && w[0] in w && w[1] in w;
    } else if |w| > 2 {
      assert w[0] in w && w[1] in w && w[2] in w;
    }
  }
}
