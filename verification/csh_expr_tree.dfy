/** Expressions as trees, their values, and the evaluator on the words they are written with. */
module CshExprTree {
  import opened CshNumbers
  import opened CshExpr

  datatype Op = LogOr | LogAnd | Bitwise(b: Bits) | Equality(e: CshExpr.Equality) | Number(a: Arith)

  datatype Expr =
    | Binary(op: Op, l: Expr, r: Expr)
    | Prefix(complement: bool, e: Expr)
    | Group(e: Expr)
    | Leaf(w: Word)
    | File(c: char, w: Word)
    | Command(ws: seq<Word>)

  /** How tightly an operator binds. */
  function Level(op: Op): nat {
    match op
    case LogOr => 0
    case LogAnd => 1
    case Bitwise(b) => (match b case BitOr => 2 case BitXor => 3 case BitAnd => 4)
    case Equality(_) => 5
    case Number(a) =>
      if a.Less? || a.LessEq? || a.Greater? || a.GreaterEq? then 6
      else if a.ShiftLeft? || a.ShiftRight? then 7
      else if a.Plus? || a.Minus? then 8
      else 9
  }

  /** How an operator is written. */
  function Sign(op: Op): seq<Word> {
    match op
    case LogOr => ["||"]
    case LogAnd => ["&&"]
    case Bitwise(b) => (match b case BitOr => ["|"] case BitXor => ["^"] case BitAnd => ["&"])
    case Equality(e) => (match e case EQEQ => ["=="] case NOTEQ => ["!="] case EQMATCH => ["=~"] case NOTEQMATCH => ["!~"])
    case Number(a) =>
      match a
      case Less => ["<"]
      case LessEq => ["<", "="]
      case Greater => [">"]
      case GreaterEq => [">", "="]
      case ShiftLeft => ["<<"]
      case ShiftRight => [">>"]
      case Plus => ["+"]
      case Minus => ["-"]
      case Times => ["*"]
      case Over => ["/"]
      case Rem => ["%"]
  }

  function Print(e: Expr): seq<Word> {
    match e
    case Binary(op, l, r) => Print(l) + (Sign(op) + Print(r))
    case Prefix(complement, e1) => [if complement then "~" else "!"] + Print(e1)
    case Group(e1) => ["("] + (Print(e1) + [")"])
    case Leaf(w) => [w]
    case File(c, w) => [['-', c], w]
    case Command(ws) => ["{"] + (ws + ["}"])
  }

  /** A word that stands for itself. */
  predicate Inert(w: Word) {
    w != "{" && w != "=" && w != "!" && w != "~" && w != "(" && !AnyOp([w]) && !Inquiry(w)
  }

  /** Trees the levels of the grammar make: an operator's left side binds tighter, its right side
      as tightly, except that comparisons do not follow one another. */
  predicate Normal(e: Expr, k: nat)
    requires k <= 10
    decreases e, 10 - k
  {
    if k == 10 then
      match e
      case Binary(_, _, _) => false
      case Prefix(_, e1) => Normal(e1, 10)
      case Group(e1) => Normal(e1, 0)
      case Leaf(w) => Inert(w)
      case File(c, w) => Inquiry(['-', c]) && !AnyOp([w])
      case Command(ws) => "}" !in ws
    else if e.Binary? && Level(e.op) == k then
      Normal(e.l, k + 1) && Normal(e.r, if k == 5 then 6 else k)
    else Normal(e, k + 1)
  }

  // ---- values --------------------------------------------------------------------------

  function Number1(t: Option<Word>): Option<int> {
    if t.None? then None else Egetn(t.value)
  }

  /** The value of a tree as a number. The right side of `||` and `&&` is only parsed when the
      left side settles the outcome. */
  function Value(e: Expr, m: Mode, env: Env): Option<int>
    decreases e, 1
  {
    if e.Binary? && !e.op.Number? then
      match e.op
      case LogOr =>
        var v := Value(e.l, m, env);
        if v.None? then None
        else
          var v2 := Value(e.r, Mode(m.ign || v.value != 0, false), env);
          if v2.None? then None else Some(Truth(v.value != 0 || v2.value != 0))
      case LogAnd =>
        var v := Value(e.l, m, env);
        if v.None? then None
        else
          var v2 := Value(e.r, Mode(m.ign || v.value == 0, false), env);
          if v2.None? then None else Some(Truth(v.value != 0 && v2.value != 0))
      case Bitwise(b) =>
        var v, v2 := Value(e.l, m, env), Value(e.r, m, env);
        if v.None? || v2.None? then None else Some(CshExpr.Bitwise(b, v.value, v2.value))
      case Equality(op) =>
        var t, t2 := Text(e.l, m, env), Text(e.r, OperandMode(op, m), env);
        if t.None? || t2.None? then None else Some(Compare(op, t.value, t2.value, m, env))
    else Number1(Text(e, m, env))
  }

  function Ignored(a: Arith): Word {
    match a
    case Less => Putn(4)
    case LessEq => Putn(5)
    case Greater => Putn(2)
    case GreaterEq => Putn(3)
    case _ => Putn(0)
  }

  /** The value of a tree as text. */
  function Text(e: Expr, m: Mode, env: Env): Option<Word>
    decreases e, 0
  {
    match e
    case Binary(op, l, r) =>
      if !op.Number? then None
      else
        var t, t2 := Text(l, m, env), Text(r, m, env);
        if t.None? || t2.None? then None
        else if m.ign && Level(op) != 7 then Some(Ignored(op.a))
        else Apply(op.a, t.value, t2.value)
    case Prefix(complement, e1) =>
      var n := Number1(Text(e1, m, env));
      if n.None? then None else Some(Putn(UnaryValue(n.value, complement)))
    case Group(e1) =>
      var v := Value(e1, m, env);
      if v.None? then None else Some(Putn(Wrap(v.value)))
    case Leaf(w) => if m.noglob then Some(w) else env.glob(w)
    case File(c, w) =>
      if m.ign then Some("")
      else
        var f := env.glob(w);
        if f.None? then None else Some(Putn(Truth(env.inquire(c, f.value))))
    case Command(ws) => Some(if m.ign then "" else Putn(Truth(env.succeeds(ws))))
  }

  // ---- the evaluator on printed trees --------------------------------------------------

  /** The words do not go on with an operator of level k or tighter. */
  predicate Stops(ts: seq<Word>, k: nat) {
    ts == [] ||
    var w := ts[0];
    (k <= 0 ==> w != "||") && (k <= 1 ==> w != "&&") && (k <= 2 ==> w != "|") && (k <= 3 ==> w != "^") &&
    (k <= 4 ==> w != "&") && (k <= 5 ==> EqOp(w).None?) && (k <= 6 ==> !RelOp(w)) && (k <= 7 ==> !ShiftOp(w)) &&
    (k <= 8 ==> !AddOp(w)) && (k <= 9 ==> !MulOp(w))
  }

  function Lift<T>(v: Option<T>, rest: seq<Word>): Result<T> {
    if v.None? then Fail else Ok(v.value, rest)
  }

  lemma Regroup(a: seq<Word>, b: seq<Word>, c: seq<Word>, d: seq<Word>)
    ensures (a + (b + c)) + d == a + (b + (c + d))
  {
  }

  lemma Regroup2(a: seq<Word>, b: seq<Word>, c: seq<Word>)
    ensures (a + b) + c == a + (b + c)
  {
  }

  /** What is left behind the left side of an operator, and behind the operator. */
  lemma Operator(op: Op, ts: seq<Word>)
    ensures Stops(Sign(op) + ts, Level(op) + 1)
    ensures (Sign(op) + ts)[0] == Sign(op)[0]
    ensures |Sign(op)| == 1 ==> (Sign(op) + ts)[1..] == ts
  {
  }

  /** The words of an operator's tree: what follows its left side, and its right side. */
  lemma SplitTree(e: Expr, rest: seq<Word>) returns (after: seq<Word>, ts: seq<Word>)
    requires e.Binary?
    ensures Print(e) + rest == Print(e.l) + after && ts == Print(e.r) + rest
    ensures after != [] && after[0] == Sign(e.op)[0] && Stops(after, Level(e.op) + 1)
    ensures |Sign(e.op)| == 1 ==> after[1..] == ts
    ensures after == Sign(e.op) + ts
  {
    ts := Print(e.r) + rest;
    after := Sign(e.op) + ts;
    Operator(e.op, ts);
    PrintedSplit(e, rest);
  }

  lemma PrintedSplit(e: Expr, rest: seq<Word>)
    requires e.Binary?
    ensures Print(e) + rest == Print(e.l) + (Sign(e.op) + (Print(e.r) + rest))
  {
    Regroup(Print(e.l), Sign(e.op), Print(e.r), rest);
  }

  // ---- one operator at each level ------------------------------------------------------

  lemma Step0(ts: seq<Word>, m: Mode, env: Env, after: seq<Word>, v: Option<int>, v2: Option<int>, rest: seq<Word>)
    requires Exp1(ts, m, env) == Lift(v, after) && Is(after, "||")
    requires v.Some? ==> Exp0(after[1..], Mode(m.ign || v.value != 0, false), env) == Lift(v2, rest)
    ensures Exp0(ts, m, env) == Lift(if v.None? || v2.None? then None else Some(Truth(v.value != 0 || v2.value != 0)), rest)
  {
  }

  lemma Step1(ts: seq<Word>, m: Mode, env: Env, after: seq<Word>, v: Option<int>, v2: Option<int>, rest: seq<Word>)
    requires Exp2(ts, m, env) == Lift(v, after) && Is(after, "&&")
    requires v.Some? ==> Exp1(after[1..], Mode(m.ign || v.value == 0, false), env) == Lift(v2, rest)
    ensures Exp1(ts, m, env) == Lift(if v.None? || v2.None? then None else Some(Truth(v.value != 0 && v2.value != 0)), rest)
  {
  }

  lemma Step2(ts: seq<Word>, m: Mode, env: Env, after: seq<Word>, v: Option<int>, v2: Option<int>, rest: seq<Word>)
    requires Exp2a(ts, m, env) == Lift(v, after) && Is(after, "|")
    requires v.Some? ==> Exp2(after[1..], m, env) == Lift(v2, rest)
    ensures Exp2(ts, m, env) == Lift(if v.None? || v2.None? then None else Some(CshExpr.Bitwise(BitOr, v.value, v2.value)), rest)
  {
  }

  lemma Step2a(ts: seq<Word>, m: Mode, env: Env, after: seq<Word>, v: Option<int>, v2: Option<int>, rest: seq<Word>)
    requires Exp2b(ts, m, env) == Lift(v, after) && Is(after, "^")
    requires v.Some? ==> Exp2a(after[1..], m, env) == Lift(v2, rest)
    ensures Exp2a(ts, m, env) == Lift(if v.None? || v2.None? then None else Some(CshExpr.Bitwise(BitXor, v.value, v2.value)), rest)
  {
  }

  lemma Step2b(ts: seq<Word>, m: Mode, env: Env, after: seq<Word>, v: Option<int>, v2: Option<int>, rest: seq<Word>)
    requires Exp2c(ts, m, env) == Lift(v, after) && Is(after, "&")
    requires v.Some? ==> Exp2b(after[1..], m, env) == Lift(v2, rest)
    ensures Exp2b(ts, m, env) == Lift(if v.None? || v2.None? then None else Some(CshExpr.Bitwise(BitAnd, v.value, v2.value)), rest)
  {
  }

  lemma Step2c(ts: seq<Word>, m: Mode, env: Env, after: seq<Word>, op: CshExpr.Equality,
               t: Option<Word>, t2: Option<Word>, rest: seq<Word>)
    requires Exp3(ts, m, env) == Lift(t, after) && after != [] && EqOp(after[0]) == Some(op)
    requires Exp3(after[1..], OperandMode(op, m), env) == Lift(t2, rest)
    ensures Exp2c(ts, m, env) ==
      Lift(if t.None? || t2.None? then None else Some(Compare(op, t.value, t2.value, m, env)), rest)
  {
  }

  lemma Pass2c(ts: seq<Word>, m: Mode, env: Env, t: Option<Word>, rest: seq<Word>)
    requires Exp3(ts, m, env) == Lift(t, rest) && Stops(rest, 5)
    ensures Exp2c(ts, m, env) == Lift(Number1(t), rest)
  {
  }

  /** The text of an operation, or of its code while values are ignored. */
  function Outcome(op: Arith, m: Mode, t: Option<Word>, t2: Option<Word>): Option<Word> {
    if t.None? || t2.None? then None
    else if m.ign && Level(Number(op)) != 7 then Some(Ignored(op))
    else Apply(op, t.value, t2.value)
  }

  /** The result of an operation on a text and the result of the right side. */
  function Found(op: Arith, m: Mode, t: Option<Word>, r2: Result<Word>): Result<Word> {
    if t.None? || r2.Fail? then Fail
    else if m.ign && Level(Number(op)) != 7 then Ok(Ignored(op), r2.rest)
    else Computed(op, t.value, r2)
  }

  lemma FoundOutcome(op: Arith, m: Mode, t: Option<Word>, t2: Option<Word>, rest: seq<Word>)
    ensures Found(op, m, t, Lift(t2, rest)) == Lift(Outcome(op, m, t, t2), rest)
  {
  }

  /** While values are ignored, only shifts are computed. */
  lemma FoundIgnoring(op: Arith, m: Mode, t: Word, r2: Result<Word>)
    requires op in {Plus, Minus, Times, Over, Rem} && r2.Ok?
    ensures Found(op, m, Some(t), r2) == if m.ign then Ok(Putn(0), r2.rest) else CshExpr.Computed(op, t, r2)
  {
    if m.ign {
      assert Level(Number(op)) != 7 && Ignored(op) == Putn(0);
    }
  }

  lemma FoundShift(op: Arith, m: Mode, t: Word, r2: Result<Word>)
    requires op in {ShiftLeft, ShiftRight}
    ensures Found(op, m, Some(t), r2) == CshExpr.Computed(op, t, r2)
  {
  }

  lemma Step3(ts: seq<Word>, m: Mode, env: Env, after: seq<Word>, ts2: seq<Word>, op: Arith,
              t: Option<Word>, t2: Option<Word>, rest: seq<Word>)
    requires Exp3a(ts, m, env) == Lift(t, after) && after != [] && RelOp(after[0]) && Level(Number(op)) == 6
    requires var equal := Is(after[1..], "=");
      Relation(after[0], equal) == op && Putn(RelationCode(after[0], equal)) == Ignored(op) &&
      ts2 == if equal then after[1..][1..] else after[1..]
    requires Exp3(ts2, m, env) == Lift(t2, rest)
    ensures Exp3(ts, m, env) == Found(op, m, t, Lift(t2, rest))
  {
  }

  lemma Step3a(ts: seq<Word>, m: Mode, env: Env, after: seq<Word>, op: Arith, t: Option<Word>, t2: Option<Word>, rest: seq<Word>)
    requires Exp4(ts, m, env) == Lift(t, after) && after != [] && ShiftOp(after[0])
    requires op == if At(after[0], 0) == '<' then ShiftLeft else ShiftRight
    requires Exp3a(after[1..], m, env) == Lift(t2, rest)
    ensures Exp3a(ts, m, env) == Found(op, m, t, Lift(t2, rest))
  {
    if t.Some? {
      FoundShift(op, m, t.value, Exp3a(after[1..], m, env));
    }
  }

  lemma Step4(ts: seq<Word>, m: Mode, env: Env, after: seq<Word>, op: Arith, t: Option<Word>, t2: Option<Word>, rest: seq<Word>)
    requires Exp5(ts, m, env) == Lift(t, after) && after != [] && AddOp(after[0])
    requires op == if At(after[0], 0) == '+' then Plus else Minus
    requires Exp4(after[1..], m, env) == Lift(t2, rest)
    ensures Exp4(ts, m, env) == Found(op, m, t, Lift(t2, rest))
  {
    if t.Some? && t2.Some? {
      FoundIgnoring(op, m, t.value, Exp4(after[1..], m, env));
    }
  }

  lemma Step5(ts: seq<Word>, m: Mode, env: Env, after: seq<Word>, op: Arith, t: Option<Word>, t2: Option<Word>, rest: seq<Word>)
    requires Exp6(ts, m, env) == Lift(t, after) && after != [] && MulOp(after[0]) && op == Product(after[0])
    requires Exp5(after[1..], m, env) == Lift(t2, rest)
    ensures Exp5(ts, m, env) == Found(op, m, t, Lift(t2, rest))
  {
    if t.Some? && t2.Some? {
      FoundIgnoring(op, m, t.value, Exp5(after[1..], m, env));
    }
  }

  lemma Pass0(ts: seq<Word>, m: Mode, env: Env, v: Option<int>, rest: seq<Word>)
    requires Exp1(ts, m, env) == Lift(v, rest) && Stops(rest, 0)
    ensures Exp0(ts, m, env) == Lift(v, rest)
  {
  }

  lemma Pass1(ts: seq<Word>, m: Mode, env: Env, v: Option<int>, rest: seq<Word>)
    requires Exp2(ts, m, env) == Lift(v, rest) && Stops(rest, 1)
    ensures Exp1(ts, m, env) == Lift(v, rest)
  {
  }

  lemma Pass2(ts: seq<Word>, m: Mode, env: Env, v: Option<int>, rest: seq<Word>)
    requires Exp2a(ts, m, env) == Lift(v, rest) && Stops(rest, 2)
    ensures Exp2(ts, m, env) == Lift(v, rest)
  {
  }

  lemma Pass2a(ts: seq<Word>, m: Mode, env: Env, v: Option<int>, rest: seq<Word>)
    requires Exp2b(ts, m, env) == Lift(v, rest) && Stops(rest, 3)
    ensures Exp2a(ts, m, env) == Lift(v, rest)
  {
  }

  lemma Pass2b(ts: seq<Word>, m: Mode, env: Env, v: Option<int>, rest: seq<Word>)
    requires Exp2c(ts, m, env) == Lift(v, rest) && Stops(rest, 4)
    ensures Exp2b(ts, m, env) == Lift(v, rest)
  {
  }

  lemma Pass3(ts: seq<Word>, m: Mode, env: Env, v: Option<Word>, rest: seq<Word>)
    requires Exp3a(ts, m, env) == Lift(v, rest) && Stops(rest, 6)
    ensures Exp3(ts, m, env) == Lift(v, rest)
  {
  }

  lemma Pass3a(ts: seq<Word>, m: Mode, env: Env, v: Option<Word>, rest: seq<Word>)
    requires Exp4(ts, m, env) == Lift(v, rest) && Stops(rest, 7)
    ensures Exp3a(ts, m, env) == Lift(v, rest)
  {
  }

  lemma Pass4(ts: seq<Word>, m: Mode, env: Env, v: Option<Word>, rest: seq<Word>)
    requires Exp5(ts, m, env) == Lift(v, rest) && Stops(rest, 8)
    ensures Exp4(ts, m, env) == Lift(v, rest)
  {
  }

  lemma Pass5(ts: seq<Word>, m: Mode, env: Env, v: Option<Word>, rest: seq<Word>)
    requires Exp6(ts, m, env) == Lift(v, rest) && Stops(rest, 9)
    ensures Exp5(ts, m, env) == Lift(v, rest)
  {
  }

  lemma {:induction false} Parses0(e: Expr, m: Mode, env: Env, rest: seq<Word>)
    requires Normal(e, 0) && Stops(rest, 0)
    ensures Exp0(Print(e) + rest, m, env) == Lift(Value(e, m, env), rest)
    decreases e, 10
  {
    if e.Binary? && Level(e.op) == 0 {
      var after, ts := SplitTree(e, rest);
      Parses1(e.l, m, env, after);
      var v := Value(e.l, m, env);
      var m2 := Mode(m.ign || (v.Some? && v.value != 0), false);
      Parses0(e.r, m2, env, rest);
      SignOf(e.op);
      Step0(Print(e) + rest, m, env, after, v, Value(e.r, m2, env), rest);
    } else {
      Parses1(e, m, env, rest);
      Pass0(Print(e) + rest, m, env, Value(e, m, env), rest);
    }
  }

  lemma {:induction false} Parses1(e: Expr, m: Mode, env: Env, rest: seq<Word>)
    requires Normal(e, 1) && Stops(rest, 1)
    ensures Exp1(Print(e) + rest, m, env) == Lift(Value(e, m, env), rest)
    decreases e, 9
  {
    if e.Binary? && Level(e.op) == 1 {
      var after, ts := SplitTree(e, rest);
      Parses2(e.l, m, env, after);
      var v := Value(e.l, m, env);
      var m2 := Mode(m.ign || (v.Some? && v.value == 0), false);
      Parses1(e.r, m2, env, rest);
      SignOf(e.op);
      Step1(Print(e) + rest, m, env, after, v, Value(e.r, m2, env), rest);
    } else {
      Parses2(e, m, env, rest);
      Pass1(Print(e) + rest, m, env, Value(e, m, env), rest);
    }
  }

  lemma {:induction false} Parses2(e: Expr, m: Mode, env: Env, rest: seq<Word>)
    requires Normal(e, 2) && Stops(rest, 2)
    ensures Exp2(Print(e) + rest, m, env) == Lift(Value(e, m, env), rest)
    decreases e, 8
  {
    if e.Binary? && Level(e.op) == 2 {
      var after, ts := SplitTree(e, rest);
      Parses2a(e.l, m, env, after);
      Parses2(e.r, m, env, rest);
      SignOf(e.op);
      Step2(Print(e) + rest, m, env, after, Value(e.l, m, env), Value(e.r, m, env), rest);
    } else {
      Parses2a(e, m, env, rest);
      Pass2(Print(e) + rest, m, env, Value(e, m, env), rest);
    }
  }

  lemma {:induction false} Parses2a(e: Expr, m: Mode, env: Env, rest: seq<Word>)
    requires Normal(e, 3) && Stops(rest, 3)
    ensures Exp2a(Print(e) + rest, m, env) == Lift(Value(e, m, env), rest)
    decreases e, 7
  {
    if e.Binary? && Level(e.op) == 3 {
      var after, ts := SplitTree(e, rest);
      Parses2b(e.l, m, env, after);
      Parses2a(e.r, m, env, rest);
      SignOf(e.op);
      Step2a(Print(e) + rest, m, env, after, Value(e.l, m, env), Value(e.r, m, env), rest);
    } else {
      Parses2b(e, m, env, rest);
      Pass2a(Print(e) + rest, m, env, Value(e, m, env), rest);
    }
  }

  lemma {:induction false} Parses2b(e: Expr, m: Mode, env: Env, rest: seq<Word>)
    requires Normal(e, 4) && Stops(rest, 4)
    ensures Exp2b(Print(e) + rest, m, env) == Lift(Value(e, m, env), rest)
    decreases e, 6
  {
    if e.Binary? && Level(e.op) == 4 {
      var after, ts := SplitTree(e, rest);
      Parses2c(e.l, m, env, after);
      Parses2b(e.r, m, env, rest);
      SignOf(e.op);
      Step2b(Print(e) + rest, m, env, after, Value(e.l, m, env), Value(e.r, m, env), rest);
    } else {
      Parses2c(e, m, env, rest);
      Pass2b(Print(e) + rest, m, env, Value(e, m, env), rest);
    }
  }

  lemma {:induction false} Parses2c(e: Expr, m: Mode, env: Env, rest: seq<Word>)
    requires Normal(e, 5) && Stops(rest, 5)
    ensures Exp2c(Print(e) + rest, m, env) == Lift(Value(e, m, env), rest)
    decreases e, 5
  {
    if e.Binary? && Level(e.op) == 5 {
      var after, ts := SplitTree(e, rest);
      var m2 := OperandMode(e.op.e, m);
      Parses3(e.l, m, env, after);
      Parses3(e.r, m2, env, rest);
      EqualitySign(e.op);
      Step2c(Print(e) + rest, m, env, after, e.op.e, Text(e.l, m, env), Text(e.r, m2, env), rest);
    } else {
      NumberTree(e, 6);
      Parses3(e, m, env, rest);
      Pass2c(Print(e) + rest, m, env, Text(e, m, env), rest);
    }
  }

  /** The one operator of a level from 0 to 4. */
  lemma SignOf(op: Op)
    ensures Level(op) == 0 ==> op == LogOr && Sign(op) == ["||"]
    ensures Level(op) == 1 ==> op == LogAnd && Sign(op) == ["&&"]
    ensures Level(op) == 2 ==> op == Bitwise(BitOr) && Sign(op) == ["|"]
    ensures Level(op) == 3 ==> op == Bitwise(BitXor) && Sign(op) == ["^"]
    ensures Level(op) == 4 ==> op == Bitwise(BitAnd) && Sign(op) == ["&"]
  {
  }

  /** The operators of the levels from 7 on. */
  lemma SignFrom7(op: Op)
    requires Level(op) >= 7
    ensures |Sign(op)| == 1 && op.Number?
    ensures Level(op) == 7 ==> ShiftOp(Sign(op)[0]) && op.a == if At(Sign(op)[0], 0) == '<' then ShiftLeft else ShiftRight
    ensures Level(op) == 8 ==> AddOp(Sign(op)[0]) && op.a == if At(Sign(op)[0], 0) == '+' then Plus else Minus
    ensures Level(op) == 9 ==> MulOp(Sign(op)[0]) && op.a == Product(Sign(op)[0])
  {
  }

  lemma EqualitySign(op: Op)
    requires op.Equality?
    ensures |Sign(op)| == 1 && EqOp(Sign(op)[0]) == Some(op.e)
  {
  }

  /** From level 6 on trees have text values. */
  lemma {:induction false} NumberTree(e: Expr, k: nat)
    requires 6 <= k <= 10 && Normal(e, k)
    ensures e.Binary? ==> e.op.Number? && Level(e.op) >= k
    decreases 10 - k
  {
    if k < 10 && !(e.Binary? && Level(e.op) == k) {
      NumberTree(e, k + 1);
    }
  }

  /** No tree begins with `=`. */
  lemma {:induction false} NoEqualFirst(e: Expr, k: nat)
    requires k <= 10 && Normal(e, k)
    ensures Print(e) != [] && Print(e)[0] != "="
    decreases e, 10 - k
  {
    if k == 10 {
    } else if e.Binary? && Level(e.op) == k {
      NoEqualFirst(e.l, k + 1);
    } else {
      NoEqualFirst(e, k + 1);
    }
  }

  /** The words behind a relation. */
  lemma RelationSigns(op: Op, ts: seq<Word>)
    requires Level(op) == 6 && ts != [] && ts[0] != "="
    ensures var tail := (Sign(op) + ts)[1..]; var equal := Is(tail, "=");
      RelOp(Sign(op)[0]) && equal == (|Sign(op)| == 2) && (if equal then tail[1..] else tail) == ts &&
      Relation(Sign(op)[0], equal) == op.a && Putn(RelationCode(Sign(op)[0], equal)) == Ignored(op.a)
  {
    var tail := (Sign(op) + ts)[1..];
    if |Sign(op)| == 2 {
      assert tail == ["="] + ts && tail[1..] == ts;
    } else {
      assert tail == ts;
    }
  }

  /** The words of a relation. */
  lemma SplitRelation(e: Expr, rest: seq<Word>) returns (after: seq<Word>, ts: seq<Word>)
    requires e.Binary? && Level(e.op) == 6 && Normal(e.r, 6)
    ensures Print(e) + rest == Print(e.l) + after && ts == Print(e.r) + rest
    ensures after != [] && RelOp(after[0]) && Stops(after, 7) && e.op.Number?
    ensures var equal := Is(after[1..], "=");
      Relation(after[0], equal) == e.op.a && Putn(RelationCode(after[0], equal)) == Ignored(e.op.a) &&
      ts == if equal then after[1..][1..] else after[1..]
  {
    after, ts := SplitTree(e, rest);
    NoEqualFirst(e.r, 6);
    RelationSigns(e.op, ts);
  }

  lemma {:induction false} Parses3(e: Expr, m: Mode, env: Env, rest: seq<Word>)
    requires Normal(e, 6) && Stops(rest, 6)
    ensures Exp3(Print(e) + rest, m, env) == Lift(Text(e, m, env), rest)
    decreases e, 4
  {
    if e.Binary? && Level(e.op) == 6 {
      var after, ts := SplitRelation(e, rest);
      Parses3a(e.l, m, env, after);
      Parses3(e.r, m, env, rest);
      Step3(Print(e) + rest, m, env, after, ts, e.op.a, Text(e.l, m, env), Text(e.r, m, env), rest);
      FoundOutcome(e.op.a, m, Text(e.l, m, env), Text(e.r, m, env), rest);
    } else {
      Parses3a(e, m, env, rest);
      Pass3(Print(e) + rest, m, env, Text(e, m, env), rest);
    }
  }

  lemma {:induction false} Parses3a(e: Expr, m: Mode, env: Env, rest: seq<Word>)
    requires Normal(e, 7) && Stops(rest, 7)
    ensures Exp3a(Print(e) + rest, m, env) == Lift(Text(e, m, env), rest)
    decreases e, 3
  {
    if e.Binary? && Level(e.op) == 7 {
      var after, ts := SplitTree(e, rest);
      Parses4(e.l, m, env, after);
      Parses3a(e.r, m, env, rest);
      SignFrom7(e.op);
      Step3a(Print(e) + rest, m, env, after, e.op.a, Text(e.l, m, env), Text(e.r, m, env), rest);
      FoundOutcome(e.op.a, m, Text(e.l, m, env), Text(e.r, m, env), rest);
    } else {
      Parses4(e, m, env, rest);
      Pass3a(Print(e) + rest, m, env, Text(e, m, env), rest);
    }
  }

  lemma {:induction false} Parses4(e: Expr, m: Mode, env: Env, rest: seq<Word>)
    requires Normal(e, 8) && Stops(rest, 8)
    ensures Exp4(Print(e) + rest, m, env) == Lift(Text(e, m, env), rest)
    decreases e, 2
  {
    if e.Binary? && Level(e.op) == 8 {
      var after, ts := SplitTree(e, rest);
      Parses5(e.l, m, env, after);
      Parses4(e.r, m, env, rest);
      SignFrom7(e.op);
      Step4(Print(e) + rest, m, env, after, e.op.a, Text(e.l, m, env), Text(e.r, m, env), rest);
      FoundOutcome(e.op.a, m, Text(e.l, m, env), Text(e.r, m, env), rest);
    } else {
      Parses5(e, m, env, rest);
      Pass4(Print(e) + rest, m, env, Text(e, m, env), rest);
    }
  }

  lemma {:induction false} Parses5(e: Expr, m: Mode, env: Env, rest: seq<Word>)
    requires Normal(e, 9) && Stops(rest, 9)
    ensures Exp5(Print(e) + rest, m, env) == Lift(Text(e, m, env), rest)
    decreases e, 1
  {
    if e.Binary? && Level(e.op) == 9 {
      var after, ts := SplitTree(e, rest);
      Parses6(e.l, m, env, after);
      Parses5(e.r, m, env, rest);
      SignFrom7(e.op);
      Step5(Print(e) + rest, m, env, after, e.op.a, Text(e.l, m, env), Text(e.r, m, env), rest);
      FoundOutcome(e.op.a, m, Text(e.l, m, env), Text(e.r, m, env), rest);
    } else {
      Parses6(e, m, env, rest);
      Pass5(Print(e) + rest, m, env, Text(e, m, env), rest);
    }
  }

  lemma {:induction false} BraceAt(ws: seq<Word>, rest: seq<Word>)
    requires "}" !in ws
    ensures BraceEnd(ws + (["}"] + rest)) == |ws|
    decreases |ws|
  {
    var ts := ws + (["}"] + rest);
    if ws != [] {
      assert ts[1..] == ws[1..] + (["}"] + rest) && ts[0] == ws[0] && ws[0] in ws;
      BraceAt(ws[1..], rest);
    }
  }

  lemma {:induction false} Parses6(e: Expr, m: Mode, env: Env, rest: seq<Word>)
    requires Normal(e, 10)
    ensures Exp6(Print(e) + rest, m, env) == Lift(Text(e, m, env), rest)
    decreases e, 0
  {
    match e
    case Prefix(complement, e1) =>
      Parses6(e1, m, env, rest);
      PrefixStep(complement, Print(e1) + rest, m, env, Text(e1, m, env), rest);
      Regroup2([if complement then "~" else "!"], Print(e1), rest);
    case Group(e1) =>
      Parses0(e1, m, env, [")"] + rest);
      GroupStep(Print(e1) + ([")"] + rest), m, env, Value(e1, m, env), rest);
      Regroup(["("], Print(e1), [")"], rest);
    case Leaf(w) => LeafParses(w, m, env, rest);
    case File(c, w) => FileParses(c, w, m, env, rest);
    case Command(ws) => CommandParses(ws, m, env, rest);
  }

  lemma PrefixStep(complement: bool, ts: seq<Word>, m: Mode, env: Env, t: Option<Word>, rest: seq<Word>)
    requires Exp6(ts, m, env) == Lift(t, rest)
    ensures Exp6([if complement then "~" else "!"] + ts, m, env) == Unary(Lift(t, rest), complement)
  {
    assert ([if complement then "~" else "!"] + ts)[1..] == ts;
  }

  lemma GroupStep(ts: seq<Word>, m: Mode, env: Env, v: Option<int>, rest: seq<Word>)
    requires Exp0(ts, m, env) == Lift(v, [")"] + rest)
    ensures Exp6(["("] + ts, m, env) == Lift(if v.None? then None else Some(Putn(Wrap(v.value))), rest)
  {
    assert (["("] + ts)[1..] == ts && ([")"] + rest)[1..] == rest;
  }

  lemma LeafParses(w: Word, m: Mode, env: Env, rest: seq<Word>)
    requires Inert(w)
    ensures Exp6([w] + rest, m, env) == Lift(Text(Leaf(w), m, env), rest)
  {
    assert ([w] + rest)[1..] == rest;
    assert !AnyOp([w] + rest);
  }

  lemma FileParses(c: char, w: Word, m: Mode, env: Env, rest: seq<Word>)
    requires Normal(File(c, w), 10)
    ensures Exp6(Print(File(c, w)) + rest, m, env) == Lift(Text(File(c, w), m, env), rest)
  {
    var ts := Print(File(c, w)) + rest;
    assert ts[1..] == [w] + rest && ts[2..] == rest && ts[0] == ['-', c] && ts[1] == w;
    assert !AnyOp(ts) && !AnyOp(ts[1..]);
  }

  lemma CommandParses(ws: seq<Word>, m: Mode, env: Env, rest: seq<Word>)
    requires "}" !in ws
    ensures Exp6(Print(Command(ws)) + rest, m, env) == Lift(Text(Command(ws), m, env), rest)
  {
    var ts := Print(Command(ws)) + rest;
    assert ts[1..] == ws + (["}"] + rest);
    BraceAt(ws, rest);
    assert ts[1..|ws| + 1] == ws && ts[|ws| + 2..] == rest;
  }

  /** The evaluator computes the value of the tree that was written down, with the ten levels of
      precedence and every operator associating to the right. */
  lemma EvaluatesTree(e: Expr, env: Env)
    requires Normal(e, 0)
    ensures Exp0(Print(e), Mode(false, false), env) == Lift(Value(e, Mode(false, false), env), [])
  {
    assert Print(e) + [] == Print(e);
    Parses0(e, Mode(false, false), env, []);
  }
}
