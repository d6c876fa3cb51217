/** csh's expression evaluator: ten levels of recursive descent over a list of words, with a mode
    that only parses. */
module CshExpr {
  import opened CshNumbers

  /** A result with the words that are left, or an error. */
  datatype Result<T> = Ok(v: T, rest: seq<Word>) | Fail

  /** `IGNORE` and `NOGLOB` */
  datatype Mode = Mode(ign: bool, noglob: bool)

  /** What the evaluator asks of the rest of the shell and of the system. */
  datatype Env = Env(
    /** `globone` */
    glob: Word -> Option<Word>,
    /** whether `Gmatch` says that the text matches the pattern */
    matches: (Word, Word) -> bool,
    /** whether there is a file of that name */
    exists_: Word -> bool,
    /** the outcome of a file inquiry */
    inquire: (char, Word) -> bool,
    /** whether a command in braces succeeds */
    succeeds: seq<Word> -> bool)

  function At(w: Word, i: nat): char { if i < |w| then w[i] else '\0' }

  datatype Kind = ADDOP | MULOP | EQOP | RELOP | ANYOP

  datatype Equality = EQEQ | NOTEQ | EQMATCH | NOTEQMATCH

  predicate AddOp(w: Word) { At(w, 1) == '\0' && (At(w, 0) == '+' || At(w, 0) == '-') }

  predicate MulOp(w: Word) { At(w, 1) == '\0' && (At(w, 0) == '*' || At(w, 0) == '/' || At(w, 0) == '%') }

  /** `isa(w, EQOP)` */
  function EqOp(w: Word): Option<Equality> {
    if At(w, 1) == '\0' || At(w, 2) != '\0' then None
    else if At(w, 0) == '=' then
      if At(w, 1) == '=' then Some(EQEQ) else if At(w, 1) == '~' then Some(EQMATCH) else None
    else if At(w, 0) == '!' then
      if At(w, 1) == '=' then Some(NOTEQ) else if At(w, 1) == '~' then Some(NOTEQMATCH) else None
    else None
  }

  /** `isa(w, RELOP)` looks at the first character only. */
  predicate RelOp(w: Word) { At(w, 0) == '<' || At(w, 0) == '>' }

  predicate ShiftOp(w: Word) { RelOp(w) && At(w, 0) == At(w, 1) }

  predicate RestOp(w: Word) {
    if At(w, 1) == '\0' then
      At(w, 0) == '(' || At(w, 0) == ')' || At(w, 0) == '!' || At(w, 0) == '~' || At(w, 0) == '^' || At(w, 0) == '"'
    else At(w, 2) == '\0' && ((At(w, 0) == '|' && At(w, 1) == '&') || ShiftOp(w))
  }

  /** `isa(w, ANYOP)`, for a word or the end of the words. */
  predicate AnyOp(ts: seq<Word>) {
    ts == [] || AddOp(ts[0]) || MulOp(ts[0]) || EqOp(ts[0]).Some? || RelOp(ts[0]) || RestOp(ts[0])
  }

  predicate Is(ts: seq<Word>, w: Word) { ts != [] && ts[0] == w }

  /** `egetn` */
  function Egetn(s: Word): (r: Option<int>)
    ensures r.Some? ==> InRange(r.value)
  {
    if At(s, 0) != '\0' && At(s, 0) != '-' && !Digit(At(s, 0)) then None else Getn(s)
  }

  function Truth(b: bool): int { if b then 1 else 0 }

  // ---- arithmetic ----------------------------------------------------------------------

  datatype Bits = BitOr | BitXor | BitAnd

  function Bit(op: Bits, a: int, b: int): int {
    match op
    case BitOr => if a == 1 || b == 1 then 1 else 0
    case BitXor => if a != b then 1 else 0
    case BitAnd => if a == 1 && b == 1 then 1 else 0
  }

  /** The lowest n bits of a and b combined. */
  function Combined(op: Bits, a: int, b: int, n: nat): int
    decreases n
  {
    if n == 0 then 0 else Bit(op, a % 2, b % 2) + 2 * Combined(op, a / 2, b / 2, n - 1)
  }

  function Bitwise(op: Bits, a: int, b: int): int { Wrap(Combined(op, a, b, 32)) }

  function Pow2(n: nat): (r: int)
    ensures r >= 1
  {
    if n == 0 then 1 else 2 * Pow2(n - 1)
  }

  /** Division towards zero. */
  function Quotient(a: int, b: int): int
    requires b != 0
  {
    var q := Abs(a) / Abs(b);
    if (a < 0) == (b < 0) then q else -q
  }

  function Abs(a: int): nat { if a < 0 then -a else a }

  datatype Arith = Plus | Minus | Times | Over | Rem | ShiftLeft | ShiftRight | Less | LessEq | Greater | GreaterEq

  /** The value of one operation; division by zero is an error. Shifts use the count modulo 32. */
  function Compute(op: Arith, a: int, b: int): Option<int> {
    match op
    case Plus => Some(Wrap(a + b))
    case Minus => Some(Wrap(a - b))
    case Times => Some(Wrap(a * b))
    case Over => if b == 0 then None else Some(Wrap(Quotient(a, b)))
    case Rem => if b == 0 then None else Some(Wrap(a - b * Quotient(a, b)))
    case ShiftLeft => Some(Wrap(a * Pow2(b % 32)))
    case ShiftRight => Some(Wrap(a / Pow2(b % 32)))
    case Less => Some(Truth(a < b))
    case LessEq => Some(Truth(a <= b))
    case Greater => Some(Truth(a > b))
    case GreaterEq => Some(Truth(a >= b))
  }

  /** An operation on two texts that hold numbers. */
  function Apply(op: Arith, p1: Word, p2: Word): Option<Word> {
    var b, a := Egetn(p2), Egetn(p1);
    if a.None? || b.None? then None
    else
      var r := Compute(op, a.value, b.value);
      if r.None? then None else Some(Putn(Wrap(r.value)))
  }

  // ---- the levels ----------------------------------------------------------------------

  function Exp0(ts: seq<Word>, m: Mode, env: Env): (r: Result<int>)
    ensures r.Ok? ==> |r.rest| <= |ts|
    decreases |ts|, 10
  {
    var r1 := Exp1(ts, m, env);
    if r1.Fail? || !Is(r1.rest, "||") then r1
    else
      var r2 := Exp0(r1.rest[1..], Mode(m.ign || r1.v != 0, false), env);
      if r2.Fail? then Fail else Ok(Truth(r1.v != 0 || r2.v != 0), r2.rest)
  }

  function Exp1(ts: seq<Word>, m: Mode, env: Env): (r: Result<int>)
    ensures r.Ok? ==> |r.rest| <= |ts|
    decreases |ts|, 9
  {
    var r1 := Exp2(ts, m, env);
    if r1.Fail? || !Is(r1.rest, "&&") then r1
    else
      var r2 := Exp1(r1.rest[1..], Mode(m.ign || r1.v == 0, false), env);
      if r2.Fail? then Fail else Ok(Truth(r1.v != 0 && r2.v != 0), r2.rest)
  }

  function Exp2(ts: seq<Word>, m: Mode, env: Env): (r: Result<int>)
    ensures r.Ok? ==> |r.rest| <= |ts|
    decreases |ts|, 8
  {
    var r1 := Exp2a(ts, m, env);
    if r1.Fail? || !Is(r1.rest, "|") then r1
    else
      var r2 := Exp2(r1.rest[1..], m, env);
      if r2.Fail? then Fail else Ok(Bitwise(BitOr, r1.v, r2.v), r2.rest)
  }

  function Exp2a(ts: seq<Word>, m: Mode, env: Env): (r: Result<int>)
    ensures r.Ok? ==> |r.rest| <= |ts|
    decreases |ts|, 7
  {
    var r1 := Exp2b(ts, m, env);
    if r1.Fail? || !Is(r1.rest, "^") then r1
    else
      var r2 := Exp2a(r1.rest[1..], m, env);
      if r2.Fail? then Fail else Ok(Bitwise(BitXor, r1.v, r2.v), r2.rest)
  }

  function Exp2b(ts: seq<Word>, m: Mode, env: Env): (r: Result<int>)
    ensures r.Ok? ==> |r.rest| <= |ts|
    decreases |ts|, 6
  {
    var r1 := Exp2c(ts, m, env);
    if r1.Fail? || !Is(r1.rest, "&") then r1
    else
      var r2 := Exp2b(r1.rest[1..], m, env);
      if r2.Fail? then Fail else Ok(Bitwise(BitAnd, r1.v, r2.v), r2.rest)
  }

  /** The outcome of a comparison; while values are ignored, the code of the operator. */
  function Compare(op: Equality, p1: Word, p2: Word, m: Mode, env: Env): int {
    match op
    case EQEQ => if m.ign then 1 else Truth(p1 == p2)
    case NOTEQ => if m.ign then 6 else Truth(p1 != p2)
    case EQMATCH => if m.ign then 7 else Truth(env.matches(p1, p2))
    case NOTEQMATCH => if m.ign then 8 else Truth(!env.matches(p1, p2))
  }

  function OperandMode(op: Equality, m: Mode): Mode {
    if op.EQMATCH? || op.NOTEQMATCH? then m.(noglob := true) else m
  }

  function Exp2c(ts: seq<Word>, m: Mode, env: Env): (r: Result<int>)
    ensures r.Ok? ==> |r.rest| <= |ts|
    decreases |ts|, 5
  {
    var r1 := Exp3(ts, m, env);
    if r1.Fail? then Fail
    else if r1.rest != [] && EqOp(r1.rest[0]).Some? then
      var op := EqOp(r1.rest[0]).value;
      var r2 := Exp3(r1.rest[1..], OperandMode(op, m), env);
      if r2.Fail? then Fail else Ok(Compare(op, r1.v, r2.v, m, env), r2.rest)
    else
      var n := Egetn(r1.v);
      if n.None? then Fail else Ok(n.value, r1.rest)
  }

  /** The relation an operator and an `=` behind it ask for. */
  function Relation(w: Word, equal: bool): Arith {
    if At(w, 0) == '<' then if equal then LessEq else Less else if equal then GreaterEq else Greater
  }

  /** The code of the relation, which is what is left while values are ignored. */
  function RelationCode(w: Word, equal: bool): int {
    (if At(w, 0) == '<' then 4 else 2) + Truth(equal)
  }

  function Exp3(ts: seq<Word>, m: Mode, env: Env): (r: Result<Word>)
    ensures r.Ok? ==> |r.rest| <= |ts|
    decreases |ts|, 4
  {
    var r1 := Exp3a(ts, m, env);
    if r1.Fail? || r1.rest == [] || !RelOp(r1.rest[0]) then r1
    else
      var w, tail := r1.rest[0], r1.rest[1..];
      var equal := Is(tail, "=");
      var r2 := Exp3(if equal then tail[1..] else tail, m, env);
      if r2.Fail? then Fail
      else if m.ign then Ok(Putn(RelationCode(w, equal)), r2.rest)
      else Computed(Relation(w, equal), r1.v, r2)
  }

  /** The text of the value of an operation. */
  function Computed(op: Arith, p1: Word, r2: Result<Word>): (r: Result<Word>)
    ensures r.Ok? ==> r2.Ok? && r.rest == r2.rest
  {
    if r2.Fail? then Fail
    else
      var v := Apply(op, p1, r2.v);
      if v.None? then Fail else Ok(v.value, r2.rest)
  }

  function Exp3a(ts: seq<Word>, m: Mode, env: Env): (r: Result<Word>)
    ensures r.Ok? ==> |r.rest| <= |ts|
    decreases |ts|, 3
  {
    var r1 := Exp4(ts, m, env);
    if r1.Fail? || r1.rest == [] || !ShiftOp(r1.rest[0]) then r1
    else
      var r2 := Exp3a(r1.rest[1..], m, env);
      Computed(if At(r1.rest[0], 0) == '<' then ShiftLeft else ShiftRight, r1.v, r2)
  }

  function Exp4(ts: seq<Word>, m: Mode, env: Env): (r: Result<Word>)
    ensures r.Ok? ==> |r.rest| <= |ts|
    decreases |ts|, 2
  {
    var r1 := Exp5(ts, m, env);
    if r1.Fail? || r1.rest == [] || !AddOp(r1.rest[0]) then r1
    else
      var r2 := Exp4(r1.rest[1..], m, env);
      if r2.Fail? then Fail
      else if m.ign then Ok(Putn(0), r2.rest)
      else Computed(if At(r1.rest[0], 0) == '+' then Plus else Minus, r1.v, r2)
  }

  function Product(w: Word): Arith {
    if At(w, 0) == '*' then Times else if At(w, 0) == '/' then Over else Rem
  }

  function Exp5(ts: seq<Word>, m: Mode, env: Env): (r: Result<Word>)
    ensures r.Ok? ==> |r.rest| <= |ts|
    decreases |ts|, 1
  {
    var r1 := Exp6(ts, m, env);
    if r1.Fail? || r1.rest == [] || !MulOp(r1.rest[0]) then r1
    else
      var r2 := Exp5(r1.rest[1..], m, env);
      if r2.Fail? then Fail
      else if m.ign then Ok(Putn(0), r2.rest)
      else Computed(Product(r1.rest[0]), r1.v, r2)
  }

  /** The words up to the closing brace, or as many as there are. */
  function BraceEnd(ts: seq<Word>): (n: nat)
    ensures n <= |ts| && (n < |ts| ==> ts[n] == "}")
    decreases |ts|
  {
    if ts == [] || ts[0] == "}" then 0 else 1 + BraceEnd(ts[1..])
  }

  /** A letter of a file inquiry. */
  predicate Inquiry(w: Word) { At(w, 0) == '-' && At(w, 1) != '\0' && At(w, 1) in "erwxfdzopls" }

  /** `!` and `~` */
  function UnaryValue(n: int, complement: bool): (r: int)
    requires InRange(n)
    ensures InRange(r)
  {
    if complement then -n - 1 else Truth(n == 0)
  }

  /** What is done with the number a text holds. */
  function Unary(r: Result<Word>, complement: bool): (r1: Result<Word>)
    ensures r1.Ok? ==> r.Ok? && r1.rest == r.rest
  {
    if r.Fail? then Fail
    else
      var n := Egetn(r.v);
      if n.None? then Fail else Ok(Putn(UnaryValue(n.value, complement)), r.rest)
  }

  function Exp6(ts: seq<Word>, m: Mode, env: Env): (r: Result<Word>)
    ensures r.Ok? ==> |r.rest| <= |ts|
    decreases |ts|, 0
  {
    if ts == [] then Fail
    else if ts[0] == "!" then Unary(Exp6(ts[1..], m, env), false)
    else if ts[0] == "~" then Unary(Exp6(ts[1..], m, env), true)
    else if ts[0] == "(" then
      var r := Exp0(ts[1..], m, env);
      if r.Fail? || r.rest == [] || At(r.rest[0], 0) != ')' then Fail else Ok(Putn(Wrap(r.v)), r.rest[1..])
    else if ts[0] == "{" then
      var n := BraceEnd(ts[1..]);
      if n == |ts| - 1 then Fail
      else Ok(if m.ign then "" else Putn(Truth(env.succeeds(ts[1..n + 1]))), ts[n + 2..])
    else if AnyOp(ts) then Ok("", ts)
    else if Inquiry(ts[0]) then Inquire(ts, m, env)
    else if m.noglob then Ok(ts[0], ts[1..])
    else
      var t := env.glob(ts[0]);
      if t.None? then Fail else Ok(t.value, ts[1..])
  }

  /** A file inquiry. An operator where the file should be is an error unless there is a file of
      that name. */
  function Inquire(ts: seq<Word>, m: Mode, env: Env): (r: Result<Word>)
    requires ts != []
    ensures r.Ok? ==> |r.rest| <= |ts|
  {
    if At(ts[0], 2) != '\0' || ts[1..] == [] || (AnyOp(ts[1..]) && !env.exists_(ts[1])) then Fail
    else if m.ign then Ok("", ts[2..])
    else
      var f := env.glob(ts[1]);
      if f.None? then Fail else Ok(Putn(Truth(env.inquire(At(ts[0], 1), f.value))), ts[2..])
  }

  /** The loop that looks for the closing brace. */
  method FindBrace(ts: seq<Word>) returns (n: nat)
    ensures n == BraceEnd(ts)
  {
    n := 0;
    assert ts[0..] == ts;
    while n < |ts| && ts[n] != "}"
      invariant n <= |ts| && n + BraceEnd(ts[n..]) == BraceEnd(ts)
    {
      assert ts[n..][1..] == ts[n + 1..];
      n := n + 1;
    }
  }

  /** The command in braces of `exp6`, with its loop. */
  method BracedCommand(ts: seq<Word>, m: Mode, env: Env) returns (r: Result<Word>)
    requires ts != [] && ts[0] == "{"
    ensures r == Exp6(ts, m, env)
  {
    var n := FindBrace(ts[1..]);
    if n == |ts| - 1 {
      return Fail;
    }
    r := Ok(if m.ign then "" else Putn(Truth(env.succeeds(ts[1..n + 1]))), ts[n + 2..]);
  }

  // ---- parsing without evaluating ------------------------------------------------------

  predicate Numeric(t: Word) { Egetn(t).Some? }

  /** Texts that are equal or both hold numbers. */
  predicate AsGood(t: Word, t1: Word) { t == t1 || (Numeric(t) && Numeric(t1)) }

  predicate SameStop(r: Result<int>, r1: Result<int>) {
    r.Ok? ==> r1.Ok? && r1.rest == r.rest
  }

  predicate SameText(r: Result<Word>, r1: Result<Word>) {
    r.Ok? ==> r1.Ok? && r1.rest == r.rest && AsGood(r.v, r1.v)
  }

  lemma PutnNumeric(n: int)
    requires InRange(n)
    ensures Numeric(Putn(n)) && Egetn(Putn(n)) == Some(n)
  {
    NumberRoundTrip(n);
    PutnFirst(n);
  }

  lemma PutnFirst(n: int)
    requires InRange(n)
    ensures Putn(n) != "" && (Putn(n)[0] == '-' || Digit(Putn(n)[0]))
  {
  }

  lemma EmptyNumeric()
    ensures Numeric("")
  {
    assert Digits("", 0, 0) == (0, 0);
  }

  lemma ComputedNumeric(op: Arith, p1: Word, r2: Result<Word>)
    ensures Computed(op, p1, r2).Ok? ==> Numeric(Computed(op, p1, r2).v) && Numeric(p1) && Numeric(r2.v)
  {
    if Computed(op, p1, r2).Ok? {
      var r := Compute(op, Egetn(p1).value, Egetn(r2.v).value);
      PutnNumeric(Wrap(r.value));
    }
  }

  function Ignoring(m: Mode): Mode { m.(ign := true) }

  /** Whenever an expression can be evaluated it can be parsed while values are ignored, and
      both stop at the same word. */
  lemma {:induction false} IgnoreParses(ts: seq<Word>, m: Mode, env: Env)
    ensures SameStop(Exp0(ts, m, env), Exp0(ts, Ignoring(m), env))
    decreases |ts|, 10
  {
    Ignore1(ts, m, env);
    var r1 := Exp1(ts, m, env);
    if r1.Ok? && Is(r1.rest, "||") {
      IgnoreParses(r1.rest[1..], Mode(m.ign || r1.v != 0, false), env);
    }
  }

  lemma {:induction false} Ignore1(ts: seq<Word>, m: Mode, env: Env)
    ensures SameStop(Exp1(ts, m, env), Exp1(ts, Ignoring(m), env))
    decreases |ts|, 9
  {
    Ignore2(ts, m, env);
    var r1 := Exp2(ts, m, env);
    if r1.Ok? && Is(r1.rest, "&&") {
      Ignore1(r1.rest[1..], Mode(m.ign || r1.v == 0, false), env);
    }
  }

  lemma {:induction false} Ignore2(ts: seq<Word>, m: Mode, env: Env)
    ensures SameStop(Exp2(ts, m, env), Exp2(ts, Ignoring(m), env))
    decreases |ts|, 8
  {
    Ignore2a(ts, m, env);
    var r1 := Exp2a(ts, m, env);
    if r1.Ok? && Is(r1.rest, "|") {
      Ignore2(r1.rest[1..], m, env);
    }
  }

  lemma {:induction false} Ignore2a(ts: seq<Word>, m: Mode, env: Env)
    ensures SameStop(Exp2a(ts, m, env), Exp2a(ts, Ignoring(m), env))
    decreases |ts|, 7
  {
    Ignore2b(ts, m, env);
    var r1 := Exp2b(ts, m, env);
    if r1.Ok? && Is(r1.rest, "^") {
      Ignore2a(r1.rest[1..], m, env);
    }
  }

  lemma {:induction false} Ignore2b(ts: seq<Word>, m: Mode, env: Env)
    ensures SameStop(Exp2b(ts, m, env), Exp2b(ts, Ignoring(m), env))
    decreases |ts|, 6
  {
    Ignore2c(ts, m, env);
    var r1 := Exp2c(ts, m, env);
    if r1.Ok? && Is(r1.rest, "&") {
      Ignore2b(r1.rest[1..], m, env);
    }
  }

  lemma {:induction false} Ignore2c(ts: seq<Word>, m: Mode, env: Env)
    ensures SameStop(Exp2c(ts, m, env), Exp2c(ts, Ignoring(m), env))
    decreases |ts|, 5
  {
    Ignore3(ts, m, env);
    var r1 := Exp3(ts, m, env);
    if r1.Ok? && r1.rest != [] && EqOp(r1.rest[0]).Some? {
      Ignore3(r1.rest[1..], OperandMode(EqOp(r1.rest[0]).value, m), env);
    }
  }

  lemma {:induction false} Ignore3(ts: seq<Word>, m: Mode, env: Env)
    ensures SameText(Exp3(ts, m, env), Exp3(ts, Ignoring(m), env))
    decreases |ts|, 4
  {
    Ignore3a(ts, m, env);
    var r1 := Exp3a(ts, m, env);
    if r1.Ok? && r1.rest != [] && RelOp(r1.rest[0]) {
      var w, tail := r1.rest[0], r1.rest[1..];
      var equal := Is(tail, "=");
      var ts2 := if equal then tail[1..] else tail;
      Ignore3(ts2, m, env);
      ComputedNumeric(Relation(w, equal), r1.v, Exp3(ts2, m, env));
      PutnNumeric(RelationCode(w, equal));
    }
  }

  lemma {:induction false} Ignore3a(ts: seq<Word>, m: Mode, env: Env)
    ensures SameText(Exp3a(ts, m, env), Exp3a(ts, Ignoring(m), env))
    decreases |ts|, 3
  {
    Ignore4(ts, m, env);
    var r1, s1 := Exp4(ts, m, env), Exp4(ts, Ignoring(m), env);
    if r1.Ok? && r1.rest != [] && ShiftOp(r1.rest[0]) {
      Ignore3a(r1.rest[1..], m, env);
      var op := if At(r1.rest[0], 0) == '<' then ShiftLeft else ShiftRight;
      ShiftDone(op, r1.v, s1.v, Exp3a(r1.rest[1..], m, env), Exp3a(r1.rest[1..], Ignoring(m), env));
    }
  }

  /** A shift is computed even while values are ignored; it cannot fail on numbers. */
  lemma ShiftDone(op: Arith, p1: Word, q1: Word, r2: Result<Word>, s2: Result<Word>)
    requires op.ShiftLeft? || op.ShiftRight?
    requires AsGood(p1, q1) && SameText(r2, s2)
    ensures SameText(Computed(op, p1, r2), Computed(op, q1, s2))
  {
    ComputedNumeric(op, p1, r2);
    ComputedNumeric(op, q1, s2);
  }

  lemma {:induction false} Ignore4(ts: seq<Word>, m: Mode, env: Env)
    ensures SameText(Exp4(ts, m, env), Exp4(ts, Ignoring(m), env))
    decreases |ts|, 2
  {
    Ignore5(ts, m, env);
    var r1 := Exp5(ts, m, env);
    if r1.Ok? && r1.rest != [] && AddOp(r1.rest[0]) {
      Ignore4(r1.rest[1..], m, env);
      ComputedNumeric(if At(r1.rest[0], 0) == '+' then Plus else Minus, r1.v, Exp4(r1.rest[1..], m, env));
      PutnNumeric(0);
    }
  }

  lemma {:induction false} Ignore5(ts: seq<Word>, m: Mode, env: Env)
    ensures SameText(Exp5(ts, m, env), Exp5(ts, Ignoring(m), env))
    decreases |ts|, 1
  {
    Ignore6(ts, m, env);
    var r1 := Exp6(ts, m, env);
    if r1.Ok? && r1.rest != [] && MulOp(r1.rest[0]) {
      Ignore5(r1.rest[1..], m, env);
      ComputedNumeric(Product(r1.rest[0]), r1.v, Exp5(r1.rest[1..], m, env));
      PutnNumeric(0);
    }
  }

  lemma {:induction false} Ignore6(ts: seq<Word>, m: Mode, env: Env)
    ensures SameText(Exp6(ts, m, env), Exp6(ts, Ignoring(m), env))
    decreases |ts|, 0
  {
    EmptyNumeric();
    if ts != [] {
      if ts[0] == "!" || ts[0] == "~" {
        Ignore6(ts[1..], m, env);
        UnaryDone(Exp6(ts[1..], m, env), Exp6(ts[1..], Ignoring(m), env), ts[0] == "~");
      } else if ts[0] == "(" {
        IgnoreParses(ts[1..], m, env);
        GroupDone(Exp0(ts[1..], m, env), Exp0(ts[1..], Ignoring(m), env));
      } else {
        PutnNumeric(0);
        PutnNumeric(1);
      }
    }
  }

  lemma UnaryDone(r: Result<Word>, s: Result<Word>, complement: bool)
    requires SameText(r, s)
    ensures SameText(Unary(r, complement), Unary(s, complement))
  {
    if r.Ok? && Numeric(r.v) {
      PutnNumeric(UnaryValue(Egetn(r.v).value, complement));
      PutnNumeric(UnaryValue(Egetn(s.v).value, complement));
    }
  }

  lemma GroupDone(r: Result<int>, s: Result<int>)
    requires SameStop(r, s)
    ensures r.Ok? ==> s.Ok? && AsGood(Putn(Wrap(r.v)), Putn(Wrap(s.v)))
  {
    if r.Ok? {
      PutnNumeric(Wrap(r.v));
      PutnNumeric(Wrap(s.v));
    }
  }
}
