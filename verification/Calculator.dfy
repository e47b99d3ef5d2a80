/**
  The calculator: a recursive-descent evaluator over a token stream. The arithmetic is a parameter, so
  every statement holds for IEEE doubles as well as for exact numbers.
 */
module Calculator {

  datatype Oper = Plus | Inc | Minus | Dec | Multiply | Division | Modulo | Power | Ratio | LeftRound | RightRound

  datatype Token<V> = Num(v: V) | Op(o: Oper)

  /** The operations of the number type; `ratio` is MAX / MIN, `neg` multiplies by -1. */
  datatype Arith<!V> = Arith(
    nan: V, one: V, neg: V -> V,
    add: (V, V) -> V, sub: (V, V) -> V, mul: (V, V) -> V, div: (V, V) -> V,
    mod: (V, V) -> V, pow: (V, V) -> V, ratio: (V, V) -> V)
  {
    function Apply(o: Oper, x: V, y: V): V {
      match o
      case Plus => add(x, y)
      case Minus => sub(x, y)
      case Multiply => mul(x, y)
      case Division => div(x, y)
      case Modulo => mod(x, y)
      case Ratio => ratio(x, y)
      case Power => pow(x, y)
      case _ => nan
    }
  }

  predicate IsAdditive(o: Oper) { o == Plus || o == Minus }
  predicate IsMultiplicative(o: Oper) { o == Multiply || o == Division || o == Modulo || o == Ratio }

  // ---------------------------------------------------------------- what the parser computes

  /** A value and the tokens that are left. */
  datatype Parsed<V> = Parsed(v: V, rest: seq<Token<V>>)

  function Additive<V>(a: Arith<V>, ts: seq<Token<V>>): (r: Parsed<V>)
    ensures |r.rest| <= |ts|
    decreases |ts|, 9
  {
    if ts == [] then Parsed(a.nan, ts) else
    var m := Multiplicative(a, ts);
    AdditiveLoop(a, m.v, m.rest)
  }

  function AdditiveLoop<V>(a: Arith<V>, left: V, ts: seq<Token<V>>): (r: Parsed<V>)
    ensures |r.rest| <= |ts|
    decreases |ts|, 8
  {
    if ts == [] || !ts[0].Op? || !IsAdditive(ts[0].o) then Parsed(left, ts) else
    var m := Multiplicative(a, ts[1..]);
    AdditiveLoop(a, a.Apply(ts[0].o, left, m.v), m.rest)
  }

  function Multiplicative<V>(a: Arith<V>, ts: seq<Token<V>>): (r: Parsed<V>)
    ensures |r.rest| <= |ts|
    decreases |ts|, 7
  {
    if ts == [] then Parsed(a.nan, ts) else
    var p := Powers(a, ts);
    MultiplicativeLoop(a, p.v, p.rest)
  }

  function MultiplicativeLoop<V>(a: Arith<V>, left: V, ts: seq<Token<V>>): (r: Parsed<V>)
    ensures |r.rest| <= |ts|
    decreases |ts|, 6
  {
    if ts == [] || !ts[0].Op? || !IsMultiplicative(ts[0].o) then Parsed(left, ts) else
    var p := Powers(a, ts[1..]);
    MultiplicativeLoop(a, a.Apply(ts[0].o, left, p.v), p.rest)
  }

  function Powers<V>(a: Arith<V>, ts: seq<Token<V>>): (r: Parsed<V>)
    ensures |r.rest| <= |ts|
    decreases |ts|, 5
  {
    if ts == [] then Parsed(a.nan, ts) else
    var u := Unary(a, ts);
    PowersLoop(a, u.v, u.rest)
  }

  function PowersLoop<V>(a: Arith<V>, left: V, ts: seq<Token<V>>): (r: Parsed<V>)
    ensures |r.rest| <= |ts|
    decreases |ts|, 4
  {
    if ts == [] || ts[0] != Op(Power) then Parsed(left, ts) else
    var u := Unary(a, ts[1..]);
    PowersLoop(a, a.Apply(Power, left, u.v), u.rest)
  }

  function Unary<V>(a: Arith<V>, ts: seq<Token<V>>): (r: Parsed<V>)
    ensures |r.rest| <= |ts|
    decreases |ts|, 3
  {
    if ts == [] then Parsed(a.nan, ts)
    else if ts[0] == Op(Minus) then var u := Unary(a, ts[1..]); Parsed(a.neg(u.v), u.rest)
    else if ts[0] == Op(Plus) then Unary(a, ts[1..])
    else Primary(a, ts)
  }

  function Primary<V>(a: Arith<V>, ts: seq<Token<V>>): (r: Parsed<V>)
    ensures |r.rest| <= |ts|
    decreases |ts|, 2
  {
    if ts == [] then Parsed(a.nan, ts)
    else if ts[0].Num? then Parsed(ts[0].v, ts[1..])
    else if ts[0].o == LeftRound then
      var e := Additive(a, ts[1..]);
      if e.rest == [] || e.rest[0] != Op(RightRound) then Parsed(a.nan, e.rest) else Parsed(e.v, e.rest[1..])
    else Parsed(a.nan, ts)
  }

  /** dt_calculator_solve on a tokenised formula. */
  function Solve<V>(a: Arith<V>, x: V, ts: seq<Token<V>>): V {
    if ts != [] && ts[0] == Op(Inc) then a.add(x, a.one)
    else if ts != [] && ts[0] == Op(Dec) then a.sub(x, a.one)
    else
      var r := Additive(a, ts);
      if r.rest != [] then a.nan else r.v
  }

  // ---------------------------------------------------------------- expressions and their text

  datatype Expr<V> = Lit(v: V) | Neg(e: Expr<V>) | Pos(e: Expr<V>) | Bin(o: Oper, l: Expr<V>, r: Expr<V>)

  predicate WellFormed<V>(e: Expr<V>) {
    match e
    case Lit(_) => true
    case Neg(x) => WellFormed(x)
    case Pos(x) => WellFormed(x)
    case Bin(o, l, r) => (IsAdditive(o) || IsMultiplicative(o) || o == Power) && WellFormed(l) && WellFormed(r)
  }

  function Eval<V>(a: Arith<V>, e: Expr<V>): V {
    match e
    case Lit(v) => v
    case Neg(x) => a.neg(Eval(a, x))
    case Pos(x) => Eval(a, x)
    case Bin(o, l, r) => a.Apply(o, Eval(a, l), Eval(a, r))
  }

  /** Binding strength of a binary operator: 1 sums, 2 products, 3 powers; 0 is no binary operator. */
  function Strength(o: Oper): int {
    if IsAdditive(o) then 1 else if IsMultiplicative(o) then 2 else if o == Power then 3 else 0
  }

  /** 4 is a signed expression, 5 a number. */
  function Level<V>(e: Expr<V>): int {
    match e
    case Lit(_) => 5
    case Neg(_) => 4
    case Pos(_) => 4
    case Bin(o, _, _) => Strength(o)
  }

  /**
    The tokens of e where an operand of strength `min` is expected: parentheses only where the operand
    binds more weakly. All binary operators, '^' included, associate to the left.
   */
  function Text<V>(e: Expr<V>, min: int): seq<Token<V>>
    decreases e, 1
  {
    if Level(e) >= min then Body(e) else [Op(LeftRound)] + Body(e) + [Op(RightRound)]
  }

  function Body<V>(e: Expr<V>): seq<Token<V>>
    decreases e, 0
  {
    match e
    case Lit(v) => [Num(v)]
    case Neg(x) => [Op(Minus)] + Text(x, 4)
    case Pos(x) => [Op(Plus)] + Text(x, 4)
    case Bin(o, l, r) => Text(l, Strength(o)) + [Op(o)] + Text(r, Strength(o) + 1)
  }

  /** What follows does not continue an operand of the given strength. */
  predicate Stops<V>(rest: seq<Token<V>>, level: int) {
    rest == [] || rest[0].Num? || Strength(rest[0].o) < level
  }

  // ---------------------------------------------------------------- correctness

  lemma NonEmpty<V>(e: Expr<V>, min: int)
    requires WellFormed(e)
    ensures Text(e, min) != [] && Body(e) != []
    ensures Text(e, min)[0] != Op(Inc) && Text(e, min)[0] != Op(Dec)
    ensures Body(e)[0] != Op(Inc) && Body(e)[0] != Op(Dec)
    decreases e
  {
    match e
    case Bin(o, l, _) => NonEmpty(l, Strength(o));
    case _ =>
  }

  /** Level 5: a number or a parenthesised expression. */
  lemma {:induction false} PrimaryText<V>(a: Arith<V>, e: Expr<V>, rest: seq<Token<V>>)
    requires WellFormed(e)
    ensures Primary(a, Text(e, 5) + rest) == Parsed(Eval(a, e), rest)
    decreases e, 5
  {
    match e
    case Lit(v) =>
      assert (Text(e, 5) + rest)[1..] == rest;
    case _ =>
      var ts := Text(e, 5) + rest;
      assert ts[1..] == Body(e) + ([Op(RightRound)] + rest);
      BodyParses(a, e, [Op(RightRound)] + rest);
      assert ([Op(RightRound)] + rest)[1..] == rest;
  }

  /** The text without outer parentheses, parsed from the top. */
  lemma {:induction false} BodyParses<V>(a: Arith<V>, e: Expr<V>, rest: seq<Token<V>>)
    requires WellFormed(e) && Stops(rest, 1)
    ensures Additive(a, Body(e) + rest) == Parsed(Eval(a, e), rest)
    decreases e, 4
  {
    assert Text(e, 1) == Body(e);
    AdditiveText(a, e, rest);
    assert AdditiveLoop(a, Eval(a, e), rest) == Parsed(Eval(a, e), rest);
  }

  /** Level 4: signs bind tighter than '^'. */
  lemma {:induction false} UnaryText<V>(a: Arith<V>, e: Expr<V>, rest: seq<Token<V>>)
    requires WellFormed(e)
    ensures Unary(a, Text(e, 4) + rest) == Parsed(Eval(a, e), rest)
    decreases e, if Level(e) >= 4 then 0 else 6
  {
    var ts := Text(e, 4) + rest;
    match e
    case Neg(x) =>
      assert Text(e, 4) == Body(e) == [Op(Minus)] + Text(x, 4);
      assert ts[1..] == Text(x, 4) + rest;
      UnaryText(a, x, rest);
    case Pos(x) =>
      assert Text(e, 4) == Body(e) == [Op(Plus)] + Text(x, 4);
      assert ts[1..] == Text(x, 4) + rest;
      UnaryText(a, x, rest);
    case Lit(v) =>
      assert Text(e, 4) == Body(e) == [Num(v)];
      assert ts[1..] == rest;
    case Bin(_, _, _) =>
      assert Text(e, 4) == Text(e, 5);
      PrimaryText(a, e, rest);
  }

  /** Level 3: a power operand followed by anything hands its value to the power loop. */
  lemma {:induction false} PowersText<V>(a: Arith<V>, e: Expr<V>, rest: seq<Token<V>>)
    requires WellFormed(e)
    ensures Powers(a, Text(e, 3) + rest) == PowersLoop(a, Eval(a, e), rest)
    decreases e, if Level(e) >= 3 then 1 else 7
  {
    NonEmpty(e, 3);
    if Level(e) == 3 {
      var tail := [Op(Power)] + (Text(e.r, 4) + rest);
      assert Text(e, 3) + rest == Text(e.l, 3) + tail;
      PowersText(a, e.l, tail);
      assert tail[1..] == Text(e.r, 4) + rest;
      UnaryText(a, e.r, rest);
    } else {
      assert Text(e, 3) == Text(e, 4);
      UnaryText(a, e, rest);
    }
  }

  lemma {:induction false} PowersStop<V>(a: Arith<V>, e: Expr<V>, rest: seq<Token<V>>)
    requires WellFormed(e) && Stops(rest, 3)
    ensures Powers(a, Text(e, 3) + rest) == Parsed(Eval(a, e), rest)
    decreases e, if Level(e) >= 3 then 2 else 8
  {
    PowersText(a, e, rest);
  }

  /** Level 2. */
  lemma {:induction false} MultiplicativeText<V>(a: Arith<V>, e: Expr<V>, rest: seq<Token<V>>)
    requires WellFormed(e) && Stops(rest, 3)
    ensures Multiplicative(a, Text(e, 2) + rest) == MultiplicativeLoop(a, Eval(a, e), rest)
    decreases e, if Level(e) >= 2 then 3 else 9, 0
  {
    NonEmpty(e, 2);
    if Level(e) == 2 {
      var tail := [Op(e.o)] + (Text(e.r, 3) + rest);
      assert Text(e, 2) + rest == Text(e.l, 2) + tail;
      MultiplicativeText(a, e.l, tail);
      assert tail[1..] == Text(e.r, 3) + rest;
      PowersStop(a, e.r, rest);
    } else {
      assert Text(e, 2) == Text(e, 3);
      PowersStop(a, e, rest);
    }
  }

  lemma {:induction false} MultiplicativeStop<V>(a: Arith<V>, e: Expr<V>, rest: seq<Token<V>>)
    requires WellFormed(e) && Stops(rest, 2)
    ensures Multiplicative(a, Text(e, 2) + rest) == Parsed(Eval(a, e), rest)
    decreases e, if Level(e) >= 2 then 3 else 9, 1
  {
    MultiplicativeText(a, e, rest);
  }

  /** Level 1. */
  lemma {:induction false} AdditiveText<V>(a: Arith<V>, e: Expr<V>, rest: seq<Token<V>>)
    requires WellFormed(e) && Stops(rest, 2)
    ensures Additive(a, Text(e, 1) + rest) == AdditiveLoop(a, Eval(a, e), rest)
    decreases e, 3, 2
  {
    NonEmpty(e, 1);
    if Level(e) == 1 {
      var tail := [Op(e.o)] + (Text(e.r, 2) + rest);
      assert Text(e, 1) + rest == Text(e.l, 1) + tail;
      AdditiveText(a, e.l, tail);
      assert tail[1..] == Text(e.r, 2) + rest;
      MultiplicativeStop(a, e.r, rest);
    } else {
      assert Text(e, 1) == Text(e, 2);
      MultiplicativeStop(a, e, rest);
    }
  }

  /** Solving the minimally parenthesised text of an expression gives its value. */
  lemma SolveText<V>(a: Arith<V>, x: V, e: Expr<V>)
    requires WellFormed(e)
    ensures Solve(a, x, Text(e, 1)) == Eval(a, e)
  {
    NonEmpty(e, 1);
    BodyParses(a, e, []);
    assert Body(e) + [] == Text(e, 1);
  }

  /** Trees over these seven operators and two signs are all the texts there are. */
  lemma WellFormedIs<V>(o: Oper, l: Expr<V>, r: Expr<V>)
    ensures WellFormed(Bin(o, l, r)) <==>
              o in {Plus, Minus, Multiply, Division, Modulo, Ratio, Power} && WellFormed(l) && WellFormed(r)
    ensures (WellFormed(Neg(l)) <==> WellFormed(l)) && (WellFormed(Pos(l)) <==> WellFormed(l))
  {}

  /** What each node of an expression means. */
  lemma OperatorsMean<V>(a: Arith<V>, l: Expr<V>, r: Expr<V>)
    ensures Eval(a, Bin(Plus, l, r)) == a.add(Eval(a, l), Eval(a, r))
    ensures Eval(a, Bin(Minus, l, r)) == a.sub(Eval(a, l), Eval(a, r))
    ensures Eval(a, Bin(Multiply, l, r)) == a.mul(Eval(a, l), Eval(a, r))
    ensures Eval(a, Bin(Division, l, r)) == a.div(Eval(a, l), Eval(a, r))
    ensures Eval(a, Bin(Modulo, l, r)) == a.mod(Eval(a, l), Eval(a, r))
    ensures Eval(a, Bin(Ratio, l, r)) == a.ratio(Eval(a, l), Eval(a, r))
    ensures Eval(a, Bin(Power, l, r)) == a.pow(Eval(a, l), Eval(a, r))
    ensures Eval(a, Neg(l)) == a.neg(Eval(a, l)) && Eval(a, Pos(l)) == Eval(a, l)
  {}

  // ---------------------------------------------------------------- the parser

  /** parser_state_t: the current token and everything behind it. */
  class Parser<V(==)> {
    const a: Arith<V>
    var ts: seq<Token<V>>

    constructor (a: Arith<V>, ts: seq<Token<V>>)
      ensures this.a == a && this.ts == ts
    {
      this.a, this.ts := a, ts;
    }

    /** _parse_additive_expression, which _parse_expression only forwards to. */
    method ParseAdditive() returns (left: V)
      modifies this`ts
      ensures Parsed(left, ts) == Additive(a, old(ts))
      decreases |ts|, 9
    {
      if ts == [] {
        return a.nan;
      }
      left := ParseMultiplicative();
      while ts != [] && ts[0].Op?
        invariant |ts| <= |old(ts)| && AdditiveLoop(a, left, ts) == Additive(a, old(ts))
        decreases |ts|
      {
        var o := ts[0].o;
        if o != Plus && o != Minus {
          return left;
        }
        ts := ts[1..];
        var right := ParseMultiplicative();
        left := if o == Plus then a.add(left, right) else a.sub(left, right);
      }
    }

    /** _parse_multiplicative_expression. */
    method ParseMultiplicative() returns (left: V)
      modifies this`ts
      ensures Parsed(left, ts) == Multiplicative(a, old(ts))
      decreases |ts|, 7
    {
      if ts == [] {
        return a.nan;
      }
      left := ParsePower();
      while ts != [] && ts[0].Op?
        invariant |ts| <= |old(ts)| && MultiplicativeLoop(a, left, ts) == Multiplicative(a, old(ts))
        decreases |ts|
      {
        var o := ts[0].o;
        if o != Multiply && o != Division && o != Modulo && o != Ratio {
          return left;
        }
        ts := ts[1..];
        var right := ParsePower();
        if o == Multiply {
          left := a.mul(left, right);
        } else if o == Division {
          left := a.div(left, right);
        } else if o == Modulo {
          left := a.mod(left, right);
        } else {
          left := a.ratio(left, right);
        }
      }
    }

    /** _parse_power_expression. */
    method ParsePower() returns (left: V)
      modifies this`ts
      ensures Parsed(left, ts) == Powers(a, old(ts))
      decreases |ts|, 5
    {
      if ts == [] {
        return a.nan;
      }
      left := ParseUnary();
      while ts != [] && ts[0].Op?
        invariant |ts| <= |old(ts)| && PowersLoop(a, left, ts) == Powers(a, old(ts))
        decreases |ts|
      {
        if ts[0].o != Power {
          return left;
        }
        ts := ts[1..];
        var right := ParseUnary();
        left := a.pow(left, right);
      }
    }

    /** _parse_unary_expression. */
    method ParseUnary() returns (v: V)
      modifies this`ts
      ensures Parsed(v, ts) == Unary(a, old(ts))
      decreases |ts|, 3
    {
      if ts == [] {
        return a.nan;
      }
      if ts[0].Op? {
        if ts[0].o == Minus {
          ts := ts[1..];
          v := ParseUnary();
          return a.neg(v);
        }
        if ts[0].o == Plus {
          ts := ts[1..];
          v := ParseUnary();
          return v;
        }
      }
      v := ParsePrimary();
    }

    /** _parse_primary_expression. */
    method ParsePrimary() returns (v: V)
      modifies this`ts
      ensures Parsed(v, ts) == Primary(a, old(ts))
      decreases |ts|, 2
    {
      if ts == [] {
        return a.nan;
      }
      if ts[0].Num? {
        v := ts[0].v;
        ts := ts[1..];
        return v;
      }
      if ts[0].o == LeftRound {
        ts := ts[1..];
        v := ParseAdditive();
        if ts == [] || !ts[0].Op? || ts[0].o != RightRound {
          return a.nan;
        }
        ts := ts[1..];
        return v;
      }
      return a.nan;
    }
  }

  /** dt_calculator_solve. */
  method SolveFormula<V(==)>(a: Arith<V>, x: V, ts: seq<Token<V>>) returns (v: V)
    ensures v == Solve(a, x, ts)
    ensures ts != [] && ts[0] == Op(Inc) ==> v == a.add(x, a.one)
    ensures ts != [] && ts[0] == Op(Dec) ==> v == a.sub(x, a.one)
  {
    var self := new Parser(a, ts);
    if self.ts != [] && self.ts[0].Op? {
      if self.ts[0].o == Inc {
        return a.add(x, a.one);
      }
      if self.ts[0].o == Dec {
        return a.sub(x, a.one);
      }
    }
    v := self.ParseAdditive();
    if self.ts != [] {
      v := a.nan;
    }
  }
}
