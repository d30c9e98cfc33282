/** Condition chains of the configuration-script compiler: tokens, the value a
    chain denotes, and the grammar of the chains that `if` statements carry. */
module Conditions {
  import opened Wrappers

  /** The operators of a chain node (scripts/tkconfig/tkparse.h). */
  datatype Op =
    | Eq | Neq | And | And1 | Or | Bang | LParen | RParen
    | Constant | Variable | True | False | Nuked

  /** What one node of a chain holds, apart from its link. */
  datatype Token = Token(op: Op, str: string, nameindex: int)

  /** A node whose string and index fields are still zeroed. */
  function Sym(op: Op): Token { Token(op, "", 0) }

  /** An assignment of values to the script's variables. */
  type Env = int -> string

  predicate IsOperand(t: Token) { t.op == Variable || t.op == Constant }

  function Value(t: Token, env: Env): string {
    if t.op == Variable then env(t.nameindex) else t.str
  }

  // ---------------------------------------------------------------------
  // The value of a chain: one left-to-right scan in which `&&` binds tighter
  // than `||`, parentheses nest, `!` negates the comparison or group that
  // follows, and nuked nodes print nothing.
  // ---------------------------------------------------------------------

  /** One open parenthesis level: `any` is the disjunction of the finished
      and-groups, `all` the conjunction of the current one. */
  datatype Frame = Frame(negated: bool, any: bool, all: bool)

  datatype Phase =
    | Operand(negated: bool)
    | Relation(negated: bool, left: string)
    | Right(negated: bool, left: string, equal: bool)
    | Connective
    | Malformed

  datatype State = State(top: Frame, outer: seq<Frame>, phase: Phase)

  function Primary(st: State, v: bool): State {
    st.(top := st.top.(all := st.top.all && v), phase := Connective)
  }

  function Bad(st: State): State { st.(phase := Malformed) }

  function Step(st: State, t: Token, env: Env): State {
    if t.op == Nuked then st else
    match st.phase
    case Operand(neg) =>
      (match t.op
       case Bang => st.(phase := Operand(!neg))
       case LParen => State(Frame(neg, false, true), [st.top] + st.outer, Operand(false))
       case True => Primary(st, !neg)
       case False => Primary(st, neg)
       case Variable => st.(phase := Relation(neg, Value(t, env)))
       case Constant => st.(phase := Relation(neg, Value(t, env)))
       case _ => Bad(st))
    case Relation(neg, left) =>
      (match t.op
       case Eq => st.(phase := Right(neg, left, true))
       case Neq => st.(phase := Right(neg, left, false))
       case _ => Bad(st))
    case Right(neg, left, equal) =>
      if IsOperand(t) then Primary(st, ((left == Value(t, env)) == equal) != neg) else Bad(st)
    case Connective =>
      (match t.op
       case And => st.(phase := Operand(false))
       case And1 => st.(phase := Operand(false))
       case Or => st.(top := Frame(st.top.negated, st.top.any || st.top.all, true), phase := Operand(false))
       case RParen =>
         if st.outer == [] then Bad(st)
         else Primary(State(st.outer[0], st.outer[1..], Connective), (st.top.any || st.top.all) != st.top.negated)
       case _ => Bad(st))
    case Malformed => st
  }

  function Scan(st: State, ts: seq<Token>, env: Env): State
    decreases |ts|
  {
    if ts == [] then st else Scan(Step(st, ts[0], env), ts[1..], env)
  }

  const START := State(Frame(false, false, true), [], Operand(false))

  /** The value of a chain, or None when it is not a well-formed condition. */
  function Eval(ts: seq<Token>, env: Env): Option<bool> {
    var st := Scan(START, ts, env);
    if st.phase == Connective && st.outer == [] then Some(st.top.any || st.top.all) else None
  }

  lemma {:induction false} ScanConcat(st: State, a: seq<Token>, b: seq<Token>, env: Env)
    ensures Scan(st, a + b, env) == Scan(Scan(st, a, env), b, env)
    decreases |a|
  {
    if a == [] {
      assert a + b == b;
    } else {
      assert (a + b)[1..] == a[1..] + b;
      ScanConcat(Step(st, a[0], env), a[1..], b, env);
    }
  }

  // ---------------------------------------------------------------------
  // The chains of `if` statements: comparisons, each under any number of
  // bangs, joined by connectives. There are no parentheses in them.
  // ---------------------------------------------------------------------

  datatype Comparison = Comparison(bangs: nat, lhs: Token, equal: bool, rhs: Token)

  datatype Chain = One(cmp: Comparison) | Link(cmp: Comparison, conn: Op, rest: Chain)

  predicate ValidComparison(c: Comparison) { IsOperand(c.lhs) && IsOperand(c.rhs) }

  predicate ValidChain(ch: Chain) {
    ValidComparison(ch.cmp) &&
    (ch.Link? ==> (ch.conn == And || ch.conn == And1 || ch.conn == Or) && ValidChain(ch.rest))
  }

  function Bangs(n: nat): seq<Token> { if n == 0 then [] else [Sym(Bang)] + Bangs(n - 1) }

  function Body(c: Comparison): seq<Token> {
    [c.lhs, Sym(if c.equal then Eq else Neq), c.rhs]
  }

  function ComparisonTokens(c: Comparison): seq<Token> { Bangs(c.bangs) + Body(c) }

  function Flat(ch: Chain): (ts: seq<Token>)
    ensures ts != []
  {
    match ch
    case One(c) => ComparisonTokens(c)
    case Link(c, conn, rest) => ComparisonTokens(c) + [Sym(conn)] + Flat(rest)
  }

  /** The node sequences that are chains in this grammar. */
  ghost predicate IsChain(ts: seq<Token>) {
    exists ch :: ValidChain(ch) && ts == Flat(ch)
  }

  function Holds(c: Comparison, env: Env): bool {
    ((Value(c.lhs, env) == Value(c.rhs, env)) == c.equal) != (c.bangs % 2 == 1)
  }

  /** Disjunction of and-groups, given the groups already closed and the open one. */
  function Meaning(ch: Chain, any: bool, all: bool, env: Env): bool {
    var all' := all && Holds(ch.cmp, env);
    match ch
    case One(_) => any || all'
    case Link(_, conn, rest) =>
      if conn == Or then Meaning(rest, any || all', true, env) else Meaning(rest, any, all', env)
  }

  function Truth(ch: Chain, env: Env): bool { Meaning(ch, false, true, env) }

  lemma {:induction false} ScanBangs(st: State, n: nat, env: Env)
    requires st.phase.Operand?
    ensures Scan(st, Bangs(n), env) == st.(phase := Operand(st.phase.negated != (n % 2 == 1)))
    decreases n
  {
    if n > 0 {
      assert Bangs(n)[1..] == Bangs(n - 1);
      ScanBangs(st.(phase := Operand(!st.phase.negated)), n - 1, env);
    }
  }

  lemma {:induction false} ScanComparison(st: State, c: Comparison, env: Env)
    requires ValidComparison(c) && st.phase == Operand(false)
    ensures Scan(st, ComparisonTokens(c), env) == Primary(st, Holds(c, env))
  {
    ScanConcat(st, Bangs(c.bangs), Body(c), env);
    ScanBangs(st, c.bangs, env);
    var s0 := Scan(st, Bangs(c.bangs), env);
    var s1 := Step(s0, Body(c)[0], env);
    var s2 := Step(s1, Body(c)[1], env);
    assert Body(c)[1..][1..] == [c.rhs] && Body(c)[1..][1..][1..] == [];
    assert Scan(s0, Body(c), env) == Scan(s1, Body(c)[1..], env);
    assert Scan(s1, Body(c)[1..], env) == Scan(s2, [c.rhs], env);
    assert Scan(s2, [c.rhs], env) == Step(s2, c.rhs, env);
  }

  /** Scanning a chain leaves the enclosing levels alone and adds its value. */
  lemma {:induction false} ScanChain(st: State, ch: Chain, env: Env)
    requires ValidChain(ch) && st.phase == Operand(false)
    ensures var r := Scan(st, Flat(ch), env);
      r.phase == Connective && r.outer == st.outer && r.top.negated == st.top.negated &&
      (r.top.any || r.top.all) == Meaning(ch, st.top.any, st.top.all, env)
    decreases ch
  {
    ScanComparison(st, ch.cmp, env);
    if ch.Link? {
      var head := ComparisonTokens(ch.cmp);
      var s1 := Primary(st, Holds(ch.cmp, env));
      var s2 := Step(s1, Sym(ch.conn), env);
      ScanConcat(st, head + [Sym(ch.conn)], Flat(ch.rest), env);
      ScanConcat(st, head, [Sym(ch.conn)], env);
      assert Scan(s1, [Sym(ch.conn)], env) == s2;
      ScanChain(s2, ch.rest, env);
    }
  }

  /** The flat scan computes the chain's value: `-a` before `-o`, `!` innermost. */
  lemma {:induction false} ChainValue(ch: Chain, env: Env)
    requires ValidChain(ch)
    ensures Eval(Flat(ch), env) == Some(Truth(ch, env))
  {
    ScanChain(START, ch, env);
  }
}
