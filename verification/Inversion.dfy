/** Pushing `!` inward and inverting a chain at `else`: what the two rewrites
    of a chain do to its value. */
module Inversion {
  import opened Wrappers
  import opened Conditions

  // ---------------------------------------------------------------------
  // remove_bang
  // ---------------------------------------------------------------------

  function Toggle(op: Op): Op { if op == Eq then Neq else if op == Neq then Eq else op }

  predicate BangAt(ts: seq<Token>) {
    |ts| >= 3 && ts[0].op == Bang && (ts[2].op == Eq || ts[2].op == Neq)
  }

  /** One `!` directly before a comparison goes, and the comparison flips. */
  function BangsRemoved(ts: seq<Token>): seq<Token>
    decreases |ts|
  {
    if ts == [] then []
    else if BangAt(ts) then [ts[1], ts[2].(op := Toggle(ts[2].op))] + BangsRemoved(ts[3..])
    else [ts[0]] + BangsRemoved(ts[1..])
  }

  function UnbangComparison(c: Comparison): Comparison {
    if c.bangs == 0 then c else c.(bangs := c.bangs - 1, equal := !c.equal)
  }

  function Unbang(ch: Chain): Chain {
    match ch
    case One(c) => One(UnbangComparison(c))
    case Link(c, conn, rest) => Link(UnbangComparison(c), conn, Unbang(rest))
  }

  lemma {:induction false} BodyKept(c: Comparison, tail: seq<Token>)
    requires ValidComparison(c)
    ensures BangsRemoved(Body(c) + tail) == Body(c) + BangsRemoved(tail)
  {
    var ts := Body(c) + tail;
    assert ts[1..][1..][1..] == tail;
    assert BangsRemoved(ts) == [ts[0]] + BangsRemoved(ts[1..]);
    assert BangsRemoved(ts[1..]) == [ts[1]] + BangsRemoved(ts[1..][1..]);
    assert BangsRemoved(ts[1..][1..]) == [ts[2]] + BangsRemoved(tail);
  }

  lemma {:induction false} LastBangRemoved(c: Comparison, tail: seq<Token>)
    requires ValidComparison(c) && c.bangs == 1
    ensures BangsRemoved([Sym(Bang)] + Body(c) + tail) == Body(UnbangComparison(c)) + BangsRemoved(tail)
  {
    var ts := [Sym(Bang)] + Body(c) + tail;
    assert ts[3..] == [c.rhs] + tail;
    assert ([c.rhs] + tail)[1..] == tail;
    assert BangsRemoved([c.rhs] + tail) == [c.rhs] + BangsRemoved(tail);
  }

  lemma {:induction false} PeelBang(c: Comparison, tail: seq<Token>)
    requires c.bangs > 0
    ensures ComparisonTokens(c) + tail == [Sym(Bang)] + (ComparisonTokens(c.(bangs := c.bangs - 1)) + tail)
  {
    assert Bangs(c.bangs) == [Sym(Bang)] + Bangs(c.bangs - 1);
  }

  lemma {:induction false} FirstToken(c: Comparison, tail: seq<Token>)
    requires ValidComparison(c)
    ensures var t := (ComparisonTokens(c) + tail)[0]; t.op == Bang || IsOperand(t)
  {
    if c.bangs > 0 { PeelBang(c, tail); }
  }

  lemma {:induction false} KeepFirst(t: Token, rest: seq<Token>)
    requires !BangAt([t] + rest)
    ensures BangsRemoved([t] + rest) == [t] + BangsRemoved(rest)
  {
    assert ([t] + rest)[1..] == rest;
  }

  lemma {:induction false} BangsRemovedComparison(c: Comparison, tail: seq<Token>)
    requires ValidComparison(c)
    ensures BangsRemoved(ComparisonTokens(c) + tail) == ComparisonTokens(UnbangComparison(c)) + BangsRemoved(tail)
    decreases c.bangs
  {
    if c.bangs == 0 {
      assert ComparisonTokens(c) == Body(c);
      BodyKept(c, tail);
    } else if c.bangs == 1 {
      OneBangRemoved(c, tail);
    } else {
      var fewer := c.(bangs := c.bangs - 1);
      BangsRemovedComparison(fewer, tail);
      FirstBangKept(c, tail);
      PeelBang(UnbangComparison(c), BangsRemoved(tail));
    }
  }

  lemma {:induction false} OneBangRemoved(c: Comparison, tail: seq<Token>)
    requires ValidComparison(c) && c.bangs == 1
    ensures BangsRemoved(ComparisonTokens(c) + tail) == ComparisonTokens(UnbangComparison(c)) + BangsRemoved(tail)
  {
    PeelBang(c, tail);
    assert ComparisonTokens(c.(bangs := 0)) == Body(c);
    assert [Sym(Bang)] + (Body(c) + tail) == [Sym(Bang)] + Body(c) + tail;
    assert ComparisonTokens(UnbangComparison(c)) == Body(UnbangComparison(c));
    LastBangRemoved(c, tail);
  }

  lemma {:induction false} FirstBangKept(c: Comparison, tail: seq<Token>)
    requires ValidComparison(c) && c.bangs > 1
    ensures var fewer := c.(bangs := c.bangs - 1);
      BangsRemoved(ComparisonTokens(c) + tail) == [Sym(Bang)] + BangsRemoved(ComparisonTokens(fewer) + tail)
  {
    var fewer := c.(bangs := c.bangs - 1);
    PeelBang(c, tail);
    PeelBang(fewer, tail);
    FirstToken(fewer.(bangs := fewer.bangs - 1), tail);
    KeepFirst(Sym(Bang), ComparisonTokens(fewer) + tail);
  }

  lemma {:induction false} BangsRemovedChain(ch: Chain)
    requires ValidChain(ch)
    ensures ValidChain(Unbang(ch)) && BangsRemoved(Flat(ch)) == Flat(Unbang(ch))
    decreases ch
  {
    match ch
    case One(c) =>
      assert Flat(ch) == ComparisonTokens(c) + [];
      BangsRemovedComparison(c, []);
    case Link(c, conn, rest) =>
      var tail := [Sym(conn)] + Flat(rest);
      assert Flat(ch) == ComparisonTokens(c) + tail;
      BangsRemovedComparison(c, tail);
      assert tail[1..] == Flat(rest);
      assert BangsRemoved(tail) == [Sym(conn)] + BangsRemoved(Flat(rest));
      BangsRemovedChain(rest);
  }

  lemma {:induction false} UnbangMeaning(ch: Chain, any: bool, all: bool, env: Env)
    requires ValidChain(ch)
    ensures Meaning(Unbang(ch), any, all, env) == Meaning(ch, any, all, env)
    decreases ch
  {
    var all' := all && Holds(ch.cmp, env);
    if ch.Link? {
      UnbangMeaning(ch.rest, any || all', true, env);
      UnbangMeaning(ch.rest, any, all', env);
    }
  }

  ghost predicate SingleBangs(ch: Chain) {
    ch.cmp.bangs <= 1 && (ch.Link? ==> SingleBangs(ch.rest))
  }

  lemma {:induction false} BangFree(ch: Chain)
    requires ValidChain(ch)
    ensures (forall t <- BangsRemoved(Flat(ch)) :: t.op != Bang) <==> SingleBangs(ch)
    decreases ch
  {
    BangsRemovedChain(ch);
    UnbangedFree(ch);
  }

  ghost predicate NoBang(ts: seq<Token>) { forall t <- ts :: t.op != Bang }

  lemma {:induction false} UnbangedFree(ch: Chain)
    requires ValidChain(ch)
    ensures NoBang(Flat(Unbang(ch))) <==> SingleBangs(ch)
    decreases ch
  {
    ComparisonFree(UnbangComparison(ch.cmp));
    if ch.Link? {
      UnbangedFree(ch.rest);
      NoBangParts(ComparisonTokens(UnbangComparison(ch.cmp)), Sym(ch.conn), Flat(Unbang(ch.rest)));
    }
  }

  lemma {:induction false} ComparisonFree(c: Comparison)
    requires ValidComparison(c)
    ensures NoBang(ComparisonTokens(c)) <==> c.bangs == 0
  {
    if c.bangs > 0 { assert ComparisonTokens(c)[0] == Sym(Bang); }
  }

  lemma {:induction false} NoBangParts(a: seq<Token>, m: Token, b: seq<Token>)
    ensures NoBang(a + [m] + b) <==> NoBang(a) && m.op != Bang && NoBang(b)
  {
    assert forall t :: t in a + [m] + b <==> t in a || t == m || t in b;
    assert m in a + [m] + b;
  }

  /** remove_bang keeps the value of every chain, however many bangs it has,
      and clears every bang exactly when no comparison carries two. */
  lemma {:induction false} RemoveBangPreservesMeaning(ch: Chain, env: Env)
    requires ValidChain(ch)
    ensures IsChain(BangsRemoved(Flat(ch)))
    ensures Eval(BangsRemoved(Flat(ch)), env) == Eval(Flat(ch), env) == Some(Truth(ch, env))
    ensures (forall t <- BangsRemoved(Flat(ch)) :: t.op != Bang) <==> SingleBangs(ch)
  {
    BangsRemovedChain(ch);
    ChainValue(ch, env);
    ChainValue(Unbang(ch), env);
    UnbangMeaning(ch, false, true, env);
    BangFree(ch);
  }

  // ---------------------------------------------------------------------
  // token_else
  // ---------------------------------------------------------------------

  function InvertToken(t: Token): Token {
    t.(op := match t.op
             case And => Or
             case Or => And1
             case Neq => Eq
             case Eq => Neq
             case True => False
             case False => True
             case other => other)
  }

  function Inverted(ts: seq<Token>): seq<Token> { seq(|ts|, i requires 0 <= i < |ts| => InvertToken(ts[i])) }

  function InvertChain(ch: Chain): Chain {
    var c := ch.cmp.(equal := !ch.cmp.equal);
    match ch
    case One(_) => One(c)
    case Link(_, conn, rest) => Link(c, InvertToken(Sym(conn)).op, InvertChain(rest))
  }

  predicate AllConnectives(ch: Chain, conn: Op) {
    ch.Link? ==> ch.conn == conn && AllConnectives(ch.rest, conn)
  }

  /** Joined only by `-a` or only by `-o`. */
  predicate Homogeneous(ch: Chain) { AllConnectives(ch, And) || AllConnectives(ch, Or) }

  /** Joined by the connectives a script can write. */
  predicate Source(ch: Chain) { ch.Link? ==> ch.conn != And1 && Source(ch.rest) }

  lemma {:induction false} InvertedConcat(a: seq<Token>, b: seq<Token>)
    ensures Inverted(a + b) == Inverted(a) + Inverted(b)
  {}

  lemma {:induction false} InvertedBangs(n: nat)
    ensures Inverted(Bangs(n)) == Bangs(n)
  {
    if n > 0 {
      InvertedBangs(n - 1);
      InvertedConcat([Sym(Bang)], Bangs(n - 1));
    }
  }

  lemma {:induction false} InvertedChain(ch: Chain)
    requires ValidChain(ch)
    ensures ValidChain(InvertChain(ch)) && Inverted(Flat(ch)) == Flat(InvertChain(ch))
    decreases ch
  {
    var c := ch.cmp;
    InvertedBangs(c.bangs);
    InvertedConcat(Bangs(c.bangs), Body(c));
    assert Inverted(ComparisonTokens(c)) == ComparisonTokens(InvertChain(ch).cmp);
    if ch.Link? {
      InvertedChain(ch.rest);
      InvertedConcat(ComparisonTokens(c), [Sym(ch.conn)]);
      InvertedConcat(ComparisonTokens(c) + [Sym(ch.conn)], Flat(ch.rest));
    }
  }

  lemma {:induction false} InvertConjunction(ch: Chain, all: bool, env: Env)
    requires ValidChain(ch) && AllConnectives(ch, And)
    ensures Meaning(InvertChain(ch), !all, true, env) == !Meaning(ch, false, all, env)
    decreases ch
  {
    if ch.Link? { InvertConjunction(ch.rest, all && Holds(ch.cmp, env), env); }
  }

  lemma {:induction false} InvertDisjunction(ch: Chain, any: bool, env: Env)
    requires ValidChain(ch) && AllConnectives(ch, Or)
    ensures Meaning(InvertChain(ch), false, !any, env) == !Meaning(ch, any, true, env)
    decreases ch
  {
    if ch.Link? { InvertDisjunction(ch.rest, any || Holds(ch.cmp, env), env); }
  }

  /** On a homogeneous chain the rewrite at `else` is negation. */
  lemma {:induction false} ElseNegates(ch: Chain, env: Env)
    requires ValidChain(ch) && Homogeneous(ch)
    ensures ValidChain(InvertChain(ch)) && Inverted(Flat(ch)) == Flat(InvertChain(ch))
    ensures Eval(Inverted(Flat(ch)), env) == Some(!Truth(ch, env))
  {
    InvertedChain(ch);
    ChainValue(InvertChain(ch), env);
    if AllConnectives(ch, And) {
      InvertConjunction(ch, true, env);
    } else {
      InvertDisjunction(ch, false, env);
    }
  }

  // Where the rewrite is not negation: a mixed chain over distinct variables.

  predicate Mentions(ch: Chain, v: int) {
    ch.cmp.lhs.nameindex == v || (ch.Link? && Mentions(ch.rest, v))
  }

  /** Variables against constants, no variable twice. */
  predicate DistinctVariables(ch: Chain) {
    ch.cmp.lhs.op == Variable && ch.cmp.rhs.op == Constant &&
    (ch.Link? ==> !Mentions(ch.rest, ch.cmp.lhs.nameindex) && DistinctVariables(ch.rest))
  }

  ghost predicate AllHold(ch: Chain, want: bool, env: Env) {
    Holds(ch.cmp, env) == want && (ch.Link? ==> AllHold(ch.rest, want, env))
  }

  /** An assignment that gives one comparison the wanted value. */
  ghost function Assign(c: Comparison, want: bool, env: Env): Env {
    var equal := (want == c.equal) != (c.bangs % 2 == 1);
    (v: int) => if v == c.lhs.nameindex then (if equal then c.rhs.str else c.rhs.str + "x") else env(v)
  }

  lemma {:induction false} AssignHolds(c: Comparison, want: bool, env: Env)
    requires c.lhs.op == Variable && c.rhs.op == Constant
    ensures Holds(c, Assign(c, want, env)) == want
  {
    assert |c.rhs.str + "x"| != |c.rhs.str|;
  }

  lemma {:induction false} AssignElsewhere(ch: Chain, all: bool, c: Comparison, want: bool, env: Env)
    requires DistinctVariables(ch) && !Mentions(ch, c.lhs.nameindex) && AllHold(ch, all, env)
    ensures AllHold(ch, all, Assign(c, want, env))
    decreases ch
  {
    if ch.Link? { AssignElsewhere(ch.rest, all, c, want, env); }
  }

  lemma {:induction false} Satisfy(ch: Chain, want: bool) returns (env: Env)
    requires DistinctVariables(ch)
    ensures AllHold(ch, want, env)
    decreases ch
  {
    env := _ => "";
    if ch.Link? {
      env := Satisfy(ch.rest, want);
      AssignElsewhere(ch.rest, want, ch.cmp, want, env);
    }
    AssignHolds(ch.cmp, want, env);
    env := Assign(ch.cmp, want, env);
  }

  lemma {:induction false} OnceTrue(ch: Chain, all: bool, env: Env)
    ensures Meaning(ch, true, all, env)
    decreases ch
  {
    if ch.Link? { OnceTrue(ch.rest, true, env); OnceTrue(ch.rest, all && Holds(ch.cmp, env), env); }
  }

  /** A run of true comparisons makes the value true once its group is fresh. */
  lemma {:induction false} TrueTail(ch: Chain, any: bool, all: bool, env: Env)
    requires ValidChain(ch) && AllHold(ch, true, env)
    requires all || !AllConnectives(ch, And)
    requires Source(ch)
    ensures Meaning(ch, any, all, env)
    decreases ch
  {
    if ch.Link? {
      if ch.conn == Or {
        TrueTail(ch.rest, any || all, true, env);
      } else {
        TrueTail(ch.rest, any, all, env);
      }
    }
  }

  lemma {:induction false} FalseTail(ch: Chain, any: bool, all: bool, env: Env)
    requires ValidChain(ch) && AllHold(ch, false, env)
    requires all || !AllConnectives(ch, Or)
    requires Source(ch)
    ensures Meaning(InvertChain(ch), any, all, env)
    decreases ch
  {
    if ch.Link? {
      if ch.conn == And {
        FalseTail(ch.rest, any || all, true, env);
      } else {
        FalseTail(ch.rest, any, all, env);
      }
    }
  }

  /** Every mixed chain over distinct variables has an assignment under which
      both the `if` branch and the `else` branch are taken. */
  lemma {:induction false} MixedElseOverlaps(ch: Chain) returns (env: Env)
    requires ValidChain(ch) && Source(ch) && DistinctVariables(ch) && !Homogeneous(ch)
    ensures Truth(ch, env) && Eval(Inverted(Flat(ch)), env) == Some(true)
  {
    var first := ch.conn == Or;
    var rest := Satisfy(ch.rest, !first);
    AssignElsewhere(ch.rest, !first, ch.cmp, first, rest);
    AssignHolds(ch.cmp, first, rest);
    env := Assign(ch.cmp, first, rest);
    InvertedChain(ch);
    ChainValue(InvertChain(ch), env);
    if first {
      OnceTrue(ch.rest, true, env);
      FalseTail(ch.rest, false, false, env);
    } else {
      TrueTail(ch.rest, false, false, env);
      OnceTrue(InvertChain(ch.rest), true, env);
    }
  }

  /** The exact reach of the `else` rewrite, over distinct variables. */
  lemma {:induction false} ElseNegatesExactlyWhenHomogeneous(ch: Chain)
    requires ValidChain(ch) && Source(ch) && DistinctVariables(ch)
    ensures (forall env: Env :: Eval(Inverted(Flat(ch)), env) == Some(!Truth(ch, env))) <==> Homogeneous(ch)
  {
    if Homogeneous(ch) {
      forall env: Env ensures Eval(Inverted(Flat(ch)), env) == Some(!Truth(ch, env)) {
        ElseNegates(ch, env);
      }
    } else {
      var env := MixedElseOverlaps(ch);
      assert Eval(Inverted(Flat(ch)), env) != Some(!Truth(ch, env));
    }
  }
}
