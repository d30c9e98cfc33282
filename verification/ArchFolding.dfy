/** Folding the leading ARCH tests and undefined variables of a chain. */
module ArchFolding {
  import opened Wrappers
  import opened Conditions
  import Inversion

  const CURRENT_ARCH := "sparc"

  /** The variable table: names by index, and which are defined in the script. */
  datatype Table = Table(name: int -> string, defined: set<int>)

  predicate IsArch(t: Token, tab: Table) { t.op == Variable && tab.name(t.nameindex) == "ARCH" }

  /** The assignments the pass may rely on. */
  ghost predicate Admissible(env: Env, tab: Table) {
    forall v: int ::
      (tab.name(v) == "ARCH" ==> env(v) == CURRENT_ARCH) &&
      (tab.name(v) != "ARCH" && v !in tab.defined ==> env(v) == "")
  }

  // ---------------------------------------------------------------------
  // eliminate_other_arch, on the nodes of a chain
  // ---------------------------------------------------------------------

  /** The last node is not a dangling connective, so no recursion meets an
      empty list. */
  predicate Closed(ts: seq<Token>) {
    ts != [] && ts[|ts| - 1].op != And && ts[|ts| - 1].op != Or
  }

  predicate ForeignTest(rel: Op, str: string) {
    (rel == Eq && str != CURRENT_ARCH) || (rel == Neq && str == CURRENT_ARCH)
  }

  predicate NativeTest(rel: Op, str: string) {
    (rel == Neq && str != CURRENT_ARCH) || (rel == Eq && str == CURRENT_ARCH)
  }

  datatype Shape = TooComplex | Plain | Incorrect

  /** The search for an `-o` outside every parenthesis. */
  function ShapeOf(ts: seq<Token>, level: int): Shape
    decreases |ts|
  {
    if ts == [] then Plain
    else if ts[0].op == LParen then ShapeOf(ts[1..], level + 1)
    else if ts[0].op == RParen then ShapeOf(ts[1..], level - 1)
    else if ts[0].op == Or && level == 0 then TooComplex
    else if level < 0 then Incorrect
    else ShapeOf(ts[1..], level)
  }

  predicate Folds(rel: Op, str: string) { rel == Eq && str != "" }

  /** None is the program's exit on an incorrect condition. */
  function Eliminated(ts: seq<Token>, tab: Table): (r: Option<seq<Token>>)
    requires Closed(ts)
    ensures r.Some? ==> r.value != [] && |r.value| <= |ts|
    decreases |ts|, 1
  {
    if !IsArch(ts[0], tab) then EliminatedUndefined(ts, tab)
    else if |ts| < 3 then Some(ts)
    else if ts[2].op == Constant && |ts| == 3 && ForeignTest(ts[1].op, ts[2].str) then
      Some([ts[0].(op := False)])
    else if ts[2].op == Constant && |ts| == 3 && NativeTest(ts[1].op, ts[2].str) then
      Some([ts[0].(op := True)])
    else if ts[2].op == Constant && |ts| > 3 && ts[3].op == Or && ForeignTest(ts[1].op, ts[2].str) then
      Eliminated(ts[4..], tab)
    else if ts[2].op == Constant && |ts| > 3 && ts[3].op == Or && NativeTest(ts[1].op, ts[2].str) then
      Some([ts[0].(op := True)])
    else if ts[2].op == Constant && |ts| > 3 && ts[3].op == And && ForeignTest(ts[1].op, ts[2].str) then
      match ShapeOf(ts[4..], 0)
      case TooComplex => Some(ts)
      case Incorrect => None
      case Plain => Some([ts[0].(op := False)])
    else if ts[2].op == Constant && |ts| > 3 && ts[3].op == And && NativeTest(ts[1].op, ts[2].str) then
      Eliminated(ts[4..], tab)
    else EliminatedUndefined(ts, tab)
  }

  function EliminatedUndefined(ts: seq<Token>, tab: Table): (r: Option<seq<Token>>)
    requires Closed(ts)
    ensures r.Some? ==> r.value != [] && |r.value| <= |ts|
    decreases |ts|, 0
  {
    if ts[0].op != Variable || ts[0].nameindex in tab.defined || |ts| < 3 then Some(ts)
    else if ts[2].op == Constant && (|ts| == 3 || ts[3].op == And) then
      if Folds(ts[1].op, ts[2].str) then Some([ts[0].(op := False)]) else Some(ts)
    else if ts[2].op == Constant && ts[3].op == Or && Folds(ts[1].op, ts[2].str) then
      Eliminated(ts[4..], tab)
    else Some(ts)
  }

  // ---------------------------------------------------------------------
  // The same folding on the chains of `if` statements
  // ---------------------------------------------------------------------

  datatype Folded = Constantly(value: bool, marker: Token) | Rest(chain: Chain)

  predicate ValidFolded(f: Folded) {
    match f
    case Constantly(v, m) => m.op == if v then True else False
    case Rest(ch) => ValidChain(ch) && Inversion.Source(ch)
  }

  function FoldedTokens(f: Folded): seq<Token> {
    match f
    case Constantly(_, m) => [m]
    case Rest(ch) => Flat(ch)
  }

  function FoldedTruth(f: Folded, env: Env): bool {
    match f
    case Constantly(v, _) => v
    case Rest(ch) => Truth(ch, env)
  }

  function Marker(c: Comparison, v: bool): Folded {
    Constantly(v, c.lhs.(op := if v then True else False))
  }

  /** A test the pass can look at: no bang, a variable against a constant. */
  predicate Visible(c: Comparison) { c.bangs == 0 && c.lhs.op == Variable && c.rhs.op == Constant }

  predicate ArchTest(c: Comparison, tab: Table) { Visible(c) && IsArch(c.lhs, tab) }

  predicate UndefinedTest(c: Comparison, tab: Table) {
    Visible(c) && !IsArch(c.lhs, tab) && c.lhs.nameindex !in tab.defined && c.equal && c.rhs.str != ""
  }

  predicate HasOr(ch: Chain) { ch.Link? && (ch.conn == Or || HasOr(ch.rest)) }

  function Fold(ch: Chain, tab: Table): Folded {
    var c := ch.cmp;
    if ArchTest(c, tab) then
      var native := c.equal == (c.rhs.str == CURRENT_ARCH);
      match ch
      case One(_) => Marker(c, native)
      case Link(_, conn, rest) =>
        if native == (conn != Or) then Fold(rest, tab)
        else if conn != Or && HasOr(rest) then Rest(ch)
        else Marker(c, native)
    else if UndefinedTest(c, tab) then
      match ch
      case One(_) => Marker(c, false)
      case Link(_, conn, rest) => if conn == Or then Fold(rest, tab) else Marker(c, false)
    else Rest(ch)
  }

  /** The part of the chain that the undefined-variable fold throws away although
      it is an alternative: what follows the first `-o` after a folded `-a`. */
  function Lost(ch: Chain, tab: Table): Option<Chain> {
    var c := ch.cmp;
    if ch.One? then None
    else if ArchTest(c, tab) then
      var native := c.equal == (c.rhs.str == CURRENT_ARCH);
      if native == (ch.conn != Or) then Lost(ch.rest, tab) else None
    else if UndefinedTest(c, tab) then
      if ch.conn == Or then Lost(ch.rest, tab) else AfterOr(ch.rest)
    else None
  }

  function AfterOr(ch: Chain): Option<Chain> {
    if ch.One? then None else if ch.conn == Or then Some(ch.rest) else AfterOr(ch.rest)
  }

  lemma {:induction false} ShapeSkips(a: seq<Token>, b: seq<Token>)
    requires forall t <- a :: t.op != LParen && t.op != RParen && t.op != Or
    ensures ShapeOf(a + b, 0) == ShapeOf(b, 0)
    decreases |a|
  {
    if a == [] {
      assert a + b == b;
    } else {
      assert (a + b)[1..] == a[1..] + b;
      ShapeSkips(a[1..], b);
    }
  }

  lemma {:induction false} BangsAreBangs(n: nat)
    ensures forall t <- Bangs(n) :: t == Sym(Bang)
  {
    if n > 0 { BangsAreBangs(n - 1); }
  }

  lemma {:induction false} ShapeOfChain(ch: Chain)
    requires ValidChain(ch)
    ensures ShapeOf(Flat(ch), 0) == if HasOr(ch) then TooComplex else Plain
    decreases ch
  {
    var head := ComparisonTokens(ch.cmp);
    BangsAreBangs(ch.cmp.bangs);
    match ch
    case One(_) =>
      assert head == head + [];
      ShapeSkips(head, []);
    case Link(_, conn, rest) =>
      var tail := [Sym(conn)] + Flat(rest);
      assert Flat(ch) == head + tail;
      ShapeSkips(head, tail);
      assert tail[0] == Sym(conn) && tail[1..] == Flat(rest);
      ShapeOfChain(rest);
  }

  lemma {:induction false} ClosedChain(ch: Chain)
    requires ValidChain(ch)
    ensures Closed(Flat(ch))
    decreases ch
  {
    match ch
    case One(c) => assert Flat(ch)[|Flat(ch)| - 1] == c.rhs;
    case Link(_, _, rest) =>
      ClosedChain(rest);
      assert Flat(ch)[|Flat(ch)| - 1] == Flat(rest)[|Flat(rest)| - 1];
  }

  /** The nodes of a chain whose first comparison has no bang. */
  lemma {:induction false} PlainHead(ch: Chain)
    requires ValidChain(ch) && ch.cmp.bangs == 0
    ensures Flat(ch)[0] == ch.cmp.lhs && Flat(ch)[1] == Sym(if ch.cmp.equal then Eq else Neq) && Flat(ch)[2] == ch.cmp.rhs
    ensures if ch.One? then |Flat(ch)| == 3
      else |Flat(ch)| > 4 && Flat(ch)[3] == Sym(ch.conn) && Flat(ch)[4..] == Flat(ch.rest)
  {
    assert ComparisonTokens(ch.cmp) == Body(ch.cmp);
    if ch.Link? { BodyThen(ch.cmp, Sym(ch.conn), Flat(ch.rest)); }
  }

  lemma {:induction false} BodyThen(c: Comparison, m: Token, tail: seq<Token>)
    requires tail != []
    ensures var ts := Body(c) + [m] + tail;
      |ts| > 4 && ts[..3] == Body(c) && ts[0] == c.lhs && ts[2] == c.rhs && ts[3] == m && ts[4..] == tail
  {}

  lemma {:induction false} InvisibleKept(ch: Chain, tab: Table)
    requires ValidChain(ch) && !Visible(ch.cmp) && Closed(Flat(ch))
    ensures Eliminated(Flat(ch), tab) == Some(Flat(ch))
  {
    if ch.cmp.bangs > 0 {
      assert Flat(ch)[0] == Sym(Bang);
    } else {
      PlainHead(ch);
    }
  }

  /** What the pass does on a chain, given what it does on the rest. */
  lemma {:induction false} ArchHead(ch: Chain, tab: Table)
    requires ValidChain(ch) && Inversion.Source(ch) && ArchTest(ch.cmp, tab) && Closed(Flat(ch))
    requires ch.Link? ==> Closed(Flat(ch.rest)) && Eliminated(Flat(ch.rest), tab) == Some(FoldedTokens(Fold(ch.rest, tab)))
    ensures Eliminated(Flat(ch), tab) == Some(FoldedTokens(Fold(ch, tab)))
  {
    PlainHead(ch);
    var ts := Flat(ch);
    var native := ch.cmp.equal == (ch.cmp.rhs.str == CURRENT_ARCH);
    assert NativeTest(ts[1].op, ts[2].str) == native && ForeignTest(ts[1].op, ts[2].str) == !native;
    if ch.Link? { ShapeOfChain(ch.rest); }
  }

  lemma {:induction false} OtherHead(ch: Chain, tab: Table)
    requires ValidChain(ch) && Inversion.Source(ch) && Visible(ch.cmp) && !ArchTest(ch.cmp, tab) && Closed(Flat(ch))
    requires ch.Link? ==> Closed(Flat(ch.rest)) && Eliminated(Flat(ch.rest), tab) == Some(FoldedTokens(Fold(ch.rest, tab)))
    ensures Eliminated(Flat(ch), tab) == Some(FoldedTokens(Fold(ch, tab)))
  {
    PlainHead(ch);
    assert Eliminated(Flat(ch), tab) == EliminatedUndefined(Flat(ch), tab);
  }

  /** On the grammar of `if` conditions the node-level pass is `Fold`; it never
      takes the error exit, and what is left is a marker or a tail of the chain. */
  lemma {:induction false} EliminatedIsFold(ch: Chain, tab: Table)
    requires ValidChain(ch) && Inversion.Source(ch)
    ensures Closed(Flat(ch)) && ValidFolded(Fold(ch, tab))
    ensures Eliminated(Flat(ch), tab) == Some(FoldedTokens(Fold(ch, tab)))
    decreases ch
  {
    ClosedChain(ch);
    if ch.Link? { EliminatedIsFold(ch.rest, tab); }
    if !Visible(ch.cmp) {
      InvisibleKept(ch, tab);
    } else if ArchTest(ch.cmp, tab) {
      ArchHead(ch, tab);
    } else {
      OtherHead(ch, tab);
    }
  }

  lemma {:induction false} AfterFalse(ch: Chain, env: Env)
    requires ValidChain(ch)
    ensures Meaning(ch, false, false, env) == (AfterOr(ch).Some? && Truth(AfterOr(ch).value, env))
    ensures HasOr(ch) == AfterOr(ch).Some?
    decreases ch
  {
    if ch.Link? { AfterFalse(ch.rest, env); }
  }

  /** What the fold keeps and what it loses, under every admissible assignment. */
  lemma {:induction false} FoldSplitsTruth(ch: Chain, tab: Table, env: Env)
    requires ValidChain(ch) && Inversion.Source(ch) && Admissible(env, tab)
    ensures Truth(ch, env) ==
      (FoldedTruth(Fold(ch, tab), env) || (Lost(ch, tab).Some? && Truth(Lost(ch, tab).value, env)))
    ensures Lost(ch, tab).Some? ==> !FoldedTruth(Fold(ch, tab), env)
    decreases ch
  {
    if ch.Link? {
      FoldSplitsTruth(ch.rest, tab, env);
      AfterFalse(ch.rest, env);
      Inversion.OnceTrue(ch.rest, true, env);
    }
  }

  lemma {:induction false} FoldedValue(f: Folded, env: Env)
    requires ValidFolded(f)
    ensures Eval(FoldedTokens(f), env) == Some(FoldedTruth(f, env))
  {
    match f
    case Constantly(v, m) => assert Scan(START, [m], env) == Step(START, m, env);
    case Rest(ch) => ChainValue(ch, env);
  }

  /** The pass never makes a condition weaker. It keeps the value exactly when the
      alternative it throws away is absent or false. */
  lemma {:induction false} EliminationExact(ch: Chain, tab: Table, env: Env)
    requires ValidChain(ch) && Inversion.Source(ch) && Admissible(env, tab)
    ensures Closed(Flat(ch)) && Eliminated(Flat(ch), tab).Some?
    ensures var r := Eval(Eliminated(Flat(ch), tab).value, env);
      && (r == Some(true) ==> Truth(ch, env))
      && (r == Some(Truth(ch, env)) <==> Lost(ch, tab).None? || !Truth(Lost(ch, tab).value, env))
  {
    EliminatedIsFold(ch, tab);
    FoldedValue(Fold(ch, tab), env);
    FoldSplitsTruth(ch, tab, env);
  }

  /** Folding ARCH tests alone loses nothing, whatever connectives are mixed. */
  ghost predicate NoUndefined(ch: Chain, tab: Table) {
    !UndefinedTest(ch.cmp, tab) && (ch.Link? ==> NoUndefined(ch.rest, tab))
  }

  lemma {:induction false} ArchFoldLosesNothing(ch: Chain, tab: Table)
    requires NoUndefined(ch, tab)
    ensures Lost(ch, tab).None?
    decreases ch
  {
    if ch.Link? { ArchFoldLosesNothing(ch.rest, tab); }
  }

  lemma {:induction false} HomogeneousLosesNothing(ch: Chain, tab: Table)
    requires Inversion.Homogeneous(ch)
    ensures Lost(ch, tab).None?
    decreases ch
  {
    if ch.Link? {
      HomogeneousLosesNothing(ch.rest, tab);
      if ch.conn == And { AllAndHasNoOr(ch.rest); }
    }
  }

  lemma {:induction false} AllAndHasNoOr(ch: Chain)
    requires Inversion.AllConnectives(ch, And)
    ensures AfterOr(ch).None?
    decreases ch
  {
    if ch.Link? { AllAndHasNoOr(ch.rest); }
  }

  lemma {:induction false} FoldKeepsHomogeneous(ch: Chain, tab: Table)
    requires Inversion.Homogeneous(ch) && Fold(ch, tab).Rest?
    ensures Inversion.Homogeneous(Fold(ch, tab).chain)
    decreases ch
  {
    if ch.Link? && Fold(ch, tab) != Rest(ch) { FoldKeepsHomogeneous(ch.rest, tab); }
  }

  /** The fold marked as doubtful in the source does lose a true alternative:
      an undefined variable, then `-a`, then `-o` with a defined variable. */
  lemma {:induction false} UndefinedFoldLosesAlternative(tab: Table, x: int, y: int, env: Env)
    requires x !in tab.defined && y in tab.defined && tab.name(x) != "ARCH" && tab.name(y) != "ARCH"
    requires Admissible(env, tab) && env(y) == "y"
    ensures var test := (v: int) => Comparison(0, Token(Variable, "", v), true, Token(Constant, "y", 0));
      var ch := Link(test(x), And, Link(test(y), Or, One(test(y))));
      && Truth(ch, env)
      && Closed(Flat(ch)) && Eliminated(Flat(ch), tab).Some?
      && Eval(Eliminated(Flat(ch), tab).value, env) == Some(false)
  {
    var test := (v: int) => Comparison(0, Token(Variable, "", v), true, Token(Constant, "y", 0));
    var ch := Link(test(x), And, Link(test(y), Or, One(test(y))));
    assert ValidChain(ch) && Inversion.Source(ch);
    EliminatedIsFold(ch, tab);
    assert Fold(ch, tab) == Marker(test(x), false);
    FoldedValue(Fold(ch, tab), env);
    assert Meaning(ch.rest.rest, false, true, env);
  }
}
