/** How the generated script reads a chain. It prints the chain as a Tcl
    expression, in which `!` belongs to the operand behind it and not, as in
    `test`, to the whole comparison. */
module PrintedScript {
  import opened Wrappers
  import opened Conditions
  import opened Inversion
  import opened Joining

  datatype Place =
    | Before(bangs: nat)
    | Compared(left: string)
    | Against(left: string, equal: bool)
    | Behind
    | Broken

  datatype Reading = Reading(top: Frame, outer: seq<Frame>, place: Place)

  /** `!` on the four values that the script keeps as numbers: n is 0, y is 1,
      m is 2 and no value is 4. Any other string is not given a truth value. */
  function Not(v: string): Option<string> {
    if v == "n" then Some("y") else if v == "y" || v == "m" || v == "" then Some("n") else None
  }

  function NotTimes(n: nat, v: string): Option<string> {
    if n == 0 then Some(v)
    else
      var w := NotTimes(n - 1, v);
      if w.Some? then Not(w.value) else None
  }

  function Finished(r: Reading, v: bool): Reading {
    r.(top := r.top.(all := r.top.all && v), place := Behind)
  }

  /** One node as it is printed; markers and nuked nodes print nothing. */
  function Read(r: Reading, t: Token, env: Env): Reading {
    if t.op == Nuked || t.op == True || t.op == False then r else
    match r.place
    case Before(n) =>
      if t.op == Bang then r.(place := Before(n + 1))
      else if t.op == LParen then Reading(Frame(n % 2 == 1, false, true), [r.top] + r.outer, Before(0))
      else if IsOperand(t) then
        var v := NotTimes(n, Value(t, env));
        r.(place := if v.Some? then Compared(v.value) else Broken)
      else r.(place := Broken)
    case Compared(left) =>
      r.(place := if t.op == Eq then Against(left, true) else if t.op == Neq then Against(left, false) else Broken)
    case Against(left, equal) =>
      if IsOperand(t) then Finished(r, (left == Value(t, env)) == equal) else r.(place := Broken)
    case Behind =>
      if t.op == And || t.op == And1 then r.(place := Before(0))
      else if t.op == Or then r.(top := Frame(r.top.negated, r.top.any || r.top.all, true), place := Before(0))
      else if t.op == RParen && r.outer != [] then
        Finished(Reading(r.outer[0], r.outer[1..], Behind), (r.top.any || r.top.all) != r.top.negated)
      else r.(place := Broken)
    case Broken => r
  }

  function ReadAll(r: Reading, ts: seq<Token>, env: Env): Reading
    decreases |ts|
  {
    if ts == [] then r else ReadAll(Read(r, ts[0], env), ts[1..], env)
  }

  /** The value of the printed condition, or None when it has none. */
  function Printed(ts: seq<Token>, env: Env): Option<bool> {
    var r := ReadAll(Reading(Frame(false, false, true), [], Before(0)), ts, env);
    if r.place == Behind && r.outer == [] then Some(r.top.any || r.top.all) else None
  }

  /** How the script uses a statement's chain: no chain means no condition. */
  predicate Runs(ts: seq<Token>, env: Env) { ts == [] || Printed(ts, env) == Some(true) }

  // ---------------------------------------------------------------------
  // Where the two readings agree
  // ---------------------------------------------------------------------

  predicate Prints(t: Token) { t.op != Bang && t.op != True && t.op != False }

  /** Nothing in the chain is read differently. */
  predicate Plain(ts: seq<Token>) { forall i :: 0 <= i < |ts| ==> Prints(ts[i]) }

  /** The scanner of the source in the same position. */
  function Scanner(r: Reading): State
    requires r.place.Before? ==> r.place.bangs == 0
  {
    State(r.top, r.outer,
      match r.place
      case Before(_) => Operand(false)
      case Compared(left) => Relation(false, left)
      case Against(left, equal) => Right(false, left, equal)
      case Behind => Connective
      case Broken => Malformed)
  }

  lemma {:induction false} ReadsAlike(r: Reading, ts: seq<Token>, env: Env)
    requires Plain(ts) && (r.place.Before? ==> r.place.bangs == 0)
    ensures var q := ReadAll(r, ts, env); (q.place.Before? ==> q.place.bangs == 0) && Scan(Scanner(r), ts, env) == Scanner(q)
    decreases |ts|
  {
    if ts != [] {
      assert Prints(ts[0]);
      var q := Read(r, ts[0], env);
      assert Step(Scanner(r), ts[0], env) == Scanner(q);
      assert forall i :: 0 <= i < |ts[1..]| ==> ts[1..][i] == ts[i + 1];
      ReadsAlike(q, ts[1..], env);
    }
  }

  /** Without bangs and markers the script reads what the source means. */
  lemma {:induction false} PlainAgrees(ts: seq<Token>, env: Env)
    requires Plain(ts)
    ensures Printed(ts, env) == Eval(ts, env)
  {
    ReadsAlike(Reading(Frame(false, false, true), [], Before(0)), ts, env);
  }

  predicate NoBangs(ch: Chain) { ch.cmp.bangs == 0 && (ch.Link? ==> NoBangs(ch.rest)) }

  lemma {:induction false} FlatPlain(ch: Chain)
    requires ValidChain(ch) && NoBangs(ch)
    ensures Plain(Flat(ch))
    decreases ch
  {
    assert ComparisonTokens(ch.cmp) == Body(ch.cmp);
    if ch.Link? {
      FlatPlain(ch.rest);
      PlainTogether(Body(ch.cmp) + [Sym(ch.conn)], Flat(ch.rest));
    }
  }

  lemma {:induction false} PlainTogether(x: seq<Token>, y: seq<Token>)
    requires Plain(x) && Plain(y)
    ensures Plain(x + y)
  {
    assert forall i :: 0 <= i < |x + y| ==> (x + y)[i] == if i < |x| then x[i] else y[i - |x|];
  }

  lemma {:induction false} SingleUnbangs(ch: Chain)
    requires SingleBangs(ch)
    ensures NoBangs(Unbang(ch))
    decreases ch
  {
    if ch.Link? { SingleUnbangs(ch.rest); }
  }

  /** What remove_bang is for: a chain in which no test has two bangs is
      printed with the value it has in the source, under every assignment. */
  lemma {:induction false} RemoveBangPrints(ch: Chain, env: Env)
    requires ValidChain(ch) && SingleBangs(ch)
    ensures Printed(BangsRemoved(Flat(ch)), env) == Some(Truth(ch, env))
  {
    RemoveBangPreservesMeaning(ch, env);
    BangsRemovedChain(ch);
    SingleUnbangs(ch);
    UnbangValid(ch);
    FlatPlain(Unbang(ch));
    PlainAgrees(Flat(Unbang(ch)), env);
  }

  lemma {:induction false} UnbangValid(ch: Chain)
    requires ValidChain(ch)
    ensures ValidChain(Unbang(ch))
    decreases ch
  {
    if ch.Link? { UnbangValid(ch.rest); }
  }

  // ---------------------------------------------------------------------
  // Two bangs or more
  // ---------------------------------------------------------------------

  predicate Kept(v: string) { v == "y" || v == "n" || v == "m" || v == "" }

  lemma {:induction false} NotTimesKept(n: nat, v: string)
    requires Kept(v) && n > 0
    ensures NotTimes(n, v) == Some(if (v == "n") == (n % 2 == 1) then "y" else "n")
    decreases n
  {
    if n > 1 { NotTimesKept(n - 1, v); }
  }

  lemma {:induction false} ReadBangs(r: Reading, n: nat, env: Env)
    requires r.place.Before?
    ensures ReadAll(r, Bangs(n), env) == r.(place := Before(r.place.bangs + n))
    decreases n
  {
    if n > 0 {
      assert Bangs(n)[1..] == Bangs(n - 1);
      ReadBangs(r.(place := Before(r.place.bangs + 1)), n - 1, env);
    }
  }

  lemma {:induction false} ReadTogether(r: Reading, x: seq<Token>, y: seq<Token>, env: Env)
    ensures ReadAll(r, x + y, env) == ReadAll(ReadAll(r, x, env), y, env)
    decreases |x|
  {
    if x == [] {
      assert x + y == y;
    } else {
      assert (x + y)[1..] == x[1..] + y;
      ReadTogether(Read(r, x[0], env), x[1..], y, env);
    }
  }

  /** One printed test: the bangs negate the left operand before it is compared. */
  lemma {:induction false} PrintedTest(c: Comparison, env: Env)
    requires ValidComparison(c)
    ensures var v := NotTimes(c.bangs, Value(c.lhs, env));
      Printed(ComparisonTokens(c), env) == if v.Some? then Some((v.value == Value(c.rhs, env)) == c.equal) else None
  {
    var r := Reading(Frame(false, false, true), [], Before(0));
    ReadTogether(r, Bangs(c.bangs), Body(c), env);
    ReadBangs(r, c.bangs, env);
    ReadBody(r.(place := Before(c.bangs)), c, env);
  }

  lemma {:induction false} ReadBody(r0: Reading, c: Comparison, env: Env)
    ensures ReadAll(r0, Body(c), env) == Read(Read(Read(r0, c.lhs, env), Body(c)[1], env), c.rhs, env)
  {
    var r1 := Read(r0, c.lhs, env);
    var r2 := Read(r1, Body(c)[1], env);
    assert Body(c)[1..][1..] == [c.rhs] && Body(c)[1..][1..][1..] == [];
    assert ReadAll(r0, Body(c), env) == ReadAll(r1, Body(c)[1..], env) == ReadAll(r2, [c.rhs], env);
  }

  ghost predicate AllKept(env: Env) { forall v :: Kept(env(v)) }

  /** A test is printed right under all assignments of the script's values. */
  ghost predicate PrintsRight(c: Comparison) {
    forall env :: AllKept(env) ==> Printed(BangsRemoved(ComparisonTokens(c)), env) == Eval(ComparisonTokens(c), env)
  }

  /** The value of a test of a kept variable as it is printed after remove_bang. */
  function TestValue(c: Comparison, v: string): bool {
    if c.bangs <= 1 then ((v == c.rhs.str) == c.equal) != (c.bangs == 1)
    else ((if (v == "n") == (c.bangs % 2 == 0) then "y" else "n") == c.rhs.str) == !c.equal
  }

  lemma {:induction false} TestUnbanged(c: Comparison)
    requires ValidComparison(c)
    ensures BangsRemoved(ComparisonTokens(c)) == ComparisonTokens(UnbangComparison(c))
  {
    BangsRemovedChain(One(c));
  }

  lemma {:induction false} TestPrinted(c: Comparison, env: Env)
    requires ValidComparison(c) && c.lhs.op == Variable && c.rhs.op == Constant && Kept(Value(c.lhs, env))
    ensures Printed(BangsRemoved(ComparisonTokens(c)), env) == Some(TestValue(c, Value(c.lhs, env)))
  {
    var u := UnbangComparison(c);
    TestUnbanged(c);
    PrintedTest(u, env);
    TestIs(c, Value(c.lhs, env));
  }

  lemma {:induction false} TestIs(c: Comparison, v: string)
    requires Kept(v)
    ensures var u := UnbangComparison(c); var w := NotTimes(u.bangs, v);
      w.Some? && ((w.value == c.rhs.str) == u.equal) == TestValue(c, v)
  {
    if c.bangs > 1 { NotTimesKept(c.bangs - 1, v); }
  }

  lemma {:induction false} TestMeant(c: Comparison, env: Env)
    requires ValidComparison(c)
    ensures Eval(ComparisonTokens(c), env) == Some(Holds(c, env))
  {
    ChainValue(One(c), env);
  }

  /** A test of a variable that is printed right whatever its value: with two
      bangs or more only a test for "n", or one for no value of the script
      under an odd number of them. */
  predicate Harmless(c: Comparison) { c.bangs <= 1 || c.rhs.str == "n" || (c.bangs % 2 == 1 && !Kept(c.rhs.str)) }

  /** A value for which a test that is not harmless is printed wrong. */
  function Misread(c: Comparison): string {
    if c.bangs % 2 == 0 then (if c.rhs.str == "m" then "y" else "m") else if c.rhs.str == "" then "" else "m"
  }

  lemma {:induction false} MisreadIsWrong(c: Comparison, env: Env)
    requires ValidComparison(c) && c.lhs.op == Variable && c.rhs.op == Constant && !Harmless(c)
    requires Value(c.lhs, env) == Misread(c)
    ensures TestValue(c, Misread(c)) != Holds(c, env) && Kept(Misread(c))
  {}

  lemma {:induction false} PrintsRightExactly(c: Comparison)
    requires ValidComparison(c) && c.lhs.op == Variable && c.rhs.op == Constant
    ensures PrintsRight(c) <==> Harmless(c)
  {
    if Harmless(c) {
      forall env | AllKept(env)
        ensures Printed(BangsRemoved(ComparisonTokens(c)), env) == Eval(ComparisonTokens(c), env)
      {
        TestPrinted(c, env);
        TestMeant(c, env);
      }
    } else {
      var env: Env := _ => Misread(c);
      MisreadIsWrong(c, env);
      TestPrinted(c, env);
      TestMeant(c, env);
      assert AllKept(env);
    }
  }

  /** `! ! $A = y` with A = m: false in the source, true as printed. */
  lemma {:induction false} TwoBangsMisread(a: int)
    ensures var c := Comparison(2, Token(Variable, "", a), true, Token(Constant, "y", 0));
      var env: Env := _ => "m";
      Eval(Flat(One(c)), env) == Some(false) && Printed(BangsRemoved(Flat(One(c))), env) == Some(true)
  {
    var c := Comparison(2, Token(Variable, "", a), true, Token(Constant, "y", 0));
    TestPrinted(c, _ => "m");
    TestMeant(c, _ => "m");
  }

  // ---------------------------------------------------------------------
  // Joined chains
  // ---------------------------------------------------------------------

  ghost predicate Bangless(e: Entry) { forall ch <- EntryChains(e) :: NoBangs(ch) }

  lemma {:induction false} GroupPlain(ch: Chain)
    requires ValidChain(ch) && NoBangs(ch)
    ensures Plain(Parenthesised(Flat(ch)))
  {
    FlatPlain(ch);
    PlainTogether([Sym(LParen)], Flat(ch));
    PlainTogether([Sym(LParen)] + Flat(ch), [Sym(RParen)]);
  }

  lemma {:induction false} RenderPlain(chs: seq<Chain>)
    requires forall ch <- chs :: ValidChain(ch) && NoBangs(ch)
    ensures Plain(Render(chs))
    decreases |chs|
  {
    if chs != [] {
      GroupPlain(chs[0]);
      if |chs| > 1 {
        RenderPlain(chs[1..]);
        PlainTogether(Parenthesised(Flat(chs[0])), [Sym(And)]);
        PlainTogether(Parenthesised(Flat(chs[0])) + [Sym(And)], Render(chs[1..]));
      }
    }
  }

  /** Nuked nodes print nothing, so only the live ones matter. */
  lemma {:induction false} LivePlain(ts: seq<Token>)
    requires Plain(Live(ts))
    ensures Plain(ts)
    decreases |ts|
  {
    if ts != [] {
      var rest := Live(ts[1..]);
      if ts[0].op == Nuked {
        assert Live(ts) == rest;
      } else {
        assert Live(ts) == [ts[0]] + rest;
        forall i | 0 <= i < |rest| ensures Prints(rest[i]) { assert rest[i] == Live(ts)[i + 1]; }
      }
      LivePlain(ts[1..]);
      assert ts[0].op != Nuked ==> ts[0] == Live(ts)[0];
      PlainTogether([ts[0]], ts[1..]);
      assert ts == [ts[0]] + ts[1..];
    }
  }

  lemma {:induction false} StackBangless(stack: seq<Entry>)
    requires forall e <- stack :: ValidEntry(e) && Bangless(e)
    ensures forall ch <- StackChains(stack) :: ValidChain(ch) && NoBangs(ch)
    decreases |stack|
  {
    if stack != [] {
      assert stack[0] in stack && forall e <- stack[1..] :: e in stack;
      StackBangless(stack[1..]);
    }
  }

  /** The script runs a joined chain exactly when all entries hold. */
  lemma {:induction false} JoinedRuns(stack: seq<Entry>, env: Env)
    requires forall e <- stack :: ValidEntry(e) && Bangless(e)
    ensures var ts := Joined(StackTokens(stack));
      !HeadIs(ts, False) ==> (Runs(ts, env) <==> forall e <- stack :: EntryTruth(e, env))
  {
    var ts := Joined(StackTokens(stack));
    JoinIsConjunction(stack, env);
    if !HeadIs(ts, False) {
      StackBangless(stack);
      var chs := LastCopies(StackChains(stack));
      RenderPlain(chs);
      LivePlain(ts);
      PlainAgrees(ts, env);
    }
  }
}
