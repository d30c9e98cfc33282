/** The whole pass over a script, as a function of the statement list, and the
    proof that it preserves which statements are reached. */
module Flattening {
  import opened Wrappers
  import opened Conditions
  import opened Inversion
  import opened ArchFolding
  import opened Joining
  import opened PrintedScript

  /** The statement tokens (scripts/tkconfig/tkparse.h). */
  datatype StatementToken =
    | Unknown | Bool | ChoiceHeader | ChoiceItem | Comment
    | DefineBool | DefineHex | DefineInt | DefineString | DefineTristate
    | DepBool | DepMbool | DepTristate | ElseToken | EndMenu | FiToken | Hex | IfToken | Int
    | MainmenuName | MainmenuOption | SourceFile | StringToken | Then | Tristate | Unset

  datatype Statement = Statement(token: StatementToken, nameindex: int, cond: seq<Token>)

  predicate IsDefining(t: StatementToken) {
    t == Bool || t == ChoiceItem || t == DefineBool || t == DefineHex || t == DefineInt || t == DefineString ||
    t == DefineTristate || t == DepBool || t == DepMbool || t == DepTristate || t == Hex || t == Int ||
    t == StringToken || t == Tristate || t == Unset
  }

  predicate IsSimple(t: StatementToken) {
    t == Bool || t == ChoiceItem || t == ChoiceHeader || t == Comment || t == DefineBool || t == DefineHex ||
    t == DefineInt || t == DefineString || t == DefineTristate || t == EndMenu || t == Hex || t == Int ||
    t == MainmenuOption || t == StringToken || t == Tristate || t == Unset
  }

  predicate IsDependent(t: StatementToken) { t == DepBool || t == DepMbool || t == DepTristate }

  const MAX_DEPTH := 32

  /** The variables a script defines. */
  function Defined(stmts: seq<Statement>): set<int> {
    set s | s in stmts && IsDefining(s.token) && s.nameindex > 0 :: s.nameindex
  }

  // ---------------------------------------------------------------------
  // The pass
  // ---------------------------------------------------------------------

  datatype Outcome = Kept(cond: seq<Token>) | Deleted

  function Attach(ts: seq<Token>): Outcome { if HeadIs(ts, False) then Deleted else Kept(ts) }

  /** What the pass demands of its input: the stack is never popped or inverted
      when empty and never outgrows its array, and conditions are complete. */
  predicate Runnable(stmts: seq<Statement>, depth: nat) {
    stmts == [] ||
    var s, rest := stmts[0], stmts[1..];
    if s.token == IfToken then depth < MAX_DEPTH && Closed(s.cond) && Runnable(rest, depth + 1)
    else if s.token == ElseToken then depth > 0 && Runnable(rest, depth)
    else if s.token == FiToken then depth > 0 && Runnable(rest, depth - 1)
    else (IsDependent(s.token) && s.cond != [] ==> depth < MAX_DEPTH && Closed(s.cond)) && Runnable(rest, depth)
  }

  function Prepend(o: Outcome, rest: Option<seq<Outcome>>): Option<seq<Outcome>> {
    if rest.None? then None else Some([o] + rest.value)
  }

  /** Does the pass fold the statement's own condition? */
  predicate FoldsOwn(s: Statement) { s.token == IfToken || (IsDependent(s.token) && s.cond != []) }

  /** The stack after a statement. */
  function NextStack(s: Statement, stack: seq<seq<Token>>, tab: Table): (r: seq<seq<Token>>)
    requires FoldsOwn(s) ==> Closed(s.cond) && Eliminated(s.cond, tab).Some?
    requires s.token == ElseToken || s.token == FiToken ==> stack != []
    ensures |r| == |stack| + if s.token == IfToken then 1 else if s.token == FiToken then -1 else 0
  {
    var n := |stack| - 1;
    if s.token == IfToken then stack + [BangsRemoved(Eliminated(s.cond, tab).value)]
    else if s.token == ElseToken then stack[n := Inverted(stack[n])]
    else if s.token == FiToken then stack[..n]
    else stack
  }

  /** What becomes of a statement. */
  function OutcomeOf(s: Statement, stack: seq<seq<Token>>, tab: Table): Outcome
    requires FoldsOwn(s) ==> Closed(s.cond) && Eliminated(s.cond, tab).Some?
  {
    if s.token == IfToken then Kept([])
    else if IsSimple(s.token) || (IsDependent(s.token) && s.cond == []) then Attach(Joined(stack))
    else if IsDependent(s.token) then Attach(Joined(stack + [Eliminated(s.cond, tab).value]))
    else Kept(s.cond)
  }

  /** One outcome per statement; None is the program's error exit. */
  function Flattened(stmts: seq<Statement>, stack: seq<seq<Token>>, tab: Table): (r: Option<seq<Outcome>>)
    requires Runnable(stmts, |stack|)
    ensures r.Some? ==> |r.value| == |stmts|
    decreases |stmts|
  {
    if stmts == [] then Some([])
    else if FoldsOwn(stmts[0]) && Eliminated(stmts[0].cond, tab).None? then None
    else Prepend(OutcomeOf(stmts[0], stack, tab), Flattened(stmts[1..], NextStack(stmts[0], stack, tab), tab))
  }

  // ---------------------------------------------------------------------
  // The reference: which statements an execution of the script reaches
  // ---------------------------------------------------------------------

  predicate AllOpen(open: seq<bool>) { forall i :: 0 <= i < |open| ==> open[i] }

  /** `open` holds, innermost last, whether each enclosing branch is taken. */
  function Reached(stmts: seq<Statement>, open: seq<bool>, env: Env): (r: seq<bool>)
    ensures |r| == |stmts|
    decreases |stmts|
  {
    if stmts == [] then [] else
    var s, rest, n := stmts[0], stmts[1..], |open|;
    [Here(s, open, env)] +
    if s.token == IfToken then Reached(rest, open + [Eval(s.cond, env) == Some(true)], env)
    else if s.token == ElseToken && n > 0 then Reached(rest, open[n - 1 := !open[n - 1]], env)
    else if s.token == FiToken && n > 0 then Reached(rest, open[..n - 1], env)
    else Reached(rest, open, env)
  }

  // ---------------------------------------------------------------------
  // The scripts for which the pass is right
  // ---------------------------------------------------------------------

  /** Each `else` and `fi` closes an open `if`, with one `else` at most, and the
      stack array is large enough. `used` says which levels are past their `else`. */
  predicate WellNested(stmts: seq<Statement>, used: seq<bool>) {
    stmts == [] ||
    var s, rest, n := stmts[0], stmts[1..], |used|;
    if s.token == IfToken then n < MAX_DEPTH && WellNested(rest, used + [false])
    else if s.token == ElseToken then n > 0 && !used[n - 1] && WellNested(rest, used[n - 1 := true])
    else if s.token == FiToken then n > 0 && WellNested(rest, used[..n - 1])
    else (IsDependent(s.token) && s.cond != [] ==> n < MAX_DEPTH) && WellNested(rest, used)
  }

  /** Does the level `d` above the innermost one still have an `else` to come? */
  predicate ElseAhead(stmts: seq<Statement>, d: nat) {
    stmts != [] &&
    var s, rest := stmts[0], stmts[1..];
    if s.token == IfToken then ElseAhead(rest, d + 1)
    else if s.token == ElseToken then d == 0 || ElseAhead(rest, d)
    else if s.token == FiToken then d > 0 && ElseAhead(rest, d - 1)
    else ElseAhead(rest, d)
  }

  predicate Invertible(f: Folded) { f.Constantly? || Homogeneous(f.chain) }

  /** An `if` condition in the grammar, no test of which has two bangs; nothing
      is lost in folding it, and what is left of it is homogeneous when an
      `else` will invert it. */
  ghost predicate GoodIf(cond: seq<Token>, hasElse: bool, tab: Table) {
    exists ch :: GoodChain(ch, cond, hasElse, tab)
  }

  ghost predicate GoodChain(ch: Chain, cond: seq<Token>, hasElse: bool, tab: Table) {
    ValidChain(ch) && Source(ch) && SingleBangs(ch) && cond == Flat(ch) && Lost(ch, tab).None? &&
    (hasElse ==> Invertible(Fold(ch, tab)))
  }

  ghost predicate GoodDependency(cond: seq<Token>) {
    cond == [] || exists chs: seq<Chain> :: ValidEntry(Groups(chs)) && Bangless(Groups(chs)) && cond == Render(chs)
  }

  ghost predicate Convertible(stmts: seq<Statement>, tab: Table) {
    stmts == [] ||
    ((stmts[0].token == IfToken ==> GoodIf(stmts[0].cond, ElseAhead(stmts[1..], 0), tab)) &&
     (IsDependent(stmts[0].token) ==> GoodDependency(stmts[0].cond)) &&
     Convertible(stmts[1..], tab))
  }

  // ---------------------------------------------------------------------
  // What one statement does to the stack
  // ---------------------------------------------------------------------

  function FoldedEntry(f: Folded): Entry {
    match f
    case Constantly(v, m) => Flag(v, m)
    case Rest(ch) => Single(Unbang(ch))
  }

  predicate InvertibleEntry(e: Entry) { e.Flag? || (e.Single? && Homogeneous(e.chain)) }

  lemma {:induction false} UnbangConnectives(ch: Chain, conn: Op)
    ensures AllConnectives(Unbang(ch), conn) == AllConnectives(ch, conn)
    decreases ch
  {
    if ch.Link? { UnbangConnectives(ch.rest, conn); }
  }

  /** Folding drops tests from the front. */
  lemma {:induction false} FoldKeepsSingle(ch: Chain, tab: Table)
    requires SingleBangs(ch) && Fold(ch, tab).Rest?
    ensures SingleBangs(Fold(ch, tab).chain)
    decreases ch
  {
    if ch.Link? && Fold(ch, tab) != Rest(ch) { FoldKeepsSingle(ch.rest, tab); }
  }

  lemma {:induction false} InvertKeepsNoBangs(ch: Chain)
    requires NoBangs(ch)
    ensures NoBangs(InvertChain(ch))
    decreases ch
  {
    if ch.Link? { InvertKeepsNoBangs(ch.rest); }
  }

  /** Pushing an `if`: the entry has the condition's value. */
  lemma {:induction false} PushIf(cond: seq<Token>, hasElse: bool, tab: Table, env: Env) returns (e: Entry)
    requires GoodIf(cond, hasElse, tab) && Admissible(env, tab)
    ensures Closed(cond) && Eliminated(cond, tab).Some?
    ensures BangsRemoved(Eliminated(cond, tab).value) == EntryTokens(e)
    ensures ValidEntry(e) && Bangless(e) && !e.Groups? && (hasElse ==> InvertibleEntry(e))
    ensures EntryTruth(e, env) == (Eval(cond, env) == Some(true))
  {
    var ch :| GoodChain(ch, cond, hasElse, tab);
    var f := Fold(ch, tab);
    e := FoldedEntry(f);
    EliminatedIsFold(ch, tab);
    FoldSplitsTruth(ch, tab, env);
    ChainValue(ch, env);
    match f
    case Constantly(v, m) =>
      assert BangsRemoved([m]) == [m] + BangsRemoved([]);
    case Rest(r) =>
      FoldKeepsSingle(ch, tab);
      RestEntry(r, env);
  }

  /** What is left of a condition, without its bangs. */
  lemma {:induction false} RestEntry(r: Chain, env: Env)
    requires ValidChain(r) && SingleBangs(r)
    ensures var e := Single(Unbang(r));
      && BangsRemoved(Flat(r)) == EntryTokens(e) && ValidEntry(e) && Bangless(e)
      && (Homogeneous(r) ==> InvertibleEntry(e)) && EntryTruth(e, env) == Truth(r, env)
  {
    SingleUnbangs(r);
    BangsRemovedChain(r);
    UnbangMeaning(r, false, true, env);
    UnbangConnectives(r, And);
    UnbangConnectives(r, Or);
  }

  lemma {:induction false} InvertEntry(e: Entry, env: Env) returns (r: Entry)
    requires ValidEntry(e) && Bangless(e) && InvertibleEntry(e)
    ensures ValidEntry(r) && Bangless(r) && !r.Groups? && EntryTokens(r) == Inverted(EntryTokens(e))
    ensures EntryTruth(r, env) == !EntryTruth(e, env)
  {
    match e
    case Flag(v, m) =>
      r := Flag(!v, InvertToken(m));
      assert Inverted([m]) == [InvertToken(m)];
    case Single(ch) =>
      r := Single(InvertChain(ch));
      InvertKeepsNoBangs(ch);
      ElseNegates(ch, env);
      ChainValue(InvertChain(ch), env);
  }

  lemma {:induction false} DependencyKept(cond: seq<Token>, tab: Table, env: Env) returns (e: Entry)
    requires cond != [] && GoodDependency(cond)
    ensures Closed(cond) && Eliminated(cond, tab) == Some(cond)
    ensures ValidEntry(e) && Bangless(e) && EntryTokens(e) == cond
    ensures EntryTruth(e, env) == (Eval(cond, env) == Some(true))
  {
    var chs: seq<Chain> :| ValidEntry(Groups(chs)) && Bangless(Groups(chs)) && cond == Render(chs);
    e := Groups(chs);
    RenderEnds(chs);
    ScanRender(START, chs, env);
  }

  lemma {:induction false} RenderEnds(chs: seq<Chain>)
    requires chs != []
    ensures Render(chs) != [] && Render(chs)[0].op == LParen && Render(chs)[|Render(chs)| - 1].op == RParen
    decreases |chs|
  {
    if |chs| > 1 { RenderEnds(chs[1..]); }
  }

  // ---------------------------------------------------------------------
  // The run
  // ---------------------------------------------------------------------

  /** The stack of chains follows the stack of taken branches. */
  ghost predicate Tracks(entries: seq<Entry>, open: seq<bool>, used: seq<bool>, stmts: seq<Statement>, env: Env) {
    |entries| == |open| == |used| &&
    forall i :: 0 <= i < |entries| ==>
      ValidEntry(entries[i]) && Bangless(entries[i]) && !entries[i].Groups? && EntryTruth(entries[i], env) == open[i] &&
      (!used[i] && ElseAhead(stmts, |entries| - 1 - i) ==> InvertibleEntry(entries[i]))
  }

  lemma {:induction false} StackEntries(a: seq<Entry>, e: Entry)
    ensures StackTokens(a + [e]) == StackTokens(a) + [EntryTokens(e)]
    ensures a != [] ==> StackTokens(a[|a| - 1 := e]) == StackTokens(a)[|a| - 1 := EntryTokens(e)]
    ensures a != [] ==> StackTokens(a[..|a| - 1]) == StackTokens(a)[..|a| - 1]
  {}

  /** What the theorem says of one statement. */
  ghost predicate Correct(s: Statement, o: Outcome, reached: bool, env: Env) {
    IsSimple(s.token) || IsDependent(s.token) ==> (reached <==> o.Kept? && Runs(o.cond, env))
  }

  lemma {:induction false} OpenEntries(entries: seq<Entry>, open: seq<bool>, env: Env)
    requires |entries| == |open| && forall i :: 0 <= i < |entries| ==> EntryTruth(entries[i], env) == open[i]
    ensures AllOpen(open) <==> forall e <- entries :: EntryTruth(e, env)
  {
    if forall e <- entries :: EntryTruth(e, env) {
      forall i | 0 <= i < |open| ensures open[i] { assert entries[i] in entries; }
    }
  }

  lemma {:induction false} AttachCorrect(entries: seq<Entry>, open: seq<bool>, env: Env)
    requires |entries| == |open|
    requires forall i :: 0 <= i < |entries| ==> ValidEntry(entries[i]) && Bangless(entries[i]) && EntryTruth(entries[i], env) == open[i]
    ensures var o := Attach(Joined(StackTokens(entries)));
      AllOpen(open) <==> o.Kept? && Runs(o.cond, env)
  {
    JoinIsConjunction(entries, env);
    JoinedRuns(entries, env);
    OpenEntries(entries, open, env);
    if HeadIs(Joined(StackTokens(entries)), False) {
      var e :| e in entries && e.Flag? && !e.value;
      assert !EntryTruth(e, env);
    }
  }

  ghost predicate AllCorrect(stmts: seq<Statement>, out: Option<seq<Outcome>>, reached: seq<bool>, env: Env) {
    out.Some? && |out.value| == |stmts| == |reached| &&
    forall k :: 0 <= k < |stmts| ==> Correct(stmts[k], out.value[k], reached[k], env)
  }

  lemma {:induction false} OneMore(stmts: seq<Statement>, o: Outcome, out: Option<seq<Outcome>>,
                                   here: bool, reached: seq<bool>, env: Env)
    requires stmts != [] && AllCorrect(stmts[1..], out, reached, env) && Correct(stmts[0], o, here, env)
    ensures AllCorrect(stmts, Prepend(o, out), [here] + reached, env)
  {
    var all := [o] + out.value;
    forall k | 0 <= k < |stmts| ensures Correct(stmts[k], all[k], ([here] + reached)[k], env) {
      if k > 0 { assert stmts[k] == stmts[1..][k - 1]; }
    }
  }

  lemma {:induction false} TracksPush(entries: seq<Entry>, open: seq<bool>, used: seq<bool>, stmts: seq<Statement>,
                                      e: Entry, b: bool, env: Env)
    requires stmts != [] && stmts[0].token == IfToken && Tracks(entries, open, used, stmts, env)
    requires ValidEntry(e) && Bangless(e) && !e.Groups? && EntryTruth(e, env) == b
    requires ElseAhead(stmts[1..], 0) ==> InvertibleEntry(e)
    ensures Tracks(entries + [e], open + [b], used + [false], stmts[1..], env)
  {
  }

  lemma {:induction false} TracksElse(entries: seq<Entry>, open: seq<bool>, used: seq<bool>, stmts: seq<Statement>,
                                      e: Entry, env: Env)
    requires stmts != [] && stmts[0].token == ElseToken && entries != [] && Tracks(entries, open, used, stmts, env)
    requires ValidEntry(e) && Bangless(e) && !e.Groups? && EntryTruth(e, env) == !open[|open| - 1]
    ensures var n := |entries| - 1;
      Tracks(entries[n := e], open[n := !open[n]], used[n := true], stmts[1..], env)
  {
  }

  lemma {:induction false} TracksFi(entries: seq<Entry>, open: seq<bool>, used: seq<bool>, stmts: seq<Statement>, env: Env)
    requires stmts != [] && stmts[0].token == FiToken && entries != [] && Tracks(entries, open, used, stmts, env)
    ensures var n := |entries| - 1;
      Tracks(entries[..n], open[..n], used[..n], stmts[1..], env)
  {
  }

  lemma {:induction false} OpenOneMore(open: seq<bool>, here: bool)
    ensures AllOpen(open + [here]) <==> AllOpen(open) && here
  {
    var all := open + [here];
    assert all[|open|] == here && forall i :: 0 <= i < |open| ==> all[i] == open[i];
  }

  lemma {:induction false} AttachOneMore(entries: seq<Entry>, open: seq<bool>, e: Entry, here: bool, env: Env)
    requires |entries| == |open| && ValidEntry(e) && Bangless(e) && EntryTruth(e, env) == here
    requires forall i :: 0 <= i < |entries| ==> ValidEntry(entries[i]) && Bangless(entries[i]) && EntryTruth(entries[i], env) == open[i]
    ensures var o := Attach(Joined(StackTokens(entries) + [EntryTokens(e)]));
      AllOpen(open) && here <==> o.Kept? && Runs(o.cond, env)
  {
    StackEntries(entries, e);
    AttachCorrect(entries + [e], open + [here], env);
    OpenOneMore(open, here);
  }

  /** The statement at the head, with its own dependency, if it has one. */
  function Here(s: Statement, open: seq<bool>, env: Env): bool {
    AllOpen(open) && (IsDependent(s.token) ==> Enabled(s.cond, env))
  }

  /** The outcome of a dependent statement with a condition of its own. */
  lemma {:induction false} DependentCorrect(s: Statement, entries: seq<Entry>, open: seq<bool>, tab: Table, env: Env)
    requires IsDependent(s.token) && s.cond != [] && GoodDependency(s.cond) && |entries| == |open|
    requires forall i :: 0 <= i < |entries| ==> ValidEntry(entries[i]) && Bangless(entries[i]) && EntryTruth(entries[i], env) == open[i]
    ensures Closed(s.cond) && Eliminated(s.cond, tab) == Some(s.cond)
    ensures Correct(s, Attach(Joined(StackTokens(entries) + [s.cond])), Here(s, open, env), env)
  {
    var e := DependencyKept(s.cond, tab, env);
    AttachOneMore(entries, open, e, Eval(s.cond, env) == Some(true), env);
  }

  /** The pass runs from here, and every outcome is right. */
  ghost predicate Follows(stmts: seq<Statement>, entries: seq<Entry>, open: seq<bool>, tab: Table, env: Env) {
    Runnable(stmts, |entries|) &&
    AllCorrect(stmts, Flattened(stmts, StackTokens(entries), tab), Reached(stmts, open, env), env)
  }

  lemma {:induction false} FlattenIf(stmts: seq<Statement>, entries: seq<Entry>, open: seq<bool>, e: Entry,
                                     tab: Table, env: Env)
    requires stmts != [] && stmts[0].token == IfToken
    requires Closed(stmts[0].cond) && Eliminated(stmts[0].cond, tab).Some?
    requires BangsRemoved(Eliminated(stmts[0].cond, tab).value) == EntryTokens(e)
    requires |entries| < MAX_DEPTH
    requires Follows(stmts[1..], entries + [e], open + [Eval(stmts[0].cond, env) == Some(true)], tab, env)
    ensures Follows(stmts, entries, open, tab, env)
  {
    StackEntries(entries, e);
    OneMore(stmts, Kept([]), Flattened(stmts[1..], StackTokens(entries + [e]), tab), Here(stmts[0], open, env),
            Reached(stmts[1..], open + [Eval(stmts[0].cond, env) == Some(true)], env), env);
  }

  lemma {:induction false} FlattenElse(stmts: seq<Statement>, entries: seq<Entry>, open: seq<bool>, e: Entry,
                                       tab: Table, env: Env)
    requires stmts != [] && stmts[0].token == ElseToken && entries != [] && |entries| == |open|
    requires EntryTokens(e) == Inverted(EntryTokens(entries[|entries| - 1]))
    requires var n := |entries| - 1; Follows(stmts[1..], entries[n := e], open[n := !open[n]], tab, env)
    ensures Follows(stmts, entries, open, tab, env)
  {
    var n := |entries| - 1;
    StackEntries(entries, e);
    OneMore(stmts, Kept(stmts[0].cond), Flattened(stmts[1..], StackTokens(entries[n := e]), tab),
            Here(stmts[0], open, env), Reached(stmts[1..], open[n := !open[n]], env), env);
  }

  lemma {:induction false} FlattenFi(stmts: seq<Statement>, entries: seq<Entry>, open: seq<bool>, tab: Table, env: Env)
    requires stmts != [] && stmts[0].token == FiToken && entries != [] && |entries| == |open|
    requires var n := |entries| - 1; Follows(stmts[1..], entries[..n], open[..n], tab, env)
    ensures Follows(stmts, entries, open, tab, env)
  {
    var n := |entries| - 1;
    StackEntries(entries, entries[n]);
    OneMore(stmts, Kept(stmts[0].cond), Flattened(stmts[1..], StackTokens(entries[..n]), tab),
            Here(stmts[0], open, env), Reached(stmts[1..], open[..n], env), env);
  }

  /** What is known of the entries alone. */
  ghost predicate Holds(entries: seq<Entry>, open: seq<bool>, env: Env) {
    |entries| == |open| &&
    forall i :: 0 <= i < |entries| ==> ValidEntry(entries[i]) && Bangless(entries[i]) && EntryTruth(entries[i], env) == open[i]
  }

  /** The step of the pass, and of the source, at a statement with a condition of its own. */
  lemma {:induction false} DependentStep(stmts: seq<Statement>, stack: seq<seq<Token>>, open: seq<bool>, tab: Table, env: Env)
    requires stmts != [] && IsDependent(stmts[0].token) && stmts[0].cond != [] && Runnable(stmts[1..], |stack|)
    requires |stack| < MAX_DEPTH && Closed(stmts[0].cond) && Eliminated(stmts[0].cond, tab) == Some(stmts[0].cond)
    ensures Runnable(stmts, |stack|)
    ensures Flattened(stmts, stack, tab) == Prepend(Attach(Joined(stack + [stmts[0].cond])), Flattened(stmts[1..], stack, tab))
    ensures Reached(stmts, open, env) == [Here(stmts[0], open, env)] + Reached(stmts[1..], open, env)
  {}

  lemma {:induction false} FlattenDependent(stmts: seq<Statement>, entries: seq<Entry>, open: seq<bool>, tab: Table, env: Env)
    requires stmts != [] && IsDependent(stmts[0].token) && stmts[0].cond != [] && GoodDependency(stmts[0].cond)
    requires Holds(entries, open, env) && |entries| < MAX_DEPTH && Follows(stmts[1..], entries, open, tab, env)
    ensures Follows(stmts, entries, open, tab, env)
  {
    var s := stmts[0];
    DependentCorrect(s, entries, open, tab, env);
    DependentStep(stmts, StackTokens(entries), open, tab, env);
    OneMore(stmts, Attach(Joined(StackTokens(entries) + [s.cond])), Flattened(stmts[1..], StackTokens(entries), tab),
            Here(s, open, env), Reached(stmts[1..], open, env), env);
  }

  lemma {:induction false} FlattenSimple(stmts: seq<Statement>, entries: seq<Entry>, open: seq<bool>, tab: Table, env: Env)
    requires stmts != [] && (IsSimple(stmts[0].token) || (IsDependent(stmts[0].token) && stmts[0].cond == []))
    requires Holds(entries, open, env) && Follows(stmts[1..], entries, open, tab, env)
    ensures Follows(stmts, entries, open, tab, env)
  {
    AttachCorrect(entries, open, env);
    OneMore(stmts, Attach(Joined(StackTokens(entries))), Flattened(stmts[1..], StackTokens(entries), tab),
            Here(stmts[0], open, env), Reached(stmts[1..], open, env), env);
  }

  lemma {:induction false} FlattenOther(stmts: seq<Statement>, entries: seq<Entry>, open: seq<bool>, tab: Table, env: Env)
    requires stmts != [] && stmts[0].token !in {IfToken, ElseToken, FiToken}
    requires !IsSimple(stmts[0].token) && !IsDependent(stmts[0].token) && Follows(stmts[1..], entries, open, tab, env)
    ensures Follows(stmts, entries, open, tab, env)
  {
    OneMore(stmts, Kept(stmts[0].cond), Flattened(stmts[1..], StackTokens(entries), tab),
            Here(stmts[0], open, env), Reached(stmts[1..], open, env), env);
  }

  /** The stack after one statement, from which the rest must be right for the whole to be. */
  ghost predicate Steps(stmts: seq<Statement>, entries: seq<Entry>, open: seq<bool>,
                        es: seq<Entry>, os: seq<bool>, us: seq<bool>, tab: Table, env: Env)
    requires stmts != []
  {
    Tracks(es, os, us, stmts[1..], env) && WellNested(stmts[1..], us) &&
    (Follows(stmts[1..], es, os, tab, env) ==> Follows(stmts, entries, open, tab, env))
  }

  lemma {:induction false} StepIf(stmts: seq<Statement>, entries: seq<Entry>, open: seq<bool>, used: seq<bool>, tab: Table, env: Env)
    returns (es: seq<Entry>, os: seq<bool>, us: seq<bool>)
    requires WellNested(stmts, used) && Convertible(stmts, tab) && Admissible(env, tab) && Tracks(entries, open, used, stmts, env)
    requires stmts != [] && stmts[0].token == IfToken
    ensures Steps(stmts, entries, open, es, os, us, tab, env)
  {
    var b := Eval(stmts[0].cond, env) == Some(true);
    var e := PushIf(stmts[0].cond, ElseAhead(stmts[1..], 0), tab, env);
    TracksPush(entries, open, used, stmts, e, b, env);
    es, os, us := entries + [e], open + [b], used + [false];
    if Follows(stmts[1..], es, os, tab, env) { FlattenIf(stmts, entries, open, e, tab, env); }
  }

  lemma {:induction false} StepElse(stmts: seq<Statement>, entries: seq<Entry>, open: seq<bool>, used: seq<bool>, tab: Table, env: Env)
    returns (es: seq<Entry>, os: seq<bool>, us: seq<bool>)
    requires WellNested(stmts, used) && Tracks(entries, open, used, stmts, env) && stmts != [] && stmts[0].token == ElseToken
    ensures Steps(stmts, entries, open, es, os, us, tab, env)
  {
    var n := |entries| - 1;
    var e := InvertEntry(entries[n], env);
    TracksElse(entries, open, used, stmts, e, env);
    es, os, us := entries[n := e], open[n := !open[n]], used[n := true];
    if Follows(stmts[1..], es, os, tab, env) { FlattenElse(stmts, entries, open, e, tab, env); }
  }

  lemma {:induction false} StepFi(stmts: seq<Statement>, entries: seq<Entry>, open: seq<bool>, used: seq<bool>, tab: Table, env: Env)
    returns (es: seq<Entry>, os: seq<bool>, us: seq<bool>)
    requires WellNested(stmts, used) && Tracks(entries, open, used, stmts, env) && stmts != [] && stmts[0].token == FiToken
    ensures Steps(stmts, entries, open, es, os, us, tab, env)
  {
    var n := |entries| - 1;
    TracksFi(entries, open, used, stmts, env);
    es, os, us := entries[..n], open[..n], used[..n];
    if Follows(stmts[1..], es, os, tab, env) { FlattenFi(stmts, entries, open, tab, env); }
  }

  lemma {:induction false} StepPlain(stmts: seq<Statement>, entries: seq<Entry>, open: seq<bool>, used: seq<bool>, tab: Table, env: Env)
    requires WellNested(stmts, used) && Convertible(stmts, tab) && Tracks(entries, open, used, stmts, env)
    requires stmts != [] && stmts[0].token !in {IfToken, ElseToken, FiToken}
    ensures Steps(stmts, entries, open, entries, open, used, tab, env)
  {
    if Follows(stmts[1..], entries, open, tab, env) {
      if IsDependent(stmts[0].token) && stmts[0].cond != [] {
        FlattenDependent(stmts, entries, open, tab, env);
      } else if IsSimple(stmts[0].token) || IsDependent(stmts[0].token) {
        FlattenSimple(stmts, entries, open, tab, env);
      } else {
        FlattenOther(stmts, entries, open, tab, env);
      }
    }
  }

  lemma {:induction false} OneStep(stmts: seq<Statement>, entries: seq<Entry>, open: seq<bool>, used: seq<bool>, tab: Table, env: Env)
    returns (es: seq<Entry>, os: seq<bool>, us: seq<bool>)
    requires WellNested(stmts, used) && Convertible(stmts, tab) && Admissible(env, tab) && Tracks(entries, open, used, stmts, env)
    requires stmts != []
    ensures Steps(stmts, entries, open, es, os, us, tab, env)
  {
    if stmts[0].token == IfToken {
      es, os, us := StepIf(stmts, entries, open, used, tab, env);
    } else if stmts[0].token == ElseToken {
      es, os, us := StepElse(stmts, entries, open, used, tab, env);
    } else if stmts[0].token == FiToken {
      es, os, us := StepFi(stmts, entries, open, used, tab, env);
    } else {
      StepPlain(stmts, entries, open, used, tab, env);
      es, os, us := entries, open, used;
    }
  }

  lemma {:induction false} FlattenFrom(stmts: seq<Statement>, entries: seq<Entry>, open: seq<bool>, used: seq<bool>,
                                       tab: Table, env: Env)
    requires WellNested(stmts, used) && Convertible(stmts, tab) && Admissible(env, tab)
    requires Tracks(entries, open, used, stmts, env)
    ensures Follows(stmts, entries, open, tab, env)
    decreases |stmts|
  {
    if stmts != [] {
      var es, os, us := OneStep(stmts, entries, open, used, tab, env);
      FlattenFrom(stmts[1..], es, os, us, tab, env);
    }
  }

  /** Flattening preserves meaning: under every admissible assignment a simple or
      dependent statement survives with a chain that holds exactly when every
      branch around it is taken (and its own dependency holds). */
  lemma {:induction false} FlatteningPreservesMeaning(stmts: seq<Statement>, tab: Table, env: Env)
    requires WellNested(stmts, []) && Convertible(stmts, tab) && Admissible(env, tab)
    ensures Runnable(stmts, 0) && Flattened(stmts, [], tab).Some?
    ensures var out := Flattened(stmts, [], tab).value;
      forall k :: 0 <= k < |stmts| && (IsSimple(stmts[k].token) || IsDependent(stmts[k].token)) ==>
        (Reached(stmts, [], env)[k] <==> out[k].Kept? && Runs(out[k].cond, env))
  {
    assert StackTokens([]) == [];
    FlattenFrom(stmts, [], [], [], tab, env);
    var out := Flattened(stmts, [], tab).value;
    forall k | 0 <= k < |stmts| && (IsSimple(stmts[k].token) || IsDependent(stmts[k].token))
      ensures Reached(stmts, [], env)[k] <==> out[k].Kept? && Runs(out[k].cond, env)
    {
      assert Correct(stmts[k], out[k], Reached(stmts, [], env)[k], env);
    }
  }

  lemma {:induction false} DependencyNotFalse(chs: seq<Chain>)
    requires ValidEntry(Groups(chs))
    ensures Attach(Joined([Render(chs)])).Kept?
  {
    var stack := [Groups(chs)];
    assert StackTokens(stack) == [Render(chs)];
    JoinIsConjunction(stack, _ => "");
  }

  /** The head of the list is always kept, so the caller's pointer stays good. */
  lemma {:induction false} HeadKept(stmts: seq<Statement>, tab: Table)
    requires stmts != [] && Runnable(stmts, 0) && Convertible(stmts, tab) && Flattened(stmts, [], tab).Some?
    ensures Flattened(stmts, [], tab).value[0].Kept?
  {
    var s := stmts[0];
    if IsDependent(s.token) && s.cond != [] {
      var chs: seq<Chain> :| ValidEntry(Groups(chs)) && Bangless(Groups(chs)) && s.cond == Render(chs);
      var e := DependencyKept(s.cond, tab, _ => "");
      assert [] + [s.cond] == [s.cond];
      DependencyNotFalse(chs);
    } else {
      assert Joined([]) == [];
    }
  }

  lemma {:induction false} FlattenedTail(stmts: seq<Statement>, stack: seq<seq<Token>>, tab: Table)
    requires Runnable(stmts, |stack|) && stmts != [] && Flattened(stmts, stack, tab).Some?
    ensures FoldsOwn(stmts[0]) ==> Eliminated(stmts[0].cond, tab).Some?
    ensures var rest := Flattened(stmts[1..], NextStack(stmts[0], stack, tab), tab);
      rest.Some? && Flattened(stmts, stack, tab).value == [OutcomeOf(stmts[0], stack, tab)] + rest.value
  {}

  lemma {:induction false} OnlyJoinedDeleted(stmts: seq<Statement>, stack: seq<seq<Token>>, tab: Table, k: nat)
    requires Runnable(stmts, |stack|) && Flattened(stmts, stack, tab).Some? && k < |stmts|
    requires Flattened(stmts, stack, tab).value[k].Deleted?
    ensures IsSimple(stmts[k].token) || IsDependent(stmts[k].token)
    decreases |stmts|
  {
    FlattenedTail(stmts, stack, tab);
    var o, rest := OutcomeOf(stmts[0], stack, tab), Flattened(stmts[1..], NextStack(stmts[0], stack, tab), tab).value;
    Behind(o, rest, k);
    if k == 0 {
      assert o.Deleted?;
    } else {
      OnlyJoinedDeleted(stmts[1..], NextStack(stmts[0], stack, tab), tab, k - 1);
    }
  }

  lemma {:induction false} Behind(o: Outcome, rest: seq<Outcome>, k: nat)
    requires k <= |rest|
    ensures ([o] + rest)[k] == if k == 0 then o else rest[k - 1]
  {}

  /** A deleted statement is one that no admissible assignment reaches. */
  lemma {:induction false} DeletedIsUnreachable(stmts: seq<Statement>, tab: Table, env: Env, k: nat)
    requires WellNested(stmts, []) && Convertible(stmts, tab) && Admissible(env, tab) && k < |stmts|
    requires Runnable(stmts, 0) && Flattened(stmts, [], tab).Some? && Flattened(stmts, [], tab).value[k].Deleted?
    ensures !Reached(stmts, [], env)[k]
  {
    OnlyJoinedDeleted(stmts, [], tab, k);
    FlatteningPreservesMeaning(stmts, tab, env);
  }

  /** Scripts whose `if` conditions are joined only by `-a` or only by `-o`,
      with one `!` at most in front of a test. */
  ghost predicate HomogeneousScript(stmts: seq<Statement>) {
    forall s <- stmts ::
      (s.token == IfToken ==> exists ch :: ValidChain(ch) && Homogeneous(ch) && SingleBangs(ch) && s.cond == Flat(ch)) &&
      (IsDependent(s.token) ==> GoodDependency(s.cond))
  }

  lemma {:induction false} HomogeneousSource(ch: Chain)
    requires Homogeneous(ch)
    ensures Source(ch)
    decreases ch
  {
    if ch.Link? { HomogeneousSource(ch.rest); }
  }

  /** Such scripts are convertible, whatever variables they define. */
  lemma {:induction false} HomogeneousConvertible(stmts: seq<Statement>, tab: Table)
    requires HomogeneousScript(stmts)
    ensures Convertible(stmts, tab)
    decreases |stmts|
  {
    if stmts != [] {
      var s, rest := stmts[0], stmts[1..];
      assert s in stmts && forall x <- rest :: x in stmts;
      HomogeneousConvertible(rest, tab);
      if s.token == IfToken {
        var ch :| ValidChain(ch) && Homogeneous(ch) && SingleBangs(ch) && s.cond == Flat(ch);
        HomogeneousSource(ch);
        HomogeneousLosesNothing(ch, tab);
        if Fold(ch, tab).Rest? { FoldKeepsHomogeneous(ch, tab); }
        assert GoodChain(ch, s.cond, ElseAhead(rest, 0), tab);
      }
    }
  }
}
