/** Joining the stack of conditions into one chain, and removing duplicates. */
module Joining {
  import opened Wrappers
  import opened Conditions

  // ---------------------------------------------------------------------
  // join_condition_stack, on the nodes of the chains
  // ---------------------------------------------------------------------

  predicate HeadIs(ts: seq<Token>, op: Op) { ts != [] && ts[0].op == op }

  function Parenthesised(ts: seq<Token>): seq<Token> { [Sym(LParen)] + ts + [Sym(RParen)] }

  function Piece(ts: seq<Token>): seq<Token> {
    if HeadIs(ts, LParen) then ts else Parenthesised(ts)
  }

  /** The chains in stack order, true markers left out, glued by `&&`. */
  function Glued(stack: seq<seq<Token>>, first: bool): seq<Token> {
    if stack == [] then []
    else if HeadIs(stack[0], True) then Glued(stack[1..], first)
    else (if first then [] else [Sym(And)]) + Piece(stack[0]) + Glued(stack[1..], false)
  }

  predicate SingleAtHead(s: seq<Token>) {
    |s| >= 6 && s[0].op == LParen && s[1].op == Variable && (s[2].op == Eq || s[2].op == Neq) &&
    s[3].op == Constant && s[4].op == RParen
  }

  /** The group at `j` repeats the test at the head, and one of the two is
      followed by `&&`. */
  predicate RepeatsHead(s: seq<Token>, j: nat)
    requires |s| >= 6 && j + 4 < |s|
  {
    s[j].op == LParen && s[j + 1].op == Variable && s[j + 1].nameindex == s[1].nameindex &&
    s[j + 2].op == s[2].op && s[j + 3].op == Constant && s[j + 3].str == s[3].str && s[j + 4].op == RParen &&
    (s[5].op == And || (j + 5 < |s| && s[j + 5].op == And))
  }

  function Nuke(t: Token): Token { t.(op := Nuked) }

  function NukeHead(s: seq<Token>, j: nat): (r: seq<Token>)
    requires |s| >= 6 && j + 4 < |s| && RepeatsHead(s, j)
    ensures |r| == |s|
  {
    var r := [Nuke(s[0]), Nuke(s[1]), Nuke(s[2]), Nuke(s[3]), Nuke(s[4])] + s[5..];
    if s[5].op == And then r[5 := Nuke(s[5])] else r[j + 5 := Nuke(r[j + 5])]
  }

  /** The inner search, from node `j` on. */
  function HeadChecked(s: seq<Token>, j: nat): (r: seq<Token>)
    requires |s| >= 6
    ensures |r| == |s|
    decreases |s| - j
  {
    if j >= |s| then s
    else if s[j].op != LParen then HeadChecked(s, j + 1)
    else if j + 4 >= |s| then s
    else if RepeatsHead(s, j) then HeadChecked(NukeHead(s, j), j + 1)
    else HeadChecked(s, j + 1)
  }

  /** The outer search. */
  function Deduplicated(s: seq<Token>): (r: seq<Token>)
    ensures |r| == |s|
    decreases |s|
  {
    if s == [] || (s[0].op == LParen && |s| < 6) then s
    else if SingleAtHead(s) then
      var c := HeadChecked(s, 6);
      [c[0]] + Deduplicated(c[1..])
    else [s[0]] + Deduplicated(s[1..])
  }

  function Joined(stack: seq<seq<Token>>): seq<Token> {
    if exists i :: 0 <= i < |stack| && HeadIs(stack[i], False) then [Sym(False)]
    else Deduplicated(Glued(stack, true))
  }

  // ---------------------------------------------------------------------
  // What the stack holds: markers, chains of `if` statements, dep_* chains
  // ---------------------------------------------------------------------

  datatype Entry = Flag(value: bool, marker: Token) | Single(chain: Chain) | Groups(chains: seq<Chain>)

  ghost predicate ValidEntry(e: Entry) {
    match e
    case Flag(v, m) => m.op == if v then True else False
    case Single(ch) => ValidChain(ch)
    case Groups(chs) => chs != [] && forall ch <- chs :: ValidChain(ch)
  }

  function Render(chs: seq<Chain>): seq<Token> {
    if chs == [] then []
    else if |chs| == 1 then Parenthesised(Flat(chs[0]))
    else Parenthesised(Flat(chs[0])) + [Sym(And)] + Render(chs[1..])
  }

  function EntryTokens(e: Entry): seq<Token> {
    match e
    case Flag(_, m) => [m]
    case Single(ch) => Flat(ch)
    case Groups(chs) => Render(chs)
  }

  function StackTokens(stack: seq<Entry>): seq<seq<Token>> {
    seq(|stack|, i requires 0 <= i < |stack| => EntryTokens(stack[i]))
  }

  ghost predicate AllTrue(chs: seq<Chain>, env: Env) { forall ch <- chs :: Truth(ch, env) }

  ghost predicate EntryTruth(e: Entry, env: Env) {
    match e
    case Flag(v, _) => v
    case Single(ch) => Truth(ch, env)
    case Groups(chs) => AllTrue(chs, env)
  }

  /** What a statement's chain means: no chain is no condition. */
  predicate Enabled(ts: seq<Token>, env: Env) { ts == [] || Eval(ts, env) == Some(true) }

  function EntryChains(e: Entry): seq<Chain> {
    match e
    case Flag(_, _) => []
    case Single(ch) => [ch]
    case Groups(chs) => chs
  }

  function StackChains(stack: seq<Entry>): seq<Chain> {
    if stack == [] then [] else EntryChains(stack[0]) + StackChains(stack[1..])
  }

  // ---------------------------------------------------------------------
  // Gluing renders the groups of the stack
  // ---------------------------------------------------------------------

  lemma {:induction false} RenderConcat(a: seq<Chain>, b: seq<Chain>)
    requires a != [] && b != []
    ensures Render(a + b) == Render(a) + [Sym(And)] + Render(b)
    decreases |a|
  {
    assert (a + b)[0] == a[0] && (a + b)[1..] == a[1..] + b;
    if |a| == 1 {
      assert (a + b)[1..] == b;
    } else {
      RenderConcat(a[1..], b);
    }
  }

  predicate Bare(t: Token) {
    t.op != LParen && t.op != RParen && t.op != Nuked && t.op != True && t.op != False
  }

  lemma {:induction false} BangsBare(n: nat)
    ensures forall t <- Bangs(n) :: Bare(t)
  {
    if n > 0 { BangsBare(n - 1); }
  }

  lemma {:induction false} FlatBare(ch: Chain)
    requires ValidChain(ch)
    ensures forall t <- Flat(ch) :: Bare(t)
    decreases ch
  {
    BangsBare(ch.cmp.bangs);
    if ch.Link? { FlatBare(ch.rest); }
  }

  lemma {:induction false} PieceOfEntry(e: Entry)
    requires ValidEntry(e)
    ensures !e.Flag? ==> EntryChains(e) != [] && Piece(EntryTokens(e)) == Render(EntryChains(e))
    ensures EntryTokens(e) != []
    ensures HeadIs(EntryTokens(e), True) <==> e.Flag? && e.value
    ensures HeadIs(EntryTokens(e), False) <==> e.Flag? && !e.value
  {
    if e.Single? {
      FlatBare(e.chain);
      assert EntryTokens(e)[0] in Flat(e.chain);
    }
  }

  lemma {:induction false} StackHead(stack: seq<Entry>)
    requires stack != []
    ensures StackTokens(stack)[0] == EntryTokens(stack[0])
    ensures StackTokens(stack)[1..] == StackTokens(stack[1..])
  {}

  function Glue(first: bool): seq<Token> { if first then [] else [Sym(And)] }

  lemma {:induction false} Regroup<T>(a: seq<T>, b: seq<T>, c: seq<T>, d: seq<T>)
    ensures a + b + (c + d) == a + (b + c + d)
    ensures b + [] + [] == b
  {}

  /** One non-constant entry in front of an already rendered rest. */
  lemma {:induction false} GluedEntry(ts: seq<seq<Token>>, first: bool, a: seq<Chain>, b: seq<Chain>)
    requires ts != [] && !HeadIs(ts[0], True) && a != []
    requires Piece(ts[0]) == Render(a)
    requires Glued(ts[1..], false) == Glue(b == []) + Render(b)
    ensures Glued(ts, first) == Glue(first) + Render(a + b)
  {
    Regroup(Glue(first), Render(a), Glue(b == []), Render(b));
    if b == [] {
      assert a + b == a;
    } else {
      RenderConcat(a, b);
    }
  }

  lemma {:induction false} GluedIsRender(stack: seq<Entry>, first: bool)
    requires forall e <- stack :: ValidEntry(e) && !(e.Flag? && !e.value)
    ensures Glued(StackTokens(stack), first) == Glue(first || StackChains(stack) == []) + Render(StackChains(stack))
    decreases |stack|
  {
    if stack != [] {
      var e, rest := stack[0], stack[1..];
      StackHead(stack);
      PieceOfEntry(e);
      if e.Flag? {
        assert StackChains(stack) == StackChains(rest);
        GluedIsRender(rest, first);
      } else {
        GluedIsRender(rest, false);
        assert Glue(false || StackChains(rest) == []) == Glue(StackChains(rest) == []);
        GluedEntry(StackTokens(stack), first, EntryChains(e), StackChains(rest));
        assert StackChains(stack) == EntryChains(e) + StackChains(rest) != [];
      }
    }
  }

  // ---------------------------------------------------------------------
  // Duplicate removal on rendered groups
  // ---------------------------------------------------------------------

  /** A group that holds one plain comparison of a variable with a constant. */
  predicate Simple(ch: Chain) {
    ch.One? && ch.cmp.bangs == 0 && ch.cmp.lhs.op == Variable && ch.cmp.rhs.op == Constant
  }

  /** The same test, as the search compares it. */
  predicate SameTest(a: Chain, b: Chain) {
    Simple(a) && Simple(b) && a.cmp.lhs.nameindex == b.cmp.lhs.nameindex &&
    a.cmp.equal == b.cmp.equal && a.cmp.rhs.str == b.cmp.rhs.str
  }

  predicate Repeated(ch: Chain, later: seq<Chain>) { exists i :: 0 <= i < |later| && SameTest(ch, later[i]) }

  /** Every group but the earlier copies of a simple test. */
  function LastCopies(chs: seq<Chain>): (r: seq<Chain>)
    ensures chs != [] ==> r != []
    ensures forall ch <- r :: ch in chs
  {
    if chs == [] then []
    else if Repeated(chs[0], chs[1..]) then LastCopies(chs[1..])
    else [chs[0]] + LastCopies(chs[1..])
  }

  /** The chain without its nuked nodes. */
  function Live(ts: seq<Token>): seq<Token> {
    if ts == [] then []
    else (if ts[0].op == Nuked then [] else [ts[0]]) + Live(ts[1..])
  }

  lemma {:induction false} DeduplicatedStep(s: seq<Token>)
    requires s != [] && s[0].op != LParen
    ensures Deduplicated(s) == [s[0]] + Deduplicated(s[1..])
  {}

  lemma {:induction false} SkipBare(a: seq<Token>, b: seq<Token>)
    requires forall t <- a :: t.op != LParen
    ensures Deduplicated(a + b) == a + Deduplicated(b)
    decreases |a|
  {
    if a == [] {
      assert a + b == b;
    } else {
      assert (a + b)[0] == a[0] && (a + b)[1..] == a[1..] + b;
      DeduplicatedStep(a + b);
      SkipBare(a[1..], b);
      Regrouped(a, Deduplicated(b));
    }
  }

  lemma {:induction false} Regrouped(a: seq<Token>, b: seq<Token>)
    requires a != []
    ensures [a[0]] + (a[1..] + b) == a + b
  {}

  lemma {:induction false} CheckSkips(s: seq<Token>, j: nat, k: nat)
    requires |s| >= 6 && j <= k <= |s|
    requires forall i :: j <= i < k ==> s[i].op != LParen
    ensures HeadChecked(s, j) == HeadChecked(s, k)
    decreases k - j
  {
    if j < k { CheckSkips(s, j + 1, k); }
  }

  /** The nodes of one group, and where the next one starts. */
  lemma {:induction false} GroupNodes(ch: Chain)
    requires ValidChain(ch)
    ensures var g := Parenthesised(Flat(ch));
      && |g| >= 5 && g[0].op == LParen
      && (forall i :: 1 <= i < |g| ==> g[i].op != LParen && g[i].op != Nuked)
      && (forall i :: 1 <= i < |g| - 1 ==> g[i].op != RParen)
      && (Simple(ch) <==> |g| == 5 && g[1].op == Variable && g[3].op == Constant && (g[2].op == Eq || g[2].op == Neq))
      && (Simple(ch) ==> g == Parenthesised([ch.cmp.lhs, Sym(if ch.cmp.equal then Eq else Neq), ch.cmp.rhs]))
  {
    FlatBare(ch);
    var g := Parenthesised(Flat(ch));
    forall i | 1 <= i < |g| - 1 ensures Bare(g[i]) {
      assert g[i] == Flat(ch)[i - 1];
      assert Flat(ch)[i - 1] in Flat(ch);
    }
    if ch.cmp.bangs > 0 {
      assert g[1] == Sym(Bang);
    } else {
      assert ComparisonTokens(ch.cmp) == Body(ch.cmp);
    }
  }

  predicate HeadGroup(s: seq<Token>, ch: Chain) {
    |s| >= 6 && Simple(ch) && s[..5] == Parenthesised(Flat(ch)) && s[5] == Sym(And)
  }

  predicate HeadNuked(s: seq<Token>) { |s| >= 6 && s[2].op == Nuked }

  /** The group at `j` in a rendered tail, and the node after its glue. */
  lemma {:induction false} GroupAt(s: seq<Token>, j: nat, chs: seq<Chain>)
    requires j <= |s| && s[j..] == Render(chs) && chs != [] && ValidChain(chs[0])
    ensures var g := Parenthesised(Flat(chs[0]));
      var next := if |chs| == 1 then j + |g| else j + |g| + 1;
      && j + |g| <= next <= |s| && s[j..j + |g|] == g && s[next..] == Render(chs[1..])
      && (|chs| > 1 ==> s[j + |g|] == Sym(And))
      && (forall i :: j < i < next ==> s[i].op != LParen)
  {
    GroupNodes(chs[0]);
    var g := Parenthesised(Flat(chs[0]));
    var next := if |chs| == 1 then j + |g| else j + |g| + 1;
    assert forall i :: 0 <= i < |g| ==> s[j + i] == s[j..][i] == g[i];
    assert s[next..] == s[j..][next - j..];
    if |chs| > 1 { assert s[j + |g|] == s[j..][|g|]; }
    forall i | j < i < next ensures s[i].op != LParen {
      if i < j + |g| { assert s[i] == g[i - j]; }
    }
  }

  lemma {:induction false} RepeatsExactly(s: seq<Token>, j: nat, chs: seq<Chain>, head: Chain)
    requires 6 <= j && j + 4 < |s| && s[j..] == Render(chs) && chs != [] && ValidChain(chs[0])
    requires ValidChain(head) && (HeadNuked(s) || HeadGroup(s, head))
    ensures RepeatsHead(s, j) <==> !HeadNuked(s) && SameTest(head, chs[0])
  {
    GroupAt(s, j, chs);
    GroupNodes(chs[0]);
    GroupNodes(head);
    var g := Parenthesised(Flat(chs[0]));
    assert |g| >= 5;
    var here := s[j..j + |g|];
    assert s[j] == here[0] && s[j + 1] == here[1] && s[j + 2] == here[2] && s[j + 3] == here[3] && s[j + 4] == here[4];
    if HeadGroup(s, head) {
      assert s[1] == s[..5][1] && s[2] == s[..5][2] && s[3] == s[..5][3];
    }
  }

  lemma {:induction false} RepeatedSplit(head: Chain, chs: seq<Chain>)
    requires chs != []
    ensures Repeated(head, chs) <==> SameTest(head, chs[0]) || Repeated(head, chs[1..])
  {
    var rest := chs[1..];
    if Repeated(head, rest) {
      var i :| 0 <= i < |rest| && SameTest(head, rest[i]);
      assert SameTest(head, chs[i + 1]);
    }
    if Repeated(head, chs) && !SameTest(head, chs[0]) {
      var i :| 0 <= i < |chs| && SameTest(head, chs[i]);
      assert SameTest(head, rest[i - 1]);
    }
  }

  function HeadGone(s: seq<Token>): seq<Token>
    requires |s| >= 6
  {
    [Nuke(s[0]), Nuke(s[1]), Nuke(s[2]), Nuke(s[3]), Nuke(s[4]), Nuke(s[5])] + s[6..]
  }

  lemma {:induction false} CopyStep(s: seq<Token>, j: nat)
    requires |s| >= 6 && 6 <= j < |s|
    ensures s[j].op != LParen ==> HeadChecked(s, j) == HeadChecked(s, j + 1)
    ensures s[j].op == LParen && j + 4 >= |s| ==> HeadChecked(s, j) == s
    ensures s[j].op == LParen && j + 4 < |s| ==>
      HeadChecked(s, j) == HeadChecked(if RepeatsHead(s, j) then NukeHead(s, j) else s, j + 1)
  {}

  /** The inner search steps over one group, nuking the head if it is repeated. */
  lemma {:induction false} CheckGroup(s: seq<Token>, j: nat, next: nat)
    requires 6 <= j && j + 4 < next <= |s| && s[j].op == LParen
    requires forall i :: j < i < next ==> s[i].op != LParen
    requires RepeatsHead(s, j) ==> s[5].op == And
    ensures HeadChecked(s, j) == HeadChecked(if RepeatsHead(s, j) then HeadGone(s) else s, next)
  {
    CopyStep(s, j);
    var n := if RepeatsHead(s, j) then NukeHead(s, j) else s;
    if RepeatsHead(s, j) { assert n == HeadGone(s); }
    forall i | j < i < next ensures n[i].op != LParen { assert n[i] == s[i]; }
    CheckSkips(n, j + 1, next);
  }

  lemma {:induction false} NextGroup(s: seq<Token>, j: nat, chs: seq<Chain>, next: nat)
    requires j <= |s| && s[j..] == Render(chs) && chs != [] && ValidChain(chs[0])
    requires next == j + |Parenthesised(Flat(chs[0]))| + if |chs| == 1 then 0 else 1
    ensures j + 4 < next <= |s| && s[next..] == Render(chs[1..]) && s[j].op == LParen
    ensures forall i :: j < i < next ==> s[i].op != LParen
  {
    GroupNodes(chs[0]);
    GroupAt(s, j, chs);
    var g := Parenthesised(Flat(chs[0]));
    assert s[j] == s[j..j + |g|][0];
  }

  function NextStart(chs: seq<Chain>, j: nat): nat
    requires chs != []
  {
    j + |Parenthesised(Flat(chs[0]))| + if |chs| == 1 then 0 else 1
  }

  /** Once the head is nuked, the rest of the inner search changes nothing. */
  lemma {:induction false} CheckNuked(s: seq<Token>, j: nat, chs: seq<Chain>)
    requires 6 <= j <= |s| && s[j..] == Render(chs) && HeadNuked(s)
    requires forall ch <- chs :: ValidChain(ch)
    ensures HeadChecked(s, j) == s
    decreases |chs|
  {
    if chs != [] {
      var next := NextStart(chs, j);
      NextGroup(s, j, chs, next);
      RepeatsExactly(s, j, chs, chs[0]);
      CheckGroup(s, j, next);
      CheckNuked(s, next, chs[1..]);
    }
  }

  /** The inner search nukes the head, with its own glue, exactly when a later
      group repeats it. The glue of the later copy is never touched. */
  lemma {:induction false} CheckGroups(s: seq<Token>, j: nat, chs: seq<Chain>, head: Chain)
    requires 6 <= j <= |s| && s[j..] == Render(chs)
    requires forall ch <- chs :: ValidChain(ch)
    requires ValidChain(head) && HeadGroup(s, head)
    ensures HeadChecked(s, j) == if Repeated(head, chs) then HeadGone(s) else s
    decreases |chs|
  {
    if chs != [] {
      var next := NextStart(chs, j);
      NextGroup(s, j, chs, next);
      HeadIsLive(s, head);
      RepeatsExactly(s, j, chs, head);
      CheckGroup(s, j, next);
      RepeatedSplit(head, chs);
      if SameTest(head, chs[0]) {
        GoneTail(s, next);
        CheckNuked(HeadGone(s), next, chs[1..]);
      } else {
        CheckGroups(s, next, chs[1..], head);
      }
    }
  }

  lemma {:induction false} HeadIsLive(s: seq<Token>, head: Chain)
    requires ValidChain(head) && HeadGroup(s, head)
    ensures !HeadNuked(s)
  {
    GroupNodes(head);
    assert s[2] == s[..5][2];
  }

  lemma {:induction false} GoneTail(s: seq<Token>, next: nat)
    requires 6 <= next <= |s|
    ensures HeadGone(s)[next..] == s[next..] && HeadNuked(HeadGone(s))
  {}

  lemma {:induction false} LiveConcat(a: seq<Token>, b: seq<Token>)
    ensures Live(a + b) == Live(a) + Live(b)
    decreases |a|
  {
    if a == [] {
      assert a + b == b;
    } else {
      assert (a + b)[1..] == a[1..] + b;
      LiveConcat(a[1..], b);
    }
  }

  lemma {:induction false} LiveAll(ts: seq<Token>)
    ensures (forall t <- ts :: t.op != Nuked) ==> Live(ts) == ts
    ensures (forall t <- ts :: t.op == Nuked) ==> Live(ts) == []
    decreases |ts|
  {
    if ts != [] { LiveAll(ts[1..]); }
  }

  lemma {:induction false} HeadPassed(front: seq<Token>, tail: seq<Token>)
    requires front != [] && front[0].op == LParen && |front + tail| >= 6 && !SingleAtHead(front + tail)
    requires forall t <- front[1..] :: t.op != LParen
    ensures Deduplicated(front + tail) == front + Deduplicated(tail)
  {
    assert (front + tail)[1..] == front[1..] + tail;
    SkipBare(front[1..], tail);
    Regrouped(front, Deduplicated(tail));
  }

  lemma {:induction false} HeadSearched(s: seq<Token>, front: seq<Token>, tail: seq<Token>)
    requires SingleAtHead(s) && |front| == 6 && HeadChecked(s, 6) == front + tail
    requires forall t <- front[1..] :: t.op != LParen
    ensures Deduplicated(s) == front + Deduplicated(tail)
  {
    assert (front + tail)[1..] == front[1..] + tail;
    SkipBare(front[1..], tail);
    Regrouped(front, Deduplicated(tail));
  }

  function Front(ch: Chain): seq<Token> { Parenthesised(Flat(ch)) + [Sym(And)] }

  lemma {:induction false} FrontNodes(ch: Chain, tail: seq<Token>)
    requires ValidChain(ch)
    ensures var f := Front(ch);
      && |f| >= 6 && f[0].op == LParen && (forall t <- f[1..] :: t.op != LParen) && (forall t <- f :: t.op != Nuked)
      && (SingleAtHead(f + tail) <==> Simple(ch))
      && (Simple(ch) ==> |f| == 6 && HeadGroup(f + tail, ch))
  {
    GroupNodes(ch);
    var g, f := Parenthesised(Flat(ch)), Front(ch);
    var s := f + tail;
    assert forall i :: 0 <= i < |g| ==> s[i] == f[i] == g[i];
    assert s[|g|] == Sym(And);
    assert forall i :: 1 <= i < |f| ==> f[i].op != LParen;
    if |g| == 5 {
      assert g[4] == Sym(RParen) && s[..5] == g;
    }
  }

  /** The front of a rendered list after the search: kept, or all nuked. */
  lemma {:induction false} DeduplicatedHead(chs: seq<Chain>)
    requires |chs| >= 2 && forall ch <- chs :: ValidChain(ch)
    ensures FrontDone(chs)
  {
    if Simple(chs[0]) { SimpleFront(chs); } else { OtherFront(chs); }
  }

  /** Of the first chain either every node is gone, when it is repeated later, or none. */
  ghost predicate FrontDone(chs: seq<Chain>)
    requires chs != []
  {
    var n := |Front(chs[0])|;
    var gone := Deduplicated(Render(chs))[..if n <= |Render(chs)| then n else 0];
    n <= |Render(chs)| && Deduplicated(Render(chs)) == gone + Deduplicated(Render(chs[1..])) &&
    if Repeated(chs[0], chs[1..]) then forall t <- gone :: t.op == Nuked else gone == Front(chs[0])
  }

  lemma {:induction false} SimpleFront(chs: seq<Chain>)
    requires |chs| >= 2 && (forall ch <- chs :: ValidChain(ch)) && Simple(chs[0])
    ensures FrontDone(chs)
  {
    var front, tail := Front(chs[0]), Render(chs[1..]);
    assert Render(chs) == front + tail;
    FrontNodes(chs[0], tail);
    FrontGone(front, tail);
    CheckGroups(front + tail, 6, chs[1..], chs[0]);
    var gone := if Repeated(chs[0], chs[1..]) then HeadGone(front) else front;
    HeadSearched(front + tail, gone, tail);
    IsFrontDone(chs, gone);
  }

  lemma {:induction false} FrontGone(front: seq<Token>, tail: seq<Token>)
    requires |front| == 6
    ensures (front + tail)[6..] == tail && HeadGone(front + tail) == HeadGone(front) + tail
    ensures |HeadGone(front)| == 6 && forall t <- HeadGone(front) :: t.op == Nuked
  {}

  lemma {:induction false} IsFrontDone(chs: seq<Chain>, gone: seq<Token>)
    requires chs != [] && |gone| == |Front(chs[0])| <= |Render(chs)|
    requires Deduplicated(Render(chs)) == gone + Deduplicated(Render(chs[1..]))
    requires if Repeated(chs[0], chs[1..]) then forall t <- gone :: t.op == Nuked else gone == Front(chs[0])
    ensures FrontDone(chs)
  {}

  lemma {:induction false} OtherFront(chs: seq<Chain>)
    requires |chs| >= 2 && (forall ch <- chs :: ValidChain(ch)) && !Simple(chs[0])
    ensures FrontDone(chs)
  {
    var front, tail := Front(chs[0]), Render(chs[1..]);
    assert Render(chs) == front + tail;
    FrontNodes(chs[0], tail);
    HeadPassed(front, tail);
  }

  lemma {:induction false} DeduplicatedLast(ch: Chain)
    requires ValidChain(ch)
    ensures Deduplicated(Render([ch])) == Render([ch])
  {
    GroupNodes(ch);
    var s := Parenthesised(Flat(ch));
    assert Render([ch]) == s;
    if |s| >= 6 {
      assert !SingleAtHead(s);
      assert forall t <- s[1..] :: t.op != LParen by {
        assert forall i :: 1 <= i < |s| ==> s[i].op != LParen;
      }
      SkipBare(s[1..], []);
      assert s[1..] + [] == s[1..] && [s[0]] + s[1..] == s;
    }
  }

  /** The non-nuked nodes are the rendering of the groups without earlier copies. */
  lemma {:induction false} DeduplicatedIsLastCopies(chs: seq<Chain>)
    requires forall ch <- chs :: ValidChain(ch)
    ensures Live(Deduplicated(Render(chs))) == Render(LastCopies(chs))
    decreases |chs|
  {
    if |chs| == 1 {
      assert chs == [chs[0]];
      DeduplicatedLast(chs[0]);
      GroupNodes(chs[0]);
      LiveAll(Render(chs));
    } else if |chs| > 1 {
      var front := Front(chs[0]);
      var d := Deduplicated(Render(chs));
      var rest := Deduplicated(Render(chs[1..]));
      DeduplicatedHead(chs);
      LiveConcat(d[..|front|], rest);
      DeduplicatedIsLastCopies(chs[1..]);
      if Repeated(chs[0], chs[1..]) {
        LiveAll(d[..|front|]);
      } else {
        FrontNodes(chs[0], []);
        LiveAll(front);
        var kept := [chs[0]] + LastCopies(chs[1..]);
        assert kept[1..] == LastCopies(chs[1..]);
        assert Render(kept) == front + Render(LastCopies(chs[1..]));
      }
    }
  }

  lemma {:induction false} SameTestSameTruth(a: Chain, b: Chain, env: Env)
    requires SameTest(a, b)
    ensures Truth(a, env) == Truth(b, env)
  {}

  /** Keeping the last copies loses no test and leaves no test twice. */
  lemma {:induction false} LastCopiesExact(chs: seq<Chain>)
    ensures forall i, j :: 0 <= i < j < |LastCopies(chs)| ==> !SameTest(LastCopies(chs)[i], LastCopies(chs)[j])
    ensures forall ch <- chs :: ch in LastCopies(chs) || Repeated(ch, LastCopies(chs))
    decreases |chs|
  {
    if chs != [] {
      var r := LastCopies(chs[1..]);
      LastCopiesExact(chs[1..]);
      if Repeated(chs[0], chs[1..]) {
        var i :| 0 <= i < |chs[1..]| && SameTest(chs[0], chs[1..][i]);
        var c := chs[1..][i];
        if c in r {
          var k :| 0 <= k < |r| && r[k] == c;
          assert SameTest(chs[0], r[k]);
        } else {
          var k :| 0 <= k < |r| && SameTest(c, r[k]);
          assert SameTest(chs[0], r[k]);
        }
      } else {
        assert LastCopies(chs) == [chs[0]] + r;
        forall j | 0 <= j < |r| ensures !SameTest(chs[0], r[j]) {
          assert r[j] in chs[1..];
        }
        forall ch | ch in chs[1..] && ch !in r ensures Repeated(ch, LastCopies(chs)) {
          var k :| 0 <= k < |r| && SameTest(ch, r[k]);
          assert LastCopies(chs)[k + 1] == r[k];
        }
      }
    }
  }

  lemma {:induction false} LastCopiesTruth(chs: seq<Chain>, env: Env)
    ensures AllTrue(LastCopies(chs), env) <==> AllTrue(chs, env)
  {
    LastCopiesExact(chs);
    if AllTrue(LastCopies(chs), env) {
      forall ch | ch in chs ensures Truth(ch, env) {
        if ch !in LastCopies(chs) {
          var k :| 0 <= k < |LastCopies(chs)| && SameTest(ch, LastCopies(chs)[k]);
          SameTestSameTruth(ch, LastCopies(chs)[k], env);
        }
      }
    }
  }

  // ---------------------------------------------------------------------
  // The value of a joined chain
  // ---------------------------------------------------------------------

  lemma {:induction false} ScanGroup(st: State, ch: Chain, env: Env)
    requires ValidChain(ch) && st.phase == Operand(false)
    ensures Scan(st, Parenthesised(Flat(ch)), env) == Primary(st, Truth(ch, env))
  {
    var s1 := Step(st, Sym(LParen), env);
    ScanConcat(st, [Sym(LParen)] + Flat(ch), [Sym(RParen)], env);
    ScanConcat(st, [Sym(LParen)], Flat(ch), env);
    assert Scan(st, [Sym(LParen)], env) == s1;
    ScanChain(s1, ch, env);
    var s2 := Scan(s1, Flat(ch), env);
    assert Scan(s2, [Sym(RParen)], env) == Step(s2, Sym(RParen), env);
    assert s1.outer[1..] == st.outer;
  }

  lemma {:induction false} ScanRender(st: State, chs: seq<Chain>, env: Env)
    requires st.phase == Operand(false) && chs != [] && forall ch <- chs :: ValidChain(ch)
    ensures Scan(st, Render(chs), env) == Primary(st, AllTrue(chs, env))
    decreases |chs|
  {
    ScanGroup(st, chs[0], env);
    if |chs| == 1 {
      assert chs == [chs[0]];
    } else {
      var g := Parenthesised(Flat(chs[0]));
      var s1 := Primary(st, Truth(chs[0], env));
      ScanConcat(st, g + [Sym(And)], Render(chs[1..]), env);
      ScanConcat(st, g, [Sym(And)], env);
      var s2 := Step(s1, Sym(And), env);
      assert Scan(s1, [Sym(And)], env) == s2;
      ScanRender(s2, chs[1..], env);
      assert AllTrue(chs, env) <==> Truth(chs[0], env) && AllTrue(chs[1..], env) by {
        assert forall ch :: ch in chs <==> ch == chs[0] || ch in chs[1..];
      }
    }
  }

  lemma {:induction false} ScanLive(st: State, ts: seq<Token>, env: Env)
    ensures Scan(st, Live(ts), env) == Scan(st, ts, env)
    decreases |ts|
  {
    if ts != [] {
      var st' := Step(st, ts[0], env);
      ScanLive(st', ts[1..], env);
      if ts[0].op != Nuked {
        assert Live(ts)[1..] == Live(ts[1..]);
      } else {
        assert Live(ts) == Live(ts[1..]);
      }
    }
  }

  lemma {:induction false} StackTruth(stack: seq<Entry>, env: Env)
    requires forall e <- stack :: ValidEntry(e) && !(e.Flag? && !e.value)
    ensures forall ch <- StackChains(stack) :: ValidChain(ch)
    ensures AllTrue(StackChains(stack), env) <==> forall e <- stack :: EntryTruth(e, env)
    decreases |stack|
  {
    if stack != [] {
      var e := stack[0];
      StackTruth(stack[1..], env);
      assert forall x :: x in stack <==> x == e || x in stack[1..];
      assert forall ch :: ch in StackChains(stack) <==> ch in EntryChains(e) || ch in StackChains(stack[1..]);
      assert EntryTruth(e, env) <==> AllTrue(EntryChains(e), env) by {
        if e.Single? { assert e.chain in EntryChains(e); }
      }
    }
  }

  lemma {:induction false} DeduplicatedValue(chs: seq<Chain>, env: Env)
    requires chs != [] && forall ch <- chs :: ValidChain(ch)
    ensures var ts := Deduplicated(Render(chs));
      ts != [] && !HeadIs(ts, False) && Eval(ts, env) == Some(AllTrue(chs, env))
  {
    DeduplicatedIsLastCopies(chs);
    LastCopiesTruth(chs, env);
    ScanLive(START, Deduplicated(Render(chs)), env);
    ScanRender(START, LastCopies(chs), env);
    if |chs| == 1 {
      assert chs == [chs[0]];
      DeduplicatedLast(chs[0]);
    } else {
      DeduplicatedHead(chs);
      var d := Deduplicated(Render(chs));
      var n := |Front(chs[0])|;
      assert d[0] == d[..n][0];
      assert d[0] in d[..n];
    }
  }

  lemma {:induction false} FalseHeads(stack: seq<Entry>)
    requires forall e <- stack :: ValidEntry(e)
    ensures forall i :: 0 <= i < |stack| ==> (HeadIs(StackTokens(stack)[i], False) <==> stack[i].Flag? && !stack[i].value)
  {
    forall i | 0 <= i < |stack|
      ensures HeadIs(StackTokens(stack)[i], False) <==> stack[i].Flag? && !stack[i].value
    {
      PieceOfEntry(stack[i]);
    }
  }

  lemma {:induction false} JoinFalse(stack: seq<Entry>, i: nat, env: Env)
    requires i < |stack| && HeadIs(StackTokens(stack)[i], False) && stack[i].Flag? && !stack[i].value
    ensures Joined(StackTokens(stack)) == [Sym(False)] && Eval([Sym(False)], env) == Some(false)
    ensures stack[i] in stack && !EntryTruth(stack[i], env)
  {
    assert Scan(START, [Sym(False)], env) == Step(START, Sym(False), env);
  }

  lemma {:induction false} JoinLive(stack: seq<Entry>, env: Env)
    requires forall e <- stack :: ValidEntry(e) && !(e.Flag? && !e.value)
    ensures var ts := Joined(StackTokens(stack));
      && !HeadIs(ts, False) && Live(ts) == Render(LastCopies(StackChains(stack)))
      && (Enabled(ts, env) <==> forall e <- stack :: EntryTruth(e, env))
      && (ts != [] ==> Eval(ts, env) == Some(forall e <- stack :: EntryTruth(e, env)))
  {
    FalseHeads(stack);
    var chs := StackChains(stack);
    StackTruth(stack, env);
    GluedIsRender(stack, true);
    assert Glue(true) + Render(chs) == Render(chs);
    assert Joined(StackTokens(stack)) == Deduplicated(Render(chs)) by {
      forall i | 0 <= i < |stack| ensures !HeadIs(StackTokens(stack)[i], False) {
        assert stack[i] in stack;
      }
    }
    DeduplicatedIsLastCopies(chs);
    if chs != [] { DeduplicatedValue(chs, env); }
  }

  /** Joining is conjunction. For every stack of markers, `if` chains (mixed
      connectives included) and dependency groups: a false marker gives the false
      chain; otherwise the live nodes are the conjunction of the entries, each test
      kept once, and no chain at all means every entry is a true marker. */
  lemma {:induction false} JoinIsConjunction(stack: seq<Entry>, env: Env)
    requires forall e <- stack :: ValidEntry(e)
    ensures var ts := Joined(StackTokens(stack));
      && (HeadIs(ts, False) <==> exists e <- stack :: e.Flag? && !e.value)
      && (Enabled(ts, env) <==> forall e <- stack :: EntryTruth(e, env))
      && (ts != [] ==> Eval(ts, env) == Some(forall e <- stack :: EntryTruth(e, env)))
      && (!HeadIs(ts, False) ==> Live(ts) == Render(LastCopies(StackChains(stack))))
  {
    if e :| e in stack && e.Flag? && !e.value {
      var i :| 0 <= i < |stack| && stack[i] == e;
      FalseHeads(stack);
      JoinFalse(stack, i, env);
    } else {
      JoinLive(stack, env);
    }
  }
}
