/** fix_conditionals on the linked statement list. */
module ScriptPass {
  import opened Wrappers
  import opened Conditions
  import opened Inversion
  import opened ArchFolding
  import opened Joining
  import opened PrintedScript
  import opened Flattening
  import opened TkCond

  class Kconfig {
    var next: Kconfig?
    const token: StatementToken
    const nameindex: int
    var cond: Condition?

    constructor (token: StatementToken, nameindex: int)
      ensures next == null && cond == null && this.token == token && this.nameindex == nameindex
    {
      next, this.token, this.nameindex, cond := null, token, nameindex, null;
    }
  }

  /** The variable table: the flag that mark_variables sets. */
  class VariableTable {
    const name: int -> string
    var defined: set<int>

    constructor (name: int -> string)
      ensures this.name == name && defined == {}
    {
      this.name, defined := name, {};
    }
  }

  ghost predicate ListLinked(head: Kconfig?, list: seq<Kconfig>)
    reads list`next
  {
    head == (if list == [] then null else list[0]) &&
    (forall i {:trigger list[i].next} :: 0 <= i < |list| ==> list[i].next == if i + 1 < |list| then list[i + 1] else null) &&
    forall i, j :: 0 <= i < j < |list| ==> list[i] != list[j]
  }

  ghost predicate Separate(chains: seq<seq<Condition>>) {
    forall i, j :: 0 <= i < j < |chains| ==> forall c <- chains[i] :: c !in chains[j]
  }

  /** `stmts` says what the statements of the list hold. */
  ghost predicate Describes(list: seq<Kconfig>, stmts: seq<Statement>) {
    |list| == |stmts| &&
    forall j :: 0 <= j < |list| ==> stmts[j].token == list[j].token && stmts[j].nameindex == list[j].nameindex
  }

  /** mark_variables: afterwards exactly the variables the list defines are marked. */
  method MarkVariables(scfg: Kconfig?, vars: VariableTable, ghost list: seq<Kconfig>, ghost stmts: seq<Statement>)
    requires ListLinked(scfg, list) && Describes(list, stmts)
    modifies vars
    ensures vars.defined == Defined(stmts)
  {
    vars.defined := {};
    var cfg := scfg;
    ghost var k := 0;
    while cfg != null
      invariant 0 <= k <= |list| && cfg == if k < |list| then list[k] else null
      invariant ListLinked(scfg, list)
      invariant vars.defined == Defined(stmts[..k])
      decreases |list| - k
    {
      assert stmts[..k + 1] == stmts[..k] + [stmts[k]];
      DefinedOneMore(stmts[..k], stmts[k]);
      if IsDefining(cfg.token) && cfg.nameindex > 0 {
        vars.defined := vars.defined + {cfg.nameindex};
      }
      cfg := cfg.next;
      k := k + 1;
    }
    assert stmts[..k] == stmts;
  }

  lemma {:induction false} DefinedOneMore(stmts: seq<Statement>, s: Statement)
    ensures Defined(stmts + [s]) ==
      Defined(stmts) + if IsDefining(s.token) && s.nameindex > 0 then {s.nameindex} else {}
  {
    assert forall x :: x in stmts + [s] <==> x in stmts || x == s;
  }

  // ---------------------------------------------------------------------
  // The state of the walk
  // ---------------------------------------------------------------------

  /** The statements still to come are as they were. */
  ghost predicate Waiting(list: seq<Kconfig>, chains: seq<seq<Condition>>, stmts: seq<Statement>)
    reads list`cond, AllNodes(chains)
  {
    |list| == |chains| == |stmts| &&
    forall j :: 0 <= j < |list| ==>
      Nodes(chains[j]) <= AllNodes(chains) && Linked(list[j].cond, chains[j]) && Contents(chains[j]) == stmts[j].cond
  }

  /** The statements passed carry the chains they were given. */
  ghost predicate Attached(list: seq<Kconfig>, attached: seq<seq<Condition>>, outs: seq<Outcome>)
    reads list`cond, AllNodes(attached)
  {
    |list| == |attached| == |outs| &&
    forall j :: 0 <= j < |outs| && outs[j].Kept? ==>
      Nodes(attached[j]) <= AllNodes(attached) && Linked(list[j].cond, attached[j]) && Contents(attached[j]) == outs[j].cond
  }

  lemma {:induction false} OneMoreChain(chains: seq<seq<Condition>>, more: seq<Condition>)
    ensures AllNodes(chains + [more]) == AllNodes(chains) + Nodes(more)
    ensures forall i :: 0 <= i < |chains| ==> Nodes(chains[i]) <= AllNodes(chains)
  {
    SplitNodes(chains + [more]);
    assert (chains + [more])[..|chains|] == chains;
    forall i | 0 <= i < |chains| ensures Nodes(chains[i]) <= AllNodes(chains) {
      forall c | c in chains[i] ensures c in AllNodes(chains) {
        var j :| 0 <= j < |chains[i]| && chains[i][j] == c;
      }
    }
  }

  lemma {:induction false} HeadChain(chains: seq<seq<Condition>>)
    requires chains != []
    ensures AllNodes(chains) == Nodes(chains[0]) + AllNodes(chains[1..])
    ensures forall i :: 0 <= i < |chains| ==> Nodes(chains[i]) <= AllNodes(chains)
    ensures forall i :: 1 <= i < |chains| ==> Nodes(chains[i]) <= AllNodes(chains[1..])
  {
    var rest := chains[1..];
    forall c | c in AllNodes(chains) ensures c in Nodes(chains[0]) + AllNodes(rest) {
      var i, j :| 0 <= i < |chains| && 0 <= j < |chains[i]| && c == chains[i][j];
      if i > 0 { assert c == rest[i - 1][j]; }
    }
    forall c | c in AllNodes(rest) ensures c in AllNodes(chains) {
      var i, j :| 0 <= i < |rest| && 0 <= j < |rest[i]| && c == rest[i][j];
      assert c == chains[i + 1][j];
    }
    forall c | c in Nodes(chains[0]) ensures c in AllNodes(chains) {
      var j :| 0 <= j < |chains[0]| && c == chains[0][j];
    }
    forall i | 1 <= i < |chains| ensures Nodes(chains[i]) <= AllNodes(rest) {
      forall c | c in chains[i] ensures c in AllNodes(rest) {
        var j :| 0 <= j < |chains[i]| && chains[i][j] == c;
        assert c == rest[i - 1][j];
      }
    }
  }

  lemma {:induction false} StackOneMore(heads: seq<Condition>, stackChains: seq<seq<Condition>>,
                                        head: Condition, more: seq<Condition>)
    requires Stacked(heads, stackChains) && Linked(head, more)
    ensures Stacked(heads + [head], stackChains + [more])
    ensures StackContents(stackChains + [more]) == StackContents(stackChains) + [Contents(more)]
  {
    OneMoreChain(stackChains, more);
    var all, hs := stackChains + [more], heads + [head];
    assert all[..|stackChains|] == stackChains;
    forall i | 0 <= i < |all| ensures all[i] != [] && Nodes(all[i]) <= AllNodes(all) && Linked(hs[i], all[i]) {
      assert i < |stackChains| ==> all[i] == stackChains[i] && hs[i] == heads[i];
    }
  }

  lemma {:induction false} AttachOne(list: seq<Kconfig>, attached: seq<seq<Condition>>, outs: seq<Outcome>,
                                     cfg: Kconfig, chain: seq<Condition>, o: Outcome)
    requires Attached(list, attached, outs)
    requires o.Kept? ==> Linked(cfg.cond, chain) && Contents(chain) == o.cond
    ensures Attached(list + [cfg], attached + [chain], outs + [o])
  {
    OneMoreChain(attached, chain);
    var l, all, os := list + [cfg], attached + [chain], outs + [o];
    forall j | 0 <= j < |os| && os[j].Kept?
      ensures Nodes(all[j]) <= AllNodes(all) && Linked(l[j].cond, all[j]) && Contents(all[j]) == os[j].cond
    {
      assert j < |outs| ==> all[j] == attached[j] && os[j] == outs[j] && l[j] == list[j];
    }
  }

  lemma {:induction false} WaitingHead(list: seq<Kconfig>, chains: seq<seq<Condition>>, stmts: seq<Statement>)
    requires Waiting(list, chains, stmts) && list != []
    ensures Waiting(list[1..], chains[1..], stmts[1..])
    ensures Linked(list[0].cond, chains[0]) && Contents(chains[0]) == stmts[0].cond
    ensures AllNodes(chains) == Nodes(chains[0]) + AllNodes(chains[1..])
  {
    HeadChain(chains);
  }

  /** token_if: fold the condition, so that it can be pushed. */
  method FoldIf(cond: Condition, tab: Table, ghost chain: seq<Condition>)
    returns (exited: bool, r: Condition?, ghost kept: seq<Condition>)
    requires Linked(cond, chain) && Closed(Contents(chain))
    modifies chain
    ensures exited <==> Eliminated(old(Contents(chain)), tab).None?
    ensures !exited ==> r != null && Linked(r, kept) && Nodes(kept) <= Nodes(chain)
    ensures !exited ==> Contents(kept) == BangsRemoved(Eliminated(old(Contents(chain)), tab).value)
  {
    ghost var rest;
    kept := [];
    exited, r, rest := EliminateOtherArch(cond, chain, tab);
    if !exited {
      assert forall i :: 0 <= i < |rest| ==> rest[i] in chain;
      r, kept := RemoveBang(r, rest);
      assert forall i :: 0 <= i < |kept| ==> kept[i] in chain;
    }
  }

  ghost predicate Distinct(list: seq<Kconfig>) { forall i, j :: 0 <= i < j < |list| ==> list[i] != list[j] }

  /** The chains on the stack, the attached ones and those still to come share no node. */
  ghost predicate Disjoint(stackChains: seq<seq<Condition>>, attached: seq<seq<Condition>>, chains: seq<seq<Condition>>) {
    AllNodes(stackChains) !! AllNodes(attached) !! AllNodes(chains) && Separate(chains) && Separate(stackChains)
  }

  /** The state between two statements: `done` are passed, `rest` are to come. */
  ghost predicate Walk(done: seq<Kconfig>, outs: seq<Outcome>, attached: seq<seq<Condition>>,
                       rest: seq<Kconfig>, chains: seq<seq<Condition>>, stmts: seq<Statement>,
                       heads: seq<Condition>, stackChains: seq<seq<Condition>>)
    reads done`cond, rest`cond, AllNodes(attached), AllNodes(chains), AllNodes(stackChains)
  {
    Distinct(done + rest) && Disjoint(stackChains, attached, chains) &&
    Waiting(rest, chains, stmts) && Attached(done, attached, outs) && Stacked(heads, stackChains)
  }

  lemma {:induction false} DisjointPush(stackChains: seq<seq<Condition>>, attached: seq<seq<Condition>>,
                                        chains: seq<seq<Condition>>, kept: seq<Condition>)
    requires Disjoint(stackChains, attached, chains) && chains != [] && Nodes(kept) <= Nodes(chains[0])
    ensures Disjoint(stackChains + [kept], attached + [[]], chains[1..])
    ensures AllNodes(chains[1..]) !! Nodes(chains[0])
  {
    OneMoreChain(stackChains, kept);
    OneMoreChain(attached, []);
    HeadChain(chains);
    SeparateHead(chains);
    var all := stackChains + [kept];
    forall i, j | 0 <= i < j < |all| ensures forall c <- all[i] :: c !in all[j] {
      if j == |stackChains| {
        assert all[i] == stackChains[i] && all[j] == kept;
        assert Nodes(all[i]) <= AllNodes(stackChains) && Nodes(kept) <= AllNodes(chains);
        forall c | c in all[i] ensures c !in kept {
          assert c in AllNodes(stackChains) && c !in AllNodes(chains) && c !in Nodes(kept);
        }
      } else {
        assert all[i] == stackChains[i] && all[j] == stackChains[j];
      }
    }
  }

  lemma {:induction false} SeparateHead(chains: seq<seq<Condition>>)
    requires Separate(chains) && chains != []
    ensures Separate(chains[1..]) && AllNodes(chains[1..]) !! Nodes(chains[0])
  {
    forall c | c in AllNodes(chains[1..]) ensures c !in Nodes(chains[0]) {
      var i, j :| 0 <= i < |chains[1..]| && 0 <= j < |chains[1..][i]| && c == chains[1..][i][j];
      assert chains[1..][i] == chains[i + 1];
    }
  }

  lemma {:induction false} DistinctHead(done: seq<Kconfig>, rest: seq<Kconfig>)
    requires Distinct(done + rest) && rest != []
    ensures rest[0] !in done && rest[0] !in rest[1..]
    ensures (done + [rest[0]]) + rest[1..] == done + rest
  {
    var all := done + rest;
    assert all[|done|] == rest[0];
    forall i | 0 <= i < |done| ensures done[i] != rest[0] { assert all[i] == done[i]; }
    forall i | 0 <= i < |rest[1..]| ensures rest[1..][i] != rest[0] { assert all[|done| + 1 + i] == rest[1..][i]; }
  }

  /** Fold the condition of the statement at hand; everything else stands. */
  method FoldHead(cfg: Kconfig, tab: Table,
                  ghost done: seq<Kconfig>, ghost outs: seq<Outcome>, ghost attached: seq<seq<Condition>>,
                  ghost rest: seq<Kconfig>, ghost chains: seq<seq<Condition>>, ghost stmts: seq<Statement>,
                  ghost heads: seq<Condition>, ghost stackChains: seq<seq<Condition>>, ghost stack: seq<seq<Token>>)
    returns (exited: bool, r: Condition?, ghost kept: seq<Condition>)
    requires Walk(done, outs, attached, rest, chains, stmts, heads, stackChains) && StackContents(stackChains) == stack
    requires rest != [] && cfg == rest[0] && Closed(stmts[0].cond)
    modifies chains[0]
    ensures exited <==> Eliminated(stmts[0].cond, tab).None?
    ensures !exited ==> r != null && Linked(r, kept) && Nodes(kept) <= Nodes(chains[0])
    ensures !exited ==> Contents(kept) == BangsRemoved(Eliminated(stmts[0].cond, tab).value)
    ensures Stacked(heads, stackChains) && StackContents(stackChains) == stack
    ensures Waiting(rest[1..], chains[1..], stmts[1..]) && Attached(done, attached, outs)
  {
    WaitingHead(rest, chains, stmts);
    SeparateHead(chains);
    assert AllNodes(stackChains) !! Nodes(chains[0]) && AllNodes(attached) !! Nodes(chains[0]);
    exited, r, kept := FoldIf(cfg.cond, tab, chains[0]);
  }

  /** Fold the condition and detach it from its statement. */
  method TakeHead(cfg: Kconfig, tab: Table,
                  ghost done: seq<Kconfig>, ghost outs: seq<Outcome>, ghost attached: seq<seq<Condition>>,
                  ghost rest: seq<Kconfig>, ghost chains: seq<seq<Condition>>, ghost stmts: seq<Statement>,
                  ghost heads: seq<Condition>, ghost stackChains: seq<seq<Condition>>, ghost stack: seq<seq<Token>>)
    returns (exited: bool, r: Condition?, ghost kept: seq<Condition>)
    requires Walk(done, outs, attached, rest, chains, stmts, heads, stackChains) && StackContents(stackChains) == stack
    requires rest != [] && cfg == rest[0] && Closed(stmts[0].cond)
    modifies cfg`cond, chains[0]
    ensures exited <==> Eliminated(stmts[0].cond, tab).None?
    ensures !exited ==> r != null && Linked(r, kept) && Nodes(kept) <= Nodes(chains[0])
    ensures !exited ==> Contents(kept) == BangsRemoved(Eliminated(stmts[0].cond, tab).value)
    ensures Stacked(heads, stackChains) && StackContents(stackChains) == stack && cfg.cond == null
    ensures Waiting(rest[1..], chains[1..], stmts[1..]) && Attached(done, attached, outs)
  {
    DistinctHead(done, rest);
    exited, r, kept := FoldHead(cfg, tab, done, outs, attached, rest, chains, stmts, heads, stackChains, stack);
    Detach(cfg, done, outs, attached, rest[1..], chains[1..], stmts[1..]);
  }

  method Detach(cfg: Kconfig, ghost done: seq<Kconfig>, ghost outs: seq<Outcome>, ghost attached: seq<seq<Condition>>,
                ghost rest: seq<Kconfig>, ghost chains: seq<seq<Condition>>, ghost stmts: seq<Statement>)
    requires Waiting(rest, chains, stmts) && Attached(done, attached, outs) && cfg !in done && cfg !in rest
    modifies cfg`cond
    ensures Waiting(rest, chains, stmts) && Attached(done, attached, outs) && cfg.cond == null
  {
    cfg.cond := null;
  }

  /** token_if: push the folded condition. */
  method StepIf(cfg: Kconfig, heads: seq<Condition>, tab: Table,
                ghost done: seq<Kconfig>, ghost outs: seq<Outcome>, ghost attached: seq<seq<Condition>>,
                ghost rest: seq<Kconfig>, ghost chains: seq<seq<Condition>>, ghost stmts: seq<Statement>,
                ghost stackChains: seq<seq<Condition>>, ghost stack: seq<seq<Token>>)
    returns (exited: bool, r: Condition?, ghost kept: seq<Condition>)
    requires Walk(done, outs, attached, rest, chains, stmts, heads, stackChains) && StackContents(stackChains) == stack
    requires rest != [] && cfg == rest[0] && Closed(stmts[0].cond)
    modifies cfg`cond, chains[0]
    ensures exited <==> Eliminated(stmts[0].cond, tab).None?
    ensures !exited ==>
      (r != null &&
       Nodes(kept) <= Nodes(chains[0]) &&
       Walk(done + [cfg], outs + [Kept([])], attached + [[]], rest[1..], chains[1..], stmts[1..],
            heads + [r], stackChains + [kept]) &&
       StackContents(stackChains + [kept]) == stack + [BangsRemoved(Eliminated(stmts[0].cond, tab).value)])
  {
    exited, r, kept := TakeHead(cfg, tab, done, outs, attached, rest, chains, stmts, heads, stackChains, stack);
    if !exited {
      ghost var ts := BangsRemoved(Eliminated(stmts[0].cond, tab).value);
      PushedIf(cfg, done, outs, attached, rest, chains, stmts, heads, stackChains, stack, r, kept, ts);
    }
  }

  lemma {:induction false} PushedIf(cfg: Kconfig, done: seq<Kconfig>, outs: seq<Outcome>, attached: seq<seq<Condition>>,
                                    rest: seq<Kconfig>, chains: seq<seq<Condition>>, stmts: seq<Statement>,
                                    heads: seq<Condition>, stackChains: seq<seq<Condition>>, stack: seq<seq<Token>>,
                                    r: Condition, kept: seq<Condition>, ts: seq<Token>)
    requires Distinct(done + rest) && Disjoint(stackChains, attached, chains) && rest != [] && cfg == rest[0]
    requires |rest| == |chains| == |stmts| && Waiting(rest[1..], chains[1..], stmts[1..])
    requires Attached(done, attached, outs) && Stacked(heads, stackChains)
    requires Linked(r, kept) && Nodes(kept) <= Nodes(chains[0]) && cfg.cond == null
    requires Contents(kept) == ts && StackContents(stackChains) == stack
    ensures Walk(done + [cfg], outs + [Kept([])], attached + [[]], rest[1..], chains[1..], stmts[1..],
                 heads + [r], stackChains + [kept])
    ensures StackContents(stackChains + [kept]) == stack + [ts]
  {
    StackOneMore(heads, stackChains, r, kept);
    AttachOne(done, attached, outs, cfg, [], Kept([]));
    DisjointPush(stackChains, attached, chains, kept);
    DistinctHead(done, rest);
  }

  // ---------------------------------------------------------------------
  // token_else and token_fi
  // ---------------------------------------------------------------------

  lemma {:induction false} StackTop(heads: seq<Condition>, stackChains: seq<seq<Condition>>)
    requires Stacked(heads, stackChains) && Separate(stackChains) && stackChains != []
    ensures var n := |stackChains| - 1;
      && Stacked(heads[..n], stackChains[..n]) && Linked(heads[n], stackChains[n]) && stackChains[n] != []
      && Separate(stackChains[..n]) && AllNodes(stackChains[..n]) !! Nodes(stackChains[n])
      && AllNodes(stackChains) == AllNodes(stackChains[..n]) + Nodes(stackChains[n])
      && StackContents(stackChains[..n]) == StackContents(stackChains)[..n]
      && Contents(stackChains[n]) == StackContents(stackChains)[n]
  {
    var n := |stackChains| - 1;
    SplitNodes(stackChains);
    OneMoreChain(stackChains[..n], stackChains[n]);
    forall c | c in AllNodes(stackChains[..n]) ensures c !in stackChains[n] {
      var i, j :| 0 <= i < n && 0 <= j < |stackChains[..n][i]| && c == stackChains[..n][i][j];
      assert stackChains[..n][i] == stackChains[i];
    }
  }

  lemma {:induction false} DisjointPass(stackChains: seq<seq<Condition>>, attached: seq<seq<Condition>>,
                                        chains: seq<seq<Condition>>)
    requires Disjoint(stackChains, attached, chains) && chains != []
    ensures Disjoint(stackChains, attached + [chains[0]], chains[1..])
  {
    OneMoreChain(attached, chains[0]);
    HeadChain(chains);
    SeparateHead(chains);
  }

  /** A statement that keeps its own chain and leaves the stack alone. */
  lemma {:induction false} PassHead(done: seq<Kconfig>, outs: seq<Outcome>, attached: seq<seq<Condition>>,
                                    rest: seq<Kconfig>, chains: seq<seq<Condition>>, stmts: seq<Statement>,
                                    heads: seq<Condition>, stackChains: seq<seq<Condition>>)
    requires Walk(done, outs, attached, rest, chains, stmts, heads, stackChains) && rest != []
    ensures Walk(done + [rest[0]], outs + [Kept(stmts[0].cond)], attached + [chains[0]], rest[1..], chains[1..], stmts[1..],
                 heads, stackChains)
  {
    WaitingHead(rest, chains, stmts);
    DistinctHead(done, rest);
    AttachOne(done, attached, outs, rest[0], chains[0], Kept(stmts[0].cond));
    DisjointPass(stackChains, attached, chains);
  }

  lemma {:induction false} PopStack(done: seq<Kconfig>, outs: seq<Outcome>, attached: seq<seq<Condition>>,
                                    rest: seq<Kconfig>, chains: seq<seq<Condition>>, stmts: seq<Statement>,
                                    heads: seq<Condition>, stackChains: seq<seq<Condition>>)
    requires Walk(done, outs, attached, rest, chains, stmts, heads, stackChains) && stackChains != []
    ensures var n := |stackChains| - 1;
      Walk(done, outs, attached, rest, chains, stmts, heads[..n], stackChains[..n]) &&
      StackContents(stackChains[..n]) == StackContents(stackChains)[..n] &&
      AllNodes(stackChains[..n]) <= AllNodes(stackChains)
  {
    StackTop(heads, stackChains);
  }

  lemma {:induction false} StackOfTop(heads: seq<Condition>, stackChains: seq<seq<Condition>>)
    requires |heads| == |stackChains| > 0
    requires var n := |heads| - 1; Stacked(heads[..n], stackChains[..n]) && Linked(heads[n], stackChains[n])
    ensures Stacked(heads, stackChains)
    ensures var n := |heads| - 1;
      StackContents(stackChains) == StackContents(stackChains[..n]) + [Contents(stackChains[n])]
  {
    var n := |stackChains| - 1;
    StackOneMore(heads[..n], stackChains[..n], heads[n], stackChains[n]);
    assert stackChains[..n] + [stackChains[n]] == stackChains && heads[..n] + [heads[n]] == heads;
  }

  /** The top chain of a stack inverted in place; the chains below are kept. */
  method InvertTop(head: Condition, ghost heads: seq<Condition>,
                   ghost top: seq<Condition>, ghost below: seq<seq<Condition>>)
    requires Stacked(heads, below) && Linked(head, top) && AllNodes(below) !! Nodes(top)
    modifies top`op
    ensures Stacked(heads, below) && Linked(head, top)
    ensures StackContents(below) == old(StackContents(below)) && Contents(top) == Inverted(old(Contents(top)))
  {
    InvertInPlace(head, top);
  }

  method InvertStack(heads: seq<Condition>, ghost stackChains: seq<seq<Condition>>, ghost stack: seq<seq<Token>>)
    requires Stacked(heads, stackChains) && Separate(stackChains) && stackChains != []
    requires StackContents(stackChains) == stack
    modifies stackChains[|stackChains| - 1]`op
    ensures Stacked(heads, stackChains)
    ensures var n := |stack| - 1; StackContents(stackChains) == stack[n := Inverted(stack[n])]
  {
    StackTop(heads, stackChains);
    ghost var n := |stackChains| - 1;
    InvertTop(heads[|heads| - 1], heads[..n], stackChains[n], stackChains[..n]);
    StackOfTop(heads, stackChains);
    assert stack[..n] + [Inverted(stack[n])] == stack[n := Inverted(stack[n])];
  }

  /** token_else: invert the chain on top of the stack, in place. */
  method StepElse(heads: seq<Condition>,
                  ghost done: seq<Kconfig>, ghost outs: seq<Outcome>, ghost attached: seq<seq<Condition>>,
                  ghost rest: seq<Kconfig>, ghost chains: seq<seq<Condition>>, ghost stmts: seq<Statement>,
                  ghost stackChains: seq<seq<Condition>>, ghost stack: seq<seq<Token>>)
    requires Walk(done, outs, attached, rest, chains, stmts, heads, stackChains) && StackContents(stackChains) == stack
    requires stackChains != []
    modifies stackChains[|stackChains| - 1]`op
    ensures Walk(done, outs, attached, rest, chains, stmts, heads, stackChains)
    ensures var n := |stack| - 1; StackContents(stackChains) == stack[n := Inverted(stack[n])]
  {
    StackTop(heads, stackChains);
    InvertWaiting(heads, stackChains, stack, rest, chains, stmts);
    assert Attached(done, attached, outs);
  }

  method InvertWaiting(heads: seq<Condition>, ghost stackChains: seq<seq<Condition>>, ghost stack: seq<seq<Token>>,
                       ghost rest: seq<Kconfig>, ghost chains: seq<seq<Condition>>, ghost stmts: seq<Statement>)
    requires Stacked(heads, stackChains) && Separate(stackChains) && stackChains != []
    requires StackContents(stackChains) == stack
    requires Waiting(rest, chains, stmts) && AllNodes(chains) !! Nodes(stackChains[|stackChains| - 1])
    modifies stackChains[|stackChains| - 1]`op
    ensures Stacked(heads, stackChains) && Waiting(rest, chains, stmts)
    ensures var n := |stack| - 1; StackContents(stackChains) == stack[n := Inverted(stack[n])]
  {
    InvertStack(heads, stackChains, stack);
  }

  // ---------------------------------------------------------------------
  // The simple statements
  // ---------------------------------------------------------------------

  lemma {:induction false} DisjointAttach(stackChains: seq<seq<Condition>>, attached: seq<seq<Condition>>,
                                          chains: seq<seq<Condition>>, nodes: seq<Condition>)
    requires Disjoint(stackChains, attached, chains) && chains != []
    requires Nodes(nodes) !! AllNodes(stackChains) && Nodes(nodes) !! AllNodes(chains)
    ensures Disjoint(stackChains, attached + [nodes], chains[1..])
  {
    OneMoreChain(attached, nodes);
    HeadChain(chains);
    SeparateHead(chains);
  }

  /** The joined chain has been given to the statement at hand. */
  lemma {:induction false} AttachJoined(cfg: Kconfig, done: seq<Kconfig>, outs: seq<Outcome>, attached: seq<seq<Condition>>,
                                        rest: seq<Kconfig>, chains: seq<seq<Condition>>, stmts: seq<Statement>,
                                        heads: seq<Condition>, stackChains: seq<seq<Condition>>,
                                        nodes: seq<Condition>, ts: seq<Token>)
    requires Distinct(done + rest) && Disjoint(stackChains, attached, chains) && rest != [] && cfg == rest[0]
    requires |rest| == |chains| == |stmts| && Waiting(rest[1..], chains[1..], stmts[1..])
    requires Attached(done, attached, outs) && Stacked(heads, stackChains)
    requires Linked(cfg.cond, nodes) && Contents(nodes) == ts
    requires Nodes(nodes) !! AllNodes(stackChains) && Nodes(nodes) !! AllNodes(chains)
    ensures Walk(done + [cfg], outs + [Attach(ts)], attached + [nodes], rest[1..], chains[1..], stmts[1..], heads, stackChains)
  {
    AttachOne(done, attached, outs, cfg, nodes, Attach(ts));
    DisjointAttach(stackChains, attached, chains, nodes);
    DistinctHead(done, rest);
  }

  /** Join the stack, and test the new chain for the false one. */
  method JoinAndTest(heads: seq<Condition>, ghost stackChains: seq<seq<Condition>>, ghost stack: seq<seq<Token>>)
    returns (joined: Condition?, good: bool, ghost nodes: seq<Condition>)
    requires Stacked(heads, stackChains) && StackContents(stackChains) == stack
    ensures Linked(joined, nodes) && (forall n <- nodes :: fresh(n)) && Contents(nodes) == Joined(stack)
    ensures good == !HeadIs(Joined(stack), False)
  {
    joined, nodes := JoinConditionStack(heads, stackChains);
    assert nodes != [] ==> Contents(nodes)[0] == nodes[0].Content();
    good := !(joined != null && joined.op == False);
  }

  /** Give the statement at hand its chain. */
  method SetCondition(cfg: Kconfig, joined: Condition?,
                      ghost done: seq<Kconfig>, ghost outs: seq<Outcome>, ghost attached: seq<seq<Condition>>,
                      ghost rest: seq<Kconfig>, ghost chains: seq<seq<Condition>>, ghost stmts: seq<Statement>,
                      ghost heads: seq<Condition>, ghost stackChains: seq<seq<Condition>>, ghost stack: seq<seq<Token>>,
                      ghost nodes: seq<Condition>, ghost ts: seq<Token>)
    requires Distinct(done + rest) && Disjoint(stackChains, attached, chains) && rest != [] && cfg == rest[0]
    requires |rest| == |chains| == |stmts| && Waiting(rest[1..], chains[1..], stmts[1..])
    requires Attached(done, attached, outs) && Stacked(heads, stackChains) && StackContents(stackChains) == stack
    requires Linked(joined, nodes) && Contents(nodes) == ts
    requires Nodes(nodes) !! AllNodes(stackChains) && Nodes(nodes) !! AllNodes(chains)
    modifies cfg`cond
    ensures Linked(cfg.cond, nodes) && Contents(nodes) == ts
    ensures Walk(done + [cfg], outs + [Attach(ts)], attached + [nodes], rest[1..], chains[1..], stmts[1..], heads, stackChains)
    ensures StackContents(stackChains) == stack
  {
    DistinctHead(done, rest);
    cfg.cond := joined;
    AttachJoined(cfg, done, outs, attached, rest, chains, stmts, heads, stackChains, nodes, ts);
  }

  /** A simple statement gets the join of the stack. */
  method StepSimple(cfg: Kconfig, heads: seq<Condition>,
                    ghost done: seq<Kconfig>, ghost outs: seq<Outcome>, ghost attached: seq<seq<Condition>>,
                    ghost rest: seq<Kconfig>, ghost chains: seq<seq<Condition>>, ghost stmts: seq<Statement>,
                    ghost stackChains: seq<seq<Condition>>, ghost stack: seq<seq<Token>>)
    returns (good: bool, ghost nodes: seq<Condition>)
    requires Walk(done, outs, attached, rest, chains, stmts, heads, stackChains) && StackContents(stackChains) == stack
    requires rest != [] && cfg == rest[0]
    modifies cfg`cond
    ensures good == !HeadIs(Joined(stack), False)
    ensures Walk(done + [cfg], outs + [Attach(Joined(stack))], attached + [nodes], rest[1..], chains[1..], stmts[1..],
                 heads, stackChains)
    ensures StackContents(stackChains) == stack
  {
    WaitingHead(rest, chains, stmts);
    var joined: Condition?;
    joined, good, nodes := JoinAndTest(heads, stackChains, stack);
    assert Nodes(nodes) !! AllNodes(stackChains) && Nodes(nodes) !! AllNodes(chains);
    SetCondition(cfg, joined, done, outs, attached, rest, chains, stmts, heads, stackChains, stack, nodes, Joined(stack));
  }

  /** A dependent statement gets the join of the stack and its own condition,
      which is folded in place first. */
  method StepDependent(cfg: Kconfig, heads: seq<Condition>, tab: Table,
                       ghost done: seq<Kconfig>, ghost outs: seq<Outcome>, ghost attached: seq<seq<Condition>>,
                       ghost rest: seq<Kconfig>, ghost chains: seq<seq<Condition>>, ghost stmts: seq<Statement>,
                       ghost stackChains: seq<seq<Condition>>, ghost stack: seq<seq<Token>>)
    returns (exited: bool, good: bool, ghost nodes: seq<Condition>)
    requires Walk(done, outs, attached, rest, chains, stmts, heads, stackChains) && StackContents(stackChains) == stack
    requires rest != [] && cfg == rest[0] && Closed(stmts[0].cond)
    modifies cfg`cond, chains[0]
    ensures exited <==> Eliminated(stmts[0].cond, tab).None?
    ensures !exited ==>
      (var ts := Joined(stack + [Eliminated(stmts[0].cond, tab).value]);
       good == !HeadIs(ts, False) &&
       Walk(done + [cfg], outs + [Attach(ts)], attached + [nodes], rest[1..], chains[1..], stmts[1..], heads, stackChains) &&
       StackContents(stackChains) == stack)
  {
    var r: Condition?;
    ghost var kept;
    good, nodes := true, [];
    exited, r, kept := EliminateHead(cfg, tab, done, outs, attached, rest, chains, stmts, heads, stackChains, stack);
    if !exited {
      ghost var folded := Eliminated(stmts[0].cond, tab).value;
      good, nodes := JoinDependent(cfg, heads, r, done, outs, attached, rest, chains, stmts, stackChains, stack, kept, folded);
    }
  }

  /** Join the stack with one more chain on top, and attach the result. */
  method JoinDependent(cfg: Kconfig, heads: seq<Condition>, r: Condition,
                       ghost done: seq<Kconfig>, ghost outs: seq<Outcome>, ghost attached: seq<seq<Condition>>,
                       ghost rest: seq<Kconfig>, ghost chains: seq<seq<Condition>>, ghost stmts: seq<Statement>,
                       ghost stackChains: seq<seq<Condition>>, ghost stack: seq<seq<Token>>,
                       ghost kept: seq<Condition>, ghost folded: seq<Token>)
    returns (good: bool, ghost nodes: seq<Condition>)
    requires Distinct(done + rest) && Disjoint(stackChains, attached, chains) && rest != [] && cfg == rest[0]
    requires |rest| == |chains| == |stmts| && Waiting(rest[1..], chains[1..], stmts[1..])
    requires Attached(done, attached, outs) && Stacked(heads, stackChains) && StackContents(stackChains) == stack
    requires Linked(r, kept) && Contents(kept) == folded
    modifies cfg`cond
    ensures var ts := Joined(stack + [folded]);
      && good == !HeadIs(ts, False)
      && Walk(done + [cfg], outs + [Attach(ts)], attached + [nodes], rest[1..], chains[1..], stmts[1..], heads, stackChains)
      && StackContents(stackChains) == stack
  {
    StackOneMore(heads, stackChains, r, kept);
    var joined: Condition?;
    joined, good, nodes := JoinAndTest(heads + [r], stackChains + [kept], stack + [folded]);
    assert Nodes(nodes) !! AllNodes(stackChains) && Nodes(nodes) !! AllNodes(chains);
    SetCondition(cfg, joined, done, outs, attached, rest, chains, stmts, heads, stackChains, stack, nodes,
                 Joined(stack + [folded]));
  }

  /** Fold the statement's own condition in place. */
  method EliminateHead(cfg: Kconfig, tab: Table,
                       ghost done: seq<Kconfig>, ghost outs: seq<Outcome>, ghost attached: seq<seq<Condition>>,
                       ghost rest: seq<Kconfig>, ghost chains: seq<seq<Condition>>, ghost stmts: seq<Statement>,
                       ghost heads: seq<Condition>, ghost stackChains: seq<seq<Condition>>, ghost stack: seq<seq<Token>>)
    returns (exited: bool, r: Condition?, ghost kept: seq<Condition>)
    requires Walk(done, outs, attached, rest, chains, stmts, heads, stackChains) && StackContents(stackChains) == stack
    requires rest != [] && cfg == rest[0] && Closed(stmts[0].cond)
    modifies chains[0]
    ensures exited <==> Eliminated(stmts[0].cond, tab).None?
    ensures !exited ==> r != null && Linked(r, kept) && Contents(kept) == Eliminated(stmts[0].cond, tab).value
    ensures Stacked(heads, stackChains) && StackContents(stackChains) == stack
    ensures Waiting(rest[1..], chains[1..], stmts[1..]) && Attached(done, attached, outs)
  {
    WaitingHead(rest, chains, stmts);
    SeparateHead(chains);
    assert AllNodes(stackChains) !! Nodes(chains[0]) && AllNodes(attached) !! Nodes(chains[0]);
    exited, r, kept := EliminateOtherArch(cfg.cond, chains[0], tab);
  }

  // ---------------------------------------------------------------------
  // fix_conditionals
  // ---------------------------------------------------------------------

  /** The statements that were kept. */
  ghost function Survivors(list: seq<Kconfig>, outs: seq<Outcome>): (r: seq<Kconfig>)
    requires |list| == |outs|
    ensures forall i :: 0 <= i < |r| ==> r[i] in list
  {
    if list == [] then [] else
    var n := |list| - 1;
    Survivors(list[..n], outs[..n]) + if outs[n].Kept? then [list[n]] else []
  }

  /** The survivors so far are linked, from `head` up to the statement at hand. */
  ghost predicate Relinked(head: Kconfig?, prev: Kconfig?, cfg: Kconfig?, alive: seq<Kconfig>)
    reads alive`next
  {
    prev == (if alive == [] then null else alive[|alive| - 1]) &&
    head == (if alive == [] then cfg else alive[0]) &&
    forall i {:trigger alive[i].next} :: 0 <= i < |alive| ==> alive[i].next == if i + 1 < |alive| then alive[i + 1] else cfg
  }

  /** Unlink the statement at hand, or step the local head past it. */
  method Unlink(head: Kconfig?, prev: Kconfig?, cfg: Kconfig, ghost alive: seq<Kconfig>, ghost rest: seq<Kconfig>)
    returns (r: Kconfig?)
    requires Relinked(head, prev, cfg, alive) && ListLinked(cfg, rest)
    requires Distinct(alive) && forall k <- alive :: k !in rest
    modifies (if prev == null then {} else {prev})`next
    ensures Relinked(r, prev, cfg.next, alive) && ListLinked(cfg, rest)
  {
    r := head;
    assert prev != null ==> prev in alive;
    if prev != null {
      prev.next := cfg.next;
    } else {
      r := cfg.next;
    }
    assert forall k <- rest :: k.next == old(k.next);
  }

  lemma {:induction false} RelinkedNext(head: Kconfig?, prev: Kconfig?, cfg: Kconfig, alive: seq<Kconfig>, rest: seq<Kconfig>)
    requires Relinked(head, prev, cfg, alive) && ListLinked(cfg, rest)
    ensures rest != [] && rest[0] == cfg && ListLinked(cfg.next, rest[1..])
    ensures Relinked(head, cfg, cfg.next, alive + [cfg])
  {
    assert rest[0].next == if 1 < |rest| then rest[1] else null;
    var tail := rest[1..];
    forall i {:trigger tail[i].next} | 0 <= i < |tail| ensures tail[i].next == if i + 1 < |tail| then tail[i + 1] else null {
      assert rest[i + 1].next == if i + 2 < |rest| then rest[i + 2] else null;
    }
    var all := alive + [cfg];
    forall i {:trigger all[i].next} | 0 <= i < |all|
      ensures all[i].next == if i + 1 < |all| then all[i + 1] else cfg.next
    {
      if i < |alive| { assert alive[i].next == if i + 1 < |alive| then alive[i + 1] else cfg; }
    }
  }

  /** The outcomes so far, in front of those of the rest. */
  function Prefixed(outs: seq<Outcome>, rest: Option<seq<Outcome>>): Option<seq<Outcome>> {
    if rest.None? then None else Some(outs + rest.value)
  }

  lemma {:induction false} PrefixOne(outs: seq<Outcome>, o: Outcome, rest: Option<seq<Outcome>>)
    ensures Prefixed(outs, Prepend(o, rest)) == Prefixed(outs + [o], rest)
  {
    if rest.Some? { assert outs + ([o] + rest.value) == outs + [o] + rest.value; }
  }

  // The function's own step, for each kind of statement.

  lemma {:induction false} FlattenedIf(outs: seq<Outcome>, stmts: seq<Statement>, stack: seq<seq<Token>>, tab: Table)
    requires stmts != [] && Runnable(stmts, |stack|) && stmts[0].token == IfToken
    ensures |stack| < MAX_DEPTH && Closed(stmts[0].cond) && Runnable(stmts[1..], |stack| + 1)
    ensures var goal := Prefixed(outs, Flattened(stmts, stack, tab));
      var e := Eliminated(stmts[0].cond, tab);
      if e.None? then goal.None?
      else goal == Prefixed(outs + [Kept([])], Flattened(stmts[1..], stack + [BangsRemoved(e.value)], tab))
  {
    var e := Eliminated(stmts[0].cond, tab);
    if e.Some? { PrefixOne(outs, Kept([]), Flattened(stmts[1..], stack + [BangsRemoved(e.value)], tab)); }
  }

  lemma {:induction false} FlattenedElse(outs: seq<Outcome>, stmts: seq<Statement>, stack: seq<seq<Token>>, tab: Table)
    requires stmts != [] && Runnable(stmts, |stack|) && stmts[0].token == ElseToken
    ensures stack != [] && Runnable(stmts[1..], |stack|)
    ensures var n := |stack| - 1;
      Prefixed(outs, Flattened(stmts, stack, tab)) ==
      Prefixed(outs + [Kept(stmts[0].cond)], Flattened(stmts[1..], stack[n := Inverted(stack[n])], tab))
  {
    var n := |stack| - 1;
    PrefixOne(outs, Kept(stmts[0].cond), Flattened(stmts[1..], stack[n := Inverted(stack[n])], tab));
  }

  lemma {:induction false} FlattenedFi(outs: seq<Outcome>, stmts: seq<Statement>, stack: seq<seq<Token>>, tab: Table)
    requires stmts != [] && Runnable(stmts, |stack|) && stmts[0].token == FiToken
    ensures stack != [] && Runnable(stmts[1..], |stack| - 1)
    ensures Prefixed(outs, Flattened(stmts, stack, tab)) ==
      Prefixed(outs + [Kept(stmts[0].cond)], Flattened(stmts[1..], stack[..|stack| - 1], tab))
  {
    PrefixOne(outs, Kept(stmts[0].cond), Flattened(stmts[1..], stack[..|stack| - 1], tab));
  }

  predicate JoinsStack(s: Statement) { IsSimple(s.token) || (IsDependent(s.token) && s.cond == []) }

  predicate JoinsMore(s: Statement) { IsDependent(s.token) && s.cond != [] }

  lemma {:induction false} FlattenedSimple(outs: seq<Outcome>, stmts: seq<Statement>, stack: seq<seq<Token>>, tab: Table)
    requires stmts != [] && Runnable(stmts, |stack|) && JoinsStack(stmts[0])
    ensures Runnable(stmts[1..], |stack|)
    ensures Prefixed(outs, Flattened(stmts, stack, tab)) ==
      Prefixed(outs + [Attach(Joined(stack))], Flattened(stmts[1..], stack, tab))
  {
    PrefixOne(outs, Attach(Joined(stack)), Flattened(stmts[1..], stack, tab));
  }

  lemma {:induction false} FlattenedDependent(outs: seq<Outcome>, stmts: seq<Statement>, stack: seq<seq<Token>>, tab: Table)
    requires stmts != [] && Runnable(stmts, |stack|) && JoinsMore(stmts[0])
    ensures Closed(stmts[0].cond) && Runnable(stmts[1..], |stack|)
    ensures var goal := Prefixed(outs, Flattened(stmts, stack, tab));
      var e := Eliminated(stmts[0].cond, tab);
      if e.None? then goal.None?
      else goal == Prefixed(outs + [Attach(Joined(stack + [e.value]))], Flattened(stmts[1..], stack, tab))
  {
    var e := Eliminated(stmts[0].cond, tab);
    if e.Some? { PrefixOne(outs, Attach(Joined(stack + [e.value])), Flattened(stmts[1..], stack, tab)); }
  }

  lemma {:induction false} FlattenedOther(outs: seq<Outcome>, stmts: seq<Statement>, stack: seq<seq<Token>>, tab: Table)
    requires stmts != [] && Runnable(stmts, |stack|) && stmts[0].token !in {IfToken, ElseToken, FiToken}
    requires !JoinsStack(stmts[0]) && !JoinsMore(stmts[0])
    ensures Runnable(stmts[1..], |stack|)
    ensures Prefixed(outs, Flattened(stmts, stack, tab)) ==
      Prefixed(outs + [Kept(stmts[0].cond)], Flattened(stmts[1..], stack, tab))
  {
    PrefixOne(outs, Kept(stmts[0].cond), Flattened(stmts[1..], stack, tab));
  }

  /** The walk between two statements: what has been passed and come out, what
      is to come, and the stack with its contents. */
  datatype Stage = Stage(done: seq<Kconfig>, outs: seq<Outcome>, attached: seq<seq<Condition>>,
                         rest: seq<Kconfig>, chains: seq<seq<Condition>>, stmts: seq<Statement>,
                         stackChains: seq<seq<Condition>>, stack: seq<seq<Token>>)

  ghost predicate Stands(s: Stage, heads: seq<Condition>)
    reads s.done`cond, s.rest`cond, AllNodes(s.attached), AllNodes(s.chains), AllNodes(s.stackChains)
  {
    Walk(s.done, s.outs, s.attached, s.rest, s.chains, s.stmts, heads, s.stackChains) &&
    StackContents(s.stackChains) == s.stack && Runnable(s.stmts, |s.stack|)
  }

  /** The outcomes in the end. */
  ghost function Result(s: Stage, tab: Table): Option<seq<Outcome>>
    requires Runnable(s.stmts, |s.stack|)
  {
    Prefixed(s.outs, Flattened(s.stmts, s.stack, tab))
  }

  /** The statement that comes next. */
  ghost predicate Comes(s: Stage, cfg: Kconfig)
  {
    s.rest != [] && cfg == s.rest[0] && s.stmts != [] && s.chains != [] && cfg.token == s.stmts[0].token
  }

  ghost function Passed(s: Stage, o: Outcome, chain: seq<Condition>, stackChains: seq<seq<Condition>>, stack: seq<seq<Token>>): Stage
    requires s.rest != [] && s.stmts != [] && s.chains != []
  {
    Stage(s.done + [s.rest[0]], s.outs + [o], s.attached + [chain], s.rest[1..], s.chains[1..], s.stmts[1..], stackChains, stack)
  }

  /** One statement further, whatever has become of it. */
  ghost predicate Follows(s: Stage, t: Stage, good: bool)
  {
    s.rest != [] && s.stmts != [] && s.chains != [] && |t.outs| == |s.outs| + 1 && |t.attached| == |s.attached| + 1 &&
    t == Passed(s, t.outs[|s.outs|], t.attached[|s.attached|], t.stackChains, t.stack) && good == t.outs[|s.outs|].Kept?
  }

  /** The stack has taken no nodes but those of the statement. */
  ghost predicate Keeps(s: Stage, t: Stage)
    requires s.chains != []
  {
    AllNodes(t.stackChains) <= AllNodes(s.stackChains) + Nodes(s.chains[0])
  }

  /** The switch on the token of a statement outside `if`, `else` and `fi`;
      `good` is cleared when the joined chain is the false one. */
  method DispatchPlain(cfg: Kconfig, heads: seq<Condition>, tab: Table, ghost s: Stage)
    returns (exited: bool, good: bool, ghost t: Stage)
    requires Stands(s, heads) && Comes(s, cfg) && cfg.token !in {IfToken, ElseToken, FiToken}
    modifies cfg`cond, s.chains[0]
    ensures exited ==> Result(s, tab).None?
    ensures !exited ==> Stands(t, heads) && Follows(s, t, good) && Result(t, tab) == Result(s, tab) && Keeps(s, t)
  {
    exited, good := false, true;
    ghost var o, chain := Kept(s.stmts[0].cond), s.chains[0];
    WaitingHead(s.rest, s.chains, s.stmts);
    if IsSimple(cfg.token) || (IsDependent(cfg.token) && cfg.cond == null) {
      FlattenedSimple(s.outs, s.stmts, s.stack, tab);
      good, chain := StepSimple(cfg, heads, s.done, s.outs, s.attached, s.rest, s.chains, s.stmts, s.stackChains, s.stack);
      o := Attach(Joined(s.stack));
    } else if IsDependent(cfg.token) {
      FlattenedDependent(s.outs, s.stmts, s.stack, tab);
      exited, good, chain :=
        StepDependent(cfg, heads, tab, s.done, s.outs, s.attached, s.rest, s.chains, s.stmts, s.stackChains, s.stack);
      o := if exited then Deleted else Attach(Joined(s.stack + [Eliminated(s.stmts[0].cond, tab).value]));
    } else {
      FlattenedOther(s.outs, s.stmts, s.stack, tab);
      PassHead(s.done, s.outs, s.attached, s.rest, s.chains, s.stmts, heads, s.stackChains);
    }
    t := Passed(s, o, chain, s.stackChains, s.stack);
  }

  /** The switch at token_if. */
  method DispatchIf(cfg: Kconfig, heads: seq<Condition>, tab: Table, ghost s: Stage)
    returns (exited: bool, heads': seq<Condition>, ghost t: Stage)
    requires Stands(s, heads) && Comes(s, cfg) && cfg.token == IfToken
    modifies cfg`cond, s.chains[0]
    ensures exited ==> Result(s, tab).None?
    ensures !exited ==> Stands(t, heads') && Follows(s, t, true) && Result(t, tab) == Result(s, tab) && Keeps(s, t)
  {
    FlattenedIf(s.outs, s.stmts, s.stack, tab);
    heads', t := heads, s;
    var r: Condition?;
    ghost var kept;
    exited, r, kept := StepIf(cfg, heads, tab, s.done, s.outs, s.attached, s.rest, s.chains, s.stmts, s.stackChains, s.stack);
    if !exited {
      heads' := heads + [r];
      t := Passed(s, Kept([]), [], s.stackChains + [kept], s.stack + [BangsRemoved(Eliminated(s.stmts[0].cond, tab).value)]);
      OneMoreChain(s.stackChains, kept);
    }
  }

  /** The switch at token_else. */
  method DispatchElse(cfg: Kconfig, heads: seq<Condition>, ghost tab: Table, ghost s: Stage) returns (ghost t: Stage)
    requires Stands(s, heads) && Comes(s, cfg) && cfg.token == ElseToken
    modifies AllNodes(s.stackChains)`op
    ensures Stands(t, heads) && Follows(s, t, true) && Result(t, tab) == Result(s, tab) && Keeps(s, t)
  {
    FlattenedElse(s.outs, s.stmts, s.stack, tab);
    StepElse(heads, s.done, s.outs, s.attached, s.rest, s.chains, s.stmts, s.stackChains, s.stack);
    PassHead(s.done, s.outs, s.attached, s.rest, s.chains, s.stmts, heads, s.stackChains);
    ghost var n := |s.stack| - 1;
    t := Passed(s, Kept(s.stmts[0].cond), s.chains[0], s.stackChains, s.stack[n := Inverted(s.stack[n])]);
  }

  /** The switch at token_fi. */
  method DispatchFi(cfg: Kconfig, heads: seq<Condition>, ghost tab: Table, ghost s: Stage)
    returns (heads': seq<Condition>, ghost t: Stage)
    requires Stands(s, heads) && Comes(s, cfg) && cfg.token == FiToken
    ensures Stands(t, heads') && Follows(s, t, true) && Result(t, tab) == Result(s, tab) && Keeps(s, t)
  {
    FlattenedFi(s.outs, s.stmts, s.stack, tab);
    PopStack(s.done, s.outs, s.attached, s.rest, s.chains, s.stmts, heads, s.stackChains);
    ghost var n := |s.stackChains| - 1;
    heads' := heads[..|heads| - 1];
    PassHead(s.done, s.outs, s.attached, s.rest, s.chains, s.stmts, heads', s.stackChains[..n]);
    t := Passed(s, Kept(s.stmts[0].cond), s.chains[0], s.stackChains[..n], s.stack[..n]);
  }

  /** The whole switch: what becomes of the statement and of the stack. */
  method Dispatch(cfg: Kconfig, heads: seq<Condition>, tab: Table, ghost s: Stage)
    returns (exited: bool, good: bool, heads': seq<Condition>, ghost t: Stage)
    requires Stands(s, heads) && Comes(s, cfg)
    modifies cfg`cond, s.chains[0], AllNodes(s.stackChains)`op
    ensures exited ==> Result(s, tab).None?
    ensures !exited ==> Stands(t, heads') && Follows(s, t, good) && Result(t, tab) == Result(s, tab) && Keeps(s, t)
  {
    exited, good, heads' := false, true, heads;
    if cfg.token == IfToken {
      exited, heads', t := DispatchIf(cfg, heads, tab, s);
    } else if cfg.token == ElseToken {
      t := DispatchElse(cfg, heads, tab, s);
    } else if cfg.token == FiToken {
      heads', t := DispatchFi(cfg, heads, tab, s);
    } else {
      exited, good, t := DispatchPlain(cfg, heads, tab, s);
    }
  }

  lemma {:induction false} SurvivorsApart(done: seq<Kconfig>, outs: seq<Outcome>, rest: seq<Kconfig>)
    requires |done| == |outs| && Distinct(done + rest)
    ensures Distinct(Survivors(done, outs)) && forall k <- Survivors(done, outs) :: k !in rest
    decreases |done|
  {
    var all := done + rest;
    forall i, j | 0 <= i < |done| && 0 <= j < |rest| ensures done[i] != rest[j] {
      assert all[i] == done[i] && all[|done| + j] == rest[j];
    }
    if done != [] {
      var n := |done| - 1;
      var tail := [done[n]] + rest;
      assert done[..n] + tail == all;
      SurvivorsApart(done[..n], outs[..n], tail);
      assert done[n] in tail;
    }
  }

  /** The list, from the survivors so far on to what is to come. */
  ghost predicate Listed(head: Kconfig?, prev: Kconfig?, cfg: Kconfig?, s: Stage)
    reads s.done`next, s.rest`next
  {
    |s.done| == |s.outs| && Distinct(s.done + s.rest) && Describes(s.rest, s.stmts) &&
    ListLinked(cfg, s.rest) && Relinked(head, prev, cfg, Survivors(s.done, s.outs))
  }

  /** The whole state at the top of the loop. */
  ghost predicate AtStatement(head: Kconfig?, prev: Kconfig?, cfg: Kconfig?, heads: seq<Condition>, s: Stage)
    reads s.done, s.rest, AllNodes(s.attached), AllNodes(s.chains), AllNodes(s.stackChains)
  {
    Stands(s, heads) && Listed(head, prev, cfg, s)
  }

  lemma {:induction false} SurvivorsOne(done: seq<Kconfig>, outs: seq<Outcome>, cfg: Kconfig, o: Outcome)
    requires |done| == |outs|
    ensures Survivors(done + [cfg], outs + [o]) == Survivors(done, outs) + if o.Kept? then [cfg] else []
  {
    assert (done + [cfg])[..|done|] == done && (outs + [o])[..|done|] == outs;
  }

  /** The list after the switch: the statement stays and becomes the last survivor,
      or it is unlinked. */
  method Relink(head: Kconfig?, prev: Kconfig?, cfg: Kconfig, good: bool,
                ghost done: seq<Kconfig>, ghost outs: seq<Outcome>, ghost rest: seq<Kconfig>, ghost o: Outcome)
    returns (head': Kconfig?, prev': Kconfig?, next: Kconfig?)
    requires |done| == |outs| && Distinct(done + rest) && good == o.Kept?
    requires ListLinked(cfg, rest) && Relinked(head, prev, cfg, Survivors(done, outs))
    modifies (if prev == null then {} else {prev})`next
    ensures rest != [] && ListLinked(next, rest[1..])
    ensures Relinked(head', prev', next, Survivors(done + [cfg], outs + [o]))
  {
    head', prev' := head, prev;
    ghost var alive := Survivors(done, outs);
    SurvivorsApart(done, outs, rest);
    SurvivorsOne(done, outs, cfg, o);
    assert forall i :: 0 <= i < |alive| ==> alive[i] in done;
    if good {
      prev' := cfg;
      RelinkedNext(head, prev, cfg, alive, rest);
    } else {
      head' := Unlink(head, prev, cfg, alive, rest);
      assert alive + [] == alive;
      ListTail(cfg, rest);
    }
    next := cfg.next;
  }

  lemma {:induction false} ListTail(cfg: Kconfig, rest: seq<Kconfig>)
    requires ListLinked(cfg, rest)
    ensures rest != [] && rest[0] == cfg && ListLinked(cfg.next, rest[1..])
  {
    var tail := rest[1..];
    assert rest[0].next == if 1 < |rest| then rest[1] else null;
    forall i {:trigger tail[i].next} | 0 <= i < |tail| ensures tail[i].next == if i + 1 < |tail| then tail[i + 1] else null {
      assert rest[i + 1].next == if i + 2 < |rest| then rest[i + 2] else null;
    }
  }

  ghost function AsObject(o: object): object { o }

  method RelinkListed(head: Kconfig?, prev: Kconfig?, cfg: Kconfig, good: bool, ghost s: Stage, ghost t: Stage)
    returns (head': Kconfig?, prev': Kconfig?, next: Kconfig?)
    requires Listed(head, prev, cfg, s) && Follows(s, t, good)
    modifies (if prev == null then {} else {prev})`next
    ensures Listed(head', prev', next, t)
  {
    head', prev', next := Relink(head, prev, cfg, good, s.done, s.outs, s.rest, t.outs[|s.outs|]);
    assert s.done + s.rest == t.done + t.rest;
  }

  /** Relinking the list leaves the conditions alone: those to come, */
  method RelinkWaiting(head: Kconfig?, prev: Kconfig?, cfg: Kconfig, good: bool, ghost s: Stage, ghost t: Stage)
    returns (head': Kconfig?, prev': Kconfig?, next: Kconfig?)
    requires Listed(head, prev, cfg, s) && Follows(s, t, good) && Waiting(t.rest, t.chains, t.stmts)
    modifies (if prev == null then {} else {prev})`next
    ensures Listed(head', prev', next, t) && Waiting(t.rest, t.chains, t.stmts)
  {
    assert prev != null ==> forall c :: c in AllNodes(t.chains) ==> AsObject(c) != AsObject(prev);
    head', prev', next := RelinkListed(head, prev, cfg, good, s, t);
  }

  /** and those attached, */
  method RelinkAttached(head: Kconfig?, prev: Kconfig?, cfg: Kconfig, good: bool, ghost s: Stage, ghost t: Stage)
    returns (head': Kconfig?, prev': Kconfig?, next: Kconfig?)
    requires Listed(head, prev, cfg, s) && Follows(s, t, good)
    requires Waiting(t.rest, t.chains, t.stmts) && Attached(t.done, t.attached, t.outs)
    modifies (if prev == null then {} else {prev})`next
    ensures Listed(head', prev', next, t) && Waiting(t.rest, t.chains, t.stmts) && Attached(t.done, t.attached, t.outs)
  {
    assert prev != null ==> forall c :: c in AllNodes(t.attached) ==> AsObject(c) != AsObject(prev);
    head', prev', next := RelinkWaiting(head, prev, cfg, good, s, t);
  }

  /** and the stack. */
  method RelinkStatement(head: Kconfig?, prev: Kconfig?, cfg: Kconfig, good: bool, ghost heads: seq<Condition>,
                         ghost s: Stage, ghost t: Stage)
    returns (head': Kconfig?, prev': Kconfig?, next: Kconfig?)
    requires Listed(head, prev, cfg, s) && Follows(s, t, good) && Stands(t, heads)
    modifies (if prev == null then {} else {prev})`next
    ensures AtStatement(head', prev', next, heads, t)
  {
    assert prev != null ==> forall c :: c in AllNodes(t.stackChains) ==> AsObject(c) != AsObject(prev);
    head', prev', next := RelinkAttached(head, prev, cfg, good, s, t);
  }

  /** The switch leaves the list alone. */
  method DispatchListed(head: Kconfig?, prev: Kconfig?, cfg: Kconfig, heads: seq<Condition>, tab: Table, ghost s: Stage)
    returns (exited: bool, good: bool, heads': seq<Condition>, ghost t: Stage)
    requires Stands(s, heads) && Comes(s, cfg) && Listed(head, prev, cfg, s)
    modifies cfg`cond, s.chains[0], AllNodes(s.stackChains)`op
    ensures Listed(head, prev, cfg, s)
    ensures exited ==> Result(s, tab).None?
    ensures !exited ==> Stands(t, heads') && Follows(s, t, good) && Result(t, tab) == Result(s, tab) && Keeps(s, t)
  {
    assert forall k :: k in s.done + s.rest ==> AsObject(k) !in Objects(s.chains[0]);
    exited, good, heads', t := Dispatch(cfg, heads, tab, s);
  }

  ghost function Objects(chain: seq<Condition>): set<object> { set c <- chain }

  lemma {:induction false} NextComes(head: Kconfig?, prev: Kconfig?, cfg: Kconfig, heads: seq<Condition>, s: Stage)
    requires AtStatement(head, prev, cfg, heads, s)
    ensures Comes(s, cfg)
  {}

  /** What the loop needs of a step. */
  ghost predicate Advances(s: Stage, t: Stage) {
    s.chains != [] && t.done + t.rest == s.done + s.rest && |t.rest| < |s.rest| && t.chains == s.chains[1..] && Keeps(s, t)
  }

  lemma {:induction false} FollowingAdvances(s: Stage, t: Stage, good: bool)
    requires Follows(s, t, good) && Keeps(s, t)
    ensures Advances(s, t)
  {}

  /** One turn of the loop. */
  method Turn(head: Kconfig?, prev: Kconfig?, cfg: Kconfig, heads: seq<Condition>, tab: Table, ghost s: Stage)
    returns (exited: bool, head': Kconfig?, prev': Kconfig?, next: Kconfig?, heads': seq<Condition>, ghost t: Stage)
    requires AtStatement(head, prev, cfg, heads, s)
    modifies (if prev == null then {} else {prev})`next, cfg`cond, s.chains[0], AllNodes(s.stackChains)`op
    ensures Comes(s, cfg)
    ensures exited ==> Result(s, tab).None?
    ensures !exited ==> AtStatement(head', prev', next, heads', t) && Result(t, tab) == Result(s, tab)
    ensures !exited ==> Advances(s, t)
  {
    NextComes(head, prev, cfg, heads, s);
    head', prev', next := head, prev, cfg;
    var good;
    exited, good, heads', t := DispatchListed(head, prev, cfg, heads, tab, s);
    if !exited {
      FollowingAdvances(s, t, good);
      head', prev', next := RelinkStatement(head, prev, cfg, good, heads', s, t);
    }
  }

  /** The state, within the whole list, and what is left to compute. */
  ghost predicate Progress(head: Kconfig?, prev: Kconfig?, cfg: Kconfig?, heads: seq<Condition>, s: Stage,
                           list: seq<Kconfig>, chains: seq<seq<Condition>>, tab: Table, goal: Option<seq<Outcome>>)
    reads s.done, s.rest, AllNodes(s.attached), AllNodes(s.chains), AllNodes(s.stackChains)
  {
    AtStatement(head, prev, cfg, heads, s) && s.done + s.rest == list &&
    AllNodes(s.stackChains) <= AllNodes(chains) && AllNodes(s.chains) <= AllNodes(chains) && Result(s, tab) == goal
  }

  lemma {:induction false} WalkStarts(scfg: Kconfig?, list: seq<Kconfig>, chains: seq<seq<Condition>>, stmts: seq<Statement>, tab: Table)
    requires ListLinked(scfg, list) && Describes(list, stmts) && Waiting(list, chains, stmts) && Separate(chains)
    requires Runnable(stmts, 0)
    ensures Progress(scfg, null, scfg, [], Stage([], [], [], list, chains, stmts, [], []), list, chains, tab, Flattened(stmts, [], tab))
  {
    var s := Stage([], [], [], list, chains, stmts, [], []);
    StandsFirst(s);
    ListedFirst(scfg, s);
    ResultFirst(stmts, tab);
  }

  lemma {:induction false} StandsFirst(s: Stage)
    requires s == Stage([], [], [], s.rest, s.chains, s.stmts, [], []) && Distinct(s.rest)
    requires Waiting(s.rest, s.chains, s.stmts) && Separate(s.chains) && Runnable(s.stmts, 0)
    ensures Stands(s, [])
  {
    assert [] + s.rest == s.rest;
    assert AllNodes(s.stackChains) == {} && AllNodes(s.attached) == {} && StackContents(s.stackChains) == s.stack;
    assert Attached(s.done, s.attached, s.outs) && Stacked([], s.stackChains);
  }

  lemma {:induction false} ListedFirst(scfg: Kconfig?, s: Stage)
    requires s == Stage([], [], [], s.rest, s.chains, s.stmts, [], []) && ListLinked(scfg, s.rest) && Describes(s.rest, s.stmts)
    ensures Listed(scfg, null, scfg, s) && s.done + s.rest == s.rest && AllNodes(s.stackChains) == {}
  {
    assert [] + s.rest == s.rest;
  }

  lemma {:induction false} ResultFirst(stmts: seq<Statement>, tab: Table)
    requires Runnable(stmts, 0)
    ensures Prefixed([], Flattened(stmts, [], tab)) == Flattened(stmts, [], tab)
  {
    var r := Flattened(stmts, [], tab);
    if r.Some? { assert [] + r.value == r.value; }
  }

  lemma {:induction false} WalkEnds(head: Kconfig?, prev: Kconfig?, heads: seq<Condition>, s: Stage,
                                    list: seq<Kconfig>, chains: seq<seq<Condition>>, tab: Table, goal: Option<seq<Outcome>>)
    requires Progress(head, prev, null, heads, s, list, chains, tab, goal)
    ensures goal == Some(s.outs) && Attached(list, s.attached, s.outs)
    ensures list == [] || s.outs[0].Kept? ==> ListLinked(if list == [] then null else list[0], Survivors(list, s.outs))
  {
    assert s.rest == [] && s.stmts == [] && s.done == list;
    assert s.outs + [] == s.outs;
    assert list + s.rest == list;
    SurvivorsApart(list, s.outs, s.rest);
    if list != [] && s.outs[0].Kept? { FirstSurvivor(list, s.outs); }
  }

  lemma {:induction false} FirstSurvivor(list: seq<Kconfig>, outs: seq<Outcome>)
    requires |list| == |outs| && list != [] && outs[0].Kept?
    ensures Survivors(list, outs) != [] && Survivors(list, outs)[0] == list[0]
    decreases |list|
  {
    if |list| > 1 { FirstSurvivor(list[..|list| - 1], outs[..|list| - 1]); }
  }

  /** A turn writes to the list and to the chains only. */
  method TurnInList(head: Kconfig?, prev: Kconfig?, cfg: Kconfig, heads: seq<Condition>, tab: Table, ghost s: Stage,
                    ghost list: seq<Kconfig>, ghost chains: seq<seq<Condition>>)
    returns (exited: bool, head': Kconfig?, prev': Kconfig?, next: Kconfig?, heads': seq<Condition>, ghost t: Stage)
    requires AtStatement(head, prev, cfg, heads, s) && cfg in list && (prev != null ==> prev in list)
    requires s.chains != [] && Nodes(s.chains[0]) <= AllNodes(chains) && AllNodes(s.stackChains) <= AllNodes(chains)
    modifies list, AllNodes(chains)
    ensures exited ==> Result(s, tab).None?
    ensures !exited ==> AtStatement(head', prev', next, heads', t) && Result(t, tab) == Result(s, tab)
    ensures !exited ==> Advances(s, t)
  {
    exited, head', prev', next, heads', t := Turn(head, prev, cfg, heads, tab, s);
  }

  method TurnWithin(head: Kconfig?, prev: Kconfig?, cfg: Kconfig, heads: seq<Condition>, tab: Table, ghost s: Stage,
                    ghost list: seq<Kconfig>, ghost chains: seq<seq<Condition>>, ghost goal: Option<seq<Outcome>>)
    returns (exited: bool, head': Kconfig?, prev': Kconfig?, next: Kconfig?, heads': seq<Condition>, ghost t: Stage)
    requires Progress(head, prev, cfg, heads, s, list, chains, tab, goal)
    modifies list, AllNodes(chains)
    ensures exited ==> goal.None?
    ensures !exited ==> Progress(head', prev', next, heads', t, list, chains, tab, goal) && |t.rest| < |s.rest|
  {
    WithinList(prev, cfg, s.done, s.outs, s.rest, list);
    HeadWithin(s.chains, chains);
    exited, head', prev', next, heads', t := TurnInList(head, prev, cfg, heads, tab, s, list, chains);
    if !exited { StaysWithin(s, t, list, chains); }
  }

  lemma {:induction false} HeadWithin(cs: seq<seq<Condition>>, chains: seq<seq<Condition>>)
    requires cs != [] && AllNodes(cs) <= AllNodes(chains)
    ensures Nodes(cs[0]) <= AllNodes(chains)
  {
    HeadChain(cs);
  }

  lemma {:induction false} StaysWithin(s: Stage, t: Stage, list: seq<Kconfig>, chains: seq<seq<Condition>>)
    requires Advances(s, t) && s.done + s.rest == list
    requires AllNodes(s.stackChains) <= AllNodes(chains) && AllNodes(s.chains) <= AllNodes(chains)
    ensures t.done + t.rest == list && AllNodes(t.stackChains) <= AllNodes(chains) && AllNodes(t.chains) <= AllNodes(chains)
  {
    HeadChain(s.chains);
  }

  lemma {:induction false} WithinList(prev: Kconfig?, cfg: Kconfig, done: seq<Kconfig>, outs: seq<Outcome>,
                                      rest: seq<Kconfig>, list: seq<Kconfig>)
    requires done + rest == list && |done| == |outs| && rest != [] && cfg == rest[0]
    requires prev == var alive := Survivors(done, outs); if alive == [] then null else alive[|alive| - 1]
    ensures cfg in list && (prev != null ==> prev in list)
  {
    assert list[|done|] == cfg;
    if prev != null {
      var alive := Survivors(done, outs);
      var i :| 0 <= i < |done| && done[i] == alive[|alive| - 1];
      assert list[i] == prev;
    }
  }

  /** The loop of fix_conditionals, over the whole list. */
  method WalkStatements(scfg: Kconfig?, tab: Table,
                        ghost list: seq<Kconfig>, ghost chains: seq<seq<Condition>>, ghost stmts: seq<Statement>)
    returns (exited: bool, ghost outs: seq<Outcome>, ghost attached: seq<seq<Condition>>)
    requires ListLinked(scfg, list) && Describes(list, stmts) && Waiting(list, chains, stmts) && Separate(chains)
    requires Runnable(stmts, 0)
    modifies list, AllNodes(chains)
    ensures exited ==> Flattened(stmts, [], tab).None?
    ensures !exited ==> Flattened(stmts, [], tab) == Some(outs) && Attached(list, attached, outs)
    ensures !exited && (list == [] || outs[0].Kept?) ==> ListLinked(scfg, Survivors(list, outs))
  {
    var head, prev, cfg: Kconfig?, cond_stack: seq<Condition> := scfg, null, scfg, [];
    ghost var s := Stage([], [], [], list, chains, stmts, [], []);
    ghost var goal := Flattened(stmts, [], tab);
    outs, attached := [], [];
    WalkStarts(scfg, list, chains, stmts, tab);
    while cfg != null
      invariant Progress(head, prev, cfg, cond_stack, s, list, chains, tab, goal)
      decreases |s.rest|
    {
      exited, head, prev, cfg, cond_stack, s := TurnWithin(head, prev, cfg, cond_stack, tab, s, list, chains, goal);
      if exited { return; }
    }
    exited := false;
    WalkEnds(head, prev, cond_stack, s, list, chains, tab, goal);
    outs, attached := s.outs, s.attached;
  }

  predicate Joins(s: Statement) { IsSimple(s.token) || IsDependent(s.token) }

  /** Statement `k` is kept, with a condition that holds, exactly when it is reached. */
  predicate FaithfulAt(stmts: seq<Statement>, outs: seq<Outcome>, conds: seq<seq<Token>>, env: Env, k: nat)
    requires |stmts| == |outs| == |conds| && k < |stmts|
  {
    Reached(stmts, [], env)[k] <==> outs[k].Kept? && Runs(conds[k], env)
  }

  /** What the pass promises of the finished list, under every admissible assignment. */
  ghost predicate Faithful(stmts: seq<Statement>, outs: seq<Outcome>, conds: seq<seq<Token>>, tab: Table)
    requires |stmts| == |outs| == |conds|
  {
    forall env, k :: Admissible(env, tab) && 0 <= k < |stmts| && Joins(stmts[k]) ==> FaithfulAt(stmts, outs, conds, env, k)
  }

  /** fix_conditionals. The variables the script defines are marked; the program
      exits only where the pass does; otherwise every kept statement carries its
      outcome's chain and the caller's list is the list of the kept statements. On
      well-nested convertible scripts there is no exit and the list is faithful. */
  method FixConditionals(scfg: Kconfig?, vars: VariableTable,
                         ghost list: seq<Kconfig>, ghost chains: seq<seq<Condition>>, ghost stmts: seq<Statement>)
    returns (exited: bool, ghost outs: seq<Outcome>, ghost attached: seq<seq<Condition>>)
    requires ListLinked(scfg, list) && Describes(list, stmts) && Waiting(list, chains, stmts) && Separate(chains)
    requires Runnable(stmts, 0)
    modifies vars, list, AllNodes(chains)
    ensures vars.defined == Defined(stmts)
    ensures exited ==> Flattened(stmts, [], Table(vars.name, Defined(stmts))).None?
    ensures !exited ==> Flattened(stmts, [], Table(vars.name, Defined(stmts))) == Some(outs) && Attached(list, attached, outs)
    ensures !exited && (list == [] || outs[0].Kept?) ==> ListLinked(scfg, Survivors(list, outs))
    ensures WellNested(stmts, []) && Convertible(stmts, Table(vars.name, Defined(stmts))) ==>
      !exited && ListLinked(scfg, Survivors(list, outs)) &&
      Faithful(stmts, outs, StackContents(attached), Table(vars.name, Defined(stmts)))
  {
    MarkVariables(scfg, vars, list, stmts);
    var tab := Table(vars.name, vars.defined);
    exited, outs, attached := WalkStatements(scfg, tab, list, chains, stmts);
    if WellNested(stmts, []) && Convertible(stmts, tab) {
      NoExit(stmts, tab);
      IsFaithful(stmts, outs, StackContents(attached), tab);
    }
  }

  lemma {:induction false} NoExit(stmts: seq<Statement>, tab: Table)
    requires WellNested(stmts, []) && Convertible(stmts, tab) && Runnable(stmts, 0)
    ensures Flattened(stmts, [], tab).Some?
  {
    FlatteningPreservesMeaning(stmts, tab, SomeEnv(tab));
  }

  /** An admissible assignment. */
  ghost function SomeEnv(tab: Table): (env: Env)
    ensures Admissible(env, tab)
  {
    v => if tab.name(v) == "ARCH" then CURRENT_ARCH else ""
  }

  lemma {:induction false} IsFaithful(stmts: seq<Statement>, outs: seq<Outcome>, conds: seq<seq<Token>>, tab: Table)
    requires WellNested(stmts, []) && Convertible(stmts, tab) && Runnable(stmts, 0)
    requires Flattened(stmts, [], tab) == Some(outs) && |conds| == |outs|
    requires forall k :: 0 <= k < |outs| && outs[k].Kept? ==> conds[k] == outs[k].cond
    ensures Faithful(stmts, outs, conds, tab) && (stmts != [] ==> outs[0].Kept?)
  {
    forall env, k | Admissible(env, tab) && 0 <= k < |stmts| && Joins(stmts[k])
      ensures FaithfulAt(stmts, outs, conds, env, k)
    {
      FlatteningPreservesMeaning(stmts, tab, env);
    }
    if stmts != [] { HeadKept(stmts, tab); }
  }
}
