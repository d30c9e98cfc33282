/** The pass as the program runs it: linked condition nodes rewritten in place. */
module TkCond {
  import opened Conditions
  import opened Inversion
  import opened ArchFolding
  import opened Joining

  class Condition {
    var next: Condition?
    var op: Op
    var str: string
    var nameindex: int

    constructor (op: Op)
      ensures next == null && Content() == Sym(op)
    {
      next, this.op, str, nameindex := null, op, "", 0;
    }

    function Content(): Token
      reads `op, `str, `nameindex
    {
      Token(op, str, nameindex)
    }
  }

  /** `nodes` are the nodes of the list at `head`, in order. */
  ghost predicate Linked(head: Condition?, nodes: seq<Condition>)
    reads nodes`next
  {
    head == (if nodes == [] then null else nodes[0]) &&
    (forall i {:trigger nodes[i].next} :: 0 <= i < |nodes| ==> nodes[i].next == if i + 1 < |nodes| then nodes[i + 1] else null) &&
    forall i, j :: 0 <= i < j < |nodes| ==> nodes[i] != nodes[j]
  }

  ghost function Contents(nodes: seq<Condition>): (ts: seq<Token>)
    reads nodes
    ensures |ts| == |nodes|
    ensures forall i :: 0 <= i < |nodes| ==> ts[i] == nodes[i].Content()
  {
    seq(|nodes|, i requires 0 <= i < |nodes| reads nodes => nodes[i].Content())
  }

  // ---------------------------------------------------------------------
  // remove_bang
  // ---------------------------------------------------------------------

  /** `at` picks nodes in list order, and the picked nodes are linked up to `tail`. */
  ghost predicate Picked(head: Condition?, nodes: seq<Condition>, at: seq<nat>, bound: nat, tail: Condition?)
    reads nodes
  {
    (forall i :: 0 <= i < |at| ==> at[i] < bound <= |nodes|) &&
    (forall i, j :: 0 <= i < j < |at| ==> at[i] < at[j]) &&
    head == (if at == [] then tail else nodes[at[0]]) &&
    forall i {:trigger nodes[at[i]].next} :: 0 <= i < |at| ==> nodes[at[i]].next == if i + 1 < |at| then nodes[at[i + 1]] else tail
  }

  ghost predicate Holding(nodes: seq<Condition>, at: seq<nat>, bound: nat, ts: seq<Token>)
    reads nodes
  {
    |ts| == |at| && bound <= |nodes| &&
    forall i {:trigger at[i]} :: 0 <= i < |at| ==> at[i] < bound && nodes[at[i]].Content() == ts[i]
  }

  lemma {:induction false} HoldOne(nodes: seq<Condition>, at: seq<nat>, bound: nat, ts: seq<Token>, k: nat)
    requires Holding(nodes, at, bound, ts) && bound <= k < |nodes|
    ensures Holding(nodes, at + [k], k + 1, ts + [nodes[k].Content()])
  {}

  ghost predicate Untouched(nodes: seq<Condition>, k: nat, was: seq<Token>)
    reads nodes
  {
    |was| == |nodes| &&
    (forall i {:trigger nodes[i].Content()} :: k <= i < |nodes| ==> nodes[i].Content() == was[i]) &&
    forall i {:trigger nodes[i].next} :: k <= i < |nodes| ==>
      nodes[i].next == if i + 1 < |nodes| then nodes[i + 1] else null
  }

  ghost function Nodes(chain: seq<Condition>): set<Condition> { set c | c in chain }

  predicate Apart(nodes: seq<Condition>) { forall i, j :: 0 <= i < j < |nodes| ==> nodes[i] != nodes[j] }

  ghost function Pick(nodes: seq<Condition>, at: seq<nat>): (r: seq<Condition>)
    requires forall i :: 0 <= i < |at| ==> at[i] < |nodes|
    ensures |r| == |at| && forall i :: 0 <= i < |at| ==> r[i] == nodes[at[i]]
  {
    seq(|at|, i requires 0 <= i < |at| => nodes[at[i]])
  }

  lemma {:induction false} PickOne(head: Condition?, nodes: seq<Condition>, at: seq<nat>, bound: nat, k: nat)
    requires bound <= k < |nodes| && Picked(head, nodes, at, bound, nodes[k])
    ensures Picked(head, nodes, at + [k], k + 1, nodes[k].next)
  {
    var more := at + [k];
    forall i | 0 <= i < |more|
      ensures nodes[more[i]].next == if i + 1 < |more| then nodes[more[i + 1]] else nodes[k].next
    {
      if i < |at| { assert nodes[at[i]].next == if i + 1 < |at| then nodes[at[i + 1]] else nodes[k]; }
    }
  }

  /** The loop has passed `k` nodes, kept those at `at`, and stands on `conda`. */
  ghost predicate Scanned(head: Condition?, conda: Condition?, nodes: seq<Condition>, at: seq<nat>, k: nat, was: seq<Token>)
    reads nodes
  {
    Apart(nodes) && k <= |nodes| && conda == (if k < |nodes| then nodes[k] else null) &&
    Untouched(nodes, k, was) && Picked(head, nodes, at, k, conda) &&
    exists done :: Holding(nodes, at, k, done) && done + BangsRemoved(was[k..]) == BangsRemoved(was)
  }

  /** The body of the loop where a bang stands before a comparison: the
      comparison flips and the bang's node is unlinked. */
  method CutBang(head: Condition?, prev: Condition?, conda: Condition,
                 ghost nodes: seq<Condition>, ghost at: seq<nat>, ghost k: nat, ghost was: seq<Token>)
    returns (r: Condition?, condb: Condition)
    requires Scanned(head, conda, nodes, at, k, was) && k < |nodes| && BangAt(was[k..])
    requires prev == if at == [] then null else nodes[at[|at| - 1]]
    modifies nodes
    ensures k + 2 < |nodes| && condb == nodes[k + 2]
    ensures Scanned(r, condb.next, nodes, at + [k + 1] + [k + 2], k + 3, was)
  {
    ghost var done :| Holding(nodes, at, k, done) && done + BangsRemoved(was[k..]) == BangsRemoved(was);
    r := head;
    assert conda.next == nodes[k + 1] && nodes[k + 1].next == nodes[k + 2];
    assert nodes[k + 1].Content() == was[k + 1] && nodes[k + 2].Content() == was[k + 2];
    condb := conda.next.next;
    condb.op := if condb.op == Eq then Neq else Eq;
    conda.op := Nuked;
    assert Picked(r, nodes, at, k, conda) && Holding(nodes, at, k, done) && Untouched(nodes, k + 3, was);
    if prev != null {
      prev.next := conda.next;
    } else {
      r := conda.next;
    }
    conda.next := null;
    CutScanned(r, nodes, at, k, was, done);
  }

  lemma {:induction false} CutScanned(head: Condition?, nodes: seq<Condition>, at: seq<nat>, k: nat, was: seq<Token>, done: seq<Token>)
    requires Apart(nodes) && k + 2 < |nodes| && Untouched(nodes, k + 3, was) && BangAt(was[k..])
    requires Picked(head, nodes, at, k, nodes[k + 1]) && Holding(nodes, at, k, done)
    requires nodes[k + 1].next == nodes[k + 2] && nodes[k + 2].next == if k + 3 < |nodes| then nodes[k + 3] else null
    requires nodes[k + 1].Content() == was[k + 1] && nodes[k + 2].Content() == was[k + 2].(op := Toggle(was[k + 2].op))
    requires done + BangsRemoved(was[k..]) == BangsRemoved(was)
    ensures Scanned(head, nodes[k + 2].next, nodes, at + [k + 1] + [k + 2], k + 3, was)
  {
    PickTwo(head, nodes, at, k, done);
    CutBangMeaning(was, k, done);
  }

  lemma {:induction false} PickTwo(head: Condition?, nodes: seq<Condition>, at: seq<nat>, k: nat, done: seq<Token>)
    requires k + 2 < |nodes| && Picked(head, nodes, at, k, nodes[k + 1]) && nodes[k + 1].next == nodes[k + 2]
    requires Holding(nodes, at, k, done)
    ensures Picked(head, nodes, at + [k + 1] + [k + 2], k + 3, nodes[k + 2].next)
    ensures Holding(nodes, at + [k + 1] + [k + 2], k + 3, done + [nodes[k + 1].Content(), nodes[k + 2].Content()])
  {
    PickOne(head, nodes, at, k, k + 1);
    PickOne(head, nodes, at + [k + 1], k + 2, k + 2);
    HoldOne(nodes, at, k, done, k + 1);
    HoldOne(nodes, at + [k + 1], k + 2, done + [nodes[k + 1].Content()], k + 2);
    assert done + [nodes[k + 1].Content()] + [nodes[k + 2].Content()] == done + [nodes[k + 1].Content(), nodes[k + 2].Content()];
  }

  lemma {:induction false} CutBangMeaning(was: seq<Token>, k: nat, done: seq<Token>)
    requires k < |was| && BangAt(was[k..])
    ensures var more := [was[k + 1], was[k + 2].(op := Toggle(was[k + 2].op))];
      done + BangsRemoved(was[k..]) == (done + more) + BangsRemoved(was[k + 3..])
  {
    assert was[k..][3..] == was[k + 3..];
  }

  lemma {:induction false} KeepNode(head: Condition?, conda: Condition, nodes: seq<Condition>, at: seq<nat>, k: nat, was: seq<Token>)
    requires Scanned(head, conda, nodes, at, k, was) && k < |nodes| && !BangAt(was[k..])
    ensures Scanned(head, conda.next, nodes, at + [k], k + 1, was)
  {
    var done :| Holding(nodes, at, k, done) && done + BangsRemoved(was[k..]) == BangsRemoved(was);
    PickOne(head, nodes, at, k, k);
    HoldOne(nodes, at, k, done, k);
    assert was[k..][1..] == was[k + 1..];
    assert nodes[k].Content() == was[k];
    assert done + BangsRemoved(was[k..]) == (done + [was[k]]) + BangsRemoved(was[k + 1..]);
  }

  /** The guard of the loop, read off the list, is the guard of the rewrite. */
  lemma {:induction false} GuardIsBangAt(head: Condition?, conda: Condition, nodes: seq<Condition>, at: seq<nat>, k: nat, was: seq<Token>)
    requires Scanned(head, conda, nodes, at, k, was) && k < |nodes|
    ensures BangAt(was[k..]) == (conda.op == Bang && conda.next != null && conda.next.next != null &&
                                 (conda.next.next.op == Eq || conda.next.next.op == Neq))
    ensures conda in nodes && (conda.next != null ==> conda.next in nodes)
  {
    assert nodes[k].Content() == was[k];
    if k + 2 < |nodes| { assert nodes[k + 2].Content() == was[k + 2]; }
  }

  /** The body of the loop; `condb` is the last node kept so far. */
  method ScanNode(head: Condition?, prev: Condition?, conda: Condition,
                  ghost nodes: seq<Condition>, ghost at: seq<nat>, ghost k: nat, ghost was: seq<Token>)
    returns (r: Condition?, condb: Condition, ghost more: seq<nat>, ghost j: nat)
    requires Scanned(head, conda, nodes, at, k, was) && k < |nodes|
    requires prev == if at == [] then null else nodes[at[|at| - 1]]
    modifies nodes
    ensures Scanned(r, condb.next, nodes, more, j, was) && k < j <= |nodes|
    ensures more != [] && more[|more| - 1] < |nodes| && condb == nodes[more[|more| - 1]]
  {
    GuardIsBangAt(head, conda, nodes, at, k, was);
    if conda.op == Bang && conda.next != null && conda.next.next != null &&
       (conda.next.next.op == Eq || conda.next.next.op == Neq)
    {
      r, condb := CutBang(head, prev, conda, nodes, at, k, was);
      more, j := at + [k + 1] + [k + 2], k + 3;
    } else {
      KeepNode(head, conda, nodes, at, k, was);
      r, condb, more, j := head, conda, at + [k], k + 1;
    }
  }

  method RemoveBang(condition: Condition?, ghost nodes: seq<Condition>)
    returns (r: Condition?, ghost kept: seq<Condition>)
    requires Linked(condition, nodes)
    modifies nodes
    ensures Linked(r, kept) && forall n <- kept :: n in nodes
    ensures Contents(kept) == BangsRemoved(old(Contents(nodes)))
  {
    r := condition;
    var prev: Condition?, conda := null, condition;
    ghost var was := Contents(nodes);
    ghost var at: seq<nat>, k: nat := [], 0;
    ScanStarts(condition, nodes);
    while conda != null
      invariant Scanned(r, conda, nodes, at, k, was)
      invariant prev == if at == [] then null else nodes[at[|at| - 1]]
      decreases |nodes| - k
    {
      r, prev, at, k := ScanNode(r, prev, conda, nodes, at, k, was);
      conda := prev.next;
    }
    kept := Pick(nodes, at);
    ScanEnds(r, nodes, at, k, was);
  }

  lemma {:induction false} ScanStarts(head: Condition?, nodes: seq<Condition>)
    requires Linked(head, nodes)
    ensures Scanned(head, head, nodes, [], 0, Contents(nodes))
  {
    var was := Contents(nodes);
    assert Holding(nodes, [], 0, []) && was[0..] == was && [] + BangsRemoved(was) == BangsRemoved(was);
  }

  lemma {:induction false} ScanEnds(head: Condition?, nodes: seq<Condition>, at: seq<nat>, k: nat, was: seq<Token>)
    requires Scanned(head, null, nodes, at, k, was)
    ensures var kept := Pick(nodes, at);
      Linked(head, kept) && Contents(kept) == BangsRemoved(was) && forall n <- kept :: n in nodes
  {
    var done :| Holding(nodes, at, k, done) && done + BangsRemoved(was[k..]) == BangsRemoved(was);
    assert Contents(Pick(nodes, at)) == done;
    assert BangsRemoved(was[k..]) == [];
  }

  /** The loop at `token_else`. */
  method InvertInPlace(head: Condition?, ghost nodes: seq<Condition>)
    requires Linked(head, nodes)
    modifies nodes`op
    ensures Linked(head, nodes)
    ensures Contents(nodes) == Inverted(old(Contents(nodes)))
  {
    var cond := head;
    ghost var was := Contents(nodes);
    ghost var k := 0;
    while cond != null
      invariant 0 <= k <= |nodes| && cond == if k < |nodes| then nodes[k] else null
      invariant Linked(head, nodes)
      invariant forall i :: 0 <= i < k ==> nodes[i].Content() == InvertToken(was[i])
      invariant forall i :: k <= i < |nodes| ==> nodes[i].Content() == was[i]
      decreases |nodes| - k
    {
      cond.op := match cond.op
        case And => Or
        case Or => And1
        case Neq => Eq
        case Eq => Neq
        case True => False
        case False => True
        case other => other;
      cond := cond.next;
      k := k + 1;
    }
  }

  // ---------------------------------------------------------------------
  // eliminate_other_arch
  // ---------------------------------------------------------------------

  lemma {:induction false} LinkedSuffix(head: Condition?, nodes: seq<Condition>, k: nat)
    requires Linked(head, nodes) && k <= |nodes|
    ensures Linked(if k < |nodes| then nodes[k] else null, nodes[k..])
    ensures Contents(nodes[k..]) == Contents(nodes)[k..]
    ensures forall n <- nodes[k..] :: n in nodes
  {
    var rest := nodes[k..];
    forall i {:trigger rest[i].next} | 0 <= i < |rest|
      ensures rest[i].next == if i + 1 < |rest| then rest[i + 1] else null
    {
      assert nodes[k + i].next == if k + i + 1 < |nodes| then nodes[k + i + 1] else null;
    }
  }

  lemma {:induction false} LinkedOne(c: Condition)
    requires c.next == null
    ensures Linked(c, [c]) && Contents([c]) == [c.Content()]
  {}

  /** The search for an `-o` outside every parenthesis. */
  method FindTopLevelOr(start: Condition?, ghost nodes: seq<Condition>) returns (shape: Shape)
    requires Linked(start, nodes)
    ensures shape == ShapeOf(Contents(nodes), 0)
  {
    var level, cond := 0, start;
    ghost var k := 0;
    ghost var ts := Contents(nodes);
    assert ts[0..] == ts;
    while cond != null
      invariant 0 <= k <= |nodes| && cond == if k < |nodes| then nodes[k] else null
      invariant ShapeOf(ts[k..], level) == ShapeOf(ts, 0)
      decreases |nodes| - k
    {
      assert ts[k..][0] == cond.Content() && ts[k..][1..] == ts[k + 1..];
      if cond.op == LParen {
        level := level + 1;
      } else if cond.op == RParen {
        level := level - 1;
      } else if cond.op == Or && level == 0 {
        return TooComplex;
      } else if level < 0 {
        return Incorrect;
      }
      cond := cond.next;
      k := k + 1;
    }
    return Plain;
  }

  /** Cut the list after its head and make the head a marker. */
  method MakeMarker(cond: Condition, op: Op, ghost nodes: seq<Condition>) returns (ghost kept: seq<Condition>)
    requires Linked(cond, nodes)
    modifies nodes
    ensures kept == [cond] && cond in nodes && Linked(cond, kept)
    ensures Contents(kept) == [old(Contents(nodes))[0].(op := op)]
  {
    assert cond == nodes[0];
    cond.op := op;
    cond.next := null;
    kept := [cond];
    LinkedOne(cond);
  }

  /** A false test before an `-a`: the chain becomes the false marker, unless an `-o` outside all parentheses follows. */
  method FalseUnlessOr(cond1a: Condition, cond1d: Condition, ghost nodes: seq<Condition>)
    returns (exited: bool, ghost kept: seq<Condition>)
    requires Linked(cond1a, nodes) && |nodes| > 3 && cond1d == nodes[3]
    modifies nodes
    ensures exited == (ShapeOf(old(Contents(nodes))[4..], 0) == Incorrect)
    ensures !exited ==> Linked(cond1a, kept) && (forall n <- kept :: n in nodes)
    ensures !exited ==>
      (Contents(kept) ==
       if ShapeOf(old(Contents(nodes))[4..], 0) == TooComplex then old(Contents(nodes)) else [old(Contents(nodes))[0].(op := False)])
  {
    exited, kept := false, nodes;
    LinkedSuffix(cond1a, nodes, 4);
    assert Contents(nodes[4..]) == Contents(nodes)[4..];
    var shape := FindTopLevelOr(cond1d.next, nodes[4..]);
    if shape == TooComplex { return; }
    if shape == Incorrect {
      exited := true;
      return;
    }
    kept := MakeMarker(cond1a, False, nodes);
  }

  method EliminateOtherArch(list: Condition, ghost nodes: seq<Condition>, tab: Table)
    returns (exited: bool, r: Condition, ghost kept: seq<Condition>)
    requires Linked(list, nodes) && Closed(Contents(nodes))
    modifies nodes
    ensures exited <==> Eliminated(old(Contents(nodes)), tab).None?
    ensures !exited ==> Linked(r, kept) && (forall n <- kept :: n in nodes)
    ensures !exited ==> Contents(kept) == Eliminated(old(Contents(nodes)), tab).value
    decreases |nodes|, 2
  {
    exited, r, kept := false, list, nodes;
    ghost var ts := Contents(nodes);
    var cond1a := list;
    assert cond1a == nodes[0] && ts[0] == cond1a.Content();
    if cond1a.op == Variable && tab.name(cond1a.nameindex) == "ARCH" {
      var cond1b := cond1a.next;
      if cond1b == null { return; }
      assert cond1b == nodes[1] && ts[1] == cond1b.Content();
      var cond1c := cond1b.next;
      if cond1c == null { return; }
      assert cond1c == nodes[2] && ts[2] == cond1c.Content();
      var cond1d := cond1c.next;
      assert cond1d == if |nodes| > 3 then nodes[3] else null;
      assert cond1d != null ==> ts[3] == cond1d.Content();
      var foreign := (cond1b.op == Eq && cond1c.str != CURRENT_ARCH) || (cond1b.op == Neq && cond1c.str == CURRENT_ARCH);
      var native := (cond1b.op == Neq && cond1c.str != CURRENT_ARCH) || (cond1b.op == Eq && cond1c.str == CURRENT_ARCH);
      if cond1c.op == Constant && cond1d == null {
        if foreign {
          kept := MakeMarker(cond1a, False, nodes);
          return;
        } else if native {
          kept := MakeMarker(cond1a, True, nodes);
          return;
        }
      } else if cond1c.op == Constant && cond1d.op == Or {
        if foreign {
          exited, r, kept := EliminateRest(cond1d, nodes, tab);
          return;
        } else if native {
          kept := MakeMarker(cond1a, True, nodes);
          return;
        }
      } else if cond1c.op == Constant && cond1d.op == And {
        if foreign {
          exited, kept := FalseUnlessOr(cond1a, cond1d, nodes);
          return;
        } else if native {
          exited, r, kept := EliminateRest(cond1d, nodes, tab);
          return;
        }
      }
    }
    exited, r, kept := EliminateUndefined(list, nodes, tab);
  }

  /** Drop the first test and its connective, and go on with the rest. */
  method EliminateRest(cond1d: Condition, ghost nodes: seq<Condition>, tab: Table)
    returns (exited: bool, r: Condition, ghost kept: seq<Condition>)
    requires |nodes| > 3 && Linked(nodes[0], nodes) && Closed(Contents(nodes)) && cond1d == nodes[3]
    requires cond1d.op == Or || cond1d.op == And
    modifies nodes
    ensures Closed(old(Contents(nodes))[4..])
    ensures exited <==> Eliminated(old(Contents(nodes))[4..], tab).None?
    ensures !exited ==> Linked(r, kept) && (forall n <- kept :: n in nodes)
    ensures !exited ==> Contents(kept) == Eliminated(old(Contents(nodes))[4..], tab).value
    decreases |nodes|, 0
  {
    ghost var ts := Contents(nodes);
    assert ts[3].op == cond1d.op;
    LinkedSuffix(nodes[0], nodes, 4);
    ghost var rest := nodes[4..];
    var cond1b := cond1d.next;
    assert cond1b == rest[0];
    cond1d.next := null;
    assert Linked(cond1b, rest) && Contents(rest) == ts[4..];
    exited, r, kept := EliminateOtherArch(cond1b, rest, tab);
  }

  method EliminateUndefined(list: Condition, ghost nodes: seq<Condition>, tab: Table)
    returns (exited: bool, r: Condition, ghost kept: seq<Condition>)
    requires Linked(list, nodes) && Closed(Contents(nodes))
    modifies nodes
    ensures exited <==> EliminatedUndefined(old(Contents(nodes)), tab).None?
    ensures !exited ==> Linked(r, kept) && (forall n <- kept :: n in nodes)
    ensures !exited ==> Contents(kept) == EliminatedUndefined(old(Contents(nodes)), tab).value
    decreases |nodes|, 1
  {
    exited, r, kept := false, list, nodes;
    ghost var ts := Contents(nodes);
    var cond1a := list;
    assert cond1a == nodes[0] && ts[0] == cond1a.Content();
    if cond1a.op == Variable && cond1a.nameindex !in tab.defined {
      var cond1b := cond1a.next;
      if cond1b == null { return; }
      assert cond1b == nodes[1] && ts[1] == cond1b.Content();
      var cond1c := cond1b.next;
      if cond1c == null { return; }
      assert cond1c == nodes[2] && ts[2] == cond1c.Content();
      var cond1d := cond1c.next;
      assert cond1d == if |nodes| > 3 then nodes[3] else null;
      assert cond1d != null ==> ts[3] == cond1d.Content();
      if cond1c.op == Constant && (cond1d == null || cond1d.op == And) {
        if cond1b.op == Eq && cond1c.str != "" {
          kept := MakeMarker(cond1a, False, nodes);
        }
      } else if cond1c.op == Constant && cond1d.op == Or {
        if cond1b.op == Eq && cond1c.str != "" {
          exited, r, kept := EliminateRest(cond1d, nodes, tab);
        }
      }
    }
  }

  // ---------------------------------------------------------------------
  // join_condition_stack
  // ---------------------------------------------------------------------

  /** A growing list: its nodes are new, and `last` is the final one. */
  ghost predicate Built(head: Condition?, last: Condition?, nodes: seq<Condition>)
    reads nodes
  {
    Linked(head, nodes) && last == if nodes == [] then null else nodes[|nodes| - 1]
  }

  /** A new node with the given fields, put at the end of the list. */
  method Append(head: Condition?, last: Condition?, t: Token, ghost nodes: seq<Condition>)
    returns (r: Condition, l: Condition)
    requires Built(head, last, nodes)
    modifies if last == null then {} else {last}
    ensures fresh(l) && Built(r, l, nodes + [l])
    ensures Contents(nodes + [l]) == old(Contents(nodes)) + [t]
  {
    l := new Condition(t.op);
    l.str, l.nameindex := t.str, t.nameindex;
    if last == null {
      r := l;
    } else {
      last.next := l;
      r := head;
    }
    ghost var all := nodes + [l];
    assert forall i :: 0 <= i < |nodes| ==> all[i] == nodes[i];
  }

  ghost predicate Chained(chain: Condition?, source: seq<Condition>, ts: seq<Token>)
    reads source
  {
    Linked(chain, source) && Contents(source) == ts
  }

  /** `copied[..k]` has been copied after `was`; `cond` is the next node. */
  ghost predicate Copying(cond: Condition?, chain: Condition?, source: seq<Condition>, copied: seq<Token>, k: nat,
                          head: Condition?, last: Condition?, all: seq<Condition>, was: seq<Token>)
    reads source, all
  {
    k <= |source| && cond == (if k < |source| then source[k] else null) && Chained(chain, source, copied) &&
    Built(head, last, all) && Contents(all) == was + copied[..k] && Nodes(all) !! Nodes(source)
  }

  /** Append a copy of one node. */
  method CopyNode(cond: Condition, ghost chain: Condition?, ghost source: seq<Condition>, ghost copied: seq<Token>, ghost k: nat,
                  head: Condition?, last: Condition?, ghost all: seq<Condition>, ghost was: seq<Token>)
    returns (r: Condition, l: Condition)
    requires Copying(cond, chain, source, copied, k, head, last, all, was)
    modifies if last == null then {} else {last}
    ensures fresh(l) && Copying(cond.next, chain, source, copied, k + 1, r, l, all + [l], was)
  {
    assert copied[k] == cond.Content();
    r, l := AppendBeside(head, last, cond.Content(), all, chain, source, copied);
    OneCopied(was, copied, k);
  }

  lemma {:induction false} OneCopied(was: seq<Token>, copied: seq<Token>, k: nat)
    requires k < |copied|
    ensures was + copied[..k] + [copied[k]] == was + copied[..k + 1]
  {}

  /** Appending to one list leaves another alone. */
  method AppendBeside(head: Condition?, last: Condition?, t: Token, ghost nodes: seq<Condition>,
                      ghost chain: Condition?, ghost source: seq<Condition>, ghost copied: seq<Token>)
    returns (r: Condition, l: Condition)
    requires Built(head, last, nodes) && Chained(chain, source, copied) && Nodes(nodes) !! Nodes(source)
    modifies if last == null then {} else {last}
    ensures fresh(l) && Built(r, l, nodes + [l]) && Contents(nodes + [l]) == old(Contents(nodes)) + [t]
    ensures Chained(chain, source, copied) && Nodes(nodes + [l]) !! Nodes(source)
  {
    assert last != null ==> last in Nodes(nodes);
    r, l := Append(head, last, t, nodes);
  }

  lemma {:induction false} CopyBegins(head: Condition?, last: Condition?, chain: Condition?,
                                      nodes: seq<Condition>, source: seq<Condition>)
    requires Built(head, last, nodes) && Linked(chain, source) && forall n <- nodes :: n !in source
    ensures Copying(chain, chain, source, Contents(source), 0, head, last, nodes, Contents(nodes))
  {
    assert Contents(nodes) + Contents(source)[..0] == Contents(nodes);
  }

  lemma {:induction false} CopyEnds(chain: Condition?, source: seq<Condition>, copied: seq<Token>, k: nat,
                                    head: Condition?, last: Condition?, all: seq<Condition>, was: seq<Token>)
    requires Copying(null, chain, source, copied, k, head, last, all, was)
    ensures Built(head, last, all) && Chained(chain, source, copied) && Contents(all) == was + copied
  {
    assert copied[..k] == copied;
  }

  /** A copy of one chain, appended to the list under construction. */
  method AppendCopy(head: Condition?, last: Condition?, chain: Condition?,
                    ghost nodes: seq<Condition>, ghost source: seq<Condition>)
    returns (r: Condition?, l: Condition?, ghost all: seq<Condition>)
    requires Built(head, last, nodes) && Linked(chain, source)
    requires forall n <- nodes :: n !in source
    modifies if last == null then {} else {last}
    ensures Built(r, l, all) && (forall n <- all :: n in nodes || fresh(n)) && (l == last || fresh(l))
    ensures Contents(all) == old(Contents(nodes)) + Contents(source)
    ensures Chained(chain, source, old(Contents(source)))
  {
    r, l, all := head, last, nodes;
    var cond := chain;
    ghost var k: nat := 0;
    ghost var was, copied := Contents(nodes), Contents(source);
    CopyBegins(head, last, chain, nodes, source);
    while cond != null
      invariant Copying(cond, chain, source, copied, k, r, l, all, was)
      invariant (forall n <- all :: n in nodes || fresh(n)) && (l == last || fresh(l))
      decreases |source| - k
    {
      r, l := CopyNode(cond, chain, source, copied, k, r, l, all, was);
      all := all + [l];
      k := k + 1;
      cond := cond.next;
    }
    CopyEnds(chain, source, copied, k, r, l, all, was);
  }

  /** The six nodes from the `k`-th on. */
  predicate GroupAt(nodes: seq<Condition>, k: nat, cond1: Condition, cond1b: Condition, cond1c: Condition,
                    cond1d: Condition, cond1e: Condition, cond1f: Condition)
  {
    k + 6 <= |nodes| && cond1 == nodes[k] && cond1b == nodes[k + 1] && cond1c == nodes[k + 2] &&
    cond1d == nodes[k + 3] && cond1e == nodes[k + 4] && cond1f == nodes[k + 5]
  }

  method NukeFive(cond1: Condition, cond1b: Condition, cond1c: Condition, cond1d: Condition, cond1e: Condition,
                  ghost nodes: seq<Condition>, ghost k: nat)
    requires Apart(nodes) && k + 5 <= |nodes| && cond1 == nodes[k] && cond1b == nodes[k + 1] && cond1c == nodes[k + 2]
    requires cond1d == nodes[k + 3] && cond1e == nodes[k + 4]
    modifies nodes`op
    ensures forall i {:trigger nodes[i].op} :: 0 <= i < |nodes| ==>
      nodes[i].op == if k <= i < k + 5 then Nuked else old(nodes[i].op)
  {
    cond1.op, cond1b.op, cond1c.op, cond1d.op, cond1e.op := Nuked, Nuked, Nuked, Nuked, Nuked;
  }

  /** Nuke the first duplicate, and the glue after it or after the second. */
  method NukeSix(cond1: Condition, cond1b: Condition, cond1c: Condition, cond1d: Condition, cond1e: Condition,
                 cond1f: Condition, cond2f: Condition?, ghost nodes: seq<Condition>, ghost k: nat, ghost at: nat)
    requires Apart(nodes) && GroupAt(nodes, k, cond1, cond1b, cond1c, cond1d, cond1e, cond1f) && k + 5 <= at < |nodes|
    requires if cond1f.op == And then at == k + 5 else cond2f == nodes[at]
    modifies nodes`op
    ensures forall i {:trigger nodes[i].op} :: 0 <= i < |nodes| ==>
      nodes[i].op == if k <= i < k + 5 || i == at then Nuked else old(nodes[i].op)
  {
    NukeFive(cond1, cond1b, cond1c, cond1d, cond1e, nodes, k);
    if cond1f.op == And {
      cond1f.op := Nuked;
    } else {
      cond2f.op := Nuked;
    }
  }

  method NukeDuplicate(cond1: Condition, cond1b: Condition, cond1c: Condition, cond1d: Condition, cond1e: Condition,
                       cond1f: Condition, cond2f: Condition?, ghost nodes: seq<Condition>, ghost k: nat, ghost j: nat,
                       ghost ts: seq<Token>)
    requires Apart(nodes) && k + 6 <= j && j + 4 < |nodes| && ts == Contents(nodes)
    requires GroupAt(nodes, k, cond1, cond1b, cond1c, cond1d, cond1e, cond1f)
    requires cond2f == if j + 5 < |nodes| then nodes[j + 5] else null
    requires nodes[k + 5].op == And || j + 5 < |nodes|
    modifies nodes`op
    ensures NukedTogether(ts, Contents(nodes), k, j)
  {
    assert ts[k + 5] == cond1f.Content();
    ghost var at := if cond1f.op == And then k + 5 else j + 5;
    NukeSix(cond1, cond1b, cond1c, cond1d, cond1e, cond1f, cond2f, nodes, k, at);
    forall i | 0 <= i < |nodes|
      ensures Contents(nodes)[i] == if k <= i < k + 5 || i == at then Nuke(ts[i]) else ts[i]
    {
      assert Contents(nodes)[i] == nodes[i].Content();
    }
  }

  ghost predicate NukedTogether(was: seq<Token>, now: seq<Token>, k: nat, j: nat)
    requires k + 6 <= j && j + 4 < |was|
  {
    var at := if was[k + 5].op == And then k + 5 else j + 5;
    |now| == |was| && forall i :: 0 <= i < |was| ==> now[i] == if k <= i < k + 5 || i == at then Nuke(was[i]) else was[i]
  }

  lemma {:induction false} NukeMeaning(was: seq<Token>, now: seq<Token>, k: nat, j: nat)
    requires k + 6 <= j && j + 4 < |was| && RepeatsHead(was[k..], j - k) && NukedTogether(was, now, k, j)
    ensures now[..k] == was[..k] && now[k..] == NukeHead(was[k..], j - k)
  {
    var s, n := was[k..], now[k..];
    var r := NukeHead(s, j - k);
    assert s[5] == was[k + 5];
    forall i | 0 <= i < |s| ensures n[i] == r[i] {
      assert s[i] == was[k + i] && n[i] == now[k + i];
    }
  }

  /** The inner search stands at the `i`-th node after `cond1`. */
  ghost predicate Searching(cond2: Condition?, head: Condition?, nodes: seq<Condition>, k: nat, i: nat,
                            front: seq<Token>, goal: seq<Token>)
    reads nodes
  {
    Linked(head, nodes) && 6 <= i && k + i <= |nodes| &&
    cond2 == (if k + i < |nodes| then nodes[k + i] else null) && Sought(Contents(nodes), k, i, front, goal)
  }

  /** What the search from the `i`-th node on makes of these contents. */
  ghost predicate Sought(ts: seq<Token>, k: nat, i: nat, front: seq<Token>, goal: seq<Token>) {
    k + 6 <= |ts| && ts[..k] == front && HeadChecked(ts[k..], i) == goal
  }

  /** One comparison, as the function has it: `stop` when an opening parenthesis
      comes too late in the list for a copy. */
  ghost predicate Compared(was: seq<Token>, now: seq<Token>, k: nat, i: nat, stop: bool)
    requires 6 <= i && k + i < |was|
  {
    var s := was[k..];
    if s[i].op != LParen then !stop && now == was
    else if i + 4 >= |s| then stop && now == was
    else !stop && if RepeatsHead(s, i) then NukedTogether(was, now, k, k + i) else now == was
  }

  lemma {:induction false} ComparedMeans(was: seq<Token>, now: seq<Token>, k: nat, i: nat,
                                         front: seq<Token>, goal: seq<Token>, stop: bool)
    requires 6 <= i && k + i < |was| && Compared(was, now, k, i, stop)
    requires Sought(was, k, i, front, goal)
    ensures if stop then now == front + goal else Sought(now, k, i + 1, front, goal)
  {
    CopyStep(was[k..], i);
    if was[k..][i].op == LParen && i + 4 < |was[k..]| && RepeatsHead(was[k..], i) { NukeMeaning(was, now, k, k + i); }
    Rejoined(now, k);
  }

  /** Compare the node at `cond2` with the group at `cond1`. */
  method CheckCopy(cond1: Condition, cond1b: Condition, cond1c: Condition, cond1d: Condition, cond1e: Condition,
                   cond1f: Condition, cond2: Condition, ghost head: Condition?, ghost nodes: seq<Condition>,
                   ghost k: nat, ghost i: nat)
    returns (stop: bool)
    requires Linked(head, nodes) && 6 <= i && k + i < |nodes| && cond2 == nodes[k + i]
    requires GroupAt(nodes, k, cond1, cond1b, cond1c, cond1d, cond1e, cond1f)
    modifies nodes`op
    ensures Compared(old(Contents(nodes)), Contents(nodes), k, i, stop)
  {
    ghost var j := k + i;
    assert Contents(nodes)[k..][i] == cond2.Content();
    if cond2.op != LParen { return false; }
    stop := true;
    var cond2b := cond2.next;
    if cond2b == null { return; }
    assert cond2b == nodes[j + 1];
    var cond2c := cond2b.next;
    if cond2c == null { return; }
    assert cond2c == nodes[j + 2];
    var cond2d := cond2c.next;
    if cond2d == null { return; }
    assert cond2d == nodes[j + 3];
    var cond2e := cond2d.next;
    if cond2e == null { return; }
    assert cond2e == nodes[j + 4];
    var cond2f := cond2e.next;
    stop := false;
    var copy := IsCopy(cond1b, cond1c, cond1d, cond1f, cond2b, cond2c, cond2d, cond2e, cond2f, nodes, k, j);
    GuardIsRepeats(nodes, k, i);
    if copy {
      NukeDuplicate(cond1, cond1b, cond1c, cond1d, cond1e, cond1f, cond2f, nodes, k, j, Contents(nodes));
    }
  }

  /** Do the nodes from `cond2` on repeat the group? */
  method IsCopy(cond1b: Condition, cond1c: Condition, cond1d: Condition, cond1f: Condition,
                cond2b: Condition, cond2c: Condition, cond2d: Condition, cond2e: Condition, cond2f: Condition?,
                ghost nodes: seq<Condition>, ghost k: nat, ghost j: nat)
    returns (copy: bool)
    requires k + 6 <= j && j + 4 < |nodes| && nodes[j].op == LParen
    requires cond1b == nodes[k + 1] && cond1c == nodes[k + 2] && cond1d == nodes[k + 3] && cond1f == nodes[k + 5]
    requires cond2b == nodes[j + 1] && cond2c == nodes[j + 2] && cond2d == nodes[j + 3] && cond2e == nodes[j + 4]
    requires cond2f == if j + 5 < |nodes| then nodes[j + 5] else null
    ensures copy == RepeatsAt(nodes, k, j)
  {
    if cond2b.op == Variable && cond2b.nameindex == cond1b.nameindex && cond2c.op == cond1c.op &&
       cond2d.op == Constant && cond2d.str == cond1d.str && cond2e.op == RParen
    {
      if cond1f.op == And || (cond2f != null && cond2f.op == And) { return true; }
    }
    return false;
  }

  /** The comparison leaves the list linked. */
  method CompareLinked(cond1: Condition, cond1b: Condition, cond1c: Condition, cond1d: Condition, cond1e: Condition,
                       cond1f: Condition, cond2: Condition, ghost head: Condition?, ghost nodes: seq<Condition>,
                       ghost k: nat, ghost i: nat)
    returns (stop: bool)
    requires Linked(head, nodes) && 6 <= i && k + i < |nodes| && cond2 == nodes[k + i]
    requires GroupAt(nodes, k, cond1, cond1b, cond1c, cond1d, cond1e, cond1f)
    modifies nodes`op
    ensures Compared(old(Contents(nodes)), Contents(nodes), k, i, stop)
    ensures Linked(head, nodes) && cond2.next == if k + (i + 1) < |nodes| then nodes[k + (i + 1)] else null
  {
    stop := CheckCopy(cond1, cond1b, cond1c, cond1d, cond1e, cond1f, cond2, head, nodes, k, i);
    assert nodes[k + i].next == if k + i + 1 < |nodes| then nodes[k + i + 1] else null;
  }

  /** One turn of the inner search. */
  method SearchStep(cond1: Condition, cond1b: Condition, cond1c: Condition, cond1d: Condition, cond1e: Condition,
                    cond1f: Condition, cond2: Condition, ghost head: Condition?, ghost nodes: seq<Condition>,
                    ghost k: nat, ghost i: nat, ghost front: seq<Token>, ghost goal: seq<Token>)
    returns (stop: bool)
    requires Searching(cond2, head, nodes, k, i, front, goal)
    requires GroupAt(nodes, k, cond1, cond1b, cond1c, cond1d, cond1e, cond1f)
    modifies nodes`op
    ensures if stop then Contents(nodes) == front + goal
            else Searching(cond2.next, head, nodes, k, i + 1, front, goal)
  {
    ghost var was := Contents(nodes);
    stop := CompareLinked(cond1, cond1b, cond1c, cond1d, cond1e, cond1f, cond2, head, nodes, k, i);
    ComparedMeans(was, Contents(nodes), k, i, front, goal, stop);
  }

  lemma {:induction false} Rejoined(s: seq<Token>, k: nat)
    requires k <= |s|
    ensures s[..k] + s[k..] == s
  {}

  /** The inner search for copies of the group at `cond1`. */
  method CheckHead(cond1: Condition, cond1b: Condition, cond1c: Condition, cond1d: Condition, cond1e: Condition,
                   cond1f: Condition, ghost head: Condition?, ghost nodes: seq<Condition>, ghost k: nat)
    requires Linked(head, nodes) && k + 6 <= |nodes|
    requires GroupAt(nodes, k, cond1, cond1b, cond1c, cond1d, cond1e, cond1f)
    modifies nodes`op
    ensures Contents(nodes) == old(Contents(nodes)[..k]) + HeadChecked(old(Contents(nodes)[k..]), 6)
  {
    ghost var front, goal := Contents(nodes)[..k], HeadChecked(Contents(nodes)[k..], 6);
    var cond2 := cond1f.next;
    ghost var i: nat := 6;
    SearchBegins(cond1f, head, nodes, k);
    while cond2 != null
      invariant Searching(cond2, head, nodes, k, i, front, goal)
      decreases |nodes| - i
    {
      var stop := SearchStep(cond1, cond1b, cond1c, cond1d, cond1e, cond1f, cond2, head, nodes, k, i, front, goal);
      if stop { return; }
      cond2 := cond2.next;
      i := i + 1;
    }
    SearchEnds(head, nodes, k, i, front, goal);
  }

  lemma {:induction false} SearchBegins(cond1f: Condition, head: Condition?, nodes: seq<Condition>, k: nat)
    requires Linked(head, nodes) && k + 6 <= |nodes| && cond1f == nodes[k + 5]
    ensures Searching(cond1f.next, head, nodes, k, 6, Contents(nodes)[..k], HeadChecked(Contents(nodes)[k..], 6))
  {}

  lemma {:induction false} SearchEnds(head: Condition?, nodes: seq<Condition>, k: nat, i: nat, front: seq<Token>, goal: seq<Token>)
    requires Searching(null, head, nodes, k, i, front, goal)
    ensures Contents(nodes) == front + goal
  {
    CheckEnds(Contents(nodes)[k..]);
    Rejoined(Contents(nodes), k);
  }

  lemma {:induction false} CheckEnds(s: seq<Token>)
    requires |s| >= 6
    ensures HeadChecked(s, |s|) == s
  {}

  /** The nodes from the `j`-th on repeat the test of the group at `k`, and one of the two groups has its glue. */
  ghost predicate RepeatsAt(nodes: seq<Condition>, k: nat, j: nat)
    requires k + 6 <= j && j + 4 < |nodes|
    reads nodes
  {
    nodes[j].op == LParen && nodes[j + 1].op == Variable && nodes[j + 1].nameindex == nodes[k + 1].nameindex &&
    nodes[j + 2].op == nodes[k + 2].op && nodes[j + 3].op == Constant && nodes[j + 3].str == nodes[k + 3].str &&
    nodes[j + 4].op == RParen && (nodes[k + 5].op == And || (j + 5 < |nodes| && nodes[j + 5].op == And))
  }

  lemma {:induction false} GuardIsRepeats(nodes: seq<Condition>, k: nat, i: nat)
    requires 6 <= i && k + i + 4 < |nodes|
    ensures RepeatsHead(Contents(nodes)[k..], i) <==> RepeatsAt(nodes, k, k + i)
  {
    var s, j := Contents(nodes)[k..], k + i;
    assert s[1] == nodes[k + 1].Content() && s[2] == nodes[k + 2].Content() && s[3] == nodes[k + 3].Content();
    assert s[5] == nodes[k + 5].Content();
    assert s[i] == nodes[j].Content() && s[i + 1] == nodes[j + 1].Content();
    assert s[i + 2] == nodes[j + 2].Content() && s[i + 3] == nodes[j + 3].Content();
    assert s[i + 4] == nodes[j + 4].Content();
    assert j + 5 < |nodes| ==> s[i + 5] == nodes[j + 5].Content();
  }

  /** The outer search stands at the `k`-th node. */
  ghost predicate Walking(cond1: Condition?, head: Condition?, nodes: seq<Condition>, k: nat, goal: seq<Token>)
    reads nodes
  {
    Linked(head, nodes) && k <= |nodes| && cond1 == (if k < |nodes| then nodes[k] else null) &&
    Contents(nodes)[..k] + Deduplicated(Contents(nodes)[k..]) == goal
  }

  lemma {:induction false} OuterStep(ts: seq<Token>, k: nat, goal: seq<Token>)
    requires k < |ts| && ts[..k] + Deduplicated(ts[k..]) == goal
    ensures ts[k].op == LParen && k + 6 > |ts| ==> ts == goal
    ensures !(ts[k].op == LParen && k + 6 > |ts|) && !SingleAtHead(ts[k..]) ==>
      ts[..k + 1] + Deduplicated(ts[k + 1..]) == goal
    ensures SingleAtHead(ts[k..]) ==>
      var now := ts[..k] + HeadChecked(ts[k..], 6);
      now[..k + 1] + Deduplicated(now[k + 1..]) == goal
  {
    var s := ts[k..];
    assert s[0] == ts[k] && s[1..] == ts[k + 1..] && ts == ts[..k] + s;
    if SingleAtHead(s) {
      var c := HeadChecked(s, 6);
      var now := ts[..k] + c;
      assert now[k + 1..] == c[1..] && now[..k + 1] == ts[..k] + [c[0]];
      assert ts[..k] + [c[0]] + Deduplicated(c[1..]) == ts[..k] + ([c[0]] + Deduplicated(c[1..]));
    } else if !(ts[k].op == LParen && k + 6 > |ts|) {
      assert ts[..k + 1] == ts[..k] + [s[0]];
      assert ts[..k] + [s[0]] + Deduplicated(s[1..]) == ts[..k] + ([s[0]] + Deduplicated(s[1..]));
    }
  }

  /** Check the group at `cond1`: one turn of the outer search on a group. */
  method CheckGroup(cond1: Condition, cond1b: Condition, cond1c: Condition, cond1d: Condition, cond1e: Condition,
                    cond1f: Condition, ghost head: Condition?, ghost nodes: seq<Condition>, ghost k: nat,
                    ghost goal: seq<Token>)
    requires Linked(head, nodes) && k + 6 <= |nodes|
    requires GroupAt(nodes, k, cond1, cond1b, cond1c, cond1d, cond1e, cond1f)
    requires SingleAtHead(Contents(nodes)[k..]) && Contents(nodes)[..k] + Deduplicated(Contents(nodes)[k..]) == goal
    modifies nodes`op
    ensures Contents(nodes)[..k + 1] + Deduplicated(Contents(nodes)[k + 1..]) == goal
  {
    OuterStep(Contents(nodes), k, goal);
    CheckHead(cond1, cond1b, cond1c, cond1d, cond1e, cond1f, head, nodes, k);
  }

  /** The five nodes after `cond1`; `f` is null when the list ends before. */
  method GroupNodes(cond1: Condition, ghost head: Condition?, ghost nodes: seq<Condition>, ghost k: nat)
    returns (b: Condition?, c: Condition?, d: Condition?, e: Condition?, f: Condition?)
    requires Linked(head, nodes) && k < |nodes| && cond1 == nodes[k]
    ensures f == null ==> k + 6 > |nodes|
    ensures f != null ==> b != null && c != null && d != null && e != null && GroupAt(nodes, k, cond1, b, c, d, e, f)
  {
    c, d, e, f := null, null, null, null;
    b := cond1.next;
    if b == null { return; }
    assert b == nodes[k + 1];
    c := b.next;
    if c == null { return; }
    assert c == nodes[k + 2];
    d := c.next;
    if d == null { return; }
    assert d == nodes[k + 3];
    e := d.next;
    if e == null { return; }
    assert e == nodes[k + 4];
    f := e.next;
    if f == null { return; }
    assert f == nodes[k + 5];
  }

  /** One turn of the outer search; `stop` when the list is too short for a copy. */
  method WalkStep(cond1: Condition, ghost head: Condition?, ghost nodes: seq<Condition>, ghost k: nat, ghost goal: seq<Token>)
    returns (stop: bool)
    requires Walking(cond1, head, nodes, k, goal)
    modifies nodes`op
    ensures if stop then Contents(nodes) == goal
            else Contents(nodes)[..k + 1] + Deduplicated(Contents(nodes)[k + 1..]) == goal
  {
    ghost var ts := Contents(nodes);
    assert ts[k] == cond1.Content() && cond1 == nodes[k];
    OuterStep(ts, k, goal);
    if cond1.op != LParen { return false; }
    var cond1b, cond1c, cond1d, cond1e, cond1f := GroupNodes(cond1, head, nodes, k);
    if cond1f == null { return true; }
    GuardIsSingle(nodes, k);
    if cond1b.op == Variable && (cond1c.op == Eq || cond1c.op == Neq) && cond1d.op == Constant && cond1e.op == RParen {
      CheckGroup(cond1, cond1b, cond1c, cond1d, cond1e, cond1f, head, nodes, k, goal);
    }
    return false;
  }

  lemma {:induction false} GuardIsSingle(nodes: seq<Condition>, k: nat)
    requires k + 6 <= |nodes|
    ensures SingleAtHead(Contents(nodes)[k..]) <==>
      (nodes[k].op == LParen && nodes[k + 1].op == Variable && (nodes[k + 2].op == Eq || nodes[k + 2].op == Neq) &&
       nodes[k + 3].op == Constant && nodes[k + 4].op == RParen)
  {
    var s := Contents(nodes)[k..];
    assert s[0] == nodes[k].Content() && s[1] == nodes[k + 1].Content() && s[2] == nodes[k + 2].Content();
    assert s[3] == nodes[k + 3].Content() && s[4] == nodes[k + 4].Content();
  }

  method WalkOne(cond1: Condition, ghost head: Condition?, ghost nodes: seq<Condition>, ghost k: nat, ghost goal: seq<Token>)
    returns (stop: bool)
    requires Walking(cond1, head, nodes, k, goal)
    modifies nodes`op
    ensures Linked(head, nodes)
    ensures if stop then Contents(nodes) == goal else Walking(cond1.next, head, nodes, k + 1, goal)
  {
    stop := WalkStep(cond1, head, nodes, k, goal);
    assert forall n <- nodes :: n.next == old(n.next);
  }

  /** Remove duplicate conditions. */
  method RemoveDuplicates(head: Condition?, ghost nodes: seq<Condition>)
    requires Linked(head, nodes)
    modifies nodes`op
    ensures Linked(head, nodes) && Contents(nodes) == Deduplicated(old(Contents(nodes)))
  {
    ghost var goal := Deduplicated(Contents(nodes));
    var cond1 := head;
    ghost var k := 0;
    assert Contents(nodes)[0..] == Contents(nodes) && Contents(nodes)[..0] + goal == goal;
    while cond1 != null
      invariant Walking(cond1, head, nodes, k, goal)
      decreases |nodes| - k
    {
      var stop := WalkOne(cond1, head, nodes, k, goal);
      if stop { return; }
      cond1 := cond1.next;
      k := k + 1;
    }
    assert Contents(nodes)[k..] == [] && Contents(nodes)[..k] == Contents(nodes);
    assert Contents(nodes) + [] == Contents(nodes);
  }

  // The stack of chains.

  ghost function AllNodes(chains: seq<seq<Condition>>): set<Condition> {
    set i, j | 0 <= i < |chains| && 0 <= j < |chains[i]| :: chains[i][j]
  }

  ghost function StackContents(chains: seq<seq<Condition>>): (r: seq<seq<Token>>)
    reads AllNodes(chains)
    ensures |r| == |chains| && forall i :: 0 <= i < |chains| ==> r[i] == Contents(chains[i])
    decreases |chains|
  {
    if chains == [] then [] else
    var n := |chains| - 1;
    assert AllNodes(chains) == AllNodes(chains[..n]) + (set c | c in chains[n]) by {
      SplitNodes(chains);
    }
    StackContents(chains[..n]) + [Contents(chains[n])]
  }

  lemma {:induction false} SplitNodes(chains: seq<seq<Condition>>)
    requires chains != []
    ensures var n := |chains| - 1;
      AllNodes(chains) == AllNodes(chains[..n]) + (set c | c in chains[n])
  {
    var n := |chains| - 1;
    forall c | c in AllNodes(chains) ensures c in AllNodes(chains[..n]) + (set c | c in chains[n]) {
      var i, j :| 0 <= i < |chains| && 0 <= j < |chains[i]| && c == chains[i][j];
      if i < n { assert c == chains[..n][i][j]; }
    }
    forall c | c in AllNodes(chains[..n]) + (set c | c in chains[n]) ensures c in AllNodes(chains) {
      if c in AllNodes(chains[..n]) {
        var i, j :| 0 <= i < n && 0 <= j < |chains[..n][i]| && c == chains[..n][i][j];
        assert c == chains[i][j];
      } else {
        var j :| 0 <= j < |chains[n]| && c == chains[n][j];
      }
    }
  }

  lemma {:induction false} ParenthesesAround(was: seq<Token>, ts: seq<Token>, open: seq<Token>, all: seq<Token>)
    requires open == was + [Sym(LParen)] + ts && all == open + [Sym(RParen)]
    ensures all == was + Parenthesised(ts)
  {}

  /** A chain and its parentheses, copied to the end of the list. */
  method AppendParenthesised(head: Condition?, last: Condition?, entry: Condition,
                             ghost nodes: seq<Condition>, ghost source: seq<Condition>)
    returns (r: Condition?, l: Condition?, ghost all: seq<Condition>)
    requires Built(head, last, nodes) && Linked(entry, source) && forall n <- nodes :: n !in source
    modifies if last == null then {} else {last}
    ensures Built(r, l, all) && (forall n <- all :: n in nodes || fresh(n)) && (l == last || fresh(l))
    ensures Contents(all) == old(Contents(nodes)) + Parenthesised(old(Contents(source)))
  {
    ghost var was, ts := Contents(nodes), Contents(source);
    assert last != null ==> last in nodes;
    r, l := Append(head, last, Sym(LParen), nodes);
    all := nodes + [l];
    assert Chained(entry, source, ts);
    r, l, all := AppendCopy(r, l, entry, all, source);
    ghost var open := Contents(all);
    r, l := Append(r, l, Sym(RParen), all);
    all := all + [l];
    ParenthesesAround(was, ts, open, Contents(all));
  }

  /** One entry of the stack, glued and copied to the end of the list. */
  method AppendEntry(head: Condition?, last: Condition?, first: bool, entry: Condition,
                     ghost nodes: seq<Condition>, ghost source: seq<Condition>)
    returns (r: Condition?, l: Condition?, ghost all: seq<Condition>)
    requires Built(head, last, nodes) && Linked(entry, source) && forall n <- nodes :: n !in source
    modifies if last == null then {} else {last}
    ensures Built(r, l, all) && (forall n <- all :: n in nodes || fresh(n)) && (l == last || fresh(l))
    ensures Contents(all) == old(Contents(nodes)) + ((if first then [] else [Sym(And)]) + Piece(old(Contents(source))))
  {
    r, l, all := head, last, nodes;
    ghost var was, ts := Contents(nodes), Contents(source);
    assert last != null ==> last in nodes;
    if !first {
      r, l := Append(r, l, Sym(And), all);
      all := all + [l];
      assert Chained(entry, source, ts);
    }
    ghost var glue := if first then [] else [Sym(And)];
    assert Contents(all) == was + glue;
    Regroup(was, glue, Piece(ts));
    r, l, all := AppendPiece(r, l, entry, all, source);
  }

  lemma {:induction false} Regroup(a: seq<Token>, b: seq<Token>, c: seq<Token>)
    ensures a + b + c == a + (b + c)
  {}

  /** The entry itself: a group as it is, any other chain in parentheses. */
  method AppendPiece(head: Condition?, last: Condition?, entry: Condition, ghost nodes: seq<Condition>, ghost source: seq<Condition>)
    returns (r: Condition?, l: Condition?, ghost all: seq<Condition>)
    requires Built(head, last, nodes) && Linked(entry, source) && forall n <- nodes :: n !in source
    modifies if last == null then {} else {last}
    ensures Built(r, l, all) && (forall n <- all :: n in nodes || fresh(n)) && (l == last || fresh(l))
    ensures Contents(all) == old(Contents(nodes)) + Piece(old(Contents(source)))
  {
    assert Contents(source)[0] == entry.Content();
    if entry.op != LParen {
      r, l, all := AppendParenthesised(head, last, entry, nodes, source);
    } else {
      r, l, all := AppendCopy(head, last, entry, nodes, source);
    }
  }

  /** `heads` are the heads of the chains. */
  ghost predicate Stacked(heads: seq<Condition>, chains: seq<seq<Condition>>)
    reads AllNodes(chains)
  {
    |chains| == |heads| &&
    forall i :: 0 <= i < |chains| ==>
      chains[i] != [] && (set c | c in chains[i]) <= AllNodes(chains) && Linked(heads[i], chains[i])
  }

  lemma {:induction false} GluedOne(stack: seq<seq<Token>>, i: nat, first: bool, was: seq<Token>, goal: seq<Token>)
    requires i < |stack| && stack[i] != [] && was + Glued(stack[i..], first) == goal
    ensures HeadIs(stack[i], True) ==> was + Glued(stack[i + 1..], first) == goal
    ensures !HeadIs(stack[i], True) ==>
      was + ((if first then [] else [Sym(And)]) + Piece(stack[i])) + Glued(stack[i + 1..], false) == goal
  {
    assert stack[i..][0] == stack[i] && stack[i..][1..] == stack[i + 1..];
  }

  /** The second loop: every chain but the true markers, copied and glued. */
  method GlueStack(conditions: seq<Condition>, ghost chains: seq<seq<Condition>>)
    returns (cond_list: Condition?, ghost nodes: seq<Condition>)
    requires Stacked(conditions, chains)
    ensures Linked(cond_list, nodes) && forall n <- nodes :: fresh(n)
    ensures Contents(nodes) == Glued(old(StackContents(chains)), true)
  {
    ghost var stack := StackContents(chains);
    ghost var goal := Glued(stack, true);
    var cond_last: Condition?;
    var is_first := true;
    cond_list, cond_last, nodes := null, null, [];
    assert stack[0..] == stack && [] + goal == goal;
    for i := 0 to |conditions|
      invariant Built(cond_list, cond_last, nodes)
      invariant forall n <- nodes :: fresh(n)
      invariant Contents(nodes) + Glued(stack[i..], is_first) == goal
    {
      var cond := conditions[i];
      assert stack[i] == Contents(chains[i]) && stack[i][0] == cond.Content();
      GluedOne(stack, i, is_first, Contents(nodes), goal);
      if cond.op != True {
        ghost var before := nodes;
        assert cond_last == null || cond_last in nodes;
        cond_list, cond_last, nodes := AppendEntry(cond_list, cond_last, is_first, cond, nodes, chains[i]);
        assert forall n <- before :: fresh(n);
        is_first := false;
      }
    }
    assert Contents(nodes) + [] == Contents(nodes);
  }

  /** Join the stack of chains into one new chain. Nothing that existed before is
      written, so chains attached earlier keep their contents. */
  method JoinConditionStack(conditions: seq<Condition>, ghost chains: seq<seq<Condition>>)
    returns (cond_list: Condition?, ghost nodes: seq<Condition>)
    requires Stacked(conditions, chains)
    ensures Linked(cond_list, nodes) && forall n <- nodes :: fresh(n)
    ensures Contents(nodes) == Joined(old(StackContents(chains)))
  {
    ghost var stack := StackContents(chains);
    for i := 0 to |conditions|
      invariant forall k :: 0 <= k < i ==> !HeadIs(stack[k], False)
    {
      assert stack[i][0] == conditions[i].Content();
      if conditions[i].op == False {
        cond_list := new Condition(False);
        nodes := [cond_list];
        LinkedOne(cond_list);
        return;
      }
    }
    cond_list, nodes := GlueStack(conditions, chains);
    forall i | 0 <= i < |nodes| ensures fresh(nodes[i]) {
      assert nodes[i] in nodes;
    }
    RemoveDuplicates(cond_list, nodes);
  }
}
