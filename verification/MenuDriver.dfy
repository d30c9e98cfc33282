/** The numbering pass over the statement list, the walk of each menu, and the
    climb over the windows, on the tables that the program fills. */
module MenuDriver {
  import opened Menus

  /** A statement. These passes do not change what it is or what follows it. */
  class Entry {
    const token: Token
    const next: Entry?
    var menuNumber: nat
    var menuLine: int
    /** Where the parser put it in the list. */
    ghost const pos: nat

    constructor (token: Token, next: Entry?, ghost pos: nat)
      ensures this.token == token && this.next == next && this.pos == pos && menuNumber == 0 && menuLine == 0
    {
      this.token, this.next, this.menuNumber, this.menuLine := token, next, 0, 0;
      this.pos := pos;
    }
  }

  ghost predicate Linked(head: Entry?, nodes: seq<Entry>) {
    head == (if nodes == [] then null else nodes[0]) &&
    (forall i {:trigger nodes[i].next} :: 0 <= i < |nodes| ==> nodes[i].next == if i + 1 < |nodes| then nodes[i + 1] else null) &&
    Apart(nodes)
  }

  ghost function Tokens(nodes: seq<Entry>): (ts: seq<Token>)
    ensures |ts| == |nodes| && forall i :: 0 <= i < |nodes| ==> ts[i] == nodes[i].token
  {
    seq(|nodes|, i requires 0 <= i < |nodes| => nodes[i].token)
  }

  ghost predicate Apart(nodes: seq<Entry>) { forall i :: 0 <= i < |nodes| ==> nodes[i].pos == i }

  predicate Numbered(t: Token) { t == Open || InMenu(t) || t == Defined }

  /** None of the first `k` statements makes the numbering pass give up. */
  ghost predicate Accepted(ts: seq<Token>, k: nat)
    requires k <= |ts|
  {
    forall i :: 0 <= i < k ==> AcceptedAt(ts, i)
  }

  ghost predicate AcceptedAt(ts: seq<Token>, i: nat)
    requires i < |ts|
  {
    (ts[i] == Open ==> |Stack(ts, i)| + 1 < 64 && Opens(ts, i) + 1 < 100) &&
    (ts[i] == Close || InMenu(ts[i]) ==> Stack(ts, i) != [])
  }

  /** Opening a menu adds it to the tables and leaves the other menus there. */
  lemma {:induction false} OpenAdds(ts: seq<Token>, k: nat)
    requires k < |ts| && ts[k] == Open
    ensures var m := Opens(ts, k) + 1; Opens(ts, k + 1) == m && FirstIn(ts, k + 1, m) == k == LastIn(ts, k + 1, m)
    ensures Stack(ts, k + 1) == Stack(ts, k) + [Opens(ts, k) + 1]
    ensures forall m :: 1 <= m <= Opens(ts, k) ==>
      FirstIn(ts, k + 1, m) == FirstIn(ts, k, m) && LastIn(ts, k + 1, m) == LastIn(ts, k, m)
  {}

  /** What a walk writes out. */
  datatype Emission =
    | Submenu(entry: Entry, line: int, number: nat)
    | Question(entry: Entry, line: int)
    | Remark(entry: Entry, line: int)
    | Choice(entry: Entry)

  /** The walk of menu `imenu` stands at statement `p`. */
  ghost predicate Walking(cfg: Entry?, imenu: nat, nr: nat, nodes: seq<Entry>, p: nat) {
    var ts := Tokens(nodes);
    && Balanced(ts) && 1 <= imenu <= Opens(ts, |ts|)
    && var end := Last(ts, imenu);
    && First(ts, imenu) < p <= end && cfg == nodes[p]
    && Stack(ts, p) == Path(ts, First(ts, imenu))
    && nr <= Opens(ts, p) && DeeperUpTo(ts, imenu, nr, Opens(ts, p))
  }

  /** Each statement so far has the number of its innermost menu. */
  ghost predicate NumbersUpTo(nodes: seq<Entry>, k: nat)
    requires k <= |nodes|
    reads nodes`menuNumber
  {
    var ts := Tokens(nodes);
    forall i {:trigger nodes[i]} :: 0 <= i < k && Numbered(ts[i]) ==> nodes[i].menuNumber == Innermost(ts, i)
  }

  /** The walk goes on behind the statement, or behind the submenu that it opens. */
  lemma {:induction false} Onward(cfg: Entry, imenu: nat, nrSubmenu: nat, nr: nat, last: Entry, head: Entry?, nodes: seq<Entry>, p: nat)
    requires Linked(head, nodes) && Walking(cfg, imenu, nrSubmenu, nodes, p) && p < Last(Tokens(nodes), imenu)
    requires cfg.token == Open ==> nr == Opens(Tokens(nodes), p) + 1 && last == nodes[After(Tokens(nodes), p) - 1]
    requires cfg.token != Open ==> nr == nrSubmenu && last == cfg
    ensures Walking(last.next, imenu, nr, nodes, After(Tokens(nodes), p))
  {
    var ts := Tokens(nodes);
    StepsOver(ts, imenu, p);
    assert ts[p] == cfg.token;
    NextNode(head, nodes, After(ts, p) - 1);
  }

  lemma {:induction false} NextNode(head: Entry?, nodes: seq<Entry>, i: nat)
    requires Linked(head, nodes) && i + 1 < |nodes|
    ensures nodes[i].next == nodes[i + 1]
  {}

  class MenuTable {
    const menuFirst: array<Entry?>
    const menuLast: array<Entry?>
    var totMenuNum: nat
    var topLevelNum: nat

    constructor ()
      ensures menuFirst.Length == 100 && menuLast.Length == 100 && menuFirst != menuLast
      ensures fresh(menuFirst) && fresh(menuLast)
    {
      menuFirst := new Entry?[100](_ => null);
      menuLast := new Entry?[100](_ => null);
      totMenuNum, topLevelNum := 0, 0;
    }

    ghost predicate Valid() { menuFirst.Length == 100 && menuLast.Length == 100 && menuFirst != menuLast }

    /** The two tables after the first `k` statements. */
    ghost predicate Tabled(nodes: seq<Entry>, k: nat)
      requires k <= |nodes|
      reads this, menuFirst, menuLast
    {
      var ts := Tokens(nodes);
      && Valid() && totMenuNum == Opens(ts, k) < 100
      && (forall m :: 1 <= m <= totMenuNum ==> menuFirst[m] == nodes[FirstIn(ts, k, m)])
      && (forall m :: 1 <= m <= totMenuNum ==> menuLast[m] == nodes[LastIn(ts, k, m)])
    }

    /** The tables and the numbers. */
    ghost predicate Filled(nodes: seq<Entry>, k: nat)
      requires k <= |nodes|
      reads this, menuFirst, menuLast, nodes`menuNumber
    {
      Tabled(nodes, k) && NumbersUpTo(nodes, k)
    }

    method SetNumber(cfg: Entry, number: nat, ghost nodes: seq<Entry>, ghost k: nat)
      requires k < |nodes| && cfg == nodes[k] && Tabled(nodes, k + 1) && NumbersUpTo(nodes, k) && Apart(nodes)
      requires number == Innermost(Tokens(nodes), k)
      modifies cfg`menuNumber
      ensures Filled(nodes, k + 1)
    {
      cfg.menuNumber := number;
    }

    /** `menuNum[1..depth]` is the stack of open menus. */
    ghost predicate Stacked(menuNum: array<nat>, depth: nat, s: seq<nat>)
      reads menuNum
    {
      menuNum.Length == 64 && depth < 64 && menuNum[..depth + 1] == [0] + s
    }

    /** The innermost menu stands at `depth`; one less is the stack without it. */
    lemma {:induction false} StackedTop(menuNum: array<nat>, depth: nat, s: seq<nat>)
      requires Stacked(menuNum, depth, s)
      ensures |s| == depth && menuNum[depth] == Top(s) && (depth > 0 ==> Stacked(menuNum, depth - 1, Pop(s)))
    {
      assert |menuNum[..depth + 1]| == depth + 1 && menuNum[depth] == menuNum[..depth + 1][depth];
      if depth > 0 { assert menuNum[..depth] == menuNum[..depth + 1][..depth]; }
    }

    /** token_mainmenu_option */
    method OpenMenu(cfg: Entry, menuNum: array<nat>, menuDepth: nat, ghost nodes: seq<Entry>, ghost k: nat)
      returns (bad: bool, depth: nat)
      requires k < |nodes| && cfg == nodes[k] && cfg.token == Open && Filled(nodes, k) && Apart(nodes)
      requires Stacked(menuNum, menuDepth, Stack(Tokens(nodes), k))
      modifies this, menuFirst, menuLast, menuNum, cfg`menuNumber
      ensures bad == !(|Stack(Tokens(nodes), k)| + 1 < 64 && Opens(Tokens(nodes), k) + 1 < 100)
      ensures !bad ==> Filled(nodes, k + 1) && Stacked(menuNum, depth, Stack(Tokens(nodes), k + 1))
    {
      ghost var ts := Tokens(nodes);
      ghost var s := Stack(ts, k);
      StackedTop(menuNum, menuDepth, s);
      depth := menuDepth + 1;
      if depth >= 64 { return true, depth; }
      bad := EnterMenu(cfg, nodes, k);
      if bad { return; }
      OpenAdds(ts, k);
      Push(menuNum, depth, totMenuNum, s);
      SetNumber(cfg, menuNum[depth - 1], nodes, k);
      if depth == 1 { topLevelNum := topLevelNum + 1; }
    }

    method Push(menuNum: array<nat>, depth: nat, m: nat, ghost s: seq<nat>)
      requires 0 < depth < 64 && Stacked(menuNum, depth - 1, s)
      modifies menuNum
      ensures Stacked(menuNum, depth, s + [m]) && menuNum[depth - 1] == Top(s)
    {
      StackedTop(menuNum, depth - 1, s);
      menuNum[depth] := m;
      assert menuNum[..depth + 1] == ([0] + s) + [m] == [0] + (s + [m]);
    }

    method EnterMenu(cfg: Entry, ghost nodes: seq<Entry>, ghost k: nat) returns (bad: bool)
      requires k < |nodes| && cfg == nodes[k] && cfg.token == Open && Tabled(nodes, k)
      modifies this`totMenuNum, menuFirst, menuLast
      ensures bad == !(Opens(Tokens(nodes), k) + 1 < 100) && (!bad ==> Tabled(nodes, k + 1))
    {
      totMenuNum := totMenuNum + 1;
      if totMenuNum >= 100 { return true; }
      menuFirst[totMenuNum] := cfg;
      menuLast[totMenuNum] := cfg;
      OpenAdds(Tokens(nodes), k);
      return false;
    }

    /** token_endmenu */
    method CloseMenu(cfg: Entry, menuNum: array<nat>, menuDepth: nat, ghost nodes: seq<Entry>, ghost k: nat)
      returns (bad: bool, depth: nat)
      requires k < |nodes| && cfg == nodes[k] && cfg.token == Close && Filled(nodes, k)
      requires Stacked(menuNum, menuDepth, Stack(Tokens(nodes), k))
      modifies menuLast
      ensures bad == (Stack(Tokens(nodes), k) == [])
      ensures !bad ==> Filled(nodes, k + 1) && Stacked(menuNum, depth, Stack(Tokens(nodes), k + 1))
    {
      ghost var ts := Tokens(nodes);
      StackedTop(menuNum, menuDepth, Stack(ts, k));
      StackRises(ts, k);
      menuLast[menuNum[menuDepth]] := cfg;
      if menuDepth == 0 { return true, menuDepth; }
      bad, depth := false, menuDepth - 1;
      assert Stack(ts, k + 1) == Pop(Stack(ts, k));
    }

    /** A statement that is numbered after its innermost menu. */
    method NumberStatement(cfg: Entry, menuNum: array<nat>, menuDepth: nat, ghost nodes: seq<Entry>, ghost k: nat)
      requires k < |nodes| && cfg == nodes[k] && (InMenu(cfg.token) || cfg.token == Defined) && Filled(nodes, k) && Apart(nodes)
      requires Stacked(menuNum, menuDepth, Stack(Tokens(nodes), k))
      modifies cfg`menuNumber
      ensures Filled(nodes, k + 1) && Stacked(menuNum, menuDepth, Stack(Tokens(nodes), k + 1))
    {
      StackedTop(menuNum, menuDepth, Stack(Tokens(nodes), k));
      assert Tabled(nodes, k + 1);
      SetNumber(cfg, menuNum[menuDepth], nodes, k);
    }

    /** A statement of no interest leaves the tables as they are. */
    lemma {:induction false} OtherFilled(nodes: seq<Entry>, k: nat)
      requires k < |nodes| && nodes[k].token == Other && Filled(nodes, k)
      ensures Filled(nodes, k + 1) && Stack(Tokens(nodes), k + 1) == Stack(Tokens(nodes), k)
    {}

    /** One statement of the numbering pass; `bad` when it makes the pass give up. */
    method NumberOne(cfg: Entry, menuNum: array<nat>, menuDepth: nat, ghost nodes: seq<Entry>, ghost k: nat)
      returns (bad: bool, depth: nat)
      requires k < |nodes| && cfg == nodes[k] && Filled(nodes, k) && Apart(nodes)
      requires Stacked(menuNum, menuDepth, Stack(Tokens(nodes), k))
      modifies this, menuFirst, menuLast, menuNum, cfg`menuNumber
      ensures bad == !AcceptedAt(Tokens(nodes), k)
      ensures !bad ==> Filled(nodes, k + 1) && Stacked(menuNum, depth, Stack(Tokens(nodes), k + 1))
    {
      bad, depth := false, menuDepth;
      ghost var ts := Tokens(nodes);
      StackedTop(menuNum, menuDepth, Stack(ts, k));
      assert ts[k] == cfg.token && |Stack(ts, k)| == menuDepth;
      match cfg.token
      case Open => bad, depth := OpenMenu(cfg, menuNum, menuDepth, nodes, k);
      case Close => bad, depth := CloseMenu(cfg, menuNum, menuDepth, nodes, k);
      case Defined => NumberStatement(cfg, menuNum, menuDepth, nodes, k);
      case Other => OtherFilled(nodes, k);
      case _ =>
        NumberStatement(cfg, menuNum, menuDepth, nodes, k);
        bad := menuDepth == 0;
    }

    /** The numbering pass; it gives up exactly on menus nested too deep, too
        many menus, an endmenu too much, or a question outside all menus. */
    method Number(head: Entry?, ghost nodes: seq<Entry>) returns (exited: bool)
      requires Valid() && Linked(head, nodes)
      modifies this, menuFirst, menuLast, nodes`menuNumber
      ensures exited == !Accepted(Tokens(nodes), |nodes|)
      ensures !exited ==> Filled(nodes, |nodes|)
    {
      totMenuNum, topLevelNum := 0, 0;
      var menuNum := new nat[64](_ => 0);
      var menuDepth: nat := 0;
      var cfg := head;
      ghost var k: nat := 0;
      assert menuNum[..1] == [0] + Stack(Tokens(nodes), 0);
      while cfg != null
        invariant k <= |nodes| && cfg == if k < |nodes| then nodes[k] else null
        invariant Filled(nodes, k) && Stacked(menuNum, menuDepth, Stack(Tokens(nodes), k)) && Accepted(Tokens(nodes), k)
        decreases |nodes| - k
      {
        var bad;
        bad, menuDepth := NumberOne(cfg, menuNum, menuDepth, nodes, k);
        if bad { return true; }
        cfg := cfg.next;
        k := k + 1;
      }
      return false;
    }

    /** The search `++nr_submenu`: it lands on the submenu just met. */
    method FindSubmenu(imenu: nat, nrSubmenu: nat, ghost nodes: seq<Entry>, ghost m: nat) returns (nr: nat)
      requires Filled(nodes, |nodes|) && nrSubmenu < m <= totMenuNum
      requires DeeperUpTo(Tokens(nodes), imenu, nrSubmenu, m - 1) && Parent(Tokens(nodes), m) <= imenu
      ensures nr == m
    {
      ghost var ts := Tokens(nodes);
      nr := nrSubmenu + 1;
      ParentField(nodes, nr);
      while menuFirst[nr].menuNumber > imenu
        invariant nrSubmenu < nr <= m && menuFirst[nr] != null && menuFirst[nr].menuNumber == Parent(ts, nr)
        decreases m - nr
      {
        nr := nr + 1;
        ParentField(nodes, nr);
      }
    }

    /** The table leads to the number of a menu's parent. */
    lemma {:induction false} ParentField(nodes: seq<Entry>, m: nat)
      requires Filled(nodes, |nodes|) && 1 <= m <= totMenuNum
      ensures menuFirst[m] == nodes[First(Tokens(nodes), m)] && menuFirst[m].menuNumber == Parent(Tokens(nodes), m)
      ensures menuLast[m] == nodes[Last(Tokens(nodes), m)]
    {}

    /** start_proc: the windows to destroy before the next menu is shown. */
    method Destroyed(menuNum: nat, ghost nodes: seq<Entry>) returns (names: seq<nat>)
      requires Filled(nodes, |nodes|) && Balanced(Tokens(nodes)) && 1 <= menuNum <= totMenuNum
      ensures var ts := Tokens(nodes);
        && (menuNum == totMenuNum ==> names == [])
        && (menuNum < totMenuNum ==> Windows(ts, menuNum) == Pop(Windows(ts, menuNum + 1)) + Reversed(names))
    {
      ghost var ts := Tokens(nodes);
      names := [];
      if menuNum == totMenuNum { return; }
      ParentField(nodes, menuNum);
      ParentField(nodes, menuNum + 1);
      NextDestroys(ts, menuNum);
      if menuFirst[menuNum + 1].menuNumber != menuNum {
        names := ClimbWindows(menuNum, nodes);
      }
    }

    /** The windows from this menu up to the parent of the next one. */
    method ClimbWindows(menuNum: nat, ghost nodes: seq<Entry>) returns (names: seq<nat>)
      requires Filled(nodes, |nodes|) && Balanced(Tokens(nodes)) && 1 <= menuNum < totMenuNum
      ensures var ts := Tokens(nodes);
        names == [menuNum] + Climb(ts, Parent(ts, menuNum), Parent(ts, menuNum + 1))
    {
      ghost var ts := Tokens(nodes);
      ParentField(nodes, menuNum);
      ParentField(nodes, menuNum + 1);
      names := [menuNum];
      var toDestr: nat := menuFirst[menuNum].menuNumber;
      ghost var stop := Parent(ts, menuNum + 1);
      ghost var goal := [menuNum] + Climb(ts, toDestr, stop);
      while toDestr > 0 && menuFirst[menuNum + 1].menuNumber != toDestr
        invariant toDestr <= totMenuNum && names + Climb(ts, toDestr, stop) == goal
        decreases toDestr
      {
        ParentField(nodes, toDestr);
        ClimbGoesOn(ts, toDestr, stop, names, goal);
        names := names + [toDestr];
        toDestr := menuFirst[toDestr].menuNumber;
      }
      assert names + [] == names;
    }

    lemma {:induction false} ClimbGoesOn(ts: seq<Token>, m: nat, stop: nat, names: seq<nat>, goal: seq<nat>)
      requires 0 < m <= Opens(ts, |ts|) && m != stop && names + Climb(ts, m, stop) == goal
      ensures (names + [m]) + Climb(ts, Parent(ts, m), stop) == goal
    {
      var above := Climb(ts, Parent(ts, m), stop);
      assert names + ([m] + above) == (names + [m]) + above;
    }

    // -------------------------------------------------------------------
    // The walk
    // -------------------------------------------------------------------

    method SetLine(cfg: Entry, line: int, ghost nodes: seq<Entry>, ghost p: nat)
      requires p < |nodes| && cfg == nodes[p] && Apart(nodes) && Filled(nodes, |nodes|)
      modifies cfg`menuLine
      ensures cfg.menuLine == line && LinesOf(nodes) == old(LinesOf(nodes))[p := line] && Filled(nodes, |nodes|)
    {
      cfg.menuLine := line;
    }

    /** A submenu is met: its number and its end. */
    method VisitSubmenu(cfg: Entry, imenu: nat, nrSubmenu: nat, ghost nodes: seq<Entry>, ghost p: nat)
      returns (nr: nat, last: Entry)
      requires p < |nodes| && cfg == nodes[p] && cfg.token == Open && Filled(nodes, |nodes|) && Balanced(Tokens(nodes))
      requires nrSubmenu <= Opens(Tokens(nodes), p)
      requires DeeperUpTo(Tokens(nodes), imenu, nrSubmenu, Opens(Tokens(nodes), p))
      requires var m := Opens(Tokens(nodes), p) + 1; m <= totMenuNum && Parent(Tokens(nodes), m) == imenu
      ensures nr == Opens(Tokens(nodes), p) + 1 && last == nodes[After(Tokens(nodes), p) - 1]
    {
      nr := FindSubmenu(imenu, nrSubmenu, nodes, Opens(Tokens(nodes), p) + 1);
      ParentField(nodes, nr);
      last := menuLast[nr];
    }

    /** Any statement of the walk: its line, and what is written out for it. */
    method GiveLine(cfg: Entry, nr: nat, menuLine: nat, nameOmitted: bool, ghost nodes: seq<Entry>, ghost p: nat)
      returns (line: nat, omitted: bool, out: seq<Emission>)
      requires p < |nodes| && cfg == nodes[p] && Apart(nodes) && Filled(nodes, |nodes|)
      requires cfg.token == Comment ==> cfg.menuLine == 0
      modifies cfg`menuLine
      ensures Filled(nodes, |nodes|)
      ensures (line, omitted) == NextLine(cfg.token, menuLine, nameOmitted)
      ensures out == Written(cfg, menuLine, nameOmitted, nr)
      ensures LinesOf(nodes) == LinesAfter(cfg.token, old(LinesOf(nodes)), p, menuLine, nameOmitted)
    {
      line, omitted, out := menuLine, nameOmitted, [];
      match cfg.token
      case Open =>
        SetLine(cfg, menuLine, nodes, p);
        line := menuLine + 1;
        out := [Submenu(cfg, cfg.menuLine, nr)];
      case Comment =>
        omitted := true;
        if cfg.menuLine == 0 && !nameOmitted {
          SetLine(cfg, -1, nodes, p);
        } else {
          SetLine(cfg, menuLine, nodes, p);
          line := menuLine + 1;
          out := [Remark(cfg, cfg.menuLine)];
        }
      case Asked =>
        SetLine(cfg, menuLine, nodes, p);
        line := menuLine + 1;
        out := [Question(cfg, cfg.menuLine)];
      case Item => out := [Choice(cfg)];
      case _ =>
    }

    /** Where the walk goes on, with the number of the submenu stepped over. */
    method StepOver(cfg: Entry, imenu: nat, nrSubmenu: nat, ghost head: Entry?, ghost nodes: seq<Entry>, ghost p: nat)
      returns (nr: nat, next: Entry?)
      requires Linked(head, nodes) && Filled(nodes, |nodes|) && Walking(cfg, imenu, nrSubmenu, nodes, p)
      requires p < Last(Tokens(nodes), imenu)
      ensures Walking(next, imenu, nr, nodes, After(Tokens(nodes), p))
      ensures cfg.token == Open ==> nr == Opens(Tokens(nodes), p) + 1
    {
      var last := cfg;
      nr := nrSubmenu;
      if cfg.token == Open {
        SubmenuMet(cfg, imenu, nrSubmenu, nodes, p);
        nr, last := VisitSubmenu(cfg, imenu, nrSubmenu, nodes, p);
      }
      next := last.next;
      Onward(cfg, imenu, nrSubmenu, nr, last, head, nodes, p);
    }

    lemma {:induction false} SubmenuMet(cfg: Entry, imenu: nat, nrSubmenu: nat, nodes: seq<Entry>, p: nat)
      requires Filled(nodes, |nodes|) && Walking(cfg, imenu, nrSubmenu, nodes, p)
      requires p < Last(Tokens(nodes), imenu) && cfg.token == Open
      ensures nrSubmenu <= Opens(Tokens(nodes), p) && DeeperUpTo(Tokens(nodes), imenu, nrSubmenu, Opens(Tokens(nodes), p))
      ensures var m := Opens(Tokens(nodes), p) + 1; m <= totMenuNum && Parent(Tokens(nodes), m) == imenu
    {
      StepsOver(Tokens(nodes), imenu, p);
    }

    /** One turn of the loop. */
    method WalkOne(cfg: Entry, imenu: nat, nrSubmenu: nat, menuLine: nat, nameOmitted: bool,
                   ghost head: Entry?, ghost nodes: seq<Entry>, ghost p: nat)
      returns (nr: nat, line: nat, omitted: bool, out: seq<Emission>, next: Entry?)
      requires Linked(head, nodes) && Filled(nodes, |nodes|) && Walking(cfg, imenu, nrSubmenu, nodes, p)
      requires p < Last(Tokens(nodes), imenu) && (cfg.token == Comment ==> cfg.menuLine == 0)
      modifies cfg`menuLine
      ensures Filled(nodes, |nodes|) && Walking(next, imenu, nr, nodes, After(Tokens(nodes), p))
      ensures p < |nodes| && cfg == nodes[p]
      ensures Turned(cfg, nodes, p, old(LinesOf(nodes)), LinesOf(nodes), menuLine, nameOmitted, line, omitted, out)
    {
      nr, next := StepOver(cfg, imenu, nrSubmenu, head, nodes, p);
      ghost var was := LinesOf(nodes);
      line, omitted, out := GiveLine(cfg, nr, menuLine, nameOmitted, nodes, p);
      IsTurned(cfg, nodes, p, nr, was, LinesOf(nodes), menuLine, nameOmitted, line, omitted, out);
    }

    /** The same turn, for all lines and all that is written out. */
    method WalkTurn(cfg: Entry, imenu: nat, nrSubmenu: nat, menuLine: nat, nameOmitted: bool, soFar: seq<Emission>,
                    ghost head: Entry?, ghost nodes: seq<Entry>, ghost p: nat, ghost rest: seq<nat>, ghost goal: Goal)
      returns (nr: nat, line: nat, omitted: bool, out: seq<Emission>, next: Entry?)
      requires Linked(head, nodes) && Filled(nodes, |nodes|) && Walking(cfg, imenu, nrSubmenu, nodes, p)
      requires p < Last(Tokens(nodes), imenu) && rest != [] && rest[0] == p && p !in rest[1..]
      requires ToCome(nodes, LinesOf(nodes), rest, menuLine, nameOmitted, soFar, goal)
      modifies cfg`menuLine
      ensures Filled(nodes, |nodes|) && Walking(next, imenu, nr, nodes, After(Tokens(nodes), p))
      ensures ToCome(nodes, LinesOf(nodes), rest[1..], line, omitted, out, goal)
    {
      ghost var was := LinesOf(nodes);
      assert was[p] == cfg.menuLine && Tokens(nodes)[p] == cfg.token;
      nr, line, omitted, out, next := WalkOne(cfg, imenu, nrSubmenu, menuLine, nameOmitted, head, nodes, p);
      ghost var now := LinesOf(nodes);
      ToComeStep(nodes, was, now, rest, menuLine, nameOmitted, line, omitted, soFar, out, goal);
      out := soFar + out;
    }

    lemma {:induction false} RestOfWalk(imenu: nat, cfg: Entry, nr: nat, nodes: seq<Entry>, p: nat)
      requires Filled(nodes, |nodes|) && Walking(cfg, imenu, nr, nodes, p) && cfg != menuLast[imenu]
      ensures p < Last(Tokens(nodes), imenu)
      ensures var ts := Tokens(nodes); var rest := Walk(ts, p, Last(ts, imenu));
        rest != [] && rest[0] == p && p !in rest[1..] && rest[1..] == Walk(ts, After(ts, p), Last(ts, imenu))
    {
      ParentField(nodes, imenu);
    }

    lemma {:induction false} WalkBegins(imenu: nat, head: Entry?, nodes: seq<Entry>)
      requires Linked(head, nodes) && Filled(nodes, |nodes|) && Balanced(Tokens(nodes)) && 1 <= imenu <= totMenuNum
      ensures menuFirst[imenu] != null && Walking(menuFirst[imenu].next, imenu, imenu, nodes, First(Tokens(nodes), imenu) + 1)
    {
      MenuIsWithin(Tokens(nodes), imenu);
      ParentField(nodes, imenu);
    }

    /** The walk of one menu. */
    method WalkMenu(imenu: nat, ghost head: Entry?, ghost nodes: seq<Entry>) returns (out: seq<Emission>)
      requires Linked(head, nodes) && Filled(nodes, |nodes|) && Balanced(Tokens(nodes)) && 1 <= imenu <= totMenuNum
      requires CommentsUnset(Tokens(nodes), LinesOf(nodes), MenuWalk(Tokens(nodes), imenu))
      modifies nodes`menuLine
      ensures Filled(nodes, |nodes|)
      ensures out == Output(nodes, MenuWalk(Tokens(nodes), imenu), 0, false)
      ensures LinesOf(nodes) == Assigned(Tokens(nodes), old(LinesOf(nodes)), MenuWalk(Tokens(nodes), imenu), 0, false)
    {
      ghost var ts := Tokens(nodes);
      WalkBegins(imenu, head, nodes);
      out := [];
      var menuLine: nat, nrSubmenu, nameOmitted := 0, imenu, false;
      var cfg := menuFirst[imenu].next;
      ghost var p: nat, rest := First(ts, imenu) + 1, MenuWalk(ts, imenu);
      ghost var goal := Goal(Output(nodes, rest, 0, false), Assigned(ts, LinesOf(nodes), rest, 0, false));
      while cfg != null && cfg != menuLast[imenu]
        invariant Filled(nodes, |nodes|)
        invariant Walking(cfg, imenu, nrSubmenu, nodes, p) && rest == Walk(ts, p, Last(ts, imenu))
        invariant ToCome(nodes, LinesOf(nodes), rest, menuLine, nameOmitted, out, goal)
        decreases |nodes| - p
      {
        RestOfWalk(imenu, cfg, nrSubmenu, nodes, p);
        nrSubmenu, menuLine, nameOmitted, out, cfg :=
          WalkTurn(cfg, imenu, nrSubmenu, menuLine, nameOmitted, out, head, nodes, p, rest, goal);
        rest, p := rest[1..], After(ts, p);
      }
      assert rest == [];
    }

    /** The windows that the menu's Next button destroys, and the walk of the menu. */
    method DumpOne(imenu: nat, ghost head: Entry?, ghost nodes: seq<Entry>) returns (page: Page)
      requires Linked(head, nodes) && Filled(nodes, |nodes|) && Balanced(Tokens(nodes)) && 1 <= imenu <= totMenuNum
      requires LinesUpTo(nodes, imenu)
      modifies nodes`menuLine
      ensures Filled(nodes, |nodes|) && PageOf(nodes, imenu, page) && LinesUpTo(nodes, imenu + 1)
    {
      ghost var ts, was := Tokens(nodes), LinesOf(nodes);
      var destroyed := Destroyed(imenu, nodes);
      OthersUnset(nodes, imenu);
      var out := WalkMenu(imenu, head, nodes);
      AssignedLines(ts, was, MenuWalk(ts, imenu), 0, false);
      OneMoreMenu(ts, was, LinesOf(nodes), imenu);
      page := Page(destroyed, out);
    }

    /** All menus in order. */
    method Dump(ghost head: Entry?, ghost nodes: seq<Entry>) returns (pages: seq<Page>)
      requires Linked(head, nodes) && Filled(nodes, |nodes|) && Balanced(Tokens(nodes))
      requires forall i :: 0 <= i < |nodes| ==> nodes[i].menuLine == 0
      modifies nodes`menuLine
      ensures |pages| == Opens(Tokens(nodes), |nodes|)
      ensures PagesOf(nodes, pages)
      ensures LinesUpTo(nodes, Opens(Tokens(nodes), |nodes|) + 1)
    {
      pages := [];
      var imenu: nat := 1;
      while imenu <= totMenuNum
        invariant 1 <= imenu <= totMenuNum + 1 && |pages| == imenu - 1
        invariant Filled(nodes, |nodes|) && PagesOf(nodes, pages)
        invariant LinesUpTo(nodes, imenu)
      {
        var page := DumpOne(imenu, head, nodes);
        OneMorePage(nodes, pages, imenu, page);
        pages := pages + [page];
        imenu := imenu + 1;
      }
    }
  }

  datatype Page = Page(destroyed: seq<nat>, out: seq<Emission>)

  ghost predicate PageOf(nodes: seq<Entry>, m: nat, page: Page)
    requires Balanced(Tokens(nodes)) && 1 <= m <= Opens(Tokens(nodes), |nodes|)
  {
    var ts := Tokens(nodes);
    && page.out == Output(nodes, MenuWalk(ts, m), 0, false)
    && (m < Opens(ts, |ts|) ==> Windows(ts, m) == Pop(Windows(ts, m + 1)) + Reversed(page.destroyed))
    && (m == Opens(ts, |ts|) ==> page.destroyed == [])
  }

  ghost predicate PagesOf(nodes: seq<Entry>, pages: seq<Page>)
    requires Balanced(Tokens(nodes))
  {
    |pages| <= Opens(Tokens(nodes), |nodes|) && forall i :: 0 <= i < |pages| ==> PageOf(nodes, i + 1, pages[i])
  }

  lemma {:induction false} OneMorePage(nodes: seq<Entry>, pages: seq<Page>, m: nat, page: Page)
    requires Balanced(Tokens(nodes)) && PagesOf(nodes, pages) && m == |pages| + 1 <= Opens(Tokens(nodes), |nodes|)
    requires PageOf(nodes, m, page)
    ensures PagesOf(nodes, pages + [page])
  {
    var more := pages + [page];
    forall i | 0 <= i < |more| ensures PageOf(nodes, i + 1, more[i]) {
      if i < |pages| { assert PageOf(nodes, i + 1, pages[i]); }
    }
  }

  /** The menus below `n` have their lines, and nothing else has one. */
  ghost predicate LinesUpTo(nodes: seq<Entry>, n: nat)
    requires Balanced(Tokens(nodes))
    reads nodes
  {
    GivenUpTo(Tokens(nodes), LinesOf(nodes), n)
  }

  ghost predicate GivenUpTo(ts: seq<Token>, lines: seq<int>, n: nat)
    requires Balanced(ts)
  {
    && |lines| == |ts|
    && (forall m :: 1 <= m < n && m <= Opens(ts, |ts|) ==> GivenIn(ts, lines, m))
    && (forall q :: 0 <= q < |ts| && !(TakesLine(ts[q]) && 1 <= Innermost(ts, q) < n) ==> lines[q] == 0)
  }

  ghost predicate GivenIn(ts: seq<Token>, lines: seq<int>, m: nat)
    requires Balanced(ts) && 1 <= m <= Opens(ts, |ts|) && |lines| == |ts|
  {
    var visits := MenuWalk(ts, m);
    forall i :: 0 <= i < |visits| && TakesLine(ts[visits[i]]) ==> lines[visits[i]] == Lines(ts, visits, 0, false)[i]
  }

  lemma {:induction false} OthersUnset(nodes: seq<Entry>, m: nat)
    requires Balanced(Tokens(nodes)) && LinesUpTo(nodes, m) && 1 <= m <= Opens(Tokens(nodes), |nodes|)
    ensures CommentsUnset(Tokens(nodes), LinesOf(nodes), MenuWalk(Tokens(nodes), m))
  {
    var ts := Tokens(nodes);
    forall q | 0 <= q < |nodes| && q in MenuWalk(ts, m) && ts[q] == Comment ensures LinesOf(nodes)[q] == 0 {
      WalksPartition(ts, q, m);
    }
  }

  /** The walk of the next menu gives lines to its own statements and leaves the others alone. */
  lemma {:induction false} OneMoreMenu(ts: seq<Token>, was: seq<int>, now: seq<int>, m: nat)
    requires Balanced(ts) && 1 <= m <= Opens(ts, |ts|) && GivenUpTo(ts, was, m) && |now| == |ts| && GivenIn(ts, now, m)
    requires forall q :: 0 <= q < |ts| && !(q in MenuWalk(ts, m) && TakesLine(ts[q])) ==> now[q] == was[q]
    ensures GivenUpTo(ts, now, m + 1)
  {
    forall k | 1 <= k < m ensures GivenIn(ts, now, k) {
      assert GivenIn(ts, was, k);
      var visits := MenuWalk(ts, k);
      forall i | 0 <= i < |visits| && TakesLine(ts[visits[i]]) ensures now[visits[i]] == was[visits[i]] {
        WalksPartition(ts, visits[i], k);
        WalksPartition(ts, visits[i], m);
      }
    }
    forall q | 0 <= q < |ts| && !(TakesLine(ts[q]) && 1 <= Innermost(ts, q) < m + 1) ensures now[q] == 0 {
      if ts[q] != Close { WalksPartition(ts, q, m); }
    }
  }

  /** No two statements share a menu and a line. */
  lemma {:induction false} LinesDistinct(ts: seq<Token>, lines: seq<int>, p: nat, q: nat)
    requires Balanced(ts) && GivenUpTo(ts, lines, Opens(ts, |ts|) + 1) && p < q < |ts|
    requires TakesLine(ts[p]) && TakesLine(ts[q]) && Stack(ts, p) != [] && Innermost(ts, p) == Innermost(ts, q)
    ensures lines[p] >= 0 && lines[q] >= 0 ==> lines[p] < lines[q]
    ensures lines[p] < 0 ==> lines[p] == -1 && ts[p] == Comment && lines[q] >= 0
  {
    var m := Innermost(ts, p);
    InnermostIsMenu(ts, p);
    WalksPartition(ts, p, m);
    WalksPartition(ts, q, m);
    var visits := MenuWalk(ts, m);
    var i :| 0 <= i < |visits| && visits[i] == p;
    var j :| 0 <= j < |visits| && visits[j] == q;
    assert GivenIn(ts, lines, m);
    LinesRise(ts, visits, 0, false, i, j);
    LinesFrom(ts, visits, 0, false, i);
    LinesFrom(ts, visits, 0, false, j);
    OnlyCommentsOmitted(ts, visits, 0, false, i);
  }

  lemma {:induction false} OnlyCommentsOmitted(ts: seq<Token>, visits: seq<nat>, line: nat, omitted: bool, i: nat)
    requires Positions(ts, visits) && i < |visits|
    ensures Lines(ts, visits, line, omitted)[i] < 0 ==> ts[visits[i]] == Comment
    decreases |visits|
  {
    var (l, o) := NextLine(ts[visits[0]], line, omitted);
    if i > 0 { OnlyCommentsOmitted(ts, visits[1..], l, o, i - 1); }
  }

  // ---------------------------------------------------------------------
  // Each statement once
  // ---------------------------------------------------------------------

  function Count(out: seq<Emission>, e: Entry): nat {
    if out == [] then 0 else (if out[0].entry == e then 1 else 0) + Count(out[1..], e)
  }

  lemma {:induction false} CountTogether(x: seq<Emission>, y: seq<Emission>, e: Entry)
    ensures Count(x + y, e) == Count(x, e) + Count(y, e)
    decreases |x|
  {
    if x == [] {
      assert x + y == y;
    } else {
      assert (x + y)[1..] == x[1..] + y;
      CountTogether(x[1..], y, e);
    }
  }

  predicate IsWritten(t: Token) { t == Open || t == Asked || t == Item }

  lemma {:induction false} OutputOnce(nodes: seq<Entry>, visits: seq<nat>, line: nat, omitted: bool, q: nat)
    requires Apart(nodes) && Positions(Tokens(nodes), visits) && Rising(visits) && q < |nodes|
    ensures var n := Count(Output(nodes, visits, line, omitted), nodes[q]);
      && n <= (if q in visits then 1 else 0)
      && (q in visits && IsWritten(nodes[q].token) ==> n == 1)
      && (!IsWritten(nodes[q].token) && nodes[q].token != Comment ==> n == 0)
    decreases |visits|
  {
    if visits != [] {
      var p := visits[0];
      var e := nodes[p];
      var (l, o) := NextLine(e.token, line, omitted);
      OutputOnce(nodes, visits[1..], l, o, q);
      OutputStep(nodes, visits, line, omitted);
      var w := Written(e, line, omitted, Opens(Tokens(nodes), p) + 1);
      CountTogether(w, Output(nodes, visits[1..], l, o), nodes[q]);
      CountWritten(e, line, omitted, Opens(Tokens(nodes), p) + 1, nodes[q]);
      assert q in visits <==> q == p || q in visits[1..];
      assert p !in visits[1..];
    }
  }

  lemma {:induction false} CountWritten(e: Entry, line: nat, omitted: bool, number: nat, f: Entry)
    ensures var n := Count(Written(e, line, omitted, number), f);
      && n <= 1 && (e != f ==> n == 0)
      && (e == f && IsWritten(e.token) ==> n == 1)
      && (!IsWritten(e.token) && e.token != Comment ==> n == 0)
  {
    var w := Written(e, line, omitted, number);
    if w != [] { assert w[1..] == []; }
  }

  /** Every question, choice item and submenu is written out exactly once, in
      the pass of its innermost menu; a comment at most once. */
  lemma {:induction false} WrittenOnce(nodes: seq<Entry>, q: nat, m: nat)
    requires Apart(nodes) && Balanced(Tokens(nodes)) && q < |nodes| && nodes[q].token != Close
    requires 1 <= m <= Opens(Tokens(nodes), |nodes|)
    ensures var ts := Tokens(nodes); var n := Count(Output(nodes, MenuWalk(ts, m), 0, false), nodes[q]);
      && (Innermost(ts, q) != m ==> n == 0)
      && (Innermost(ts, q) == m && IsWritten(ts[q]) ==> n == 1) && n <= 1
  {
    WalksPartition(Tokens(nodes), q, m);
    OutputOnce(nodes, MenuWalk(Tokens(nodes), m), 0, false, q);
  }

  /** What a walk has to come to. */
  datatype Goal = Goal(out: seq<Emission>, lines: seq<int>)

  ghost predicate ToCome(nodes: seq<Entry>, lines: seq<int>, rest: seq<nat>, line: nat, omitted: bool, out: seq<Emission>, goal: Goal) {
    Positions(Tokens(nodes), rest) && CommentsUnset(Tokens(nodes), lines, rest) &&
    out + Output(nodes, rest, line, omitted) == goal.out && Assigned(Tokens(nodes), lines, rest, line, omitted) == goal.lines
  }

  /** What one statement does to the line, to the lines given, and to what is written out. */
  ghost predicate Turned(e: Entry, nodes: seq<Entry>, p: nat, lines: seq<int>, now: seq<int>,
                         line: nat, omitted: bool, l: nat, o: bool, w: seq<Emission>)
    requires p < |nodes| == |lines|
  {
    (l, o) == NextLine(e.token, line, omitted) && w == Written(e, line, omitted, Opens(Tokens(nodes), p) + 1) &&
    now == LinesAfter(e.token, lines, p, line, omitted)
  }

  lemma {:induction false} IsTurned(e: Entry, nodes: seq<Entry>, p: nat, nr: nat, lines: seq<int>, now: seq<int>,
                                    line: nat, omitted: bool, l: nat, o: bool, w: seq<Emission>)
    requires p < |nodes| == |lines| && (e.token == Open ==> nr == Opens(Tokens(nodes), p) + 1)
    requires (l, o) == NextLine(e.token, line, omitted) && w == Written(e, line, omitted, nr)
    requires now == LinesAfter(e.token, lines, p, line, omitted)
    ensures Turned(e, nodes, p, lines, now, line, omitted, l, o, w)
  {}

  lemma {:induction false} ToComeStep(nodes: seq<Entry>, lines: seq<int>, now: seq<int>, rest: seq<nat>,
                                      line: nat, omitted: bool, l: nat, o: bool,
                                      out: seq<Emission>, w: seq<Emission>, goal: Goal)
    requires ToCome(nodes, lines, rest, line, omitted, out, goal) && rest != [] && rest[0] !in rest[1..]
    requires Turned(nodes[rest[0]], nodes, rest[0], lines, now, line, omitted, l, o, w)
    ensures ToCome(nodes, now, rest[1..], l, o, out + w, goal)
  {
    OutputStep(nodes, rest, line, omitted);
    var y := Output(nodes, rest[1..], l, o);
    assert out + (w + y) == (out + w) + y;
  }

  /** The comments among these statements have no line yet. */
  ghost predicate CommentsUnset(ts: seq<Token>, lines: seq<int>, visits: seq<nat>) {
    |lines| == |ts| && forall q :: 0 <= q < |ts| && q in visits && ts[q] == Comment ==> lines[q] == 0
  }

  lemma {:induction false} OutputStep(nodes: seq<Entry>, visits: seq<nat>, line: nat, omitted: bool)
    requires Positions(Tokens(nodes), visits) && visits != []
    ensures var e := nodes[visits[0]]; var (l, o) := NextLine(e.token, line, omitted);
      Output(nodes, visits, line, omitted) ==
        Written(e, line, omitted, Opens(Tokens(nodes), visits[0]) + 1) + Output(nodes, visits[1..], l, o)
  {}

  ghost function LinesOf(nodes: seq<Entry>): (lines: seq<int>)
    reads nodes
    ensures |lines| == |nodes| && forall i :: 0 <= i < |nodes| ==> lines[i] == nodes[i].menuLine
  {
    seq(|nodes|, i requires 0 <= i < |nodes| reads nodes => nodes[i].menuLine)
  }

  /** What a walk writes out, statement by statement. */
  ghost function Output(nodes: seq<Entry>, visits: seq<nat>, line: nat, omitted: bool): seq<Emission>
    requires Positions(Tokens(nodes), visits)
  {
    if visits == [] then []
    else
      var e := nodes[visits[0]];
      var (l, o) := NextLine(e.token, line, omitted);
      Written(e, line, omitted, Opens(Tokens(nodes), visits[0]) + 1) + Output(nodes, visits[1..], l, o)
  }

  function LinesAfter(t: Token, lines: seq<int>, p: nat, line: nat, omitted: bool): seq<int>
    requires p < |lines|
  {
    if TakesLine(t) then lines[p := GivenLine(t, line, omitted)] else lines
  }

  /** What is written out for one statement; a submenu with its number. */
  function Written(e: Entry, line: nat, omitted: bool, number: nat): seq<Emission> {
    match e.token
    case Open => [Submenu(e, line, number)]
    case Asked => [Question(e, line)]
    case Comment => if omitted then [Remark(e, line)] else []
    case Item => [Choice(e)]
    case _ => []
  }
}
