/** The nesting of menus in a statement list: numbers, parents, and the walk
    of one menu that steps over its submenus. */
module Menus {

  /** The statements, by what the passes do with them: `Asked` are the
      questions, `Item` the choice items, `Defined` the statements that set a
      variable without asking. */
  datatype Token = Open | Close | Asked | Comment | Item | Defined | Other

  predicate InMenu(t: Token) { t == Asked || t == Comment || t == Item }

  /** Menus opened by the first `i` statements. */
  function Opens(ts: seq<Token>, i: nat): nat
    requires i <= |ts|
  {
    if i == 0 then 0 else Opens(ts, i - 1) + if ts[i - 1] == Open then 1 else 0
  }

  function Pop(s: seq<nat>): seq<nat> { if s == [] then [] else s[..|s| - 1] }

  /** The menus that enclose statement `i`, outermost first. */
  function Stack(ts: seq<Token>, i: nat): seq<nat>
    requires i <= |ts|
  {
    if i == 0 then []
    else
      var s := Stack(ts, i - 1);
      match ts[i - 1]
      case Open => s + [Opens(ts, i)]
      case Close => Pop(s)
      case _ => s
  }

  function Top(s: seq<nat>): nat { if s == [] then 0 else s[|s| - 1] }

  /** The innermost menu around statement `i`, 0 outside all menus. */
  function Innermost(ts: seq<Token>, i: nat): nat
    requires i <= |ts|
  {
    Top(Stack(ts, i))
  }

  /** Where menu `m` is opened among the first `k` statements. */
  function FirstIn(ts: seq<Token>, k: nat, m: nat): (p: nat)
    requires k <= |ts| && 1 <= m <= Opens(ts, k)
    ensures p < k && ts[p] == Open && Opens(ts, p) + 1 == m
  {
    if ts[k - 1] == Open && Opens(ts, k) == m then k - 1 else FirstIn(ts, k - 1, m)
  }

  /** The last statement that opens or closes menu `m`. */
  function LastIn(ts: seq<Token>, k: nat, m: nat): (p: nat)
    requires k <= |ts| && 1 <= m <= Opens(ts, k)
    ensures p < k
  {
    if ts[k - 1] == Open && Opens(ts, k) == m then k - 1
    else if ts[k - 1] == Close && Innermost(ts, k - 1) == m then k - 1
    else LastIn(ts, k - 1, m)
  }

  predicate Balanced(ts: seq<Token>) { Stack(ts, |ts|) == [] }

  // ---------------------------------------------------------------------
  // The stack
  // ---------------------------------------------------------------------

  predicate Rising(s: seq<nat>) { forall i, j :: 0 <= i < j < |s| ==> s[i] < s[j] }

  predicate Extends(s: seq<nat>, base: seq<nat>) { |base| <= |s| && s[..|base|] == base }

  /** The menus on the stack have been opened, the inner ones later. */
  lemma {:induction false} StackRises(ts: seq<Token>, i: nat)
    requires i <= |ts|
    ensures Rising(Stack(ts, i)) && Bounded(Stack(ts, i), Opens(ts, i))
  {
    if i > 0 {
      StackRises(ts, i - 1);
      var s, was := Stack(ts, i), Stack(ts, i - 1);
      assert forall j :: 0 <= j < |s| && j < |was| ==> s[j] == was[j];
    }
  }

  predicate Bounded(s: seq<nat>, n: nat) { forall j :: 0 <= j < |s| ==> 1 <= s[j] <= n }

  lemma {:induction false} OpensGrow(ts: seq<Token>, i: nat, j: nat)
    requires i <= j <= |ts|
    ensures Opens(ts, i) <= Opens(ts, j)
    decreases j
  {
    if i < j { OpensGrow(ts, i, j - 1); }
  }

  lemma {:induction false} FirstIsWhere(ts: seq<Token>, k: nat, p: nat)
    requires p < k <= |ts| && ts[p] == Open
    ensures 1 <= Opens(ts, p) + 1 <= Opens(ts, k) && FirstIn(ts, k, Opens(ts, p) + 1) == p
    decreases k
  {
    OpensGrow(ts, p + 1, k);
    if k - 1 != p {
      OpensGrow(ts, p + 1, k - 1);
      FirstIsWhere(ts, k - 1, p);
    }
  }

  /** `c` closes the menu that `p` opens. */
  ghost predicate Matches(ts: seq<Token>, p: nat, c: nat) {
    && p < c < |ts| && ts[p] == Open && ts[c] == Close
    && Stack(ts, c) == Stack(ts, p) + [Opens(ts, p) + 1] && Stack(ts, c + 1) == Stack(ts, p)
    && forall q :: p < q <= c ==> Extends(Stack(ts, q), Stack(ts, p) + [Opens(ts, p) + 1])
  }

  /** The stack that menu `p` opens. */
  function Path(ts: seq<Token>, p: nat): seq<nat>
    requires p < |ts|
  {
    Stack(ts, p) + [Opens(ts, p) + 1]
  }

  ghost predicate StillOpen(ts: seq<Token>, p: nat, k: nat, c: nat)
    requires p < k <= |ts|
  {
    c == p && forall q :: p < q <= k ==> Extends(Stack(ts, q), Path(ts, p))
  }

  ghost predicate Gone(ts: seq<Token>, p: nat, k: nat, c: nat)
    requires p < k <= |ts|
  {
    Matches(ts, p, c) && c < k && forall q :: c < q <= k ==> Opens(ts, p) + 1 !in Stack(ts, q)
  }

  /** After the menu at `p` is opened it encloses everything, until one
      statement closes it; then it is gone for good. */
  lemma {:induction false} MatchWithin(ts: seq<Token>, p: nat, k: nat)
    requires p < k <= |ts| && ts[p] == Open
    ensures var m := Opens(ts, p) + 1;
      m <= Opens(ts, k) && (StillOpen(ts, p, k, LastIn(ts, k, m)) || Gone(ts, p, k, LastIn(ts, k, m)))
    decreases k
  {
    OpensGrow(ts, p + 1, k);
    if k - 1 == p {
      assert Stack(ts, k) == Path(ts, p);
    } else {
      OpensGrow(ts, p + 1, k - 1);
      MatchWithin(ts, p, k - 1);
      var c := LastIn(ts, k - 1, Opens(ts, p) + 1);
      if StillOpen(ts, p, k - 1, c) {
        OpenOneMore(ts, p, k);
      } else {
        GoneOneMore(ts, p, k, c);
      }
    }
  }

  lemma {:induction false} OpenOneMore(ts: seq<Token>, p: nat, k: nat)
    requires p + 1 < k <= |ts| && ts[p] == Open && Opens(ts, p) + 1 <= Opens(ts, k - 1) <= Opens(ts, k)
    requires StillOpen(ts, p, k - 1, LastIn(ts, k - 1, Opens(ts, p) + 1))
    ensures var c := LastIn(ts, k, Opens(ts, p) + 1); StillOpen(ts, p, k, c) || Gone(ts, p, k, c)
  {
    var s, was := Path(ts, p), Stack(ts, k - 1);
    assert Extends(was, s);
    if ts[k - 1] == Close && was == s {
      ClosedNow(ts, p, k);
    } else {
      StillExtends(ts, s, k, Opens(ts, p) + 1);
      StaysOpen(ts, p, k);
    }
  }

  /** A stack above `s`, or one that is not closed, goes on to extend it. */
  lemma {:induction false} StillExtends(ts: seq<Token>, s: seq<nat>, k: nat, m: nat)
    requires 0 < k <= |ts| && s != [] && Top(s) == m && Extends(Stack(ts, k - 1), s)
    requires !(ts[k - 1] == Close && Stack(ts, k - 1) == s)
    ensures Extends(Stack(ts, k), s) && !(ts[k - 1] == Close && Innermost(ts, k - 1) == m)
  {
    StackRises(ts, k - 1);
    TopOfExtension(Stack(ts, k - 1), s, m);
    ExtendsPushed(Stack(ts, k - 1), s, Opens(ts, k));
  }

  lemma {:induction false} StaysOpen(ts: seq<Token>, p: nat, k: nat)
    requires p + 1 < k <= |ts| && ts[p] == Open && Opens(ts, p) + 1 <= Opens(ts, k - 1) <= Opens(ts, k)
    requires StillOpen(ts, p, k - 1, LastIn(ts, k - 1, Opens(ts, p) + 1)) && Extends(Stack(ts, k), Path(ts, p))
    requires !(ts[k - 1] == Close && Innermost(ts, k - 1) == Opens(ts, p) + 1)
    ensures StillOpen(ts, p, k, LastIn(ts, k, Opens(ts, p) + 1))
  {}

  lemma {:induction false} ExtendsPushed(s: seq<nat>, base: seq<nat>, x: nat)
    requires Extends(s, base)
    ensures Extends(s + [x], base)
  {
    assert (s + [x])[..|base|] == s[..|base|];
  }

  lemma {:induction false} ClosedNow(ts: seq<Token>, p: nat, k: nat)
    requires p + 1 < k <= |ts| && ts[p] == Open && Opens(ts, p) + 1 <= Opens(ts, k)
    requires ts[k - 1] == Close && Stack(ts, k - 1) == Path(ts, p)
    requires forall q :: p < q <= k - 1 ==> Extends(Stack(ts, q), Path(ts, p))
    ensures Gone(ts, p, k, k - 1) && LastIn(ts, k, Opens(ts, p) + 1) == k - 1
  {
    assert Stack(ts, k) == Stack(ts, p);
    StackRises(ts, p);
  }

  lemma {:induction false} GoneOneMore(ts: seq<Token>, p: nat, k: nat, c: nat)
    requires p + 1 < k <= |ts| && ts[p] == Open && Opens(ts, p) + 1 <= Opens(ts, k - 1) <= Opens(ts, k)
    requires Gone(ts, p, k - 1, c) && c == LastIn(ts, k - 1, Opens(ts, p) + 1)
    ensures Gone(ts, p, k, c) && c == LastIn(ts, k, Opens(ts, p) + 1)
  {
    var m, was := Opens(ts, p) + 1, Stack(ts, k - 1);
    assert m !in was;
    assert forall x :: x in Stack(ts, k) ==> x in was || x == Opens(ts, k);
    if ts[k - 1] == Open {
      assert Opens(ts, k) == Opens(ts, k - 1) + 1;
    }
  }

  /** A rising stack with `m` on top that extends one ending in `m` is that one. */
  lemma {:induction false} TopOfExtension(s: seq<nat>, base: seq<nat>, m: nat)
    requires Rising(s) && Extends(s, base) && base != [] && Top(base) == m
    ensures Top(s) == m <==> s == base
    ensures s != base ==> Extends(Pop(s), base) && Top(s) > m
  {
    assert s[..|base|][|base| - 1] == m;
    assert s[..|s|] == s;
    if s != base { assert Pop(s)[..|base|] == s[..|base|]; }
  }

  /** In a balanced list every menu is closed, by the statement noted for it. */
  lemma {:induction false} MenuCloses(ts: seq<Token>, p: nat)
    requires p < |ts| && ts[p] == Open && Balanced(ts)
    ensures var m := Opens(ts, p) + 1;
      m <= Opens(ts, |ts|) && Gone(ts, p, |ts|, LastIn(ts, |ts|, m))
  {
    MatchWithin(ts, p, |ts|);
    assert !Extends(Stack(ts, |ts|), Path(ts, p));
  }

  // ---------------------------------------------------------------------
  // The walk of one menu
  // ---------------------------------------------------------------------

  /** Where menu `m` begins and ends. */
  function First(ts: seq<Token>, m: nat): (p: nat)
    requires 1 <= m <= Opens(ts, |ts|)
    ensures p < |ts| && ts[p] == Open && Opens(ts, p) + 1 == m
  {
    FirstIn(ts, |ts|, m)
  }

  function Last(ts: seq<Token>, m: nat): (p: nat)
    requires 1 <= m <= Opens(ts, |ts|)
    ensures p < |ts|
  {
    LastIn(ts, |ts|, m)
  }

  /** The statement after `p` in the walk: a submenu is stepped over. */
  function After(ts: seq<Token>, p: nat): (q: nat)
    requires Balanced(ts) && p < |ts|
    ensures p < q <= |ts|
  {
    if ts[p] == Open then
      MenuCloses(ts, p);
      Last(ts, Opens(ts, p) + 1) + 1
    else p + 1
  }

  /** The statements the walk stops at, from `p` up to `end`. */
  function Walk(ts: seq<Token>, p: nat, end: nat): (visits: seq<nat>)
    requires Balanced(ts) && p <= |ts| && end <= |ts|
    ensures forall i :: 0 <= i < |visits| ==> p <= visits[i] < end
    ensures forall i, j :: 0 <= i < j < |visits| ==> visits[i] < visits[j]
    decreases |ts| - p
  {
    if p >= end then [] else [p] + Walk(ts, After(ts, p), end)
  }

  /** Between `p` and `end` the menu with stack `s` is never left. */
  ghost predicate Within(ts: seq<Token>, s: seq<nat>, p: nat, end: nat) {
    p <= end < |ts| && s != [] && (forall q :: p <= q <= end ==> Extends(Stack(ts, q), s)) &&
    Stack(ts, end) == s && ts[end] == Close
  }

  /** Next in the walk the menu is the same, and in between it is not the innermost one. */
  lemma {:induction false} AfterKeepsStack(ts: seq<Token>, s: seq<nat>, p: nat, end: nat)
    requires Balanced(ts) && Within(ts, s, p, end) && p < end && Stack(ts, p) == s
    ensures ts[p] != Close && After(ts, p) <= end && Stack(ts, After(ts, p)) == s
    ensures forall q :: p < q < After(ts, p) ==> Extends(Stack(ts, q), Path(ts, p))
  {
    assert Extends(Stack(ts, p + 1), s);
    if ts[p] == Open {
      MenuCloses(ts, p);
      var c := Last(ts, Opens(ts, p) + 1);
      assert !Extends(Stack(ts, end), Path(ts, p));
      assert Stack(ts, c + 1) == s;
    }
  }

  /** The walk stops exactly at the statements directly in the menu. */
  lemma {:induction false} WalkStops(ts: seq<Token>, s: seq<nat>, p: nat, end: nat)
    requires Balanced(ts) && Within(ts, s, p, end) && Stack(ts, p) == s
    ensures forall q :: q in Walk(ts, p, end) <==> p <= q < end && Stack(ts, q) == s
    decreases |ts| - p
  {
    if p < end {
      AfterKeepsStack(ts, s, p, end);
      var next := After(ts, p);
      WalkStops(ts, s, next, end);
      forall q ensures q in Walk(ts, p, end) <==> p <= q < end && Stack(ts, q) == s {
        if p < q < next {
          assert Extends(Stack(ts, q), Path(ts, p));
          assert |Stack(ts, q)| > |s|;
        }
      }
    }
  }

  /** The walk of menu `m`. */
  function MenuWalk(ts: seq<Token>, m: nat): (visits: seq<nat>)
    requires Balanced(ts) && 1 <= m <= Opens(ts, |ts|)
    ensures forall i, j :: 0 <= i < j < |visits| ==> visits[i] < visits[j]
  {
    Walk(ts, First(ts, m) + 1, Last(ts, m))
  }

  lemma {:induction false} MenuIsWithin(ts: seq<Token>, m: nat)
    requires Balanced(ts) && 1 <= m <= Opens(ts, |ts|)
    ensures var p := First(ts, m); Within(ts, Path(ts, p), p + 1, Last(ts, m)) && Stack(ts, p + 1) == Path(ts, p)
    ensures Matches(ts, First(ts, m), Last(ts, m))
  {
    MenuCloses(ts, First(ts, m));
  }

  /** Every statement but the closing ones is met in the walk of exactly its
      innermost menu: the walks of the menus partition the list. */
  lemma {:induction false} WalksPartition(ts: seq<Token>, q: nat, m: nat)
    requires Balanced(ts) && q < |ts| && ts[q] != Close && 1 <= m <= Opens(ts, |ts|)
    ensures q in MenuWalk(ts, m) <==> Innermost(ts, q) == m
  {
    var p, c := First(ts, m), Last(ts, m);
    var s := Path(ts, p);
    MenuIsWithin(ts, m);
    WalkStops(ts, s, p + 1, c);
    if Innermost(ts, q) == m { InnermostPath(ts, p, q); }
  }

  lemma {:induction false} InnermostPath(ts: seq<Token>, p: nat, q: nat)
    requires Balanced(ts) && p < |ts| && ts[p] == Open && q < |ts| && Innermost(ts, q) == Opens(ts, p) + 1
    ensures Opens(ts, p) + 1 <= Opens(ts, |ts|) && p < q <= Last(ts, Opens(ts, p) + 1) && Stack(ts, q) == Path(ts, p)
  {
    assert Opens(ts, p) + 1 in Stack(ts, q);
    EnclosedWithin(ts, p, q);
    StackRises(ts, q);
    TopOfExtension(Stack(ts, q), Path(ts, p), Opens(ts, p) + 1);
  }

  /** A menu encloses only statements between its two ends. */
  lemma {:induction false} EnclosedWithin(ts: seq<Token>, p: nat, q: nat)
    requires Balanced(ts) && p < |ts| && ts[p] == Open && q < |ts| && Opens(ts, p) + 1 in Stack(ts, q)
    ensures Opens(ts, p) + 1 <= Opens(ts, |ts|)
    ensures p < q <= Last(ts, Opens(ts, p) + 1) && Extends(Stack(ts, q), Path(ts, p))
  {
    MenuCloses(ts, p);
    if q <= p {
      StackRises(ts, q);
      OpensGrow(ts, q, p);
    }
  }

  /** The innermost menu is one of the menus, when there is one. */
  lemma {:induction false} InnermostIsMenu(ts: seq<Token>, q: nat)
    requires q <= |ts|
    ensures Stack(ts, q) != [] ==> 1 <= Innermost(ts, q) <= Opens(ts, |ts|)
  {
    StackRises(ts, q);
    OpensGrow(ts, q, |ts|);
  }

  // ---------------------------------------------------------------------
  // The search for the number of a submenu
  // ---------------------------------------------------------------------

  /** The parent of menu `m`, 0 at the top. */
  function Parent(ts: seq<Token>, m: nat): (up: nat)
    requires 1 <= m <= Opens(ts, |ts|)
    ensures up < m
  {
    StackRises(ts, First(ts, m));
    Innermost(ts, First(ts, m))
  }

  /** All menus after `nr`, up to number `n`, are below a submenu of `m`. */
  ghost predicate DeeperUpTo(ts: seq<Token>, m: nat, nr: nat, n: nat) {
    n <= Opens(ts, |ts|) && forall k :: nr < k <= n && 1 <= k ==> Parent(ts, k) > m
  }

  /** A submenu of `m` met at `p` has `m` as its parent, and the menus opened
      inside it have larger ones: so the next number whose parent is not above
      `m` is the next submenu of `m`. */
  lemma {:induction false} SubmenuStepsOver(ts: seq<Token>, m: nat, p: nat, end: nat)
    requires Balanced(ts) && 1 <= m <= Opens(ts, |ts|)
    requires p < end < |ts| && Within(ts, Stack(ts, p), p, end) && Top(Stack(ts, p)) == m
    ensures After(ts, p) <= end && Opens(ts, After(ts, p)) <= Opens(ts, |ts|)
    ensures ts[p] == Open ==> var k := Opens(ts, p) + 1;
      k <= Opens(ts, After(ts, p)) && Parent(ts, k) == m && DeeperUpTo(ts, m, k, Opens(ts, After(ts, p)))
    ensures ts[p] != Open ==> Opens(ts, After(ts, p)) == Opens(ts, p)
  {
    var next := After(ts, p);
    AfterKeepsStack(ts, Stack(ts, p), p, end);
    OpensGrow(ts, next, |ts|);
    if ts[p] == Open {
      OpensGrow(ts, p + 1, next);
      FirstIsWhere(ts, |ts|, p);
      forall k | Opens(ts, p) + 1 < k <= Opens(ts, next) ensures Parent(ts, k) > m {
        var q := First(ts, k);
        FirstInOrder(ts, p, q);
        FirstInOrder(ts, q, next);
        assert Extends(Stack(ts, q), Path(ts, p));
        StackRises(ts, q);
        TopOfExtension(Stack(ts, q), Path(ts, p), Opens(ts, p) + 1);
        StackRises(ts, p);
      }
    }
  }

  /** The same, at any place of the walk of menu `m`. */
  lemma {:induction false} StepsOver(ts: seq<Token>, m: nat, p: nat)
    requires Balanced(ts) && 1 <= m <= Opens(ts, |ts|) && First(ts, m) < p < Last(ts, m)
    requires Stack(ts, p) == Path(ts, First(ts, m))
    ensures After(ts, p) <= Last(ts, m) && Stack(ts, After(ts, p)) == Stack(ts, p)
    ensures Opens(ts, p) <= Opens(ts, After(ts, p)) <= Opens(ts, |ts|)
    ensures ts[p] == Open ==> var k := Opens(ts, p) + 1;
      k <= Opens(ts, After(ts, p)) && Parent(ts, k) == m && DeeperUpTo(ts, m, k, Opens(ts, After(ts, p)))
    ensures ts[p] != Open ==> Opens(ts, After(ts, p)) == Opens(ts, p)
  {
    MenuIsWithin(ts, m);
    SubmenuStepsOver(ts, m, p, Last(ts, m));
    AfterKeepsStack(ts, Stack(ts, p), p, Last(ts, m));
    OpensGrow(ts, p, After(ts, p));
  }

  /** Menus are numbered in the order in which they open. */
  lemma {:induction false} FirstInOrder(ts: seq<Token>, p: nat, q: nat)
    requires p <= |ts| && q <= |ts|
    ensures Opens(ts, p) < Opens(ts, q) ==> p < q
  {
    if q <= p { OpensGrow(ts, q, p); }
  }

  // ---------------------------------------------------------------------
  // The climb of start_proc
  // ---------------------------------------------------------------------

  /** The loop: the ancestors from `m` up, as far as `stop` or the top. */
  function Climb(ts: seq<Token>, m: nat, stop: nat): (names: seq<nat>)
    requires m <= Opens(ts, |ts|)
    decreases m
  {
    if m == 0 || m == stop then []
    else
      [m] + Climb(ts, Parent(ts, m), stop)
  }

  function Reversed(s: seq<nat>): (r: seq<nat>)
    ensures |r| == |s|
  {
    if s == [] then [] else Reversed(s[1..]) + [s[0]]
  }

  /** The windows of menu `m`: its ancestors and itself, outermost first. */
  function Windows(ts: seq<Token>, m: nat): seq<nat>
    requires 1 <= m <= Opens(ts, |ts|)
  {
    Path(ts, First(ts, m))
  }

  /** The parent's windows are the menu's own without the last. */
  lemma {:induction false} WindowsOfParent(ts: seq<Token>, m: nat)
    requires Balanced(ts) && 1 <= m <= Opens(ts, |ts|)
    ensures Pop(Windows(ts, m)) == Stack(ts, First(ts, m))
    ensures Parent(ts, m) == 0 ==> Windows(ts, m) == [m]
    ensures Parent(ts, m) > 0 ==>
      Parent(ts, m) <= Opens(ts, |ts|) && Windows(ts, m) == Windows(ts, Parent(ts, m)) + [m]
  {
    if Parent(ts, m) > 0 { ParentPath(ts, m); } else { StackRises(ts, First(ts, m)); }
    assert Pop(Windows(ts, m)) == Stack(ts, First(ts, m));
  }

  lemma {:induction false} ParentPath(ts: seq<Token>, m: nat)
    requires Balanced(ts) && 1 <= m <= Opens(ts, |ts|) && Parent(ts, m) > 0
    ensures Parent(ts, m) <= Opens(ts, |ts|) && Stack(ts, First(ts, m)) == Windows(ts, Parent(ts, m))
  {
    var q := First(ts, m);
    var s := Stack(ts, q);
    assert s != [] && Parent(ts, m) in s;
    InnermostIsMenu(ts, q);
    var p := First(ts, Parent(ts, m));
    EnclosedWithin(ts, p, q);
    StackRises(ts, q);
    TopOfExtension(s, Path(ts, p), Parent(ts, m));
  }

  /** The climb names, from the inside out, exactly the windows below `stop`. */
  lemma {:induction false} ClimbNames(ts: seq<Token>, m: nat, stop: nat)
    requires Balanced(ts) && m <= Opens(ts, |ts|)
    requires m > 0 && (stop == 0 || stop in Windows(ts, m))
    ensures stop > 0 ==> stop <= Opens(ts, |ts|)
    ensures Windows(ts, m) == (if stop == 0 then [] else Windows(ts, stop)) + Reversed(Climb(ts, m, stop))
    decreases m
  {
    WindowsOfParent(ts, m);
    if m != stop {
      var up := Parent(ts, m);
      assert Climb(ts, m, stop) == [m] + Climb(ts, up, stop);
      assert Climb(ts, m, stop)[1..] == Climb(ts, up, stop);
      if up > 0 {
        ClimbNames(ts, up, stop);
      }
    }
  }

  /** Without an opening the stack only shrinks. */
  lemma {:induction false} OnlyPops(ts: seq<Token>, p: nat, q: nat)
    requires p <= q <= |ts| && Opens(ts, p) == Opens(ts, q)
    ensures Extends(Stack(ts, p), Stack(ts, q))
    decreases q
  {
    if p < q {
      OpensGrow(ts, p, q - 1);
      OnlyPops(ts, p, q - 1);
      var s, t := Stack(ts, q - 1), Stack(ts, q);
      assert Extends(s, t);
    } else {
      assert Stack(ts, p)[..|Stack(ts, p)|] == Stack(ts, p);
    }
  }

  /** The parent of the next menu is one of this menu's windows, or none. */
  lemma {:induction false} NextParent(ts: seq<Token>, m: nat)
    requires Balanced(ts) && 1 <= m < Opens(ts, |ts|)
    ensures var up := Parent(ts, m + 1); (up == 0 || up in Windows(ts, m))
    ensures var up := Parent(ts, m + 1); Pop(Windows(ts, m + 1)) == if up == 0 then [] else Windows(ts, up)
  {
    var p, q := First(ts, m), First(ts, m + 1);
    FirstInOrder(ts, p, q);
    OnlyPops(ts, p + 1, q);
    WindowsOfParent(ts, m + 1);
    var s := Stack(ts, q);
    if s != [] { assert Top(s) == Windows(ts, m)[..|s|][|s| - 1]; }
  }

  /** Before the next menu is shown the code destroys exactly those windows
      of this one, from the inside out, that are not around the next one. */
  lemma {:induction false} NextDestroys(ts: seq<Token>, m: nat)
    requires Balanced(ts) && 1 <= m < Opens(ts, |ts|)
    ensures var up := Parent(ts, m + 1); var kept := Pop(Windows(ts, m + 1));
      Windows(ts, m) == if up == m then kept else kept + Reversed([m] + Climb(ts, Parent(ts, m), up))
  {
    var up := Parent(ts, m + 1);
    NextParent(ts, m);
    ClimbNames(ts, m, up);
    if up != m {
      assert Climb(ts, m, up) == [m] + Climb(ts, Parent(ts, m), up);
    }
  }

  // ---------------------------------------------------------------------
  // Lines
  // ---------------------------------------------------------------------

  predicate TakesLine(t: Token) { t == Comment || t == Open || t == Asked }

  /** The line for a statement that takes one: -1 for the first comment. */
  function GivenLine(t: Token, line: nat, omitted: bool): int {
    if t == Comment && !omitted then -1 else line
  }

  /** The next free line, and whether a comment has been met. */
  function NextLine(t: Token, line: nat, omitted: bool): (nat, bool) {
    (if TakesLine(t) && GivenLine(t, line, omitted) >= 0 then line + 1 else line, omitted || t == Comment)
  }

  predicate Positions(ts: seq<Token>, visits: seq<nat>) { forall i :: 0 <= i < |visits| ==> visits[i] < |ts| }

  /** The lines a walk gives out, from line `line` on; 0 where none is given. */
  function Lines(ts: seq<Token>, visits: seq<nat>, line: nat, omitted: bool): (r: seq<int>)
    requires Positions(ts, visits)
    ensures |r| == |visits|
  {
    if visits == [] then []
    else
      var t := ts[visits[0]];
      var (l, o) := NextLine(t, line, omitted);
      [if TakesLine(t) then GivenLine(t, line, omitted) else 0] + Lines(ts, visits[1..], l, o)
  }

  /** No line of a menu is given out twice. */
  lemma {:induction false} LinesRise(ts: seq<Token>, visits: seq<nat>, line: nat, omitted: bool, i: nat, j: nat)
    requires Positions(ts, visits)
    requires i < j < |visits| && TakesLine(ts[visits[i]]) && TakesLine(ts[visits[j]])
    ensures var r := Lines(ts, visits, line, omitted);
      && (r[i] >= 0 && r[j] >= 0 ==> line <= r[i] < r[j]) && !(r[i] == -1 && r[j] == -1)
    decreases |visits|
  {
    var (l, o) := NextLine(ts[visits[0]], line, omitted);
    if i > 0 {
      LinesRise(ts, visits[1..], l, o, i - 1, j - 1);
    } else {
      LinesFrom(ts, visits[1..], l, o, j - 1);
    }
  }

  lemma {:induction false} LinesFrom(ts: seq<Token>, visits: seq<nat>, line: nat, omitted: bool, j: nat)
    requires Positions(ts, visits) && j < |visits| && TakesLine(ts[visits[j]])
    ensures var r := Lines(ts, visits, line, omitted); r[j] >= line || (r[j] == -1 && !omitted)
    decreases |visits|
  {
    var (l, o) := NextLine(ts[visits[0]], line, omitted);
    if j > 0 { LinesFrom(ts, visits[1..], l, o, j - 1); }
  }

  /** The lines of all statements after the walk has given out its own. */
  function Assigned(ts: seq<Token>, lines: seq<int>, visits: seq<nat>, line: nat, omitted: bool): (r: seq<int>)
    requires Positions(ts, visits) && |lines| == |ts|
    ensures |r| == |ts|
    decreases |visits|
  {
    if visits == [] then lines
    else
      var t := ts[visits[0]];
      var (l, o) := NextLine(t, line, omitted);
      Assigned(ts, if TakesLine(t) then lines[visits[0] := GivenLine(t, line, omitted)] else lines, visits[1..], l, o)
  }

  /** Each statement met that takes a line has its own, all others are as they were. */
  lemma {:induction false} AssignedLines(ts: seq<Token>, lines: seq<int>, visits: seq<nat>, line: nat, omitted: bool)
    requires Positions(ts, visits) && |lines| == |ts| && Rising(visits)
    ensures var r := Assigned(ts, lines, visits, line, omitted);
      && (forall q :: 0 <= q < |ts| && !(q in visits && TakesLine(ts[q])) ==> r[q] == lines[q])
      && (forall i :: 0 <= i < |visits| && TakesLine(ts[visits[i]]) ==> r[visits[i]] == Lines(ts, visits, line, omitted)[i])
    decreases |visits|
  {
    if visits != [] {
      var t := ts[visits[0]];
      var (l, o) := NextLine(t, line, omitted);
      var now := if TakesLine(t) then lines[visits[0] := GivenLine(t, line, omitted)] else lines;
      AssignedLines(ts, now, visits[1..], l, o);
      assert visits[0] !in visits[1..];
      assert visits == [visits[0]] + visits[1..];
    }
  }
}
