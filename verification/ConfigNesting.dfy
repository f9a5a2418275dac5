/**
 Where the hooks of a scope stand in the log of a run: those of the scopes below between its own
 two, unless an earlier turn called them, and those of subscopes in the order of registration.
 */
module ConfigNesting {
  import opened Wrappers
  import opened ConfigScope
  import opened ConfigExecution
  import opened ConfigRuns

  // ----- Between the two hooks of a scope -----

  /** What a normal call on q runs inside. */
  ghost function In(nodes: Nodes, cfg: Setting, q: Path): set<Path> {
    if IsTaint(nodes, q) then {} else CoveredFrom(nodes, cfg, q, 0)
  }

  /** From `was` to `now`, between the two hooks of q those of exactly the scopes in the set are
      called, each once. */
  ghost predicate Wraps(was: seq<Hook>, now: seq<Hook>, q: Path, x: set<Path>) {
    forall i, j | |was| <= i < j < |now| && now[i] == Pre(q) && now[j] == Post(q) :: Hooked(now[..i + 1], now[..j], x)
  }

  /** Among the subscopes of some scope, q is or is below one registered before the one of r. */
  ghost predicate Ahead(nodes: Nodes, q: Path, r: Path) {
    exists k :: AheadAt(nodes, q, r, k)
  }

  ghost predicate AheadAt(nodes: Nodes, q: Path, r: Path, k: nat) {
    && k < |q| && k < |r| && q[..k] == r[..k]
    && exists i, j :: 0 <= i < j < |Children(nodes, q[..k])| && Children(nodes, q[..k])[i] == q[k] && Children(nodes, q[..k])[j] == r[k]
  }

  /** From `was` to `now`, hooks are called in the order of registration. */
  ghost predicate InOrder(nodes: Nodes, was: seq<Hook>, now: seq<Hook>) {
    forall i, j | |was| <= i < j < |now| :: !Ahead(nodes, now[j].path, now[i].path)
  }

  /** What a call does to the log when it has processed the set, and `done` was processed before. */
  ghost predicate Arranged(nodes: Nodes, cfg: Setting, was: seq<Hook>, now: seq<Hook>, x: set<Path>, done: set<Path>) {
    InOrder(nodes, was, now) && forall q | q in x :: Wraps(was, now, q, In(nodes, cfg, q) - done)
  }

  /** No hook of q is called. */
  ghost predicate Silent(was: seq<Hook>, now: seq<Hook>, q: Path) {
    forall i | |was| <= i < |now| :: now[i].path != q
  }

  lemma HookedSilent(was: seq<Hook>, now: seq<Hook>, x: set<Path>, q: Path)
    requires was <= now && Hooked(was, now, x) && q !in x
    ensures Silent(was, now, q)
  {
    assert Calls(now, Pre(q)) == Calls(was, Pre(q));
    CountedSilent(was, now, q);
  }

  lemma CountedSilent(was: seq<Hook>, now: seq<Hook>, q: Path)
    requires was <= now && Calls(now, Pre(q)) == Calls(was, Pre(q)) && Calls(now, Post(q)) == Calls(was, Post(q))
    ensures Silent(was, now, q)
  {
    var rest := now[|was|..];
    assert now == was + rest;
    assert Calls(now, Pre(q)) == Calls(was, Pre(q)) + Calls(rest, Pre(q));
    assert Calls(now, Post(q)) == Calls(was, Post(q)) + Calls(rest, Post(q));
    forall i | |was| <= i < |now| ensures now[i].path != q {
      assert now[i] == rest[i - |was|] && Calls(rest, now[i]) > 0;
    }
  }

  lemma WrapsFirst(a: seq<Hook>, b: seq<Hook>, c: seq<Hook>, q: Path, x: set<Path>)
    requires a <= b <= c && Wraps(a, b, q, x) && Silent(b, c, q)
    ensures Wraps(a, c, q, x)
  {
    forall i, j | |a| <= i < j < |c| && c[i] == Pre(q) && c[j] == Post(q) ensures Hooked(c[..i + 1], c[..j], x) {
      assert j < |b| && b[i] == Pre(q) && b[j] == Post(q);
      assert c[..i + 1] == b[..i + 1] && c[..j] == b[..j];
    }
  }

  lemma WrapsSecond(a: seq<Hook>, b: seq<Hook>, c: seq<Hook>, q: Path, x: set<Path>)
    requires a <= b <= c && Wraps(b, c, q, x) && Silent(a, b, q)
    ensures Wraps(a, c, q, x)
  {
    forall i, j | |a| <= i < j < |c| && c[i] == Pre(q) && c[j] == Post(q) ensures Hooked(c[..i + 1], c[..j], x) {
      assert forall k | |a| <= k < |b| :: c[k] == b[k];
    }
  }

  /** The hooks around what is run inside. */
  lemma WrapsAround(was: seq<Hook>, inside: seq<Hook>, p: Path, x: set<Path>)
    requires was + [Pre(p)] <= inside && Hooked(was + [Pre(p)], inside, x) && p !in x
    ensures Wraps(was, inside + [Post(p)], p, x)
  {
    var now := inside + [Post(p)];
    HookedSilent(was + [Pre(p)], inside, x, p);
    forall i, j | |was| <= i < j < |now| && now[i] == Pre(p) && now[j] == Post(p) ensures Hooked(now[..i + 1], now[..j], x) {
      assert i == |was| && j == |inside|;
      assert now[..i + 1] == was + [Pre(p)] && now[..j] == inside;
    }
  }

  lemma WrapsInside(was: seq<Hook>, inside: seq<Hook>, p: Path, q: Path, x: set<Path>)
    requires was + [Pre(p)] <= inside && Wraps(was + [Pre(p)], inside, q, x) && q != p
    ensures Wraps(was, inside + [Post(p)], q, x)
  {
    var a, b := was + [Pre(p)], inside + [Post(p)];
    WrapsFirst(a, inside, b, q, x);
    WrapsSecond(was, a, b, q, x);
  }

  // ----- The order of subscopes -----

  lemma AheadIsOneWay(nodes: Nodes, q: Path, r: Path, k: nat)
    requires IsTree(nodes) && k < |q| && k < |r| && q[..k] == r[..k] && q[..k] in nodes
    requires q[k] == r[k] || AheadAt(nodes, r, q, k)
    ensures !AheadAt(nodes, q, r, k)
  {
    assert Distinct(nodes[q[..k]].children);
  }

  /** A scope below the i-th subscope or a later one is not ahead of one below an earlier. */
  lemma LaterNotAhead(nodes: Nodes, p: Path, q: Path, r: Path)
    requires IsTree(nodes) && q in nodes && r in nodes && AheadAt(nodes, q, r, |p|) && q[..|p|] == p
    ensures !Ahead(nodes, r, q)
  {
    forall k: nat ensures !AheadAt(nodes, r, q, k) {
      if k < |p| {
        assert q[..k] == p[..k] && r[..k] == p[..k] && q[k] == p[k] && r[k] == p[k];
        if k < |r| && k < |q| {
          PrefixInTree(nodes, r, k);
          AheadIsOneWay(nodes, r, q, k);
        }
      } else if k == |p| {
        PrefixInTree(nodes, q, k);
        AheadIsOneWay(nodes, r, q, k);
      } else if k < |r| && k < |q| {
        PrefixInTree(nodes, q, |p|);
        assert Distinct(nodes[p].children);
        assert r[..k][|p|] == r[|p|] && q[..k][|p|] == q[|p|];
      }
    }
  }

  lemma AroundNotAhead(nodes: Nodes, p: Path, q: Path)
    requires IsTree(nodes) && q in nodes && (q == p || Below(p, q))
    ensures !Ahead(nodes, p, q) && !Ahead(nodes, q, p)
  {
    forall k: nat ensures !AheadAt(nodes, p, q, k) && !AheadAt(nodes, q, p, k) {
      if k < |p| {
        assert q[..k] == p[..k] && q[k] == p[k];
        PrefixInTree(nodes, q, k);
        AheadIsOneWay(nodes, p, q, k);
        AheadIsOneWay(nodes, q, p, k);
      }
    }
  }

  /** Only hooks of the set are new. */
  lemma NewHooks(was: seq<Hook>, now: seq<Hook>, x: set<Path>)
    requires was <= now && Hooked(was, now, x)
    ensures forall i | |was| <= i < |now| :: now[i].path in x
  {
    forall i | |was| <= i < |now| ensures now[i].path in x {
      if now[i].path !in x { HookedSilent(was, now, x, now[i].path); }
    }
  }

  lemma OrderBoth(nodes: Nodes, a: seq<Hook>, b: seq<Hook>, c: seq<Hook>, x: set<Path>, y: set<Path>)
    requires a <= b <= c && Hooked(a, b, x) && Hooked(b, c, y) && InOrder(nodes, a, b) && InOrder(nodes, b, c)
    requires forall q, r | q in x && r in y :: !Ahead(nodes, r, q)
    ensures InOrder(nodes, a, c)
  {
    NewHooks(a, b, x);
    NewHooks(b, c, y);
    assert forall k | |a| <= k < |b| :: c[k] == b[k];
  }

  lemma OrderAround(nodes: Nodes, was: seq<Hook>, inside: seq<Hook>, p: Path, x: set<Path>)
    requires was + [Pre(p)] <= inside && Hooked(was + [Pre(p)], inside, x) && InOrder(nodes, was + [Pre(p)], inside)
    requires IsTree(nodes) && p in nodes && forall q | q in x :: q in nodes && Below(p, q)
    ensures InOrder(nodes, was, inside + [Post(p)])
  {
    var now := inside + [Post(p)];
    NewHooks(was + [Pre(p)], inside, x);
    forall i, j | |was| <= i < j < |now| ensures !Ahead(nodes, now[j].path, now[i].path) {
      if i == |was| { AroundNotAhead(nodes, p, now[j].path); }
      else if j == |inside| { AroundNotAhead(nodes, p, now[i].path); }
    }
  }

  // ----- What is covered stays so -----

  /** What a covered scope covers is covered too. */
  lemma CoveredInside(nodes: Nodes, cfg: Setting, p: Path, i: nat, q: Path)
    requires IsTree(nodes) && p in nodes && i <= |nodes[p].children| && q in CoveredFrom(nodes, cfg, p, i)
    ensures In(nodes, cfg, q) <= CoveredFrom(nodes, cfg, p, i)
  {
    forall r | r in In(nodes, cfg, q) ensures r in CoveredFrom(nodes, cfg, p, i) {
      assert r[..|q|] == q && r[..|p|] == q[..|p|] && r[|p|] == q[|p|];
      forall j | |p| < j < |r| ensures !IsTaint(nodes, r[..j]) {
        if j < |q| { assert r[..j] == q[..j]; }
      }
    }
  }

  ghost predicate SubsWrap(nodes: Nodes, cfg: Setting, p: Path, s: Setting, i: nat, st: Run) {
    var r := RunSubs(nodes, p, s, i, st);
    r.error.None? ==> Arranged(nodes, cfg, st.log, r.log, CoveredFrom(nodes, cfg, p, i), st.processed)
  }

  ghost predicate AtWraps(nodes: Nodes, cfg: Setting, p: Path, s: Setting, i: nat, st: Run) {
    var r := RunAt(nodes, p, s, i, st);
    r.error.None? ==> Arranged(nodes, cfg, st.log, r.log, CoveredAt(nodes, cfg, p, i), st.processed)
  }

  /** Two calls on sets apart. */
  lemma WrapBoth(nodes: Nodes, cfg: Setting, st: Run, a: Run, b: Run, x: set<Path>, y: set<Path>)
    requires Effect(st, a, x, true) && Effect(a, b, y, true) && x !! y
    requires Arranged(nodes, cfg, st.log, a.log, x, st.processed) && Arranged(nodes, cfg, a.log, b.log, y, a.processed)
    requires forall q | q in y :: In(nodes, cfg, q) <= y
    requires forall q, r | q in x && r in y :: !Ahead(nodes, r, q)
    ensures Arranged(nodes, cfg, st.log, b.log, x + y, st.processed)
  {
    OrderBoth(nodes, st.log, a.log, b.log, x - st.processed, y - a.processed);
    forall q | q in x + y ensures Wraps(st.log, b.log, q, In(nodes, cfg, q) - st.processed) {
      if q in x {
        HookedSilent(a.log, b.log, y - a.processed, q);
        WrapsFirst(st.log, a.log, b.log, q, In(nodes, cfg, q) - st.processed);
      } else {
        HookedSilent(st.log, a.log, x - st.processed, q);
        assert In(nodes, cfg, q) - a.processed == In(nodes, cfg, q) - st.processed;
        WrapsSecond(st.log, a.log, b.log, q, In(nodes, cfg, q) - st.processed);
      }
    }
  }

  lemma SiblingsInOrder(nodes: Nodes, cfg: Setting, p: Path, i: nat, q: Path, r: Path)
    requires IsTree(nodes) && p in nodes && i < |nodes[p].children|
    requires q in CoveredAt(nodes, cfg, p, i) && r in CoveredFrom(nodes, cfg, p, i + 1)
    ensures !Ahead(nodes, r, q)
  {
    CoveredAtContains(nodes, cfg, p, i, q);
    assert AheadAt(nodes, q, r, |p|);
    LaterNotAhead(nodes, p, q, r);
  }

  lemma SubsTurnWraps(nodes: Nodes, cfg: Setting, p: Path, s: Setting, i: nat, st: Run)
    requires IsTree(nodes) && p in nodes && i < |nodes[p].children| && st.error.None? && At(cfg, p) == Some(s)
    requires AtEffect(nodes, cfg, p, s, i, st) && AtWraps(nodes, cfg, p, s, i, st)
    requires var a := RunAt(nodes, p, s, i, st);
             a.error.None? ==> SubsEffect(nodes, cfg, p, s, i + 1, a) && SubsWrap(nodes, cfg, p, s, i + 1, a)
    ensures SubsWrap(nodes, cfg, p, s, i, st)
  {
    var a, r := RunAt(nodes, p, s, i, st), RunSubs(nodes, p, s, i, st);
    if r.error.None? {
      var x, y := CoveredAt(nodes, cfg, p, i), CoveredFrom(nodes, cfg, p, i + 1);
      CoverSplits(nodes, cfg, p, i);
      assert r == RunSubs(nodes, p, s, i + 1, a);
      forall q | q in y ensures In(nodes, cfg, q) <= y { CoveredInside(nodes, cfg, p, i + 1, q); }
      forall q, t | q in x && t in y ensures !Ahead(nodes, t, q) { SiblingsInOrder(nodes, cfg, p, i, q, t); }
      WrapBoth(nodes, cfg, st, a, r, x, y);
    }
  }

  lemma OneSubEffect(nodes: Nodes, cfg: Setting, p: Path, s: Setting, i: nat, st: Run)
    requires IsTree(nodes) && p in nodes && i < |nodes[p].children| && st.error.None? && At(cfg, p) == Some(s)
    ensures AtEffect(nodes, cfg, p, s, i, st)
  {
    var c := nodes[p].children[i];
    if Has(s, c) {
      ChildInTree(nodes, p, i);
      AtStep(cfg, p, c);
      ScopeHasEffect(nodes, cfg, p + [c], s.entries[c], st);
    }
    OneSub(nodes, cfg, p, s, i, st);
  }

  lemma OneSubWraps(nodes: Nodes, cfg: Setting, p: Path, s: Setting, i: nat, st: Run)
    requires p in nodes && i < |nodes[p].children| && st.error.None? && At(cfg, p) == Some(s)
    requires var c := nodes[p].children[i]; Has(s, c) ==> ScopeWraps(nodes, cfg, p + [c], s.entries[c], st)
    ensures AtWraps(nodes, cfg, p, s, i, st)
  {
    AtPresent(nodes, cfg, p, s, i);
  }

  lemma {:induction false} SubsWrapAll(nodes: Nodes, cfg: Setting, p: Path, s: Setting, i: nat, st: Run)
    requires IsTree(nodes) && p in nodes && i <= |nodes[p].children| && st.error.None? && At(cfg, p) == Some(s)
    ensures SubsWrap(nodes, cfg, p, s, i, st)
    decreases s, |Children(nodes, p)| - i
  {
    if i == |nodes[p].children| {
      assert CoveredFrom(nodes, cfg, p, i) == {};
    } else {
      var c := nodes[p].children[i];
      if Has(s, c) {
        ChildInTree(nodes, p, i);
        AtStep(cfg, p, c);
        ScopeWrapsAll(nodes, cfg, p + [c], s.entries[c], st);
      }
      OneSubEffect(nodes, cfg, p, s, i, st);
      OneSubWraps(nodes, cfg, p, s, i, st);
      var a := RunAt(nodes, p, s, i, st);
      if a.error.None? {
        SubsHaveEffect(nodes, cfg, p, s, i + 1, a);
        SubsWrapAll(nodes, cfg, p, s, i + 1, a);
      }
      SubsTurnWraps(nodes, cfg, p, s, i, st);
    }
  }

  ghost predicate ScopeWraps(nodes: Nodes, cfg: Setting, p: Path, s: Setting, st: Run) {
    var r := RunScope(nodes, p, s, false, st);
    r.error.None? ==> Arranged(nodes, cfg, st.log, r.log, Covered(nodes, cfg, p, false), st.processed)
  }

  /** What a call on p runs inside. */
  ghost function InCall(nodes: Nodes, cfg: Setting, p: Path, priorityCall: bool): set<Path> {
    if priorityCall == IsTaint(nodes, p) then CoveredFrom(nodes, cfg, p, 0) else {}
  }

  /** A call wraps what it runs inside, and what is run inside wraps what is below. */
  ghost predicate CallWraps(nodes: Nodes, cfg: Setting, p: Path, s: Setting, priorityCall: bool, st: Run) {
    var r, x := RunScope(nodes, p, s, priorityCall, st), InCall(nodes, cfg, p, priorityCall);
    r.error.None? ==> Wraps(st.log, r.log, p, x - st.processed) && Arranged(nodes, cfg, st.log, r.log, x, st.processed)
  }

  lemma InsideWraps(nodes: Nodes, cfg: Setting, p: Path, s: Setting, priorityCall: bool, st: Run)
    requires st.error.None?
    requires priorityCall == IsTaint(nodes, p) ==> SubsWrap(nodes, cfg, p, s, 0, st)
    ensures var r := RunInside(nodes, p, s, priorityCall, st);
            r.error.None? ==> Arranged(nodes, cfg, st.log, r.log, InCall(nodes, cfg, p, priorityCall), st.processed)
  {
  }

  lemma FirstCallWraps(nodes: Nodes, cfg: Setting, p: Path, s: Setting, priorityCall: bool, st: Run)
    requires IsTree(nodes) && p in nodes && st.error.None? && p !in st.processed
    requires RunScope(nodes, p, s, priorityCall, st).error.None?
    requires var begun := st.(log := st.log + [Pre(p)]);
             var inside := RunInside(nodes, p, s, priorityCall, begun);
             InsideEffect(nodes, cfg, p, s, priorityCall, begun)
             && (inside.error.None? ==>
                   Arranged(nodes, cfg, begun.log, inside.log, InCall(nodes, cfg, p, priorityCall), begun.processed))
    ensures CallWraps(nodes, cfg, p, s, priorityCall, st)
  {
    var begun, x := st.(log := st.log + [Pre(p)]), InCall(nodes, cfg, p, priorityCall);
    var inside := RunInside(nodes, p, s, priorityCall, begun);
    WrapsAround(st.log, inside.log, p, x - st.processed);
    OrderAround(nodes, st.log, inside.log, p, x - st.processed);
    forall q | q in x ensures Wraps(st.log, inside.log + [Post(p)], q, In(nodes, cfg, q) - st.processed) {
      WrapsInside(st.log, inside.log, p, q, In(nodes, cfg, q) - st.processed);
    }
  }

  lemma CallWrapsAll(nodes: Nodes, cfg: Setting, p: Path, s: Setting, priorityCall: bool, st: Run)
    requires IsTree(nodes) && p in nodes && st.error.None? && At(cfg, p) == Some(s)
    requires !(p in st.processed && IsTaint(nodes, p))
    requires var now := if p in st.processed then st else st.(log := st.log + [Pre(p)]);
             priorityCall == IsTaint(nodes, p) ==> SubsWrap(nodes, cfg, p, s, 0, now)
    ensures CallWraps(nodes, cfg, p, s, priorityCall, st)
  {
    var now := if p in st.processed then st else st.(log := st.log + [Pre(p)]);
    var x := InCall(nodes, cfg, p, priorityCall);
    if priorityCall == IsTaint(nodes, p) { SubsHaveEffect(nodes, cfg, p, s, 0, now); }
    InsideHasEffect(nodes, cfg, p, s, priorityCall, now);
    InsideWraps(nodes, cfg, p, s, priorityCall, now);
    if RunScope(nodes, p, s, priorityCall, st).error.None? {
      if p in st.processed {
        HookedSilent(st.log, RunScope(nodes, p, s, priorityCall, st).log, x - st.processed, p);
      } else {
        FirstCallWraps(nodes, cfg, p, s, priorityCall, st);
      }
    }
  }

  lemma {:induction false} ScopeWrapsAll(nodes: Nodes, cfg: Setting, p: Path, s: Setting, st: Run)
    requires IsTree(nodes) && p in nodes && st.error.None? && At(cfg, p) == Some(s)
    ensures ScopeWraps(nodes, cfg, p, s, st)
    decreases s, |Children(nodes, p)| + 1
  {
    if !(p in st.processed && IsTaint(nodes, p)) {
      var now := if p in st.processed then st else st.(log := st.log + [Pre(p)]);
      if !IsTaint(nodes, p) { SubsWrapAll(nodes, cfg, p, s, 0, now); }
      CallWrapsAll(nodes, cfg, p, s, false, st);
    }
  }

  // ----- Whole runs -----

  /** The scope is processed in an earlier turn than the other. */
  ghost predicate Earlier(nodes: Nodes, q: Path, p: Path) {
    exists t: nat :: t <= PRIORITIES && Claimed(nodes, q, t) && !Claimed(nodes, p, t)
  }

  /** The first call on p runs its subscopes: a normal call does for all scopes but TAINT scopes, a
      priority turn for those only. */
  ghost predicate GoesInside(nodes: Nodes, p: Path) {
    p in nodes && (nodes[p].kind == Normal || (IsTaint(nodes, p) <==> !Starved(nodes, p)))
  }

  /** The hooks of q belong between those of p. */
  ghost predicate Encloses(nodes: Nodes, p: Path, q: Path) {
    Below(p, q) && NoTaintBelow(nodes, q, |p|) && GoesInside(nodes, p) && !Earlier(nodes, q, p)
  }

  ghost function Enclosed(nodes: Nodes, cfg: Setting, p: Path): set<Path> {
    set q | q in nodes && Present(cfg, q) && Encloses(nodes, p, q)
  }

  lemma ClaimedStays(nodes: Nodes, q: Path, t: nat, u: nat)
    ensures t <= u && Claimed(nodes, q, t) ==> Claimed(nodes, q, u)
  {
  }

  /** The turn in which a scope is processed; PRIORITIES for the root's. */
  lemma TurnOf(nodes: Nodes, q: Path) returns (t: nat)
    ensures t <= PRIORITIES && !Claimed(nodes, q, t) && (t < PRIORITIES ==> Claimed(nodes, q, t + 1))
  {
    assert !TakenBefore(nodes, q, 0);
    t := 0;
    while t < PRIORITIES && !Claimed(nodes, q, t + 1)
      invariant t <= PRIORITIES && !Claimed(nodes, q, t)
    {
      t := t + 1;
    }
  }

  lemma EarlierIs(nodes: Nodes, q: Path, p: Path, t: nat)
    requires t <= PRIORITIES && !Claimed(nodes, p, t) && (t < PRIORITIES ==> Claimed(nodes, p, t + 1))
    ensures Earlier(nodes, q, p) <==> Claimed(nodes, q, t)
  {
    forall u: nat | u <= PRIORITIES && Claimed(nodes, q, u) && !Claimed(nodes, p, u) ensures Claimed(nodes, q, t) {
      ClaimedStays(nodes, p, t + 1, u);
      ClaimedStays(nodes, q, u, t);
    }
  }

  /** What is run inside the first call on p, in turn t, is what it encloses. */
  lemma EnclosedIs(nodes: Nodes, cfg: Setting, p: Path, t: nat)
    requires IsTree(nodes) && p in nodes
    requires t <= PRIORITIES && !Claimed(nodes, p, t) && (t < PRIORITIES ==> Claimed(nodes, p, t + 1))
    ensures Enclosed(nodes, cfg, p)
            == (if GoesInside(nodes, p) then CoveredFrom(nodes, cfg, p, 0) else {}) - ClaimedSet(nodes, cfg, t)
  {
    forall q | q in nodes && Below(p, q) ensures Descends(nodes, p, q) && (Earlier(nodes, q, p) <==> Claimed(nodes, q, t)) {
      BelowDescends(nodes, p, q);
      EarlierIs(nodes, q, p, t);
    }
  }

  /** In turn t the call on a is the first on q. */
  ghost predicate NewIn(nodes: Nodes, cfg: Setting, a: Path, q: Path, t: nat) {
    && q in nodes && q != [] && Present(cfg, q)
    && !Claimed(nodes, q, t) && Claimed(nodes, q, t + 1)
    && (q == a || q in CoveredFrom(nodes, cfg, a, 0))
    && (q == a ==> (GoesInside(nodes, q) <==> IsTaint(nodes, q)))
    && (q != a ==> IsTaint(nodes, a) && (GoesInside(nodes, q) <==> !IsTaint(nodes, q)))
  }

  /** A scope that is taken along before its own turn is run normally first. */
  lemma TakenGoesInside(nodes: Nodes, priorities: map<nat, Path>, q: Path, t: nat)
    requires Ranked(nodes, priorities) && q in nodes && t in priorities && priorities[t] != q
    requires TakenBefore(nodes, q, t + 1) && !Claimed(nodes, q, t)
    ensures GoesInside(nodes, q) <==> !IsTaint(nodes, q)
  {
    if nodes[q].kind != Normal {
      assert priorities[nodes[q].priority] == q && t < nodes[q].priority;
      assert TakenBefore(nodes, q, PriorityOf(nodes, q));
      assert Starved(nodes, q);
    }
  }

  lemma ClaimedInTurn(nodes: Nodes, priorities: map<nat, Path>, cfg: Setting, t: nat, q: Path)
    requires IsTree(nodes) && Ranked(nodes, priorities) && q in nodes && q != [] && Present(cfg, q)
    requires !Claimed(nodes, q, t) && Claimed(nodes, q, t + 1)
    ensures t in priorities && priorities[t] in nodes && Present(cfg, priorities[t])
    ensures !(IsTaint(nodes, priorities[t]) && Starved(nodes, priorities[t])) && NewIn(nodes, cfg, priorities[t], q, t)
  {
    ClaimedStep(nodes, priorities, q, t);
    var a := priorities[t];
    if q != a {
      AtPrefix(cfg, q, |a|);
      BelowDescends(nodes, a, q);
      TakenStep(nodes, priorities, q, t);
      TakenGoesInside(nodes, priorities, q, t);
    }
  }

  lemma NewEncloses(nodes: Nodes, cfg: Setting, a: Path, q: Path, t: nat)
    requires IsTree(nodes) && t < PRIORITIES && NewIn(nodes, cfg, a, q, t)
    ensures Enclosed(nodes, cfg, q)
            == (if q == a then InCall(nodes, cfg, a, true) else In(nodes, cfg, q)) - ClaimedSet(nodes, cfg, t)
  {
    EnclosedIs(nodes, cfg, q, t);
  }

  /** The call of a turn. */
  lemma TurnCall(nodes: Nodes, cfg: Setting, a: Path, s: Setting, st: Run)
    requires IsTree(nodes) && a in nodes && st.error.None? && At(cfg, a) == Some(s)
    requires !(a in st.processed && IsTaint(nodes, a))
    ensures CallWraps(nodes, cfg, a, s, true, st) && st.log <= RunScope(nodes, a, s, true, st).log
  {
    TurnHasEffect(nodes, cfg, a, s, st);
    SubsOfTurn(nodes, cfg, a, s, st);
    CallWrapsAll(nodes, cfg, a, s, true, st);
  }

  lemma NewArranged(nodes: Nodes, cfg: Setting, a: Path, s: Setting, st: Run, q: Path, t: nat)
    requires IsTree(nodes) && t < PRIORITIES && NewIn(nodes, cfg, a, q, t) && st.processed == ClaimedSet(nodes, cfg, t)
    requires CallWraps(nodes, cfg, a, s, true, st) && RunScope(nodes, a, s, true, st).error.None?
    ensures var now := RunScope(nodes, a, s, true, st).log;
            InOrder(nodes, st.log, now) && Wraps(st.log, now, q, Enclosed(nodes, cfg, q))
  {
    NewEncloses(nodes, cfg, a, q, t);
  }

  lemma TurnArranged(nodes: Nodes, priorities: map<nat, Path>, cfg: Setting, t: nat, q: Path)
    requires IsTree(nodes) && Ranked(nodes, priorities) && t < PRIORITIES
    requires RunPriorities(nodes, priorities, cfg, t + 1).error.None?
    requires q in nodes && q != [] && Present(cfg, q) && !Claimed(nodes, q, t) && Claimed(nodes, q, t + 1)
    ensures var was, now := RunPriorities(nodes, priorities, cfg, t).log, RunPriorities(nodes, priorities, cfg, t + 1).log;
            was <= now && InOrder(nodes, was, now) && Wraps(was, now, q, Enclosed(nodes, cfg, q))
  {
    var st := RunPriorities(nodes, priorities, cfg, t);
    ClaimedInTurn(nodes, priorities, cfg, t, q);
    var a := priorities[t];
    var s := At(cfg, a).value;
    TurnStarts(nodes, priorities, cfg, t);
    TurnCall(nodes, cfg, a, s, st);
    NewArranged(nodes, cfg, a, s, st, q, t);
  }

  lemma TurnStarts(nodes: Nodes, priorities: map<nat, Path>, cfg: Setting, t: nat)
    requires IsTree(nodes) && Ranked(nodes, priorities) && t in priorities && Present(cfg, priorities[t])
    requires RunPriorities(nodes, priorities, cfg, t + 1).error.None? && !(IsTaint(nodes, priorities[t]) && Starved(nodes, priorities[t]))
    ensures var st := RunPriorities(nodes, priorities, cfg, t);
            && st.error.None? && st.processed == ClaimedSet(nodes, cfg, t)
            && !(priorities[t] in st.processed && IsTaint(nodes, priorities[t]))
            && RunPriorities(nodes, priorities, cfg, t + 1) == RunScope(nodes, priorities[t], At(cfg, priorities[t]).value, true, st)
  {
    NoErrorBefore(nodes, priorities, cfg, t, t + 1);
    TurnsHaveEffect(nodes, priorities, cfg, t);
    TurnTaken(nodes, priorities, cfg, t);
  }

  lemma SubsOfTurn(nodes: Nodes, cfg: Setting, a: Path, s: Setting, st: Run)
    requires IsTree(nodes) && a in nodes && st.error.None? && At(cfg, a) == Some(s)
    ensures SubsWrap(nodes, cfg, a, s, 0, if a in st.processed then st else st.(log := st.log + [Pre(a)]))
  {
    SubsWrapAll(nodes, cfg, a, s, 0, if a in st.processed then st else st.(log := st.log + [Pre(a)]));
  }

  /** In the root's turn the call on the root is the first on q. */
  lemma RootEncloses(nodes: Nodes, priorities: map<nat, Path>, cfg: Setting, q: Path)
    requires IsTree(nodes) && Ranked(nodes, priorities)
    requires q in nodes && Present(cfg, q) && !Claimed(nodes, q, PRIORITIES) && (q == [] || Executed(nodes, q))
    ensures q != [] ==> q in CoveredFrom(nodes, cfg, [], 0) && !IsTaint(nodes, q)
    ensures Enclosed(nodes, cfg, q) == CoveredFrom(nodes, cfg, q, 0) - ClaimedSet(nodes, cfg, PRIORITIES)
  {
    EnclosedIs(nodes, cfg, q, PRIORITIES);
    if q != [] {
      AllTurns(nodes, priorities, q);
      RootCovers(nodes, cfg);
    }
  }

  lemma RootCall(nodes: Nodes, cfg: Setting, st: Run, q: Path)
    requires IsTree(nodes) && st.error.None? && RunRoot(nodes, cfg, st).error.None? && [] !in st.processed
    requires q == [] || (q in CoveredFrom(nodes, cfg, [], 0) && !IsTaint(nodes, q))
    ensures var now := RunRoot(nodes, cfg, st).log;
            && st.log <= now && InOrder(nodes, st.log, now)
            && Wraps(st.log, now, q, CoveredFrom(nodes, cfg, q, 0) - st.processed)
  {
    var begun, x := st.(log := st.log + [Pre([])]), CoveredFrom(nodes, cfg, [], 0);
    var inside := RunSubs(nodes, [], cfg, 0, begun);
    SubsHaveEffect(nodes, cfg, [], cfg, 0, begun);
    SubsWrapAll(nodes, cfg, [], cfg, 0, begun);
    assert RunRoot(nodes, cfg, st).log == inside.log + [Post([])];
    RootAroundArranged(nodes, cfg, st.log, inside.log, x, st.processed, q);
  }

  lemma RootAroundArranged(nodes: Nodes, cfg: Setting, was: seq<Hook>, inside: seq<Hook>, x: set<Path>, done: set<Path>, q: Path)
    requires IsTree(nodes) && x == CoveredFrom(nodes, cfg, [], 0) && was + [Pre([])] <= inside
    requires Hooked(was + [Pre([])], inside, x - done) && Arranged(nodes, cfg, was + [Pre([])], inside, x, done)
    requires q == [] || (q in x && !IsTaint(nodes, q))
    ensures var now := inside + [Post([])];
            InOrder(nodes, was, now) && Wraps(was, now, q, CoveredFrom(nodes, cfg, q, 0) - done)
  {
    OrderAround(nodes, was, inside, [], x - done);
    if q == [] {
      WrapsAround(was, inside, [], x - done);
    } else {
      WrapsInside(was, inside, [], q, CoveredFrom(nodes, cfg, q, 0) - done);
    }
  }

  lemma RootArranged(nodes: Nodes, priorities: map<nat, Path>, cfg: Setting, q: Path)
    requires IsTree(nodes) && Ranked(nodes, priorities) && RunConfig(nodes, priorities, cfg).error.None?
    requires q in nodes && Present(cfg, q) && !Claimed(nodes, q, PRIORITIES) && (q == [] || Executed(nodes, q))
    ensures var was, now := RunPriorities(nodes, priorities, cfg, PRIORITIES).log, RunConfig(nodes, priorities, cfg).log;
            was <= now && InOrder(nodes, was, now) && Wraps(was, now, q, Enclosed(nodes, cfg, q))
  {
    var st := RunPriorities(nodes, priorities, cfg, PRIORITIES);
    LateTurnOk(nodes, priorities, cfg, PRIORITIES);
    TurnsProcessed(nodes, priorities, cfg);
    RootEncloses(nodes, priorities, cfg, q);
    RootCall(nodes, cfg, st, q);
  }

  lemma TurnsProcessed(nodes: Nodes, priorities: map<nat, Path>, cfg: Setting)
    requires IsTree(nodes) && Ranked(nodes, priorities) && RunPriorities(nodes, priorities, cfg, PRIORITIES).error.None?
    ensures RunPriorities(nodes, priorities, cfg, PRIORITIES).processed == ClaimedSet(nodes, cfg, PRIORITIES)
  {
    TurnsHaveEffect(nodes, priorities, cfg, PRIORITIES);
  }

  /** The part of the log in which both hooks of q are called. */
  ghost predicate Only(was: seq<Hook>, now: seq<Hook>, log: seq<Hook>, q: Path) {
    was <= now <= log && Silent([], was, q) && Silent(now, log, q)
  }

  lemma TurnIsOnly(nodes: Nodes, priorities: map<nat, Path>, cfg: Setting, t: nat, q: Path)
    requires IsTree(nodes) && Ranked(nodes, priorities) && RunConfig(nodes, priorities, cfg).error.None?
    requires t < PRIORITIES && q in nodes && Present(cfg, q) && !Claimed(nodes, q, t) && Claimed(nodes, q, t + 1) && q != []
    ensures Only(RunPriorities(nodes, priorities, cfg, t).log, RunPriorities(nodes, priorities, cfg, t + 1).log,
                 RunConfig(nodes, priorities, cfg).log, q)
  {
    LogGrows(nodes, priorities, cfg, t, t + 1);
    NothingYet(nodes, priorities, cfg, t, q);
    RestIsSilent(nodes, priorities, cfg, t + 1, q);
  }

  lemma NothingYet(nodes: Nodes, priorities: map<nat, Path>, cfg: Setting, t: nat, q: Path)
    requires IsTree(nodes) && Ranked(nodes, priorities) && RunConfig(nodes, priorities, cfg).error.None?
    requires t <= PRIORITIES && q !in ClaimedSet(nodes, cfg, t)
    ensures RunPriorities(nodes, priorities, cfg, t).log <= RunConfig(nodes, priorities, cfg).log
    ensures Silent([], RunPriorities(nodes, priorities, cfg, t).log, q)
  {
    TurnsArePrefix(nodes, priorities, cfg, t);
    HookedSilent([], RunPriorities(nodes, priorities, cfg, t).log, ClaimedSet(nodes, cfg, t), q);
  }

  lemma WrapsWithin(was: seq<Hook>, now: seq<Hook>, log: seq<Hook>, q: Path, x: set<Path>)
    requires Only(was, now, log, q) && Wraps(was, now, q, x)
    ensures Wraps([], log, q, x)
  {
    WrapsFirst(was, now, log, q, x);
    WrapsSecond([], was, log, q, x);
  }

  /** Between the two hooks of an executed scope, in a run that does not throw, those of exactly the
      scopes it encloses are called. */
  lemma RunWraps(nodes: Nodes, priorities: map<nat, Path>, cfg: Setting, q: Path)
    requires IsTree(nodes) && Ranked(nodes, priorities) && RunConfig(nodes, priorities, cfg).error.None?
    requires q in nodes && Present(cfg, q) && (q == [] || Executed(nodes, q))
    ensures Wraps([], RunConfig(nodes, priorities, cfg).log, q, Enclosed(nodes, cfg, q))
  {
    var log, x := RunConfig(nodes, priorities, cfg).log, Enclosed(nodes, cfg, q);
    var t := TurnOf(nodes, q);
    var was := RunPriorities(nodes, priorities, cfg, t).log;
    if t == PRIORITIES {
      NothingYet(nodes, priorities, cfg, t, q);
      RootArranged(nodes, priorities, cfg, q);
      WrapsWithin(was, log, log, q, x);
    } else {
      LateTurnOk(nodes, priorities, cfg, t + 1);
      RootIsNormal(nodes, t + 1);
      TurnArranged(nodes, priorities, cfg, t, q);
      TurnIsOnly(nodes, priorities, cfg, t, q);
      WrapsWithin(was, RunPriorities(nodes, priorities, cfg, t + 1).log, log, q, x);
    }
  }

  lemma RootIsNormal(nodes: Nodes, t: nat)
    requires IsTree(nodes)
    ensures !Claimed(nodes, [], t)
  {
  }

  lemma LateTurnOk(nodes: Nodes, priorities: map<nat, Path>, cfg: Setting, t: nat)
    requires t <= PRIORITIES && RunConfig(nodes, priorities, cfg).error.None?
    ensures RunPriorities(nodes, priorities, cfg, t).error.None?
  {
    NoErrorBefore(nodes, priorities, cfg, t, PRIORITIES);
  }

  lemma RestIsSilent(nodes: Nodes, priorities: map<nat, Path>, cfg: Setting, t: nat, q: Path)
    requires IsTree(nodes) && Ranked(nodes, priorities) && RunConfig(nodes, priorities, cfg).error.None?
    requires t <= PRIORITIES && q in ClaimedSet(nodes, cfg, t)
    ensures RunPriorities(nodes, priorities, cfg, t).log <= RunConfig(nodes, priorities, cfg).log
    ensures Silent(RunPriorities(nodes, priorities, cfg, t).log, RunConfig(nodes, priorities, cfg).log, q)
  {
    var was, log := RunPriorities(nodes, priorities, cfg, t).log, RunConfig(nodes, priorities, cfg).log;
    TurnsArePrefix(nodes, priorities, cfg, t);
    HooksOf([], was, ClaimedSet(nodes, cfg, t), q);
    assert Executed(nodes, q) by { AllTurns(nodes, priorities, q); ClaimedStays(nodes, q, t, PRIORITIES); }
    ExactlyOnce(nodes, priorities, cfg, q);
    CountedSilent(was, log, q);
  }

  // ----- Positions in the log -----

  lemma OnlyOnce(log: seq<Hook>, h: Hook, i: nat, j: nat)
    requires i < |log| && j < |log| && log[i] == h && log[j] == h && Calls(log, h) == 1
    ensures i == j
  {
    CalledTwice(log, h, i, j);
    CalledTwice(log, h, j, i);
  }

  lemma CalledTwice(log: seq<Hook>, h: Hook, i: nat, j: nat)
    requires i < |log| && j < |log| && log[i] == h && log[j] == h
    ensures i < j ==> Calls(log, h) >= 2
  {
    if i < j {
      assert log == log[..j] + log[j..];
      assert log[..j][i] == h && log[j..][0] == h;
    }
  }

  lemma HookCalled(nodes: Nodes, priorities: map<nat, Path>, cfg: Setting, q: Path, k: nat)
    requires IsTree(nodes) && Ranked(nodes, priorities) && RunConfig(nodes, priorities, cfg).error.None?
    requires var log := RunConfig(nodes, priorities, cfg).log; k < |log| && log[k].path == q
    ensures q in nodes && Present(cfg, q) && (q == [] || Executed(nodes, q))
    ensures var log := RunConfig(nodes, priorities, cfg).log; Calls(log, Pre(q)) == 1 && Calls(log, Post(q)) == 1
  {
    assert At(cfg, []) == Some(cfg);
    assert Calls(RunConfig(nodes, priorities, cfg).log, RunConfig(nodes, priorities, cfg).log[k]) > 0;
    ExactlyOnce(nodes, priorities, cfg, q);
  }

  lemma PreBeforePost(nodes: Nodes, priorities: map<nat, Path>, cfg: Setting, p: Path, i: nat, j: nat)
    requires IsTree(nodes) && Ranked(nodes, priorities) && RunConfig(nodes, priorities, cfg).error.None?
    requires var log := RunConfig(nodes, priorities, cfg).log;
             i < |log| && j < |log| && log[i] == Pre(p) && log[j] == Post(p)
    ensures i < j
  {
    var log := RunConfig(nodes, priorities, cfg).log;
    RunHasEffect(nodes, priorities, cfg);
    HookCalled(nodes, priorities, cfg, p, i);
    assert Pre(p) in log[..j];
    var k :| 0 <= k < j && log[k] == Pre(p);
    OnlyOnce(log, Pre(p), i, k);
  }

  lemma BetweenCounts(log: seq<Hook>, i: nat, j: nat, k: nat, x: set<Path>)
    requires i < j < |log| && k < |log| && Hooked(log[..i + 1], log[..j], x) && Calls(log, log[k]) == 1
    requires log[k] != log[i] && log[k] != log[j]
    ensures i < k < j <==> log[k].path in x
  {
    var h := log[k];
    assert Calls(log[..j], h) == Calls(log[..i + 1], h) + if h.path in x then 1 else 0;
    assert log == log[..j] + log[j..] && log == log[..i + 1] + log[i + 1..];
    if k < j { assert log[..j][k] == h; } else { assert log[j..][k - j] == h; }
    if k < i + 1 { assert log[..i + 1][k] == h; } else { assert log[i + 1..][k - i - 1] == h; }
  }

  /** In a run that does not throw, a hook of q is called between the two hooks of p if and only if p
      encloses q: q is below p with no TAINT scope in between, the first call on p runs its subscopes,
      and q was not processed in an earlier turn. */
  lemma HooksNest(nodes: Nodes, priorities: map<nat, Path>, cfg: Setting, p: Path, q: Path, i: nat, j: nat, k: nat)
    requires IsTree(nodes) && Ranked(nodes, priorities) && RunConfig(nodes, priorities, cfg).error.None? && p != q
    requires var log := RunConfig(nodes, priorities, cfg).log;
             && i < |log| && j < |log| && k < |log|
             && log[i] == Pre(p) && log[j] == Post(p) && log[k].path == q
    ensures i < j && (i < k < j <==> Encloses(nodes, p, q))
  {
    var log := RunConfig(nodes, priorities, cfg).log;
    HookCalled(nodes, priorities, cfg, p, i);
    HookCalled(nodes, priorities, cfg, q, k);
    PreBeforePost(nodes, priorities, cfg, p, i, j);
    RunWraps(nodes, priorities, cfg, p);
    BetweenCounts(log, i, j, k, Enclosed(nodes, cfg, p));
  }

  /** Whenever one hook of q is called between those of p, the other is too. */
  lemma BothBetween(
    nodes: Nodes, priorities: map<nat, Path>, cfg: Setting, p: Path, q: Path, i: nat, j: nat, k: nat, l: nat)
    requires IsTree(nodes) && Ranked(nodes, priorities) && RunConfig(nodes, priorities, cfg).error.None? && p != q
    requires var log := RunConfig(nodes, priorities, cfg).log;
             && i < |log| && j < |log| && k < |log| && l < |log|
             && log[i] == Pre(p) && log[j] == Post(p) && log[k] == Pre(q) && log[l] == Post(q)
    ensures i < k < j || i < l < j ==> i < k < l < j
  {
    HooksNest(nodes, priorities, cfg, p, q, i, j, k);
    HooksNest(nodes, priorities, cfg, p, q, i, j, l);
    PreBeforePost(nodes, priorities, cfg, q, k, l);
  }

  /** A normal scope is always enclosed by a normal one above it, if no TAINT scope is in between. */
  lemma NormalEncloses(nodes: Nodes, p: Path, q: Path)
    requires p in nodes && q in nodes && nodes[p].kind == Normal && nodes[q].kind == Normal
    requires Below(p, q) && NoTaintBelow(nodes, q, |p|)
    ensures Encloses(nodes, p, q)
  {
    ClaimantAbove(nodes, p, q);
    var k := Claimant(nodes, q);
    if k > 0 { assert q[..k] == p[..k]; }
    assert forall t: nat :: Claimed(nodes, q, t) ==> Claimed(nodes, p, t);
  }

  /** Without a TAINT scope in between, both have the same nearest TAINT scope above. */
  lemma ClaimantAbove(nodes: Nodes, p: Path, q: Path)
    requires Below(p, q) && NoTaintBelow(nodes, q, |p|) && !IsTaint(nodes, p)
    ensures Claimant(nodes, q) < |q| && Claimant(nodes, q) == Claimant(nodes, p)
    ensures p != [] ==> Claimant(nodes, p) < |p|
  {
    ClaimantIs(nodes, q, 0);
    var c := Claimant(nodes, q);
    assert q[..|p|] == p;
    if p != [] {
      ClaimantIs(nodes, p, c);
      var d := Claimant(nodes, p);
      if c > 0 { assert q[..c] == p[..c] || c >= |p|; }
      if d > 0 { assert q[..d] == p[..d]; }
      forall j | d < j < |q| ensures !IsTaint(nodes, q[..j]) { if j < |p| { assert q[..j] == p[..j]; } }
      ClaimantIs(nodes, q, d);
    }
  }

  /** The hooks of a scope below an earlier registered subscope come first, unless the other scope is
      processed in an earlier turn. */
  lemma SiblingOrder(nodes: Nodes, priorities: map<nat, Path>, cfg: Setting, q: Path, r: Path, i: nat, j: nat)
    requires IsTree(nodes) && Ranked(nodes, priorities) && RunConfig(nodes, priorities, cfg).error.None?
    requires var log := RunConfig(nodes, priorities, cfg).log;
             i < |log| && j < |log| && log[i].path == q && log[j].path == r
    requires Ahead(nodes, q, r)
    ensures i < j <==> !Earlier(nodes, r, q)
  {
    HookCalled(nodes, priorities, cfg, q, i);
    HookCalled(nodes, priorities, cfg, r, j);
    AroundNotAhead(nodes, q, q);
    var t := TurnOf(nodes, q);
    var u := TurnOf(nodes, r);
    EarlierIs(nodes, r, q, t);
    if t < u {
      ClaimedStays(nodes, q, t + 1, u);
      ClaimedStays(nodes, r, t, u);
      RootIsNormal(nodes, u);
      PriorityOrder(nodes, priorities, cfg, u, q, r, i, j);
    } else if u < t {
      ClaimedStays(nodes, r, u + 1, t);
      RootIsNormal(nodes, t);
      PriorityOrder(nodes, priorities, cfg, t, r, q, j, i);
    } else {
      SameTurnOrder(nodes, priorities, cfg, q, r, i, j, t);
    }
  }

  lemma OnlyIn(was: seq<Hook>, now: seq<Hook>, log: seq<Hook>, i: nat)
    requires i < |log| && Only(was, now, log, log[i].path)
    ensures |was| <= i < |now| && now[i] == log[i]
  {
    assert forall k | 0 <= k < |was| :: was[k] == log[k];
  }

  lemma OrderIn(nodes: Nodes, was: seq<Hook>, now: seq<Hook>, log: seq<Hook>, i: nat, j: nat)
    requires i < |log| && j < |log| && Only(was, now, log, log[i].path) && Only(was, now, log, log[j].path)
    requires InOrder(nodes, was, now) && Ahead(nodes, log[i].path, log[j].path) && log[i].path != log[j].path
    ensures i < j
  {
    OnlyIn(was, now, log, i);
    OnlyIn(was, now, log, j);
  }

  lemma SameTurnOrder(nodes: Nodes, priorities: map<nat, Path>, cfg: Setting, q: Path, r: Path, i: nat, j: nat, t: nat)
    requires IsTree(nodes) && Ranked(nodes, priorities) && RunConfig(nodes, priorities, cfg).error.None?
    requires var log := RunConfig(nodes, priorities, cfg).log;
             i < |log| && j < |log| && log[i].path == q && log[j].path == r
    requires Ahead(nodes, q, r) && q != r && t <= PRIORITIES
    requires q in nodes && Present(cfg, q) && (q == [] || Executed(nodes, q)) && r in nodes && Present(cfg, r)
    requires !Claimed(nodes, q, t) && (t < PRIORITIES ==> Claimed(nodes, q, t + 1))
    requires !Claimed(nodes, r, t) && (t < PRIORITIES ==> Claimed(nodes, r, t + 1))
    ensures i < j
  {
    var log, was := RunConfig(nodes, priorities, cfg).log, RunPriorities(nodes, priorities, cfg, t).log;
    if t == PRIORITIES {
      NothingYet(nodes, priorities, cfg, t, q);
      NothingYet(nodes, priorities, cfg, t, r);
      RootArranged(nodes, priorities, cfg, q);
      OrderIn(nodes, was, log, log, i, j);
    } else {
      LateTurnOk(nodes, priorities, cfg, t + 1);
      RootIsNormal(nodes, t + 1);
      TurnArranged(nodes, priorities, cfg, t, q);
      TurnIsOnly(nodes, priorities, cfg, t, q);
      TurnIsOnly(nodes, priorities, cfg, t, r);
      OrderIn(nodes, was, RunPriorities(nodes, priorities, cfg, t + 1).log, log, i, j);
    }
  }

  // ----- Runs that throw -----

  /** An exception comes from the checks of a scope right behind its first hook, or from a mandatory
      subscope that is missing. */
  ghost predicate ThrownAt(nodes: Nodes, cfg: Setting, r: Run, q: Path) {
    && q in nodes && Present(cfg, q)
    && var s := At(cfg, q).value;
    || (r.log != [] && r.log[|r.log| - 1] == Pre(q)
        && if q != [] && !KnowsAll(nodes[q], s) then r.error == Some(UnknownElement)
           else r.error == Some(MandatoryNotPresent) && !HasParameters(nodes[q], s))
    || (r.error == Some(MandatoryNotPresent) && !SubsOk(nodes, cfg, q))
  }

  ghost predicate Explained(nodes: Nodes, cfg: Setting, r: Run) {
    r.error.Some? ==> exists q :: ThrownAt(nodes, cfg, r, q)
  }

  lemma {:induction false} SubsThrow(nodes: Nodes, cfg: Setting, p: Path, s: Setting, i: nat, st: Run)
    requires IsTree(nodes) && p in nodes && i <= |nodes[p].children| && st.error.None? && At(cfg, p) == Some(s)
    ensures Explained(nodes, cfg, RunSubs(nodes, p, s, i, st))
    decreases s, |Children(nodes, p)| - i
  {
    if i < |nodes[p].children| {
      var c, a := nodes[p].children[i], RunAt(nodes, p, s, i, st);
      if IsMandatory(nodes, p + [c]) && !HasGroup(s, c) {
        assert !SubsOk(nodes, cfg, p) by { assert Children(nodes, p)[i] == c; }
        assert ThrownAt(nodes, cfg, RunSubs(nodes, p, s, i, st), p);
      } else {
        if Has(s, c) {
          ChildInTree(nodes, p, i);
          AtStep(cfg, p, c);
          ScopeThrows(nodes, cfg, p + [c], s.entries[c], false, st);
        }
        if a.error.None? { SubsThrow(nodes, cfg, p, s, i + 1, a); }
      }
    }
  }

  lemma {:induction false} ScopeThrows(nodes: Nodes, cfg: Setting, p: Path, s: Setting, priorityCall: bool, st: Run)
    requires IsTree(nodes) && p in nodes && p != [] && st.error.None? && At(cfg, p) == Some(s)
    ensures Explained(nodes, cfg, RunScope(nodes, p, s, priorityCall, st))
    decreases s, |Children(nodes, p)| + 1
  {
    if !(p in st.processed && IsTaint(nodes, p)) {
      var now := if p in st.processed then st else st.(log := st.log + [Pre(p)]);
      if p !in st.processed && CheckNames(nodes[p], s).Some? {
        assert ThrownAt(nodes, cfg, RunScope(nodes, p, s, priorityCall, st), p);
      } else if priorityCall == IsTaint(nodes, p) {
        SubsThrow(nodes, cfg, p, s, 0, now);
      }
    }
  }

  lemma {:induction false} TurnsThrow(nodes: Nodes, priorities: map<nat, Path>, cfg: Setting, t: nat)
    requires IsTree(nodes) && Ranked(nodes, priorities)
    ensures Explained(nodes, cfg, RunPriorities(nodes, priorities, cfg, t))
    decreases t
  {
    if t > 0 {
      TurnsThrow(nodes, priorities, cfg, t - 1);
      var st := RunPriorities(nodes, priorities, cfg, t - 1);
      if st.error.None? && t - 1 in priorities && Present(cfg, priorities[t - 1]) {
        assert priorities[t - 1] != [];
        ScopeThrows(nodes, cfg, priorities[t - 1], At(cfg, priorities[t - 1]).value, true, st);
      }
    }
  }

  /** A run that throws ends behind the first hook of a scope whose checks fail, with an exception that
      says whether a name is unknown or a parameter is missing; or at a mandatory subscope that is
      missing. */
  lemma RunsThrowAt(nodes: Nodes, priorities: map<nat, Path>, cfg: Setting)
    requires IsTree(nodes) && Ranked(nodes, priorities) && RunConfig(nodes, priorities, cfg).error.Some?
    ensures exists q :: ThrownAt(nodes, cfg, RunConfig(nodes, priorities, cfg), q)
  {
    var st := RunPriorities(nodes, priorities, cfg, PRIORITIES);
    TurnsThrow(nodes, priorities, cfg, PRIORITIES);
    if st.error.None? {
      assert At(cfg, []) == Some(cfg);
      var begun := st.(log := st.log + [Pre([])]);
      if HasParameters(nodes[[]], cfg) {
        SubsThrow(nodes, cfg, [], cfg, 0, begun);
      } else {
        assert ThrownAt(nodes, cfg, RunConfig(nodes, priorities, cfg), []);
      }
    }
  }
}
