/**
 What a run over a configuration does: which scopes it processes, how often and in which order
 it calls their hooks, and which configurations it accepts.
 */
module ConfigExecution {
  import opened Wrappers
  import opened ConfigScope

  // ----- Paths in settings and in the tree -----

  lemma {:induction false} AtStep(s: Setting, p: Path, c: string)
    ensures At(s, p + [c])
            == match At(s, p)
               case Some(g) => (if Has(g, c) then Some(g.entries[c]) else None)
               case None => None
    decreases |p|
  {
    if p == [] {
      assert (p + [c])[1..] == [];
    } else {
      assert (p + [c])[1..] == p[1..] + [c];
      if Has(s, p[0]) { AtStep(s.entries[p[0]], p[1..], c); }
    }
  }

  lemma {:induction false} AtPrefix(s: Setting, q: Path, k: nat)
    requires At(s, q).Some? && k <= |q|
    ensures At(s, q[..k]).Some?
    decreases |q| - k
  {
    if k == |q| {
      assert q[..k] == q;
    } else {
      AtPrefix(s, q, k + 1);
      assert q[..k + 1] == q[..k] + [q[k]];
      AtStep(s, q[..k], q[k]);
    }
  }

  lemma {:induction false} PrefixInTree(nodes: Nodes, q: Path, k: nat)
    requires IsTree(nodes) && q in nodes && k <= |q|
    ensures q[..k] in nodes && (k < |q| ==> q[k] in nodes[q[..k]].children)
    decreases |q| - k
  {
    if k == |q| {
      assert q[..k] == q;
    } else {
      PrefixInTree(nodes, q, k + 1);
      var r := q[..k + 1];
      assert Listed(nodes, r);
      assert r[..k] == q[..k] && r[k] == q[k];
    }
  }

  // ----- What a call covers -----

  ghost predicate Present(cfg: Setting, q: Path) {
    At(cfg, q).Some?
  }

  /** No TAINT scope lies strictly between the first k names of q and q. */
  ghost predicate NoTaintBelow(nodes: Nodes, q: Path, k: nat) {
    forall j | k < j < |q| :: !IsTaint(nodes, q[..j])
  }

  ghost predicate Below(p: Path, q: Path) {
    |p| < |q| && q[..|p|] == p
  }

  /** The present scopes below p, from its i-th subscope on, without those below a TAINT scope. */
  ghost function CoveredFrom(nodes: Nodes, cfg: Setting, p: Path, i: nat): set<Path> {
    set q | q in nodes && Present(cfg, q) && Below(p, q) && NoTaintBelow(nodes, q, |p|)
            && (exists j :: i <= j < |Children(nodes, p)| && Children(nodes, p)[j] == q[|p|])
  }

  /** The scope itself, and those below if the call goes inside. */
  ghost function Covered(nodes: Nodes, cfg: Setting, p: Path, priorityCall: bool): set<Path> {
    {p} + if priorityCall == IsTaint(nodes, p) then CoveredFrom(nodes, cfg, p, 0) else {}
  }

  /** What the i-th subscope contributes. */
  ghost function CoveredAt(nodes: Nodes, cfg: Setting, p: Path, i: nat): set<Path> {
    if i < |Children(nodes, p)| && Present(cfg, p + [Children(nodes, p)[i]])
    then Covered(nodes, cfg, p + [Children(nodes, p)[i]], false)
    else {}
  }

  lemma BelowChild(p: Path, c: string, q: Path)
    ensures Below(p, q) && q[|p|] == c <==> q == p + [c] || Below(p + [c], q)
  {
    if Below(p, q) && q[|p|] == c {
      assert q[..|p| + 1] == p + [c];
      if |q| == |p| + 1 { assert q == q[..|p| + 1]; }
    }
    if Below(p + [c], q) {
      assert q[..|p|] == (p + [c])[..|p|];
      assert q[|p|] == q[..|p| + 1][|p|];
    }
  }

  lemma TaintChild(nodes: Nodes, pc: Path, q: Path)
    requires pc != [] && Below(pc, q)
    ensures NoTaintBelow(nodes, q, |pc| - 1) <==> !IsTaint(nodes, pc) && NoTaintBelow(nodes, q, |pc|)
  {
    assert q[..|pc|] == pc;
  }

  lemma CoveredAtBelow(nodes: Nodes, cfg: Setting, p: Path, i: nat, q: Path)
    requires i < |Children(nodes, p)|
    requires var pc := p + [Children(nodes, p)[i]]; Below(pc, q) && (q in nodes ==> q[|pc|] in Children(nodes, pc))
    ensures q in CoveredAt(nodes, cfg, p, i) <==> q in nodes && Present(cfg, q) && NoTaintBelow(nodes, q, |p|)
  {
    var pc := p + [Children(nodes, p)[i]];
    TaintChild(nodes, pc, q);
    if Present(cfg, q) { AtPrefix(cfg, q, |pc|); }
  }

  /** Membership in what a subscope contributes, said from the parent. */
  lemma CoveredAtContains(nodes: Nodes, cfg: Setting, p: Path, i: nat, q: Path)
    requires IsTree(nodes) && p in nodes && i < |nodes[p].children|
    ensures q in CoveredAt(nodes, cfg, p, i)
            <==> q in nodes && Present(cfg, q) && Below(p, q) && NoTaintBelow(nodes, q, |p|)
                 && nodes[p].children[i] == q[|p|]
  {
    var c := nodes[p].children[i];
    var pc := p + [c];
    assert pc in nodes;
    BelowChild(p, c, q);
    if Below(pc, q) {
      if q in nodes { PrefixInTree(nodes, q, |pc|); }
      CoveredAtBelow(nodes, cfg, p, i, q);
    }
  }

  lemma CoverSplits(nodes: Nodes, cfg: Setting, p: Path, i: nat)
    requires IsTree(nodes) && p in nodes && i < |nodes[p].children|
    ensures CoveredFrom(nodes, cfg, p, i) == CoveredAt(nodes, cfg, p, i) + CoveredFrom(nodes, cfg, p, i + 1)
    ensures CoveredAt(nodes, cfg, p, i) !! CoveredFrom(nodes, cfg, p, i + 1)
  {
    var a, b, c := CoveredFrom(nodes, cfg, p, i), CoveredAt(nodes, cfg, p, i), CoveredFrom(nodes, cfg, p, i + 1);
    assert Distinct(nodes[p].children);
    forall q ensures q in a <==> q in b || q in c {
      CoveredAtContains(nodes, cfg, p, i, q);
    }
    forall q | q in b ensures q !in c {
      CoveredAtContains(nodes, cfg, p, i, q);
    }
  }

  // ----- Hooks -----

  ghost function Calls(log: seq<Hook>, h: Hook): nat {
    multiset(log)[h]
  }

  /** From `was` to `now`, each scope in the set had both its hooks called once, the others none. */
  ghost predicate Hooked(was: seq<Hook>, now: seq<Hook>, x: set<Path>) {
    forall q: Path ::
      var n := if q in x then 1 else 0;
      Calls(now, Pre(q)) == Calls(was, Pre(q)) + n && Calls(now, Post(q)) == Calls(was, Post(q)) + n
  }

  lemma HookedBoth(a: seq<Hook>, b: seq<Hook>, c: seq<Hook>, x: set<Path>, y: set<Path>)
    requires Hooked(a, b, x) && Hooked(b, c, y) && x !! y
    ensures Hooked(a, c, x + y)
  {
  }

  lemma HookedAround(was: seq<Hook>, inside: seq<Hook>, p: Path, x: set<Path>)
    requires Hooked(was + [Pre(p)], inside, x) && p !in x
    ensures Hooked(was, inside + [Post(p)], x + {p})
  {
    var before, after := was + [Pre(p)], inside + [Post(p)];
    forall q: Path
      ensures var n := if q in x + {p} then 1 else 0;
              Calls(after, Pre(q)) == Calls(was, Pre(q)) + n && Calls(after, Post(q)) == Calls(was, Post(q)) + n
    {
      assert Calls(before, Pre(q)) == Calls(was, Pre(q)) + if q == p then 1 else 0;
      assert Calls(before, Post(q)) == Calls(was, Post(q));
    }
  }

  /** No hook is called after the validation of a scope whose first hook was not called. */
  ghost predicate Nested(log: seq<Hook>) {
    forall i | 0 <= i < |log| && log[i].Post? :: Pre(log[i].path) in log[..i]
  }

  lemma NestedPre(log: seq<Hook>, p: Path)
    requires Nested(log)
    ensures Nested(log + [Pre(p)])
  {
    var now := log + [Pre(p)];
    forall i | 0 <= i < |now| && now[i].Post? ensures Pre(now[i].path) in now[..i] {
      assert now[..i] == log[..i];
    }
  }

  lemma NestedPost(log: seq<Hook>, p: Path)
    requires Nested(log) && Pre(p) in log
    ensures Nested(log + [Post(p)])
  {
    var now := log + [Post(p)];
    forall i | 0 <= i < |now| && now[i].Post? ensures Pre(now[i].path) in now[..i] {
      assert now[..i] == log[..i];
    }
  }

  // ----- The effect of a call -----

  ghost predicate HookOk(nodes: Nodes, cfg: Setting, q: Path) {
    q in nodes && Present(cfg, q) ==> KnowsAll(nodes[q], At(cfg, q).value) && HasParameters(nodes[q], At(cfg, q).value)
  }

  /** The mandatory subscopes, from the i-th on, are groups of the setting. */
  ghost predicate SubsOkFrom(nodes: Nodes, p: Path, s: Setting, i: nat) {
    forall j | i <= j < |Children(nodes, p)| ::
      IsMandatory(nodes, p + [Children(nodes, p)[j]]) ==> HasGroup(s, Children(nodes, p)[j])
  }

  ghost predicate SubsOk(nodes: Nodes, cfg: Setting, q: Path) {
    Present(cfg, q) ==> SubsOkFrom(nodes, q, At(cfg, q).value, 0)
  }

  /** The checks a normal call makes in the scopes it covers. */
  ghost predicate Fine(nodes: Nodes, cfg: Setting, x: set<Path>, done: set<Path>) {
    forall q | q in x :: (q !in done ==> HookOk(nodes, cfg, q)) && (!IsTaint(nodes, q) ==> SubsOk(nodes, cfg, q))
  }

  /** Only hooks of scopes in the set were called. */
  ghost predicate Within(was: seq<Hook>, now: seq<Hook>, x: set<Path>) {
    forall h | h in now :: h in was || h.path in x
  }

  /** A call succeeds exactly if the checks do, and then has processed the set. Whether or not it
      succeeds, it calls no hooks but those of the set. */
  ghost predicate Effect(st: Run, r: Run, x: set<Path>, ok: bool) {
    && (r.error.None? <==> ok)
    && (ok ==> r.processed == st.processed + x && Hooked(st.log, r.log, x - st.processed))
    && st.log <= r.log && (Nested(st.log) ==> Nested(r.log)) && Within(st.log, r.log, x)
  }

  ghost predicate SubsEffect(nodes: Nodes, cfg: Setting, p: Path, s: Setting, i: nat, st: Run) {
    var x := CoveredFrom(nodes, cfg, p, i);
    Effect(st, RunSubs(nodes, p, s, i, st), x, Fine(nodes, cfg, x, st.processed) && SubsOkFrom(nodes, p, s, i))
  }

  ghost predicate ScopeEffect(nodes: Nodes, cfg: Setting, p: Path, s: Setting, st: Run) {
    var x := Covered(nodes, cfg, p, false);
    Effect(st, RunScope(nodes, p, s, false, st), x, Fine(nodes, cfg, x, st.processed))
  }

  lemma EffectNothing(st: Run)
    requires st.error.None?
    ensures Effect(st, st, {}, true)
  {
  }

  lemma EffectBoth(st: Run, a: Run, b: Run, x: set<Path>, y: set<Path>, okX: bool, okY: bool)
    requires Effect(st, a, x, okX) && okX && Effect(a, b, y, okY) && x !! y
    ensures Effect(st, b, x + y, okY)
  {
    if okY {
      assert y - a.processed == y - st.processed;
      HookedBoth(st.log, a.log, b.log, x - st.processed, y - a.processed);
      assert (x - st.processed) + (y - st.processed) == x + y - st.processed;
    }
  }

  /** A scope that is run for the first time: its hooks go around what is run inside. */
  lemma EffectAround(st: Run, begun: Run, inside: Run, p: Path, x: set<Path>, ok: bool)
    requires begun == st.(log := st.log + [Pre(p)]) && Effect(begun, inside, x, ok) && ok
    requires p !in x && p !in st.processed
    ensures Effect(st, Run(inside.processed + {p}, inside.log + [Post(p)], None), {p} + x, true)
  {
    HookedNew(st.log, inside.log, p, x, st.processed);
    NestedAround(st.log, inside.log, p);
    WithinAround(st.log, inside.log, p, x);
  }

  lemma HookedNew(was: seq<Hook>, inside: seq<Hook>, p: Path, x: set<Path>, done: set<Path>)
    requires Hooked(was + [Pre(p)], inside, x - done) && p !in x && p !in done
    ensures Hooked(was, inside + [Post(p)], {p} + x - done)
  {
    HookedAround(was, inside, p, x - done);
    assert (x - done) + {p} == {p} + x - done;
  }

  lemma WithinAround(was: seq<Hook>, inside: seq<Hook>, p: Path, x: set<Path>)
    requires Within(was + [Pre(p)], inside, x)
    ensures Within(was, inside + [Post(p)], {p} + x)
  {
  }

  lemma NestedAround(was: seq<Hook>, inside: seq<Hook>, p: Path)
    requires was + [Pre(p)] <= inside && (Nested(was + [Pre(p)]) ==> Nested(inside))
    ensures Nested(was) ==> Nested(inside + [Post(p)])
  {
    assert inside[|was|] == Pre(p);
    if Nested(was) {
      NestedPre(was, p);
      NestedPost(inside, p);
    }
  }

  // ----- Runs have their effect -----

  lemma FineSplits(nodes: Nodes, cfg: Setting, x: set<Path>, y: set<Path>, done: set<Path>, r: set<Path>)
    requires x !! y && r == done + x
    ensures Fine(nodes, cfg, x + y, done) <==> Fine(nodes, cfg, x, done) && Fine(nodes, cfg, y, r)
  {
  }

  lemma SubsOkSplits(nodes: Nodes, p: Path, s: Setting, i: nat)
    requires i < |Children(nodes, p)|
    ensures var c := Children(nodes, p)[i];
            SubsOkFrom(nodes, p, s, i)
            <==> (IsMandatory(nodes, p + [c]) ==> HasGroup(s, c)) && SubsOkFrom(nodes, p, s, i + 1)
  {
  }

  /** The turn of the i-th subscope. */
  ghost function RunAt(nodes: Nodes, p: Path, s: Setting, i: nat, st: Run): Run {
    if i < |Children(nodes, p)| && Has(s, Children(nodes, p)[i])
    then RunScope(nodes, p + [Children(nodes, p)[i]], s.entries[Children(nodes, p)[i]], false, st)
    else st
  }

  ghost predicate AtEffect(nodes: Nodes, cfg: Setting, p: Path, s: Setting, i: nat, st: Run) {
    var x := CoveredAt(nodes, cfg, p, i);
    Effect(st, RunAt(nodes, p, s, i, st), x, Fine(nodes, cfg, x, st.processed))
  }

  lemma AtPresent(nodes: Nodes, cfg: Setting, p: Path, s: Setting, i: nat)
    requires p in nodes && At(cfg, p) == Some(s) && i < |nodes[p].children|
    ensures var c := nodes[p].children[i];
            if Has(s, c)
            then At(cfg, p + [c]) == Some(s.entries[c]) && CoveredAt(nodes, cfg, p, i) == Covered(nodes, cfg, p + [c], false)
            else CoveredAt(nodes, cfg, p, i) == {}
  {
    AtStep(cfg, p, nodes[p].children[i]);
  }

  /** One turn of the loop over the subscopes. */
  lemma SubsTurn(nodes: Nodes, cfg: Setting, p: Path, s: Setting, i: nat, st: Run)
    requires IsTree(nodes) && p in nodes && i < |nodes[p].children| && st.error.None?
    requires AtEffect(nodes, cfg, p, s, i, st)
    requires RunAt(nodes, p, s, i, st).error.None? ==> SubsEffect(nodes, cfg, p, s, i + 1, RunAt(nodes, p, s, i, st))
    ensures SubsEffect(nodes, cfg, p, s, i, st)
  {
    var c, a := nodes[p].children[i], RunAt(nodes, p, s, i, st);
    var x, y, z := CoveredAt(nodes, cfg, p, i), CoveredFrom(nodes, cfg, p, i + 1), CoveredFrom(nodes, cfg, p, i);
    CoverSplits(nodes, cfg, p, i);
    SubsOkSplits(nodes, p, s, i);
    if IsMandatory(nodes, p + [c]) && !HasGroup(s, c) {
      EffectNothing(st);
    } else if a.error.Some? {
      assert !Fine(nodes, cfg, x, st.processed);
    } else {
      var okY := Fine(nodes, cfg, y, a.processed) && SubsOkFrom(nodes, p, s, i + 1);
      FineSplits(nodes, cfg, x, y, st.processed, a.processed);
      EffectBoth(st, a, RunSubs(nodes, p, s, i + 1, a), x, y, true, okY);
    }
  }

  lemma NoSubLeft(nodes: Nodes, cfg: Setting, p: Path, s: Setting, i: nat, st: Run)
    requires i == |Children(nodes, p)| && st.error.None?
    ensures SubsEffect(nodes, cfg, p, s, i, st)
  {
    EffectNothing(st);
    assert CoveredFrom(nodes, cfg, p, i) == {};
  }

  lemma OneSub(nodes: Nodes, cfg: Setting, p: Path, s: Setting, i: nat, st: Run)
    requires p in nodes && i < |nodes[p].children| && st.error.None? && At(cfg, p) == Some(s)
    requires var c := nodes[p].children[i]; Has(s, c) ==> ScopeEffect(nodes, cfg, p + [c], s.entries[c], st)
    ensures AtEffect(nodes, cfg, p, s, i, st)
  {
    AtPresent(nodes, cfg, p, s, i);
    if !Has(s, nodes[p].children[i]) { EffectNothing(st); }
  }

  lemma ChildInTree(nodes: Nodes, p: Path, i: nat)
    requires IsTree(nodes) && p in nodes && i < |nodes[p].children|
    ensures p + [nodes[p].children[i]] in nodes
  {
  }

  lemma {:induction false} SubsHaveEffect(nodes: Nodes, cfg: Setting, p: Path, s: Setting, i: nat, st: Run)
    requires IsTree(nodes) && p in nodes && i <= |nodes[p].children| && st.error.None? && At(cfg, p) == Some(s)
    ensures SubsEffect(nodes, cfg, p, s, i, st)
    decreases s, |Children(nodes, p)| - i
  {
    if i == |nodes[p].children| {
      NoSubLeft(nodes, cfg, p, s, i, st);
    } else {
      var c := nodes[p].children[i];
      if Has(s, c) {
        ChildInTree(nodes, p, i);
        AtStep(cfg, p, c);
        ScopeHasEffect(nodes, cfg, p + [c], s.entries[c], st);
      }
      OneSub(nodes, cfg, p, s, i, st);
      var a := RunAt(nodes, p, s, i, st);
      if a.error.None? { SubsHaveEffect(nodes, cfg, p, s, i + 1, a); }
      SubsTurn(nodes, cfg, p, s, i, st);
    }
  }

  // ----- A whole scope -----

  ghost predicate InsideEffect(nodes: Nodes, cfg: Setting, p: Path, s: Setting, priorityCall: bool, st: Run) {
    var inside := priorityCall == IsTaint(nodes, p);
    var x := if inside then CoveredFrom(nodes, cfg, p, 0) else {};
    Effect(st, RunInside(nodes, p, s, priorityCall, st), x,
           inside ==> Fine(nodes, cfg, x, st.processed) && SubsOkFrom(nodes, p, s, 0))
  }

  /** The checks a call on p makes. */
  ghost predicate CallOk(nodes: Nodes, cfg: Setting, p: Path, priorityCall: bool, done: set<Path>) {
    && (p !in done ==> HookOk(nodes, cfg, p))
    && (priorityCall == IsTaint(nodes, p) ==>
          Fine(nodes, cfg, CoveredFrom(nodes, cfg, p, 0), done) && SubsOk(nodes, cfg, p))
  }

  ghost predicate CallEffect(nodes: Nodes, cfg: Setting, p: Path, s: Setting, priorityCall: bool, st: Run) {
    Effect(st, RunScope(nodes, p, s, priorityCall, st),
           Covered(nodes, cfg, p, priorityCall), CallOk(nodes, cfg, p, priorityCall, st.processed))
  }

  lemma EffectAgain(st: Run, r: Run, p: Path, x: set<Path>, ok: bool)
    requires Effect(st, r, x, ok) && p in st.processed
    ensures Effect(st, r, {p} + x, ok)
  {
    assert {p} + x - st.processed == x - st.processed;
  }

  lemma EffectRefused(st: Run, begun: Run, r: Run, p: Path, x: set<Path>)
    requires begun.log == st.log + [Pre(p)] && r.error.Some?
    requires begun.log <= r.log && (Nested(begun.log) ==> Nested(r.log)) && Within(begun.log, r.log, x) && p in x
    ensures Effect(st, r, x, false)
  {
    if Nested(st.log) { NestedPre(st.log, p); }
  }

  lemma CallFromInside(nodes: Nodes, cfg: Setting, p: Path, s: Setting, priorityCall: bool, st: Run)
    requires p in nodes && st.error.None? && At(cfg, p) == Some(s) && !(p in st.processed && IsTaint(nodes, p))
    requires p in st.processed ==> InsideEffect(nodes, cfg, p, s, priorityCall, st)
    requires p !in st.processed ==> InsideEffect(nodes, cfg, p, s, priorityCall, st.(log := st.log + [Pre(p)]))
    ensures CallEffect(nodes, cfg, p, s, priorityCall, st)
  {
    var x := if priorityCall == IsTaint(nodes, p) then CoveredFrom(nodes, cfg, p, 0) else {};
    if p in st.processed {
      EffectAgain(st, RunScope(nodes, p, s, priorityCall, st), p, x, CallOk(nodes, cfg, p, priorityCall, st.processed));
    } else {
      FirstCallFromInside(nodes, cfg, p, s, priorityCall, st, x);
    }
  }

  lemma FirstCallFromInside(nodes: Nodes, cfg: Setting, p: Path, s: Setting, priorityCall: bool, st: Run, x: set<Path>)
    requires p in nodes && st.error.None? && At(cfg, p) == Some(s) && p !in st.processed
    requires x == if priorityCall == IsTaint(nodes, p) then CoveredFrom(nodes, cfg, p, 0) else {}
    requires InsideEffect(nodes, cfg, p, s, priorityCall, st.(log := st.log + [Pre(p)]))
    ensures Effect(st, RunScope(nodes, p, s, priorityCall, st), {p} + x, CallOk(nodes, cfg, p, priorityCall, st.processed))
  {
    var begun, r := st.(log := st.log + [Pre(p)]), RunScope(nodes, p, s, priorityCall, st);
    var inside := RunInside(nodes, p, s, priorityCall, begun);
    assert HookOk(nodes, cfg, p) <==> CheckNames(nodes[p], s).None?;
    if CheckNames(nodes[p], s).Some? || inside.error.Some? {
      EffectRefused(st, begun, r, p, {p} + x);
    } else {
      EffectAround(st, begun, inside, p, x, true);
    }
  }

  lemma FineCovered(nodes: Nodes, cfg: Setting, p: Path, done: set<Path>)
    ensures CallOk(nodes, cfg, p, false, done) <==> Fine(nodes, cfg, Covered(nodes, cfg, p, false), done)
  {
  }

  lemma InsideHasEffect(nodes: Nodes, cfg: Setting, p: Path, s: Setting, priorityCall: bool, st: Run)
    requires st.error.None?
    requires priorityCall == IsTaint(nodes, p) ==> SubsEffect(nodes, cfg, p, s, 0, st)
    ensures InsideEffect(nodes, cfg, p, s, priorityCall, st)
  {
    if priorityCall != IsTaint(nodes, p) { EffectNothing(st); }
  }

  /** A normal call processes exactly what it covers, calls both hooks of what is new to it once,
      and succeeds exactly if all checks do. */
  lemma {:induction false} ScopeHasEffect(nodes: Nodes, cfg: Setting, p: Path, s: Setting, st: Run)
    requires IsTree(nodes) && p in nodes && st.error.None? && At(cfg, p) == Some(s)
    ensures ScopeEffect(nodes, cfg, p, s, st)
    decreases s, |Children(nodes, p)| + 1
  {
    if p in st.processed && IsTaint(nodes, p) {
      EffectNothing(st);
      EffectAgain(st, st, p, {}, true);
    } else {
      var now := if p in st.processed then st else st.(log := st.log + [Pre(p)]);
      if !IsTaint(nodes, p) { SubsHaveEffect(nodes, cfg, p, s, 0, now); }
      InsideHasEffect(nodes, cfg, p, s, false, now);
      CallFromInside(nodes, cfg, p, s, false, st);
    }
    FineCovered(nodes, cfg, p, st.processed);
  }

  /** The priority turn of a scope: nothing for a TAINT scope that was taken along by another. */
  lemma TurnHasEffect(nodes: Nodes, cfg: Setting, p: Path, s: Setting, st: Run)
    requires IsTree(nodes) && p in nodes && st.error.None? && At(cfg, p) == Some(s)
    ensures if p in st.processed && IsTaint(nodes, p) then RunScope(nodes, p, s, true, st) == st
            else CallEffect(nodes, cfg, p, s, true, st)
  {
    if !(p in st.processed && IsTaint(nodes, p)) {
      var now := if p in st.processed then st else st.(log := st.log + [Pre(p)]);
      if IsTaint(nodes, p) { SubsHaveEffect(nodes, cfg, p, s, 0, now); }
      InsideHasEffect(nodes, cfg, p, s, true, now);
      CallFromInside(nodes, cfg, p, s, true, st);
    }
  }
}
