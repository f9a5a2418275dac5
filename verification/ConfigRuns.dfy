/**
 Whole runs over a configuration. A TAINT scope below another TAINT scope with a smaller priority
 number is taken along by it without its subscopes, and its own turn then is skipped: it is
 starved. What a run does is stated exactly for every tree, in terms of starving. For which trees
 this is what is expected, whatever the configuration, is in ConfigExact.
 */
module ConfigRuns {
  import opened Wrappers
  import opened ConfigScope
  import opened ConfigExecution

  // ----- Who takes a scope along -----

  /** The length of the longest prefix of q, of k names at most, that is a TAINT scope; 0 if none. */
  ghost function TaintAbove(nodes: Nodes, q: Path, k: nat): nat {
    if k == 0 || k > |q| then 0
    else if IsTaint(nodes, q[..k]) then k
    else TaintAbove(nodes, q, k - 1)
  }

  /** The nearest TAINT scope above q, as a length; 0 if there is none. */
  ghost function Claimant(nodes: Nodes, q: Path): nat {
    if q == [] then 0 else TaintAbove(nodes, q, |q| - 1)
  }

  ghost function PriorityOf(nodes: Nodes, q: Path): nat {
    if q in nodes then nodes[q].priority else 0
  }

  /** The nearest TAINT scope above q takes it along, in a turn before t. */
  ghost predicate TakenBefore(nodes: Nodes, q: Path, t: nat)
    decreases |q|, 0
  {
    var k := Claimant(nodes, q);
    0 < k < |q| && PriorityOf(nodes, q[..k]) < t && !Starved(nodes, q[..k])
  }

  /** The scope was taken along before its own turn comes. */
  ghost predicate Starved(nodes: Nodes, q: Path)
    decreases |q|, 1
  {
    TakenBefore(nodes, q, PriorityOf(nodes, q))
  }

  ghost predicate Claimed(nodes: Nodes, q: Path, t: nat) {
    TakenBefore(nodes, q, t) || (q in nodes && nodes[q].kind != Normal && nodes[q].priority < t)
  }

  /** In a turn before t, the subscopes of q are run. */
  ghost predicate EnteredBefore(nodes: Nodes, q: Path, t: nat) {
    if IsTaint(nodes, q) then PriorityOf(nodes, q) < t && !Starved(nodes, q) else TakenBefore(nodes, q, t)
  }

  lemma {:induction false} TaintAboveIs(nodes: Nodes, q: Path, n: nat)
    requires n < |q|
    ensures var k := TaintAbove(nodes, q, n);
            k <= n && (k > 0 ==> IsTaint(nodes, q[..k])) && forall j | k < j <= n :: !IsTaint(nodes, q[..j])
  {
    if n > 0 && !IsTaint(nodes, q[..n]) { TaintAboveIs(nodes, q, n - 1); }
  }

  lemma ClaimantIs(nodes: Nodes, q: Path, k: nat)
    requires q != []
    ensures var c := Claimant(nodes, q);
            c < |q| && (c > 0 ==> IsTaint(nodes, q[..c])) && NoTaintBelow(nodes, q, c)
            && (0 < k < |q| && IsTaint(nodes, q[..k]) && NoTaintBelow(nodes, q, k) ==> c == k)
  {
    TaintAboveIs(nodes, q, |q| - 1);
  }

  /** a is the nearest TAINT scope above q. */
  ghost predicate Under(nodes: Nodes, a: Path, q: Path) {
    IsTaint(nodes, a) && Below(a, q) && NoTaintBelow(nodes, q, |a|)
  }

  ghost predicate Descends(nodes: Nodes, a: Path, q: Path) {
    Below(a, q) && exists j :: 0 <= j < |Children(nodes, a)| && Children(nodes, a)[j] == q[|a|]
  }

  lemma BelowDescends(nodes: Nodes, a: Path, q: Path)
    requires IsTree(nodes) && q in nodes && Below(a, q)
    ensures Descends(nodes, a, q)
  {
    PrefixInTree(nodes, q, |a|);
    ListedDescends(nodes, a, q);
  }

  lemma ListedDescends(nodes: Nodes, a: Path, q: Path)
    requires Below(a, q) && q[|a|] in Children(nodes, a)
    ensures Descends(nodes, a, q)
  {
  }

  lemma CoveredIsUnder(nodes: Nodes, cfg: Setting, a: Path)
    requires IsTaint(nodes, a) && forall q | q in nodes && Below(a, q) :: Descends(nodes, a, q)
    ensures CoveredFrom(nodes, cfg, a, 0) == set q | q in nodes && Present(cfg, q) && Under(nodes, a, q)
  {
    var x, y := CoveredFrom(nodes, cfg, a, 0), set q | q in nodes && Present(cfg, q) && Under(nodes, a, q);
    forall q ensures q in x <==> q in y {
      assert q in nodes && Below(a, q) ==> Descends(nodes, a, q);
    }
  }

  // ----- One turn -----

  lemma TakenStep(nodes: Nodes, priorities: map<nat, Path>, q: Path, t: nat)
    requires IsTree(nodes) && Ranked(nodes, priorities) && q != []
    ensures TakenBefore(nodes, q, t + 1)
            <==> TakenBefore(nodes, q, t)
                 || (t in priorities && Under(nodes, priorities[t], q) && !Starved(nodes, priorities[t]))
  {
    var k := Claimant(nodes, q);
    ClaimantIs(nodes, q, if t in priorities then |priorities[t]| else 0);
    if t in priorities && Under(nodes, priorities[t], q) {
      assert priorities[t] != [];
    }
  }

  lemma ClaimedStep(nodes: Nodes, priorities: map<nat, Path>, q: Path, t: nat)
    requires IsTree(nodes) && Ranked(nodes, priorities) && q != []
    ensures Claimed(nodes, q, t + 1)
            <==> Claimed(nodes, q, t)
                 || (t in priorities
                     && (q == priorities[t] || (Under(nodes, priorities[t], q) && !Starved(nodes, priorities[t]))))
    ensures EnteredBefore(nodes, q, t + 1)
            <==> EnteredBefore(nodes, q, t)
                 || (t in priorities && !Starved(nodes, priorities[t])
                     && if IsTaint(nodes, q) then q == priorities[t] else Under(nodes, priorities[t], q))
  {
    TakenStep(nodes, priorities, q, t);
  }

  /** The scopes processed in the turns before t. */
  ghost function ClaimedSet(nodes: Nodes, cfg: Setting, t: nat): set<Path> {
    set q | q in nodes && q != [] && Present(cfg, q) && Claimed(nodes, q, t)
  }

  /** The checks made in the turns before t. */
  ghost predicate TurnsOk(nodes: Nodes, cfg: Setting, t: nat) {
    forall q | q in nodes && q != [] && Present(cfg, q) ::
      (Claimed(nodes, q, t) ==> HookOk(nodes, cfg, q)) && (EnteredBefore(nodes, q, t) ==> SubsOk(nodes, cfg, q))
  }

  ghost predicate TurnsEffect(nodes: Nodes, priorities: map<nat, Path>, cfg: Setting, t: nat) {
    Effect(START, RunPriorities(nodes, priorities, cfg, t), ClaimedSet(nodes, cfg, t), TurnsOk(nodes, cfg, t))
  }

  lemma SameTurns(nodes: Nodes, priorities: map<nat, Path>, cfg: Setting, t: nat)
    requires IsTree(nodes) && Ranked(nodes, priorities)
    requires t in priorities ==>
               !Present(cfg, priorities[t])
               || (IsTaint(nodes, priorities[t]) && Starved(nodes, priorities[t]))
    ensures ClaimedSet(nodes, cfg, t + 1) == ClaimedSet(nodes, cfg, t)
    ensures TurnsOk(nodes, cfg, t + 1) <==> TurnsOk(nodes, cfg, t)
  {
    forall q | q in nodes && q != [] && Present(cfg, q)
      ensures Claimed(nodes, q, t + 1) <==> Claimed(nodes, q, t)
      ensures EnteredBefore(nodes, q, t + 1) <==> EnteredBefore(nodes, q, t)
    {
      ClaimedStep(nodes, priorities, q, t);
      if t in priorities && Below(priorities[t], q) { AtPrefix(cfg, q, |priorities[t]|); }
    }
  }

  /** What a turn adds, for all scopes. */
  ghost predicate Adds(nodes: Nodes, cfg: Setting, a: Path, t: nat) {
    && (IsTaint(nodes, a) ==>
          CoveredFrom(nodes, cfg, a, 0) == set q | q in nodes && Present(cfg, q) && Under(nodes, a, q))
    && (forall q | q in nodes && q != [] ::
          && (Claimed(nodes, q, t + 1) <==> Claimed(nodes, q, t) || q == a || Under(nodes, a, q))
          && (EnteredBefore(nodes, q, t + 1)
              <==> EnteredBefore(nodes, q, t) || if IsTaint(nodes, q) then q == a else Under(nodes, a, q)))
  }

  lemma TurnAdds(nodes: Nodes, priorities: map<nat, Path>, cfg: Setting, t: nat)
    requires IsTree(nodes) && Ranked(nodes, priorities) && t in priorities
    requires IsTaint(nodes, priorities[t]) ==> !Starved(nodes, priorities[t])
    ensures Adds(nodes, cfg, priorities[t], t)
  {
    var a := priorities[t];
    forall q | q in nodes && Below(a, q) ensures Descends(nodes, a, q) {
      BelowDescends(nodes, a, q);
    }
    if IsTaint(nodes, a) { CoveredIsUnder(nodes, cfg, a); }
    forall q | q in nodes && q != []
      ensures Claimed(nodes, q, t + 1) <==> Claimed(nodes, q, t) || q == a || Under(nodes, a, q)
      ensures EnteredBefore(nodes, q, t + 1)
              <==> EnteredBefore(nodes, q, t) || if IsTaint(nodes, q) then q == a else Under(nodes, a, q)
    {
      ClaimedStep(nodes, priorities, q, t);
    }
  }

  lemma AddedSet(nodes: Nodes, cfg: Setting, a: Path, t: nat)
    requires a in nodes && a != [] && Present(cfg, a) && Adds(nodes, cfg, a, t)
    ensures ClaimedSet(nodes, cfg, t + 1) == ClaimedSet(nodes, cfg, t) + Covered(nodes, cfg, a, true)
  {
    var x, y := ClaimedSet(nodes, cfg, t + 1), ClaimedSet(nodes, cfg, t) + Covered(nodes, cfg, a, true);
    forall q ensures q in x <==> q in y {
      if q in nodes && q != [] {
        assert Claimed(nodes, q, t + 1) <==> Claimed(nodes, q, t) || q == a || Under(nodes, a, q);
      }
    }
  }

  lemma AddedOk(nodes: Nodes, cfg: Setting, a: Path, t: nat)
    requires a in nodes && a != [] && Present(cfg, a) && Adds(nodes, cfg, a, t) && TurnsOk(nodes, cfg, t)
    ensures TurnsOk(nodes, cfg, t + 1) <==> CallOk(nodes, cfg, a, true, ClaimedSet(nodes, cfg, t))
  {
    var done := ClaimedSet(nodes, cfg, t);
    if CallOk(nodes, cfg, a, true, done) {
      forall q | q in nodes && q != [] && Present(cfg, q)
        ensures Claimed(nodes, q, t + 1) ==> HookOk(nodes, cfg, q)
        ensures EnteredBefore(nodes, q, t + 1) ==> SubsOk(nodes, cfg, q)
      {
        if Under(nodes, a, q) { assert q in CoveredFrom(nodes, cfg, a, 0); }
      }
    }
    if TurnsOk(nodes, cfg, t + 1) {
      assert Claimed(nodes, a, t + 1);
    }
  }

  lemma TurnTaken(nodes: Nodes, priorities: map<nat, Path>, cfg: Setting, t: nat)
    requires IsTree(nodes) && Ranked(nodes, priorities) && t in priorities && Present(cfg, priorities[t])
    ensures priorities[t] in ClaimedSet(nodes, cfg, t) <==> Starved(nodes, priorities[t])
    ensures priorities[t] != []
  {
  }

  lemma TurnStep(nodes: Nodes, priorities: map<nat, Path>, cfg: Setting, t: nat)
    requires IsTree(nodes) && Ranked(nodes, priorities) && TurnsEffect(nodes, priorities, cfg, t)
    ensures TurnsEffect(nodes, priorities, cfg, t + 1)
  {
    var st, r := RunPriorities(nodes, priorities, cfg, t), RunPriorities(nodes, priorities, cfg, t + 1);
    if t !in priorities || !Present(cfg, priorities[t]) {
      SameTurns(nodes, priorities, cfg, t);
    } else {
      TurnTaken(nodes, priorities, cfg, t);
      PresentTurn(nodes, priorities, cfg, t, st);
    }
  }

  lemma PresentTurn(nodes: Nodes, priorities: map<nat, Path>, cfg: Setting, t: nat, st: Run)
    requires IsTree(nodes) && Ranked(nodes, priorities)
    requires st == RunPriorities(nodes, priorities, cfg, t) && TurnsEffect(nodes, priorities, cfg, t)
    requires t in priorities && Present(cfg, priorities[t])
    requires priorities[t] in ClaimedSet(nodes, cfg, t) <==> Starved(nodes, priorities[t])
    ensures TurnsEffect(nodes, priorities, cfg, t + 1)
  {
    var a := priorities[t];
    if IsTaint(nodes, a) && Starved(nodes, a) {
      SameTurns(nodes, priorities, cfg, t);
      if st.error.None? { TurnHasEffect(nodes, cfg, a, At(cfg, a).value, st); }
    } else {
      TurnAdds(nodes, priorities, cfg, t);
      NewTurn(nodes, priorities, cfg, t, st);
    }
  }

  lemma NewTurn(nodes: Nodes, priorities: map<nat, Path>, cfg: Setting, t: nat, st: Run)
    requires IsTree(nodes) && Ranked(nodes, priorities)
    requires st == RunPriorities(nodes, priorities, cfg, t) && TurnsEffect(nodes, priorities, cfg, t)
    requires t in priorities && Present(cfg, priorities[t])
    requires priorities[t] in ClaimedSet(nodes, cfg, t) ==> !IsTaint(nodes, priorities[t])
    requires Adds(nodes, cfg, priorities[t], t)
    ensures TurnsEffect(nodes, priorities, cfg, t + 1)
  {
    var a, x := priorities[t], ClaimedSet(nodes, cfg, t);
    var r := RunPriorities(nodes, priorities, cfg, t + 1);
    assert a != [];
    AddedSet(nodes, cfg, a, t);
    if st.error.Some? {
      OnceBad(nodes, cfg, a, t);
    } else {
      TurnHasEffect(nodes, cfg, a, At(cfg, a).value, st);
      AddedOk(nodes, cfg, a, t);
      assert x == st.processed;
      EffectOn(START, st, r, x, Covered(nodes, cfg, a, true), true, TurnsOk(nodes, cfg, t + 1));
    }
  }

  lemma OnceBad(nodes: Nodes, cfg: Setting, a: Path, t: nat)
    requires Adds(nodes, cfg, a, t) && !TurnsOk(nodes, cfg, t)
    ensures !TurnsOk(nodes, cfg, t + 1)
  {
    var q :| q in nodes && q != [] && Present(cfg, q)
             && !((Claimed(nodes, q, t) ==> HookOk(nodes, cfg, q)) && (EnteredBefore(nodes, q, t) ==> SubsOk(nodes, cfg, q)));
    assert Claimed(nodes, q, t) ==> Claimed(nodes, q, t + 1);
  }

  /** Effects one after the other; what the second adds may have been there. */
  lemma EffectOn(st: Run, a: Run, b: Run, x: set<Path>, y: set<Path>, okX: bool, okY: bool)
    requires Effect(st, a, x, okX) && okX && Effect(a, b, y, okY)
    ensures Effect(st, b, x + y, okY)
  {
    if okY {
      HookedBoth(st.log, a.log, b.log, x - st.processed, y - a.processed);
      assert (x - st.processed) + (y - a.processed) == x + y - st.processed;
    }
  }

  lemma NoTurns(nodes: Nodes, priorities: map<nat, Path>, cfg: Setting)
    ensures TurnsEffect(nodes, priorities, cfg, 0)
  {
    EffectNothing(START);
    assert forall q :: !TakenBefore(nodes, q, 0);
    assert ClaimedSet(nodes, cfg, 0) == {};
  }

  /** Before any turn t, exactly the claimed scopes are processed, if all checks so far succeed. */
  lemma TurnsHaveEffect(nodes: Nodes, priorities: map<nat, Path>, cfg: Setting, t: nat)
    requires IsTree(nodes) && Ranked(nodes, priorities)
    ensures TurnsEffect(nodes, priorities, cfg, t)
  {
    NoTurns(nodes, priorities, cfg);
    var u := 0;
    while u != t
      invariant u <= t && TurnsEffect(nodes, priorities, cfg, u)
    {
      TurnStep(nodes, priorities, cfg, u);
      u := u + 1;
    }
  }

  // ----- Whole runs -----

  /** The nearest TAINT scope above q takes it along at some time. */
  ghost predicate Taken(nodes: Nodes, q: Path) {
    var k := Claimant(nodes, q);
    0 < k < |q| && !Starved(nodes, q[..k])
  }

  /** The hooks of a present scope are called, unless a starved TAINT scope hides it. */
  ghost predicate Executed(nodes: Nodes, q: Path) {
    q in nodes && (nodes[q].kind != Normal || Claimant(nodes, q) == 0 || Taken(nodes, q))
  }

  /** The subscopes of a present scope are run. */
  ghost predicate Entered(nodes: Nodes, q: Path) {
    if IsTaint(nodes, q) then !Starved(nodes, q) else Claimant(nodes, q) == 0 || Taken(nodes, q)
  }

  /** The scopes whose hooks a run calls. */
  ghost function ExecutedSet(nodes: Nodes, cfg: Setting): set<Path> {
    set q | q in nodes && q != [] && Present(cfg, q) && Executed(nodes, q)
  }

  /** What a run checks of the configuration. */
  ghost predicate Accepted(nodes: Nodes, cfg: Setting) {
    && [] in nodes && HasParameters(nodes[[]], cfg) && SubsOk(nodes, cfg, [])
    && forall q | q in nodes && q != [] && Present(cfg, q) ::
         (Executed(nodes, q) ==> HookOk(nodes, cfg, q)) && (Entered(nodes, q) ==> SubsOk(nodes, cfg, q))
  }

  /** In the end, all turns have been taken. */
  lemma AllTurns(nodes: Nodes, priorities: map<nat, Path>, q: Path)
    requires IsTree(nodes) && Ranked(nodes, priorities) && q in nodes && q != []
    ensures TakenBefore(nodes, q, PRIORITIES) <==> Taken(nodes, q)
    ensures Claimed(nodes, q, PRIORITIES) <==> nodes[q].kind != Normal || Taken(nodes, q)
    ensures IsTaint(nodes, q) ==> PriorityOf(nodes, q) < PRIORITIES
  {
    ClaimantIs(nodes, q, 0);
  }

  lemma RootCovers(nodes: Nodes, cfg: Setting)
    requires IsTree(nodes)
    ensures CoveredFrom(nodes, cfg, [], 0) == set q | q in nodes && q != [] && Present(cfg, q) && Claimant(nodes, q) == 0
  {
    var x := CoveredFrom(nodes, cfg, [], 0);
    var y := set q | q in nodes && q != [] && Present(cfg, q) && Claimant(nodes, q) == 0;
    forall q ensures q in x <==> q in y {
      if q in nodes && q != [] {
        RootDescends(nodes, q);
        BelowDescends(nodes, [], q);
      }
    }
  }

  lemma RootDescends(nodes: Nodes, q: Path)
    requires q != []
    ensures Below([], q) && (NoTaintBelow(nodes, q, 0) <==> Claimant(nodes, q) == 0)
  {
    ClaimantIs(nodes, q, 0);
  }

  ghost predicate Ends(nodes: Nodes, cfg: Setting) {
    && ExecutedSet(nodes, cfg) == ClaimedSet(nodes, cfg, PRIORITIES) + CoveredFrom(nodes, cfg, [], 0)
    && [] !in ExecutedSet(nodes, cfg)
    && (Accepted(nodes, cfg)
        <==> [] in nodes && HasParameters(nodes[[]], cfg) && TurnsOk(nodes, cfg, PRIORITIES)
             && Fine(nodes, cfg, CoveredFrom(nodes, cfg, [], 0), ClaimedSet(nodes, cfg, PRIORITIES))
             && SubsOkFrom(nodes, [], cfg, 0))
  }

  lemma RunEnds(nodes: Nodes, priorities: map<nat, Path>, cfg: Setting)
    requires IsTree(nodes) && Ranked(nodes, priorities)
    ensures Ends(nodes, cfg)
  {
    RootCovers(nodes, cfg);
    forall q | q in nodes && q != []
      ensures TakenBefore(nodes, q, PRIORITIES) <==> Taken(nodes, q)
      ensures Claimed(nodes, q, PRIORITIES) <==> nodes[q].kind != Normal || Taken(nodes, q)
      ensures IsTaint(nodes, q) ==> PriorityOf(nodes, q) < PRIORITIES
    {
      AllTurns(nodes, priorities, q);
    }
  }

  /** A successful run: what it processed, and which hooks it called, those of the root included.
      Whether or not it succeeds, it calls no other hooks. */
  ghost predicate RunEffect(r: Run, x: set<Path>, ok: bool) {
    && (r.error.None? <==> ok)
    && (ok ==> r.processed == x && Hooked([], r.log, x + {[]}))
    && Nested(r.log) && Within([], r.log, x + {[]})
  }

  lemma RootRefuses(st: Run, begun: Run, r: Run, c: set<Path>, x: set<Path>)
    requires begun.log == st.log + [Pre([])] && r.error.Some? && Nested(st.log) && Within([], st.log, c)
    requires begun.log <= r.log && (Nested(begun.log) ==> Nested(r.log)) && Within(begun.log, r.log, x)
    ensures RunEffect(r, c + x, false)
  {
    NestedPre(st.log, []);
  }

  lemma RootHooked(st: Run, inside: Run, c: set<Path>, x: set<Path>)
    requires Hooked([], st.log, c) && Hooked(st.log + [Pre([])], inside.log, x - c) && [] !in c + x
    ensures Hooked([], inside.log + [Post([])], c + x + {[]})
  {
    HookedAround(st.log, inside.log, [], x - c);
    HookedBoth([], st.log, inside.log + [Post([])], c, (x - c) + {[]});
    assert c + ((x - c) + {[]}) == c + x + {[]};
  }

  lemma RootAround(st: Run, begun: Run, inside: Run, c: set<Path>, x: set<Path>, ok: bool)
    requires Effect(START, st, c, true) && begun == st.(log := st.log + [Pre([])])
    requires Effect(begun, inside, x, ok) && ok && [] !in c + x
    ensures RunEffect(inside.(log := inside.log + [Post([])]), c + x, true)
  {
    assert st.processed == c;
    RootHooked(st, inside, c, x);
    NestedAround(st.log, inside.log, []);
  }

  lemma RootHasEffect(nodes: Nodes, cfg: Setting, st: Run)
    requires IsTree(nodes) && Ends(nodes, cfg) && st.error.None? && TurnsOk(nodes, cfg, PRIORITIES)
    requires Effect(START, st, ClaimedSet(nodes, cfg, PRIORITIES), true)
    ensures RunEffect(RunRoot(nodes, cfg, st), ExecutedSet(nodes, cfg), Accepted(nodes, cfg))
  {
    var begun := st.(log := st.log + [Pre([])]);
    var x := CoveredFrom(nodes, cfg, [], 0);
    var inside := RunSubs(nodes, [], cfg, 0, begun);
    SubsHaveEffect(nodes, cfg, [], cfg, 0, begun);
    var ok := Fine(nodes, cfg, x, begun.processed) && SubsOkFrom(nodes, [], cfg, 0);
    if !HasParameters(nodes[[]], cfg) || inside.error.Some? {
      RootRefuses(st, begun, RunRoot(nodes, cfg, st), ClaimedSet(nodes, cfg, PRIORITIES), x);
    } else {
      RootAround(st, begun, inside, ClaimedSet(nodes, cfg, PRIORITIES), x, ok);
    }
  }

  /** Validation is sound and complete: a run ends without exception exactly if the configuration
      is accepted, and then it processes exactly the present scopes that no starved scope hides. */
  lemma RunHasEffect(nodes: Nodes, priorities: map<nat, Path>, cfg: Setting)
    requires IsTree(nodes) && Ranked(nodes, priorities)
    ensures RunEffect(RunConfig(nodes, priorities, cfg), ExecutedSet(nodes, cfg), Accepted(nodes, cfg))
  {
    RunEnds(nodes, priorities, cfg);
    TurnsHaveEffect(nodes, priorities, cfg, PRIORITIES);
    var st := RunPriorities(nodes, priorities, cfg, PRIORITIES);
    if st.error.None? { RootHasEffect(nodes, cfg, st); }
  }

  /** In every run that does not throw, both hooks of a scope are called exactly once if it is
      present and no starved scope hides it, and otherwise never. */
  lemma ExactlyOnce(nodes: Nodes, priorities: map<nat, Path>, cfg: Setting, q: Path)
    requires IsTree(nodes) && Ranked(nodes, priorities) && RunConfig(nodes, priorities, cfg).error.None?
    ensures var log := RunConfig(nodes, priorities, cfg).log;
            var n := if q == [] || (q in nodes && Present(cfg, q) && Executed(nodes, q)) then 1 else 0;
            Calls(log, Pre(q)) == n && Calls(log, Post(q)) == n
  {
    RunHasEffect(nodes, priorities, cfg);
    assert Calls([], Pre(q)) == 0 && Calls([], Post(q)) == 0;
    assert [] !in ExecutedSet(nodes, cfg);
  }

  /** No TAINT scope lies below one with a smaller priority number. */
  ghost predicate NoInversion(nodes: Nodes) {
    forall a, b | IsTaint(nodes, a) && IsTaint(nodes, b) && Below(a, b) :: PriorityOf(nodes, b) <= PriorityOf(nodes, a)
  }

  /** Every check there is: mandatory names are there, and only the root takes unknown ones. */
  ghost predicate Conforms(nodes: Nodes, cfg: Setting) {
    && [] in nodes && HasParameters(nodes[[]], cfg)
    && (forall q | q in nodes && Present(cfg, q) :: SubsOk(nodes, cfg, q) && (q != [] ==> HookOk(nodes, cfg, q)))
  }

  lemma NobodyStarves(nodes: Nodes, q: Path)
    requires NoInversion(nodes) && (IsTaint(nodes, q) || Claimant(nodes, q) > 0)
    ensures IsTaint(nodes, q) ==> !Starved(nodes, q)
    ensures Claimant(nodes, q) > 0 ==> Taken(nodes, q)
    decreases |q|
  {
    if q != [] {
      ClaimantIs(nodes, q, 0);
      var k := Claimant(nodes, q);
      if k > 0 { NobodyStarves(nodes, q[..k]); }
    }
  }

  /** Below an inversion, some TAINT scope is starved. */
  lemma {:induction false} InversionStarves(nodes: Nodes, a: Path, b: Path) returns (q: Path)
    requires IsTree(nodes) && IsTaint(nodes, a) && IsTaint(nodes, b) && Below(a, b)
    requires PriorityOf(nodes, a) < PriorityOf(nodes, b)
    ensures IsTaint(nodes, q) && Starved(nodes, q)
    decreases |b|
  {
    ClaimantIs(nodes, b, |a|);
    var k := Claimant(nodes, b);
    assert |a| <= k;
    var c := b[..k];
    if PriorityOf(nodes, c) < PriorityOf(nodes, b) {
      q := if Starved(nodes, c) then c else b;
    } else {
      assert c[..|a|] == a;
      q := InversionStarves(nodes, a, c);
    }
  }

  /** No scope is starved or hidden by a starved one, if and only if there is no such nesting. This is
      about the tree: that a scope without subscopes is starved is observed by no run. */
  lemma NoInversionCondition(nodes: Nodes)
    requires IsTree(nodes)
    ensures NoInversion(nodes) <==> forall q | q in nodes :: Executed(nodes, q) && Entered(nodes, q)
  {
    if NoInversion(nodes) {
      forall q | q in nodes ensures Executed(nodes, q) && Entered(nodes, q) {
        if IsTaint(nodes, q) || Claimant(nodes, q) > 0 { NobodyStarves(nodes, q); }
      }
    } else {
      var a, b :| IsTaint(nodes, a) && IsTaint(nodes, b) && Below(a, b) && PriorityOf(nodes, a) < PriorityOf(nodes, b);
      var q := InversionStarves(nodes, a, b);
      assert !Entered(nodes, q);
    }
  }

  /** A configuration that conforms is always accepted. Without such a nesting, only those are; the
      condition that is necessary as well is ConfigExact.NothingUnchecked. */
  lemma SoundWithoutInversion(nodes: Nodes, cfg: Setting)
    requires IsTree(nodes)
    ensures Conforms(nodes, cfg) ==> Accepted(nodes, cfg)
    ensures NoInversion(nodes) ==> (Accepted(nodes, cfg) <==> Conforms(nodes, cfg))
  {
    NoInversionCondition(nodes);
    assert At(cfg, []) == Some(cfg);
  }

  /** In every run, also one that throws, no hook is called of a scope that is absent or hidden. */
  lemma NeverExecuted(nodes: Nodes, priorities: map<nat, Path>, cfg: Setting, q: Path)
    requires IsTree(nodes) && Ranked(nodes, priorities)
    requires q != [] && !(q in nodes && Present(cfg, q) && Executed(nodes, q))
    ensures var log := RunConfig(nodes, priorities, cfg).log; Pre(q) !in log && Post(q) !in log
  {
    RunHasEffect(nodes, priorities, cfg);
  }

  /** A starved scope hides every normal scope of which it is the nearest TAINT scope: whatever the
      configuration, no run calls a hook of it. */
  lemma InversionHides(nodes: Nodes, priorities: map<nat, Path>, cfg: Setting, b: Path, q: Path)
    requires IsTree(nodes) && Ranked(nodes, priorities)
    requires Starved(nodes, b) && Under(nodes, b, q) && q in nodes && nodes[q].kind == Normal
    ensures var log := RunConfig(nodes, priorities, cfg).log; Pre(q) !in log && Post(q) !in log
  {
    ClaimantIs(nodes, q, |b|);
    NeverExecuted(nodes, priorities, cfg, q);
  }

  // ----- A tree with such a nesting -----

  const A: Path := ["a"]
  const B: Path := ["a", "b"]
  const C: Path := ["a", "b", "c"]

  /** c is below the TAINT scope b, and b below the TAINT scope a whose turn comes first. */
  const INVERTED: Nodes :=
    map[[] := Node(false, Normal, 0, map[], ["a"]),
        A := Node(false, Taint, 1, map[], ["b"]),
        B := Node(false, Taint, 2, map[], ["c"]),
        C := Node(false, Normal, 0, map["x" := true], [])]

  const INVERTED_PRIORITIES: map<nat, Path> := map[1 := A, 2 := B]

  /** The parameter x that c demands is missing. */
  const INCOMPLETE: Setting := Group(map["a" := Group(map["b" := Group(map["c" := Group(map[])])])])

  lemma InvertedTree()
    ensures IsTree(INVERTED) && Ranked(INVERTED, INVERTED_PRIORITIES)
  {
    assert [] + ["a"] == A && A + ["b"] == B && B + ["c"] == C;
    assert A[..0] == [] && B[..1] == A && C[..2] == B;
    assert Listed(INVERTED, A) && Listed(INVERTED, B) && Listed(INVERTED, C);
  }

  lemma InvertedStarves()
    ensures Starved(INVERTED, B) && Under(INVERTED, B, C)
  {
    assert B[..1] == A && C[..2] == B;
    ClaimantIs(INVERTED, A, 0);
    ClaimantIs(INVERTED, B, 1);
    assert !TakenBefore(INVERTED, A, 1) && PriorityOf(INVERTED, A) == 1;
    assert TakenBefore(INVERTED, B, 2) && PriorityOf(INVERTED, B) == 2;
  }

  lemma SettingsPresent()
    ensures At(INCOMPLETE, A) == Some(Group(map["b" := Group(map["c" := Group(map[])])]))
    ensures At(INCOMPLETE, B) == Some(Group(map["c" := Group(map[])]))
    ensures At(INCOMPLETE, C) == Some(Group(map[]))
  {
    var none: Path := [];
    assert none + ["a"] == A && A + ["b"] == B && B + ["c"] == C;
    AtStep(INCOMPLETE, [], "a");
    AtStep(INCOMPLETE, A, "b");
    AtStep(INCOMPLETE, B, "c");
  }

  lemma DemandNotMet()
    ensures !HookOk(INVERTED, INCOMPLETE, C) && HookOk(INVERTED, INCOMPLETE, A) && HookOk(INVERTED, INCOMPLETE, B)
  {
    SettingsPresent();
    var node := INVERTED[C];
    assert "x" in node.parameters && node.parameters["x"] && !Has(Group(map[]), "x");
    assert !HasParameters(node, Group(map[]));
  }

  lemma DemandNotChecked()
    ensures Accepted(INVERTED, INCOMPLETE)
  {
    DemandNotMet();
    InvertedStarves();
    ClaimantIs(INVERTED, C, 2);
    assert !Executed(INVERTED, C);
    assert forall q :: !IsMandatory(INVERTED, q);
  }

  /** What c demands is never checked: the run of this configuration ends without exception. */
  lemma InversionAccepts()
    ensures IsTree(INVERTED) && Ranked(INVERTED, INVERTED_PRIORITIES)
    ensures RunConfig(INVERTED, INVERTED_PRIORITIES, INCOMPLETE).error.None? && !Conforms(INVERTED, INCOMPLETE)
  {
    InvertedTree();
    DemandNotChecked();
    DemandNotMet();
    SettingsPresent();
    RunHasEffect(INVERTED, INVERTED_PRIORITIES, INCOMPLETE);
    assert C in INVERTED && Present(INCOMPLETE, C);
  }

  // ----- The order of the hooks -----

  lemma LogGrows(nodes: Nodes, priorities: map<nat, Path>, cfg: Setting, t: nat, u: nat)
    requires IsTree(nodes) && Ranked(nodes, priorities) && t <= u
    ensures RunPriorities(nodes, priorities, cfg, t).log <= RunPriorities(nodes, priorities, cfg, u).log
  {
    var v := t;
    while v != u
      invariant t <= v <= u
      invariant RunPriorities(nodes, priorities, cfg, t).log <= RunPriorities(nodes, priorities, cfg, v).log
    {
      TurnGrows(nodes, priorities, cfg, v, RunPriorities(nodes, priorities, cfg, v));
      v := v + 1;
    }
  }

  lemma TurnGrows(nodes: Nodes, priorities: map<nat, Path>, cfg: Setting, t: nat, st: Run)
    requires IsTree(nodes) && Ranked(nodes, priorities)
    ensures st.log <= RunTurn(nodes, priorities, cfg, t, st).log
  {
    if st.error.None? && t in priorities && Present(cfg, priorities[t]) {
      TurnHasEffect(nodes, cfg, priorities[t], At(cfg, priorities[t]).value, st);
    }
  }

  lemma RootGrows(nodes: Nodes, cfg: Setting, st: Run)
    requires IsTree(nodes)
    ensures st.log <= RunRoot(nodes, cfg, st).log
  {
    if st.error.None? { SubsHaveEffect(nodes, cfg, [], cfg, 0, st.(log := st.log + [Pre([])])); }
  }

  /** The turns before t are a prefix of the run, and hold all the hooks of the claimed scopes. */
  lemma TurnsArePrefix(nodes: Nodes, priorities: map<nat, Path>, cfg: Setting, t: nat)
    requires IsTree(nodes) && Ranked(nodes, priorities) && t <= PRIORITIES
    requires RunConfig(nodes, priorities, cfg).error.None?
    ensures RunPriorities(nodes, priorities, cfg, t).log <= RunConfig(nodes, priorities, cfg).log
    ensures Hooked([], RunPriorities(nodes, priorities, cfg, t).log, ClaimedSet(nodes, cfg, t))
  {
    LogGrows(nodes, priorities, cfg, t, PRIORITIES);
    RootGrows(nodes, cfg, RunPriorities(nodes, priorities, cfg, PRIORITIES));
    TurnsHaveEffect(nodes, priorities, cfg, t);
    NoErrorBefore(nodes, priorities, cfg, t, PRIORITIES);
  }

  lemma {:induction false} NoErrorBefore(nodes: Nodes, priorities: map<nat, Path>, cfg: Setting, t: nat, u: nat)
    requires t <= u && RunPriorities(nodes, priorities, cfg, u).error.None?
    ensures RunPriorities(nodes, priorities, cfg, t).error.None?
    decreases u
  {
    if t < u {
      var st := RunPriorities(nodes, priorities, cfg, u - 1);
      assert RunPriorities(nodes, priorities, cfg, u) == RunTurn(nodes, priorities, cfg, u - 1, st);
      NoErrorBefore(nodes, priorities, cfg, t, u - 1);
    }
  }

  lemma InPrefix(log: seq<Hook>, k: nat, i: nat, h: Hook)
    requires k <= |log| && i < |log| && log[i] == h
    ensures Calls(log[..k], h) == 0 ==> i >= k
    ensures Calls(log[..k], h) == Calls(log, h) ==> i < k
  {
    assert log == log[..k] + log[k..];
    if i < k { assert h in log[..k]; } else { assert log[k..][i - k] == h; }
  }

  /** The hooks of every scope claimed in a turn before t are called before all hooks of every
      scope that is not, the root's included. */
  lemma PriorityOrder(nodes: Nodes, priorities: map<nat, Path>, cfg: Setting, t: nat, x: Path, q: Path, i: nat, j: nat)
    requires IsTree(nodes) && Ranked(nodes, priorities) && t <= PRIORITIES
    requires RunConfig(nodes, priorities, cfg).error.None?
    requires var log := RunConfig(nodes, priorities, cfg).log;
             i < |log| && j < |log| && log[i].path == x && log[j].path == q
    requires x in ClaimedSet(nodes, cfg, t) && q !in ClaimedSet(nodes, cfg, t)
    ensures i < j
  {
    var log, k := RunConfig(nodes, priorities, cfg).log, |RunPriorities(nodes, priorities, cfg, t).log|;
    TurnsArePrefix(nodes, priorities, cfg, t);
    assert log[..k] == RunPriorities(nodes, priorities, cfg, t).log;
    ExactlyOnce(nodes, priorities, cfg, x);
    HooksOf([], log[..k], ClaimedSet(nodes, cfg, t), x);
    HooksOf([], log[..k], ClaimedSet(nodes, cfg, t), q);
    CalledAtMostOnce(log, k, i, x);
    InPrefix(log, k, j, log[j]);
  }

  lemma HooksOf(was: seq<Hook>, now: seq<Hook>, x: set<Path>, q: Path)
    requires Hooked(was, now, x) && was == []
    ensures var n := if q in x then 1 else 0; Calls(now, Pre(q)) == n && Calls(now, Post(q)) == n
  {
    assert Calls(was, Pre(q)) == 0 && Calls(was, Post(q)) == 0;
  }

  lemma CalledAtMostOnce(log: seq<Hook>, k: nat, i: nat, x: Path)
    requires k <= |log| && i < |log| && log[i].path == x
    requires Calls(log[..k], Pre(x)) == 1 && Calls(log[..k], Post(x)) == 1
    requires Calls(log, Pre(x)) <= 1 && Calls(log, Post(x)) <= 1
    ensures i < k
  {
    assert log == log[..k] + log[k..];
    InPrefix(log, k, i, log[i]);
  }

  /** A priority scope, and what it takes along, comes before every scope outside TAINT scopes
      that is normal or has a larger priority number. */
  lemma AscendingPriorities(nodes: Nodes, priorities: map<nat, Path>, cfg: Setting, a: Path, x: Path, q: Path, i: nat, j: nat)
    requires IsTree(nodes) && Ranked(nodes, priorities) && RunConfig(nodes, priorities, cfg).error.None?
    requires var log := RunConfig(nodes, priorities, cfg).log;
             i < |log| && j < |log| && log[i].path == x && log[j].path == q
    requires a in nodes && nodes[a].kind != Normal && x in nodes && Present(cfg, x)
    requires x == a || (Under(nodes, a, x) && !Starved(nodes, a))
    requires q in nodes && Claimant(nodes, q) == 0 && (nodes[q].kind != Normal ==> PriorityOf(nodes, a) < PriorityOf(nodes, q))
    ensures i < j
  {
    var t := PriorityOf(nodes, a) + 1;
    if x != [] { ClaimantIs(nodes, x, |a|); }
    PriorityOrder(nodes, priorities, cfg, t, x, q, i, j);
  }
}
