/**
 For which trees a run does what is expected of it, whatever the configuration: that the hooks of
 every present scope are called once, and that only a configuration that conforms is accepted.
 Both conditions are on the tree alone.
 */
module ConfigExact {
  import opened Wrappers
  import opened ConfigScope
  import opened ConfigExecution
  import opened ConfigRuns

  // ----- Configurations made for a tree -----

  /** Everything a scope declares. */
  ghost function AllNames(nodes: Nodes, p: Path): set<string> {
    if p in nodes then nodes[p].parameters.Keys + set c | c in nodes[p].children else {}
  }

  /** One scope is to have these names, and some of them not as groups. */
  datatype Change = Change(x: Path, names: set<string>, flat: set<string>)

  ghost function NamesAt(nodes: Nodes, p: Path, ch: Change): set<string> {
    if p == ch.x then ch.names else AllNames(nodes, p)
  }

  ghost predicate FlatAt(p: Path, k: string, ch: Change) {
    p == ch.x && k in ch.flat
  }

  /** The setting of p in which every scope of the next n levels has all it declares, but for the
      change. */
  ghost function Made(nodes: Nodes, p: Path, n: nat, ch: Change): Setting
    decreases n
  {
    Group(map k | k in NamesAt(nodes, p, ch) ::
            if k !in Children(nodes, p) || FlatAt(p, k, ch) then Scalar
            else if n == 0 then Group(map[])
            else Made(nodes, p + [k], n - 1, ch))
  }

  /** No path is longer. */
  ghost predicate Bounded(nodes: Nodes, n: nat) {
    forall q | q in nodes :: |q| <= n
  }

  lemma {:induction false} BoundExists(nodes: Nodes) returns (n: nat)
    ensures Bounded(nodes, n)
    decreases |nodes|
  {
    if nodes == map[] {
      n := 0;
    } else {
      var p :| p in nodes;
      var m := BoundExists(nodes - {p});
      n := if m < |p| then |p| else m;
      forall q | q in nodes ensures |q| <= n {
        assert q == p || q in nodes - {p};
      }
    }
  }

  ghost predicate Flat(q: Path, ch: Change) {
    q != [] && FlatAt(q[..|q| - 1], q[|q| - 1], ch)
  }

  /** The change leaves the scope its setting. */
  ghost predicate Kept(q: Path, ch: Change) {
    Below(ch.x, q) ==> q[|ch.x|] in ch.names && (q[|ch.x|] in ch.flat ==> |q| == |ch.x| + 1)
  }

  /** A present scope has the setting made for it, and only what the change leaves out is absent. */
  ghost predicate IsMade(nodes: Nodes, n: nat, ch: Change, q: Path)
    requires |q| <= n
  {
    var cfg := Made(nodes, [], n, ch);
    && (Present(cfg, q) ==> At(cfg, q) == Some(if Flat(q, ch) then Scalar else Made(nodes, q, n - |q|, ch)))
    && (Kept(q, ch) ==> Present(cfg, q))
  }

  lemma KeptStep(p: Path, c: string, ch: Change)
    ensures Kept(p + [c], ch) <==> Kept(p, ch) && !Flat(p, ch) && (p == ch.x ==> c in ch.names)
    ensures Flat(p + [c], ch) <==> FlatAt(p, c, ch)
  {
    var q := p + [c];
    assert q[..|p|] == p;
    if Below(ch.x, p) {
      assert q[..|ch.x|] == p[..|ch.x|];
      if |p| == |ch.x| + 1 { assert p[..|p| - 1] == ch.x; }
    }
    if Below(ch.x, q) && |p| > |ch.x| { assert p[..|ch.x|] == q[..|ch.x|]; }
    if Below(ch.x, q) && |p| == |ch.x| { assert p == ch.x; }
  }

  lemma MadeStep(nodes: Nodes, n: nat, ch: Change, p: Path, c: string)
    requires |p| < n && IsMade(nodes, n, ch, p) && c in Children(nodes, p) && c in AllNames(nodes, p)
    ensures IsMade(nodes, n, ch, p + [c])
  {
    AtStep(Made(nodes, [], n, ch), p, c);
    KeptStep(p, c, ch);
  }

  lemma {:induction false} MadeAt(nodes: Nodes, n: nat, ch: Change, q: Path)
    requires IsTree(nodes) && q in nodes && |q| <= n
    ensures IsMade(nodes, n, ch, q)
    decreases |q|
  {
    if q != [] {
      var p, c := q[..|q| - 1], q[|q| - 1];
      assert Listed(nodes, q) && q == p + [c];
      MadeAt(nodes, n, ch, p);
      MadeStep(nodes, n, ch, p, c);
    }
  }

  /** A setting with these names, in which every subscope is a group, but for the flat ones. */
  ghost predicate Holds(nodes: Nodes, p: Path, s: Setting, names: set<string>, flat: set<string>) {
    s.Group? && Keys(s) == names && forall c | c in Children(nodes, p) && c in names && c !in flat :: HasGroup(s, c)
  }

  lemma MadeHolds(nodes: Nodes, p: Path, n: nat, ch: Change)
    ensures Holds(nodes, p, Made(nodes, p, n, ch), NamesAt(nodes, p, ch), if p == ch.x then ch.flat else {})
    ensures forall c | FlatAt(p, c, ch) :: !HasGroup(Made(nodes, p, n, ch), c)
  {
    var s := Made(nodes, p, n, ch);
    forall c | c in Children(nodes, p) && c in NamesAt(nodes, p, ch) && !FlatAt(p, c, ch) ensures HasGroup(s, c) {
      if n > 0 { assert Made(nodes, p + [c], n - 1, ch).Group?; }
    }
  }

  lemma SubsHold(nodes: Nodes, p: Path, s: Setting, names: set<string>)
    requires Holds(nodes, p, s, names, {}) && forall c | c in Children(nodes, p) :: c in names
    ensures SubsOkFrom(nodes, p, s, 0)
  {
  }

  lemma NamesHold(nodes: Nodes, p: Path, s: Setting)
    requires p in nodes && s.Group? && Keys(s) == AllNames(nodes, p)
    ensures KnowsAll(nodes[p], s) && HasParameters(nodes[p], s)
  {
  }

  lemma PresentHolds(nodes: Nodes, n: nat, ch: Change, q: Path)
    requires IsTree(nodes) && q in nodes && |q| <= n
    ensures var cfg := Made(nodes, [], n, ch);
            && (Present(cfg, q) && !Flat(q, ch) ==>
                  var s := At(cfg, q).value;
                  && Holds(nodes, q, s, NamesAt(nodes, q, ch), if q == ch.x then ch.flat else {})
                  && forall c | FlatAt(q, c, ch) :: !HasGroup(s, c))
            && (Present(cfg, q) && Flat(q, ch) ==> At(cfg, q).value == Scalar)
            && (Kept(q, ch) ==> Present(cfg, q))
  {
    MadeAt(nodes, n, ch, q);
    MadeHolds(nodes, q, n - |q|, ch);
  }

  /** A scope that has all it declares passes its checks. */
  lemma MadeOk(nodes: Nodes, n: nat, ch: Change, q: Path)
    requires IsTree(nodes) && Bounded(nodes, n) && q in nodes && q != ch.x && !Flat(q, ch)
    ensures var cfg := Made(nodes, [], n, ch); HookOk(nodes, cfg, q) && SubsOk(nodes, cfg, q)
  {
    var cfg := Made(nodes, [], n, ch);
    PresentHolds(nodes, n, ch, q);
    if Present(cfg, q) {
      NamesHold(nodes, q, At(cfg, q).value);
      SubsHold(nodes, q, At(cfg, q).value, AllNames(nodes, q));
    }
  }

  /** So does the changed one, as far as the names go. */
  lemma MadeOkAt(nodes: Nodes, n: nat, ch: Change)
    requires IsTree(nodes) && Bounded(nodes, n) && ch.x in nodes
    ensures var cfg := Made(nodes, [], n, ch);
            && Present(cfg, ch.x) && At(cfg, ch.x).value.Group? && Keys(At(cfg, ch.x).value) == ch.names
            && (forall c | c in ch.flat :: !HasGroup(At(cfg, ch.x).value, c))
            && (ch.flat == {} && (forall c | c in nodes[ch.x].children :: c in ch.names) ==> SubsOk(nodes, cfg, ch.x))
  {
    NotFlat(ch);
    PresentHolds(nodes, n, ch, ch.x);
    if ch.flat == {} && forall c | c in nodes[ch.x].children :: c in ch.names {
      SubsHold(nodes, ch.x, At(Made(nodes, [], n, ch), ch.x).value, ch.names);
    }
    assert forall c | c in ch.flat :: FlatAt(ch.x, c, ch);
  }

  lemma NotFlat(ch: Change)
    ensures !Flat(ch.x, ch) && Kept(ch.x, ch)
  {
  }

  // ----- Every present scope is executed -----

  /** In a run that does not throw, both hooks of every present scope are called once. */
  ghost predicate OnceEach(nodes: Nodes, priorities: map<nat, Path>, cfg: Setting) {
    var r := RunConfig(nodes, priorities, cfg);
    r.error.None? ==> forall q | q in nodes && Present(cfg, q) :: Calls(r.log, Pre(q)) == 1 && Calls(r.log, Post(q)) == 1
  }

  /** Nothing is changed. */
  ghost function Full(nodes: Nodes, n: nat): Setting {
    Made(nodes, [], n, Change([], AllNames(nodes, []), {}))
  }

  lemma FullConforms(nodes: Nodes, n: nat)
    requires IsTree(nodes) && Bounded(nodes, n)
    ensures Conforms(nodes, Full(nodes, n)) && forall q | q in nodes :: Present(Full(nodes, n), q)
  {
    var ch, cfg := Change([], AllNames(nodes, []), {}), Full(nodes, n);
    MadeOkAt(nodes, n, ch);
    NamesHold(nodes, [], cfg);
    forall q | q in nodes ensures Present(cfg, q) && SubsOk(nodes, cfg, q) && (q != [] ==> HookOk(nodes, cfg, q)) {
      PresentHolds(nodes, n, ch, q);
      if q != [] {
        MadeOk(nodes, n, ch, q);
        PrefixInTree(nodes, q, 0);
        assert q[..0] == [];
      }
    }
  }

  /** The hooks of every present scope are called once, in every run of every configuration that does
      not throw, if and only if no starved scope hides a scope of the tree. */
  lemma OnceEachCondition(nodes: Nodes, priorities: map<nat, Path>)
    requires IsTree(nodes) && Ranked(nodes, priorities)
    ensures (forall cfg :: OnceEach(nodes, priorities, cfg)) <==> forall q | q in nodes :: Executed(nodes, q)
  {
    if forall q | q in nodes :: Executed(nodes, q) {
      forall cfg ensures OnceEach(nodes, priorities, cfg) {
        OnceEachHolds(nodes, priorities, cfg);
      }
    }
    if forall cfg :: OnceEach(nodes, priorities, cfg) {
      forall q | q in nodes ensures Executed(nodes, q) {
        OnceEachNeeds(nodes, priorities, q);
      }
    }
  }

  lemma OnceEachHolds(nodes: Nodes, priorities: map<nat, Path>, cfg: Setting)
    requires IsTree(nodes) && Ranked(nodes, priorities) && forall q | q in nodes :: Executed(nodes, q)
    ensures OnceEach(nodes, priorities, cfg)
  {
    if RunConfig(nodes, priorities, cfg).error.None? {
      forall q | q in nodes && Present(cfg, q)
        ensures Calls(RunConfig(nodes, priorities, cfg).log, Pre(q)) == 1
        ensures Calls(RunConfig(nodes, priorities, cfg).log, Post(q)) == 1
      {
        ExactlyOnce(nodes, priorities, cfg, q);
      }
    }
  }

  lemma OnceEachNeeds(nodes: Nodes, priorities: map<nat, Path>, q: Path)
    requires IsTree(nodes) && Ranked(nodes, priorities) && q in nodes && forall cfg :: OnceEach(nodes, priorities, cfg)
    ensures Executed(nodes, q)
  {
    var n := BoundExists(nodes);
    var cfg := Full(nodes, n);
    FullConforms(nodes, n);
    SoundWithoutInversion(nodes, cfg);
    RunHasEffect(nodes, priorities, cfg);
    assert OnceEach(nodes, priorities, cfg) && Present(cfg, q);
    ExactlyOnce(nodes, priorities, cfg, q);
    RootIsExecuted(nodes);
  }

  lemma RootIsExecuted(nodes: Nodes)
    requires IsTree(nodes)
    ensures Executed(nodes, []) && Entered(nodes, [])
  {
  }

  // ----- Only what conforms is accepted -----

  ghost predicate Demands(nodes: Nodes, q: Path, k: string) {
    q in nodes && k in nodes[q].parameters && nodes[q].parameters[k]
  }

  ghost predicate DemandsSub(nodes: Nodes, q: Path, c: string) {
    q in nodes && c in nodes[q].children && IsMandatory(nodes, q + [c])
  }

  /** A setting of q that is not a group is refused. */
  ghost predicate RefusesScalar(nodes: Nodes, q: Path) {
    || (Executed(nodes, q) && exists k :: Demands(nodes, q, k))
    || (Entered(nodes, q) && exists c :: DemandsSub(nodes, q, c))
  }

  /** Nothing that a scope demands is left unchecked: one that is not executed declares nothing, and
      one that is not entered has no mandatory subscope. The only exception is a subscope which the
      scope demands as a parameter of the same name as well, and which itself refuses what is not a
      group. */
  ghost predicate NothingUnchecked(nodes: Nodes) {
    forall q | q in nodes ::
      && (!Executed(nodes, q) ==> nodes[q].children == [] && nodes[q].parameters == map[])
      && (!Entered(nodes, q) ==>
            forall c | DemandsSub(nodes, q, c) :: Demands(nodes, q, c) && RefusesScalar(nodes, q + [c]))
  }

  lemma {:induction false} LongerName(names: set<string>) returns (n: nat)
    ensures forall k | k in names :: |k| <= n
    decreases names
  {
    if names == {} {
      n := 0;
    } else {
      var k :| k in names;
      var m := LongerName(names - {k});
      n := if m < |k| then |k| else m;
    }
  }

  lemma NewName(names: set<string>) returns (k: string)
    ensures k !in names
  {
    var n := LongerName(names);
    k := seq(n + 1, _ => 'x');
  }

  lemma ScalarRefused(nodes: Nodes, cfg: Setting, r: Path)
    requires r in nodes && r != [] && Present(cfg, r) && !At(cfg, r).value.Group? && RefusesScalar(nodes, r)
    ensures !Accepted(nodes, cfg)
  {
    if Executed(nodes, r) && exists k :: Demands(nodes, r, k) {
      var k :| Demands(nodes, r, k);
      assert !Has(At(cfg, r).value, k);
      assert !HookOk(nodes, cfg, r);
    } else {
      var k :| DemandsSub(nodes, r, k);
      var j :| 0 <= j < |Children(nodes, r)| && Children(nodes, r)[j] == k;
      assert !HasGroup(At(cfg, r).value, k);
      assert !SubsOk(nodes, cfg, r);
    }
  }

  /** If a demanded subscope that refuses a scalar is not a group, the configuration is refused. */
  lemma DemandedGroup(nodes: Nodes, cfg: Setting, q: Path, c: string)
    requires Executed(nodes, q) && q != [] && Present(cfg, q) && !HasGroup(At(cfg, q).value, c)
    requires DemandsSub(nodes, q, c) && Demands(nodes, q, c) && RefusesScalar(nodes, q + [c])
    ensures !Accepted(nodes, cfg)
  {
    AtStep(cfg, q, c);
    if Has(At(cfg, q).value, c) {
      ScalarRefused(nodes, cfg, q + [c]);
    } else {
      assert !HookOk(nodes, cfg, q);
    }
  }

  lemma NothingUncheckedSuffices(nodes: Nodes, cfg: Setting)
    requires IsTree(nodes) && NothingUnchecked(nodes) && Accepted(nodes, cfg)
    ensures Conforms(nodes, cfg)
  {
    RootIsExecuted(nodes);
    forall q | q in nodes && Present(cfg, q)
      ensures SubsOk(nodes, cfg, q) && (q != [] ==> HookOk(nodes, cfg, q))
    {
      if q != [] && !Entered(nodes, q) {
        forall j | 0 <= j < |Children(nodes, q)| && IsMandatory(nodes, q + [Children(nodes, q)[j]])
          ensures HasGroup(At(cfg, q).value, Children(nodes, q)[j])
        {
          var c := Children(nodes, q)[j];
          assert DemandsSub(nodes, q, c);
          if !HasGroup(At(cfg, q).value, c) { DemandedGroup(nodes, cfg, q, c); }
        }
      }
    }
  }

  /** A name that is not known, put where it is not looked for. */
  lemma UnknownAccepted(nodes: Nodes, q: Path) returns (cfg: Setting)
    requires IsTree(nodes) && q in nodes && !Executed(nodes, q)
    requires nodes[q].children != [] || nodes[q].parameters != map[]
    ensures Accepted(nodes, cfg) && !Conforms(nodes, cfg)
  {
    var n := BoundExists(nodes);
    var k := NewName(AllNames(nodes, q));
    var ch := Change(q, AllNames(nodes, q) + {k}, {});
    cfg := Made(nodes, [], n, ch);
    RootIsExecuted(nodes);
    MadeOkAt(nodes, n, ch);
    forall r | r in nodes && r != q ensures HookOk(nodes, cfg, r) && SubsOk(nodes, cfg, r) {
      MadeOk(nodes, n, ch, r);
    }
    assert k in Keys(At(cfg, q).value) && !KnowsAll(nodes[q], At(cfg, q).value);
    assert At(cfg, []) == Some(cfg) && HookOk(nodes, cfg, []);
    assert !HookOk(nodes, cfg, q);
  }

  lemma LeftOut(nodes: Nodes, q: Path, c: string, s: Setting)
    requires DemandsSub(nodes, q, c) && s.Group? && !HasGroup(s, c)
    requires Keys(s) == AllNames(nodes, q) || (Keys(s) == AllNames(nodes, q) - {c} && !Demands(nodes, q, c))
    ensures KnowsAll(nodes[q], s) && HasParameters(nodes[q], s) && !SubsOkFrom(nodes, q, s, 0)
  {
    var j :| 0 <= j < |nodes[q].children| && nodes[q].children[j] == c;
    assert !HasGroup(s, Children(nodes, q)[j]);
  }

  /** A change at q that takes the group c away is accepted, if nothing else is touched. */
  lemma ChangeAccepted(nodes: Nodes, n: nat, ch: Change, c: string)
    requires IsTree(nodes) && Bounded(nodes, n) && ch.x in nodes && !Entered(nodes, ch.x) && DemandsSub(nodes, ch.x, c)
    requires ch == Change(ch.x, AllNames(nodes, ch.x), {c})
             || (ch == Change(ch.x, AllNames(nodes, ch.x) - {c}, {}) && !Demands(nodes, ch.x, c))
    requires ch.flat == {c} ==> !RefusesScalar(nodes, ch.x + [c])
    ensures var cfg := Made(nodes, [], n, ch); Accepted(nodes, cfg) && !Conforms(nodes, cfg)
  {
    var cfg, q := Made(nodes, [], n, ch), ch.x;
    RootIsExecuted(nodes);
    MadeOkAt(nodes, n, ch);
    LeftOut(nodes, q, c, At(cfg, q).value);
    forall r | r in nodes && r != q && Present(cfg, r)
      ensures Executed(nodes, r) ==> HookOk(nodes, cfg, r)
      ensures Entered(nodes, r) ==> SubsOk(nodes, cfg, r)
    {
      if Flat(r, ch) { FlatOk(nodes, n, ch, c, r); } else { MadeOk(nodes, n, ch, r); }
    }
    assert At(cfg, []) == Some(cfg);
    RootNames(nodes, n, ch);
    assert !SubsOk(nodes, cfg, q);
  }

  lemma RootNames(nodes: Nodes, n: nat, ch: Change)
    requires IsTree(nodes) && ch.x != []
    ensures HasParameters(nodes[[]], Made(nodes, [], n, ch))
  {
  }

  lemma ScalarOk(nodes: Nodes, cfg: Setting, r: Path)
    requires r in nodes && !RefusesScalar(nodes, r) && (Present(cfg, r) ==> At(cfg, r).value == Scalar)
    ensures Executed(nodes, r) ==> HookOk(nodes, cfg, r)
    ensures Entered(nodes, r) ==> SubsOk(nodes, cfg, r)
  {
    if Executed(nodes, r) {
      forall k | k in nodes[r].parameters ensures !nodes[r].parameters[k] {
        assert !Demands(nodes, r, k);
      }
    }
    if Entered(nodes, r) {
      forall j | 0 <= j < |Children(nodes, r)| ensures !IsMandatory(nodes, r + [Children(nodes, r)[j]]) {
        assert !DemandsSub(nodes, r, Children(nodes, r)[j]);
      }
    }
  }

  lemma FlatOk(nodes: Nodes, n: nat, ch: Change, c: string, r: Path)
    requires IsTree(nodes) && Bounded(nodes, n) && r in nodes && Flat(r, ch) && ch.flat == {c}
    requires !RefusesScalar(nodes, ch.x + [c])
    ensures var cfg := Made(nodes, [], n, ch);
            (Executed(nodes, r) ==> HookOk(nodes, cfg, r)) && (Entered(nodes, r) ==> SubsOk(nodes, cfg, r))
  {
    assert r == ch.x + [c];
    PresentHolds(nodes, n, ch, r);
    ScalarOk(nodes, Made(nodes, [], n, ch), r);
  }

  /** A mandatory subscope, left out or given as a scalar where it is not looked for. */
  lemma MissingAccepted(nodes: Nodes, q: Path, c: string) returns (cfg: Setting)
    requires IsTree(nodes) && q in nodes && !Entered(nodes, q) && DemandsSub(nodes, q, c)
    requires !(Demands(nodes, q, c) && RefusesScalar(nodes, q + [c]))
    ensures Accepted(nodes, cfg) && !Conforms(nodes, cfg)
  {
    var n := BoundExists(nodes);
    var ch := if Demands(nodes, q, c) then Change(q, AllNames(nodes, q), {c})
              else Change(q, AllNames(nodes, q) - {c}, {});
    cfg := Made(nodes, [], n, ch);
    ChangeAccepted(nodes, n, ch, c);
  }

  /** Only configurations that conform are accepted, if and only if nothing is left unchecked. */
  lemma AcceptedCondition(nodes: Nodes)
    requires IsTree(nodes)
    ensures (forall cfg :: Accepted(nodes, cfg) ==> Conforms(nodes, cfg)) <==> NothingUnchecked(nodes)
  {
    if NothingUnchecked(nodes) {
      forall cfg | Accepted(nodes, cfg) ensures Conforms(nodes, cfg) {
        NothingUncheckedSuffices(nodes, cfg);
      }
    } else {
      var cfg := SomethingUnchecked(nodes);
    }
  }

  lemma SomethingUnchecked(nodes: Nodes) returns (cfg: Setting)
    requires IsTree(nodes) && !NothingUnchecked(nodes)
    ensures Accepted(nodes, cfg) && !Conforms(nodes, cfg)
  {
    if q :| q in nodes && !Executed(nodes, q) && !(nodes[q].children == [] && nodes[q].parameters == map[]) {
      cfg := UnknownAccepted(nodes, q);
    } else {
      var q, c :| q in nodes && !Entered(nodes, q) && DemandsSub(nodes, q, c)
                  && !(Demands(nodes, q, c) && RefusesScalar(nodes, q + [c]));
      cfg := MissingAccepted(nodes, q, c);
    }
  }

  /** A run ends without exception exactly for the configurations that conform, whatever the
      configuration, if and only if nothing is left unchecked. */
  lemma RunsAcceptConforming(nodes: Nodes, priorities: map<nat, Path>)
    requires IsTree(nodes) && Ranked(nodes, priorities)
    ensures (forall cfg :: RunConfig(nodes, priorities, cfg).error.None? <==> Conforms(nodes, cfg))
            <==> NothingUnchecked(nodes)
  {
    forall cfg
      ensures RunConfig(nodes, priorities, cfg).error.None? <==> Accepted(nodes, cfg)
      ensures Conforms(nodes, cfg) ==> Accepted(nodes, cfg)
    {
      RunHasEffect(nodes, priorities, cfg);
      SoundWithoutInversion(nodes, cfg);
    }
    AcceptedCondition(nodes);
  }
}
