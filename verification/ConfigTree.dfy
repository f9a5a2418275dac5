/**
 The tree of scopes as the configuration plugin builds and executes it. The effect of every
 operation is stated by the functions of `ConfigScope`; what a run means is in `ConfigRuns`.
 */
module ConfigTree {
  import opened Wrappers
  import opened ConfigScope
  import opened ConfigExecution

  class ScopeTree {
    var nodes: Nodes
    var priorities: map<nat, Path>
    var processed: set<Path>
    var log: seq<Hook>

    ghost predicate Valid()
      reads this
    {
      IsTree(nodes) && Ranked(nodes, priorities)
    }

    /** Nothing was executed yet. */
    ghost predicate Fresh()
      reads this
    {
      processed == {} && log == []
    }

    constructor ()
      ensures Valid() && Fresh() && nodes == map[[] := Node(false, Normal, 0, map[], [])]
    {
      nodes := map[[] := Node(false, Normal, 0, map[], [])];
      priorities := map[];
      processed := {};
      log := [];
    }

    // ----- Registration -----

    method GetSubscope(p: Path, name: string) returns (found: bool)
      ensures found <==> name in Children(nodes, p)
    {
      var i := 0;
      var cs := Children(nodes, p);
      while i < |cs|
        invariant 0 <= i <= |cs| && name !in cs[..i]
      {
        if cs[i] == name {
          return true;
        }
        i := i + 1;
      }
      return false;
    }

    method RegisterSubscope(p: Path, name: string, mandatory: bool) returns (error: Option<Error>)
      requires Valid() && p in nodes
      modifies this`nodes
      ensures Valid()
      ensures error == if name in old(nodes)[p].children then Some(DuplicatedScope) else None
      ensures nodes == if error.Some? then old(nodes)
                       else WithChild(old(nodes), p, name, Node(mandatory, Normal, 0, map[], []))
      ensures error.None? ==> Appended(old(nodes), p, name, nodes)
    {
      var found := GetSubscope(p, name);
      if found {
        return Some(DuplicatedScope);
      }
      ghost var was := nodes;
      nodes := WithChild(nodes, p, name, Node(mandatory, Normal, 0, map[], []));
      ChildKeepsTree(was, p, name, Node(mandatory, Normal, 0, map[], []));
      ChildKeepsRanks(was, priorities, p, name, mandatory);
      ChildAppended(was, p, name, Node(mandatory, Normal, 0, map[], []));
      return None;
    }

    /** A priority that is taken is found out only after the scope was added and marked. */
    method RegisterPrioritySubscope(p: Path, name: string, mandatory: bool, priority: nat, taint: bool)
      returns (error: Option<Error>)
      requires Valid() && p in nodes && priority < PRIORITIES
      modifies this`nodes, this`priorities
      ensures error.None? ==> Valid()
      ensures error == if name in old(nodes)[p].children then Some(DuplicatedScope)
                       else if priority in old(priorities) then Some(DuplicatedPriority)
                       else None
      ensures var n := Node(mandatory, if taint then Taint else Priority, priority, map[], []);
              nodes == if error == Some(DuplicatedScope) then old(nodes) else WithChild(old(nodes), p, name, n)
      ensures error != Some(DuplicatedScope) ==>
                Appended(old(nodes), p, name, nodes) && nodes[p + [name]].kind == (if taint then Taint else Priority)
      ensures priorities == if error.None? then old(priorities)[priority := p + [name]] else old(priorities)
    {
      ghost var was, ranks := nodes, priorities;
      error := RegisterSubscope(p, name, mandatory);
      if error.Some? {
        return;
      }
      var q := p + [name];
      var kind := if taint then Taint else Priority;
      nodes := nodes[q := nodes[q].(kind := kind, priority := priority)];
      WithKind(was, p, name, mandatory, kind, priority);
      ChildAppended(was, p, name, Node(mandatory, kind, priority, map[], []));
      if priority in priorities {
        return Some(DuplicatedPriority);
      }
      priorities := priorities[priority := q];
      ChildKeepsTree(was, p, name, Node(mandatory, kind, priority, map[], []));
      RankedChild(was, ranks, p, name, Node(mandatory, kind, priority, map[], []));
    }

    method RegisterParameter(p: Path, name: string, mandatory: bool) returns (error: Option<Error>)
      requires Valid() && p in nodes
      modifies this`nodes
      ensures Valid()
      ensures error == if name in old(nodes)[p].parameters then Some(DuplicatedParameter) else None
      ensures nodes == if error.Some? then old(nodes)
                       else old(nodes)[p := old(nodes)[p].(parameters := old(nodes)[p].parameters[name := mandatory])]
    {
      if name in nodes[p].parameters {
        return Some(DuplicatedParameter);
      }
      ghost var was := nodes;
      nodes := nodes[p := nodes[p].(parameters := nodes[p].parameters[name := mandatory])];
      ParametersKeepTree(was, nodes, p);
      return None;
    }

    // ----- Execution -----

    /** Calling a scope's execute(). */
    method Execute(p: Path, s: Setting, priorityCall: bool) returns (error: Option<Error>)
      requires Closed(nodes) && p in nodes
      modifies this`processed, this`log
      ensures Run(processed, log, error)
              == RunScope(nodes, p, s, priorityCall, Run(old(processed), old(log), None))
      decreases s, 2
    {
      if p in processed && nodes[p].kind == Taint {
        return None;
      }
      var first := p !in processed;
      if first {
        log := log + [Pre(p)];
        error := Check(nodes[p], s);
        if error.Some? {
          return;
        }
      }
      if priorityCall == (nodes[p].kind == Taint) {
        error := ExecuteSubscopes(p, s);
        if error.Some? {
          return;
        }
      }
      if first {
        log := log + [Post(p)];
        processed := processed + {p};
      }
      return None;
    }

    method ExecuteSubscopes(p: Path, s: Setting) returns (error: Option<Error>)
      requires Closed(nodes) && p in nodes
      modifies this`processed, this`log
      ensures Run(processed, log, error) == RunSubs(nodes, p, s, 0, Run(old(processed), old(log), None))
      decreases s, 1
    {
      ghost var all := RunSubs(nodes, p, s, 0, Run(processed, log, None));
      var i := 0;
      while i < |nodes[p].children|
        invariant 0 <= i <= |nodes[p].children|
        invariant RunSubs(nodes, p, s, i, Run(processed, log, None)) == all
      {
        SubsOneByOne(nodes, p, s, i, Run(processed, log, None));
        error := ExecuteSubscope(p, s, i);
        if error.Some? {
          return;
        }
        i := i + 1;
      }
      return None;
    }

    method ExecuteSubscope(p: Path, s: Setting, i: nat) returns (error: Option<Error>)
      requires Closed(nodes) && p in nodes && i < |nodes[p].children|
      modifies this`processed, this`log
      ensures Run(processed, log, error) == RunSub(nodes, p, s, i, Run(old(processed), old(log), None))
      decreases s, 0
    {
      var c := nodes[p].children[i];
      var q := p + [c];
      if nodes[q].mandatory && !HasGroup(s, c) {
        return Some(MandatoryNotPresent);
      }
      if Has(s, c) {
        error := Execute(q, s.entries[c], false);
      } else {
        error := None;
      }
    }

    /** Executing the root: the priority scopes that are present, then everything else. */
    method ExecuteConfig(cfg: Setting) returns (error: Option<Error>)
      requires Valid() && Fresh()
      modifies this`processed, this`log
      ensures Run(processed, log, error) == RunConfig(nodes, priorities, cfg)
    {
      error := ExecutePriorities(cfg);
      if error.Some? {
        return;
      }
      log := log + [Pre([])];
      error := CheckParameters(nodes[[]], cfg);
      if error.Some? {
        return;
      }
      error := ExecuteSubscopes([], cfg);
      if error.Some? {
        return;
      }
      log := log + [Post([])];
    }

    /** The map of priorities is iterated in ascending order. */
    method ExecutePriorities(cfg: Setting) returns (error: Option<Error>)
      requires Valid() && Fresh()
      modifies this`processed, this`log
      ensures Run(processed, log, error) == RunPriorities(nodes, priorities, cfg, PRIORITIES)
    {
      var left := priorities.Keys;
      ghost var t: nat := 0;
      while left != {}
        invariant left <= priorities.Keys && t <= PRIORITIES && forall k | k in priorities :: k in left <==> t <= k
        invariant Run(processed, log, None) == RunPriorities(nodes, priorities, cfg, t)
        decreases left
      {
        var k := Lowest(left);
        NoTurnBetween(nodes, priorities, cfg, t, k);
        error := ExecutePriority(cfg, k);
        if error.Some? {
          ErrorEnds(nodes, priorities, cfg, k + 1, PRIORITIES);
          return;
        }
        left := left - {k};
        t := k + 1;
      }
      NoTurnBetween(nodes, priorities, cfg, t, PRIORITIES);
      return None;
    }

    method ExecutePriority(cfg: Setting, t: nat) returns (error: Option<Error>)
      requires Valid()
      modifies this`processed, this`log
      ensures Run(processed, log, error) == RunTurn(nodes, priorities, cfg, t, Run(old(processed), old(log), None))
    {
      if t in priorities {
        var setting := At(cfg, priorities[t]);
        if setting.Some? {
          error := Execute(priorities[t], setting.value, true);
          return;
        }
      }
      return None;
    }
  }

  ghost predicate Closed(nodes: Nodes) {
    forall p, i | p in nodes && 0 <= i < |nodes[p].children| :: p + [nodes[p].children[i]] in nodes
  }

  /** The i-th subscope alone. */
  ghost function RunSub(nodes: Nodes, p: Path, s: Setting, i: nat, st: Run): Run
    requires i < |Children(nodes, p)|
  {
    var c := Children(nodes, p)[i];
    if IsMandatory(nodes, p + [c]) && !HasGroup(s, c) then st.(error := Some(MandatoryNotPresent))
    else RunAt(nodes, p, s, i, st)
  }

  lemma SubsOneByOne(nodes: Nodes, p: Path, s: Setting, i: nat, st: Run)
    requires i < |Children(nodes, p)|
    ensures var r := RunSub(nodes, p, s, i, st);
            RunSubs(nodes, p, s, i, st) == if r.error.Some? then r else RunSubs(nodes, p, s, i + 1, r)
  {
  }

  lemma NoTurnBetween(nodes: Nodes, priorities: map<nat, Path>, cfg: Setting, t: nat, u: nat)
    requires t <= u && forall k | k in priorities :: k < t || u <= k
    ensures RunPriorities(nodes, priorities, cfg, u) == RunPriorities(nodes, priorities, cfg, t)
  {
    var v := t;
    while v != u
      invariant t <= v <= u
      invariant RunPriorities(nodes, priorities, cfg, v) == RunPriorities(nodes, priorities, cfg, t)
    {
      v := v + 1;
    }
  }

  method Lowest(s: set<nat>) returns (m: nat)
    requires s != {}
    ensures m in s && forall k | k in s :: m <= k
  {
    m :| m in s;
    var left := s - {m};
    while left != {}
      invariant left <= s && m in s && forall k | k in s :: k in left || m <= k
      decreases left
    {
      var k :| k in left;
      if k < m {
        m := k;
      }
      left := left - {k};
    }
  }

  lemma ErrorEnds(nodes: Nodes, priorities: map<nat, Path>, cfg: Setting, t: nat, u: nat)
    requires RunPriorities(nodes, priorities, cfg, t).error.Some? && t <= u
    ensures RunPriorities(nodes, priorities, cfg, u) == RunPriorities(nodes, priorities, cfg, t)
  {
    var v := t;
    while v != u
      invariant t <= v <= u
      invariant RunPriorities(nodes, priorities, cfg, v) == RunPriorities(nodes, priorities, cfg, t)
    {
      v := v + 1;
    }
  }

  function WithChild(nodes: Nodes, p: Path, name: string, n: Node): Nodes
    requires p in nodes
  {
    nodes[p := nodes[p].(children := nodes[p].children + [name])][p + [name] := n]
  }

  /** The new scope comes behind all others of its parent, and has nothing below it. */
  ghost predicate Appended(was: Nodes, p: Path, name: string, now: Nodes) {
    var q := p + [name];
    && p in was && p in now && q in now && now.Keys == was.Keys + {q}
    && now[p] == was[p].(children := was[p].children + [name]) && now[q].children == [] && now[q].parameters == map[]
    && forall r | r in was && r != p && r != q :: now[r] == was[r]
  }

  /** The checks between the two hooks, before the subscopes. */
  method Check(node: Node, s: Setting) returns (error: Option<Error>)
    ensures error == CheckNames(node, s)
    ensures error == Some(UnknownElement)
            <==> (node.children != [] || node.parameters != map[])
                 && exists k :: k in Keys(s) && k !in node.parameters && k !in node.children
    ensures error.Some? && error != Some(UnknownElement) ==> error == Some(MandatoryNotPresent)
  {
    if node.children != [] || node.parameters != map[] {
      var keys := Keys(s);
      while keys != {}
        invariant keys <= Keys(s)
        invariant forall k | k in Keys(s) - keys :: k in node.parameters || k in node.children
        decreases keys
      {
        var k :| k in keys;
        if k !in node.parameters && k !in node.children {
          return Some(UnknownElement);
        }
        keys := keys - {k};
      }
    }
    error := CheckParameters(node, s);
  }

  method CheckParameters(node: Node, s: Setting) returns (error: Option<Error>)
    ensures error == if HasParameters(node, s) then None else Some(MandatoryNotPresent)
  {
    var names := node.parameters.Keys;
    while names != {}
      invariant names <= node.parameters.Keys
      invariant forall k | k in node.parameters.Keys - names && node.parameters[k] :: Has(s, k)
      decreases names
    {
      var k :| k in names;
      if node.parameters[k] && !Has(s, k) {
        return Some(MandatoryNotPresent);
      }
      names := names - {k};
    }
    return None;
  }

  // ----- Registration keeps the tree -----

  lemma ChildIsListed(nodes: Nodes, p: Path, name: string)
    requires IsTree(nodes) && p + [name] in nodes
    ensures p in nodes && name in nodes[p].children
  {
    var q := p + [name];
    assert Listed(nodes, q) && q[..|p|] == p;
  }

  lemma ChildListed(nodes: Nodes, p: Path, name: string, n: Node, r: Path)
    requires p in nodes && r != [] && (r in nodes ==> Listed(nodes, r))
    ensures r in WithChild(nodes, p, name, n) && (p + [name] !in nodes) ==> Listed(WithChild(nodes, p, name, n), r)
  {
    if r == p + [name] { assert r[..|p|] == p; }
  }

  /** A scope added as a normal one, and marked then. */
  lemma WithKind(nodes: Nodes, p: Path, name: string, mandatory: bool, kind: Kind, priority: nat)
    requires p in nodes
    ensures var q, now := p + [name], WithChild(nodes, p, name, Node(mandatory, Normal, 0, map[], []));
            now[q := now[q].(kind := kind, priority := priority)]
            == WithChild(nodes, p, name, Node(mandatory, kind, priority, map[], []))
  {
  }

  lemma ChildAppended(nodes: Nodes, p: Path, name: string, n: Node)
    requires p in nodes && n.children == [] && n.parameters == map[]
    ensures Appended(nodes, p, name, WithChild(nodes, p, name, n)) && WithChild(nodes, p, name, n)[p + [name]] == n
  {
  }

  lemma ChildClosed(nodes: Nodes, p: Path, name: string, n: Node)
    requires Closed(nodes) && p in nodes && p + [name] !in nodes && n.children == []
    ensures Closed(WithChild(nodes, p, name, n))
  {
  }

  lemma ChildDistinct(nodes: Nodes, p: Path, name: string, n: Node, r: Path)
    requires p in nodes && name !in nodes[p].children && n.children == []
    requires r in nodes ==> Distinct(nodes[r].children)
    ensures r in WithChild(nodes, p, name, n) ==> Distinct(WithChild(nodes, p, name, n)[r].children)
  {
  }

  lemma ChildKeepsTree(nodes: Nodes, p: Path, name: string, n: Node)
    requires IsTree(nodes) && p in nodes && name !in nodes[p].children && n.children == []
    ensures IsTree(WithChild(nodes, p, name, n))
  {
    var now := WithChild(nodes, p, name, n);
    if p + [name] in nodes { ChildIsListed(nodes, p, name); }
    ChildClosed(nodes, p, name, n);
    forall r | r in now && r != [] ensures Listed(now, r) {
      assert r in nodes ==> Listed(nodes, r);
      ChildListed(nodes, p, name, n, r);
    }
    forall r | r in now ensures Distinct(now[r].children) {
      ChildDistinct(nodes, p, name, n, r);
    }
  }

  lemma ChildKeepsRanks(nodes: Nodes, priorities: map<nat, Path>, p: Path, name: string, mandatory: bool)
    requires IsTree(nodes) && p in nodes && name !in nodes[p].children && Ranked(nodes, priorities)
    ensures Ranked(WithChild(nodes, p, name, Node(mandatory, Normal, 0, map[], [])), priorities)
  {
    if p + [name] in nodes { ChildIsListed(nodes, p, name); }
  }

  lemma RankedChild(nodes: Nodes, priorities: map<nat, Path>, p: Path, name: string, n: Node)
    requires IsTree(nodes) && p in nodes && name !in nodes[p].children && Ranked(nodes, priorities)
    requires n.kind != Normal && n.priority < PRIORITIES && n.priority !in priorities
    ensures Ranked(WithChild(nodes, p, name, n), priorities[n.priority := p + [name]])
  {
    if p + [name] in nodes { ChildIsListed(nodes, p, name); }
  }

  lemma ParametersKeepTree(nodes: Nodes, now: Nodes, p: Path)
    requires IsTree(nodes) && p in nodes && p in now && now == nodes[p := nodes[p].(parameters := now[p].parameters)]
    ensures IsTree(now)
  {
    forall r | r in now && r != [] ensures Listed(now, r) {
      assert Listed(nodes, r);
    }
  }
}
