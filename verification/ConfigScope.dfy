/**
 The scopes a configuration file is checked against. Scopes form a tree; a scope is named by its
 path from the root. A run calls the hooks of every scope it reaches, first those with a
 priority, in ascending order, then the rest.
 */
module ConfigScope {
  import opened Wrappers

  type Path = seq<string>

  // ----- Settings -----

  /** A setting of the configuration file: a group of named settings, or anything else. */
  datatype Setting = Scalar | Group(entries: map<string, Setting>)

  predicate Has(s: Setting, name: string) {
    s.Group? && name in s.entries
  }

  predicate HasGroup(s: Setting, name: string) {
    Has(s, name) && s.entries[name].Group?
  }

  function Keys(s: Setting): set<string> {
    if s.Group? then s.entries.Keys else {}
  }

  /** The setting at a path, if there is one. */
  function At(s: Setting, path: Path): Option<Setting>
    decreases |path|
  {
    if path == [] then Some(s)
    else if Has(s, path[0]) then At(s.entries[path[0]], path[1..])
    else None
  }

  // ----- Scopes -----

  /** PRIORITY scopes run before the normal ones; TAINT scopes take the scopes below along. */
  datatype Kind = Normal | Priority | Taint

  datatype Node = Node(mandatory: bool, kind: Kind, priority: nat, parameters: map<string, bool>, children: seq<string>)

  type Nodes = map<Path, Node>

  /** Priorities are of type unsigned int. */
  const PRIORITIES: nat := 0x1_0000_0000

  predicate IsTaint(nodes: Nodes, p: Path) {
    p in nodes && nodes[p].kind == Taint
  }

  predicate IsMandatory(nodes: Nodes, p: Path) {
    p in nodes && nodes[p].mandatory
  }

  function Children(nodes: Nodes, p: Path): seq<string> {
    if p in nodes then nodes[p].children else []
  }

  ghost predicate Distinct(names: seq<string>) {
    forall i, j | 0 <= i < j < |names| :: names[i] != names[j]
  }

  ghost predicate Listed(nodes: Nodes, q: Path)
    requires q != []
  {
    var p := q[..|q| - 1];
    p in nodes && q[|q| - 1] in nodes[p].children
  }

  /** The nodes form a tree under the root, and siblings have different names. */
  ghost predicate IsTree(nodes: Nodes) {
    && [] in nodes && nodes[[]].kind == Normal
    && (forall p, i | p in nodes && 0 <= i < |nodes[p].children| :: p + [nodes[p].children[i]] in nodes)
    && (forall q {:trigger Listed(nodes, q)} | q in nodes && q != [] :: Listed(nodes, q))
    && (forall p | p in nodes :: Distinct(nodes[p].children))
  }

  /** Each priority belongs to one scope, and each scope that is not normal has its own. */
  ghost predicate Ranked(nodes: Nodes, priorities: map<nat, Path>) {
    && (forall t | t in priorities ::
          t < PRIORITIES && priorities[t] in nodes
          && nodes[priorities[t]].kind != Normal && nodes[priorities[t]].priority == t)
    && (forall q | q in nodes && nodes[q].kind != Normal ::
          nodes[q].priority in priorities && priorities[nodes[q].priority] == q)
  }

  // ----- Validation -----

  datatype Error = UnknownElement | MandatoryNotPresent | DuplicatedScope | DuplicatedPriority | DuplicatedParameter

  /** A scope that declares anything knows every name in its setting. */
  ghost predicate KnowsAll(node: Node, s: Setting) {
    (node.children == [] && node.parameters == map[])
    || forall k | k in Keys(s) :: k in node.parameters || k in node.children
  }

  ghost predicate HasParameters(node: Node, s: Setting) {
    forall k | k in node.parameters && node.parameters[k] :: Has(s, k)
  }

  ghost function CheckNames(node: Node, s: Setting): Option<Error> {
    if !KnowsAll(node, s) then Some(UnknownElement)
    else if !HasParameters(node, s) then Some(MandatoryNotPresent)
    else None
  }

  // ----- Runs -----

  datatype Hook = Pre(path: Path) | Post(path: Path)

  /** The scopes processed, the hooks called, and the exception that ended the run. */
  datatype Run = Run(processed: set<Path>, log: seq<Hook>, error: Option<Error>)

  /** Running a scope with its setting. */
  ghost function RunScope(nodes: Nodes, p: Path, s: Setting, priorityCall: bool, st: Run): Run
    decreases s, |Children(nodes, p)| + 1
  {
    if p !in nodes || (p in st.processed && IsTaint(nodes, p)) then st
    else if p in st.processed then
      RunInside(nodes, p, s, priorityCall, st)
    else
      var begun := st.(log := st.log + [Pre(p)], error := CheckNames(nodes[p], s));
      if begun.error.Some? then begun
      else
        var r := RunInside(nodes, p, s, priorityCall, begun);
        if r.error.Some? then r else Run(r.processed + {p}, r.log + [Post(p)], None)
  }

  /** Only a TAINT scope runs its subscopes in its priority turn, and it does so only then. */
  ghost function RunInside(nodes: Nodes, p: Path, s: Setting, priorityCall: bool, st: Run): Run
    decreases s, |Children(nodes, p)| + 1, 0
  {
    if priorityCall == IsTaint(nodes, p) then RunSubs(nodes, p, s, 0, st) else st
  }

  /** Running the subscopes that have a setting, from the i-th on. */
  ghost function RunSubs(nodes: Nodes, p: Path, s: Setting, i: nat, st: Run): Run
    decreases s, |Children(nodes, p)| - i
  {
    if i >= |Children(nodes, p)| then st
    else
      var c := Children(nodes, p)[i];
      if IsMandatory(nodes, p + [c]) && !HasGroup(s, c) then st.(error := Some(MandatoryNotPresent))
      else
        var r := if Has(s, c) then RunScope(nodes, p + [c], s.entries[c], false, st) else st;
        if r.error.Some? then r else RunSubs(nodes, p, s, i + 1, r)
  }

  const START: Run := Run({}, [], None)

  /** The turns of the priorities below t. */
  ghost function RunPriorities(nodes: Nodes, priorities: map<nat, Path>, cfg: Setting, t: nat): Run
    decreases t, |nodes|
  {
    if t == 0 then START
    else RunTurn(nodes, priorities, cfg, t - 1, RunPriorities(nodes, priorities, cfg, t - 1))
  }

  ghost function RunTurn(nodes: Nodes, priorities: map<nat, Path>, cfg: Setting, t: nat, st: Run): Run {
    if st.error.Some? || t !in priorities then st
    else match At(cfg, priorities[t])
      case Some(s) => RunScope(nodes, priorities[t], s, true, st)
      case None => st
  }

  /** The root: unknown names are not looked for. */
  ghost function RunRoot(nodes: Nodes, cfg: Setting, st: Run): Run {
    if st.error.Some? || [] !in nodes then st
    else
      var begun := st.(log := st.log + [Pre([])]);
      if !HasParameters(nodes[[]], cfg) then begun.(error := Some(MandatoryNotPresent))
      else
        var r := RunSubs(nodes, [], cfg, 0, begun);
        if r.error.Some? then r else r.(log := r.log + [Post([])])
  }

  ghost function RunConfig(nodes: Nodes, priorities: map<nat, Path>, cfg: Setting): Run {
    RunRoot(nodes, cfg, RunPriorities(nodes, priorities, cfg, PRIORITIES))
  }
}
