/**
 The printed path of a scope, and the search for the scope a printed path names.
 */
module ConfigPaths {
  import opened Wrappers
  import opened ConfigScope
  import opened ConfigExecution

  const DELIM: char := '.'

  /** get_path(): no delimiter is put behind a parent whose own path is empty. */
  function Print(q: Path): string {
    if q == [] then ""
    else
      var p := Print(q[..|q| - 1]);
      (if p != "" then p + [DELIM] else "") + q[|q| - 1]
  }

  /** The position of the first delimiter, or the length. */
  function Item(s: string): (n: nat)
    ensures n <= |s|
  {
    if s == "" || s[0] == DELIM then 0 else 1 + Item(s[1..])
  }

  function First(s: string): string {
    s[..Item(s)]
  }

  /** What is behind the first delimiter. */
  function Rest(s: string): (r: string)
    ensures s != "" ==> |r| < |s|
  {
    if Item(s) < |s| then s[Item(s) + 1..] else ""
  }

  /** What repeated getline() calls give: no item follows a delimiter at the very end. */
  function Split(s: string): seq<string>
    decreases |s|
  {
    if s == "" then [] else [First(s)] + Split(Rest(s))
  }

  // ----- Resolving -----

  ghost predicate Walks(nodes: Nodes, q: Path) {
    forall k | 0 <= k < |q| :: q[k] in Children(nodes, q[..k])
  }

  ghost function Resolved(nodes: Nodes, s: string): Option<Path> {
    var q := Split(s);
    if q != [] && Walks(nodes, q) then Some(q) else None
  }

  ghost predicate Resolving(nodes: Nodes, s: string, q: Path, rest: string) {
    Split(s) == q + Split(rest) && Walks(nodes, q)
  }

  lemma OneItem(nodes: Nodes, q: Path, item: string, more: Path, all: Path)
    requires all == q + ([item] + more) && Walks(nodes, q)
    ensures all != []
    ensures if item in Children(nodes, q) then all == (q + [item]) + more && Walks(nodes, q + [item])
            else !Walks(nodes, all)
  {
    WalksOn(nodes, q, item);
    if item !in Children(nodes, q) { Astray(nodes, q, [item] + more); }
  }

  lemma ResolvingStep(nodes: Nodes, s: string, q: Path, rest: string)
    requires Resolving(nodes, s, q, rest) && rest != ""
    ensures if First(rest) in Children(nodes, q) then Resolving(nodes, s, q + [First(rest)], Rest(rest))
            else Resolved(nodes, s) == None
  {
    OneItem(nodes, q, First(rest), Split(Rest(rest)), Split(s));
  }

  lemma ResolvingEnds(nodes: Nodes, s: string, q: Path)
    ensures Resolving(nodes, s, q, "") ==> Resolved(nodes, s) == if q == [] then None else Some(q)
    ensures Resolving(nodes, s, [], s)
  {
    assert q + [] == q && [] + Split(s) == Split(s);
  }

  /** get_scope_abs_path() */
  method Resolve(nodes: Nodes, s: string) returns (found: Option<Path>)
    ensures found == Resolved(nodes, s)
  {
    var curr: Path, rest := [], s;
    ResolvingEnds(nodes, s, []);
    while rest != ""
      invariant Resolving(nodes, s, curr, rest)
      decreases |rest|
    {
      var item := First(rest);
      ResolvingStep(nodes, s, curr, rest);
      if item !in Children(nodes, curr) {
        return None;
      }
      curr, rest := curr + [item], Rest(rest);
    }
    ResolvingEnds(nodes, s, curr);
    return if curr == [] then None else Some(curr);
  }

  lemma WalksOn(nodes: Nodes, q: Path, item: string)
    requires Walks(nodes, q)
    ensures Walks(nodes, q + [item]) <==> item in Children(nodes, q)
  {
    var r := q + [item];
    assert r[..|q|] == q;
    assert forall k | 0 <= k < |q| :: r[..k] == q[..k];
  }

  lemma Astray(nodes: Nodes, q: Path, more: Path)
    requires more != [] && more[0] !in Children(nodes, q)
    ensures !Walks(nodes, q + more)
  {
    var r := q + more;
    assert r[..|q|] == q && r[|q|] == more[0];
  }

  // ----- Fields -----

  /** All the fields between the delimiters, the last one too when it is empty. */
  function Fields(s: string): seq<string>
    decreases |s|
  {
    if Item(s) < |s| then [First(s)] + Fields(Rest(s)) else [s]
  }

  function DropEmptyLast(f: seq<string>): seq<string> {
    if f != [] && f[|f| - 1] == "" then f[..|f| - 1] else f
  }

  lemma DropFromTail(x: string, f: seq<string>)
    requires f != []
    ensures DropEmptyLast([x] + f) == [x] + DropEmptyLast(f)
  {
    assert ([x] + f)[..|f|] == [x] + f[..|f| - 1];
  }

  lemma {:induction false} SplitIsFields(s: string)
    ensures Split(s) == DropEmptyLast(Fields(s))
    decreases |s|
  {
    if Item(s) < |s| {
      SplitIsFields(Rest(s));
      DropFromTail(First(s), Fields(Rest(s)));
    } else {
      assert First(s) == s && [s][..0] == [];
    }
  }

  lemma {:induction false} FirstHasNoDelim(s: string)
    ensures DELIM !in First(s) && (Item(s) < |s| ==> s == First(s) + [DELIM] + Rest(s))
  {
    if s != "" && s[0] != DELIM {
      FirstHasNoDelim(s[1..]);
      assert First(s) == [s[0]] + First(s[1..]);
    }
  }

  lemma {:induction false} FieldsHaveNoDelim(s: string)
    ensures NoDelims(Fields(s))
    decreases |s|
  {
    FirstHasNoDelim(s);
    if Item(s) < |s| { FieldsHaveNoDelim(Rest(s)); } else { assert First(s) == s; }
  }

  lemma {:induction false} ItemBefore(s: string, t: string)
    requires t == "" || t[0] == DELIM
    ensures Item(s + t) == Item(s)
  {
    if s == "" {
      assert s + t == t;
    } else {
      assert (s + t)[1..] == s[1..] + t;
      if s[0] != DELIM { ItemBefore(s[1..], t); }
    }
  }

  lemma {:induction false} ItemOfName(x: string)
    requires DELIM !in x
    ensures Item(x) == |x| && Fields(x) == [x]
  {
    if x != "" { ItemOfName(x[1..]); }
  }

  lemma FieldsCut(x: string, rest: string)
    requires DELIM !in x
    ensures Fields(x + [DELIM] + rest) == [x] + Fields(rest)
  {
    var all := x + [DELIM] + rest;
    ItemOfName(x);
    ItemBefore(x, [DELIM] + rest);
    assert x + ([DELIM] + rest) == all;
    assert all[..|x|] == x && all[|x| + 1..] == rest;
  }

  lemma Regroup(first: string, rest: string, x: string)
    ensures (first + [DELIM] + rest) + [DELIM] + x == first + [DELIM] + (rest + [DELIM] + x)
  {
  }

  /** One more name behind a delimiter is one more field. */
  lemma {:induction false} FieldsAppend(s: string, x: string)
    requires DELIM !in x
    ensures Fields(s + [DELIM] + x) == Fields(s) + [x]
    decreases |s|
  {
    FirstHasNoDelim(s);
    if Item(s) < |s| {
      var first, rest := First(s), Rest(s);
      FieldsAppend(rest, x);
      FieldsCut(first, rest + [DELIM] + x);
      Regroup(first, rest, x);
      assert [first] + (Fields(rest) + [x]) == ([first] + Fields(rest)) + [x];
    } else {
      assert First(s) == s;
      FieldsCut(s, x);
      ItemOfName(x);
    }
  }

  // ----- Round trip -----

  ghost predicate NoDelims(q: Path) {
    forall i | 0 <= i < |q| :: '.' !in q[i]
  }

  /** The names contain no delimiter, and the first and the last one are not empty. */
  ghost predicate Printable(q: Path) {
    NoDelims(q) && q != [] && q[0] != "" && q[|q| - 1] != ""
  }

  /** The names are separated by dots. */
  lemma PrintStep(r: Path, x: string)
    ensures Print(r + [x]) == if Print(r) != "" then Print(r) + "." + x else x
  {
    assert (r + [x])[..|r|] == r;
  }

  lemma {:induction false} PrintedFields(q: Path)
    requires NoDelims(q) && q != [] && q[0] != ""
    ensures Print(q) != "" && Fields(Print(q)) == q
    decreases |q|
  {
    var r, x := q[..|q| - 1], q[|q| - 1];
    assert q == r + [x];
    PrintStep(r, x);
    if r == [] {
      ItemOfName(x);
    } else {
      PrintedFields(r);
      FieldsAppend(Print(r), x);
    }
  }

  /** An empty first name is lost. */
  lemma {:induction false} EmptyFirstIsLost(q: Path)
    requires NoDelims(q) && q != [] && q[0] == ""
    ensures Print(q) == "" || |Fields(Print(q))| < |q|
    decreases |q|
  {
    var r, x := q[..|q| - 1], q[|q| - 1];
    assert q == r + [x];
    PrintStep(r, x);
    if r != [] {
      EmptyFirstIsLost(r);
      if Print(r) == "" { ItemOfName(x); } else { FieldsAppend(Print(r), x); }
    }
  }

  lemma SplitHasNoDelims(s: string)
    ensures NoDelims(Split(s)) && |Split(s)| <= |Fields(s)|
  {
    SplitIsFields(s);
    FieldsHaveNoDelim(s);
  }

  /** A path can be read back exactly if it is printable. */
  lemma PathRoundTrip(q: Path)
    requires q != []
    ensures Split(Print(q)) == q <==> Printable(q)
  {
    SplitHasNoDelims(Print(q));
    SplitIsFields(Print(q));
    if NoDelims(q) {
      if q[0] != "" { PrintedFields(q); } else { EmptyFirstIsLost(q); }
    }
  }

  /** Printing the path of a registered scope and resolving it gives the scope back, exactly if
      the path is printable. */
  lemma ResolveRoundTrip(nodes: Nodes, q: Path)
    requires IsTree(nodes) && q in nodes && q != []
    ensures Resolved(nodes, Print(q)) == Some(q) <==> Printable(q)
  {
    PathRoundTrip(q);
    forall k | 0 <= k < |q| ensures q[k] in Children(nodes, q[..k]) {
      PrefixInTree(nodes, q, k);
    }
  }

  /** Only scopes of the tree are found. */
  lemma ResolvedIsRegistered(nodes: Nodes, s: string)
    requires IsTree(nodes) && Resolved(nodes, s).Some?
    ensures Resolved(nodes, s).value in nodes
  {
    var q := Resolved(nodes, s).value;
    var p, c := q[..|q| - 1], q[|q| - 1];
    assert c in Children(nodes, p);
    var i :| 0 <= i < |nodes[p].children| && nodes[p].children[i] == c;
    assert p + [nodes[p].children[i]] == q;
  }

  /** Different printable paths are printed differently. */
  lemma DistinctPaths(q: Path, r: Path)
    requires Printable(q) && Printable(r) && q != r
    ensures Print(q) != Print(r)
  {
    PathRoundTrip(q);
    PathRoundTrip(r);
  }
}
