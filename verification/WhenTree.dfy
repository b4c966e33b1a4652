/** Condition trees: their plain boolean meaning, the depth rule of registration, and the capped
    short-circuit walk that evaluation performs, stated over an arbitrary valuation of the leaves. */
module WhenTree {
  import opened CodeUnits
  import opened Options
  import opened Entries
  import opened Canonical

  const MAX_DEPTH := 30

  /** A use-site argument: a value, or a callback on the rule's context with its outcome. */
  datatype Arg = Const(value: Value) | Callback(result: Option<Value>)

  datatype Node =
    | Inline(fn: nat)
    | All(children: seq<Node>)
    | Any(children: seq<Node>)
    | Not(child: Node)
    | Use(name: Text, args: seq<Entry<Arg>>)

  predicate IsLeaf(n: Node) { n.Inline? || n.Use? }

  type Valuation = Node -> bool

  type Path = seq<nat>

  // ----- plain meaning -----

  predicate Meaning(n: Node, v: Valuation)
  {
    match n
    case All(children) => forall i :: 0 <= i < |children| ==> Meaning(children[i], v)
    case Any(children) => exists i :: 0 <= i < |children| && Meaning(children[i], v)
    case Not(child) => !Meaning(child, v)
    case _ => v(n)
  }

  // ----- the walk -----

  datatype Result = Result(value: bool, visited: seq<Path>)

  function Below(k: nat, paths: seq<Path>): (r: seq<Path>)
    ensures |r| == |paths|
    ensures forall i :: 0 <= i < |paths| ==> r[i] == [k] + paths[i]
  {
    if paths == [] then [] else [[k] + paths[0]] + Below(k, paths[1..])
  }

  /** `evaluateNode`: the value, and the leaves evaluated in the order they were. */
  function Evaluate(n: Node, depth: nat, v: Valuation): Result
    decreases n, 0
  {
    if depth > MAX_DEPTH then Result(false, [])
    else if IsLeaf(n) then Result(v(n), [[]])
    else if depth >= MAX_DEPTH then Result(false, [])
    else
      match n
      case All(children) => EvaluateAll(children, 0, depth + 1, v)
      case Any(children) => EvaluateAny(children, 0, depth + 1, v)
      case Not(child) =>
        var r := Evaluate(child, depth + 1, v);
        Result(!r.value, Below(0, r.visited))
  }

  function EvaluateAll(children: seq<Node>, k: nat, depth: nat, v: Valuation): Result
    requires k <= |children|
    decreases children, 1, |children| - k
  {
    if k == |children| then Result(true, [])
    else
      var r := Evaluate(children[k], depth, v);
      if !r.value then Result(false, Below(k, r.visited))
      else
        var rest := EvaluateAll(children, k + 1, depth, v);
        Result(rest.value, Below(k, r.visited) + rest.visited)
  }

  function EvaluateAny(children: seq<Node>, k: nat, depth: nat, v: Valuation): Result
    requires k <= |children|
    decreases children, 1, |children| - k
  {
    if k == |children| then Result(false, [])
    else
      var r := Evaluate(children[k], depth, v);
      if r.value then Result(true, Below(k, r.visited))
      else
        var rest := EvaluateAny(children, k + 1, depth, v);
        Result(rest.value, Below(k, r.visited) + rest.visited)
  }

  // ----- registration -----

  /** No node lies deeper than the limit. */
  ghost predicate Accepted(n: Node, depth: nat)
  {
    depth <= MAX_DEPTH &&
    match n
    case All(children) => forall i :: 0 <= i < |children| ==> Accepted(children[i], depth + 1)
    case Any(children) => forall i :: 0 <= i < |children| ==> Accepted(children[i], depth + 1)
    case Not(child) => Accepted(child, depth + 1)
    case _ => true
  }

  /** The tree with every childless `all` that sits exactly at the limit turned into a childless `any`. */
  function Capped(n: Node, depth: nat): Node
  {
    match n
    case All(children) =>
      if children == [] && depth == MAX_DEPTH then Any([])
      else All(seq(|children|, i requires 0 <= i < |children| => Capped(children[i], depth + 1)))
    case Any(children) => Any(seq(|children|, i requires 0 <= i < |children| => Capped(children[i], depth + 1)))
    case Not(child) => Not(Capped(child, depth + 1))
    case _ => n
  }

  ghost predicate NoEmptyAllAtLimit(n: Node, depth: nat)
  {
    match n
    case All(children) =>
      !(children == [] && depth == MAX_DEPTH)
      && forall i :: 0 <= i < |children| ==> NoEmptyAllAtLimit(children[i], depth + 1)
    case Any(children) => forall i :: 0 <= i < |children| ==> NoEmptyAllAtLimit(children[i], depth + 1)
    case Not(child) => NoEmptyAllAtLimit(child, depth + 1)
    case _ => true
  }

  lemma {:induction false} CappedIsIdentity(n: Node, depth: nat)
    requires NoEmptyAllAtLimit(n, depth)
    ensures Capped(n, depth) == n
  {
    match n
    case All(children) =>
      forall i | 0 <= i < |children| { CappedIsIdentity(children[i], depth + 1); }
      assert Capped(n, depth).children == children;
    case Any(children) =>
      forall i | 0 <= i < |children| { CappedIsIdentity(children[i], depth + 1); }
      assert Capped(n, depth).children == children;
    case Not(child) => CappedIsIdentity(child, depth + 1);
    case _ =>
  }

  // ----- which leaves short-circuiting asks for -----

  /** The path leads to a leaf, past no `all` sibling that is false and no `any` sibling that is true. */
  ghost predicate Demanded(n: Node, v: Valuation, path: Path)
  {
    if path == [] then IsLeaf(n)
    else
      match n
      case All(children) =>
        && path[0] < |children|
        && (forall j :: 0 <= j < path[0] ==> Meaning(children[j], v))
        && Demanded(children[path[0]], v, path[1..])
      case Any(children) =>
        && path[0] < |children|
        && (forall j :: 0 <= j < path[0] ==> !Meaning(children[j], v))
        && Demanded(children[path[0]], v, path[1..])
      case Not(child) => path[0] == 0 && Demanded(child, v, path[1..])
      case _ => false
  }

  /** Document order of leaves. */
  predicate Before(p: Path, q: Path)
  {
    p != [] && q != [] && (p[0] < q[0] || (p[0] == q[0] && Before(p[1..], q[1..])))
  }

  predicate InOrder(paths: seq<Path>) { forall i, j :: 0 <= i < j < |paths| ==> Before(paths[i], paths[j]) }

  /** The visited leaves are exactly the demanded ones, in document order. */
  ghost predicate VisitsDemanded(n: Node, v: Valuation, visited: seq<Path>)
  {
    InOrder(visited) && forall p :: p in visited <==> Demanded(n, v, p)
  }

  /** Child `c` from position `k` on, as `EvaluateAll` and `EvaluateAny` leave it. */
  ghost predicate VisitsFrom(n: Node, k: nat, v: Valuation, visited: seq<Path>)
  {
    InOrder(visited) && forall p :: p in visited <==> p != [] && p[0] >= k && Demanded(n, v, p)
  }

  lemma BelowMembers(k: nat, paths: seq<Path>)
    ensures forall p :: p in Below(k, paths) <==> p != [] && p[0] == k && p[1..] in paths
    ensures InOrder(paths) ==> InOrder(Below(k, paths))
  {
    var b := Below(k, paths);
    forall p | p in b ensures p != [] && p[0] == k && p[1..] in paths {
      var i :| 0 <= i < |b| && b[i] == p;
      assert p[1..] == paths[i];
    }
    forall p: Path | p != [] && p[0] == k && p[1..] in paths ensures p in b {
      var i :| 0 <= i < |paths| && paths[i] == p[1..];
      assert b[i] == [k] + p[1..] == p;
    }
    if InOrder(paths) {
      forall i, j | 0 <= i < j < |b| ensures Before(b[i], b[j]) {
        assert b[i][1..] == paths[i] && b[j][1..] == paths[j];
      }
    }
  }

  /** Whether child `j` of an `all` or `any` lets the walk go on to its next sibling. */
  ghost predicate Continues(c: Node, j: nat, v: Valuation)
    requires (c.All? || c.Any?) && j < |c.children|
  {
    Meaning(c.children[j], v) == c.All?
  }

  lemma DemandedBelow(c: Node, v: Valuation, p: Path)
    requires (c.All? || c.Any?) && p != []
    ensures Demanded(c, v, p) <==>
            p[0] < |c.children| && (forall j :: 0 <= j < p[0] ==> Continues(c, j, v)) && Demanded(c.children[p[0]], v, p[1..])
  {
    if p[0] < |c.children| {
      assert forall j :: 0 <= j < p[0] ==> (Continues(c, j, v) <==> (Meaning(c.children[j], v) <==> c.All?));
    }
  }

  lemma StepMember(c: Node, k: nat, v: Valuation, first: seq<Path>, rest: seq<Path>, p: Path)
    requires (c.All? || c.Any?) && k < |c.children|
    requires forall j :: 0 <= j < k ==> Continues(c, j, v)
    requires forall q :: q in first <==> Demanded(c.children[k], v, q)
    requires if Continues(c, k, v) then forall q :: q in rest <==> q != [] && q[0] >= k + 1 && Demanded(c, v, q) else rest == []
    ensures p in Below(k, first) || p in rest <==> p != [] && p[0] >= k && Demanded(c, v, p)
  {
    BelowMembers(k, first);
    if p != [] { DemandedBelow(c, v, p); }
  }

  lemma VisitsStep(c: Node, k: nat, v: Valuation, first: seq<Path>, rest: seq<Path>)
    requires (c.All? || c.Any?) && k < |c.children|
    requires forall j :: 0 <= j < k ==> Continues(c, j, v)
    requires VisitsDemanded(c.children[k], v, first)
    requires if Continues(c, k, v) then VisitsFrom(c, k + 1, v, rest) else rest == []
    ensures VisitsFrom(c, k, v, Below(k, first) + rest)
  {
    BelowMembers(k, first);
    forall p ensures p in Below(k, first) + rest <==> p != [] && p[0] >= k && Demanded(c, v, p) {
      StepMember(c, k, v, first, rest, p);
    }
  }

  /** A combinator at the limit is only accepted without children. */
  lemma AtTheLimit(n: Node)
    requires n.All? || n.Any?
    ensures Accepted(n, MAX_DEPTH) ==> n.children == []
  {
    if n.children != [] { assert !Accepted(n.children[0], MAX_DEPTH + 1); }
  }

  /** On every accepted tree the walk computes the meaning of the capped tree and evaluates exactly the
      leaves that short-circuiting demands, left to right. */
  lemma {:induction false} EvaluateIsMeaning(n: Node, depth: nat, v: Valuation)
    requires Accepted(n, depth)
    ensures Evaluate(n, depth, v).value == Meaning(Capped(n, depth), v)
    ensures VisitsDemanded(Capped(n, depth), v, Evaluate(n, depth, v).visited)
    decreases n, 0
  {
    var c := Capped(n, depth);
    match n
    case All(children) =>
      if depth == MAX_DEPTH {
        AtTheLimit(n);
      } else {
        AllIsMeaning(children, 0, depth + 1, v, c);
        assert forall p: Path :: Demanded(c, v, p) ==> p != [] && p[0] >= 0;
      }
    case Any(children) =>
      if depth == MAX_DEPTH {
        AtTheLimit(n);
      } else {
        AnyIsMeaning(children, 0, depth + 1, v, c);
        assert forall p: Path :: Demanded(c, v, p) ==> p != [] && p[0] >= 0;
      }
    case Not(child) =>
      EvaluateIsMeaning(child, depth + 1, v);
      BelowMembers(0, Evaluate(child, depth + 1, v).visited);
    case _ =>
      assert forall p: Path :: Demanded(c, v, p) <==> p == [];
  }

  lemma {:induction false} AllIsMeaning(children: seq<Node>, k: nat, depth: nat, v: Valuation, c: Node)
    requires k <= |children|
    requires forall i :: 0 <= i < |children| ==> Accepted(children[i], depth)
    requires c.All? && |c.children| == |children|
    requires forall i :: 0 <= i < |children| ==> c.children[i] == Capped(children[i], depth)
    requires forall i :: 0 <= i < k ==> Meaning(c.children[i], v)
    ensures EvaluateAll(children, k, depth, v).value == forall i :: k <= i < |children| ==> Meaning(c.children[i], v)
    ensures VisitsFrom(c, k, v, EvaluateAll(children, k, depth, v).visited)
    decreases children, 1, |children| - k
  {
    if k < |children| {
      var r := Evaluate(children[k], depth, v);
      EvaluateIsMeaning(children[k], depth, v);
      if r.value {
        AllIsMeaning(children, k + 1, depth, v, c);
        VisitsStep(c, k, v, r.visited, EvaluateAll(children, k + 1, depth, v).visited);
      } else {
        VisitsStep(c, k, v, r.visited, []);
        assert Below(k, r.visited) + [] == Below(k, r.visited);
      }
    }
  }

  lemma {:induction false} AnyIsMeaning(children: seq<Node>, k: nat, depth: nat, v: Valuation, c: Node)
    requires k <= |children|
    requires forall i :: 0 <= i < |children| ==> Accepted(children[i], depth)
    requires c.Any? && |c.children| == |children|
    requires forall i :: 0 <= i < |children| ==> c.children[i] == Capped(children[i], depth)
    requires forall i :: 0 <= i < k ==> !Meaning(c.children[i], v)
    ensures EvaluateAny(children, k, depth, v).value == exists i :: k <= i < |children| && Meaning(c.children[i], v)
    ensures VisitsFrom(c, k, v, EvaluateAny(children, k, depth, v).visited)
    decreases children, 1, |children| - k
  {
    if k < |children| {
      var r := Evaluate(children[k], depth, v);
      EvaluateIsMeaning(children[k], depth, v);
      if r.value {
        VisitsStep(c, k, v, r.visited, []);
        assert Below(k, r.visited) + [] == Below(k, r.visited);
      } else {
        AnyIsMeaning(children, k + 1, depth, v, c);
        VisitsStep(c, k, v, r.visited, EvaluateAny(children, k + 1, depth, v).visited);
      }
    }
  }

  /** Without a childless `all` at the limit, the walk means what the tree says. */
  lemma AcceptedTreeMeansItself(n: Node, v: Valuation)
    requires Accepted(n, 1) && NoEmptyAllAtLimit(n, 1)
    ensures Evaluate(n, 1, v).value == Meaning(n, v)
    ensures VisitsDemanded(n, v, Evaluate(n, 1, v).visited)
  {
    CappedIsIdentity(n, 1);
    EvaluateIsMeaning(n, 1, v);
  }

  /** Every node of the tree evaluates, at its depth, to what it says, whatever the leaves yield. */
  ghost predicate MeansItself(n: Node, depth: nat)
  {
    && (forall v :: Evaluate(n, depth, v).value == Meaning(n, v))
    && match n
       case All(children) => forall i :: 0 <= i < |children| ==> MeansItself(children[i], depth + 1)
       case Any(children) => forall i :: 0 <= i < |children| ==> MeansItself(children[i], depth + 1)
       case Not(child) => MeansItself(child, depth + 1)
       case _ => true
  }

  /** All nodes of an accepted tree mean what they say exactly when no childless `all` sits at the limit. */
  lemma {:induction false} MeansItselfIff(n: Node, depth: nat)
    requires Accepted(n, depth)
    ensures MeansItself(n, depth) <==> NoEmptyAllAtLimit(n, depth)
    decreases n
  {
    if NoEmptyAllAtLimit(n, depth) {
      CappedIsIdentity(n, depth);
      forall v ensures Evaluate(n, depth, v).value == Meaning(n, v) { EvaluateIsMeaning(n, depth, v); }
    }
    match n
    case All(children) =>
      forall i | 0 <= i < |children| { MeansItselfIff(children[i], depth + 1); }
      if children == [] && depth == MAX_DEPTH {
        var v: Valuation := leaf => true;
        assert Evaluate(n, depth, v).value != Meaning(n, v);
      }
    case Any(children) =>
      forall i | 0 <= i < |children| { MeansItselfIff(children[i], depth + 1); }
    case Not(child) => MeansItselfIff(child, depth + 1);
    case _ =>
  }

  /** `k` nested one-child `all` nodes around a childless one. */
  function Nest(k: nat): Node
  {
    if k == 0 then All([]) else All([Nest(k - 1)])
  }

  /** The condition is needed: an accepted tree that is plainly true and evaluates to false. */
  lemma {:induction false} NestedEmptyAll(k: nat, v: Valuation)
    requires k < MAX_DEPTH
    ensures Accepted(Nest(k), MAX_DEPTH - k)
    ensures Meaning(Nest(k), v)
    ensures !Evaluate(Nest(k), MAX_DEPTH - k, v).value
    ensures !NoEmptyAllAtLimit(Nest(k), MAX_DEPTH - k)
  {
    if k > 0 { NestedEmptyAll(k - 1, v); }
  }
}
