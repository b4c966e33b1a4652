/** Why the per-event memo changes nothing: every rule has the value it has without, and no predicate is asked
    the same question twice, under a condition that is exact. */
module PredicateMemo {
  import opened CodeUnits
  import opened Options
  import opened Entries
  import opened Canonical
  import opened CanonicalMeaning
  import opened CanonicalKeys
  import opened WhenTree
  import opened Predicates

  // ----- merged arguments as property maps -----

  lemma {:induction false} LookupSetKey(es: seq<Entry<Value>>, key: Text, value: Value, q: Text)
    ensures Lookup(SetKey(es, key, value), q) == if q == key then Some(value) else Lookup(es, q)
  {
    if es != [] {
      LookupSetKey(es[1..], key, value, q);
    }
  }

  /** The merged value of a property: the pinned one if there is one, else the use-site one. */
  lemma {:induction false} LookupMerge(base: seq<Entry<Value>>, pinned: seq<Entry<Value>>, q: Text)
    requires DistinctKeys(pinned)
    ensures Lookup(Merge(base, pinned), q) ==
            if Lookup(pinned, q).Some? && !Lookup(pinned, q).value.Undefined? then Lookup(pinned, q) else Lookup(base, q)
    decreases pinned
  {
    if pinned != [] {
      var e := pinned[0];
      var next := if e.value.Undefined? then base else SetKey(base, e.key, e.value);
      LookupMerge(next, pinned[1..], q);
      LookupSetKey(base, e.key, e.value, q);
      if q == e.key {
        assert Lookup(pinned[1..], q).None?;
      }
    }
  }

  /** JSON data with one value per key. */
  ghost predicate Clean(v: Value) { Plain(v) && WellFormed(v) }

  ghost predicate CleanFields(es: seq<Entry<Value>>)
  {
    DistinctKeys(es) && forall i :: 0 <= i < |es| ==> Clean(es[i].value)
  }

  lemma CleanFieldsIsClean(es: seq<Entry<Value>>)
    ensures CleanFields(es) <==> Clean(Obj(es))
  {
  }

  lemma {:induction false} SetKeys(es: seq<Entry<Value>>, key: Text, value: Value)
    ensures forall i :: 0 <= i < |SetKey(es, key, value)| ==>
                          SetKey(es, key, value)[i].key == key ||
                          exists j :: 0 <= j < |es| && es[j].key == SetKey(es, key, value)[i].key
  {
    if es != [] && es[0].key != key {
      SetKeys(es[1..], key, value);
      var rest := SetKey(es[1..], key, value);
      forall i | 0 <= i < |rest| && rest[i].key != key ensures exists j :: 0 < j < |es| && es[j].key == rest[i].key {
        var j :| 0 <= j < |es[1..]| && es[1..][j].key == rest[i].key;
        assert es[j + 1].key == rest[i].key;
      }
    }
  }

  lemma {:induction false} CleanSetKey(es: seq<Entry<Value>>, key: Text, value: Value)
    requires CleanFields(es) && Clean(value)
    ensures CleanFields(SetKey(es, key, value))
  {
    hide Clean;
    if es != [] && es[0].key != key {
      CleanSetKey(es[1..], key, value);
      SetKeys(es[1..], key, value);
      hide SetKey;
      var rest := SetKey(es[1..], key, value);
      SetNext(es, key, value);
      forall i | 0 <= i < |rest| ensures rest[i].key != es[0].key {
        if rest[i].key != key { var j :| 0 <= j < |es[1..]| && es[1..][j].key == rest[i].key; }
      }
    }
  }

  lemma SetNext(es: seq<Entry<Value>>, key: Text, value: Value)
    requires es != [] && es[0].key != key
    ensures SetKey(es, key, value) == [es[0]] + SetKey(es[1..], key, value)
  {
  }

  ghost predicate CleanPinned(pinned: seq<Entry<Value>>)
  {
    DistinctKeys(pinned) && forall i :: 0 <= i < |pinned| ==> pinned[i].value.Undefined? || Clean(pinned[i].value)
  }

  lemma {:induction false} CleanMerge(base: seq<Entry<Value>>, pinned: seq<Entry<Value>>)
    requires CleanFields(base) && CleanPinned(pinned)
    ensures CleanFields(Merge(base, pinned))
    decreases pinned
  {
    if pinned != [] {
      if !pinned[0].value.Undefined? { CleanSetKey(base, pinned[0].key, pinned[0].value); }
      CleanMerge(if pinned[0].value.Undefined? then base else SetKey(base, pinned[0].key, pinned[0].value), pinned[1..]);
    }
  }

  /** What the arguments of a use site must be for the memo key to tell them apart. */
  ghost predicate CleanArgs(args: seq<Entry<Arg>>)
  {
    && DistinctKeys(args)
    && forall i :: 0 <= i < |args| ==>
                     match args[i].value
                     case Const(v) => Clean(v)
                     case Callback(r) => r.Some? ==> Clean(r.value)
  }

  lemma {:induction false} CleanResolved(args: seq<Entry<Arg>>)
    requires CleanArgs(args) && ResolveArgs(args).Some?
    ensures |ResolveArgs(args).value| == |args|
    ensures forall i :: 0 <= i < |args| ==> ResolveArgs(args).value[i].key == args[i].key
    ensures CleanFields(ResolveArgs(args).value)
  {
    if args != [] { CleanResolved(args[1..]); }
  }

  lemma {:induction false} ResolvedConst(args: seq<Entry<Arg>>, key: Text, v: Value)
    requires ResolveArgs(args).Some? && Lookup(args, key) == Some(Const(v))
    ensures Lookup(ResolveArgs(args).value, key) == Some(v)
  {
    if args[0].key != key { ResolvedConst(args[1..], key, v); }
  }

  // ----- same arguments, same value -----

  lemma LookupAt<T>(es: seq<Entry<T>>, i: nat)
    requires DistinctKeys(es) && i < |es|
    ensures Lookup(es, es[i].key) == Some(es[i].value)
  {
  }

  lemma SameTruth(a: seq<Entry<Value>>, b: seq<Entry<Value>>, key: Text)
    requires DistinctKeys(b) && Same(Obj(a), Obj(b))
    ensures IsTrue(Lookup(a, key)) ==> IsTrue(Lookup(b, key))
  {
    if IsTrue(Lookup(a, key)) {
      var i :| 0 <= i < |a| && a[i] == Entry(key, Bool(true));
      assert key in KeySet(a);
      var j :| 0 <= j < |b| && b[j].key == key;
      assert Same(a[i].value, b[j].value);
      LookupAt(b, j);
    }
  }

  lemma SameSymmetric(a: Value, b: Value)
    requires WellFormed(a) && WellFormed(b)
    ensures Same(a, b) <==> Same(b, a)
  {
    SameIffEqualCanon(a, b);
    SameIffEqualCanon(b, a);
  }

  /** Objects with the same property lookups are the same up to key order. */
  lemma SameByLookup(a: seq<Entry<Value>>, b: seq<Entry<Value>>)
    requires CleanFields(a) && CleanFields(b)
    requires forall q :: Lookup(a, q) == Lookup(b, q)
    ensures Same(Obj(a), Obj(b))
  {
    forall i, j | 0 <= i < |a| && 0 <= j < |b| && a[i].key == b[j].key ensures Same(a[i].value, b[j].value) {
      LookupAt(a, i);
      LookupAt(b, j);
      SameIffEqualCanon(a[i].value, b[j].value);
    }
    forall k | k in KeySet(a) ensures k in KeySet(b) {
      var i :| 0 <= i < |a| && a[i].key == k;
      LookupAt(a, i);
      assert Lookup(b, k).Some?;
    }
    forall k | k in KeySet(b) ensures k in KeySet(a) {
      var i :| 0 <= i < |b| && b[i].key == k;
      LookupAt(b, i);
      assert Lookup(a, k).Some?;
    }
  }

  /** `failOpen` is pinned to `true`, or not pinned. */
  predicate PinsFailOpenOrNothing(p: Predicate)
  {
    var pin := Lookup(p.pinned, FAIL_OPEN);
    pin.None? || pin.value.Undefined? || pin.value == Bool(true)
  }

  ghost predicate ValidDefinitions(reg: Definitions) { forall name :: name in reg ==> CleanPinned(reg[name].pinned) }

  /** A predicate sees its arguments only up to the order of keys. */
  ghost predicate Respects(env: Environment)
  {
    forall name: Text, a: Value, b: Value {:trigger env.invoke(name, a), env.invoke(name, b)} ::
      Clean(a) && Clean(b) && Same(a, b) ==> env.invoke(name, a) == env.invoke(name, b)
  }

  lemma FailIsMergedFlag(p: Predicate, args: seq<Entry<Arg>>)
    requires CleanPinned(p.pinned) && PinsFailOpenOrNothing(p)
    requires ResolveArgs(args).Some?
    ensures var merged := Merge(ResolveArgs(args).value, p.pinned);
            Fail(p, args, merged) == IsTrue(Lookup(merged, FAIL_OPEN))
  {
    LookupMerge(ResolveArgs(args).value, p.pinned, FAIL_OPEN);
    if UseSiteFailOpen(args) { ResolvedConst(args, FAIL_OPEN, Bool(true)); }
  }

  lemma RunDependsOnMerged(env: Environment, name: Text, p: Predicate, a: seq<Entry<Arg>>, b: seq<Entry<Arg>>)
    requires CleanPinned(p.pinned) && PinsFailOpenOrNothing(p) && Respects(env)
    requires CleanArgs(a) && CleanArgs(b) && ResolveArgs(a).Some? && ResolveArgs(b).Some?
    requires Same(Obj(Merge(ResolveArgs(a).value, p.pinned)), Obj(Merge(ResolveArgs(b).value, p.pinned)))
    ensures RunPredicate(env, name, p, a, Merge(ResolveArgs(a).value, p.pinned))
            == RunPredicate(env, name, p, b, Merge(ResolveArgs(b).value, p.pinned))
  {
    var m, n := Merge(ResolveArgs(a).value, p.pinned), Merge(ResolveArgs(b).value, p.pinned);
    CleanCall(p, a);
    CleanCall(p, b);
    FailIsMergedFlag(p, a);
    FailIsMergedFlag(p, b);
    SameSymmetric(Obj(m), Obj(n));
    SameTruth(m, n, FAIL_OPEN);
    SameTruth(n, m, FAIL_OPEN);
    assert env.invoke(name, Obj(m)) == env.invoke(name, Obj(n));
  }

  lemma CleanCall(p: Predicate, args: seq<Entry<Arg>>)
    requires CleanPinned(p.pinned) && CleanArgs(args) && ResolveArgs(args).Some?
    ensures CleanFields(Merge(ResolveArgs(args).value, p.pinned))
    ensures Clean(Obj(Merge(ResolveArgs(args).value, p.pinned)))
  {
    CleanResolved(args);
    CleanMerge(ResolveArgs(args).value, p.pinned);
    CleanFieldsIsClean(Merge(ResolveArgs(args).value, p.pinned));
  }

  // ----- the memo invariant -----

  function KeyOf(c: Call): Text { MemoKey(c.name, Obj(c.merged)) }

  ghost predicate ValidCall(reg: Definitions, env: Environment, c: Call)
  {
    && c.name in reg
    && CleanArgs(c.args) && ResolveArgs(c.args).Some?
    && c.merged == Merge(ResolveArgs(c.args).value, reg[c.name].pinned)
    && c.reply == env.invoke(c.name, Obj(c.merged))
  }

  ghost predicate ValueOf(env: Environment, reg: Definitions, c: Call)
    requires c.name in reg
  {
    RunPredicate(env, c.name, reg[c.name], c.args, c.merged)
  }

  ghost predicate ValidCalls(reg: Definitions, env: Environment, calls: seq<Call>)
  {
    forall i :: 0 <= i < |calls| ==> ValidCall(reg, env, calls[i])
  }

  function Keys(calls: seq<Call>): seq<Text>
  {
    seq(|calls|, i requires 0 <= i < |calls| => KeyOf(calls[i]))
  }

  ghost function Values(reg: Definitions, env: Environment, calls: seq<Call>): seq<bool>
    requires ValidCalls(reg, env, calls)
  {
    seq(|calls|, i requires 0 <= i < |calls| => ValueOf(env, reg, calls[i]))
  }

  /** The table has one row per key: `keys[i]` with `values[i]`. */
  ghost predicate Tabulates(memo: map<Text, bool>, keys: seq<Text>, values: seq<bool>)
  {
    && |keys| == |values|
    && (forall i :: 0 <= i < |keys| ==> keys[i] in memo && memo[keys[i]] == values[i])
    && (forall k :: k in memo ==> k in keys)
    && (forall i, j :: 0 <= i < j < |keys| ==> keys[i] != keys[j])
  }

  lemma TabulatesMore(memo: map<Text, bool>, keys: seq<Text>, values: seq<bool>, key: Text, value: bool)
    requires Tabulates(memo, keys, values) && key !in memo
    ensures Tabulates(memo[key := value], keys + [key], values + [value])
  {
  }

  /** Every slot holds the value of the one call that filled it. */
  ghost predicate MemoInvariant(reg: Definitions, env: Environment, s: State)
  {
    ValidCalls(reg, env, s.calls) && Tabulates(s.memo, Keys(s.calls), Values(reg, env, s.calls))
  }

  /** The conditions under which the memo is transparent. */
  ghost predicate Sound(reg: Definitions, env: Environment)
  {
    ValidDefinitions(reg) && Respects(env) && forall name :: name in reg ==> PinsFailOpenOrNothing(reg[name])
  }

  lemma SameKeySameValue(reg: Definitions, env: Environment, c: Call, d: Call)
    requires Sound(reg, env) && ValidCall(reg, env, c) && ValidCall(reg, env, d)
    requires KeyOf(c) == KeyOf(d)
    ensures ValueOf(env, reg, c) == ValueOf(env, reg, d)
  {
    CleanCall(reg[c.name], c.args);
    CleanCall(reg[d.name], d.args);
    MemoKeyInjective(c.name, Obj(c.merged), d.name, Obj(d.merged));
    RunDependsOnMerged(env, c.name, reg[c.name], c.args, d.args);
  }

  lemma HitHoldsValue(reg: Definitions, env: Environment, s: State, d: Call)
    requires Sound(reg, env) && MemoInvariant(reg, env, s) && ValidCall(reg, env, d)
    requires KeyOf(d) in s.memo
    ensures s.memo[KeyOf(d)] == ValueOf(env, reg, d)
  {
    var i :| 0 <= i < |s.calls| && Keys(s.calls)[i] == KeyOf(d);
    SameKeySameValue(reg, env, s.calls[i], d);
    assert Values(reg, env, s.calls)[i] == ValueOf(env, reg, s.calls[i]);
  }

  lemma NewSlotKeepsInvariant(reg: Definitions, env: Environment, s: State, d: Call)
    requires MemoInvariant(reg, env, s) && ValidCall(reg, env, d)
    requires KeyOf(d) !in s.memo
    ensures MemoInvariant(reg, env, State(s.memo[KeyOf(d) := ValueOf(env, reg, d)], s.calls + [d]))
  {
    TabulatesMore(s.memo, Keys(s.calls), Values(reg, env, s.calls), KeyOf(d), ValueOf(env, reg, d));
    assert Keys(s.calls + [d]) == Keys(s.calls) + [KeyOf(d)];
    assert Values(reg, env, s.calls + [d]) == Values(reg, env, s.calls) + [ValueOf(env, reg, d)];
  }

  lemma UseIsIsolatedValue(reg: Definitions, env: Environment, name: Text, args: seq<Entry<Arg>>, s: State)
    requires Sound(reg, env) && MemoInvariant(reg, env, s) && CleanArgs(args)
    ensures var r := OutcomeOfUse(reg, env, name, args, s);
            r.value == Isolated(reg, env, Use(name, args)) && MemoInvariant(reg, env, r.state)
  {
    if name in reg && ResolveArgs(args).Some? {
      var merged := Merge(ResolveArgs(args).value, reg[name].pinned);
      var d := Call(name, args, merged, env.invoke(name, Obj(merged)));
      assert ValueOf(env, reg, d) == Isolated(reg, env, Use(name, args));
      if KeyOf(d) in s.memo {
        HitHoldsValue(reg, env, s, d);
      } else {
        NewSlotKeepsInvariant(reg, env, s, d);
      }
    }
  }

  // ----- trees and rules -----

  ghost predicate CleanNode(n: Node)
  {
    match n
    case All(children) => forall i :: 0 <= i < |children| ==> CleanNode(children[i])
    case Any(children) => forall i :: 0 <= i < |children| ==> CleanNode(children[i])
    case Not(child) => CleanNode(child)
    case Use(_, args) => CleanArgs(args)
    case Inline(_) => true
  }

  ghost function LeafValues(reg: Definitions, env: Environment): Valuation { n => Isolated(reg, env, n) }

  lemma {:induction false} NodeIsWalk(reg: Definitions, env: Environment, n: Node, depth: nat, s: State)
    requires Sound(reg, env) && MemoInvariant(reg, env, s) && CleanNode(n)
    ensures var r := OutcomeOfNode(reg, env, n, depth, s);
            r.value == Evaluate(n, depth, LeafValues(reg, env)).value && MemoInvariant(reg, env, r.state)
    decreases n, 0
  {
    if depth <= MAX_DEPTH {
      match n
      case Inline(fn) =>
      case Use(name, args) => UseIsIsolatedValue(reg, env, name, args, s);
      case Not(child) => NodeIsWalk(reg, env, child, depth + 1, s);
      case All(children) => ChildrenAreWalked(reg, env, children, 0, true, depth + 1, s);
      case Any(children) => ChildrenAreWalked(reg, env, children, 0, false, depth + 1, s);
    }
  }

  lemma {:induction false} ChildrenAreWalked(reg: Definitions, env: Environment, children: seq<Node>, k: nat,
      goOn: bool, depth: nat, s: State)
    requires k <= |children|
    requires Sound(reg, env) && MemoInvariant(reg, env, s)
    requires forall i :: 0 <= i < |children| ==> CleanNode(children[i])
    ensures var r, v := OutcomeOfChildren(reg, env, children, k, goOn, depth, s), LeafValues(reg, env);
            && r.value == (if goOn then EvaluateAll(children, k, depth, v) else EvaluateAny(children, k, depth, v)).value
            && MemoInvariant(reg, env, r.state)
    decreases children, 1, |children| - k
  {
    if k < |children| {
      NodeIsWalk(reg, env, children[k], depth, s);
      var r := OutcomeOfNode(reg, env, children[k], depth, s);
      if r.value == goOn { ChildrenAreWalked(reg, env, children, k + 1, goOn, depth, r.state); }
    }
  }

  // ----- which leaves are asked -----

  /** The node a path leads to. */
  function NodeAt(n: Node, path: Path): Node
    decreases path
  {
    if path == [] then n
    else
      match n
      case All(children) => if path[0] < |children| then NodeAt(children[path[0]], path[1..]) else n
      case Any(children) => if path[0] < |children| then NodeAt(children[path[0]], path[1..]) else n
      case Not(child) => NodeAt(child, path[1..])
      case _ => n
  }

  /** The leaves at these paths are asked one after the other. */
  function Visit(reg: Definitions, env: Environment, n: Node, paths: seq<Path>, s: State): State
    decreases |paths|
  {
    if paths == [] then s
    else
      var leaf := NodeAt(n, paths[0]);
      Visit(reg, env, n, paths[1..], if leaf.Use? then OutcomeOfUse(reg, env, leaf.name, leaf.args, s).state else s)
  }

  lemma {:induction false} VisitBoth(reg: Definitions, env: Environment, n: Node, a: seq<Path>, b: seq<Path>, s: State)
    ensures Visit(reg, env, n, a + b, s) == Visit(reg, env, n, b, Visit(reg, env, n, a, s))
    decreases |a|
  {
    hide OutcomeOfUse, NodeAt;
    if a == [] {
      assert a + b == b;
    } else {
      assert (a + b)[0] == a[0] && (a + b)[1..] == a[1..] + b;
      var leaf := NodeAt(n, a[0]);
      VisitBoth(reg, env, n, a[1..], b, if leaf.Use? then OutcomeOfUse(reg, env, leaf.name, leaf.args, s).state else s);
    }
  }

  /** The child of a node. */
  predicate IsChild(n: Node, k: nat, child: Node)
  {
    match n
    case All(children) => k < |children| && children[k] == child
    case Any(children) => k < |children| && children[k] == child
    case Not(c) => k == 0 && c == child
    case _ => false
  }

  lemma {:induction false} VisitBelow(reg: Definitions, env: Environment, n: Node, k: nat, child: Node, paths: seq<Path>, s: State)
    requires IsChild(n, k, child)
    ensures Visit(reg, env, n, Below(k, paths), s) == Visit(reg, env, child, paths, s)
    decreases |paths|
  {
    hide OutcomeOfUse;
    if paths != [] {
      assert ([k] + paths[0])[1..] == paths[0];
      assert NodeAt(n, [k] + paths[0]) == NodeAt(child, paths[0]);
      assert Below(k, paths)[0] == [k] + paths[0] && Below(k, paths)[1..] == Below(k, paths[1..]);
      hide NodeAt, IsChild;
      var leaf := NodeAt(child, paths[0]);
      VisitBelow(reg, env, n, k, child, paths[1..], if leaf.Use? then OutcomeOfUse(reg, env, leaf.name, leaf.args, s).state else s);
    }
  }

  /** Evaluating a node leaves the memo and the calls that asking the leaves of its walk leaves. */
  lemma {:induction false} NodeVisits(reg: Definitions, env: Environment, n: Node, depth: nat, s: State)
    requires Sound(reg, env) && MemoInvariant(reg, env, s) && CleanNode(n)
    ensures OutcomeOfNode(reg, env, n, depth, s).state == Visit(reg, env, n, Evaluate(n, depth, LeafValues(reg, env)).visited, s)
    decreases n, 0
  {
    hide OutcomeOfUse, Sound, MemoInvariant;
    if depth <= MAX_DEPTH {
      match n
      case Inline(fn) => VisitLeaf(reg, env, n, s);
      case Use(name, args) => VisitLeaf(reg, env, n, s);
      case Not(child) =>
        if depth < MAX_DEPTH {
          NodeVisits(reg, env, child, depth + 1, s);
          VisitBelow(reg, env, n, 0, child, Evaluate(child, depth + 1, LeafValues(reg, env)).visited, s);
        }
      case All(children) => if depth < MAX_DEPTH { ChildrenVisit(reg, env, n, children, 0, true, depth + 1, s); }
      case Any(children) => if depth < MAX_DEPTH { ChildrenVisit(reg, env, n, children, 0, false, depth + 1, s); }
    }
  }

  lemma VisitLeaf(reg: Definitions, env: Environment, n: Node, s: State)
    ensures Visit(reg, env, n, [[]], s) == if n.Use? then OutcomeOfUse(reg, env, n.name, n.args, s).state else s
  {
    hide OutcomeOfUse;
    var paths: seq<Path> := [[]];
    assert |paths[1..]| == 0 && NodeAt(n, paths[0]) == n;
    assert Visit(reg, env, n, paths[1..], s) == s;
  }

  lemma {:induction false} ChildrenVisit(reg: Definitions, env: Environment, n: Node, children: seq<Node>, k: nat, goOn: bool,
                                         depth: nat, s: State)
    requires k <= |children| && n == (if goOn then All(children) else Any(children))
    requires Sound(reg, env) && MemoInvariant(reg, env, s)
    requires forall i :: 0 <= i < |children| ==> CleanNode(children[i])
    ensures var v := LeafValues(reg, env);
            var walk := if goOn then EvaluateAll(children, k, depth, v) else EvaluateAny(children, k, depth, v);
            OutcomeOfChildren(reg, env, children, k, goOn, depth, s).state == Visit(reg, env, n, walk.visited, s)
    decreases children, 1, |children| - k
  {
    hide OutcomeOfNode, Sound, MemoInvariant, LeafValues, Below;
    if k < |children| {
      var v, r := LeafValues(reg, env), OutcomeOfNode(reg, env, children[k], depth, s);
      NodeIsWalk(reg, env, children[k], depth, s);
      NodeVisits(reg, env, children[k], depth, s);
      VisitBelow(reg, env, n, k, children[k], Evaluate(children[k], depth, v).visited, s);
      if r.value == goOn {
        ChildrenVisit(reg, env, n, children, k + 1, goOn, depth, r.state);
        var rest := if goOn then EvaluateAll(children, k + 1, depth, v) else EvaluateAny(children, k + 1, depth, v);
        VisitBoth(reg, env, n, Below(k, Evaluate(children[k], depth, v).visited), rest.visited, s);
      }
    }
  }

  /** Evaluating a rule asks exactly the leaves that short-circuiting demands, in document order, and no others: the
      memo and the predicate calls it leaves are those. */
  lemma RuleAsksDemanded(reg: Definitions, env: Environment, n: Node, s: State) returns (paths: seq<Path>)
    requires Sound(reg, env) && MemoInvariant(reg, env, s) && CleanNode(n) && Accepted(n, 1)
    ensures VisitsDemanded(Capped(n, 1), LeafValues(reg, env), paths)
    ensures OutcomeOfNode(reg, env, n, 1, s).state == Visit(reg, env, n, paths, s)
  {
    paths := Evaluate(n, 1, LeafValues(reg, env)).visited;
    EvaluateIsMeaning(n, 1, LeafValues(reg, env));
    NodeVisits(reg, env, n, 1, s);
  }

  /** The rules of an event as registration lets them through, over clean arguments. */
  ghost predicate AcceptedRules(rules: seq<Option<Node>>)
  {
    forall i :: 0 <= i < |rules| && rules[i].Some? ==> Accepted(rules[i].value, 1) && CleanNode(rules[i].value)
  }

  /** A rule's value without any memo: plain boolean evaluation of its (capped) tree. */
  ghost predicate RuleMeaning(reg: Definitions, env: Environment, rule: Option<Node>)
  {
    rule.None? || Meaning(Capped(rule.value, 1), LeafValues(reg, env))
  }

  lemma {:induction false} RulesKeepMemo(reg: Definitions, env: Environment, rules: seq<Option<Node>>, s: State)
    requires Sound(reg, env) && MemoInvariant(reg, env, s) && AcceptedRules(rules)
    ensures var r := OutcomeOfRules(reg, env, rules, s);
            && (forall i :: 0 <= i < |rules| ==> r.0[i] == RuleMeaning(reg, env, rules[i]))
            && MemoInvariant(reg, env, r.1)
  {
    if rules != [] {
      var first := if rules[0].None? then Outcome(true, s) else OutcomeOfNode(reg, env, rules[0].value, 1, s);
      if rules[0].Some? {
        NodeIsWalk(reg, env, rules[0].value, 1, s);
        EvaluateIsMeaning(rules[0].value, 1, LeafValues(reg, env));
      }
      RulesKeepMemo(reg, env, rules[1..], first.state);
    }
  }

  /** Evaluating all rules of an event with one shared memo gives every rule its plain meaning, and no two
      predicate calls of the event have the same name and the same arguments. */
  lemma SharedMemoIsTransparent(reg: Definitions, env: Environment, rules: seq<Option<Node>>)
    requires Sound(reg, env) && AcceptedRules(rules)
    ensures var (results, s) := OutcomeOfRules(reg, env, rules, State(map[], []));
            && (forall i :: 0 <= i < |rules| ==> results[i] == RuleMeaning(reg, env, rules[i]))
            && (forall i, j :: 0 <= i < j < |s.calls| ==>
                                 !(s.calls[i].name == s.calls[j].name && Same(Obj(s.calls[i].merged), Obj(s.calls[j].merged))))
  {
    RulesKeepMemo(reg, env, rules, State(map[], []));
    var s := OutcomeOfRules(reg, env, rules, State(map[], [])).1;
    forall i, j | 0 <= i < j < |s.calls|
      ensures !(s.calls[i].name == s.calls[j].name && Same(Obj(s.calls[i].merged), Obj(s.calls[j].merged)))
    {
      var c, d := s.calls[i], s.calls[j];
      CleanCall(reg[c.name], c.args);
      CleanCall(reg[d.name], d.args);
      MemoKeyInjective(c.name, Obj(c.merged), d.name, Obj(d.merged));
      assert Keys(s.calls)[i] != Keys(s.calls)[j];
    }
  }

  // ----- what a leaf answers, said without the evaluator -----

  /** Some callback of the use site throws. */
  ghost predicate Throws(args: seq<Entry<Arg>>) { exists i :: 0 <= i < |args| && args[i].value == Callback(None) }

  /** The arguments a predicate gets: for each property the pinned value where there is one, otherwise the constant
      of the use site or what its callback returns. */
  ghost predicate MergedArguments(m: seq<Entry<Value>>, pinned: seq<Entry<Value>>, args: seq<Entry<Arg>>)
  {
    && CleanFields(m)
    && forall q :: Lookup(m, q) ==
                   match Lookup(pinned, q)
                   case Some(v) => if v.Undefined? then UseSiteValue(args, q) else Some(v)
                   case None => UseSiteValue(args, q)
  }

  function UseSiteValue(args: seq<Entry<Arg>>, q: Text): Option<Value>
  {
    var arg := Lookup(args, q);
    if arg.None? then None else if arg.value.Const? then Some(arg.value.value) else arg.value.result
  }

  /** `failOpen` is `true` where it is pinned or a constant of the use site. */
  predicate KnownFailOpen(pinned: seq<Entry<Value>>, args: seq<Entry<Arg>>)
  {
    Lookup(pinned, FAIL_OPEN) == Some(Bool(true)) || Lookup(args, FAIL_OPEN) == Some(Const(Bool(true)))
  }

  /** The value of a leaf: an inline function's own, if it returned `true`; a use's by what its predicate replies
      to the merged arguments. Rejected arguments and errors count as `failOpen` says, in the merged arguments or as
      it is known before; so does a callback that throws, when only the latter is there. An unknown name counts as
      false. */
  ghost predicate Answers(reg: Definitions, env: Environment, n: Node, value: bool)
  {
    match n
    case Inline(fn) => value <==> env.inline(fn) == Returned(true)
    case Use(name, args) =>
      if name !in reg then !value
      else if Throws(args) then
        value <==> KnownFailOpen(reg[name].pinned, args)
      else
        forall m :: MergedArguments(m, reg[name].pinned, args) ==>
                      var reply := env.invoke(name, Obj(m));
                      value <==> if reply.Returned? then reply.b
                                 else KnownFailOpen(reg[name].pinned, args) || Lookup(m, FAIL_OPEN) == Some(Bool(true))
    case _ => true
  }

  lemma {:induction false} ResolvedLookup(args: seq<Entry<Arg>>, q: Text)
    requires ResolveArgs(args).Some?
    ensures Lookup(ResolveArgs(args).value, q) == UseSiteValue(args, q)
  {
    if args != [] && args[0].key != q { ResolvedLookup(args[1..], q); }
  }

  lemma MergeIsMerged(p: Predicate, args: seq<Entry<Arg>>)
    requires CleanPinned(p.pinned) && CleanArgs(args) && ResolveArgs(args).Some?
    ensures MergedArguments(Merge(ResolveArgs(args).value, p.pinned), p.pinned, args)
  {
    var base := ResolveArgs(args).value;
    CleanCall(p, args);
    hide Merge, ResolveArgs, CleanFields;
    forall q ensures Lookup(Merge(base, p.pinned), q) ==
                     match Lookup(p.pinned, q)
                     case Some(v) => if v.Undefined? then UseSiteValue(args, q) else Some(v)
                     case None => UseSiteValue(args, q)
    {
      LookupMerge(base, p.pinned, q);
      ResolvedLookup(args, q);
    }
  }

  /** All arguments that fit lead to the same reply and the same `failOpen`. */
  lemma MergedAlike(env: Environment, name: Text, pinned: seq<Entry<Value>>, args: seq<Entry<Arg>>, m: seq<Entry<Value>>,
                    n: seq<Entry<Value>>)
    requires Respects(env) && MergedArguments(m, pinned, args) && MergedArguments(n, pinned, args)
    ensures env.invoke(name, Obj(m)) == env.invoke(name, Obj(n)) && Lookup(m, FAIL_OPEN) == Lookup(n, FAIL_OPEN)
  {
    hide Lookup, CleanFields;
    SameByLookup(m, n);
    CleanFieldsIsClean(m);
    CleanFieldsIsClean(n);
  }

  /** The value of a leaf on its own is the one answer there is. */
  lemma IsolatedAnswers(reg: Definitions, env: Environment, n: Node, value: bool)
    requires ValidDefinitions(reg) && Respects(env) && IsLeaf(n) && CleanNode(n)
    ensures Answers(reg, env, n, value) <==> value == Isolated(reg, env, n)
  {
    if n.Use? && n.name in reg {
      ResolvesEach(n.args);
      if !Throws(n.args) { CallAnswers(reg, env, n.name, n.args, value); }
    }
  }

  lemma CallAnswers(reg: Definitions, env: Environment, name: Text, args: seq<Entry<Arg>>, value: bool)
    requires ValidDefinitions(reg) && Respects(env) && name in reg && CleanArgs(args)
    requires ResolveArgs(args).Some? && !Throws(args)
    ensures Answers(reg, env, Use(name, args), value) <==> value == Isolated(reg, env, Use(name, args))
  {
    var p := reg[name];
    var merged := Merge(ResolveArgs(args).value, p.pinned);
    MergeIsMerged(p, args);
    hide Merge, ResolveArgs, MergedArguments, Lookup;
    forall m | MergedArguments(m, p.pinned, args)
      ensures env.invoke(name, Obj(m)) == env.invoke(name, Obj(merged)) && Lookup(m, FAIL_OPEN) == Lookup(merged, FAIL_OPEN)
    {
      MergedAlike(env, name, p.pinned, args, m, merged);
    }
  }

  /** Every leaf over clean arguments has its answer. */
  ghost predicate AnswersAll(reg: Definitions, env: Environment, v: Valuation)
  {
    forall n: Node :: IsLeaf(n) && CleanNode(n) ==> Answers(reg, env, n, v(n))
  }

  /** The meaning of a tree looks only at its leaves. */
  lemma {:induction false} SameLeaves(n: Node, v: Valuation, w: Valuation)
    requires CleanNode(n) && forall leaf: Node :: IsLeaf(leaf) && CleanNode(leaf) ==> v(leaf) == w(leaf)
    ensures Meaning(n, v) == Meaning(n, w)
    decreases n
  {
    match n
    case All(children) => forall i | 0 <= i < |children| { SameLeaves(children[i], v, w); }
    case Any(children) => forall i | 0 <= i < |children| { SameLeaves(children[i], v, w); }
    case Not(child) => SameLeaves(child, v, w);
    case _ =>
  }

  lemma {:induction false} CappedStaysClean(n: Node, depth: nat)
    requires CleanNode(n)
    ensures CleanNode(Capped(n, depth))
    decreases n
  {
    match n
    case All(children) => forall i | 0 <= i < |children| { CappedStaysClean(children[i], depth + 1); }
    case Any(children) => forall i | 0 <= i < |children| { CappedStaysClean(children[i], depth + 1); }
    case Not(child) => CappedStaysClean(child, depth + 1);
    case _ =>
  }

  /** The value of a rule is the meaning of its tree for any leaf values that are the leaves' answers. */
  lemma RuleMeaningFromAnswers(reg: Definitions, env: Environment, rule: Option<Node>, v: Valuation)
    requires Sound(reg, env) && AnswersAll(reg, env, v) && (rule.Some? ==> CleanNode(rule.value))
    ensures RuleMeaning(reg, env, rule) <==> rule.None? || Meaning(Capped(rule.value, 1), v)
  {
    if rule.Some? {
      forall leaf: Node | IsLeaf(leaf) && CleanNode(leaf) ensures LeafValues(reg, env)(leaf) == v(leaf) {
        IsolatedAnswers(reg, env, leaf, v(leaf));
      }
      CappedStaysClean(rule.value, 1);
      SameLeaves(Capped(rule.value, 1), LeafValues(reg, env), v);
    }
  }

  /** There are such leaf values. */
  lemma LeavesHaveAnswers(reg: Definitions, env: Environment)
    requires Sound(reg, env)
    ensures AnswersAll(reg, env, LeafValues(reg, env))
  {
    forall n: Node | IsLeaf(n) && CleanNode(n) ensures Answers(reg, env, n, LeafValues(reg, env)(n)) {
      IsolatedAnswers(reg, env, n, LeafValues(reg, env)(n));
    }
  }

  /** What is known of `failOpen` before is in the merged arguments too, unless it is pinned otherwise. */
  lemma KnownIsMerged(pinned: seq<Entry<Value>>, args: seq<Entry<Arg>>, m: seq<Entry<Value>>)
    requires MergedArguments(m, pinned, args) && KnownFailOpen(pinned, args)
    requires var pin := Lookup(pinned, FAIL_OPEN); pin.None? || pin.value.Undefined? || pin.value == Bool(true)
    ensures Lookup(m, FAIL_OPEN) == Some(Bool(true))
  {
    hide Lookup, CleanFields;
  }

  /** A rule that is a single use: its value is what the predicate returns for the merged arguments, and `failOpen`
      when it does not return. */
  lemma UseOutcome(reg: Definitions, env: Environment, name: Text, args: seq<Entry<Arg>>, m: seq<Entry<Value>>)
    requires Sound(reg, env) && name in reg && CleanArgs(args) && !Throws(args) && MergedArguments(m, reg[name].pinned, args)
    ensures var value := OutcomeOfRules(reg, env, [Some(Use(name, args))], State(map[], [])).0[0];
            var reply := env.invoke(name, Obj(m));
            value <==> if reply.Returned? then reply.b else Lookup(m, FAIL_OPEN) == Some(Bool(true))
  {
    var rules := [Some(Use(name, args))];
    SharedMemoIsTransparent(reg, env, rules);
    IsolatedAnswers(reg, env, Use(name, args), Isolated(reg, env, Use(name, args)));
    if KnownFailOpen(reg[name].pinned, args) { KnownIsMerged(reg[name].pinned, args, m); }
    hide OutcomeOfRules, Isolated, MergedArguments, Throws;
    assert RuleMeaning(reg, env, rules[0]) == Isolated(reg, env, Use(name, args));
  }

  /** One event, from a fresh memo. */
  method EvaluateEvent(reg: Definitions, env: Environment, rules: seq<Option<Node>>) returns (results: seq<bool>)
    requires Sound(reg, env) && AcceptedRules(rules)
    ensures |results| == |rules|
    ensures forall i :: 0 <= i < |rules| ==> results[i] == RuleMeaning(reg, env, rules[i])
    ensures forall v: Valuation, i :: AnswersAll(reg, env, v) && 0 <= i < |rules| ==>
                                        (results[i] <==> rules[i].None? || Meaning(Capped(rules[i].value, 1), v))
  {
    hide AnswersAll, RuleMeaning, Sound;
    var evaluation := new Evaluation(reg, env);
    results := evaluation.Run(rules);
    SharedMemoIsTransparent(reg, env, rules);
    forall v: Valuation, i | AnswersAll(reg, env, v) && 0 <= i < |rules|
      ensures results[i] <==> rules[i].None? || Meaning(Capped(rules[i].value, 1), v)
    {
      RuleMeaningFromAnswers(reg, env, rules[i], v);
    }
  }

  // ----- the condition on `failOpen` is exact -----

  /** Whatever predicates do and whatever rules ask, the memo changes no rule's value. */
  ghost predicate MemoTransparent(reg: Definitions)
  {
    forall env: Environment, rules: seq<Option<Node>> {:trigger OutcomeOfRules(reg, env, rules, State(map[], []))} ::
      Respects(env) && AcceptedRules(rules) ==>
        forall i :: 0 <= i < |rules| ==>
                      OutcomeOfRules(reg, env, rules, State(map[], [])).0[i] == RuleMeaning(reg, env, rules[i])
  }

  /** Two uses of one failing predicate, the second asking to fail open. */
  ghost function Conflict(name: Text): seq<Option<Node>>
  {
    [Some(Use(name, [])), Some(Use(name, [Entry(FAIL_OPEN, Const(Bool(true)))]))]
  }

  ghost function AllThrow(): Environment { Environment(fn => Threw, (name, args) => Threw) }

  lemma ConflictSharesKey(reg: Definitions, name: Text)
    requires ValidDefinitions(reg) && name in reg && !PinsFailOpenOrNothing(reg[name])
    ensures MemoKey(name, Obj(Merge([], reg[name].pinned)))
            == MemoKey(name, Obj(Merge([Entry(FAIL_OPEN, Bool(true))], reg[name].pinned)))
    ensures !IsTrue(Lookup(Merge([], reg[name].pinned), FAIL_OPEN))
  {
    var pinned := reg[name].pinned;
    var flag := [Entry(FAIL_OPEN, Bool(true))];
    var a, b := Merge([], pinned), Merge(flag, pinned);
    CleanMerge([], pinned);
    CleanMerge(flag, pinned);
    forall q ensures Lookup(a, q) == Lookup(b, q) {
      LookupMerge([], pinned, q);
      LookupMerge(flag, pinned, q);
      assert Lookup(flag[1..], q).None?;
    }
    LookupMerge([], pinned, FAIL_OPEN);
    SameByLookup(a, b);
    CleanFieldsIsClean(a);
    CleanFieldsIsClean(b);
    MemoKeyInjective(name, Obj(a), name, Obj(b));
  }

  lemma StaleUse(reg: Definitions, name: Text)
    requires ValidDefinitions(reg) && name in reg && !PinsFailOpenOrNothing(reg[name])
    ensures var flagged := [Entry(FAIL_OPEN, Const(Bool(true)))];
            var first := OutcomeOfUse(reg, AllThrow(), name, [], State(map[], []));
            !OutcomeOfUse(reg, AllThrow(), name, flagged, first.state).value
  {
    hide MemoKey, Merge;
    var flagged := [Entry(FAIL_OPEN, Const(Bool(true)))];
    ConflictSharesKey(reg, name);
    assert ResolveArgs([]) == Some([]);
    assert flagged[1..] == [] && ResolveArgs(flagged[1..]) == Some([]);
    assert ResolveArgs(flagged).value == [Entry(FAIL_OPEN, Bool(true))];
    assert OutcomeOfUse(reg, AllThrow(), name, [], State(map[], [])).state.memo
           == map[MemoKey(name, Obj(Merge([], reg[name].pinned))) := false];
  }

  lemma ConflictBreaksMemo(reg: Definitions, name: Text)
    requires ValidDefinitions(reg) && name in reg && !PinsFailOpenOrNothing(reg[name])
    ensures Respects(AllThrow()) && AcceptedRules(Conflict(name))
    ensures !OutcomeOfRules(reg, AllThrow(), Conflict(name), State(map[], [])).0[1]
    ensures RuleMeaning(reg, AllThrow(), Conflict(name)[1])
  {
    var env, rules := AllThrow(), Conflict(name);
    var flagged := [Entry(FAIL_OPEN, Const(Bool(true)))];
    var empty := State(map[], []);
    var first := OutcomeOfUse(reg, env, name, [], empty);
    StaleUse(reg, name);
    hide OutcomeOfUse, ResolveArgs, Merge, Fail, RunPredicate;
    assert rules[1..] == [rules[1]] && rules[1..][1..] == [];
    assert OutcomeOfNode(reg, env, rules[0].value, 1, empty) == first;
    assert OutcomeOfRules(reg, env, rules[1..], first.state).0[0] == OutcomeOfUse(reg, env, name, flagged, first.state).value;
    assert UseSiteFailOpen(flagged);
  }

  /** The memo is transparent for a registry exactly when every predicate pins `failOpen` to `true` or not
      at all. */
  lemma MemoTransparentIff(reg: Definitions)
    requires ValidDefinitions(reg)
    ensures MemoTransparent(reg) <==> forall name :: name in reg ==> PinsFailOpenOrNothing(reg[name])
  {
    if forall name :: name in reg ==> PinsFailOpenOrNothing(reg[name]) {
      forall env: Environment, rules: seq<Option<Node>> | Respects(env) && AcceptedRules(rules)
        ensures forall i :: 0 <= i < |rules| ==>
                              OutcomeOfRules(reg, env, rules, State(map[], [])).0[i] == RuleMeaning(reg, env, rules[i])
      {
        SharedMemoIsTransparent(reg, env, rules);
      }
    } else {
      var name :| name in reg && !PinsFailOpenOrNothing(reg[name]);
      ConflictBreaksMemo(reg, name);
    }
  }
}
