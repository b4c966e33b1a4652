/** Predicate resolution with the per-event memo, and evaluation of an event's rules. All that a predicate
    depends on within one event is in its `Environment`. */
module Predicates {
  import opened CodeUnits
  import opened Options
  import opened Entries
  import opened Canonical
  import opened CanonicalKeys
  import opened WhenTree

  datatype Predicate = Predicate(pinned: seq<Entry<Value>>)

  /** The registered predicates by name. */
  type Definitions = map<Text, Predicate>

  /** Arguments rejected by the schema, a returned boolean, or a throw. */
  datatype Reply = Rejected | Returned(b: bool) | Threw

  datatype Environment = Environment(inline: nat -> Reply, invoke: (Text, Value) -> Reply)

  /** The property name `failOpen`. */
  const FAIL_OPEN: Text := [0x66, 0x61, 0x69, 0x6C, 0x4F, 0x70, 0x65, 0x6E]

  // ----- arguments -----

  /** Use-site arguments with callbacks resolved in key order; nothing when a callback throws. */
  function ResolveArgs(args: seq<Entry<Arg>>): Option<seq<Entry<Value>>>
  {
    if args == [] then Some([])
    else
      var v := if args[0].value.Const? then Some(args[0].value.value) else args[0].value.result;
      if v.None? then None
      else
        var rest := ResolveArgs(args[1..]);
        if rest.None? then None else Some([Entry(args[0].key, v.value)] + rest.value)
  }

  /** Property assignment: replaces the value of a key that is there, adds the key otherwise. */
  function SetKey(es: seq<Entry<Value>>, key: Text, value: Value): seq<Entry<Value>>
  {
    if es == [] then [Entry(key, value)]
    else if es[0].key == key then [Entry(key, value)] + es[1..]
    else [es[0]] + SetKey(es[1..], key, value)
  }

  /** Pinned arguments win over use-site ones, unless they are `undefined`. */
  function Merge(base: seq<Entry<Value>>, pinned: seq<Entry<Value>>): seq<Entry<Value>>
    decreases pinned
  {
    if pinned == [] then base
    else Merge(if pinned[0].value.Undefined? then base else SetKey(base, pinned[0].key, pinned[0].value), pinned[1..])
  }

  predicate IsTrue(v: Option<Value>) { v == Some(Bool(true)) }

  predicate PinnedFailOpen(p: Predicate) { IsTrue(Lookup(p.pinned, FAIL_OPEN)) }

  predicate UseSiteFailOpen(args: seq<Entry<Arg>>) { Lookup(args, FAIL_OPEN) == Some(Const(Bool(true))) }

  /** The value of a failed predicate. */
  predicate Fail(p: Predicate, args: seq<Entry<Arg>>, merged: seq<Entry<Value>>)
  {
    PinnedFailOpen(p) || UseSiteFailOpen(args) || IsTrue(Lookup(merged, FAIL_OPEN))
  }

  // ----- without memo -----

  predicate RunPredicate(env: Environment, name: Text, p: Predicate, args: seq<Entry<Arg>>, merged: seq<Entry<Value>>)
  {
    match env.invoke(name, Obj(merged))
    case Returned(b) => b
    case Rejected | Threw => Fail(p, args, merged)
  }

  /** A leaf evaluated on its own. */
  predicate Isolated(reg: Definitions, env: Environment, n: Node)
  {
    match n
    case Inline(fn) => env.inline(fn) == Returned(true)
    case Use(name, args) =>
      if name !in reg then false
      else
        var p := reg[name];
        var useArgs := ResolveArgs(args);
        if useArgs.None? then Fail(p, args, [])
        else RunPredicate(env, name, p, args, Merge(useArgs.value, p.pinned))
    case _ => false
  }

  // ----- with memo -----

  /** One memo slot as it was filled. `reply` tells whether the predicate itself ran. */
  datatype Call = Call(name: Text, args: seq<Entry<Arg>>, merged: seq<Entry<Value>>, reply: Reply)

  datatype State = State(memo: map<Text, bool>, calls: seq<Call>)

  datatype Outcome = Outcome(value: bool, state: State)

  /** `unknown` is the value of a use whose name is not registered. */
  function OutcomeOfUse(reg: Definitions, env: Environment, name: Text, args: seq<Entry<Arg>>, s: State,
                        unknown: bool := false): Outcome
  {
    if name !in reg then Outcome(unknown, s)
    else
      var p := reg[name];
      var useArgs := ResolveArgs(args);
      if useArgs.None? then Outcome(Fail(p, args, []), s)
      else
        var merged := Merge(useArgs.value, p.pinned);
        var key := MemoKey(name, Obj(merged));
        if key in s.memo then Outcome(s.memo[key], s)
        else
          var value := RunPredicate(env, name, p, args, merged);
          Outcome(value, State(s.memo[key := value], s.calls + [Call(name, args, merged, env.invoke(name, Obj(merged)))]))
  }

  function OutcomeOfNode(reg: Definitions, env: Environment, n: Node, depth: nat, s: State, unknown: bool := false): Outcome
    decreases n, 0
  {
    if depth > MAX_DEPTH then Outcome(false, s)
    else
      match n
      case Inline(fn) => Outcome(env.inline(fn) == Returned(true), s)
      case Use(name, args) => OutcomeOfUse(reg, env, name, args, s, unknown)
      case Not(child) =>
        if depth >= MAX_DEPTH then Outcome(false, s)
        else
          var r := OutcomeOfNode(reg, env, child, depth + 1, s, unknown);
          Outcome(!r.value, r.state)
      case All(children) =>
        if depth >= MAX_DEPTH then Outcome(false, s)
        else OutcomeOfChildren(reg, env, children, 0, true, depth + 1, s, unknown)
      case Any(children) =>
        if depth >= MAX_DEPTH then Outcome(false, s)
        else OutcomeOfChildren(reg, env, children, 0, false, depth + 1, s, unknown)
  }

  /** Children from `k` on, as long as they yield `goOn`. */
  function OutcomeOfChildren(reg: Definitions, env: Environment, children: seq<Node>, k: nat, goOn: bool, depth: nat,
                             s: State, unknown: bool := false): Outcome
    requires k <= |children|
    decreases children, 1, |children| - k
  {
    if k == |children| then Outcome(goOn, s)
    else
      var r := OutcomeOfNode(reg, env, children[k], depth, s, unknown);
      if r.value != goOn then r else OutcomeOfChildren(reg, env, children, k + 1, goOn, depth, r.state, unknown)
  }

  /** An event's rules in dispatch order: a rule without condition matches. */
  function OutcomeOfRules(reg: Definitions, env: Environment, rules: seq<Option<Node>>, s: State, unknown: bool := false)
    : (r: (seq<bool>, State))
    ensures |r.0| == |rules|
  {
    if rules == [] then ([], s)
    else
      var first := if rules[0].None? then Outcome(true, s) else OutcomeOfNode(reg, env, rules[0].value, 1, s, unknown);
      var rest := OutcomeOfRules(reg, env, rules[1..], first.state, unknown);
      ([first.value] + rest.0, rest.1)
  }

  // ----- the evaluator as the source has it -----

  lemma Prepended(done: seq<Entry<Value>>, e: Entry<Value>, rest: Option<seq<Entry<Value>>>)
    requires rest.Some?
    ensures done + ([e] + rest.value) == done + [e] + rest.value
  {
  }

  /** What an argument comes to: a value, or nothing when its callback throws. */
  function ArgValue(arg: Arg): Option<Value>
  {
    match arg
    case Const(v) => Some(v)
    case Callback(r) => r
  }

  /** Resolution takes the arguments one by one, and comes to nothing exactly when some callback throws. */
  lemma {:induction false} ResolvesEach(args: seq<Entry<Arg>>)
    ensures ResolveArgs(args).None? <==> exists i :: 0 <= i < |args| && args[i].value == Callback(None)
    ensures var r := ResolveArgs(args);
            r.Some? ==> |r.value| == |args|
                        && forall i :: 0 <= i < |args| ==> r.value[i].key == args[i].key && ArgValue(args[i].value) == Some(r.value[i].value)
  {
    if args != [] {
      ResolvesEach(args[1..]);
      if ResolveArgs(args[1..]).None? {
        var i :| 0 <= i < |args[1..]| && args[1..][i].value == Callback(None);
        assert args[i + 1].value == Callback(None);
      }
      assert forall i :: 1 <= i < |args| ==> args[i] == args[1..][i - 1];
    }
  }

  method ResolveArguments(args: seq<Entry<Arg>>) returns (r: Option<seq<Entry<Value>>>)
    ensures r == ResolveArgs(args)
    ensures r.None? <==> exists i :: 0 <= i < |args| && args[i].value == Callback(None)
    ensures r.Some? ==> |r.value| == |args|
                        && forall i :: 0 <= i < |args| ==> r.value[i].key == args[i].key && ArgValue(args[i].value) == Some(r.value[i].value)
  {
    ResolvesEach(args);
    var useArgs: seq<Entry<Value>> := [];
    assert args[0..] == args;
    assert ResolveArgs(args).Some? ==> useArgs + ResolveArgs(args).value == ResolveArgs(args).value;
    for i := 0 to |args|
      invariant ResolveArgs(args) ==
                if ResolveArgs(args[i..]).None? then None else Some(useArgs + ResolveArgs(args[i..]).value)
    {
      var v := if args[i].value.Const? then Some(args[i].value.value) else args[i].value.result;
      assert args[i..][1..] == args[i + 1..];
      if v.None? {
        return None;
      }
      ghost var rest := ResolveArgs(args[i + 1..]);
      if rest.Some? { Prepended(useArgs, Entry(args[i].key, v.value), rest); }
      useArgs := useArgs + [Entry(args[i].key, v.value)];
    }
    assert useArgs + [] == useArgs;
    return Some(useArgs);
  }

  method MergeArguments(useArgs: seq<Entry<Value>>, pinned: seq<Entry<Value>>) returns (merged: seq<Entry<Value>>)
    ensures merged == Merge(useArgs, pinned)
  {
    merged := useArgs;
    assert pinned[0..] == pinned;
    for i := 0 to |pinned|
      invariant Merge(merged, pinned[i..]) == Merge(useArgs, pinned)
    {
      assert pinned[i..][1..] == pinned[i + 1..];
      if !pinned[i].value.Undefined? {
        merged := SetKey(merged, pinned[i].key, pinned[i].value);
      }
    }
  }

  class Evaluation {
    const reg: Definitions
    const env: Environment
    var memo: map<Text, bool>
    var calls: seq<Call>

    constructor (reg: Definitions, env: Environment)
      ensures this.reg == reg && this.env == env && Current() == State(map[], [])
    {
      this.reg := reg;
      this.env := env;
      memo := map[];
      calls := [];
    }

    function Current(): State
      reads this
    {
      State(memo, calls)
    }

    method ResolveUse(name: Text, args: seq<Entry<Arg>>) returns (result: bool)
      modifies this
      ensures Outcome(result, Current()) == OutcomeOfUse(reg, env, name, args, old(Current()))
    {
      if name !in reg {
        return false;
      }
      var p := reg[name];
      var merged: seq<Entry<Value>> := [];
      var pinnedFailOpen, useSiteFailOpen := PinnedFailOpen(p), UseSiteFailOpen(args);
      var useArgs := ResolveArguments(args);
      if useArgs.None? {
        return pinnedFailOpen || useSiteFailOpen || IsTrue(Lookup(merged, FAIL_OPEN));
      }
      merged := MergeArguments(useArgs.value, p.pinned);
      var key := MemoKey(name, Obj(merged));
      if key in memo {
        return memo[key];
      }
      var reply := env.invoke(name, Obj(merged));
      match reply {
        case Returned(b) => result := b;
        case _ => result := pinnedFailOpen || useSiteFailOpen || IsTrue(Lookup(merged, FAIL_OPEN));
      }
      memo := memo[key := result];
      calls := calls + [Call(name, args, merged, reply)];
    }

    method EvaluateNode(n: Node, depth: nat) returns (result: bool)
      modifies this
      ensures Outcome(result, Current()) == OutcomeOfNode(reg, env, n, depth, old(Current()))
      decreases n
    {
      if depth > MAX_DEPTH {
        return false;
      }
      if n.Inline? {
        return env.inline(n.fn) == Returned(true);
      }
      if !n.Use? && depth >= MAX_DEPTH {
        return false;
      }
      match n {
        case All(children) =>
          for k := 0 to |children|
            invariant OutcomeOfChildren(reg, env, children, 0, true, depth + 1, old(Current()))
                      == OutcomeOfChildren(reg, env, children, k, true, depth + 1, Current())
          {
            var v := EvaluateNode(children[k], depth + 1);
            if !v { return false; }
          }
          return true;
        case Any(children) =>
          for k := 0 to |children|
            invariant OutcomeOfChildren(reg, env, children, 0, false, depth + 1, old(Current()))
                      == OutcomeOfChildren(reg, env, children, k, false, depth + 1, Current())
          {
            var v := EvaluateNode(children[k], depth + 1);
            if v { return true; }
          }
          return false;
        case Not(child) =>
          var v := EvaluateNode(child, depth + 1);
          return !v;
        case Use(name, args) =>
          result := ResolveUse(name, args);
      }
    }

    /** The rule loop of one event: one memo for all rules. */
    method Run(rules: seq<Option<Node>>) returns (results: seq<bool>)
      modifies this
      ensures (results, Current()) == OutcomeOfRules(reg, env, rules, old(Current()))
    {
      hide OutcomeOfRules, OutcomeOfNode;
      results := [];
      assert rules[0..] == rules;
      ghost var start := Current();
      for i := 0 to |rules|
        invariant OutcomeOfRules(reg, env, rules, start).0 == results + OutcomeOfRules(reg, env, rules[i..], Current()).0
        invariant OutcomeOfRules(reg, env, rules, start).1 == OutcomeOfRules(reg, env, rules[i..], Current()).1
      {
        NextRule(reg, env, rules, i, Current());
        var whenResult := true;
        if rules[i].Some? {
          whenResult := EvaluateNode(rules[i].value, 1);
        }
        results := results + [whenResult];
      }
      NoMoreRules(reg, env, rules[|rules|..], Current());
      assert results + [] == results;
    }
  }

  lemma NextRule(reg: Definitions, env: Environment, rules: seq<Option<Node>>, i: nat, s: State)
    requires i < |rules|
    ensures var first := if rules[i].None? then Outcome(true, s) else OutcomeOfNode(reg, env, rules[i].value, 1, s);
            var rest := OutcomeOfRules(reg, env, rules[i + 1..], first.state);
            OutcomeOfRules(reg, env, rules[i..], s) == ([first.value] + rest.0, rest.1)
  {
    assert rules[i..][1..] == rules[i + 1..];
  }

  lemma NoMoreRules(reg: Definitions, env: Environment, rules: seq<Option<Node>>, s: State)
    requires rules == []
    ensures OutcomeOfRules(reg, env, rules, s) == ([], s)
  {
  }
}
