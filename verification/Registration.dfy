/** Registration: a batch of entities becomes a registry when nothing is wrong with it, and is rejected with all
    its issues otherwise. */
module Registration {
  import opened AggregateStrategy
  import opened CodeUnits
  import opened Options
  import Predicates
  import opened WhenTree

  // ----- entities; `argIssues` is what the schema has to say about the pinned arguments -----

  datatype PredicateEntity = PredicateEntity(name: Text, definition: Predicates.Predicate, argIssues: seq<Text>)

  /** `on` is the event an aggregated action is for; the others have no use for it. */
  datatype Action = Action(name: Text, on: Text, argIssues: seq<Text>)

  datatype Integration = Integration(name: Text)

  datatype RuleKind = PlainRule | AggregateRule | ScheduleRule

  datatype RuleEntity = RuleEntity(name: Text, on: Text, when: Option<Node>, kind: RuleKind,
      attachments: seq<Text>, argIssues: seq<Text>)

  datatype Batch = Batch(
    predicates: seq<PredicateEntity>,
    actions: seq<Action>,
    aggregatedActions: seq<Action>,
    scheduledActions: seq<Action>,
    integrations: seq<Integration>,
    rules: seq<RuleEntity>)

  datatype Issue =
    | DuplicateName(name: Text)
    | DuplicateActionName(name: Text)
    | WhenDepthExceeded(rule: Text)
    | UnknownPredicate(rule: Text, name: Text)
    | UnknownAction(rule: Text, name: Text)
    | KindMismatch(rule: Text, name: Text)
    | OnMismatch(rule: Text, name: Text)
    | MissingAggregatedAction(rule: Text)
    | MissingScheduledAction(rule: Text)
    | InvalidArgs(name: Text, message: Text)

  datatype KindedAction = KindedAction(kind: Kind, action: Action)

  /** Entities are filed by name, in the order of registration. */
  datatype Registry = Registry(
    predicates: seq<PredicateEntity>,
    integrations: seq<Integration>,
    rules: seq<RuleEntity>,
    actionByName: map<Text, KindedAction>,
    dispatch: map<Text, seq<RuleEntity>>)

  // ----- well-formed batches -----

  function PredicateName(p: PredicateEntity): Text { p.name }
  function IntegrationName(i: Integration): Text { i.name }
  function RuleName(r: RuleEntity): Text { r.name }
  function ActionName(a: KindedAction): Text { a.action.name }

  predicate DistinctNames<T(==)>(es: seq<T>, name: T -> Text)
  {
    forall i, j :: 0 <= i < j < |es| ==> name(es[i]) != name(es[j])
  }

  function Kinded(kind: Kind, es: seq<Action>): (r: seq<KindedAction>)
    ensures |r| == |es| && forall i :: 0 <= i < |es| ==> r[i] == KindedAction(kind, es[i])
  {
    if es == [] then [] else [KindedAction(kind, es[0])] + Kinded(kind, es[1..])
  }

  /** All actions, in the order they are filed. */
  function AllActions(b: Batch): seq<KindedAction>
  {
    Kinded(Plain, b.actions) + Kinded(Aggregated, b.aggregatedActions) + Kinded(Scheduled, b.scheduledActions)
  }

  /** Every predicate used in the tree is among `names`. */
  ghost predicate UsesKnown(n: Node, names: set<Text>)
  {
    match n
    case Inline(_) => true
    case Use(name, _) => name in names
    case Not(child) => UsesKnown(child, names)
    case All(children) => forall i :: 0 <= i < |children| ==> UsesKnown(children[i], names)
    case Any(children) => forall i :: 0 <= i < |children| ==> UsesKnown(children[i], names)
  }

  /** The tree may be as deep as the limit and uses only registered predicates. */
  ghost predicate WhenOk(r: RuleEntity, names: set<Text>)
  {
    r.when.Some? ==> Accepted(r.when.value, 1) && UsesKnown(r.when.value, names)
  }

  /** The name leads to an action that the rule's strategy allows. */
  predicate AttachmentOk(r: RuleEntity, name: Text, actions: map<Text, KindedAction>)
  {
    && name in actions
    && (actions[name].kind == Aggregated ==> r.kind == AggregateRule && actions[name].action.on == r.on)
    && (actions[name].kind == Scheduled ==> r.kind == ScheduleRule)
  }

  predicate HasKind(r: RuleEntity, kind: Kind, actions: map<Text, KindedAction>)
  {
    exists i :: 0 <= i < |r.attachments| && r.attachments[i] in actions && actions[r.attachments[i]].kind == kind
  }

  ghost predicate RuleOk(r: RuleEntity, names: set<Text>, actions: map<Text, KindedAction>)
  {
    && WhenOk(r, names)
    && (forall i :: 0 <= i < |r.attachments| ==> AttachmentOk(r, r.attachments[i], actions))
    && (r.kind == AggregateRule ==> HasKind(r, Aggregated, actions))
    && (r.kind == ScheduleRule ==> HasKind(r, Scheduled, actions))
  }

  function NamesOf(es: seq<PredicateEntity>): set<Text> { set i | 0 <= i < |es| :: es[i].name }

  function ActionMap(es: seq<KindedAction>): map<Text, KindedAction>
  {
    if es == [] then map[]
    else
      var m, e := ActionMap(es[..|es| - 1]), es[|es| - 1];
      if e.action.name in m then m else m[e.action.name := e]
  }

  ghost predicate WellFormedBatch(b: Batch)
  {
    && DistinctNames(b.predicates, PredicateName)
    && DistinctNames(b.integrations, IntegrationName)
    && DistinctNames(b.rules, RuleName)
    && DistinctNames(AllActions(b), ActionName)
    && (forall i :: 0 <= i < |b.rules| ==> RuleOk(b.rules[i], NamesOf(b.predicates), ActionMap(AllActions(b))))
    && (forall i :: 0 <= i < |b.predicates| ==> b.predicates[i].argIssues == [])
    && (forall i :: 0 <= i < |AllActions(b)| ==> AllActions(b)[i].action.argIssues == [])
    && (forall i :: 0 <= i < |b.rules| ==> b.rules[i].argIssues == [])
  }

  // ----- collecting by name -----

  /** The first of each name is kept. */
  method AddUnique<T(==)>(es: seq<T>, name: T -> Text, issues: seq<Issue>) returns (kept: seq<T>, found: seq<Issue>)
    ensures found == [] <==> issues == [] && DistinctNames(es, name)
    ensures found == [] ==> kept == es
  {
    kept, found := [], issues;
    var names: set<Text> := {};
    for i := 0 to |es|
      invariant forall x :: x in names <==> exists j :: 0 <= j < i && name(es[j]) == x
      invariant found == [] <==> issues == [] && DistinctNames(es[..i], name)
      invariant found == [] ==> kept == es[..i]
    {
      assert es[..i + 1] == es[..i] + [es[i]];
      if name(es[i]) in names {
        found := found + [DuplicateName(name(es[i]))];
        var j :| 0 <= j < i && name(es[j]) == name(es[i]);
        assert es[..i + 1][j] == es[j] && es[..i + 1][i] == es[i];
      } else {
        kept := kept + [es[i]];
      }
      names := names + {name(es[i])};
    }
    assert es[..|es|] == es;
  }

  lemma {:induction false} ActionMapNames(es: seq<KindedAction>)
    ensures forall x :: x in ActionMap(es) <==> exists j :: 0 <= j < |es| && es[j].action.name == x
  {
    if es != [] { ActionMapNames(es[..|es| - 1]); }
  }

  /** The lookup over all three kinds. */
  method AddActionLookup(es: seq<KindedAction>, issues: seq<Issue>) returns (byName: map<Text, KindedAction>, found: seq<Issue>)
    ensures byName == ActionMap(es)
    ensures found == [] <==> issues == [] && DistinctNames(es, ActionName)
  {
    byName, found := map[], issues;
    for i := 0 to |es|
      invariant byName == ActionMap(es[..i])
      invariant found == [] <==> issues == [] && forall j, k :: 0 <= j < k < i ==> es[j].action.name != es[k].action.name
    {
      ActionMapNames(es[..i]);
      assert es[..i + 1][..i] == es[..i];
      if es[i].action.name in byName {
        found := found + [DuplicateActionName(es[i].action.name)];
        var j :| 0 <= j < i && es[..i][j].action.name == es[i].action.name;
        assert es[j].action.name == es[i].action.name;
      } else {
        assert forall j :: 0 <= j < i ==> es[..i][j] == es[j];
        byName := byName[es[i].action.name := es[i]];
      }
    }
    assert es[..|es|] == es;
  }

  // ----- the checks of a rule -----

  method CheckUse(n: Node, depth: nat, rule: Text, names: set<Text>, issues: seq<Issue>) returns (found: seq<Issue>)
    ensures found == [] <==> issues == [] && Accepted(n, depth) && UsesKnown(n, names)
    decreases n, 0
  {
    found := issues;
    if depth > MAX_DEPTH {
      found := found + [WhenDepthExceeded(rule)];
      return;
    }
    match n {
      case Inline(_) =>
      case Use(name, _) =>
        if name !in names {
          found := found + [UnknownPredicate(rule, name)];
        }
      case All(children) => found := CheckChildren(children, depth + 1, rule, names, found);
      case Any(children) => found := CheckChildren(children, depth + 1, rule, names, found);
      case Not(child) => found := CheckUse(child, depth + 1, rule, names, found);
    }
  }

  method CheckChildren(children: seq<Node>, depth: nat, rule: Text, names: set<Text>, issues: seq<Issue>)
    returns (found: seq<Issue>)
    ensures found == [] <==>
              issues == [] && forall i :: 0 <= i < |children| ==> Accepted(children[i], depth) && UsesKnown(children[i], names)
    decreases children, 1
  {
    found := issues;
    for k := 0 to |children|
      invariant found == [] <==>
                  issues == [] && forall i :: 0 <= i < k ==> Accepted(children[i], depth) && UsesKnown(children[i], names)
    {
      found := CheckUse(children[k], depth, rule, names, found);
    }
  }

  method CheckAttachments(r: RuleEntity, actions: map<Text, KindedAction>, issues: seq<Issue>) returns (found: seq<Issue>)
    ensures found == [] <==>
              && issues == [] && (forall i :: 0 <= i < |r.attachments| ==> AttachmentOk(r, r.attachments[i], actions))
              && (r.kind == AggregateRule ==> HasKind(r, Aggregated, actions))
              && (r.kind == ScheduleRule ==> HasKind(r, Scheduled, actions))
  {
    found := issues;
    var hasAggregated, hasScheduled := false, false;
    for k := 0 to |r.attachments|
      invariant found == [] <==> issues == [] && forall i :: 0 <= i < k ==> AttachmentOk(r, r.attachments[i], actions)
      invariant hasAggregated <==>
                  exists i :: 0 <= i < k && r.attachments[i] in actions && actions[r.attachments[i]].kind == Aggregated
      invariant hasScheduled <==>
                  exists i :: 0 <= i < k && r.attachments[i] in actions && actions[r.attachments[i]].kind == Scheduled
    {
      var name := r.attachments[k];
      if name !in actions {
        found := found + [UnknownAction(r.name, name)];
        continue;
      }
      if actions[name].kind == Aggregated {
        hasAggregated := true;
        if r.kind != AggregateRule {
          found := found + [KindMismatch(r.name, name)];
        }
        if actions[name].action.on != r.on {
          found := found + [OnMismatch(r.name, name)];
        }
      } else if actions[name].kind == Scheduled {
        hasScheduled := true;
        if r.kind != ScheduleRule {
          found := found + [KindMismatch(r.name, name)];
        }
      }
    }
    if r.kind == AggregateRule && !hasAggregated {
      found := found + [MissingAggregatedAction(r.name)];
    }
    if r.kind == ScheduleRule && !hasScheduled {
      found := found + [MissingScheduledAction(r.name)];
    }
  }

  method CheckRules(rules: seq<RuleEntity>, names: set<Text>, actions: map<Text, KindedAction>, issues: seq<Issue>)
    returns (found: seq<Issue>)
    ensures found == [] <==> issues == [] && forall i :: 0 <= i < |rules| ==> RuleOk(rules[i], names, actions)
  {
    hide AttachmentOk, HasKind, Accepted, UsesKnown;
    found := issues;
    for k := 0 to |rules|
      invariant found == [] <==> issues == [] && forall i :: 0 <= i < k ==> RuleOk(rules[i], names, actions)
    {
      if rules[k].when.Some? {
        found := CheckUse(rules[k].when.value, 1, rules[k].name, names, found);
      }
      found := CheckAttachments(rules[k], actions, found);
    }
  }

  /** Schema issues are passed on one by one. */
  method ValidateArgs(name: Text, argIssues: seq<Text>, issues: seq<Issue>) returns (found: seq<Issue>)
    ensures found == [] <==> issues == [] && argIssues == []
  {
    found := issues;
    for i := 0 to |argIssues|
      invariant found == [] <==> issues == [] && i == 0
    {
      found := found + [InvalidArgs(name, argIssues[i])];
    }
  }

  method ValidateAll<T>(es: seq<T>, name: T -> Text, argIssues: T -> seq<Text>, issues: seq<Issue>) returns (found: seq<Issue>)
    ensures found == [] <==> issues == [] && forall i :: 0 <= i < |es| ==> argIssues(es[i]) == []
  {
    found := issues;
    for k := 0 to |es|
      invariant found == [] <==> issues == [] && forall i :: 0 <= i < k ==> argIssues(es[i]) == []
    {
      found := ValidateArgs(name(es[k]), argIssues(es[k]), found);
    }
  }

  // ----- the dispatch index -----

  function RulesOn(rules: seq<RuleEntity>, event: Text): seq<RuleEntity>
  {
    if rules == [] then []
    else RulesOn(rules[..|rules| - 1], event) + if rules[|rules| - 1].on == event then [rules[|rules| - 1]] else []
  }

  /** An event's list, which is missing when no rule is for the event. */
  function ListFor(dispatch: map<Text, seq<RuleEntity>>, event: Text): seq<RuleEntity>
  {
    if event in dispatch then dispatch[event] else []
  }

  method BuildDispatch(rules: seq<RuleEntity>) returns (dispatch: map<Text, seq<RuleEntity>>)
    ensures forall event :: ListFor(dispatch, event) == RulesOn(rules, event)
    ensures forall event :: event in dispatch ==> dispatch[event] != []
  {
    dispatch := map[];
    for i := 0 to |rules|
      invariant forall event :: ListFor(dispatch, event) == RulesOn(rules[..i], event)
      invariant forall event :: event in dispatch ==> dispatch[event] != []
    {
      assert rules[..i + 1][..i] == rules[..i];
      ghost var before := dispatch;
      var list := ListFor(dispatch, rules[i].on);
      dispatch := dispatch[rules[i].on := list + [rules[i]]];
      forall event ensures ListFor(dispatch, event) == RulesOn(rules[..i + 1], event) {
        assert ListFor(before, event) == RulesOn(rules[..i], event);
      }
    }
    assert rules[..|rules|] == rules;
  }

  // ----- building the registry -----

  datatype Outcome = Built(registry: Registry) | Refused(issues: seq<Issue>)

  lemma DistinctInEach(b: Batch)
    requires DistinctNames(AllActions(b), ActionName)
    ensures DistinctNames(Kinded(Plain, b.actions), ActionName)
    ensures DistinctNames(Kinded(Aggregated, b.aggregatedActions), ActionName)
    ensures DistinctNames(Kinded(Scheduled, b.scheduledActions), ActionName)
  {
    hide Kinded, DistinctNames;
    var x, y, z := Kinded(Plain, b.actions), Kinded(Aggregated, b.aggregatedActions), Kinded(Scheduled, b.scheduledActions);
    assert AllActions(b) == [] + x + (y + z) == x + y + z == x + y + z + [];
    DistinctInPart([], x, y + z, ActionName);
    DistinctInPart(x, y, z, ActionName);
    DistinctInPart(x + y, z, [], ActionName);
  }

  lemma DistinctInPart<T>(before: seq<T>, part: seq<T>, after: seq<T>, name: T -> Text)
    requires DistinctNames(before + part + after, name)
    ensures DistinctNames(part, name)
  {
    assert forall i :: 0 <= i < |part| ==> (before + part + after)[|before| + i] == part[i];
  }

  /** The actions of all kinds, each kind filed on its own before the common lookup. */
  method FileActions(b: Batch, issues: seq<Issue>)
    returns (all: seq<KindedAction>, byName: map<Text, KindedAction>, found: seq<Issue>)
    ensures found == [] <==> issues == [] && DistinctNames(AllActions(b), ActionName)
    ensures found == [] ==> all == AllActions(b) && byName == ActionMap(AllActions(b))
  {
    hide DistinctNames, Kinded, ActionMap;
    var plain, aggregated, scheduled;
    plain, found := AddUnique(Kinded(Plain, b.actions), ActionName, issues);
    aggregated, found := AddUnique(Kinded(Aggregated, b.aggregatedActions), ActionName, found);
    scheduled, found := AddUnique(Kinded(Scheduled, b.scheduledActions), ActionName, found);
    all := plain + aggregated + scheduled;
    byName, found := AddActionLookup(all, found);
    if DistinctNames(AllActions(b), ActionName) { DistinctInEach(b); }
  }

  /** The registry holds the batch as it is, and its dispatch index the rules of each event. */
  ghost predicate Holds(reg: Registry, b: Batch)
  {
    && reg.predicates == b.predicates && reg.integrations == b.integrations && reg.rules == b.rules
    && reg.actionByName == ActionMap(AllActions(b))
    && forall event :: ListFor(reg.dispatch, event) == RulesOn(b.rules, event)
  }

  /** The batch is accepted exactly when it is well-formed, and then filed as it is. */
  method BuildRegistry(b: Batch) returns (r: Outcome)
    ensures r.Built? <==> WellFormedBatch(b)
    ensures r.Built? ==> Holds(r.registry, b)
    ensures r.Refused? ==> r.issues != []
  {
    hide DistinctNames, ActionMap, AllActions, RuleOk, NamesOf;
    var predicates, issues := AddUnique(b.predicates, PredicateName, []);
    var actions, actionByName;
    var integrations, rules;
    actions, actionByName, issues := FileActions(b, issues);
    integrations, issues := AddUnique(b.integrations, IntegrationName, issues);
    rules, issues := AddUnique(b.rules, RuleName, issues);
    issues := CheckRules(rules, NamesOf(predicates), actionByName, issues);
    issues := ValidateAll(predicates, PredicateName, (p: PredicateEntity) => p.argIssues, issues);
    issues := ValidateAll(actions, ActionName, (a: KindedAction) => a.action.argIssues, issues);
    issues := ValidateAll(rules, RuleName, (r: RuleEntity) => r.argIssues, issues);
    if |issues| > 0 {
      return Refused(issues);
    }
    var dispatch := BuildDispatch(rules);
    r := Built(Registry(predicates, integrations, rules, actionByName, dispatch));
  }

  // ----- what a registry guarantees -----

  /** Every rule is in the list of its event and in no other, at the place it has among the rules of that event. */
  lemma {:induction false} DispatchedOnce(rules: seq<RuleEntity>, i: nat, event: Text)
    requires i < |rules|
    ensures rules[i].on == event ==>
              |RulesOn(rules[..i], event)| < |RulesOn(rules, event)|
                  && RulesOn(rules, event)[|RulesOn(rules[..i], event)|] == rules[i]
    ensures rules[i].on != event && DistinctNames(rules, RuleName) ==> rules[i] !in RulesOn(rules, event)
  {
    OnlyThatEvent(rules, event);
    if i < |rules| - 1 {
      DispatchedOnce(rules[..|rules| - 1], i, event);
      assert rules[..|rules| - 1][..i] == rules[..i];
    }
  }

  lemma {:induction false} OnlyThatEvent(rules: seq<RuleEntity>, event: Text)
    ensures forall r :: r in RulesOn(rules, event) ==> r.on == event && r in rules
  {
    if rules != [] { OnlyThatEvent(rules[..|rules| - 1], event); }
  }

  function KindsOf(actions: map<Text, KindedAction>): Kinds
  {
    map name | name in actions :: actions[name].kind
  }

  /** A matched plain rule queues each of its attachments, in order. */
  lemma {:induction false} PlainRulesQueueAll(r: RuleEntity, actions: map<Text, KindedAction>, names: seq<Text>)
    requires r.kind == PlainRule && forall i :: 0 <= i < |names| ==> AttachmentOk(r, names[i], actions)
    ensures var queued := PlainActions(KindsOf(actions), names);
            |queued| == |names| && forall i :: 0 <= i < |names| ==> queued[i] == QueuedPlain(names[i])
  {
    if names != [] {
      var init, last := names[..|names| - 1], names[|names| - 1];
      PlainRulesQueueAll(r, actions, init);
      assert AttachmentOk(r, last, actions);
    }
  }

  /** An aggregating rule has an aggregated action to fire, and every attachment is queued in one of its two
      rounds. */
  lemma AggregateRulesCanFire(r: RuleEntity, names: set<Text>, actions: map<Text, KindedAction>, rule: Rule)
    requires r.kind == AggregateRule && RuleOk(r, names, actions) && rule.attachments == r.attachments
    ensures exists a :: AggregatedIn(KindsOf(actions), rule, a)
    ensures forall a :: a in r.attachments ==> IsAggregated(KindsOf(actions), a) || IsPlain(KindsOf(actions), a)
  {
    var i :| 0 <= i < |r.attachments| && r.attachments[i] in actions && actions[r.attachments[i]].kind == Aggregated;
    assert AggregatedIn(KindsOf(actions), rule, r.attachments[i]);
    forall a | a in r.attachments ensures IsAggregated(KindsOf(actions), a) || IsPlain(KindsOf(actions), a) {
      assert AttachmentOk(r, a, actions);
    }
  }

  // ----- evaluation never meets an unknown name -----

  /** What evaluation looks names up in. */
  function DefinitionsOf(es: seq<PredicateEntity>): Predicates.Definitions
  {
    if es == [] then map[] else DefinitionsOf(es[..|es| - 1])[es[|es| - 1].name := es[|es| - 1].definition]
  }

  lemma {:induction false} DefinedNames(es: seq<PredicateEntity>)
    ensures NamesOf(es) == DefinitionsOf(es).Keys
  {
    if es != [] {
      var init, last := es[..|es| - 1], es[|es| - 1];
      DefinedNames(init);
      assert es == init + [last];
      assert NamesOf(es) == NamesOf(init) + {last.name} by {
        assert forall i :: 0 <= i < |init| ==> es[i] == init[i];
        assert es[|init|] == last;
      }
    } else {
      assert NamesOf(es) == {};
    }
  }

  lemma {:induction false} DefinitionFound(es: seq<PredicateEntity>, i: nat)
    requires DistinctNames(es, PredicateName) && i < |es|
    ensures es[i].name in DefinitionsOf(es) && DefinitionsOf(es)[es[i].name] == es[i].definition
  {
    if i < |es| - 1 {
      DefinitionFound(es[..|es| - 1], i);
      assert PredicateName(es[i]) != PredicateName(es[|es| - 1]);
    }
  }

  lemma {:induction false} ActionFound(es: seq<KindedAction>, i: nat)
    requires DistinctNames(es, ActionName) && i < |es|
    ensures es[i].action.name in ActionMap(es) && ActionMap(es)[es[i].action.name] == es[i]
  {
    if i < |es| - 1 {
      ActionFound(es[..|es| - 1], i);
      assert ActionName(es[i]) != ActionName(es[|es| - 1]);
    } else {
      ActionMapNames(es[..i]);
      assert forall j :: 0 <= j < i ==> es[..i][j] == es[j] && ActionName(es[j]) != ActionName(es[i]);
      assert es[i].action.name !in ActionMap(es[..i]);
    }
  }

  /** In the registry built of a batch every predicate and every action is found under its name, with the kind it was
      registered as, and none of them has anything wrong with its pinned arguments. */
  lemma EntitiesFound(b: Batch, reg: Registry, i: nat)
    requires WellFormedBatch(b) && Holds(reg, b)
    ensures i < |b.predicates| ==>
              var p := b.predicates[i];
              p.name in DefinitionsOf(reg.predicates) && DefinitionsOf(reg.predicates)[p.name] == p.definition && p.argIssues == []
    ensures i < |b.actions| ==> FoundAs(reg, b.actions[i], Plain)
    ensures i < |b.aggregatedActions| ==> FoundAs(reg, b.aggregatedActions[i], Aggregated)
    ensures i < |b.scheduledActions| ==> FoundAs(reg, b.scheduledActions[i], Scheduled)
  {
    hide DistinctNames, ActionMap, Kinded, RuleOk, NamesOf, DefinitionsOf;
    var all, n, m := AllActions(b), |b.actions|, |b.aggregatedActions|;
    if i < |b.predicates| { DefinitionFound(b.predicates, i); }
    if i < |b.actions| { ActionFound(all, i); }
    if i < |b.aggregatedActions| { ActionFound(all, n + i); }
    if i < |b.scheduledActions| { ActionFound(all, n + m + i); }
  }

  /** No two entities of a kind share a name. */
  lemma NamesAreUnique(b: Batch, reg: Registry, i: nat, j: nat)
    requires WellFormedBatch(b) && Holds(reg, b) && i < j
    ensures j < |reg.predicates| ==> reg.predicates[i].name != reg.predicates[j].name
    ensures j < |reg.integrations| ==> reg.integrations[i].name != reg.integrations[j].name
    ensures j < |reg.rules| ==> reg.rules[i].name != reg.rules[j].name
  {
    hide RuleOk, ActionMap, AllActions, NamesOf;
    assert j < |reg.predicates| ==> PredicateName(reg.predicates[i]) != PredicateName(reg.predicates[j]);
    assert j < |reg.integrations| ==> IntegrationName(reg.integrations[i]) != IntegrationName(reg.integrations[j]);
    assert j < |reg.rules| ==> RuleName(reg.rules[i]) != RuleName(reg.rules[j]);
  }

  predicate FoundAs(reg: Registry, a: Action, kind: Kind)
  {
    a.name in reg.actionByName && reg.actionByName[a.name] == KindedAction(kind, a) && a.argIssues == []
  }

  /** The rules that are dispatched for an event: each is for that event, its condition is no deeper than the limit
      and uses registered predicates only, and each of its attachments is a registered action that its strategy can
      run: an aggregated action only in an aggregating rule and only of that event, a scheduled one only in a
      scheduling rule. Aggregating and scheduling rules have an action of their kind. */
  lemma DispatchedRulesAreSound(b: Batch, reg: Registry, event: Text, i: nat)
    requires WellFormedBatch(b) && Holds(reg, b) && i < |ListFor(reg.dispatch, event)|
    ensures var r := ListFor(reg.dispatch, event)[i];
            && r.on == event && r.argIssues == []
            && (r.when.Some? ==> Accepted(r.when.value, 1) && UsesKnown(r.when.value, DefinitionsOf(reg.predicates).Keys))
            && (forall a :: a in r.attachments ==>
                              && a in reg.actionByName
                              && match reg.actionByName[a].kind
                                 case Plain => true
                                 case Aggregated => r.kind == AggregateRule && reg.actionByName[a].action.on == event
                                 case Scheduled => r.kind == ScheduleRule)
            && (r.kind == AggregateRule ==> exists a :: a in r.attachments && reg.actionByName[a].kind == Aggregated)
            && (r.kind == ScheduleRule ==> exists a :: a in r.attachments && reg.actionByName[a].kind == Scheduled)
  {
    hide DistinctNames, ActionMap, AllActions, NamesOf, DefinitionsOf, Accepted, UsesKnown;
    var r := ListFor(reg.dispatch, event)[i];
    OnlyThatEvent(b.rules, event);
    DefinedNames(b.predicates);
    assert r in b.rules;
    var j :| 0 <= j < |b.rules| && b.rules[j] == r;
    assert RuleOk(r, NamesOf(b.predicates), ActionMap(AllActions(b)));
    forall a | a in r.attachments ensures AttachmentOk(r, a, reg.actionByName) {
      var k :| 0 <= k < |r.attachments| && r.attachments[k] == a;
    }
    if r.kind == AggregateRule { HasOfKind(r, Aggregated, reg.actionByName); }
    if r.kind == ScheduleRule { HasOfKind(r, Scheduled, reg.actionByName); }
  }

  lemma HasOfKind(r: RuleEntity, kind: Kind, actions: map<Text, KindedAction>)
    requires HasKind(r, kind, actions)
    ensures exists a :: a in r.attachments && a in actions && actions[a].kind == kind
  {
    var i :| 0 <= i < |r.attachments| && r.attachments[i] in actions && actions[r.attachments[i]].kind == kind;
    assert r.attachments[i] in r.attachments;
  }

  /** A tree over registered names has the same outcome whatever an unknown name would yield. */
  lemma {:induction false} NodeIgnoresFallback(defs: Predicates.Definitions, env: Predicates.Environment, n: Node, depth: nat,
                                               s: Predicates.State)
    requires UsesKnown(n, defs.Keys)
    ensures Predicates.OutcomeOfNode(defs, env, n, depth, s, true) == Predicates.OutcomeOfNode(defs, env, n, depth, s, false)
    decreases n, 0
  {
    match n
    case Inline(_) =>
    case Use(name, args) => hide Predicates.ResolveArgs, Predicates.Merge, Predicates.RunPredicate, Predicates.Fail;
    case Not(child) => NodeIgnoresFallback(defs, env, child, depth + 1, s);
    case All(children) => ChildrenIgnoreFallback(defs, env, children, 0, true, depth + 1, s);
    case Any(children) => ChildrenIgnoreFallback(defs, env, children, 0, false, depth + 1, s);
  }

  lemma {:induction false} ChildrenIgnoreFallback(defs: Predicates.Definitions, env: Predicates.Environment, children: seq<Node>,
                                                  k: nat, goOn: bool, depth: nat, s: Predicates.State)
    requires forall i :: 0 <= i < |children| ==> UsesKnown(children[i], defs.Keys)
    requires k <= |children|
    ensures Predicates.OutcomeOfChildren(defs, env, children, k, goOn, depth, s, true)
            == Predicates.OutcomeOfChildren(defs, env, children, k, goOn, depth, s, false)
    decreases children, 1, |children| - k
  {
    if k < |children| {
      NodeIgnoresFallback(defs, env, children[k], depth, s);
      var r := Predicates.OutcomeOfNode(defs, env, children[k], depth, s, false);
      ChildrenIgnoreFallback(defs, env, children, k + 1, goOn, depth, r.state);
    }
  }

  function Conditions(rules: seq<RuleEntity>): (r: seq<Option<Node>>)
    ensures |r| == |rules| && forall i :: 0 <= i < |rules| ==> r[i] == rules[i].when
  {
    if rules == [] then [] else [rules[0].when] + Conditions(rules[1..])
  }

  lemma {:induction false} RulesIgnoreFallback(defs: Predicates.Definitions, env: Predicates.Environment, rules: seq<Option<Node>>,
                                               s: Predicates.State)
    requires forall i :: 0 <= i < |rules| && rules[i].Some? ==> UsesKnown(rules[i].value, defs.Keys)
    ensures Predicates.OutcomeOfRules(defs, env, rules, s, true) == Predicates.OutcomeOfRules(defs, env, rules, s, false)
  {
    if rules != [] {
      hide Predicates.OutcomeOfNode;
      if rules[0].Some? { NodeIgnoresFallback(defs, env, rules[0].value, 1, s); }
      var first := if rules[0].None? then Predicates.Outcome(true, s)
                   else Predicates.OutcomeOfNode(defs, env, rules[0].value, 1, s, false);
      RulesIgnoreFallback(defs, env, rules[1..], first.state);
    }
  }

  /** In the registry built of a batch, evaluating the rules of any event comes out the same whatever an unknown
      name would yield: no rule takes the fallback. */
  lemma NoFallback(b: Batch, reg: Registry, env: Predicates.Environment, event: Text, s: Predicates.State)
    requires WellFormedBatch(b) && Holds(reg, b)
    ensures var defs, rules := DefinitionsOf(reg.predicates), Conditions(ListFor(reg.dispatch, event));
            Predicates.OutcomeOfRules(defs, env, rules, s, true) == Predicates.OutcomeOfRules(defs, env, rules, s, false)
  {
    var defs, list := DefinitionsOf(reg.predicates), ListFor(reg.dispatch, event);
    DefinedNames(b.predicates);
    OnlyThatEvent(b.rules, event);
    forall i | 0 <= i < |list| && list[i].when.Some? ensures UsesKnown(list[i].when.value, defs.Keys) {
      assert list[i] in b.rules;
      assert RuleOk(list[i], NamesOf(b.predicates), ActionMap(AllActions(b)));
    }
    RulesIgnoreFallback(defs, env, Conditions(list), s);
  }

  /** A use of a name that is not registered does take it. */
  lemma UnknownNameFallsBack(defs: Predicates.Definitions, env: Predicates.Environment, name: Text, s: Predicates.State)
    requires name !in defs
    ensures var rules := [Some(Use(name, []))];
            Predicates.OutcomeOfRules(defs, env, rules, s, true) != Predicates.OutcomeOfRules(defs, env, rules, s, false)
  {
    var rules := [Some(Use(name, []))];
    assert Predicates.OutcomeOfRules(defs, env, rules, s, true).0[0] && !Predicates.OutcomeOfRules(defs, env, rules, s, false).0[0];
  }

  /** The rules of a built registry are what the plain and the aggregating strategy need them to be. */
  lemma BuiltRulesQueue(b: Batch, reg: Registry, i: nat)
    requires WellFormedBatch(b) && Holds(reg, b) && i < |reg.rules|
    ensures var r, kinds := reg.rules[i], KindsOf(reg.actionByName);
            && (r.kind == PlainRule ==> PlainActions(kinds, r.attachments)
                                        == seq(|r.attachments|, k requires 0 <= k < |r.attachments| => QueuedPlain(r.attachments[k])))
            && (r.kind == AggregateRule ==> forall rule: Rule :: rule.attachments == r.attachments ==>
                                                                   exists a :: AggregatedIn(kinds, rule, a))
  {
    var r := reg.rules[i];
    assert RuleOk(r, NamesOf(b.predicates), ActionMap(AllActions(b)));
    if r.kind == PlainRule { PlainRulesQueueAll(r, reg.actionByName, r.attachments); }
    if r.kind == AggregateRule {
      forall rule: Rule | rule.attachments == r.attachments ensures exists a :: AggregatedIn(KindsOf(reg.actionByName), rule, a) {
        AggregateRulesCanFire(r, NamesOf(b.predicates), reg.actionByName, rule);
      }
    }
  }
}
