/** Prioritised rules: a list kept sorted through additions and removals, and its evaluation. */
module RuleEngines {
  import opened Prelude

  datatype Json =
    | Null
    | Bool(b: bool)
    | Number(n: real)
    | String(s: string)
    | Array(items: seq<Json>)

  datatype LogicalOperator = And | Or

  datatype ComparisonOperator =
    | Equals | NotEquals
    | GreaterThan | LessThan | GreaterThanOrEqual | LessThanOrEqual
    | Contains | NotContains
    | Matches
    | In | NotIn

  datatype Condition = Condition(field: string, operator: ComparisonOperator, value: Json)

  datatype ConditionGroup = ConditionGroup(operator: LogicalOperator, conditions: seq<Condition>)

  datatype Action = Action(kind: string, params: string)

  datatype Rule = Rule(
    id: string,
    enabled: bool,
    priority: int,
    conditions: ConditionGroup,
    actions: seq<Action>)

  /** What evaluation asks of its surroundings: field values, text and pattern search, and the handlers. */
  datatype Context = Context(
    field: string -> Json,
    containsText: (Json, Json) -> bool,
    matchesPattern: (Json, Json) -> bool,
    execute: Action -> Option<string>)

  datatype EvaluationResult = EvaluationResult(
    ruleId: string,
    matched: bool,
    actionsExecuted: seq<string>,
    error: Option<string>)

  // ---- Conditions ----

  function CompareStrings(a: string, b: string): int {
    if a == [] && b == [] then 0
    else if a == [] then -1
    else if b == [] then 1
    else if a[0] < b[0] then -1
    else if a[0] > b[0] then 1
    else CompareStrings(a[1..], b[1..])
  }

  /** Values of different kinds, and kinds without an order, compare as equal. */
  function CompareValues(a: Json, b: Json): int {
    match (a, b)
    case (String(s), String(t)) => CompareStrings(s, t)
    case (Number(m), Number(n)) => if m < n then -1 else if m > n then 1 else 0
    case (Bool(p), Bool(q)) => if p == q then 0 else if q then -1 else 1
    case _ => 0
  }

  lemma {:induction false} StringsOrdered(a: string, b: string)
    ensures CompareStrings(a, b) == -CompareStrings(b, a)
    ensures CompareStrings(a, b) == 0 <==> a == b
  {
    if a != [] && b != [] {
      StringsOrdered(a[1..], b[1..]);
      assert a == [a[0]] + a[1..] && b == [b[0]] + b[1..];
    }
  }

  lemma {:induction false} StringsTransitive(a: string, b: string, c: string)
    requires CompareStrings(a, b) <= 0 && CompareStrings(b, c) <= 0
    ensures CompareStrings(a, c) <= 0
  {
    if a != [] && b != [] && c != [] && a[0] == b[0] == c[0] {
      StringsTransitive(a[1..], b[1..], c[1..]);
    }
  }

  predicate SameScalarKind(a: Json, b: Json) {
    (a.String? && b.String?) || (a.Number? && b.Number?) || (a.Bool? && b.Bool?)
  }

  /** Comparison is antisymmetric everywhere, and finds two values equal exactly when they are or cannot be compared. */
  lemma ComparisonIsAntisymmetric(a: Json, b: Json)
    ensures CompareValues(a, b) == -CompareValues(b, a)
    ensures CompareValues(a, b) == 0 <==> a == b || !SameScalarKind(a, b)
  {
    if a.String? && b.String? {
      StringsOrdered(a.s, b.s);
    }
  }

  /** On the values of one scalar kind it is a total order. */
  lemma ComparisonIsOrder(a: Json, b: Json, c: Json)
    requires SameScalarKind(a, b) && SameScalarKind(b, c)
    ensures CompareValues(a, b) <= 0 || CompareValues(b, a) <= 0
    ensures CompareValues(a, b) <= 0 && CompareValues(b, a) <= 0 ==> a == b
    ensures CompareValues(a, b) <= 0 && CompareValues(b, c) <= 0 ==> CompareValues(a, c) <= 0
  {
    ComparisonIsAntisymmetric(a, b);
    if a.String? && CompareValues(a, b) <= 0 && CompareValues(b, c) <= 0 {
      StringsTransitive(a.s, b.s, c.s);
    }
  }

  predicate ValueInArray(value: Json, list: Json) {
    list.Array? && value in list.items
  }

  predicate EvaluateCondition(c: Condition, ctx: Context) {
    var v := ctx.field(c.field);
    match c.operator
    case Equals => CompareValues(v, c.value) == 0
    case NotEquals => CompareValues(v, c.value) != 0
    case GreaterThan => CompareValues(v, c.value) > 0
    case LessThan => CompareValues(v, c.value) < 0
    case GreaterThanOrEqual => CompareValues(v, c.value) >= 0
    case LessThanOrEqual => CompareValues(v, c.value) <= 0
    case Contains => ctx.containsText(v, c.value)
    case NotContains => !ctx.containsText(v, c.value)
    case Matches => ctx.matchesPattern(v, c.value)
    case In => ValueInArray(v, c.value)
    case NotIn => !ValueInArray(v, c.value)
  }

  predicate EvaluateGroup(g: ConditionGroup, ctx: Context) {
    match g.operator
    case And => forall c :: c in g.conditions ==> EvaluateCondition(c, ctx)
    case Or => exists c :: c in g.conditions && EvaluateCondition(c, ctx)
  }

  // ---- Which way comparisons go ----

  /** `a` is a proper prefix of `b`, or has the smaller character where they first differ. */
  ghost predicate ComesBefore(a: string, b: string) {
    exists n: nat :: FirstDifference(a, b, n) && n < |b| && (n < |a| ==> a[n] < b[n])
  }

  /** The strings agree before position n, and there one ends or they differ. */
  ghost predicate FirstDifference(a: string, b: string, n: nat) {
    && n <= |a| && n <= |b| && a[..n] == b[..n]
    && (n < |a| && n < |b| ==> a[n] != b[n])
  }

  lemma DifferenceBehind(a: string, b: string, n: nat)
    requires a != [] && b != [] && a[0] == b[0]
    ensures FirstDifference(a, b, n + 1) <==> FirstDifference(a[1..], b[1..], n)
    ensures !FirstDifference(a, b, 0)
  {
    if n < |a| && n < |b| {
      assert a[..n + 1] == [a[0]] + a[1..][..n] && b[..n + 1] == [b[0]] + b[1..][..n];
      if a[..n + 1] == b[..n + 1] {
        assert a[1..][..n] == a[..n + 1][1..] && b[1..][..n] == b[..n + 1][1..];
      }
    }
  }

  lemma DifferenceAtHead(a: string, b: string, n: nat)
    requires FirstDifference(a, b, n)
    ensures n == 0 || (a != [] && b != [] && a[0] == b[0])
  {
    if n > 0 {
      assert a[..n][0] == b[..n][0];
    }
  }

  lemma {:induction false} StringsCompareByFirstDifference(a: string, b: string)
    ensures CompareStrings(a, b) < 0 <==> ComesBefore(a, b)
  {
    if a == [] || b == [] || a[0] != b[0] {
      assert FirstDifference(a, b, 0);
      forall n: nat | FirstDifference(a, b, n)
        ensures n == 0
      {
        DifferenceAtHead(a, b, n);
      }
    } else {
      StringsCompareByFirstDifference(a[1..], b[1..]);
      DifferenceBehind(a, b, 0);
      if n: nat :| FirstDifference(a, b, n) && n < |b| && (n < |a| ==> a[n] < b[n]) {
        DifferenceBehind(a, b, n - 1);
        assert FirstDifference(a[1..], b[1..], n - 1);
      }
      if n: nat :| FirstDifference(a[1..], b[1..], n) && n < |b[1..]| && (n < |a[1..]| ==> a[1..][n] < b[1..][n]) {
        DifferenceBehind(a, b, n);
        assert FirstDifference(a, b, n + 1);
      }
    }
  }

  /** The smaller number, false, and the string that comes before. */
  ghost predicate IsLess(a: Json, b: Json) {
    match (a, b)
    case (Number(m), Number(n)) => m < n
    case (Bool(p), Bool(q)) => !p && q
    case (String(s), String(t)) => ComesBefore(s, t)
    case _ => false
  }

  lemma LessIs(a: Json, b: Json)
    ensures CompareValues(a, b) < 0 <==> IsLess(a, b)
  {
    if a.String? && b.String? {
      StringsCompareByFirstDifference(a.s, b.s);
    }
  }

  /** What each operator asks of the field's value `v`. */
  ghost predicate Asks(op: ComparisonOperator, v: Json, value: Json, ctx: Context) {
    match op
    case Equals => v == value || !SameScalarKind(v, value)
    case NotEquals => v != value && SameScalarKind(v, value)
    case LessThan => IsLess(v, value)
    case GreaterThan => IsLess(value, v)
    case LessThanOrEqual => !IsLess(value, v)
    case GreaterThanOrEqual => !IsLess(v, value)
    case Contains => ctx.containsText(v, value)
    case NotContains => !ctx.containsText(v, value)
    case Matches => ctx.matchesPattern(v, value)
    case In => value.Array? && exists i :: 0 <= i < |value.items| && value.items[i] == v
    case NotIn => value.Array? ==> forall i :: 0 <= i < |value.items| ==> value.items[i] != v
  }

  /** A condition holds exactly when the field's value does what its operator asks. */
  lemma ConditionHoldsIff(c: Condition, ctx: Context)
    ensures EvaluateCondition(c, ctx) <==> Asks(c.operator, ctx.field(c.field), c.value, ctx)
  {
    var v := ctx.field(c.field);
    ComparisonIsAntisymmetric(v, c.value);
    LessIs(v, c.value);
    LessIs(c.value, v);
  }

  /** An `equals` condition holds exactly when the values are equal or cannot be compared. */
  lemma EqualsHoldsIff(c: Condition, ctx: Context)
    requires c.operator == Equals
    ensures EvaluateCondition(c, ctx) <==> ctx.field(c.field) == c.value || !SameScalarKind(ctx.field(c.field), c.value)
  {
    ComparisonIsAntisymmetric(ctx.field(c.field), c.value);
  }

  /** So a missing field, which reads as null, equals every value: here a string no field holds. */
  lemma MissingFieldEqualsAnything()
    ensures var ctx := Context(f => Null, (a, b) => false, (a, b) => false, a => None);
            EvaluateCondition(Condition("product.category", Equals, String("perishable")), ctx)
            && ctx.field("product.category") != String("perishable")
  {
  }

  /** The operator that holds exactly when this one does not. Pattern matching has none and stands for itself. */
  function Opposite(op: ComparisonOperator): ComparisonOperator {
    match op
    case Equals => NotEquals
    case NotEquals => Equals
    case GreaterThan => LessThanOrEqual
    case LessThan => GreaterThanOrEqual
    case GreaterThanOrEqual => LessThan
    case LessThanOrEqual => GreaterThan
    case Contains => NotContains
    case NotContains => Contains
    case Matches => Matches
    case In => NotIn
    case NotIn => In
  }

  function Negated(g: ConditionGroup): (r: ConditionGroup)
    ensures |r.conditions| == |g.conditions|
  {
    ConditionGroup(
      if g.operator == And then Or else And,
      seq(|g.conditions|, i requires 0 <= i < |g.conditions| =>
        g.conditions[i].(operator := Opposite(g.conditions[i].operator))))
  }

  /** The surroundings in which a pattern matches exactly when it did not. */
  function Mismatching(ctx: Context): Context {
    ctx.(matchesPattern := (v, p) => !ctx.matchesPattern(v, p))
  }

  lemma OppositeIsExact(c: Condition, ctx: Context)
    ensures EvaluateCondition(c.(operator := Opposite(c.operator)), Mismatching(ctx)) <==> !EvaluateCondition(c, ctx)
    ensures c.operator != Matches ==>
              (EvaluateCondition(c.(operator := Opposite(c.operator)), ctx) <==> !EvaluateCondition(c, ctx))
  {
  }

  /** Some condition of the group evaluates to `b`. */
  ghost predicate SomeIs(conditions: seq<Condition>, ctx: Context, b: bool) {
    exists i :: 0 <= i < |conditions| && EvaluateCondition(conditions[i], ctx) == b
  }

  /** A conjunction fails, and a disjunction holds, exactly when some condition says so. */
  lemma GroupBySome(g: ConditionGroup, ctx: Context)
    ensures EvaluateGroup(g, ctx) <==> (g.operator == And) != SomeIs(g.conditions, ctx, g.operator != And)
  {
    if c :| c in g.conditions && EvaluateCondition(c, ctx) == (g.operator != And) {
      var i :| 0 <= i < |g.conditions| && g.conditions[i] == c;
    }
  }

  /** Groups opposed in connective and, condition by condition, in value are opposed. */
  lemma OpposedGroups(g: ConditionGroup, ctx: Context, n: ConditionGroup, other: Context)
    requires |n.conditions| == |g.conditions| && (n.operator == And) != (g.operator == And)
    requires forall i :: 0 <= i < |g.conditions| ==>
               (EvaluateCondition(n.conditions[i], other) <==> !EvaluateCondition(g.conditions[i], ctx))
    ensures EvaluateGroup(n, other) <==> !EvaluateGroup(g, ctx)
  {
    GroupBySome(g, ctx);
    GroupBySome(n, other);
  }

  /**
   De Morgan: swapping the connective and every operator negates a group, where patterns mismatch; in the same
   surroundings too if the group matches no patterns.
   */
  lemma NegationIsExact(g: ConditionGroup, ctx: Context)
    ensures EvaluateGroup(Negated(g), Mismatching(ctx)) <==> !EvaluateGroup(g, ctx)
    ensures (forall c :: c in g.conditions ==> c.operator != Matches) ==>
              (EvaluateGroup(Negated(g), ctx) <==> !EvaluateGroup(g, ctx))
  {
    forall c {
      OppositeIsExact(c, ctx);
    }
    OpposedGroups(g, ctx, Negated(g), Mismatching(ctx));
    if forall c :: c in g.conditions ==> c.operator != Matches {
      assert forall i :: 0 <= i < |g.conditions| ==> g.conditions[i] in g.conditions;
      OpposedGroups(g, ctx, Negated(g), ctx);
    }
  }

  // ---- Stable sorting by descending priority ----

  ghost predicate Sorted(s: seq<Rule>) {
    forall i, j :: 0 <= i < j < |s| ==> s[i].priority >= s[j].priority
  }

  /** The rules of one priority, in list order. */
  function ByPriority(s: seq<Rule>, p: int): seq<Rule> {
    if s == [] then []
    else if s[0].priority == p then [s[0]] + ByPriority(s[1..], p)
    else ByPriority(s[1..], p)
  }

  /** A stable sort orders priorities and leaves each priority's rules in their own order. */
  ghost predicate IsStableSort(t: seq<Rule>, s: seq<Rule>) {
    Sorted(t) && forall p :: ByPriority(t, p) == ByPriority(s, p)
  }

  function Placed(s: seq<Rule>, r: Rule): seq<Rule> {
    if s == [] || s[0].priority < r.priority then [r] + s
    else [s[0]] + Placed(s[1..], r)
  }

  /** `sort_by(|a, b| b.priority.cmp(&a.priority))` */
  function StableSort(s: seq<Rule>): seq<Rule> {
    if s == [] then [] else Placed(StableSort(s[..|s| - 1]), s[|s| - 1])
  }

  lemma {:induction false} ByPriorityJoin(a: seq<Rule>, b: seq<Rule>, p: int)
    ensures ByPriority(a + b, p) == ByPriority(a, p) + ByPriority(b, p)
  {
    if a == [] {
      assert a + b == b;
    } else {
      assert (a + b)[1..] == a[1..] + b;
      ByPriorityJoin(a[1..], b, p);
    }
  }

  lemma {:induction false} NoLowerPriority(s: seq<Rule>, p: int)
    requires forall i :: 0 <= i < |s| ==> s[i].priority < p
    ensures ByPriority(s, p) == []
  {
    if s == [] {
    } else {
      NoLowerPriority(s[1..], p);
    }
  }

  lemma {:induction false} PlacedKeeps(s: seq<Rule>, r: Rule)
    requires Sorted(s)
    ensures Sorted(Placed(s, r))
    ensures forall x :: x in Placed(s, r) <==> x in s || x == r
    ensures forall p :: ByPriority(Placed(s, r), p) == ByPriority(s, p) + ByPriority([r], p)
  {
    if s == [] || s[0].priority < r.priority {
      forall p
        ensures ByPriority([r] + s, p) == ByPriority(s, p) + ByPriority([r], p)
      {
        ByPriorityJoin([r], s, p);
        if p == r.priority {
          NoLowerPriority(s, p);
        }
      }
    } else {
      PlacedKeeps(s[1..], r);
      var rest := Placed(s[1..], r);
      assert Placed(s, r)[1..] == rest;
      forall j | 0 <= j < |rest|
        ensures s[0].priority >= rest[j].priority
      {
        assert rest[j] in rest;
      }
    }
  }

  lemma {:induction false} StableSortIsStable(s: seq<Rule>)
    ensures IsStableSort(StableSort(s), s)
  {
    if s == [] {
    } else {
      var n := |s| - 1;
      StableSortIsStable(s[..n]);
      PlacedKeeps(StableSort(s[..n]), s[n]);
      assert s == s[..n] + [s[n]];
      forall p
        ensures ByPriority(s, p) == ByPriority(s[..n], p) + ByPriority([s[n]], p)
      {
        ByPriorityJoin(s[..n], [s[n]], p);
      }
    }
  }

  lemma HeadHasPriority(s: seq<Rule>)
    requires s != []
    ensures ByPriority(s, s[0].priority) != []
  {
  }

  lemma FirstOfPriority(s: seq<Rule>, t: seq<Rule>)
    requires Sorted(t) && s != [] && t != [] && ByPriority(s, s[0].priority) == ByPriority(t, s[0].priority)
    ensures t[0].priority >= s[0].priority
  {
    if forall i :: 0 <= i < |t| ==> t[i].priority < s[0].priority {
      NoLowerPriority(t, s[0].priority);
    }
  }

  /** There is only one stable sort of a list. */
  lemma {:induction false} SortedListsAgree(s: seq<Rule>, t: seq<Rule>)
    requires Sorted(s) && Sorted(t) && forall p :: ByPriority(s, p) == ByPriority(t, p)
    ensures s == t
  {
    if s == [] && t != [] {
      HeadHasPriority(t);
    } else if s != [] && t == [] {
      HeadHasPriority(s);
    } else if s != [] {
      FirstOfPriority(s, t);
      FirstOfPriority(t, s);
      var p := s[0].priority;
      assert ByPriority(s, p)[0] == s[0] && ByPriority(t, p)[0] == t[0];
      forall q
        ensures ByPriority(s[1..], q) == ByPriority(t[1..], q)
      {
        assert ByPriority(s, q) == ByPriority(t, q);
        if q == p {
          assert ByPriority(s, q)[1..] == ByPriority(s[1..], q);
          assert ByPriority(t, q)[1..] == ByPriority(t[1..], q);
        } else {
          assert t[0].priority == s[0].priority != q;
        }
      }
      SortedListsAgree(s[1..], t[1..]);
      assert s == [s[0]] + s[1..] && t == [t[0]] + t[1..];
    }
  }

  lemma StableSortIsUnique(t: seq<Rule>, s: seq<Rule>)
    requires IsStableSort(t, s)
    ensures t == StableSort(s)
  {
    StableSortIsStable(s);
    SortedListsAgree(t, StableSort(s));
  }

  // ---- Adding and removing ----

  /** `position(|r| r.id == id)` and `remove`: the first rule with this id goes. */
  function DropFirst(s: seq<Rule>, id: string): seq<Rule> {
    if s == [] then []
    else if s[0].id == id then s[1..]
    else [s[0]] + DropFirst(s[1..], id)
  }

  function FirstWith(s: seq<Rule>, id: string): (r: Option<Rule>)
    ensures r.Some? ==> r.value in s && r.value.id == id
    ensures r.None? <==> forall x :: x in s ==> x.id != id
  {
    if s == [] then None
    else if s[0].id == id then Some(s[0])
    else FirstWith(s[1..], id)
  }

  /** The first rule with this id and this priority goes. */
  function DropFirstAt(s: seq<Rule>, id: string, p: int): seq<Rule> {
    if s == [] then []
    else if s[0].id == id && s[0].priority == p then s[1..]
    else [s[0]] + DropFirstAt(s[1..], id, p)
  }

  lemma {:induction false} DropFirstByPriority(s: seq<Rule>, id: string, q: int)
    ensures var hit := FirstWith(s, id);
            ByPriority(DropFirst(s, id), q)
            == if hit.Some? && hit.value.priority == q then DropFirst(ByPriority(s, q), id) else ByPriority(s, q)
  {
    if s == [] {
    } else {
      if s[0].priority == q {
        assert ByPriority(s, q)[1..] == ByPriority(s[1..], q);
      }
      if s[0].id != id {
        DropFirstByPriority(s[1..], id, q);
        assert DropFirst(s, id)[1..] == DropFirst(s[1..], id);
      }
    }
  }

  lemma {:induction false} DropFirstAtByPriority(s: seq<Rule>, id: string, p: int, q: int)
    ensures ByPriority(DropFirstAt(s, id, p), q)
         == if p == q then DropFirst(ByPriority(s, q), id) else ByPriority(s, q)
  {
    if s == [] {
    } else {
      DropFirstAtByPriority(s[1..], id, p, q);
      if s[0].priority == q {
        assert ByPriority(s, q)[1..] == ByPriority(s[1..], q);
      }
      if !(s[0].id == id && s[0].priority == p) {
        assert DropFirstAt(s, id, p)[1..] == DropFirstAt(s[1..], id, p);
      }
    }
  }

  lemma {:induction false} DropFirstSorted(s: seq<Rule>, id: string)
    requires Sorted(s)
    ensures Sorted(DropFirst(s, id))
    ensures forall x :: x in DropFirst(s, id) ==> x in s
  {
    if s != [] && s[0].id != id {
      DropFirstSorted(s[1..], id);
      var rest := DropFirst(s[1..], id);
      forall j | 0 <= j < |rest|
        ensures s[0].priority >= rest[j].priority
      {
        assert rest[j] in rest;
      }
    }
  }

  lemma WithoutAt(s: seq<Rule>, pos: nat)
    requires 0 < pos < |s|
    ensures [s[0]] + (s[1..][..pos - 1] + s[1..][pos..]) == s[..pos] + s[pos + 1..]
  {
    assert s[1..][..pos - 1] == s[1..pos] && s[1..][pos..] == s[pos + 1..];
    assert [s[0]] + s[1..pos] == s[..pos];
  }

  lemma {:induction false} DropFirstPosition(s: seq<Rule>, id: string, pos: nat)
    requires pos <= |s| && forall k :: 0 <= k < pos ==> s[k].id != id
    requires pos < |s| ==> s[pos].id == id
    ensures DropFirst(s, id) == if pos < |s| then s[..pos] + s[pos + 1..] else s
    ensures FirstWith(s, id) == if pos < |s| then Some(s[pos]) else None
  {
    if pos == 0 {
      assert s != [] ==> s[..0] + s[1..] == s[1..];
    } else {
      assert forall k :: 0 <= k < pos - 1 ==> s[1..][k] == s[k + 1];
      DropFirstPosition(s[1..], id, pos - 1);
      if pos < |s| {
        WithoutAt(s, pos);
      } else {
        assert [s[0]] + s[1..] == s;
      }
    }
  }

  datatype Op = Add(rule: Rule) | Remove(id: string)

  function Apply(rules: seq<Rule>, op: Op): seq<Rule> {
    match op
    case Add(rule) => StableSort(rules + [rule])
    case Remove(id) => DropFirst(rules, id)
  }

  /** The engine's rule list after a history of operations. */
  function Rules(ops: seq<Op>): seq<Rule> {
    if ops == [] then [] else Apply(Rules(ops[..|ops| - 1]), ops[|ops| - 1])
  }

  /** The rules not yet removed, in insertion order. A removal takes the highest-priority rule of its id. */
  function Survivors(ops: seq<Op>): seq<Rule> {
    if ops == [] then []
    else
      var s := Survivors(ops[..|ops| - 1]);
      match ops[|ops| - 1]
      case Add(rule) => s + [rule]
      case Remove(id) =>
        match FirstWith(StableSort(s), id)
        case None => s
        case Some(hit) => DropFirstAt(s, id, hit.priority)
  }

  lemma AddKeepsSorted(s: seq<Rule>, r: Rule)
    ensures StableSort(StableSort(s) + [r]) == StableSort(s + [r])
  {
    StableSortIsStable(s);
    StableSortIsStable(StableSort(s) + [r]);
    forall p
      ensures ByPriority(StableSort(s) + [r], p) == ByPriority(s + [r], p)
    {
      ByPriorityJoin(StableSort(s), [r], p);
      ByPriorityJoin(s, [r], p);
    }
    StableSortIsUnique(StableSort(StableSort(s) + [r]), s + [r]);
  }

  lemma RemoveKeepsSorted(s: seq<Rule>, id: string)
    ensures var hit := FirstWith(StableSort(s), id);
            DropFirst(StableSort(s), id)
            == StableSort(if hit.Some? then DropFirstAt(s, id, hit.value.priority) else s)
  {
    var l := StableSort(s);
    var hit := FirstWith(l, id);
    StableSortIsStable(s);
    DropFirstSorted(l, id);
    var left := if hit.Some? then DropFirstAt(s, id, hit.value.priority) else s;
    forall q
      ensures ByPriority(DropFirst(l, id), q) == ByPriority(left, q)
    {
      DropFirstByPriority(l, id, q);
      if hit.Some? {
        DropFirstAtByPriority(s, id, hit.value.priority, q);
      }
    }
    StableSortIsUnique(DropFirst(l, id), left);
  }

  /** After any history the rule list is one stable sort of the surviving rules in insertion order. */
  lemma {:induction false} RulesAreSortedSurvivors(ops: seq<Op>)
    ensures Rules(ops) == StableSort(Survivors(ops))
  {
    if ops == [] {
    } else {
      var prefix, op := ops[..|ops| - 1], ops[|ops| - 1];
      RulesAreSortedSurvivors(prefix);
      match op {
        case Add(rule) => AddKeepsSorted(Survivors(prefix), rule);
        case Remove(id) => RemoveKeepsSorted(Survivors(prefix), id);
      }
    }
  }

  lemma {:induction false} FirstIsTop(l: seq<Rule>, id: string)
    requires Sorted(l)
    ensures var hit := FirstWith(l, id);
            hit.Some? ==> forall x :: x in l && x.id == id ==> x.priority <= hit.value.priority
  {
    if l != [] && l[0].id != id {
      FirstIsTop(l[1..], id);
    }
  }

  /** A removal takes a rule of the highest priority its id has. */
  lemma RemovalTakesTopPriority(s: seq<Rule>, id: string)
    ensures var hit := FirstWith(StableSort(s), id);
            && (hit.Some? <==> exists x :: x in s && x.id == id)
            && (hit.Some? ==> hit.value in s && forall x :: x in s && x.id == id ==> x.priority <= hit.value.priority)
  {
    StableSortIsStable(s);
    FirstIsTop(StableSort(s), id);
    forall x
      ensures x in StableSort(s) <==> x in s
    {
      StableSortSameRules(s, x);
    }
  }

  // ---- Unique ids ----

  ghost predicate UniqueIds(s: seq<Rule>) {
    forall i, j :: 0 <= i < j < |s| ==> s[i].id != s[j].id
  }

  function Without(s: seq<Rule>, id: string): seq<Rule> {
    if s == [] then [] else (if s[0].id == id then [] else [s[0]]) + Without(s[1..], id)
  }

  lemma {:induction false} WithoutAbsent(s: seq<Rule>, id: string)
    requires forall x :: x in s ==> x.id != id
    ensures Without(s, id) == s
  {
    if s == [] {
    } else {
      WithoutAbsent(s[1..], id);
    }
  }

  lemma {:induction false} DropUnique(s: seq<Rule>, r: Rule)
    requires UniqueIds(s) && r in s
    ensures DropFirstAt(s, r.id, r.priority) == Without(s, r.id)
  {
    if s[0] == r {
      WithoutAbsent(s[1..], r.id);
    } else {
      DropUnique(s[1..], r);
    }
  }

  lemma {:induction false} InByPriority(s: seq<Rule>, x: Rule)
    ensures x in s <==> x in ByPriority(s, x.priority)
  {
    if s == [] {
    } else {
      InByPriority(s[1..], x);
    }
  }

  lemma StableSortSameRules(s: seq<Rule>, x: Rule)
    ensures x in StableSort(s) <==> x in s
  {
    StableSortIsStable(s);
    InByPriority(s, x);
    InByPriority(StableSort(s), x);
    assert ByPriority(StableSort(s), x.priority) == ByPriority(s, x.priority);
  }

  /** With unique ids a removal leaves every other rule, in insertion order, and sorting keeps that order per priority. */
  lemma RemovalLeavesTheRest(ops: seq<Op>, id: string)
    requires UniqueIds(Survivors(ops))
    ensures Survivors(ops + [Remove(id)]) == Without(Survivors(ops), id)
    ensures Rules(ops + [Remove(id)]) == StableSort(Without(Survivors(ops), id))
  {
    assert (ops + [Remove(id)])[..|ops|] == ops;
    RulesAreSortedSurvivors(ops + [Remove(id)]);
    var s := Survivors(ops);
    match FirstWith(StableSort(s), id) {
      case Some(hit) =>
        StableSortSameRules(s, hit);
        DropUnique(s, hit);
      case None =>
        forall x | x in s
          ensures x.id != id
        {
          StableSortSameRules(s, x);
        }
        WithoutAbsent(s, id);
    }
  }

  // ---- A whole history with unique ids ----

  /** The rules added and not removed since, in insertion order. */
  function Remaining(ops: seq<Op>): seq<Rule> {
    if ops == [] then []
    else if ops[0].Add? && Remove(ops[0].rule.id) !in ops[1..] then [ops[0].rule] + Remaining(ops[1..])
    else Remaining(ops[1..])
  }

  /** No rule is added while another of its id remains. */
  ghost predicate IdsStayUnique(ops: seq<Op>) {
    forall i :: 0 <= i < |ops| && ops[i].Add? ==> forall x :: x in Remaining(ops[..i]) ==> x.id != ops[i].rule.id
  }

  lemma {:induction false} RemainingAdd(ops: seq<Op>, r: Rule)
    ensures Remaining(ops + [Add(r)]) == Remaining(ops) + [r]
  {
    if ops == [] {
      assert ops + [Add(r)] == [Add(r)];
      assert Remaining([Add(r)][1..]) == [];
    } else {
      assert (ops + [Add(r)])[1..] == ops[1..] + [Add(r)];
      RemainingAdd(ops[1..], r);
    }
  }

  lemma {:induction false} RemainingRemove(ops: seq<Op>, id: string)
    ensures Remaining(ops + [Remove(id)]) == Without(Remaining(ops), id)
  {
    if ops == [] {
      assert ops + [Remove(id)] == [Remove(id)];
    } else {
      assert (ops + [Remove(id)])[1..] == ops[1..] + [Remove(id)];
      RemainingRemove(ops[1..], id);
      if ops[0].Add? {
        var r := ops[0].rule;
        assert Remove(r.id) in ops[1..] + [Remove(id)] <==> Remove(r.id) in ops[1..] || r.id == id;
        WithoutCons(r, Remaining(ops[1..]), id);
      }
    }
  }

  lemma WithoutCons(r: Rule, s: seq<Rule>, id: string)
    ensures Without([r] + s, id) == if r.id == id then Without(s, id) else [r] + Without(s, id)
  {
    assert ([r] + s)[1..] == s;
  }

  lemma {:induction false} WithoutKeepsUnique(s: seq<Rule>, id: string)
    requires UniqueIds(s)
    ensures UniqueIds(Without(s, id)) && forall x :: x in Without(s, id) ==> x in s
  {
    if s == [] {
    } else {
      WithoutKeepsUnique(s[1..], id);
      var rest := Without(s[1..], id);
      forall j | 0 <= j < |rest|
        ensures rest[j].id != s[0].id
      {
        assert rest[j] in s[1..];
      }
    }
  }

  /** With unique ids the rules left are exactly those added and not removed since. */
  lemma {:induction false} SurvivorsAreRemaining(ops: seq<Op>)
    requires IdsStayUnique(ops)
    ensures Survivors(ops) == Remaining(ops) && UniqueIds(Remaining(ops))
  {
    if ops == [] {
    } else {
      var n := |ops| - 1;
      var prefix := ops[..n];
      assert forall i :: 0 <= i < n ==> prefix[..i] == ops[..i];
      SurvivorsAreRemaining(prefix);
      assert ops == prefix + [ops[n]];
      match ops[n] {
        case Add(rule) => RemainingAdd(prefix, rule);
        case Remove(id) =>
          RemainingRemove(prefix, id);
          RemovalLeavesTheRest(prefix, id);
          WithoutKeepsUnique(Remaining(prefix), id);
      }
    }
  }

  /** After a history with unique ids the list is one stable sort of the rules added and not removed since. */
  lemma RulesAreSortedRemaining(ops: seq<Op>)
    requires IdsStayUnique(ops)
    ensures Rules(ops) == StableSort(Remaining(ops))
    ensures IsStableSort(Rules(ops), Remaining(ops))
  {
    RulesAreSortedSurvivors(ops);
    SurvivorsAreRemaining(ops);
    StableSortIsStable(Remaining(ops));
  }

  // ---- Evaluation ----

  function Enabled(rules: seq<Rule>): seq<Rule> {
    if rules == [] then []
    else Enabled(rules[..|rules| - 1]) + if rules[|rules| - 1].enabled then [rules[|rules| - 1]] else []
  }

  function Executed(actions: seq<Action>, ctx: Context): seq<string> {
    if actions == [] then []
    else
      var last := actions[|actions| - 1];
      Executed(actions[..|actions| - 1], ctx) + if ctx.execute(last) == None then [last.kind] else []
  }

  function LastError(actions: seq<Action>, ctx: Context): Option<string> {
    if actions == [] then None
    else
      var e := ctx.execute(actions[|actions| - 1]);
      if e.Some? then e else LastError(actions[..|actions| - 1], ctx)
  }

  /** The rules evaluated are the enabled ones, in list order. */
  lemma {:induction false} EnabledAre(rules: seq<Rule>) returns (at: seq<nat>)
    ensures Selected(at, rules, Enabled(rules), (r: Rule) => r.enabled, (r: Rule) => r)
  {
    if rules == [] {
      at := [];
    } else {
      var init, last := rules[..|rules| - 1], rules[|rules| - 1];
      at := EnabledAre(init);
      assert init + [last] == rules;
      if last.enabled {
        SelectedMore(at, init, Enabled(init), (r: Rule) => r.enabled, (r: Rule) => r, last);
        at := at + [|init|];
      } else {
        SelectedNoMore(at, init, Enabled(init), (r: Rule) => r.enabled, (r: Rule) => r, last);
        assert Enabled(rules) == Enabled(init);
      }
    }
  }

  /** The names are those of the actions that succeeded, in order. */
  lemma {:induction false} ExecutedAre(actions: seq<Action>, ctx: Context) returns (at: seq<nat>)
    ensures Selected(at, actions, Executed(actions, ctx), (a: Action) => ctx.execute(a) == None, (a: Action) => a.kind)
  {
    if actions == [] {
      at := [];
    } else {
      var init, last := actions[..|actions| - 1], actions[|actions| - 1];
      at := ExecutedAre(init, ctx);
      assert init + [last] == actions;
      if ctx.execute(last) == None {
        SelectedMore(at, init, Executed(init, ctx), (a: Action) => ctx.execute(a) == None, (a: Action) => a.kind, last);
        at := at + [|init|];
      } else {
        SelectedNoMore(at, init, Executed(init, ctx), (a: Action) => ctx.execute(a) == None, (a: Action) => a.kind, last);
        assert Executed(actions, ctx) == Executed(init, ctx);
      }
    }
  }

  /** The error is that of the last action that failed, if any did. */
  lemma {:induction false} LastErrorIs(actions: seq<Action>, ctx: Context)
    ensures match LastError(actions, ctx)
            case None => forall i :: 0 <= i < |actions| ==> ctx.execute(actions[i]) == None
            case Some(e) => exists i :: 0 <= i < |actions| && ctx.execute(actions[i]) == Some(e)
                                        && forall k :: i < k < |actions| ==> ctx.execute(actions[k]) == None
  {
    if actions == [] {
    } else {
      var n := |actions| - 1;
      LastErrorIs(actions[..n], ctx);
      if ctx.execute(actions[n]) == None && LastError(actions, ctx).Some? {
        var i :| 0 <= i < n && ctx.execute(actions[..n][i]) == LastError(actions, ctx)
                 && forall k :: i < k < n ==> ctx.execute(actions[..n][k]) == None;
        assert ctx.execute(actions[i]) == LastError(actions, ctx);
        assert forall k :: i < k < n ==> actions[..n][k] == actions[k];
      }
    }
  }

  /** A rule's result is about that rule: it says whether its group holds, and only then what its actions did. */
  lemma ResultReports(rule: Rule, ctx: Context)
    ensures var r := ResultOf(rule, ctx);
            && r.ruleId == rule.id
            && (r.matched <==> EvaluateGroup(rule.conditions, ctx))
            && (r.matched ==> r.actionsExecuted == Executed(rule.actions, ctx) && r.error == LastError(rule.actions, ctx))
            && (!r.matched ==> r.actionsExecuted == [] && r.error == None)
  {
  }

  /** The result a rule owes its caller. */
  function ResultOf(rule: Rule, ctx: Context): EvaluationResult {
    var matched := EvaluateGroup(rule.conditions, ctx);
    EvaluationResult(
      rule.id, matched,
      if matched then Executed(rule.actions, ctx) else [],
      if matched then LastError(rule.actions, ctx) else None)
  }

  lemma OneMoreOp(ops: seq<Op>, op: Op)
    ensures Rules(ops + [op]) == Apply(Rules(ops), op)
  {
    assert (ops + [op])[..|ops|] == ops;
  }

  class RuleEngine {
    var rules: seq<Rule>
    ghost var history: seq<Op>

    /** The list is what the history of calls makes of it, and so always one stable sort. */
    ghost predicate Valid()
      reads this
    {
      rules == Rules(history)
    }

    constructor ()
      ensures Valid() && history == []
    {
      rules, history := [], [];
    }

    method AddRule(rule: Rule)
      requires Valid()
      modifies this
      ensures Valid() && history == old(history) + [Add(rule)]
      ensures rules == Apply(old(rules), Add(rule))
      ensures IsStableSort(rules, old(rules) + [rule])
    {
      rules := rules + [rule];
      StableSortIsStable(rules);
      rules := StableSort(rules);
      OneMoreOp(history, Add(rule));
      history := history + [Add(rule)];
    }

    method RemoveRule(id: string) returns (removed: Option<Rule>)
      requires Valid()
      modifies this
      ensures Valid() && history == old(history) + [Remove(id)]
      ensures rules == Apply(old(rules), Remove(id))
      ensures removed == FirstWith(old(rules), id)
    {
      var pos := 0;
      while pos < |rules| && rules[pos].id != id
        invariant 0 <= pos <= |rules|
        invariant forall k :: 0 <= k < pos ==> rules[k].id != id
      {
        pos := pos + 1;
      }
      DropFirstPosition(rules, id, pos);
      OneMoreOp(history, Remove(id));
      history := history + [Remove(id)];
      if pos < |rules| {
        removed := Some(rules[pos]);
        rules := rules[..pos] + rules[pos + 1..];
      } else {
        removed := None;
      }
    }

    /** One result per enabled rule, in list order, each what that rule owes. */
    method Evaluate(ctx: Context) returns (results: seq<EvaluationResult>)
      ensures |results| == |Enabled(rules)|
      ensures forall i :: 0 <= i < |results| ==> results[i] == ResultOf(Enabled(rules)[i], ctx)
    {
      results := [];
      var n := 0;
      while n < |rules|
        invariant 0 <= n <= |rules|
        invariant |results| == |Enabled(rules[..n])|
        invariant forall i :: 0 <= i < |results| ==> results[i] == ResultOf(Enabled(rules[..n])[i], ctx)
      {
        var rule := rules[n];
        assert rules[..n + 1][..n] == rules[..n];
        n := n + 1;
        if !rule.enabled {
          continue;
        }
        var matched := EvaluateGroup(rule.conditions, ctx);
        var executed, error := [], None;
        if matched {
          executed, error := ExecuteAll(rule.actions, ctx);
        }
        results := results + [EvaluationResult(rule.id, matched, executed, error)];
      }
      assert rules[..n] == rules;
    }

    method ExecuteAll(actions: seq<Action>, ctx: Context) returns (executed: seq<string>, error: Option<string>)
      ensures executed == Executed(actions, ctx) && error == LastError(actions, ctx)
    {
      executed, error := [], None;
      var m := 0;
      while m < |actions|
        invariant 0 <= m <= |actions|
        invariant executed == Executed(actions[..m], ctx) && error == LastError(actions[..m], ctx)
      {
        assert actions[..m + 1][..m] == actions[..m];
        match ctx.execute(actions[m]) {
          case None => executed := executed + [actions[m].kind];
          case Some(e) => error := Some(e);
        }
        m := m + 1;
      }
      assert actions[..m] == actions;
    }
  }
}
