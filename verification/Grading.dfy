/** Checkpoint grading: the server's worker/tasks/checkpoint_eval.py and the
    client's own copy in frontend/src/components/CheckpointCards/CheckpointCards.tsx.
    Numbers are reals. */
module Grading {
  import opened Wrappers
  import opened Permutations

  type Metric = string

  /** A JSON number or boolean. */
  datatype Value = Num(n: real) | Bool(b: bool)

  type Metrics = map<Metric, Value>

  datatype Partial = Partial(threshold: Value, points: real)
  datatype Rule = Rule(metric: Metric, op: string, value: Value)
  datatype ScoredRule = ScoredRule(rule: Rule, points: real, partial: Option<Partial>)
  datatype Rules = Rules(hard: seq<Rule>, scored: seq<ScoredRule>)

  datatype HardResult = HardResult(metric: Metric, passed: bool)
  datatype ScoredResult = ScoredResult(metric: Metric, awarded: real, maxPoints: real, passed: bool, partialCredit: bool)
  datatype Result = Result(hard: seq<HardResult>, scored: seq<ScoredResult>, blocked: bool, total: real)

  /** A boolean counts as 0 or 1, in both languages' ordering comparisons. */
  function Number(v: Value): real {
    match v
    case Num(n) => n
    case Bool(b) => if b then 1.0 else 0.0
  }

  function Actual(ppa: Metrics, metric: Metric): Option<Value> {
    if metric in ppa then Some(ppa[metric]) else None
  }

  /** `_compare`: in Python True == 1. */
  predicate ServerCompare(actual: Option<Value>, op: string, threshold: Value) {
    actual.Some? &&
    var a, t := Number(actual.value), Number(threshold);
    if op == "eq" then a == t
    else if op == "gte" then a >= t
    else if op == "lte" then a <= t
    else if op == "gt" then a > t
    else if op == "lt" then a < t
    else false
  }

  /** `compare`: in JavaScript true === 1 is false. */
  predicate ClientCompare(actual: Option<Value>, op: string, threshold: Value) {
    actual.Some? &&
    var a, t := Number(actual.value), Number(threshold);
    if op == "eq" then actual.value == threshold
    else if op == "gte" then a >= t
    else if op == "lte" then a <= t
    else if op == "gt" then a > t
    else if op == "lt" then a < t
    else false
  }

  /** What a pass means, in numbers: nothing passes without a metric or with an
      operator that is not one of the five. */
  lemma ServerCompareMeans(actual: Option<Value>, op: string, threshold: Value)
    ensures actual.None? || op !in ["eq", "gte", "lte", "gt", "lt"] ==> !ServerCompare(actual, op, threshold)
    ensures actual.Some? ==> var d := Number(actual.value) - Number(threshold);
      && (ServerCompare(actual, "eq", threshold) <==> d == 0.0)
      && (ServerCompare(actual, "gte", threshold) <==> d >= 0.0) && (ServerCompare(actual, "lte", threshold) <==> d <= 0.0)
      && (ServerCompare(actual, "gt", threshold) <==> d > 0.0) && (ServerCompare(actual, "lt", threshold) <==> d < 0.0)
    ensures Number(Bool(false)) == 0.0 && Number(Bool(true)) == 1.0 && forall n :: Number(Num(n)) == n
  {
  }

  /** In the client the same, but that an `eq` holds only within one type. */
  lemma ClientCompareMeans(actual: Option<Value>, op: string, threshold: Value)
    ensures op != "eq" ==> (ClientCompare(actual, op, threshold) <==> ServerCompare(actual, op, threshold))
    ensures actual.Some? && actual.value.Num? && threshold.Num? ==>
      (ClientCompare(actual, "eq", threshold) <==> actual.value.n - threshold.n == 0.0)
    ensures actual.Some? && actual.value.Bool? && threshold.Bool? ==>
      (ClientCompare(actual, "eq", threshold) <==> actual.value.b == threshold.b)
    ensures actual.None? || actual.value.Num? != threshold.Num? ==> !ClientCompare(actual, "eq", threshold)
  {
  }

  // ----- one rule -----

  /** Award and partial-credit flag of a scored rule. */
  function Award(r: ScoredRule, actual: Option<Value>, compare: (Option<Value>, string, Value) -> bool): (real, bool) {
    if compare(actual, r.rule.op, r.rule.value) then (r.points, false)
    else if r.partial.Some? && compare(actual, r.rule.op, r.partial.value.threshold) then (r.partial.value.points, true)
    else (0.0, false)
  }

  function ScoredResultOf(r: ScoredRule, ppa: Metrics, compare: (Option<Value>, string, Value) -> bool): ScoredResult {
    var actual := Actual(ppa, r.rule.metric);
    var (awarded, partialCredit) := Award(r, actual, compare);
    ScoredResult(r.rule.metric, awarded, r.points, compare(actual, r.rule.op, r.rule.value), partialCredit)
  }

  predicate Passes(r: Rule, ppa: Metrics, compare: (Option<Value>, string, Value) -> bool) {
    compare(Actual(ppa, r.metric), r.op, r.value)
  }

  /** All hard rules pass. */
  predicate GatePassed(hard: seq<Rule>, ppa: Metrics, compare: (Option<Value>, string, Value) -> bool) {
    forall r <- hard :: Passes(r, ppa, compare)
  }

  lemma GateSnoc(hard: seq<Rule>, r: Rule, ppa: Metrics, compare: (Option<Value>, string, Value) -> bool)
    ensures GatePassed(hard + [r], ppa, compare) <==> GatePassed(hard, ppa, compare) && Passes(r, ppa, compare)
  {
    forall q ensures q in hard + [r] <==> q in hard || q == r { }
  }

  function SumAwards(scored: seq<ScoredRule>, ppa: Metrics, compare: (Option<Value>, string, Value) -> bool): real {
    if scored == [] then 0.0 else
      SumAwards(scored[..|scored| - 1], ppa, compare) + ScoredResultOf(scored[|scored| - 1], ppa, compare).awarded
  }

  function HardResults(hard: seq<Rule>, ppa: Metrics, compare: (Option<Value>, string, Value) -> bool): seq<HardResult> {
    seq(|hard|, i requires 0 <= i < |hard| => HardResult(hard[i].metric, Passes(hard[i], ppa, compare)))
  }

  function ScoredResults(scored: seq<ScoredRule>, ppa: Metrics, compare: (Option<Value>, string, Value) -> bool): seq<ScoredResult> {
    seq(|scored|, i requires 0 <= i < |scored| => ScoredResultOf(scored[i], ppa, compare))
  }

  /** The grade both evaluators compute, each with its own comparison. */
  function Grade(ppa: Metrics, rules: Rules, compare: (Option<Value>, string, Value) -> bool): Result {
    var passed := GatePassed(rules.hard, ppa, compare);
    Result(HardResults(rules.hard, ppa, compare), ScoredResults(rules.scored, ppa, compare), !passed,
           if passed then SumAwards(rules.scored, ppa, compare) else 0.0)
  }

  /** One more hard rule. */
  lemma HardStep(hard: seq<Rule>, i: nat, ppa: Metrics, compare: (Option<Value>, string, Value) -> bool)
    requires i < |hard|
    ensures HardResults(hard[..i + 1], ppa, compare) ==
      HardResults(hard[..i], ppa, compare) + [HardResult(hard[i].metric, Passes(hard[i], ppa, compare))]
    ensures GatePassed(hard[..i + 1], ppa, compare) <==> GatePassed(hard[..i], ppa, compare) && Passes(hard[i], ppa, compare)
  {
    assert hard[..i + 1] == hard[..i] + [hard[i]];
    GateSnoc(hard[..i], hard[i], ppa, compare);
  }

  /** One more scored rule. */
  lemma ScoredStep(scored: seq<ScoredRule>, i: nat, ppa: Metrics, compare: (Option<Value>, string, Value) -> bool)
    requires i < |scored|
    ensures var result := ScoredResultOf(scored[i], ppa, compare);
      && ScoredResults(scored[..i + 1], ppa, compare) == ScoredResults(scored[..i], ppa, compare) + [result]
      && SumAwards(scored[..i + 1], ppa, compare) == SumAwards(scored[..i], ppa, compare) + result.awarded
  {
    assert scored[..i + 1] == scored[..i] + [scored[i]];
  }

  // ----- what a result says of its rules -----

  /** A scored entry: the rule's points for meeting its value, exactly the partial
      points and the flag for meeting only the partial threshold, and 0 otherwise. */
  predicate Earned(e: ScoredResult, r: ScoredRule, actual: Option<Value>, compare: (Option<Value>, string, Value) -> bool) {
    && e.metric == r.rule.metric && e.maxPoints == r.points
    && (e.passed <==> compare(actual, r.rule.op, r.rule.value))
    && (e.partialCredit <==>
          !e.passed && r.partial.Some? && compare(actual, r.rule.op, r.partial.value.threshold))
    && (e.passed ==> e.awarded == r.points)
    && (e.partialCredit ==> e.awarded == r.partial.value.points)
    && (!e.passed && !e.partialCredit ==> e.awarded == 0.0)
  }

  function Awarded(es: seq<ScoredResult>): real {
    if es == [] then 0.0 else es[0].awarded + Awarded(es[1..])
  }

  /** A result that the rules justify entry by entry: it is blocked when a hard entry
      failed, and its total is the sum of the awards unless it is blocked. */
  predicate Justified(result: Result, ppa: Metrics, rules: Rules, compare: (Option<Value>, string, Value) -> bool) {
    && |result.hard| == |rules.hard| && |result.scored| == |rules.scored|
    && (forall i :: 0 <= i < |rules.hard| ==> var r := rules.hard[i];
          && result.hard[i].metric == r.metric
          && (result.hard[i].passed <==> r.metric in ppa && compare(Some(ppa[r.metric]), r.op, r.value)))
    && (forall i :: 0 <= i < |rules.scored| ==> var r := rules.scored[i];
          Earned(result.scored[i], r, if r.rule.metric in ppa then Some(ppa[r.rule.metric]) else None, compare))
    && (result.blocked <==> exists e <- result.hard :: !e.passed)
    && result.total == if result.blocked then 0.0 else Awarded(result.scored)
  }

  /** A comparison that a missing metric never meets. */
  ghost predicate NeedsMetric(compare: (Option<Value>, string, Value) -> bool) {
    forall op, threshold :: !compare(None, op, threshold)
  }

  lemma {:induction false} AwardedSnoc(es: seq<ScoredResult>, e: ScoredResult)
    ensures Awarded(es + [e]) == Awarded(es) + e.awarded
  {
    if es == [] {
      assert es + [e] == [e] && [e][1..] == [];
    } else {
      AwardedSnoc(es[1..], e);
      assert (es + [e])[1..] == es[1..] + [e];
    }
  }

  lemma {:induction false} SumIsAwarded(scored: seq<ScoredRule>, ppa: Metrics, compare: (Option<Value>, string, Value) -> bool)
    ensures SumAwards(scored, ppa, compare) == Awarded(ScoredResults(scored, ppa, compare))
  {
    if scored != [] {
      var n := |scored| - 1;
      SumIsAwarded(scored[..n], ppa, compare);
      assert ScoredResults(scored, ppa, compare) ==
        ScoredResults(scored[..n], ppa, compare) + [ScoredResultOf(scored[n], ppa, compare)];
      AwardedSnoc(ScoredResults(scored[..n], ppa, compare), ScoredResultOf(scored[n], ppa, compare));
    }
  }

  lemma GateIsOpen(hard: seq<Rule>, ppa: Metrics, compare: (Option<Value>, string, Value) -> bool)
    ensures GatePassed(hard, ppa, compare) <==> forall e <- HardResults(hard, ppa, compare) :: e.passed
  {
    var es := HardResults(hard, ppa, compare);
    if forall e <- es :: e.passed {
      forall r | r in hard ensures Passes(r, ppa, compare) {
        var i :| 0 <= i < |hard| && hard[i] == r;
        assert es[i] in es;
      }
    }
  }

  lemma GradeIsJustified(ppa: Metrics, rules: Rules, compare: (Option<Value>, string, Value) -> bool)
    requires NeedsMetric(compare)
    ensures Justified(Grade(ppa, rules, compare), ppa, rules, compare)
  {
    GateIsOpen(rules.hard, ppa, compare);
    SumIsAwarded(rules.scored, ppa, compare);
  }

  // ----- the two evaluators -----

  method EvaluateCheckpointRules(ppa: Metrics, rules: Rules) returns (result: Result)
    ensures result == Grade(ppa, rules, ServerCompare)
    ensures Justified(result, ppa, rules, ServerCompare)
  {
    var hard, hardGatePassed := [], true;
    for i := 0 to |rules.hard|
      invariant hard == HardResults(rules.hard[..i], ppa, ServerCompare)
      invariant hardGatePassed <==> GatePassed(rules.hard[..i], ppa, ServerCompare)
    {
      var rule := rules.hard[i];
      var passed := ServerCompare(Actual(ppa, rule.metric), rule.op, rule.value);
      HardStep(rules.hard, i, ppa, ServerCompare);
      if !passed { hardGatePassed := false; }
      hard := hard + [HardResult(rule.metric, passed)];
    }
    assert rules.hard[..|rules.hard|] == rules.hard;
    var scored, total := [], 0.0;
    for i := 0 to |rules.scored|
      invariant scored == ScoredResults(rules.scored[..i], ppa, ServerCompare)
      invariant total == if hardGatePassed then SumAwards(rules.scored[..i], ppa, ServerCompare) else 0.0
    {
      var r := rules.scored[i];
      var actual := Actual(ppa, r.rule.metric);
      var passed := ServerCompare(actual, r.rule.op, r.rule.value);
      var awarded, partialCredit := 0.0, false;
      if passed {
        awarded := r.points;
      } else if r.partial.Some? && actual.Some? {
        if ServerCompare(actual, r.rule.op, r.partial.value.threshold) {
          awarded, partialCredit := r.partial.value.points, true;
        }
      }
      ScoredStep(rules.scored, i, ppa, ServerCompare);
      scored := scored + [ScoredResult(r.rule.metric, awarded, r.points, passed, partialCredit)];
      if hardGatePassed { total := total + awarded; }
    }
    assert rules.scored[..|rules.scored|] == rules.scored;
    GradeIsJustified(ppa, rules, ServerCompare);
    result := Result(hard, scored, !hardGatePassed, if hardGatePassed then total else 0.0);
  }

  method ComputePreview(ppa: Metrics, rules: Rules) returns (result: Result)
    ensures result == Grade(ppa, rules, ClientCompare)
    ensures Justified(result, ppa, rules, ClientCompare)
  {
    var hard, hardGatePassed := [], true;
    for i := 0 to |rules.hard|
      invariant hard == HardResults(rules.hard[..i], ppa, ClientCompare)
      invariant hardGatePassed <==> GatePassed(rules.hard[..i], ppa, ClientCompare)
    {
      var rule := rules.hard[i];
      var passed := ClientCompare(Actual(ppa, rule.metric), rule.op, rule.value);
      HardStep(rules.hard, i, ppa, ClientCompare);
      if !passed { hardGatePassed := false; }
      hard := hard + [HardResult(rule.metric, passed)];
    }
    assert rules.hard[..|rules.hard|] == rules.hard;
    var scored, total := [], 0.0;
    for i := 0 to |rules.scored|
      invariant scored == ScoredResults(rules.scored[..i], ppa, ClientCompare)
      invariant hardGatePassed ==> total == SumAwards(rules.scored[..i], ppa, ClientCompare)
    {
      var r := rules.scored[i];
      var actual := Actual(ppa, r.rule.metric);
      var passed := ClientCompare(actual, r.rule.op, r.rule.value);
      var awarded, partialCredit := 0.0, false;
      if passed {
        awarded := r.points;
      } else if r.partial.Some? && actual.Some? && ClientCompare(actual, r.rule.op, r.partial.value.threshold) {
        awarded, partialCredit := r.partial.value.points, true;
      }
      ScoredStep(rules.scored, i, ppa, ClientCompare);
      if hardGatePassed { total := total + awarded; }
      scored := scored + [ScoredResult(r.rule.metric, awarded, r.points, passed, partialCredit)];
    }
    assert rules.scored[..|rules.scored|] == rules.scored;
    GradeIsJustified(ppa, rules, ClientCompare);
    result := Result(hard, scored, !hardGatePassed, if hardGatePassed then total else 0.0);
  }

  // ----- when the two agree -----

  /** An "eq" between a boolean and the number it equals in Python. */
  predicate MixedEq(actual: Option<Value>, op: string, threshold: Value) {
    op == "eq" && actual.Some? && actual.value != threshold && Number(actual.value) == Number(threshold)
  }

  lemma CompareAgreesIff(actual: Option<Value>, op: string, threshold: Value)
    ensures ServerCompare(actual, op, threshold) == ClientCompare(actual, op, threshold) <==> !MixedEq(actual, op, threshold)
  {
  }

  /** The rule meets a mixed equality: at its value, or at its partial threshold
      once the value itself is missed. */
  predicate RuleMixes(r: ScoredRule, ppa: Metrics) {
    var actual := Actual(ppa, r.rule.metric);
    || MixedEq(actual, r.rule.op, r.rule.value)
    || (!ServerCompare(actual, r.rule.op, r.rule.value) && r.partial.Some?
        && MixedEq(actual, r.rule.op, r.partial.value.threshold))
  }

  predicate Mixes(rules: Rules, ppa: Metrics) {
    || (exists r <- rules.hard :: MixedEq(Actual(ppa, r.metric), r.op, r.value))
    || (exists r <- rules.scored :: RuleMixes(r, ppa))
  }

  lemma ScoredAgreesIff(r: ScoredRule, ppa: Metrics)
    ensures ScoredResultOf(r, ppa, ServerCompare) == ScoredResultOf(r, ppa, ClientCompare) <==> !RuleMixes(r, ppa)
  {
    var actual := Actual(ppa, r.rule.metric);
    CompareAgreesIff(actual, r.rule.op, r.rule.value);
    if r.partial.Some? { CompareAgreesIff(actual, r.rule.op, r.partial.value.threshold); }
  }

  lemma {:induction false} SumsAgree(scored: seq<ScoredRule>, ppa: Metrics)
    requires forall r <- scored :: !RuleMixes(r, ppa)
    ensures SumAwards(scored, ppa, ServerCompare) == SumAwards(scored, ppa, ClientCompare)
  {
    if scored != [] {
      var last := scored[|scored| - 1];
      assert last in scored;
      ScoredAgreesIff(last, ppa);
      SumsAgree(scored[..|scored| - 1], ppa);
    }
  }

  lemma HardAgreesIff(hard: seq<Rule>, ppa: Metrics)
    ensures HardResults(hard, ppa, ServerCompare) == HardResults(hard, ppa, ClientCompare) <==>
      forall r <- hard :: !MixedEq(Actual(ppa, r.metric), r.op, r.value)
    ensures (forall r <- hard :: !MixedEq(Actual(ppa, r.metric), r.op, r.value)) ==>
      GatePassed(hard, ppa, ServerCompare) == GatePassed(hard, ppa, ClientCompare)
  {
    forall r | r in hard
      ensures Passes(r, ppa, ServerCompare) == Passes(r, ppa, ClientCompare) <==> !MixedEq(Actual(ppa, r.metric), r.op, r.value)
    {
      CompareAgreesIff(Actual(ppa, r.metric), r.op, r.value);
    }
    var s, c := HardResults(hard, ppa, ServerCompare), HardResults(hard, ppa, ClientCompare);
    if s == c {
      forall r | r in hard ensures !MixedEq(Actual(ppa, r.metric), r.op, r.value) {
        var i :| 0 <= i < |hard| && hard[i] == r;
        assert s[i] == c[i];
      }
    }
  }

  lemma ScoredListsAgreeIff(scored: seq<ScoredRule>, ppa: Metrics)
    ensures ScoredResults(scored, ppa, ServerCompare) == ScoredResults(scored, ppa, ClientCompare) <==>
      forall r <- scored :: !RuleMixes(r, ppa)
  {
    forall i | 0 <= i < |scored|
      ensures ScoredResultOf(scored[i], ppa, ServerCompare) == ScoredResultOf(scored[i], ppa, ClientCompare) <==> !RuleMixes(scored[i], ppa)
    {
      ScoredAgreesIff(scored[i], ppa);
    }
    var s, c := ScoredResults(scored, ppa, ServerCompare), ScoredResults(scored, ppa, ClientCompare);
    if s == c {
      forall r | r in scored ensures !RuleMixes(r, ppa) {
        var i :| 0 <= i < |scored| && scored[i] == r;
        assert s[i] == c[i];
      }
    }
  }

  /** The preview and the grade are the same in every field exactly when no rule
      meets an equality between a boolean and a number. */
  lemma EvaluatorsAgreeIff(ppa: Metrics, rules: Rules)
    ensures Grade(ppa, rules, ServerCompare) == Grade(ppa, rules, ClientCompare) <==> !Mixes(rules, ppa)
  {
    HardAgreesIff(rules.hard, ppa);
    ScoredListsAgreeIff(rules.scored, ppa);
    if !Mixes(rules, ppa) { SumsAgree(rules.scored, ppa); }
  }

  /** In particular for numeric metrics and thresholds. */
  lemma NumericEvaluatorsAgree(ppa: Metrics, rules: Rules)
    requires forall m <- ppa :: ppa[m].Num?
    requires forall r <- rules.hard :: r.value.Num?
    requires forall r <- rules.scored :: r.rule.value.Num? && (r.partial.Some? ==> r.partial.value.threshold.Num?)
    ensures Grade(ppa, rules, ServerCompare) == Grade(ppa, rules, ClientCompare)
  {
    EvaluatorsAgreeIff(ppa, rules);
  }

  // ----- order of the rules -----

  lemma {:induction false} SumDrop(scored: seq<ScoredRule>, i: nat, ppa: Metrics)
    requires i < |scored|
    ensures SumAwards(scored, ppa, ServerCompare) ==
      SumAwards(Drop(scored, i), ppa, ServerCompare) + ScoredResultOf(scored[i], ppa, ServerCompare).awarded
  {
    var n := |scored| - 1;
    if i == n {
      assert Drop(scored, i) == scored[..n];
    } else {
      SumDrop(scored[..n], i, ppa);
      assert Drop(scored, i)[..n - 1] == Drop(scored[..n], i);
      assert Drop(scored, i)[n - 1] == scored[n];
    }
  }

  lemma {:induction false} SumPermutes(a: seq<ScoredRule>, b: seq<ScoredRule>, ppa: Metrics)
    requires multiset(a) == multiset(b)
    ensures SumAwards(a, ppa, ServerCompare) == SumAwards(b, ppa, ServerCompare)
    decreases |a|
  {
    SameLength(a, b);
    if a != [] {
      var i := FindIn(a, b, 0);
      SumDrop(a, 0, ppa);
      SumDrop(b, i, ppa);
      SumPermutes(Drop(a, 0), Drop(b, i), ppa);
    }
  }

  /** The grade does not depend on the order of the rules. */
  lemma GradePermutes(a: Rules, b: Rules, ppa: Metrics)
    requires multiset(a.hard) == multiset(b.hard) && multiset(a.scored) == multiset(b.scored)
    ensures Grade(ppa, a, ServerCompare).total == Grade(ppa, b, ServerCompare).total
    ensures Grade(ppa, a, ServerCompare).blocked == Grade(ppa, b, ServerCompare).blocked
  {
    SumPermutes(a.scored, b.scored, ppa);
    forall r ensures r in a.hard <==> r in b.hard {
      assert r in a.hard <==> r in multiset(a.hard);
      assert r in b.hard <==> r in multiset(b.hard);
    }
  }

  // ----- monotonicity -----

  /** The metric moves in the direction the operator asks for, or appears. */
  predicate Improves(op: string, before: Option<Value>, after: Option<Value>) {
    before.Some? ==>
      after.Some? &&
      if op == "gte" || op == "gt" then Number(after.value) >= Number(before.value)
      else if op == "lte" || op == "lt" then Number(after.value) <= Number(before.value)
      else Number(after.value) == Number(before.value)
  }

  predicate ImprovesAll(rules: Rules, before: Metrics, after: Metrics) {
    && (forall r <- rules.hard :: Improves(r.op, Actual(before, r.metric), Actual(after, r.metric)))
    && (forall r <- rules.scored :: Improves(r.rule.op, Actual(before, r.rule.metric), Actual(after, r.rule.metric)))
  }

  lemma CompareMonotone(op: string, before: Option<Value>, after: Option<Value>, threshold: Value)
    requires Improves(op, before, after) && ServerCompare(before, op, threshold)
    ensures ServerCompare(after, op, threshold)
  {
  }

  /** Some metric misses the rule's value and meets its partial threshold. */
  predicate PartialReachable(r: ScoredRule) {
    r.partial.Some? &&
    var v, t := Number(r.rule.value), Number(r.partial.value.threshold);
    if r.rule.op == "gte" || r.rule.op == "gt" then t < v
    else if r.rule.op == "lte" || r.rule.op == "lt" then t > v
    else r.rule.op == "eq" && t != v
  }

  predicate KnownOp(op: string) { op in ["eq", "gte", "lte", "gt", "lt"] }

  /** The points that can be awarded are in order: none is negative, and partial
      credit that an improving metric can outgrow is not above the points. */
  predicate Ordered(r: ScoredRule) {
    KnownOp(r.rule.op) ==>
      && 0.0 <= r.points
      && (PartialReachable(r) ==> 0.0 <= r.partial.value.points && (r.rule.op != "eq" ==> r.partial.value.points <= r.points))
  }

  predicate AllOrdered(scored: seq<ScoredRule>) { forall r <- scored :: Ordered(r) }

  function Points(r: ScoredRule, actual: Option<Value>): real { Award(r, actual, ServerCompare).0 }

  /** A metric just good enough for the value, and one for the partial threshold. */
  function JustEnough(op: string, threshold: Value): Value {
    var t := Number(threshold);
    Num(if op == "gt" then t + 1.0 else if op == "lt" then t - 1.0 else t)
  }

  /** A metric between the two thresholds. */
  function Between(op: string, value: Value, threshold: Value): Value {
    var v, t := Number(value), Number(threshold);
    Num(if op == "gt" || op == "lt" then (v + t) / 2.0 else t)
  }

  lemma OrderedIsMonotone(r: ScoredRule, before: Option<Value>, after: Option<Value>)
    requires Ordered(r) && Improves(r.rule.op, before, after)
    ensures 0.0 <= Points(r, before) <= Points(r, after)
  {
  }

  lemma UnorderedWitness(r: ScoredRule) returns (before: Option<Value>, after: Option<Value>)
    requires !Ordered(r)
    ensures Improves(r.rule.op, before, after) && Points(r, before) > Points(r, after)
  {
    var full := Some(JustEnough(r.rule.op, r.rule.value));
    assert Points(r, full) == r.points && Points(r, None) == 0.0;
    if r.points < 0.0 {
      before, after := None, full;
    } else {
      var part := Some(Between(r.rule.op, r.rule.value, r.partial.value.threshold));
      assert Points(r, part) == r.partial.value.points;
      if r.partial.value.points < 0.0 { before, after := None, part; } else { before, after := part, full; }
    }
  }

  /** An improved metric never earns one rule less, exactly when it is ordered. */
  lemma MonotoneIff(r: ScoredRule)
    ensures (forall before, after :: Improves(r.rule.op, before, after) ==> Points(r, before) <= Points(r, after)) <==> Ordered(r)
  {
    if Ordered(r) {
      forall before, after | Improves(r.rule.op, before, after) ensures Points(r, before) <= Points(r, after) {
        OrderedIsMonotone(r, before, after);
      }
    } else {
      var before, after := UnorderedWitness(r);
    }
  }

  lemma {:induction false} SumMonotone(scored: seq<ScoredRule>, before: Metrics, after: Metrics)
    requires AllOrdered(scored)
    requires forall r <- scored :: Improves(r.rule.op, Actual(before, r.rule.metric), Actual(after, r.rule.metric))
    ensures 0.0 <= SumAwards(scored, before, ServerCompare) <= SumAwards(scored, after, ServerCompare)
  {
    if scored != [] {
      var last := scored[|scored| - 1];
      assert last in scored;
      OrderedIsMonotone(last, Actual(before, last.rule.metric), Actual(after, last.rule.metric));
      SumMonotone(scored[..|scored| - 1], before, after);
    }
  }

  /** With ordered rules, improving metrics never lowers the grade and never
      blocks an open gate. */
  lemma GradeMonotone(rules: Rules, before: Metrics, after: Metrics)
    requires AllOrdered(rules.scored) && ImprovesAll(rules, before, after)
    ensures 0.0 <= Grade(before, rules, ServerCompare).total <= Grade(after, rules, ServerCompare).total
    ensures Grade(after, rules, ServerCompare).blocked ==> Grade(before, rules, ServerCompare).blocked
  {
    SumMonotone(rules.scored, before, after);
    if GatePassed(rules.hard, before, ServerCompare) {
      forall r | r in rules.hard ensures Passes(r, after, ServerCompare) {
        CompareMonotone(r.op, Actual(before, r.metric), Actual(after, r.metric), r.value);
      }
    }
  }

  /** 0 <= partial points <= points. */
  predicate Sane(r: ScoredRule) {
    0.0 <= r.points && (r.partial.Some? ==> 0.0 <= r.partial.value.points <= r.points)
  }

  function SumPoints(scored: seq<ScoredRule>): real {
    if scored == [] then 0.0 else SumPoints(scored[..|scored| - 1]) + scored[|scored| - 1].points
  }

  lemma {:induction false} SumInRange(scored: seq<ScoredRule>, ppa: Metrics)
    requires forall r <- scored :: Sane(r)
    ensures 0.0 <= SumAwards(scored, ppa, ServerCompare) <= SumPoints(scored)
  {
    if scored != [] {
      assert scored[|scored| - 1] in scored;
      SumInRange(scored[..|scored| - 1], ppa);
    }
  }

  /** Sane rules are ordered, so the grade is monotone; and it stays within 0 and
      the sum of the points. */
  lemma SaneGrade(rules: Rules, before: Metrics, after: Metrics)
    requires (forall r <- rules.scored :: Sane(r)) && ImprovesAll(rules, before, after)
    ensures 0.0 <= Grade(before, rules, ServerCompare).total
                <= Grade(after, rules, ServerCompare).total <= SumPoints(rules.scored)
  {
    SumInRange(rules.scored, before);
    SumInRange(rules.scored, after);
    GradeMonotone(rules, before, after);
  }

  // ----- when the grade is monotone -----

  ghost predicate TotalMonotone(rules: Rules) {
    forall before, after :: ImprovesAll(rules, before, after) ==>
      Grade(before, rules, ServerCompare).total <= Grade(after, rules, ServerCompare).total
  }

  lemma OrderedTotals(rules: Rules)
    requires AllOrdered(rules.scored)
    ensures TotalMonotone(rules)
  {
    forall before, after | ImprovesAll(rules, before, after)
      ensures Grade(before, rules, ServerCompare).total <= Grade(after, rules, ServerCompare).total
    {
      GradeMonotone(rules, before, after);
    }
  }

  /** The metrics with this one as given. */
  function WithMetric(ppa: Metrics, metric: Metric, actual: Option<Value>): Metrics {
    if actual.None? then ppa else ppa[metric := actual.value]
  }

  lemma {:induction false} NoMetricsNoPoints(scored: seq<ScoredRule>, ppa: Metrics)
    requires forall r <- scored :: r.rule.metric !in ppa
    ensures SumAwards(scored, ppa, ServerCompare) == 0.0
  {
    if scored != [] {
      assert scored[|scored| - 1] in scored;
      NoMetricsNoPoints(scored[..|scored| - 1], ppa);
    }
  }

  /** No two rules, hard or scored, look at the same metric. */
  predicate DistinctMetrics(rules: Rules) {
    && (forall i, j :: 0 <= i < j < |rules.hard| ==> rules.hard[i].metric != rules.hard[j].metric)
    && (forall i, j :: 0 <= i < j < |rules.scored| ==> rules.scored[i].rule.metric != rules.scored[j].rule.metric)
    && (forall r <- rules.hard, q <- rules.scored :: r.metric != q.rule.metric)
  }

  /** Some metrics pass every hard rule: each has an operator the code knows. */
  predicate CanPass(hard: seq<Rule>) { forall r <- hard :: KnownOp(r.op) }

  /** Metrics that pass the hard rules. */
  function PassingMetrics(hard: seq<Rule>): (ppa: Metrics)
    ensures forall m <- ppa :: exists r <- hard :: r.metric == m
  {
    if hard == [] then map[] else
      var init, last := hard[..|hard| - 1], hard[|hard| - 1];
      assert forall r <- init :: r in hard;
      PassingMetrics(init)[last.metric := JustEnough(last.op, last.value)]
  }

  lemma JustEnoughPasses(op: string, value: Value)
    requires KnownOp(op)
    ensures ServerCompare(Some(JustEnough(op, value)), op, value)
  {
  }

  lemma {:induction false} PassingMetricsPass(hard: seq<Rule>, k: nat)
    requires CanPass(hard) && k < |hard|
    requires forall i, j :: 0 <= i < j < |hard| ==> hard[i].metric != hard[j].metric
    ensures Passes(hard[k], PassingMetrics(hard), ServerCompare)
  {
    var n := |hard| - 1;
    assert hard[k] in hard;
    if k == n {
      JustEnoughPasses(hard[n].op, hard[n].value);
    } else {
      assert forall r <- hard[..n] :: r in hard;
      PassingMetricsPass(hard[..n], k);
      assert hard[k].metric != hard[n].metric;
    }
  }

  /** One scored rule's metric beside the passing ones: the gate is open, and only
      that rule counts. */
  lemma OnlyOneCounts(rules: Rules, i: nat, actual: Option<Value>)
    requires DistinctMetrics(rules) && CanPass(rules.hard) && i < |rules.scored|
    ensures var ppa := WithMetric(PassingMetrics(rules.hard), rules.scored[i].rule.metric, actual);
      && Grade(ppa, rules, ServerCompare).total == Points(rules.scored[i], actual)
      && Actual(ppa, rules.scored[i].rule.metric) == actual
  {
    var r := rules.scored[i];
    var passing := PassingMetrics(rules.hard);
    var ppa := WithMetric(passing, r.rule.metric, actual);
    assert r in rules.scored && r.rule.metric !in passing;
    GateStaysOpen(rules, r.rule.metric, actual);
    SumDrop(rules.scored, i, ppa);
    forall q <- Drop(rules.scored, i) ensures q.rule.metric !in ppa { OthersAreMissing(rules, i, q, actual); }
    NoMetricsNoPoints(Drop(rules.scored, i), ppa);
  }

  lemma OthersAreMissing(rules: Rules, i: nat, q: ScoredRule, actual: Option<Value>)
    requires DistinctMetrics(rules) && i < |rules.scored| && q in Drop(rules.scored, i)
    ensures q.rule.metric !in WithMetric(PassingMetrics(rules.hard), rules.scored[i].rule.metric, actual)
  {
    var k :| 0 <= k < |Drop(rules.scored, i)| && Drop(rules.scored, i)[k] == q;
    assert q == rules.scored[if k < i then k else k + 1] && q in rules.scored;
    assert q.rule.metric != rules.scored[i].rule.metric;
  }

  lemma GateStaysOpen(rules: Rules, metric: Metric, actual: Option<Value>)
    requires DistinctMetrics(rules) && CanPass(rules.hard) && forall r <- rules.hard :: r.metric != metric
    ensures GatePassed(rules.hard, WithMetric(PassingMetrics(rules.hard), metric, actual), ServerCompare)
  {
    var passing := PassingMetrics(rules.hard);
    forall r <- rules.hard ensures Passes(r, WithMetric(passing, metric, actual), ServerCompare) {
      var k :| 0 <= k < |rules.hard| && rules.hard[k] == r;
      PassingMetricsPass(rules.hard, k);
    }
  }

  lemma UnorderedTotals(rules: Rules, i: nat)
    requires DistinctMetrics(rules) && CanPass(rules.hard) && i < |rules.scored| && !Ordered(rules.scored[i])
    ensures !TotalMonotone(rules)
  {
    var metric, passing := rules.scored[i].rule.metric, PassingMetrics(rules.hard);
    var before, after := UnorderedWitness(rules.scored[i]);
    OnlyOneCounts(rules, i, before);
    OnlyOneCounts(rules, i, after);
    ImprovesOne(rules, i, before, after);
    var worse, better := WithMetric(passing, metric, before), WithMetric(passing, metric, after);
    assert ImprovesAll(rules, worse, better);
  }

  lemma ImprovesOne(rules: Rules, i: nat, before: Option<Value>, after: Option<Value>)
    requires DistinctMetrics(rules) && i < |rules.scored| && Improves(rules.scored[i].rule.op, before, after)
    ensures var metric, passing := rules.scored[i].rule.metric, PassingMetrics(rules.hard);
      ImprovesAll(rules, WithMetric(passing, metric, before), WithMetric(passing, metric, after))
  {
    var metric, passing := rules.scored[i].rule.metric, PassingMetrics(rules.hard);
    var worse, better := WithMetric(passing, metric, before), WithMetric(passing, metric, after);
    assert rules.scored[i] in rules.scored && metric !in passing;
    forall q <- rules.scored
      ensures Improves(q.rule.op, Actual(worse, q.rule.metric), Actual(better, q.rule.metric))
    {
      var k :| 0 <= k < |rules.scored| && rules.scored[k] == q;
      assert k == i || q.rule.metric != metric;
    }
  }

  lemma BlockedTotals(rules: Rules)
    requires !CanPass(rules.hard)
    ensures TotalMonotone(rules)
  {
    var r :| r in rules.hard && !KnownOp(r.op);
    forall ppa: Metrics ensures Grade(ppa, rules, ServerCompare).total == 0.0 {
      assert !Passes(r, ppa, ServerCompare);
    }
  }

  /** When no two rules share a metric, the grade is monotone exactly when every
      scored rule is ordered or some hard rule can never pass. */
  lemma DistinctTotalsIff(rules: Rules)
    requires DistinctMetrics(rules)
    ensures TotalMonotone(rules) <==> AllOrdered(rules.scored) || !CanPass(rules.hard)
  {
    if AllOrdered(rules.scored) {
      OrderedTotals(rules);
    } else if !CanPass(rules.hard) {
      BlockedTotals(rules);
    } else {
      var r :| r in rules.scored && !Ordered(r);
      var i :| 0 <= i < |rules.scored| && rules.scored[i] == r;
      UnorderedTotals(rules, i);
    }
  }

  ghost predicate SafeInEveryList(r: ScoredRule) {
    forall hard, others :: AllOrdered(others) ==> TotalMonotone(Rules(hard, others + [r]))
  }

  /** Whatever ordered rules it joins, behind whatever gate, a rule keeps the
      grade monotone exactly when it is ordered itself. */
  lemma SafeIff(r: ScoredRule)
    ensures SafeInEveryList(r) <==> Ordered(r)
  {
    if Ordered(r) {
      forall hard, others | AllOrdered(others) ensures TotalMonotone(Rules(hard, others + [r])) {
        OrderedTotals(Rules(hard, others + [r]));
      }
    } else {
      var hard: seq<Rule>, others: seq<ScoredRule> := [], [];
      UnorderedTotals(Rules(hard, [r]), 0);
      assert AllOrdered(others) && others + [r] == [r] && !TotalMonotone(Rules(hard, others + [r]));
    }
  }

  /** Rules that share a metric can make up for each other: the first is not
      ordered, and the total is monotone all the same. */
  lemma SharedMetricCompensates()
    ensures var a := ScoredRule(Rule("m", "gte", Num(1.0)), 10.0, Some(Partial(Num(0.0), 20.0)));
      var b := ScoredRule(Rule("m", "gte", Num(1.0)), 30.0, None);
      !Ordered(a) && TotalMonotone(Rules([], [a, b]))
  {
    var a := ScoredRule(Rule("m", "gte", Num(1.0)), 10.0, Some(Partial(Num(0.0), 20.0)));
    var b := ScoredRule(Rule("m", "gte", Num(1.0)), 30.0, None);
    forall before, after | ImprovesAll(Rules([], [a, b]), before, after)
      ensures Grade(before, Rules([], [a, b]), ServerCompare).total <= Grade(after, Rules([], [a, b]), ServerCompare).total
    {
      TwoRules(a, b, before);
      TwoRules(a, b, after);
      assert a in [a, b] && b in [a, b];
    }
  }

  lemma TwoRules(a: ScoredRule, b: ScoredRule, ppa: Metrics)
    ensures SumAwards([a, b], ppa, ServerCompare) ==
      Points(a, Actual(ppa, a.rule.metric)) + Points(b, Actual(ppa, b.rule.metric))
  {
    assert [a, b][..1] == [a] && [a][..0] == [];
    assert SumAwards([a], ppa, ServerCompare) == 0.0 + Points(a, Actual(ppa, a.rule.metric));
  }
}
