/**
 * Fuel reconciliation of one job (reconciliation_case.py) and the independent check of its
 * result (verifier.py).  Everything is read from one account's rows.
 *
 * Identifiers, vessels, voyages and systems are numbers; a record that fails validation is a
 * capture without a report.  Quantities are reals, displayed in hundredths rounded half up.
 */
module Reconciliation {
  import opened Common

  /** In the alphabetical order of their names. */
  datatype Grade = Biofuel | Hsfo | Lng | Lpg | Lsmgo | Mdo | Methanol | Mgo | Ulsfo | Vlsfo

  datatype Unit = Tonne | Kilogram | CubicMetre | Litre

  /** A source revision as written, and the integer it reads as, if it does. */
  datatype Revision = Revision(text: string, number: Option<int>)

  datatype Report = Report(vessel: nat, voyage: Option<nat>, start: Option<int>, end: Option<int>)

  datatype Capture = Capture(revision: Revision, system: nat, externalRef: nat, report: Option<Report>)

  datatype Observation = Observation(id: nat, capture: nat, grade: Grade, value: real, unit: Unit, start: int, end: int)

  type Captures = map<nat, Capture>

  datatype Job = Job(vessel: nat, voyage: Option<nat>, header: string)

  /** A job's actual observations and all plan observations, in the order the queries return them. */
  datatype Ledger = Ledger(captures: Captures, actuals: seq<Observation>, plans: seq<Observation>)

  datatype Key = Key(grade: Grade, start: int, end: int)

  function KeyOf(o: Observation): Key {
    Key(o.grade, o.start, o.end)
  }

  // ---------------------------------------------------------------------------------------
  // The current observation of a group
  // ---------------------------------------------------------------------------------------

  function RevisionOf(captures: Captures, o: Observation): Revision {
    if o.capture in captures then captures[o.capture].revision else Revision("", None)
  }

  datatype Resolved = Resolved(chosen: Option<Observation>, ambiguous: bool)

  predicate Numbered(captures: Captures, rows: seq<Observation>) {
    forall i | 0 <= i < |rows| :: RevisionOf(captures, rows[i]).number.Some?
  }

  function Newest(captures: Captures, rows: seq<Observation>): int
    requires rows != [] && Numbered(captures, rows)
  {
    var last := RevisionOf(captures, rows[|rows| - 1]).number.value;
    if |rows| == 1 then last
    else
      var earlier := Newest(captures, rows[..|rows| - 1]);
      if earlier >= last then earlier else last
  }

  function Candidates(captures: Captures, rows: seq<Observation>, newest: int): seq<Observation> {
    if rows == [] then []
    else
      var last := rows[|rows| - 1];
      Candidates(captures, rows[..|rows| - 1], newest) + if RevisionOf(captures, last).number == Some(newest) then [last] else []
  }

  function ResolveCurrent(captures: Captures, rows: seq<Observation>): Resolved {
    if rows == [] then Resolved(None, false)
    else if |rows| == 1 then Resolved(Some(rows[0]), false)
    else if !Numbered(captures, rows) then Resolved(None, true)
    else
      var candidates := Candidates(captures, rows, Newest(captures, rows));
      if |candidates| == 1 then Resolved(Some(candidates[0]), false) else Resolved(None, true)
  }

  // ---------------------------------------------------------------------------------------
  // Plans
  // ---------------------------------------------------------------------------------------

  function ReportOf(captures: Captures, o: Observation): Option<Report> {
    if o.capture in captures then captures[o.capture].report else None
  }

  /** The plan observation is for the same vessel, voyage, grade and interval as the report. */
  predicate MatchesPlan(captures: Captures, job: Job, report: Report, actual: Observation, p: Observation) {
    && p.capture in captures && KeyOf(p) == KeyOf(actual)
    && var plan := captures[p.capture].report;
    && plan.Some? && plan.value.vessel == job.vessel && plan.value.voyage == report.voyage
    && plan.value.start.Some? && plan.value.end.Some?
    && plan.value.start.value <= actual.start && actual.end <= plan.value.end.value
  }

  /** The matching ones of the first `n` plan observations. */
  function Matches(l: Ledger, job: Job, report: Report, actual: Observation, n: nat): (matches: seq<Observation>)
    requires n <= |l.plans|
    ensures forall i | 0 <= i < |matches| :: MatchesPlan(l.captures, job, report, actual, matches[i])
  {
    if n == 0 then []
    else Matches(l, job, report, actual, n - 1) + if MatchesPlan(l.captures, job, report, actual, l.plans[n - 1]) then [l.plans[n - 1]] else []
  }

  function Lineages(captures: Captures, rows: seq<Observation>): set<(nat, nat)> {
    set o | o in rows && o.capture in captures :: (captures[o.capture].system, captures[o.capture].externalRef)
  }

  function MatchingPlans(l: Ledger, job: Job, actual: Observation): seq<Observation> {
    var report := ReportOf(l.captures, actual);
    if report.None? || report.value.vessel != job.vessel then []
    else if job.voyage.Some? && report.value.voyage != job.voyage then []
    else
      var matches := Matches(l, job, report.value, actual, |l.plans|);
      if |Lineages(l.captures, matches)| <= 1 then matches else []
  }

  // ---------------------------------------------------------------------------------------
  // The calculator
  // ---------------------------------------------------------------------------------------

  /** `quantize(0.01, ROUND_HALF_UP)`, in hundredths. */
  function Round2(x: real): int {
    if x >= 0.0 then (x * 100.0 + 0.5).Floor else -(-x * 100.0 + 0.5).Floor
  }

  datatype Reason = MissingInput | UnresolvedRevision | UnresolvedPlanRevision | GradeMismatch | IncompatibleBasis | IntervalMismatch | NegativeQuantity

  datatype Entry =
    | Unresolved(grade: Grade, reason: Reason)
    | Reconciled(key: Key, unit: Unit, actual: real, planned: real, delta: int, percent: Option<int>)

  function Percent(actual: real, planned: real): Option<int> {
    if planned == 0.0 then None else Some(Round2((actual - planned) / planned * 100.0))
  }

  function FuelVariance(actual: Observation, planned: Observation): Result<Entry, Reason> {
    if actual.grade != planned.grade then Err(GradeMismatch)
    else if actual.unit != planned.unit then Err(IncompatibleBasis)
    else if actual.start != planned.start || actual.end != planned.end then Err(IntervalMismatch)
    else if actual.value < 0.0 || planned.value < 0.0 then Err(NegativeQuantity)
    else Ok(Reconciled(KeyOf(actual), actual.unit, actual.value, planned.value, Round2(actual.value - planned.value),
                       Percent(actual.value, planned.value)))
  }

  // ---------------------------------------------------------------------------------------
  // The case result
  // ---------------------------------------------------------------------------------------

  predicate Before(a: Key, b: Key) {
    Rank(a.grade) < Rank(b.grade)
    || (a.grade == b.grade && (a.start < b.start || (a.start == b.start && a.end < b.end)))
  }

  function Rank(g: Grade): nat {
    match g
    case Biofuel => 0
    case Hsfo => 1
    case Lng => 2
    case Lpg => 3
    case Lsmgo => 4
    case Mdo => 5
    case Methanol => 6
    case Mgo => 7
    case Ulsfo => 8
    case Vlsfo => 9
  }

  /** Adds a key to a sorted list of distinct keys. */
  function Insert(keys: seq<Key>, k: Key): seq<Key> {
    if keys == [] then [k]
    else
      var last := keys[|keys| - 1];
      if last == k then keys else if Before(last, k) then keys + [k] else Insert(keys[..|keys| - 1], k) + [last]
  }

  /** The sorted keys of the first `n` observations. */
  function Keys(rows: seq<Observation>, n: nat): seq<Key>
    requires n <= |rows|
  {
    if n == 0 then [] else Insert(Keys(rows, n - 1), KeyOf(rows[n - 1]))
  }

  /** The ones of the first `n` observations that have the key. */
  function Group(rows: seq<Observation>, k: Key, n: nat): seq<Observation>
    requires n <= |rows|
  {
    if n == 0 then [] else Group(rows, k, n - 1) + if KeyOf(rows[n - 1]) == k then [rows[n - 1]] else []
  }

  function CurrentOf(l: Ledger, k: Key): Resolved {
    ResolveCurrent(l.captures, Group(l.actuals, k, |l.actuals|))
  }

  function PlanOf(l: Ledger, job: Job, actual: Observation): Resolved {
    ResolveCurrent(l.captures, MatchingPlans(l, job, actual))
  }

  datatype Role = ActualRole | PlannedRole

  datatype EvidenceRef = EvidenceRef(role: Role, observation: Observation, revision: string)

  /** A group's entry and evidence; `override` replaces the actual quantity handed to the calculator. */
  datatype Line = Line(entry: Entry, evidence: multiset<EvidenceRef>)

  function LineOf(l: Ledger, job: Job, override: Option<Observation>, k: Key): Line {
    var current := CurrentOf(l, k);
    if current.chosen.None?
    then Line(Unresolved(k.grade, if current.ambiguous then UnresolvedRevision else MissingInput), multiset{})
    else
      var actual := current.chosen.value;
      var plan, seen := PlanOf(l, job, actual), EvidenceRef(ActualRole, actual, RevisionOf(l.captures, actual).text);
      if plan.chosen.None?
      then Line(Unresolved(k.grade, if plan.ambiguous then UnresolvedPlanRevision else MissingInput), multiset{seen})
      else
        var outcome := FuelVariance(if override.Some? then override.value else actual, plan.chosen.value);
        Line(if outcome.Ok? then outcome.value else Unresolved(k.grade, outcome.error),
             multiset{seen, EvidenceRef(PlannedRole, plan.chosen.value, RevisionOf(l.captures, plan.chosen.value).text)})
  }

  function Entries(l: Ledger, job: Job, override: Option<Observation>, keys: seq<Key>, n: nat): seq<Entry>
    requires n <= |keys|
  {
    if n == 0 then [] else Entries(l, job, override, keys, n - 1) + [LineOf(l, job, override, keys[n - 1]).entry]
  }

  function Evidence(l: Ledger, job: Job, keys: seq<Key>, n: nat): multiset<EvidenceRef>
    requires n <= |keys|
  {
    if n == 0 then multiset{} else Evidence(l, job, keys, n - 1) + LineOf(l, job, None, keys[n - 1]).evidence
  }

  predicate AnyUnresolved(entries: seq<Entry>) {
    exists i | 0 <= i < |entries| :: entries[i].Unresolved?
  }

  /** The content hash digests the job and its entries, the evidence hash the evidence. */
  datatype CaseResult = CaseResult(job: Job, entries: seq<Entry>, evidence: multiset<EvidenceRef>, unresolved: bool)

  function Compute(l: Ledger, job: Job, override: Option<Observation>): CaseResult {
    var keys := Keys(l.actuals, |l.actuals|);
    var entries := Entries(l, job, override, keys, |keys|);
    CaseResult(job, entries, Evidence(l, job, keys, |keys|), l.actuals == [] || AnyUnresolved(entries))
  }

  /** What the documentation asks for: each group's current observation against its plan. */
  function Intended(l: Ledger, job: Job): CaseResult {
    Compute(l, job, None)
  }

  /**
   * What the code computes: the call at reconciliation_case.py:228 passes the variable `actual`
   * left over from the grouping loop, which is the last row the query returned.
   */
  function Written(l: Ledger, job: Job): CaseResult {
    Compute(l, job, if l.actuals == [] then None else Some(l.actuals[|l.actuals| - 1]))
  }

  // ---------------------------------------------------------------------------------------
  // Independent verification
  // ---------------------------------------------------------------------------------------

  datatype Fact = Fact(key: Key, actual: real, planned: Option<real>, isCurrent: bool)

  /** The facts of the first `n` groups; a group without a current observation has none. */
  function Facts(l: Ledger, job: Job, keys: seq<Key>, n: nat): seq<Fact>
    requires n <= |keys|
  {
    if n == 0 then []
    else
      var before, current := Facts(l, job, keys, n - 1), CurrentOf(l, keys[n - 1]);
      if current.chosen.None? then before
      else
        var actual := current.chosen.value;
        var plan := PlanOf(l, job, actual).chosen;
        before + [Fact(KeyOf(actual), actual.value, if plan.Some? then Some(plan.value.value) else None, !current.ambiguous)]
  }

  function BuildEvidence(l: Ledger, job: Job): seq<Fact> {
    var keys := Keys(l.actuals, |l.actuals|);
    Facts(l, job, keys, |keys|)
  }

  /** The first fact of the key. */
  function MatchFact(facts: seq<Fact>, k: Key): Option<Fact> {
    if facts == [] then None else if facts[0].key == k then Some(facts[0]) else MatchFact(facts[1..], k)
  }

  predicate VerifiedEntry(e: Entry, facts: seq<Fact>)
    requires e.Reconciled?
  {
    var fact := MatchFact(facts, e.key);
    && fact.Some? && fact.value.isCurrent && fact.value.planned.Some?
    && e.actual == fact.value.actual && e.planned == fact.value.planned.value
    && e.delta == Round2(fact.value.actual - fact.value.planned.value)
    && e.percent == Percent(fact.value.actual, fact.value.planned.value)
  }

  predicate Seen(entries: seq<Entry>, k: Key) {
    exists i | 0 <= i < |entries| :: entries[i].Reconciled? && entries[i].key == k
  }

  /** No finding: every reconciled entry checks out, none repeats a key, no planned fact is missing. */
  predicate Verified(entries: seq<Entry>, facts: seq<Fact>) {
    && entries != []
    && (forall i | 0 <= i < |entries| && entries[i].Reconciled? :: VerifiedEntry(entries[i], facts))
    && (forall i, j | 0 <= i < j < |entries| && entries[i].Reconciled? && entries[j].Reconciled? :: entries[i].key != entries[j].key)
    && (forall i | 0 <= i < |facts| && facts[i].planned.Some? :: Seen(entries, facts[i].key))
  }

  predicate AnyReconciled(entries: seq<Entry>) {
    exists i | 0 <= i < |entries| :: entries[i].Reconciled?
  }

  /** The verdict lets the case complete and be published (`finalize_case_status`). */
  predicate Completes(r: CaseResult, facts: seq<Fact>) {
    Verified(r.entries, facts) && AnyReconciled(r.entries) && !r.unresolved
  }

  // ---------------------------------------------------------------------------------------
  // The computation as the code runs it
  // ---------------------------------------------------------------------------------------

  method ResolveRows(captures: Captures, rows: seq<Observation>) returns (r: Resolved)
    ensures r == ResolveCurrent(captures, rows)
  {
    if rows == [] {
      return Resolved(None, false);
    }
    if |rows| == 1 {
      return Resolved(Some(rows[0]), false);
    }
    var newest := 0;
    for i := 0 to |rows|
      invariant Numbered(captures, rows[..i])
      invariant i > 0 ==> newest == Newest(captures, rows[..i])
    {
      var number := RevisionOf(captures, rows[i]).number;
      if number.None? {
        return Resolved(None, true);
      }
      assert rows[..i + 1][..i] == rows[..i];
      if i == 0 || number.value > newest {
        newest := number.value;
      }
    }
    assert rows[..|rows|] == rows;
    var candidates: seq<Observation> := [];
    for i := 0 to |rows|
      invariant candidates == Candidates(captures, rows[..i], newest)
    {
      assert rows[..i + 1][..i] == rows[..i];
      if RevisionOf(captures, rows[i]).number == Some(newest) {
        candidates := candidates + [rows[i]];
      }
    }
    return if |candidates| == 1 then Resolved(Some(candidates[0]), false) else Resolved(None, true);
  }

  method FindPlans(l: Ledger, job: Job, actual: Observation) returns (plans: seq<Observation>)
    ensures plans == MatchingPlans(l, job, actual)
  {
    var report := ReportOf(l.captures, actual);
    if report.None? || report.value.vessel != job.vessel {
      return [];
    }
    if job.voyage.Some? && report.value.voyage != job.voyage {
      return [];
    }
    plans := [];
    var lineages: set<(nat, nat)> := {};
    for i := 0 to |l.plans|
      invariant plans == Matches(l, job, report.value, actual, i) && lineages == Lineages(l.captures, plans)
    {
      var p := l.plans[i];
      if MatchesPlan(l.captures, job, report.value, actual, p) {
        LineagesOfOneMore(l.captures, plans, p);
        plans := plans + [p];
        lineages := lineages + {(l.captures[p.capture].system, l.captures[p.capture].externalRef)};
      }
    }
    if |lineages| > 1 {
      plans := [];
    }
  }

  lemma LineagesOfOneMore(captures: Captures, rows: seq<Observation>, p: Observation)
    requires p.capture in captures
    ensures Lineages(captures, rows + [p]) == Lineages(captures, rows) + {(captures[p.capture].system, captures[p.capture].externalRef)}
  {
    assert p in rows + [p];
  }

  function GroupIn(groups: map<Key, seq<Observation>>, k: Key): seq<Observation> {
    if k in groups then groups[k] else []
  }

  method GroupActuals(l: Ledger) returns (keys: seq<Key>, groups: map<Key, seq<Observation>>)
    ensures keys == Keys(l.actuals, |l.actuals|)
    ensures forall k :: GroupIn(groups, k) == Group(l.actuals, k, |l.actuals|)
  {
    hide Insert;
    keys, groups := [], map[];
    for i := 0 to |l.actuals|
      invariant keys == Keys(l.actuals, i)
      invariant forall k :: GroupIn(groups, k) == Group(l.actuals, k, i)
    {
      var o := l.actuals[i];
      var k := KeyOf(o);
      keys := Insert(keys, k);
      ghost var before := groups;
      groups := groups[k := GroupIn(groups, k) + [o]];
      forall q ensures GroupIn(groups, q) == Group(l.actuals, q, i + 1) {
        assert GroupIn(before, q) == Group(l.actuals, q, i);
      }
    }
  }

  /** One group: its entry and its evidence. */
  method ReconcileGroup(l: Ledger, job: Job, leftover: Observation, k: Key, group: seq<Observation>) returns (line: Line)
    requires group == Group(l.actuals, k, |l.actuals|)
    ensures line == LineOf(l, job, Some(leftover), k)
  {
    hide ResolveCurrent, MatchingPlans, FuelVariance, Group;
    var current := ResolveRows(l.captures, group);
    if current.chosen.None? {
      return Line(Unresolved(k.grade, if current.ambiguous then UnresolvedRevision else MissingInput), multiset{});
    }
    var actual := current.chosen.value;
    var seen := EvidenceRef(ActualRole, actual, RevisionOf(l.captures, actual).text);
    var rows := FindPlans(l, job, actual);
    var plan := ResolveRows(l.captures, rows);
    if plan.chosen.None? {
      return Line(Unresolved(k.grade, if plan.ambiguous then UnresolvedPlanRevision else MissingInput), multiset{seen});
    }
    var outcome := FuelVariance(leftover, plan.chosen.value);
    return Line(if outcome.Ok? then outcome.value else Unresolved(k.grade, outcome.error),
                multiset{seen, EvidenceRef(PlannedRole, plan.chosen.value, RevisionOf(l.captures, plan.chosen.value).text)});
  }

  lemma EvidenceIgnoresOverride(l: Ledger, job: Job, override: Option<Observation>, k: Key)
    ensures LineOf(l, job, override, k).evidence == LineOf(l, job, None, k).evidence
  {
    hide CurrentOf, PlanOf, FuelVariance;
  }

  lemma {:induction false} NoKeysWithoutRows(rows: seq<Observation>, n: nat)
    requires n <= |rows|
    ensures Keys(rows, n) == [] <==> n == 0
  {
    if n > 0 {
      NoKeysWithoutRows(rows, n - 1);
    }
  }

  method ComputeCaseResult(l: Ledger, job: Job) returns (r: CaseResult)
    ensures r == Written(l, job)
  {
    hide LineOf, Keys, Group;
    var keys, groups := GroupActuals(l);
    NoKeysWithoutRows(l.actuals, |l.actuals|);
    var entries: seq<Entry> := [];
    var evidence: multiset<EvidenceRef> := multiset{};
    var unresolved := l.actuals == [];
    if l.actuals != [] {
      var leftover := l.actuals[|l.actuals| - 1];
      for i := 0 to |keys|
        invariant entries == Entries(l, job, Some(leftover), keys, i) && evidence == Evidence(l, job, keys, i)
        invariant unresolved <==> AnyUnresolved(entries)
      {
        var line := ReconcileGroup(l, job, leftover, keys[i], GroupIn(groups, keys[i]));
        EvidenceIgnoresOverride(l, job, Some(leftover), keys[i]);
        UnresolvedOfOneMore(entries, line.entry);
        entries := entries + [line.entry];
        evidence := evidence + line.evidence;
        unresolved := unresolved || line.entry.Unresolved?;
      }
    }
    return CaseResult(job, entries, evidence, unresolved);
  }

  lemma UnresolvedOfOneMore(entries: seq<Entry>, e: Entry)
    ensures AnyUnresolved(entries + [e]) <==> AnyUnresolved(entries) || e.Unresolved?
  {
    var more := entries + [e];
    if AnyUnresolved(entries) {
      var i :| 0 <= i < |entries| && entries[i].Unresolved?;
      assert more[i].Unresolved?;
    }
    if e.Unresolved? {
      assert more[|entries|].Unresolved?;
    }
  }

  method ReconstructEvidence(l: Ledger, job: Job) returns (facts: seq<Fact>)
    ensures facts == BuildEvidence(l, job)
  {
    hide ResolveCurrent, MatchingPlans, Keys, Group;
    var keys, groups := GroupActuals(l);
    facts := [];
    for i := 0 to |keys|
      invariant facts == Facts(l, job, keys, i)
    {
      var current := ResolveRows(l.captures, GroupIn(groups, keys[i]));
      if current.chosen.None? {
        continue;
      }
      var actual := current.chosen.value;
      var rows := FindPlans(l, job, actual);
      var plan := ResolveRows(l.captures, rows);
      facts := facts + [Fact(KeyOf(actual), actual.value, if plan.chosen.Some? then Some(plan.chosen.value.value) else None, !current.ambiguous)];
    }
  }
}
