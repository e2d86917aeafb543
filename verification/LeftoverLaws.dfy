/**
 * What the leftover loop variable at reconciliation_case.py:228 does to case results: exactly
 * when the written result is the intended one, and exactly which cases can complete.
 */
module LeftoverLaws {
  import opened Common
  import opened Reconciliation
  import opened ReconciliationLaws

  function JobKeys(l: Ledger): seq<Key> {
    Keys(l.actuals, |l.actuals|)
  }

  function Last(l: Ledger): Observation
    requires l.actuals != []
  {
    l.actuals[|l.actuals| - 1]
  }

  /** The group has a current observation and a plan for it, so that the calculator is called. */
  predicate Calculated(l: Ledger, job: Job, k: Key) {
    CurrentOf(l, k).chosen.Some? && PlanOf(l, job, CurrentOf(l, k).chosen.value).chosen.Some?
  }

  function Current(l: Ledger, k: Key): Observation
    requires CurrentOf(l, k).chosen.Some?
  {
    CurrentOf(l, k).chosen.value
  }

  function Plan(l: Ledger, job: Job, k: Key): Observation
    requires Calculated(l, job, k)
  {
    PlanOf(l, job, Current(l, k)).chosen.value
  }

  lemma ChosenIsRow(captures: Captures, rows: seq<Observation>)
    requires ResolveCurrent(captures, rows).chosen.Some?
    ensures ResolveCurrent(captures, rows).chosen.value in rows
  {
    ResolveExactly(captures, rows, ResolveCurrent(captures, rows).chosen.value);
  }

  lemma {:induction false} GroupHasKey(rows: seq<Observation>, k: Key, n: nat, o: Observation)
    requires n <= |rows| && o in Group(rows, k, n)
    ensures KeyOf(o) == k
  {
    if o in Group(rows, k, n - 1) {
      GroupHasKey(rows, k, n - 1, o);
    }
  }

  lemma CurrentHasKey(l: Ledger, k: Key)
    requires CurrentOf(l, k).chosen.Some?
    ensures KeyOf(Current(l, k)) == k
  {
    ChosenIsRow(l.captures, Group(l.actuals, k, |l.actuals|));
    GroupHasKey(l.actuals, k, |l.actuals|, Current(l, k));
  }

  lemma PlanHasKey(l: Ledger, job: Job, k: Key)
    requires Calculated(l, job, k)
    ensures KeyOf(Plan(l, job, k)) == k
  {
    hide ResolveCurrent;
    CurrentHasKey(l, k);
    ChosenIsRow(l.captures, MatchingPlans(l, job, Current(l, k)));
  }

  // ---------------------------------------------------------------------------------------
  // Written against intended
  // ---------------------------------------------------------------------------------------

  predicate Negative(actual: Observation, plan: Observation) {
    actual.value < 0.0 || plan.value < 0.0
  }

  /** Calculating with the last row instead of the current one makes no difference. */
  predicate Agrees(last: Observation, current: Observation, plan: Observation) {
    && last.grade == plan.grade
    && if last.unit != plan.unit then current.unit != plan.unit
       else
         && current.unit == plan.unit && last.start == plan.start && last.end == plan.end
         && (last.value == current.value || (Negative(last, plan) && Negative(current, plan)))
  }

  lemma AgreesExactly(last: Observation, current: Observation, plan: Observation)
    requires KeyOf(current) == KeyOf(plan)
    ensures FuelVariance(last, plan) == FuelVariance(current, plan) <==> Agrees(last, current, plan)
  {
    hide Round2, Percent;
  }

  /** Every group that reaches the calculator gets the intended entry. */
  ghost predicate AllAgree(l: Ledger, job: Job, keys: seq<Key>, n: nat)
    requires l.actuals != [] && n <= |keys|
  {
    forall i | 0 <= i < n && Calculated(l, job, keys[i]) :: Agrees(Last(l), Current(l, keys[i]), Plan(l, job, keys[i]))
  }

  lemma LineAgrees(l: Ledger, job: Job, k: Key)
    requires l.actuals != []
    ensures LineOf(l, job, Some(Last(l)), k).entry == LineOf(l, job, None, k).entry
            <==> (Calculated(l, job, k) ==> Agrees(Last(l), Current(l, k), Plan(l, job, k)))
  {
    hide CurrentOf, PlanOf, FuelVariance, Agrees;
    if Calculated(l, job, k) {
      CurrentHasKey(l, k);
      PlanHasKey(l, job, k);
      AgreesExactly(Last(l), Current(l, k), Plan(l, job, k));
      OutcomesDiffer(FuelVariance(Last(l), Plan(l, job, k)), FuelVariance(Current(l, k), Plan(l, job, k)), Last(l), Current(l, k), Plan(l, job, k), k.grade);
    }
  }

  /** Two outcomes of the calculator differ exactly when the entries written for them do. */
  lemma OutcomesDiffer(a: Result<Entry, Reason>, b: Result<Entry, Reason>, last: Observation, current: Observation, plan: Observation, g: Grade)
    requires a == FuelVariance(last, plan) && b == FuelVariance(current, plan)
    ensures a == b <==> (if a.Ok? then a.value else Unresolved(g, a.error)) == if b.Ok? then b.value else Unresolved(g, b.error)
  {
    hide Round2, Percent;
  }

  lemma {:induction false} EntriesAgree(l: Ledger, job: Job, keys: seq<Key>, n: nat)
    requires l.actuals != [] && n <= |keys|
    ensures Entries(l, job, Some(Last(l)), keys, n) == Entries(l, job, None, keys, n) <==> AllAgree(l, job, keys, n)
  {
    hide LineOf, AllAgree, Last;
    if n == 0 {
      NoneToAgree(l, job, keys);
    } else {
      EntriesAgree(l, job, keys, n - 1);
      LineAgrees(l, job, keys[n - 1]);
      AllAgreeStep(l, job, keys, n - 1);
      LengthOfEntries(l, job, Some(Last(l)), keys, n - 1);
      LengthOfEntries(l, job, None, keys, n - 1);
      EntriesStep(Entries(l, job, Some(Last(l)), keys, n - 1), Entries(l, job, None, keys, n - 1),
                  LineOf(l, job, Some(Last(l)), keys[n - 1]).entry, LineOf(l, job, None, keys[n - 1]).entry);
    }
  }

  lemma NoneToAgree(l: Ledger, job: Job, keys: seq<Key>)
    requires l.actuals != []
    ensures AllAgree(l, job, keys, 0)
  {
  }

  lemma AllAgreeStep(l: Ledger, job: Job, keys: seq<Key>, n: nat)
    requires l.actuals != [] && n < |keys|
    ensures AllAgree(l, job, keys, n + 1) <==>
              AllAgree(l, job, keys, n) && (Calculated(l, job, keys[n]) ==> Agrees(Last(l), Current(l, keys[n]), Plan(l, job, keys[n])))
  {
    hide CurrentOf, PlanOf, Agrees;
  }

  lemma EntriesStep(a: seq<Entry>, b: seq<Entry>, x: Entry, y: Entry)
    requires |a| == |b|
    ensures a + [x] == b + [y] <==> a == b && x == y
  {
    if a + [x] == b + [y] {
      assert a == (a + [x])[..|a|] && b == (b + [y])[..|b|];
      assert x == (a + [x])[|a|] && y == (b + [y])[|b|];
    }
  }

  lemma {:induction false} LengthOfEntries(l: Ledger, job: Job, override: Option<Observation>, keys: seq<Key>, n: nat)
    requires n <= |keys|
    ensures |Entries(l, job, override, keys, n)| == n
    ensures forall i | 0 <= i < n :: Entries(l, job, override, keys, n)[i] == LineOf(l, job, override, keys[i]).entry
  {
    hide LineOf;
    if n > 0 {
      LengthOfEntries(l, job, override, keys, n - 1);
    }
  }

  /**
   * The written result is the intended one exactly when, for every group that reaches the
   * calculator, the last row of the query agrees with the group's current observation.
   */
  lemma WrittenIsIntendedExactly(l: Ledger, job: Job)
    requires l.actuals != []
    ensures Written(l, job) == Intended(l, job) <==> AllAgree(l, job, JobKeys(l), |JobKeys(l)|)
  {
    hide Keys, LineOf, AllAgree;
    EntriesAgree(l, job, JobKeys(l), |JobKeys(l)|);
  }

  /** A job with at most one observation is not affected. */
  lemma SingleObservationIsIntended(l: Ledger, job: Job)
    requires |l.actuals| <= 1
    ensures Written(l, job) == Intended(l, job)
  {
    if |l.actuals| == 1 {
      var o := l.actuals[0];
      assert Keys(l.actuals, 0) == [] && Keys(l.actuals, 1) == [KeyOf(o)];
      assert Group(l.actuals, KeyOf(o), 0) == [] && Group(l.actuals, KeyOf(o), 1) == [o];
      if Calculated(l, job, KeyOf(o)) {
        PlanHasKey(l, job, KeyOf(o));
      }
      WrittenIsIntendedExactly(l, job);
    } else {
      assert Keys(l.actuals, 0) == [];
    }
  }

  // ---------------------------------------------------------------------------------------
  // Which cases complete
  // ---------------------------------------------------------------------------------------

  /** The quantities can be subtracted. */
  predicate Comparable(actual: Observation, plan: Observation) {
    actual.unit == plan.unit && !Negative(actual, plan)
  }

  lemma LineReconciles(l: Ledger, job: Job, override: Option<Observation>, k: Key)
    ensures LineOf(l, job, override, k).entry.Reconciled? <==>
              && Calculated(l, job, k)
              && var actual := if override.Some? then override.value else Current(l, k);
              KeyOf(actual) == k && Comparable(actual, Plan(l, job, k))
    ensures LineOf(l, job, override, k).entry.Reconciled? ==>
              var actual, plan := if override.Some? then override.value else Current(l, k), Plan(l, job, k);
              LineOf(l, job, override, k).entry
              == Reconciled(k, actual.unit, actual.value, plan.value, Round2(actual.value - plan.value), Percent(actual.value, plan.value))
  {
    hide CurrentOf, PlanOf, Round2, Percent;
    if Calculated(l, job, k) {
      CurrentHasKey(l, k);
      PlanHasKey(l, job, k);
    }
  }

  lemma KeysDiffer(l: Ledger)
    ensures forall i, j | 0 <= i < j < |JobKeys(l)| :: JobKeys(l)[i] != JobKeys(l)[j]
    ensures forall i | 0 <= i < |l.actuals| :: KeyOf(l.actuals[i]) in JobKeys(l)
  {
    hide Before, Keys;
    KeysAreSorted(l.actuals, |l.actuals|);
    forall i, j | 0 <= i < j < |JobKeys(l)| ensures JobKeys(l)[i] != JobKeys(l)[j] {
      BeforeIsStrict(JobKeys(l)[i], JobKeys(l)[i]);
    }
  }

  lemma {:induction false} FactsAlign(l: Ledger, job: Job, keys: seq<Key>, n: nat)
    requires n <= |keys| && forall i | 0 <= i < n :: CurrentOf(l, keys[i]).chosen.Some?
    ensures |Facts(l, job, keys, n)| == n
    ensures forall i | 0 <= i < n ::
              Facts(l, job, keys, n)[i].key == keys[i] && Facts(l, job, keys, n)[i].actual == Current(l, keys[i]).value
              && Facts(l, job, keys, n)[i].isCurrent
              && Facts(l, job, keys, n)[i].planned == if Calculated(l, job, keys[i]) then Some(Plan(l, job, keys[i]).value) else None
  {
    hide Candidates, Newest, PlanOf;
    if n > 0 {
      FactsAlign(l, job, keys, n - 1);
      CurrentHasKey(l, keys[n - 1]);
    }
  }

  lemma {:induction false} MatchesOwnFact(facts: seq<Fact>, i: nat)
    requires i < |facts| && forall j, k | 0 <= j < k < |facts| :: facts[j].key != facts[k].key
    ensures MatchFact(facts, facts[i].key) == Some(facts[i])
  {
    if i > 0 {
      assert facts[1..][i - 1] == facts[i];
      MatchesOwnFact(facts[1..], i - 1);
    }
  }

  /** The group's entry is reconciled on the value of its current observation. */
  ghost predicate Checks(l: Ledger, job: Job, override: Option<Observation>, k: Key) {
    LineOf(l, job, override, k).entry.Reconciled? && Calculated(l, job, k) && LineOf(l, job, override, k).entry.actual == Current(l, k).value
  }

  ghost predicate AllCheck(l: Ledger, job: Job, override: Option<Observation>) {
    forall i | 0 <= i < |JobKeys(l)| :: Checks(l, job, override, JobKeys(l)[i])
  }

  lemma AllCheckVerifies(l: Ledger, job: Job, override: Option<Observation>)
    requires AllCheck(l, job, override) && JobKeys(l) != []
    ensures Completes(Compute(l, job, override), BuildEvidence(l, job))
  {
    hide Keys, LineOf, Entries, Facts, CurrentOf, PlanOf, Round2, Percent, MatchFact;
    var keys := JobKeys(l);
    var entries, facts := Entries(l, job, override, keys, |keys|), Facts(l, job, keys, |keys|);
    LengthOfEntries(l, job, override, keys, |keys|);
    KeysDiffer(l);
    forall i | 0 <= i < |keys| ensures CurrentOf(l, keys[i]).chosen.Some? {
      assert Checks(l, job, override, keys[i]);
    }
    FactsAlign(l, job, keys, |keys|);
    forall i | 0 <= i < |keys|
      ensures entries[i].Reconciled? && entries[i].key == keys[i] && VerifiedEntry(entries[i], facts)
    {
      assert Checks(l, job, override, keys[i]);
      LineReconciles(l, job, override, keys[i]);
      MatchesOwnFact(facts, i);
    }
    assert Seen(entries, keys[0]) by { assert entries[0].key == keys[0]; }
    forall i | 0 <= i < |facts| ensures Seen(entries, facts[i].key) {
      assert entries[i].key == keys[i];
    }
    assert entries[0].Reconciled?;
    assert l.actuals != [] by { NoKeysWithoutRows(l.actuals, |l.actuals|); }
  }

  lemma CompletedAllCheck(l: Ledger, job: Job, override: Option<Observation>)
    requires Completes(Compute(l, job, override), BuildEvidence(l, job))
    ensures AllCheck(l, job, override) && JobKeys(l) != []
  {
    hide Keys, LineOf, Entries, Facts, CurrentOf, PlanOf, Round2, Percent, MatchFact;
    var keys := JobKeys(l);
    var entries, facts := Entries(l, job, override, keys, |keys|), Facts(l, job, keys, |keys|);
    LengthOfEntries(l, job, override, keys, |keys|);
    KeysDiffer(l);
    forall i | 0 <= i < |keys| ensures entries[i].Reconciled? && Calculated(l, job, keys[i]) && CurrentOf(l, keys[i]).chosen.Some? && entries[i].key == keys[i] {
      assert !entries[i].Unresolved?;
      LineReconciles(l, job, override, keys[i]);
    }
    FactsAlign(l, job, keys, |keys|);
    forall i | 0 <= i < |keys| ensures Checks(l, job, override, keys[i]) {
      assert VerifiedEntry(entries[i], facts);
      MatchesOwnFact(facts, i);
    }
  }

  /** Every group has comparable current and planned quantities. */
  ghost predicate AllComparable(l: Ledger, job: Job) {
    forall i | 0 <= i < |JobKeys(l)| ::
      Calculated(l, job, JobKeys(l)[i]) && Comparable(Current(l, JobKeys(l)[i]), Plan(l, job, JobKeys(l)[i]))
  }

  /** The intended result completes exactly when every group is comparable, and there is one. */
  lemma IntendedCompletesExactly(l: Ledger, job: Job)
    ensures Completes(Intended(l, job), BuildEvidence(l, job)) <==> JobKeys(l) != [] && AllComparable(l, job)
  {
    hide Keys, LineOf, Completes, Compute, Comparable, JobKeys;
    forall i | 0 <= i < |JobKeys(l)|
      ensures Checks(l, job, None, JobKeys(l)[i])
              <==> Calculated(l, job, JobKeys(l)[i]) && Comparable(Current(l, JobKeys(l)[i]), Plan(l, job, JobKeys(l)[i]))
    {
      ChecksExactly(l, job, None, JobKeys(l)[i]);
      if Calculated(l, job, JobKeys(l)[i]) {
        CurrentHasKey(l, JobKeys(l)[i]);
      }
    }
    if Completes(Intended(l, job), BuildEvidence(l, job)) {
      CompletedAllCheck(l, job, None);
    } else if JobKeys(l) != [] && AllCheck(l, job, None) {
      AllCheckVerifies(l, job, None);
    }
  }

  /** What it takes for a group's entry to check out, on the row that the calculator is given. */
  lemma ChecksExactly(l: Ledger, job: Job, override: Option<Observation>, k: Key)
    ensures Checks(l, job, override, k) <==>
              && Calculated(l, job, k)
              && var actual := if override.Some? then override.value else Current(l, k);
              KeyOf(actual) == k && Comparable(actual, Plan(l, job, k)) && actual.value == Current(l, k).value
  {
    hide LineOf, PlanOf, CurrentOf, Comparable;
    LineReconciles(l, job, override, k);
  }

  /** The job has one group, whose last row has the current value and the plan's unit. */
  predicate OneGroupChecks(l: Ledger, job: Job) {
    && |JobKeys(l)| == 1 && l.actuals != []
    && Calculated(l, job, JobKeys(l)[0])
    && Comparable(Last(l), Plan(l, job, JobKeys(l)[0]))
    && Last(l).value == Current(l, JobKeys(l)[0]).value
  }

  lemma WrittenAllCheck(l: Ledger, job: Job)
    requires l.actuals != [] && JobKeys(l) != []
    ensures AllCheck(l, job, Some(Last(l))) <==> OneGroupChecks(l, job)
  {
    hide Keys, JobKeys, Checks, Comparable, CurrentOf, PlanOf;
    KeysDiffer(l);
    assert KeyOf(Last(l)) in JobKeys(l);
    forall i | 0 <= i < |JobKeys(l)|
      ensures Checks(l, job, Some(Last(l)), JobKeys(l)[i]) ==> KeyOf(Last(l)) == JobKeys(l)[i]
    {
      ChecksExactly(l, job, Some(Last(l)), JobKeys(l)[i]);
    }
    ChecksExactly(l, job, Some(Last(l)), JobKeys(l)[0]);
    if |JobKeys(l)| > 1 {
      NotAllKeysAre(JobKeys(l), KeyOf(Last(l)));
    }
  }

  lemma NotAllKeysAre(keys: seq<Key>, k: Key)
    requires |keys| > 1 && forall i, j | 0 <= i < j < |keys| :: keys[i] != keys[j]
    ensures exists i | 0 <= i < |keys| :: keys[i] != k
  {
    if keys[0] == k {
      assert keys[1] != k;
    } else {
      assert keys[0] != k;
    }
  }

  /**
   * The written result completes exactly for a job with a single group whose last row has the
   * value of the current observation and the unit of the plan.  In particular no job with two
   * grades or two intervals ever completes.
   */
  lemma WrittenCompletesExactly(l: Ledger, job: Job)
    ensures Completes(Written(l, job), BuildEvidence(l, job)) <==> OneGroupChecks(l, job)
  {
    hide Keys, Completes, Compute, OneGroupChecks, AllCheck, BuildEvidence;
    NoKeysWithoutRows(l.actuals, |l.actuals|);
    if l.actuals != [] {
      WrittenAllCheck(l, job);
      if Completes(Written(l, job), BuildEvidence(l, job)) {
        CompletedAllCheck(l, job, Some(Last(l)));
      } else if OneGroupChecks(l, job) {
        AllCheckVerifies(l, job, Some(Last(l)));
      }
    } else {
      NothingCompletes(l, job);
    }
  }

  lemma NothingCompletes(l: Ledger, job: Job)
    requires l.actuals == []
    ensures !Completes(Written(l, job), BuildEvidence(l, job)) && !OneGroupChecks(l, job)
  {
    hide Keys, Verified;
  }

  /** A job whose observations have two keys never completes, though the intended result may. */
  lemma TwoGroupsNeverComplete(l: Ledger, job: Job, i: nat, j: nat)
    requires i < |l.actuals| && j < |l.actuals| && KeyOf(l.actuals[i]) != KeyOf(l.actuals[j])
    ensures !Completes(Written(l, job), BuildEvidence(l, job))
  {
    hide Keys, Completes, Compute;
    WrittenCompletesExactly(l, job);
    KeysDiffer(l);
  }

  /**
   * When a written result completes it is the intended one, exactly if the current observation
   * has the unit of its plan: the verifier compares values and not units.
   */
  lemma CompletedIsIntendedExactly(l: Ledger, job: Job)
    requires Completes(Written(l, job), BuildEvidence(l, job))
    ensures JobKeys(l) != [] && Calculated(l, job, JobKeys(l)[0])
    ensures Written(l, job) == Intended(l, job) <==> Current(l, JobKeys(l)[0]).unit == Plan(l, job, JobKeys(l)[0]).unit
  {
    hide Keys, Completes, Calculated, Compute, Plan;
    WrittenCompletesExactly(l, job);
    WrittenIsIntendedExactly(l, job);
    KeysDiffer(l);
    var k := JobKeys(l)[0];
    assert KeyOf(Last(l)) == k;
    PlanHasKey(l, job, k);
  }

  // ---------------------------------------------------------------------------------------
  // A job on which the code and its documentation differ
  // ---------------------------------------------------------------------------------------

  const REPORTED := Some(Report(7, None, Some(0), Some(9)))

  /** Two actual observations of one interval, revision 2 correcting revision 1, and their plan. */
  const CAPTURES: map<nat, Capture> :=
    map[1 := Capture(Revision("1", Some(1)), 0, 1, REPORTED), 2 := Capture(Revision("2", Some(2)), 0, 1, REPORTED),
        3 := Capture(Revision("1", Some(1)), 0, 3, REPORTED)]

  const FIRST := Observation(11, 1, Mgo, 10.0, Tonne, 0, 9)
  const CORRECTED := Observation(12, 2, Mgo, 12.0, Tonne, 0, 9)
  const PLANNED := Observation(13, 3, Mgo, 8.0, Tonne, 0, 9)

  lemma TwoRevisions(l: Ledger)
    requires l.captures == CAPTURES && l.plans == [PLANNED] && (l.actuals == [FIRST, CORRECTED] || l.actuals == [CORRECTED, FIRST])
    ensures JobKeys(l) == [Key(Mgo, 0, 9)] && CurrentOf(l, Key(Mgo, 0, 9)).chosen == Some(CORRECTED)
    ensures Calculated(l, Job(7, None, ""), Key(Mgo, 0, 9)) && Plan(l, Job(7, None, ""), Key(Mgo, 0, 9)) == PLANNED
  {
    var k, job := Key(Mgo, 0, 9), Job(7, None, "");
    assert Keys(l.actuals, 0) == [] && Keys(l.actuals, 1) == [k] && Keys(l.actuals, 2) == [k];
    assert Group(l.actuals, k, 0) == [] && Group(l.actuals, k, 1) == [l.actuals[0]] && Group(l.actuals, k, 2) == l.actuals;
    var i := if l.actuals[0] == CORRECTED then 0 else 1;
    assert IsUniqueNewest(l.captures, l.actuals, i);
    ResolveExactly(l.captures, l.actuals, CORRECTED);
    var report := REPORTED.value;
    assert MatchesPlan(l.captures, job, report, CORRECTED, PLANNED);
    assert Matches(l, job, report, CORRECTED, 0) == [] && Matches(l, job, report, CORRECTED, 1) == [PLANNED];
    assert Lineages(l.captures, [PLANNED]) == {(0, 3)};
    assert MatchingPlans(l, job, CORRECTED) == [PLANNED];
  }

  /** The same rows in two orders: one result is the intended one, the other uses the superseded value. */
  lemma WrittenDependsOnOrder()
    ensures var l, l', job := Ledger(CAPTURES, [FIRST, CORRECTED], [PLANNED]), Ledger(CAPTURES, [CORRECTED, FIRST], [PLANNED]), Job(7, None, "");
            && SameRows(l, l') && Written(l, job) == Intended(l, job) && Written(l', job) != Intended(l', job)
            && Completes(Written(l, job), BuildEvidence(l, job)) && !Completes(Written(l', job), BuildEvidence(l', job))
  {
    hide Keys, Calculated, CurrentOf, Compute, Completes, Plan;
    var l, l', job := Ledger(CAPTURES, [FIRST, CORRECTED], [PLANNED]), Ledger(CAPTURES, [CORRECTED, FIRST], [PLANNED]), Job(7, None, "");
    TwoRevisions(l);
    TwoRevisions(l');
    WrittenIsIntendedExactly(l, job);
    WrittenIsIntendedExactly(l', job);
    WrittenCompletesExactly(l, job);
    WrittenCompletesExactly(l', job);
    assert multiset([FIRST, CORRECTED]) == multiset([CORRECTED, FIRST]);
    assert Calculated(l', job, JobKeys(l')[0]);
  }
}
