/** Resolution does not depend on the order in which rows arrive. */
module ReconciliationLaws {
  import opened Common
  import opened Reconciliation

  // ---------------------------------------------------------------------------------------
  // The current observation
  // ---------------------------------------------------------------------------------------

  function NumberOf(captures: Captures, o: Observation): Option<int> {
    RevisionOf(captures, o).number
  }

  lemma {:induction false} NewestIsGreatest(captures: Captures, rows: seq<Observation>)
    requires rows != [] && Numbered(captures, rows)
    ensures forall i | 0 <= i < |rows| :: NumberOf(captures, rows[i]).value <= Newest(captures, rows)
    ensures exists i | 0 <= i < |rows| :: NumberOf(captures, rows[i]).value == Newest(captures, rows)
  {
    if |rows| == 1 {
      assert NumberOf(captures, rows[0]).value == Newest(captures, rows);
    } else {
      var front, last := rows[..|rows| - 1], rows[|rows| - 1];
      NewestIsGreatest(captures, front);
      if Newest(captures, front) >= NumberOf(captures, last).value {
        var i :| 0 <= i < |front| && NumberOf(captures, front[i]).value == Newest(captures, front);
        assert NumberOf(captures, rows[i]).value == Newest(captures, rows);
      } else {
        assert NumberOf(captures, rows[|rows| - 1]).value == Newest(captures, rows);
      }
    }
  }

  lemma {:induction false} CandidatesAre(captures: Captures, rows: seq<Observation>, newest: int)
    ensures forall o :: multiset(Candidates(captures, rows, newest))[o] == if NumberOf(captures, o) == Some(newest) then multiset(rows)[o] else 0
  {
    if rows != [] {
      CandidatesAre(captures, rows[..|rows| - 1], newest);
      assert rows == rows[..|rows| - 1] + [rows[|rows| - 1]];
    }
  }

  /** The observation has an integer revision greater than that of every other row. */
  ghost predicate IsUniqueNewest(captures: Captures, rows: seq<Observation>, i: nat)
    requires i < |rows|
  {
    Numbered(captures, rows) && forall j | 0 <= j < |rows| && j != i :: NumberOf(captures, rows[j]).value < NumberOf(captures, rows[i]).value
  }

  lemma {:induction false} OneCandidate(captures: Captures, rows: seq<Observation>, newest: int)
    ensures |Candidates(captures, rows, newest)| == 1 ==>
              exists i | 0 <= i < |rows| :: IsOnlyWith(captures, rows, newest, i) && rows[i] == Candidates(captures, rows, newest)[0]
    ensures Candidates(captures, rows, newest) == [] ==> forall i | 0 <= i < |rows| :: NumberOf(captures, rows[i]) != Some(newest)
  {
    if rows != [] {
      var front, last := rows[..|rows| - 1], rows[|rows| - 1];
      OneCandidate(captures, front, newest);
      if |Candidates(captures, rows, newest)| == 1 {
        if NumberOf(captures, last) == Some(newest) {
          assert IsOnlyWith(captures, rows, newest, |rows| - 1);
        } else {
          var i :| 0 <= i < |front| && IsOnlyWith(captures, front, newest, i) && front[i] == Candidates(captures, front, newest)[0];
          assert IsOnlyWith(captures, rows, newest, i);
        }
      }
    }
  }

  predicate IsOnlyWith(captures: Captures, rows: seq<Observation>, newest: int, i: nat)
    requires i < |rows|
  {
    NumberOf(captures, rows[i]) == Some(newest) && forall j | 0 <= j < |rows| && j != i :: NumberOf(captures, rows[j]) != Some(newest)
  }

  lemma {:induction false} OnlyOneGivesCandidate(captures: Captures, rows: seq<Observation>, newest: int, i: nat)
    requires i < |rows| && IsOnlyWith(captures, rows, newest, i)
    ensures Candidates(captures, rows, newest) == [rows[i]]
  {
    var front, last := rows[..|rows| - 1], rows[|rows| - 1];
    if i < |rows| - 1 {
      OnlyOneGivesCandidate(captures, front, newest, i);
    } else {
      NoCandidate(captures, front, newest);
    }
  }

  lemma {:induction false} NoCandidate(captures: Captures, rows: seq<Observation>, newest: int)
    requires forall i | 0 <= i < |rows| :: NumberOf(captures, rows[i]) != Some(newest)
    ensures Candidates(captures, rows, newest) == []
  {
    if rows != [] {
      NoCandidate(captures, rows[..|rows| - 1], newest);
    }
  }

  /**
   * An observation is chosen exactly if it is the only one or has the unique greatest integer
   * revision; otherwise a nonempty group is ambiguous.
   */
  lemma ResolveExactly(captures: Captures, rows: seq<Observation>, o: Observation)
    requires rows != []
    ensures ResolveCurrent(captures, rows).chosen == Some(o) <==> exists i | 0 <= i < |rows| :: rows[i] == o && (|rows| == 1 || IsUniqueNewest(captures, rows, i))
    ensures ResolveCurrent(captures, rows).chosen.None? <==> ResolveCurrent(captures, rows).ambiguous
  {
    if |rows| == 1 {
      assert rows[0] == o || ResolveCurrent(captures, rows).chosen != Some(o);
    } else if Numbered(captures, rows) {
      var newest := Newest(captures, rows);
      NewestIsGreatest(captures, rows);
      if ResolveCurrent(captures, rows).chosen == Some(o) {
        OneCandidate(captures, rows, newest);
        var i :| 0 <= i < |rows| && IsOnlyWith(captures, rows, newest, i) && rows[i] == Candidates(captures, rows, newest)[0];
        assert rows[i] == o && IsUniqueNewest(captures, rows, i);
      }
      if i :| 0 <= i < |rows| && rows[i] == o && IsUniqueNewest(captures, rows, i) {
        assert IsOnlyWith(captures, rows, newest, i);
        OnlyOneGivesCandidate(captures, rows, newest, i);
      }
    }
  }

  lemma ResolvePermutes(captures: Captures, rows: seq<Observation>, rows': seq<Observation>)
    requires multiset(rows) == multiset(rows')
    ensures ResolveCurrent(captures, rows) == ResolveCurrent(captures, rows')
  {
    SameElements(rows, rows');
    if |rows| == 1 {
      assert rows[0] in rows;
      assert rows[0] in rows';
    } else if |rows| > 1 {
      NumberedPermutes(captures, rows, rows');
      if Numbered(captures, rows) {
        NewestPermutes(captures, rows, rows');
        var newest := Newest(captures, rows);
        var c, c' := Candidates(captures, rows, newest), Candidates(captures, rows', newest);
        CandidatesAre(captures, rows, newest);
        CandidatesAre(captures, rows', newest);
        assert multiset(c) == multiset(c');
        SameElements(c, c');
        if |c| == 1 {
          assert c[0] in c;
          assert c[0] in c';
        }
      }
    }
  }

  lemma NumberedPermutes(captures: Captures, rows: seq<Observation>, rows': seq<Observation>)
    requires forall o :: o in rows <==> o in rows'
    ensures Numbered(captures, rows) <==> Numbered(captures, rows')
  {
    if Numbered(captures, rows) {
      forall i | 0 <= i < |rows'| ensures RevisionOf(captures, rows'[i]).number.Some? {
        assert rows'[i] in rows;
      }
    } else {
      var i :| 0 <= i < |rows| && RevisionOf(captures, rows[i]).number.None?;
      assert rows[i] in rows';
    }
  }

  lemma NewestPermutes(captures: Captures, rows: seq<Observation>, rows': seq<Observation>)
    requires rows != [] && rows' != [] && Numbered(captures, rows) && Numbered(captures, rows') && forall o :: o in rows <==> o in rows'
    ensures Newest(captures, rows) == Newest(captures, rows')
  {
    NewestIsGreatest(captures, rows);
    NewestIsGreatest(captures, rows');
    var i :| 0 <= i < |rows| && NumberOf(captures, rows[i]).value == Newest(captures, rows);
    var j :| 0 <= j < |rows'| && NumberOf(captures, rows'[j]).value == Newest(captures, rows');
    assert rows[i] in rows' && rows'[j] in rows;
  }

  // ---------------------------------------------------------------------------------------
  // Groups, plans and keys
  // ---------------------------------------------------------------------------------------

  lemma {:induction false} GroupIs(rows: seq<Observation>, k: Key, n: nat)
    requires n <= |rows|
    ensures forall o :: multiset(Group(rows, k, n))[o] == if KeyOf(o) == k then multiset(rows[..n])[o] else 0
  {
    if n > 0 {
      GroupIs(rows, k, n - 1);
      assert rows[..n] == rows[..n - 1] + [rows[n - 1]];
    }
  }

  lemma {:induction false} MatchesAre(l: Ledger, job: Job, report: Report, actual: Observation, n: nat)
    requires n <= |l.plans|
    ensures forall o :: multiset(Matches(l, job, report, actual, n))[o]
                        == if MatchesPlan(l.captures, job, report, actual, o) then multiset(l.plans[..n])[o] else 0
  {
    hide MatchesPlan;
    if n > 0 {
      MatchesAre(l, job, report, actual, n - 1);
      assert l.plans[..n] == l.plans[..n - 1] + [l.plans[n - 1]];
    }
  }

  /** The same rows, whatever the order in which the queries return them. */
  ghost predicate SameRows(l: Ledger, l': Ledger) {
    l.captures == l'.captures && multiset(l.actuals) == multiset(l'.actuals) && multiset(l.plans) == multiset(l'.plans)
  }

  lemma CurrentPermutes(l: Ledger, l': Ledger, k: Key)
    requires SameRows(l, l')
    ensures CurrentOf(l, k) == CurrentOf(l', k)
  {
    hide ResolveCurrent;
    var g, g' := Group(l.actuals, k, |l.actuals|), Group(l'.actuals, k, |l'.actuals|);
    GroupIs(l.actuals, k, |l.actuals|);
    GroupIs(l'.actuals, k, |l'.actuals|);
    assert l.actuals[..|l.actuals|] == l.actuals && l'.actuals[..|l'.actuals|] == l'.actuals;
    assert multiset(g) == multiset(g');
    ResolvePermutes(l.captures, g, g');
  }

  lemma MatchesPermute(l: Ledger, l': Ledger, job: Job, report: Report, actual: Observation)
    requires SameRows(l, l')
    ensures multiset(Matches(l, job, report, actual, |l.plans|)) == multiset(Matches(l', job, report, actual, |l'.plans|))
  {
    hide MatchesPlan;
    MatchesAre(l, job, report, actual, |l.plans|);
    MatchesAre(l', job, report, actual, |l'.plans|);
    assert l.plans[..|l.plans|] == l.plans && l'.plans[..|l'.plans|] == l'.plans;
  }

  lemma LineagesPermute(captures: Captures, rows: seq<Observation>, rows': seq<Observation>)
    requires forall o :: o in rows <==> o in rows'
    ensures Lineages(captures, rows) == Lineages(captures, rows')
  {
  }

  lemma PlansPermute(l: Ledger, l': Ledger, job: Job, actual: Observation)
    requires SameRows(l, l')
    ensures PlanOf(l, job, actual) == PlanOf(l', job, actual)
  {
    hide ResolveCurrent, MatchesPlan, Matches, Lineages;
    var p, p' := MatchingPlans(l, job, actual), MatchingPlans(l', job, actual);
    assert multiset(p) == multiset(p') by {
      if ReportOf(l.captures, actual).Some? {
        var report := ReportOf(l.captures, actual).value;
        MatchesPermute(l, l', job, report, actual);
        var m, m' := Matches(l, job, report, actual, |l.plans|), Matches(l', job, report, actual, |l'.plans|);
        SameElements(m, m');
        LineagesPermute(l.captures, m, m');
      }
    }
    ResolvePermutes(l.captures, p, p');
  }

  ghost predicate Sorted(keys: seq<Key>) {
    forall i, j | 0 <= i < j < |keys| :: Before(keys[i], keys[j])
  }

  lemma {:induction false} InsertKeepsSorted(keys: seq<Key>, k: Key)
    requires Sorted(keys)
    ensures Sorted(Insert(keys, k))
    ensures forall q :: q in Insert(keys, k) <==> q in keys || q == k
  {
    if keys != [] {
      var front, last := keys[..|keys| - 1], keys[|keys| - 1];
      assert keys == front + [last];
      if last != k && Before(last, k) {
        assert forall i | 0 <= i < |front| :: Before(keys[i], keys[|keys| - 1]);
      } else if last != k {
        RanksDiffer(last.grade, k.grade);
        InsertKeepsSorted(front, k);
        var r := Insert(front, k);
        forall i | 0 <= i < |r| ensures Before(r[i], last) {
          assert r[i] in r;
        }
      }
    }
  }

  lemma RanksDiffer(g: Grade, h: Grade)
    ensures Rank(g) == Rank(h) <==> g == h
  {
  }

  lemma {:induction false} KeysAreSorted(rows: seq<Observation>, n: nat)
    requires n <= |rows|
    ensures Sorted(Keys(rows, n))
    ensures forall k :: k in Keys(rows, n) <==> exists i | 0 <= i < n :: KeyOf(rows[i]) == k
  {
    if n > 0 {
      hide Insert, Sorted;
      KeysAreSorted(rows, n - 1);
      InsertKeepsSorted(Keys(rows, n - 1), KeyOf(rows[n - 1]));
    }
  }

  lemma LastIsGreatest(keys: seq<Key>, k: Key)
    requires Sorted(keys) && k in keys
    ensures k == keys[|keys| - 1] || Before(k, keys[|keys| - 1])
    ensures k in keys[..|keys| - 1] <==> k != keys[|keys| - 1]
  {
    hide Before;
    var i :| 0 <= i < |keys| && keys[i] == k;
    forall j | 0 <= j < |keys| - 1 ensures keys[j] != keys[|keys| - 1] {
      BeforeIsStrict(keys[j], keys[j]);
    }
  }

  lemma BeforeIsStrict(k: Key, q: Key)
    ensures !(Before(k, q) && Before(q, k))
  {
  }

  lemma {:induction false} SortedIsUnique(keys: seq<Key>, keys': seq<Key>)
    requires Sorted(keys) && Sorted(keys') && forall k :: k in keys <==> k in keys'
    ensures keys == keys'
  {
    hide Before;
    assert keys != [] ==> keys[0] in keys';
    assert keys' != [] ==> keys'[0] in keys;
    if keys != [] {
      var front, last := keys[..|keys| - 1], keys[|keys| - 1];
      var front', last' := keys'[..|keys'| - 1], keys'[|keys'| - 1];
      LastIsGreatest(keys', last);
      LastIsGreatest(keys, last');
      BeforeIsStrict(last, last');
      forall k ensures k in front <==> k in front' {
        if k in keys {
          LastIsGreatest(keys, k);
          LastIsGreatest(keys', k);
        }
      }
      assert keys == front + [last] && keys' == front' + [last'];
      SortedIsUnique(front, front');
    }
  }

  lemma KeysPermute(rows: seq<Observation>, rows': seq<Observation>)
    requires multiset(rows) == multiset(rows')
    ensures Keys(rows, |rows|) == Keys(rows', |rows'|)
  {
    hide Keys, Sorted;
    SameElements(rows, rows');
    KeysAreSorted(rows, |rows|);
    KeysAreSorted(rows', |rows'|);
    forall k ensures k in Keys(rows, |rows|) <==> k in Keys(rows', |rows'|) {
      if i :| 0 <= i < |rows| && KeyOf(rows[i]) == k {
        assert rows[i] in rows';
      }
      if i :| 0 <= i < |rows'| && KeyOf(rows'[i]) == k {
        assert rows'[i] in rows;
      }
    }
    SortedIsUnique(Keys(rows, |rows|), Keys(rows', |rows'|));
  }

  // ---------------------------------------------------------------------------------------
  // The intended result and the evidence
  // ---------------------------------------------------------------------------------------

  lemma LinePermutes(l: Ledger, l': Ledger, job: Job, k: Key)
    requires SameRows(l, l')
    ensures LineOf(l, job, None, k) == LineOf(l', job, None, k)
  {
    hide CurrentOf, PlanOf, FuelVariance;
    CurrentPermutes(l, l', k);
    if CurrentOf(l, k).chosen.Some? {
      PlansPermute(l, l', job, CurrentOf(l, k).chosen.value);
    }
  }

  lemma {:induction false} LinesPermute(l: Ledger, l': Ledger, job: Job, keys: seq<Key>, n: nat)
    requires SameRows(l, l') && n <= |keys|
    ensures Entries(l, job, None, keys, n) == Entries(l', job, None, keys, n)
    ensures Evidence(l, job, keys, n) == Evidence(l', job, keys, n)
    ensures Facts(l, job, keys, n) == Facts(l', job, keys, n)
  {
    hide LineOf, CurrentOf, PlanOf;
    if n > 0 {
      LinesPermute(l, l', job, keys, n - 1);
      LinePermutes(l, l', job, keys[n - 1]);
      CurrentPermutes(l, l', keys[n - 1]);
      if CurrentOf(l, keys[n - 1]).chosen.Some? {
        PlansPermute(l, l', job, CurrentOf(l, keys[n - 1]).chosen.value);
      }
    }
  }

  /** The intended result and the reconstructed evidence are the same for every order of the rows. */
  lemma IntendedIgnoresOrder(l: Ledger, l': Ledger, job: Job)
    requires SameRows(l, l')
    ensures Intended(l, job) == Intended(l', job) && BuildEvidence(l, job) == BuildEvidence(l', job)
    ensures Written(l, job).evidence == Written(l', job).evidence == Intended(l, job).evidence
  {
    hide Keys, Entries, Evidence, Facts;
    KeysPermute(l.actuals, l'.actuals);
    SameElements(l.actuals, l'.actuals);
    LinesPermute(l, l', job, Keys(l.actuals, |l.actuals|), |Keys(l.actuals, |l.actuals|)|);
  }

  // ---------------------------------------------------------------------------------------
  // Plans, rounding and lines
  // ---------------------------------------------------------------------------------------

  /** The plan observation is for the job's vessel and the report's voyage, for the same grade and interval, and in force over all of it. */
  ghost predicate IsPlanFor(captures: Captures, job: Job, report: Report, actual: Observation, p: Observation) {
    && p.grade == actual.grade && p.start == actual.start && p.end == actual.end
    && p.capture in captures && captures[p.capture].report.Some?
    && var plan := captures[p.capture].report.value;
    && plan.vessel == job.vessel && plan.voyage == report.voyage
    && plan.start.Some? && plan.end.Some? && plan.start.value <= actual.start && plan.end.value >= actual.end
  }

  /** The report of an actual observation, if it is for the job's vessel and, if the job has one, its voyage. */
  ghost predicate IsForJob(captures: Captures, job: Job, actual: Observation) {
    && actual.capture in captures && captures[actual.capture].report.Some?
    && captures[actual.capture].report.value.vessel == job.vessel
    && (job.voyage.Some? ==> captures[actual.capture].report.value.voyage == job.voyage)
  }

  /** All plans for the observation come from one source document. */
  ghost predicate OneLineage(l: Ledger, job: Job, report: Report, actual: Observation) {
    forall p, q | p in l.plans && q in l.plans && IsPlanFor(l.captures, job, report, actual, p) && IsPlanFor(l.captures, job, report, actual, q) ::
      l.captures[p.capture].system == l.captures[q.capture].system && l.captures[p.capture].externalRef == l.captures[q.capture].externalRef
  }

  /**
   * The plans of an observation are all those for it, unless its report is not the job's or they
   * come from different documents: then there are none.
   */
  lemma PlansExactly(l: Ledger, job: Job, actual: Observation, p: Observation)
    ensures multiset(MatchingPlans(l, job, actual))[p]
         == if IsForJob(l.captures, job, actual) && OneLineage(l, job, l.captures[actual.capture].report.value, actual)
               && IsPlanFor(l.captures, job, l.captures[actual.capture].report.value, actual, p)
            then multiset(l.plans)[p] else 0
  {
    if IsForJob(l.captures, job, actual) {
      hide MatchesPlan, IsPlanFor, OneLineage, Lineages, Matches;
      var report := l.captures[actual.capture].report.value;
      MatchesAre(l, job, report, actual, |l.plans|);
      assert l.plans[..|l.plans|] == l.plans;
      MatchIsPlan(l.captures, job, report, actual, p);
      OneLineageExactly(l, job, report, actual);
    }
  }

  lemma MatchIsPlan(captures: Captures, job: Job, report: Report, actual: Observation, p: Observation)
    ensures MatchesPlan(captures, job, report, actual, p) <==> IsPlanFor(captures, job, report, actual, p)
  {
  }

  lemma OneLineageExactly(l: Ledger, job: Job, report: Report, actual: Observation)
    ensures |Lineages(l.captures, Matches(l, job, report, actual, |l.plans|))| <= 1 <==> OneLineage(l, job, report, actual)
  {
    hide MatchesPlan, IsPlanFor;
    var matches := Matches(l, job, report, actual, |l.plans|);
    var lineages := Lineages(l.captures, matches);
    MatchesAre(l, job, report, actual, |l.plans|);
    assert l.plans[..|l.plans|] == l.plans;
    forall p ensures p in matches <==> p in l.plans && IsPlanFor(l.captures, job, report, actual, p) {
      MatchIsPlan(l.captures, job, report, actual, p);
      assert p in matches <==> multiset(matches)[p] > 0;
      assert p in l.plans <==> multiset(l.plans)[p] > 0;
    }
    forall p | IsPlanFor(l.captures, job, report, actual, p) ensures p.capture in l.captures {
      PlanIsCaptured(l.captures, job, report, actual, p);
    }
    if |lineages| <= 1 {
      forall p, q | p in l.plans && q in l.plans && IsPlanFor(l.captures, job, report, actual, p) && IsPlanFor(l.captures, job, report, actual, q)
        ensures l.captures[p.capture].system == l.captures[q.capture].system && l.captures[p.capture].externalRef == l.captures[q.capture].externalRef
      {
        assert p in matches && q in matches;
        AtMostOne(lineages, (l.captures[p.capture].system, l.captures[p.capture].externalRef), (l.captures[q.capture].system, l.captures[q.capture].externalRef));
      }
    } else {
      var x, y := TwoOf(lineages);
      var p :| p in matches && p.capture in l.captures && x == (l.captures[p.capture].system, l.captures[p.capture].externalRef);
      var q :| q in matches && q.capture in l.captures && y == (l.captures[q.capture].system, l.captures[q.capture].externalRef);
      assert IsPlanFor(l.captures, job, report, actual, p) && IsPlanFor(l.captures, job, report, actual, q);
    }
  }

  lemma PlanIsCaptured(captures: Captures, job: Job, report: Report, actual: Observation, p: Observation)
    requires IsPlanFor(captures, job, report, actual, p)
    ensures p.capture in captures
  {
  }

  lemma AtMostOne<T>(s: set<T>, x: T, y: T)
    requires |s| <= 1 && x in s && y in s
    ensures x == y
  {
    assert |s - {x}| == |s| - 1;
    assert s - {x} == {};
    assert y !in s - {x};
  }

  lemma TwoOf<T>(s: set<T>) returns (x: T, y: T)
    requires |s| >= 2
    ensures x in s && y in s && x != y
  {
    x :| x in s;
    assert |s - {x}| >= 1;
    y :| y in s - {x};
  }

  /** Rounding gives the nearest number of hundredths, and of two equally near ones that further from zero. */
  lemma RoundedExactly(x: real, hundredths: int)
    ensures Round2(x) == hundredths <==>
              if x >= 0.0 then hundredths as real - 0.5 <= x * 100.0 < hundredths as real + 0.5
              else hundredths as real - 0.5 < x * 100.0 <= hundredths as real + 0.5
  {
    var y := if x >= 0.0 then x * 100.0 + 0.5 else -x * 100.0 + 0.5;
    assert y.Floor as real <= y < y.Floor as real + 1.0;
    assert x < 0.0 ==> y == 0.5 - x * 100.0;
  }

  /**
   * The calculator gives the rounded difference of two non-negative quantities of one grade, unit
   * and interval, and its share of the plan unless that is zero; anything else it refuses, for
   * the first reason that holds.
   */
  lemma VarianceExactly(actual: Observation, planned: Observation)
    ensures var r := FuelVariance(actual, planned);
            if actual.grade != planned.grade then r == Err(GradeMismatch)
            else if actual.unit != planned.unit then r == Err(IncompatibleBasis)
            else if actual.start != planned.start || actual.end != planned.end then r == Err(IntervalMismatch)
            else if actual.value < 0.0 || planned.value < 0.0 then r == Err(NegativeQuantity)
            else
              && r.Ok? && r.value.Reconciled? && r.value.key == Key(actual.grade, actual.start, actual.end) && r.value.unit == actual.unit
              && r.value.actual == actual.value && r.value.planned == planned.value && r.value.delta == Round2(actual.value - planned.value)
              && if planned.value == 0.0 then r.value.percent.None?
                 else r.value.percent.Some? && r.value.percent.value == Round2((actual.value - planned.value) / planned.value * 100.0)
  {
  }

  /**
   * A group's line.  Without a current observation or plan it says why, revisions that cannot be
   * ordered apart from missing rows; with both it is what the calculator says.  Each row used is evidence, with its revision.
   */
  lemma LineExactly(l: Ledger, job: Job, k: Key)
    ensures var line, current := LineOf(l, job, None, k), CurrentOf(l, k);
            if current.chosen.None? then
              line.evidence == multiset{} && line.entry == Unresolved(k.grade, if current.ambiguous then UnresolvedRevision else MissingInput)
            else
              var actual := current.chosen.value;
              var plan := PlanOf(l, job, actual);
              var seen := EvidenceRef(ActualRole, actual, if actual.capture in l.captures then l.captures[actual.capture].revision.text else "");
              if plan.chosen.None? then
                line.evidence == multiset{seen} && line.entry == Unresolved(k.grade, if plan.ambiguous then UnresolvedPlanRevision else MissingInput)
              else
                var p := plan.chosen.value;
                && line.evidence == multiset{seen, EvidenceRef(PlannedRole, p, if p.capture in l.captures then l.captures[p.capture].revision.text else "")}
                && match FuelVariance(actual, p)
                   case Ok(entry) => line.entry == entry
                   case Err(reason) => line.entry == Unresolved(k.grade, reason)
  {
    hide CurrentOf, PlanOf, FuelVariance;
  }

  /** A group is resolved among all of the job's observations of its grade and interval, and a plan among all plans of the observation. */
  lemma GroupsExactly(l: Ledger, job: Job, k: Key, o: Observation)
    ensures multiset(Group(l.actuals, k, |l.actuals|))[o] == if Key(o.grade, o.start, o.end) == k then multiset(l.actuals)[o] else 0
    ensures CurrentOf(l, k) == ResolveCurrent(l.captures, Group(l.actuals, k, |l.actuals|))
    ensures PlanOf(l, job, o) == ResolveCurrent(l.captures, MatchingPlans(l, job, o))
  {
    hide ResolveCurrent, MatchingPlans;
    GroupIs(l.actuals, k, |l.actuals|);
    assert l.actuals[..|l.actuals|] == l.actuals;
  }

  /** There is one group for each grade and interval that the job's observations have. */
  lemma KeysExactly(l: Ledger, k: Key)
    ensures k in Keys(l.actuals, |l.actuals|) <==> exists o | o in l.actuals :: Key(o.grade, o.start, o.end) == k
  {
    hide Keys;
    KeysAreSorted(l.actuals, |l.actuals|);
    if o :| o in l.actuals && Key(o.grade, o.start, o.end) == k {
      var i :| 0 <= i < |l.actuals| && l.actuals[i] == o;
      assert KeyOf(l.actuals[i]) == k;
    }
  }
}
