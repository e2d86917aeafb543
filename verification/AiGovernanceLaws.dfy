/** Stops dominate, grants lapse, and incidents are closed by the rules, in every run. */
module AiGovernanceLaws {
  import opened Common
  import opened AiGovernance

  datatype Action =
    | ChangeControl(scope: Option<Scope>, payload: Payload, principal: Principal, checkedAt: int, changedAt: int)
    | ReportIncident(report: Report, principal: Principal, checkedAt: int, changedAt: int)
    | UpdateIncident(id: IncidentId, update: Update, principal: Principal)
    | RegisterSystem(system: SystemId, fingerprint: Fingerprint)

  function Keep(b: Book, result: Result<Book, Refusal>): Book {
    if result.Ok? then result.value else b
  }

  function Step(b: Book, a: Action): Book {
    match a
    case ChangeControl(scope, p, principal, checkedAt, changedAt) => Keep(b, SetControl(b, scope, p, principal, checkedAt, changedAt))
    case ReportIncident(r, principal, checkedAt, changedAt) => Keep(b, CreateIncident(b, r, principal, checkedAt, changedAt))
    case UpdateIncident(id, u, principal) => Keep(b, AppendEntry(b, id, u, principal))
    case RegisterSystem(system, fingerprint) => if system in b.systems then b else b.(systems := b.systems[system := fingerprint])
  }

  function Run(b: Book, actions: seq<Action>): Book
    decreases |actions|
  {
    if actions == [] then b else Run(Step(b, actions[0]), actions[1..])
  }

  /** No clock reading of a call comes before an earlier one of the same call. */
  predicate ClockHolds(a: Action) {
    (a.ChangeControl? || a.ReportIncident?) ==> a.checkedAt <= a.changedAt
  }

  // ---------------------------------------------------------------------------------------
  // The table of controls
  // ---------------------------------------------------------------------------------------

  function CountOf(controls: seq<Control>, scope: Scope): nat {
    if controls == [] then 0
    else CountOf(controls[..|controls| - 1], scope) + if controls[|controls| - 1].scope == scope then 1 else 0
  }

  /** A stored control is disabled, or was granted under MFA for at most thirty days. */
  predicate Granted(c: Control) {
    && !c.mode.Automated?
    && (!c.mode.Disabled? ==>
          && c.expiresAt.Some? && c.expiresAt.value <= c.changedAt + MAX_VALIDITY
          && Desk.Strong(c.assurance) && (c.scope.Capability? ==> c.system.Some?))
  }

  ghost predicate ControlOk(controls: seq<Control>, i: nat)
    requires i < |controls|
  {
    var c, earlier := controls[i], controls[..i];
    c.revision == CountOf(earlier, c.scope) + 1 && c.previous == Latest(earlier, c.scope) && Granted(c)
  }

  ghost predicate ControlsOk(controls: seq<Control>) {
    forall i | 0 <= i < |controls| :: ControlOk(controls, i)
  }

  lemma ControlsPrefix(controls: seq<Control>)
    requires controls != [] && ControlsOk(controls)
    ensures ControlsOk(controls[..|controls| - 1])
  {
    hide CountOf, Latest, Granted;
    var front := controls[..|controls| - 1];
    forall i | 0 <= i < |front| ensures ControlOk(front, i) {
      assert front[..i] == controls[..i] && front[i] == controls[i];
      assert ControlOk(controls, i);
    }
  }

  lemma {:induction false} LatestIsCount(controls: seq<Control>, scope: Scope)
    requires ControlsOk(controls)
    ensures var latest := Latest(controls, scope);
            if latest.None? then CountOf(controls, scope) == 0 else controls[latest.value].revision == CountOf(controls, scope)
  {
    hide Granted;
    if controls != [] {
      ControlsPrefix(controls);
      LatestIsCount(controls[..|controls| - 1], scope);
      assert ControlOk(controls, |controls| - 1);
    }
  }

  /** The control in force is the one appended last for its scope. */
  lemma AppendedIsLatest(controls: seq<Control>, c: Control, scope: Scope)
    requires ControlsOk(controls) && ControlsOk(controls + [c])
    ensures Latest(controls + [c], scope) == if c.scope == scope then Some(|controls|) else Latest(controls, scope)
  {
    hide Granted;
    assert (controls + [c])[..|controls|] == controls;
    assert ControlOk(controls + [c], |controls|);
    LatestIsCount(controls, scope);
  }

  lemma SetControlOk(b: Book, scope: Option<Scope>, p: Payload, principal: Principal, checkedAt: int, changedAt: int)
    requires ControlsOk(b.controls) && checkedAt <= changedAt && SetControl(b, scope, p, principal, checkedAt, changedAt).Ok?
    ensures ControlsOk(SetControl(b, scope, p, principal, checkedAt, changedAt).value.controls)
  {
    hide Latest, CountOf;
    var after := SetControl(b, scope, p, principal, checkedAt, changedAt).value.controls;
    LatestIsCount(b.controls, scope.value);
    forall i | 0 <= i < |after| ensures ControlOk(after, i) {
      if i < |b.controls| {
        assert after[..i] == b.controls[..i] && after[i] == b.controls[i];
        assert ControlOk(b.controls, i);
      } else {
        assert after[..i] == b.controls;
      }
    }
  }

  // ---------------------------------------------------------------------------------------
  // Incidents
  // ---------------------------------------------------------------------------------------

  /** Entries are numbered from one; nothing follows a resolution; high severity was contained first. */
  ghost predicate EntriesOk(entries: seq<Entry>) {
    && entries != []
    && (forall i | 0 <= i < |entries| :: entries[i].sequence == i + 1)
    && (forall i | 0 <= i < |entries| && entries[i].status == Resolved ::
          && i == |entries| - 1 && i > 0 && Desk.Strong(entries[i].assurance)
          && (IsHigh(entries[i].severity) ==> WasContained(entries[..i])))
    && (forall i | 0 <= i < |entries| && entries[i].status == Contained :: HasAction(entries[i].containment))
  }

  ghost predicate BookOk(b: Book) {
    ControlsOk(b.controls) && forall i | 0 <= i < |b.incidents| :: EntriesOk(b.incidents[i].entries)
  }

  lemma AppendEntryOk(entries: seq<Entry>, e: Entry)
    requires EntriesOk(entries) && entries[|entries| - 1].status != Resolved
    requires e.sequence == entries[|entries| - 1].sequence + 1
    requires e.status == Contained ==> HasAction(e.containment)
    requires e.status == Resolved ==> Desk.Strong(e.assurance) && (IsHigh(e.severity) ==> WasContained(entries))
    ensures EntriesOk(entries + [e])
  {
    hide WasContained;
    var more := entries + [e];
    assert more[..|entries|] == entries;
    forall i | 0 <= i < |entries| && entries[i].status == Resolved ensures i == |entries| - 1 {
    }
  }

  lemma IncidentsStep(b: Book, a: Action)
    requires BookOk(b)
    ensures forall i | 0 <= i < |Step(b, a).incidents| :: EntriesOk(Step(b, a).incidents[i].entries)
    ensures |b.incidents| <= |Step(b, a).incidents|
    ensures forall i | 0 <= i < |b.incidents| :: b.incidents[i].entries <= Step(b, a).incidents[i].entries
  {
    hide ControlsOk, TransitionRefusal, NextControl;
    if a.UpdateIncident? && AppendEntry(b, a.id, a.update, a.principal).Ok? {
      hide EntriesOk;
      var entries := b.incidents[a.id].entries;
      AppendEntryOk(entries, Entry(entries[|entries| - 1].sequence + 1, a.update.status, a.update.severity, a.update.containment,
                                   a.principal.user, a.principal.assurance));
    } else if a.ReportIncident? && CreateIncident(b, a.report, a.principal, a.checkedAt, a.changedAt).Ok? {
      var after := Step(b, a).incidents;
      assert EntriesOk(after[|b.incidents|].entries);
    }
  }

  lemma StepOk(b: Book, a: Action)
    requires BookOk(b) && ClockHolds(a)
    ensures BookOk(Step(b, a)) && b.controls <= Step(b, a).controls
  {
    IncidentsStep(b, a);
    hide EntriesOk, ControlsOk, TransitionRefusal, Latest;
    match a
    case ChangeControl(scope, p, principal, checkedAt, changedAt) =>
      if SetControl(b, scope, p, principal, checkedAt, changedAt).Ok? {
        SetControlOk(b, scope, p, principal, checkedAt, changedAt);
      }
    case ReportIncident(r, principal, checkedAt, changedAt) =>
      if SetControl(b, r.scope, StopPayload(r), principal, checkedAt, changedAt).Ok? {
        SetControlOk(b, r.scope, StopPayload(r), principal, checkedAt, changedAt);
      }
    case UpdateIncident(_, _, _) =>
    case RegisterSystem(_, _) =>
  }

  /**
   * In every run controls are only appended, numbered 1, 2, 3, ... per scope with a link to the
   * one before; no automated mode is stored, every enabling control was set under MFA and
   * expires within thirty days; and incidents are resolved only by the rules, for good.
   */
  lemma {:induction false} RunOk(b: Book, actions: seq<Action>)
    requires BookOk(b) && forall i | 0 <= i < |actions| :: ClockHolds(actions[i])
    ensures BookOk(Run(b, actions)) && b.controls <= Run(b, actions).controls
    decreases |actions|
  {
    hide BookOk, Step, ClockHolds;
    if actions != [] {
      StepOk(b, actions[0]);
      RunOk(Step(b, actions[0]), actions[1..]);
    }
  }

  // ---------------------------------------------------------------------------------------
  // Stops dominate
  // ---------------------------------------------------------------------------------------

  /** A control owner, authenticated with MFA, enables the scope anew. */
  predicate Reenables(a: Action, scope: Scope) {
    && a.ChangeControl? && a.scope == Some(scope) && !a.payload.mode.Disabled?
    && OwnsControls(a.principal.role) && Desk.Strong(a.principal.assurance)
  }

  ghost predicate Stopped(controls: seq<Control>, scope: Scope) {
    Latest(controls, scope).Some? && controls[Latest(controls, scope).value].mode.Disabled?
  }

  lemma SetControlStops(b: Book, target: Option<Scope>, p: Payload, principal: Principal, checkedAt: int, changedAt: int, scope: Scope)
    requires ControlsOk(b.controls) && checkedAt <= changedAt && SetControl(b, target, p, principal, checkedAt, changedAt).Ok?
    requires if target == Some(scope) then p.mode.Disabled? else Stopped(b.controls, scope)
    ensures Stopped(SetControl(b, target, p, principal, checkedAt, changedAt).value.controls, scope)
  {
    hide ControlsOk;
    SetControlOk(b, target, p, principal, checkedAt, changedAt);
    AppendedIsLatest(b.controls, NextControl(b.controls, target.value, p, principal, changedAt), scope);
  }

  lemma StepKeepsStopped(b: Book, a: Action, scope: Scope)
    requires BookOk(b) && ClockHolds(a) && Stopped(b.controls, scope) && !Reenables(a, scope)
    ensures Stopped(Step(b, a).controls, scope)
  {
    hide EntriesOk, ControlsOk, Latest, AppendEntry;
    match a
    case ChangeControl(target, p, principal, checkedAt, changedAt) =>
      if SetControl(b, target, p, principal, checkedAt, changedAt).Ok? {
        SetControlStops(b, target, p, principal, checkedAt, changedAt, scope);
      }
    case ReportIncident(r, principal, checkedAt, changedAt) =>
      if SetControl(b, r.scope, StopPayload(r), principal, checkedAt, changedAt).Ok? {
        SetControlStops(b, r.scope, StopPayload(r), principal, checkedAt, changedAt, scope);
      }
    case UpdateIncident(id, u, principal) => EventsNeverTouchControls(b, id, u, principal);
    case RegisterSystem(_, _) =>
  }

  /** No incident event, not even an escalation to critical, changes any control. */
  lemma EventsNeverTouchControls(b: Book, id: IncidentId, u: Update, principal: Principal)
    ensures Step(b, UpdateIncident(id, u, principal)).controls == b.controls
  {
    hide WasContained;
  }

  lemma {:induction false} RunKeepsStopped(b: Book, actions: seq<Action>, scope: Scope)
    requires BookOk(b) && Stopped(b.controls, scope)
    requires forall i | 0 <= i < |actions| :: ClockHolds(actions[i]) && !Reenables(actions[i], scope)
    ensures Stopped(Run(b, actions).controls, scope)
    decreases |actions|
  {
    hide BookOk, Step, ClockHolds, Reenables, Stopped;
    if actions != [] {
      StepOk(b, actions[0]);
      StepKeepsStopped(b, actions[0], scope);
      RunKeepsStopped(Step(b, actions[0]), actions[1..], scope);
    }
  }

  /** A stopped scope denies every decision it governs: its own, or all of them for the global scope. */
  lemma StoppedDenies(b: Book, stopped: Scope, scope: Option<Scope>, fingerprint: Option<Fingerprint>, now: int)
    requires Stopped(b.controls, stopped) && (stopped.AllModelCalls? || scope == Some(stopped))
    ensures !Allowed(Decide(b, scope, fingerprint, now))
  {
    hide Latest;
  }

  /**
   * After a stored high or critical incident, every decision that its scope governs is denied,
   * whatever happens and at any time, until a control owner re-enables the scope under MFA.
   */
  lemma StopsDominate(b: Book, r: Report, principal: Principal, checkedAt: int, changedAt: int, later: seq<Action>,
                      scope: Option<Scope>, fingerprint: Option<Fingerprint>, now: int)
    requires BookOk(b) && checkedAt <= changedAt && IsHigh(r.severity) && CreateIncident(b, r, principal, checkedAt, changedAt).Ok?
    requires r.scope.value.AllModelCalls? || scope == r.scope
    requires forall i | 0 <= i < |later| :: ClockHolds(later[i]) && !Reenables(later[i], r.scope.value)
    ensures !Allowed(Decide(Run(Step(b, ReportIncident(r, principal, checkedAt, changedAt)), later), scope, fingerprint, now))
  {
    hide Stopped, Reenables, Run, Decide, SetControl, ControlsOk, EntriesOk;
    var report := ReportIncident(r, principal, checkedAt, changedAt);
    StepOk(b, report);
    SetControlStops(b, r.scope, StopPayload(r), principal, checkedAt, changedAt, r.scope.value);
    RunKeepsStopped(Step(b, report), later, r.scope.value);
    StoppedDenies(Run(Step(b, report), later), r.scope.value, scope, fingerprint, now);
  }

  // ---------------------------------------------------------------------------------------
  // Grants lapse
  // ---------------------------------------------------------------------------------------

  /**
   * An allowed decision is taken within thirty days of the changes of the controls that govern
   * it, the global one and the scope's own, and under the fingerprint that the latter names.
   */
  lemma AllowedIsRecent(b: Book, scope: Scope, fingerprint: Option<Fingerprint>, now: int)
    requires BookOk(b) && Allowed(Decide(b, Some(scope), fingerprint, now))
    ensures var global := Latest(b.controls, AllModelCalls);
            && global.Some? && !b.controls[global.value].mode.Disabled? && now < b.controls[global.value].changedAt + MAX_VALIDITY
            && (scope.Capability? ==>
                  var own := Latest(b.controls, scope);
                  && own.Some? && !b.controls[own.value].mode.Disabled? && now < b.controls[own.value].changedAt + MAX_VALIDITY
                  && b.controls[own.value].system.Some? && b.controls[own.value].system.value in b.systems
                  && fingerprint == Some(b.systems[b.controls[own.value].system.value]))
  {
    hide Latest, CountOf, EntriesOk;
    assert ControlOk(b.controls, Latest(b.controls, AllModelCalls).value);
    if scope.Capability? {
      assert ControlOk(b.controls, Latest(b.controls, scope).value);
    }
  }

  // ---------------------------------------------------------------------------------------
  // When a high incident cannot be stored
  // ---------------------------------------------------------------------------------------

  /**
   * A high or critical report by a person on a valid scope and known system is stored, and so
   * stops the scope, exactly if its title and summary together have at most 1966 characters:
   * the reason of the stop repeats both, under a limit of 2000, while a summary alone may have
   * 5000.
   */
  lemma HighReportIsStoredExactly(b: Book, r: Report, principal: Principal, checkedAt: int, changedAt: int)
    requires IsHigh(r.severity) && IsHuman(principal.role) && r.scope.Some? && (r.system.Some? ==> r.system.value in b.systems)
    ensures CreateIncident(b, r, principal, checkedAt, changedAt).Ok? <==> |r.title| + |r.summary| <= 1966
  {
    assert |"Automatic incident containment: "| == 32;
    assert |StopPayload(r).reason| == 34 + |r.title| + |r.summary|;
  }

  /** The report contract (contracts.py, `AIIncidentCreate`) on texts that are stripped. */
  predicate AcceptedByContract(r: Report) {
    && 5 <= |r.title| <= 255 && 10 <= |r.summary| <= 5000
    && (r.containment.Some? ==> 10 <= |r.containment.value| <= 5000)
  }

  function Text(n: nat): (text: string)
    ensures |text| == n
  {
    seq(n, i => 'x')
  }

  /**
   * Reports that the contract accepts and the desk refuses: with the shortest title, the summary
   * may have 1961 characters, and with one more the scope is neither stopped nor the incident kept.
   */
  lemma AcceptedReportIsRefused(b: Book, scope: Scope, severity: Severity, principal: Principal, checkedAt: int, changedAt: int)
    requires IsHigh(severity) && IsHuman(principal.role)
    ensures var kept, refused := Report(Text(5), Text(1961), Some(scope), None, severity, None), Report(Text(5), Text(1962), Some(scope), None, severity, None);
            && AcceptedByContract(kept) && CreateIncident(b, kept, principal, checkedAt, changedAt).Ok?
            && AcceptedByContract(refused) && CreateIncident(b, refused, principal, checkedAt, changedAt) == Err(InvalidPayload)
            && Step(b, ReportIncident(refused, principal, checkedAt, changedAt)) == b
  {
    hide SetControl, Latest, Text;
    var kept, refused := Report(Text(5), Text(1961), Some(scope), None, severity, None), Report(Text(5), Text(1962), Some(scope), None, severity, None);
    HighReportIsStoredExactly(b, kept, principal, checkedAt, changedAt);
    HighReportIsStoredExactly(b, refused, principal, checkedAt, changedAt);
    LongReasonIsInvalid(b, refused, principal, checkedAt, changedAt);
  }

  lemma LongReasonIsInvalid(b: Book, r: Report, principal: Principal, checkedAt: int, changedAt: int)
    requires IsHigh(r.severity) && |r.title| + |r.summary| > 1966
    ensures SetControl(b, r.scope, StopPayload(r), principal, checkedAt, changedAt) == Err(InvalidPayload)
  {
    assert |"Automatic incident containment: "| == 32;
    assert |StopPayload(r).reason| == 34 + |r.title| + |r.summary|;
  }
}
