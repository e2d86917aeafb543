/** When controls are accepted, when decisions allow a call, and how long they go on doing so. */
module AiGovernanceTheorems {
  import opened Common
  import opened AiGovernance
  import opened AiGovernanceLaws

  // ---------------------------------------------------------------------------------------
  // Decisions
  // ---------------------------------------------------------------------------------------

  /** Of all controls of the scope, the first with the greatest revision. */
  ghost predicate IsInForce(controls: seq<Control>, scope: Scope, i: ControlId) {
    && i < |controls| && controls[i].scope == scope
    && forall j | 0 <= j < |controls| && j != i && controls[j].scope == scope ::
         controls[j].revision < controls[i].revision || (controls[j].revision == controls[i].revision && i < j)
  }

  lemma {:induction false} InForceIsLatest(controls: seq<Control>, scope: Scope, i: ControlId)
    ensures Latest(controls, scope) == Some(i) <==> IsInForce(controls, scope, i)
  {
    if controls != [] {
      var front := controls[..|controls| - 1];
      var earlier := Latest(front, scope);
      InForceIsLatest(front, scope, i);
      if earlier.Some? {
        InForceIsLatest(front, scope, earlier.value);
      }
      assert forall j | 0 <= j < |front| :: front[j] == controls[j];
    }
  }

  /** The control enables its scope at this time. */
  ghost predicate IsEnabled(c: Control, now: int) {
    c.mode in {Shadow, Assisted, Automated} && c.expiresAt.Some? && now < c.expiresAt.value
  }

  /** The scope's control in force enables it. */
  ghost predicate ScopeIsEnabled(b: Book, scope: Scope, now: int) {
    exists i: ControlId :: IsInForce(b.controls, scope, i) && IsEnabled(b.controls[i], now)
  }

  /** The scope's control in force enables it for the registered system with this fingerprint. */
  ghost predicate SystemIsEnabled(b: Book, scope: Scope, fingerprint: Option<Fingerprint>, now: int) {
    exists i: ControlId :: IsInForce(b.controls, scope, i) && IsEnabled(b.controls[i], now) && RunsOn(b, b.controls[i], fingerprint)
  }

  ghost predicate RunsOn(b: Book, c: Control, fingerprint: Option<Fingerprint>) {
    c.system.Some? && c.system.value in b.systems && fingerprint == Some(b.systems[c.system.value])
  }

  /**
   * A model call is allowed exactly if the global scope is enabled and, for a capability, the
   * capability is enabled for the system with the given fingerprint.  A call without a valid scope
   * never is.
   */
  lemma AllowedExactly(b: Book, scope: Option<Scope>, fingerprint: Option<Fingerprint>, now: int)
    ensures Allowed(Decide(b, scope, fingerprint, now)) <==>
              && scope.Some? && ScopeIsEnabled(b, AllModelCalls, now)
              && (scope.value.Capability? ==> SystemIsEnabled(b, scope.value, fingerprint, now))
  {
    hide Latest, IsInForce;
    OnlyOneInForce(b.controls, AllModelCalls);
    if scope.Some? {
      OnlyOneInForce(b.controls, scope.value);
    }
  }

  lemma OnlyOneInForce(controls: seq<Control>, scope: Scope)
    ensures forall i: ControlId :: IsInForce(controls, scope, i) <==> Latest(controls, scope) == Some(i)
    ensures forall i: ControlId :: IsInForce(controls, scope, i) ==> i < |controls|
  {
    forall i: ControlId ensures IsInForce(controls, scope, i) <==> Latest(controls, scope) == Some(i) {
      InForceIsLatest(controls, scope, i);
    }
  }

  // ---------------------------------------------------------------------------------------
  // Which changes are accepted
  // ---------------------------------------------------------------------------------------

  /** A control owner, authenticated with MFA. */
  ghost predicate MayEnable(principal: Principal) {
    principal.role in {Desk.SeniorAnalyst, Desk.Administrator, Desk.Security} && principal.assurance in {Desk.Mfa, Desk.PhishingResistant}
  }

  /** A reason of legal length, a legal risk tier, and an expiry exactly for an enabling mode. */
  ghost predicate IsWellFormed(p: Payload) {
    10 <= |p.reason| <= 2000 && p.riskTier <= 4 && (p.mode == Disabled <==> p.expiresAt.None?)
  }

  /**
   * A change of a control is accepted exactly if it is well formed, on a valid scope, and either
   * any person disables the scope, or a control owner under MFA puts it in shadow or assisted mode
   * for five minutes to thirty days: the global scope at no risk tier and without a system, a
   * capability for a system.  A named system must be registered.
   */
  lemma ControlAcceptedExactly(b: Book, scope: Option<Scope>, p: Payload, principal: Principal, checkedAt: int, changedAt: int)
    ensures var r := SetControl(b, scope, p, principal, checkedAt, changedAt);
            && (r.Ok? <==>
                  && IsWellFormed(p) && scope.Some? && (p.system.Some? ==> p.system.value in b.systems)
                  && if p.mode == Disabled then principal.role != Desk.ServiceRole
                     else
                       && p.mode in {Shadow, Assisted} && MayEnable(principal)
                       && checkedAt + 300 <= p.expiresAt.value <= checkedAt + 30 * 86400
                       && if scope.value == AllModelCalls then p.system.None? && p.riskTier == 0 else p.system.Some?)
            && (r.Ok? ==>
                  && |r.value.controls| == |b.controls| + 1
                  && r.value == b.(controls := b.controls + [r.value.controls[|b.controls|]])
                  && var c := r.value.controls[|b.controls|];
                  && c.scope == scope.value && c.mode == p.mode && c.riskTier == p.riskTier && c.system == p.system && c.expiresAt == p.expiresAt
                  && c.changedBy == principal.user && c.assurance == principal.assurance && c.changedAt == changedAt)
  {
    hide Latest;
  }

  /**
   * An incident is stored exactly if a person reports it on a valid scope and a registered system,
   * if any, and, when it is high or critical, title and summary fit the reason of the stop.  It
   * opens with one entry: contained, with an action, if it stops the scope; open otherwise.
   */
  lemma IncidentStoredExactly(b: Book, r: Report, principal: Principal, checkedAt: int, changedAt: int)
    ensures var stored := CreateIncident(b, r, principal, checkedAt, changedAt);
            var isHigh := r.severity in {High, Critical};
            && (stored.Ok? <==>
                  && principal.role != Desk.ServiceRole && r.scope.Some? && (r.system.Some? ==> r.system.value in b.systems)
                  && (isHigh ==> |r.title| + |r.summary| <= 1966))
            && (stored.Ok? ==>
                  && |stored.value.incidents| == |b.incidents| + 1 && b.incidents <= stored.value.incidents && stored.value.systems == b.systems
                  && (!isHigh ==> stored.value.controls == b.controls)
                  && (isHigh ==>
                        && |stored.value.controls| == |b.controls| + 1 && b.controls <= stored.value.controls
                        && var c := stored.value.controls[|b.controls|];
                        && c.scope == r.scope.value && c.mode == Disabled && c.changedBy == principal.user && c.changedAt == changedAt
                        && c.riskTier == (if r.severity == Critical then 4 else 3))
                  && var incident := stored.value.incidents[|b.incidents|];
                  && incident.scope == r.scope.value && incident.system == r.system && |incident.entries| == 1
                  && var e := incident.entries[0];
                  && e.sequence == 1 && e.severity == r.severity && e.changedBy == principal.user && e.assurance == principal.assurance
                  && if isHigh then e.status == Contained && e.containment.Some? && e.containment.value != ""
                                    && (r.containment.Some? && r.containment.value != "" ==> e.containment == r.containment)
                     else e.status == Open && e.containment == r.containment)
  {
    hide SetControl;
    if r.scope.Some? && IsHigh(r.severity) {
      ControlAcceptedExactly(b, r.scope, StopPayload(r), principal, checkedAt, changedAt);
      ReasonLength(r);
    }
  }

  lemma ReasonLength(r: Report)
    ensures |StopPayload(r).reason| == 34 + |r.title| + |r.summary|
  {
    assert |"Automatic incident containment: "| == 32;
  }

  /** The incident has been contained by some action. */
  ghost predicate HasBeenContained(incident: Incident) {
    exists e | e in incident.entries :: e.status == Contained && e.containment.Some? && e.containment.value != ""
  }

  /**
   * An entry is added exactly by a person to an incident that is not resolved yet: a containment
   * with its action, and a resolution by a control owner under MFA that, at a high severity, comes
   * after a containment.
   */
  lemma EventAcceptedExactly(b: Book, id: IncidentId, u: Update, principal: Principal)
    ensures var r := AppendEntry(b, id, u, principal);
            && (r.Ok? <==>
                  && principal.role != Desk.ServiceRole && id < |b.incidents| && b.incidents[id].entries != []
                  && var entries := b.incidents[id].entries;
                  && entries[|entries| - 1].status != Resolved
                  && (u.status == Contained ==> u.containment.Some? && u.containment.value != "")
                  && (u.status == Resolved ==> MayEnable(principal) && (u.severity in {High, Critical} ==> HasBeenContained(b.incidents[id]))))
            && (r.Ok? ==>
                  && |r.value.incidents| == |b.incidents|
                  && var entries := r.value.incidents[id].entries;
                  && |entries| == |b.incidents[id].entries| + 1 && b.incidents[id].entries <= entries
                  && r.value == b.(incidents := b.incidents[id := b.incidents[id].(entries := entries)])
                  && var e := entries[|entries| - 1];
                  && e.sequence == b.incidents[id].entries[|entries| - 2].sequence + 1
                  && e.status == u.status && e.severity == u.severity && e.containment == u.containment
                  && e.changedBy == principal.user && e.assurance == principal.assurance)
  {
    if id < |b.incidents| {
      ContainedExactly(b.incidents[id]);
    }
  }

  lemma ContainedExactly(incident: Incident)
    ensures WasContained(incident.entries) <==> HasBeenContained(incident)
  {
    if HasBeenContained(incident) {
      var e :| e in incident.entries && e.status == Contained && HasAction(e.containment);
      var i :| 0 <= i < |incident.entries| && incident.entries[i] == e;
    }
  }

  // ---------------------------------------------------------------------------------------
  // Grants hold until they are changed
  // ---------------------------------------------------------------------------------------

  /** The action may change the scope's control: it sets it, or reports a high incident on it. */
  ghost predicate Touches(a: Action, scope: Scope) {
    (a.ChangeControl? && a.scope == Some(scope)) || (a.ReportIncident? && a.report.scope == Some(scope) && a.report.severity in {High, Critical})
  }

  /** The scope's control in force is this one. */
  ghost predicate Rules(b: Book, scope: Scope, c: Control) {
    Latest(b.controls, scope).Some? && b.controls[Latest(b.controls, scope).value] == c
  }

  lemma SetControlRules(b: Book, target: Option<Scope>, p: Payload, principal: Principal, checkedAt: int, changedAt: int, scope: Scope)
    requires BookOk(b) && checkedAt <= changedAt && SetControl(b, target, p, principal, checkedAt, changedAt).Ok?
    ensures var t := SetControl(b, target, p, principal, checkedAt, changedAt).value;
            if target == Some(scope) then Rules(t, scope, t.controls[|b.controls|]) else forall c :: Rules(b, scope, c) ==> Rules(t, scope, c)
  {
    hide ControlsOk, NextControl, EntriesOk;
    SetControlOk(b, target, p, principal, checkedAt, changedAt);
    AppendedIsLatest(b.controls, NextControl(b.controls, target.value, p, principal, changedAt), scope);
    NextHasScope(b.controls, target.value, p, principal, changedAt);
  }

  lemma NextHasScope(controls: seq<Control>, scope: Scope, p: Payload, principal: Principal, changedAt: int)
    ensures NextControl(controls, scope, p, principal, changedAt).scope == scope
  {
  }

  lemma StepKeepsRule(b: Book, a: Action, scope: Scope, c: Control)
    requires BookOk(b) && ClockHolds(a) && !Touches(a, scope) && Rules(b, scope, c)
    ensures Rules(Step(b, a), scope, c)
    ensures forall s | s in b.systems :: s in Step(b, a).systems && Step(b, a).systems[s] == b.systems[s]
  {
    hide BookOk, Latest, AppendEntry, TransitionRefusal, NextControl;
    match a
    case ChangeControl(target, p, principal, checkedAt, changedAt) =>
      if SetControl(b, target, p, principal, checkedAt, changedAt).Ok? {
        SetControlRules(b, target, p, principal, checkedAt, changedAt, scope);
      }
    case ReportIncident(r, principal, checkedAt, changedAt) =>
      if SetControl(b, r.scope, StopPayload(r), principal, checkedAt, changedAt).Ok? {
        SetControlRules(b, r.scope, StopPayload(r), principal, checkedAt, changedAt, scope);
      }
    case UpdateIncident(id, u, principal) =>
      EventsNeverTouchControls(b, id, u, principal);
      EventsKeepSystems(b, id, u, principal);
    case RegisterSystem(_, _) =>
  }

  lemma EventsKeepSystems(b: Book, id: IncidentId, u: Update, principal: Principal)
    ensures Step(b, UpdateIncident(id, u, principal)).systems == b.systems
  {
    hide WasContained;
  }

  ghost predicate Untouched(actions: seq<Action>, scope: Scope) {
    forall i | 0 <= i < |actions| :: ClockHolds(actions[i]) && !Touches(actions[i], scope)
  }

  lemma {:induction false} RunKeepsRule(b: Book, actions: seq<Action>, scope: Scope, c: Control)
    requires BookOk(b) && Untouched(actions, scope) && Rules(b, scope, c)
    ensures Rules(Run(b, actions), scope, c)
    ensures forall s | s in b.systems :: s in Run(b, actions).systems && Run(b, actions).systems[s] == b.systems[s]
    decreases |actions|
  {
    hide BookOk, Step, ClockHolds, Touches, Rules;
    if actions != [] {
      StepOk(b, actions[0]);
      StepKeepsRule(b, actions[0], scope, c);
      RunKeepsRule(Step(b, actions[0]), actions[1..], scope, c);
    }
  }

  lemma EnabledByRule(b: Book, scope: Scope, c: Control, now: int)
    requires Rules(b, scope, c) && IsEnabled(c, now)
    ensures ScopeIsEnabled(b, scope, now)
    ensures forall fingerprint :: RunsOn(b, c, fingerprint) ==> SystemIsEnabled(b, scope, fingerprint, now)
  {
    hide Latest, IsInForce;
    OnlyOneInForce(b.controls, scope);
  }

  /**
   * A grant holds until it is changed.  A control owner enables all model calls; later, with anything
   * in between that does not touch that, one enables a capability for a system; and then every
   * decision on the capability under the system's fingerprint is allowed, until either control
   * expires or is changed.
   */
  lemma GrantsHold(b: Book, global: Action, between: seq<Action>, own: Action, later: seq<Action>, now: int)
    requires BookOk(b) && global.ChangeControl? && ClockHolds(global) && global.scope == Some(AllModelCalls) && global.payload.mode != Disabled
    requires SetControl(b, global.scope, global.payload, global.principal, global.checkedAt, global.changedAt).Ok?
    requires Untouched(between, AllModelCalls)
    requires own.ChangeControl? && ClockHolds(own) && own.scope.Some? && own.scope.value.Capability? && own.payload.mode != Disabled
    requires var t := Run(Step(b, global), between); SetControl(t, own.scope, own.payload, own.principal, own.checkedAt, own.changedAt).Ok?
    requires Untouched(later, AllModelCalls) && Untouched(later, own.scope.value)
    requires now < global.payload.expiresAt.value && now < own.payload.expiresAt.value
    ensures var u := Run(Step(Run(Step(b, global), between), own), later);
            own.payload.system.Some? && own.payload.system.value in u.systems
            && Allowed(Decide(u, own.scope, Some(u.systems[own.payload.system.value]), now))
  {
    hide BookOk, Run, Decide, SetControl, Untouched, Rules, Latest, Touches, ScopeIsEnabled, SystemIsEnabled;
    var b1 := Step(b, global);
    ControlAcceptedExactly(b, global.scope, global.payload, global.principal, global.checkedAt, global.changedAt);
    var c := b1.controls[|b.controls|];
    StepOk(b, global);
    SetControlRules(b, global.scope, global.payload, global.principal, global.checkedAt, global.changedAt, AllModelCalls);
    assert UntouchedClock(between) by { UntouchedHolds(between, AllModelCalls); }
    RunOk(b1, between);
    RunKeepsRule(b1, between, AllModelCalls, c);
    var t := Run(b1, between);
    ControlAcceptedExactly(t, own.scope, own.payload, own.principal, own.checkedAt, own.changedAt);
    var b2 := Step(t, own);
    var d := b2.controls[|t.controls|];
    StepOk(t, own);
    SetControlRules(t, own.scope, own.payload, own.principal, own.checkedAt, own.changedAt, AllModelCalls);
    SetControlRules(t, own.scope, own.payload, own.principal, own.checkedAt, own.changedAt, own.scope.value);
    RunKeepsRule(b2, later, AllModelCalls, c);
    RunKeepsRule(b2, later, own.scope.value, d);
    var u := Run(b2, later);
    EnabledByRule(u, AllModelCalls, c, now);
    EnabledByRule(u, own.scope.value, d, now);
    AllowedExactly(u, own.scope, Some(u.systems[own.payload.system.value]), now);
  }

  ghost predicate UntouchedClock(actions: seq<Action>) {
    forall i | 0 <= i < |actions| :: ClockHolds(actions[i])
  }

  lemma UntouchedHolds(actions: seq<Action>, scope: Scope)
    requires Untouched(actions, scope)
    ensures UntouchedClock(actions)
  {
  }
}
