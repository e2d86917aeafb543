/**
 * Stop switches for model calls (ai_governance.py:300-485) and the incidents that pull them
 * (ai_incidents.py:133-246).
 *
 * A scope is what normalization and the scope pattern make of the given text, if the text is
 * valid.  Each operation that reads the clock twice takes both readings.
 */
module AiGovernance {
  import opened Common
  import Desk

  type Role = Desk.Role
  type Assurance = Desk.Assurance
  type Principal = Desk.Principal

  type SystemId = nat
  type Fingerprint = nat
  type ControlId = nat
  type IncidentId = nat

  datatype Scope = AllModelCalls | Capability(name: nat)

  datatype Mode = Disabled | Shadow | Assisted | Automated

  predicate IsHuman(role: Role) {
    !role.ServiceRole?
  }

  predicate OwnsControls(role: Role) {
    role.SeniorAnalyst? || role.Administrator? || role.Security?
  }

  datatype Control = Control(scope: Scope, revision: nat, mode: Mode, riskTier: nat, system: Option<SystemId>, changedBy: nat,
                             assurance: Assurance, previous: Option<ControlId>, expiresAt: Option<int>, changedAt: int)

  datatype Payload = Payload(mode: Mode, riskTier: nat, system: Option<SystemId>, reason: string, expiresAt: Option<int>)

  datatype Severity = Low | Medium | High | Critical

  predicate IsHigh(severity: Severity) {
    severity.High? || severity.Critical?
  }

  datatype Status = Open | Contained | Investigating | Resolved

  datatype Entry = Entry(sequence: nat, status: Status, severity: Severity, containment: Option<string>, changedBy: nat, assurance: Assurance)

  datatype Incident = Incident(scope: Scope, system: Option<SystemId>, entries: seq<Entry>)

  datatype Book = Book(controls: seq<Control>, systems: map<SystemId, Fingerprint>, incidents: seq<Incident>)

  datatype Refusal =
    | InvalidPayload
    | InvalidScope
    | ServiceIdentity
    | AutomatedLocked
    | RoleTooLow
    | MfaRequired
    | ExpiryRequired
    | ExpiryTooSoon
    | ExpiryTooLate
    | GlobalBindsSystem
    | GlobalRiskTier
    | SystemRequired
    | SystemNotFound
    | IncidentNotFound
    | IncidentImmutable
    | ContainmentActionRequired
    | ControlOwnerRequired
    | NotContained

  const MIN_VALIDITY: int := 5 * 60
  const MAX_VALIDITY: int := 30 * 24 * 60 * 60
  const MAX_REASON: int := 2000

  // ---------------------------------------------------------------------------------------
  // Controls
  // ---------------------------------------------------------------------------------------

  /** The payload contract (contracts.py, `AICapabilityControlCreate`). */
  predicate ValidPayload(p: Payload) {
    10 <= |p.reason| <= MAX_REASON && p.riskTier <= 4 && (p.mode.Disabled? <==> p.expiresAt.None?)
  }

  /** Why a change of a scope's control is refused, if it is. */
  function TransitionRefusal(scope: Option<Scope>, p: Payload, principal: Principal, now: int): Option<Refusal> {
    if !ValidPayload(p) then Some(InvalidPayload)
    else if scope.None? then Some(InvalidScope)
    else if p.mode.Disabled? then if IsHuman(principal.role) then None else Some(ServiceIdentity)
    else if p.mode.Automated? then Some(AutomatedLocked)
    else if !OwnsControls(principal.role) then Some(RoleTooLow)
    else if !Desk.Strong(principal.assurance) then Some(MfaRequired)
    else if p.expiresAt.None? then Some(ExpiryRequired)
    else if p.expiresAt.value < now + MIN_VALIDITY then Some(ExpiryTooSoon)
    else if p.expiresAt.value > now + MAX_VALIDITY then Some(ExpiryTooLate)
    else if scope.value.AllModelCalls? then
      if p.system.Some? then Some(GlobalBindsSystem) else if p.riskTier != 0 then Some(GlobalRiskTier) else None
    else if p.system.None? then Some(SystemRequired)
    else None
  }

  /** The scope's control with the greatest revision. */
  function Latest(controls: seq<Control>, scope: Scope): (id: Option<ControlId>)
    ensures id.Some? ==> id.value < |controls| && controls[id.value].scope == scope
    ensures id.None? ==> forall i | 0 <= i < |controls| :: controls[i].scope != scope
  {
    if controls == [] then None
    else
      var n := |controls| - 1;
      var earlier := Latest(controls[..n], scope);
      if controls[n].scope == scope && (earlier.None? || controls[earlier.value].revision < controls[n].revision) then Some(n) else earlier
  }

  function NextControl(controls: seq<Control>, scope: Scope, p: Payload, principal: Principal, changedAt: int): Control {
    var previous := Latest(controls, scope);
    Control(scope, if previous.Some? then controls[previous.value].revision + 1 else 1, p.mode, p.riskTier, p.system, principal.user,
            principal.assurance, previous, p.expiresAt, changedAt)
  }

  function SetControl(b: Book, scope: Option<Scope>, p: Payload, principal: Principal, checkedAt: int, changedAt: int): Result<Book, Refusal> {
    var refusal := TransitionRefusal(scope, p, principal, checkedAt);
    if refusal.Some? then Err(refusal.value)
    else if p.system.Some? && p.system.value !in b.systems then Err(SystemNotFound)
    else Ok(b.(controls := b.controls + [NextControl(b.controls, scope.value, p, principal, changedAt)]))
  }

  // ---------------------------------------------------------------------------------------
  // Decisions
  // ---------------------------------------------------------------------------------------

  datatype Verdict =
    | InvalidScopeVerdict
    | GlobalMissing
    | GlobalStopped
    | GlobalExpired
    | GlobalEnabled
    | ScopeMissing
    | ScopeStopped
    | ScopeExpired
    | FingerprintMissing
    | FingerprintMismatch
    | ScopeEnabled

  predicate IsExpired(c: Control, now: int) {
    c.expiresAt.None? || c.expiresAt.value <= now
  }

  function Decide(b: Book, scope: Option<Scope>, fingerprint: Option<Fingerprint>, now: int): Verdict {
    var global := Latest(b.controls, AllModelCalls);
    if scope.None? then InvalidScopeVerdict
    else if global.None? then GlobalMissing
    else if b.controls[global.value].mode.Disabled? then GlobalStopped
    else if IsExpired(b.controls[global.value], now) then GlobalExpired
    else if scope.value.AllModelCalls? then GlobalEnabled
    else
      var own := Latest(b.controls, scope.value);
      if own.None? then ScopeMissing
      else
        var c := b.controls[own.value];
        if c.mode.Disabled? then ScopeStopped
        else if IsExpired(c, now) then ScopeExpired
        else if c.system.None? || fingerprint.None? then FingerprintMissing
        else if c.system.value !in b.systems || b.systems[c.system.value] != fingerprint.value then FingerprintMismatch
        else ScopeEnabled
  }

  predicate Allowed(v: Verdict) {
    v.GlobalEnabled? || v.ScopeEnabled?
  }

  // ---------------------------------------------------------------------------------------
  // Incidents
  // ---------------------------------------------------------------------------------------

  datatype Report = Report(title: string, summary: string, scope: Option<Scope>, system: Option<SystemId>, severity: Severity,
                           containment: Option<string>)

  /** The control that a high or critical incident creates. */
  function StopPayload(r: Report): Payload {
    Payload(Disabled, if r.severity.Critical? then 4 else 3, None, "Automatic incident containment: " + r.title + ". " + r.summary, None)
  }

  function CreateIncident(b: Book, r: Report, principal: Principal, checkedAt: int, changedAt: int): Result<Book, Refusal> {
    if !IsHuman(principal.role) then Err(ServiceIdentity)
    else if r.scope.None? then Err(InvalidScope)
    else if r.system.Some? && r.system.value !in b.systems then Err(SystemNotFound)
    else if !IsHigh(r.severity) then
      Ok(b.(incidents := b.incidents + [Incident(r.scope.value, r.system, [Entry(1, Open, r.severity, r.containment, principal.user, principal.assurance)])]))
    else
      var stopped := SetControl(b, r.scope, StopPayload(r), principal, checkedAt, changedAt);
      if stopped.Err? then Err(stopped.error)
      else
        var action := if r.containment.Some? && r.containment.value != "" then r.containment else Some("Automatically disabled");
        Ok(stopped.value.(incidents := b.incidents
                          + [Incident(r.scope.value, r.system, [Entry(1, Contained, r.severity, action, principal.user, principal.assurance)])]))
  }

  datatype Update = Update(status: Status, severity: Severity, containment: Option<string>)

  predicate HasAction(containment: Option<string>) {
    containment.Some? && containment.value != ""
  }

  predicate WasContained(entries: seq<Entry>) {
    exists i | 0 <= i < |entries| :: entries[i].status == Contained && HasAction(entries[i].containment)
  }

  function AppendEntry(b: Book, id: IncidentId, u: Update, principal: Principal): Result<Book, Refusal> {
    if !IsHuman(principal.role) then Err(ServiceIdentity)
    else if id >= |b.incidents| || b.incidents[id].entries == [] then Err(IncidentNotFound)
    else
      var entries := b.incidents[id].entries;
      var latest := entries[|entries| - 1];
      if latest.status == Resolved then Err(IncidentImmutable)
      else if u.status == Contained && !HasAction(u.containment) then Err(ContainmentActionRequired)
      else if u.status == Resolved && !(OwnsControls(principal.role) && Desk.Strong(principal.assurance)) then Err(ControlOwnerRequired)
      else if u.status == Resolved && IsHigh(u.severity) && !WasContained(entries) then Err(NotContained)
      else
        var more := entries + [Entry(latest.sequence + 1, u.status, u.severity, u.containment, principal.user, principal.assurance)];
        Ok(b.(incidents := b.incidents[id := b.incidents[id].(entries := more)]))
  }

  // ---------------------------------------------------------------------------------------
  // The governance desk as the code runs it
  // ---------------------------------------------------------------------------------------

  class GovernanceDesk {
    var controls: seq<Control>
    var systems: map<SystemId, Fingerprint>
    var incidents: seq<Incident>

    ghost function Contents(): Book
      reads this
    {
      Book(controls, systems, incidents)
    }

    method LatestControl(scope: Scope) returns (id: Option<ControlId>)
      ensures id == Latest(controls, scope)
    {
      id := None;
      for i := 0 to |controls|
        invariant id == Latest(controls[..i], scope)
      {
        assert controls[..i + 1][..i] == controls[..i];
        if controls[i].scope == scope && (id.None? || controls[id.value].revision < controls[i].revision) {
          id := Some(i);
        }
      }
      assert controls[..|controls|] == controls;
    }

    method ValidateTransition(scope: Option<Scope>, p: Payload, principal: Principal, now: int) returns (refusal: Option<Refusal>)
      ensures refusal == TransitionRefusal(scope, p, principal, now)
    {
      if !ValidPayload(p) {
        return Some(InvalidPayload);
      }
      if scope.None? {
        return Some(InvalidScope);
      }
      if p.mode.Disabled? {
        return if IsHuman(principal.role) then None else Some(ServiceIdentity);
      }
      if p.mode.Automated? {
        return Some(AutomatedLocked);
      }
      if !OwnsControls(principal.role) {
        return Some(RoleTooLow);
      }
      if !Desk.Strong(principal.assurance) {
        return Some(MfaRequired);
      }
      if p.expiresAt.value < now + MIN_VALIDITY {
        return Some(ExpiryTooSoon);
      }
      if p.expiresAt.value > now + MAX_VALIDITY {
        return Some(ExpiryTooLate);
      }
      if scope.value.AllModelCalls? {
        if p.system.Some? {
          return Some(GlobalBindsSystem);
        }
        return if p.riskTier != 0 then Some(GlobalRiskTier) else None;
      }
      return if p.system.None? then Some(SystemRequired) else None;
    }

    method SetCapabilityControl(scope: Option<Scope>, p: Payload, principal: Principal, checkedAt: int, changedAt: int)
      returns (result: Result<ControlId, Refusal>)
      modifies this`controls
      ensures match SetControl(old(Contents()), scope, p, principal, checkedAt, changedAt)
              case Ok(b) => Contents() == b && result == Ok(|old(controls)|)
              case Err(e) => Contents() == old(Contents()) && result == Err(e)
    {
      hide Latest;
      var refusal := ValidateTransition(scope, p, principal, checkedAt);
      if refusal.Some? {
        return Err(refusal.value);
      }
      if p.system.Some? && p.system.value !in systems {
        return Err(SystemNotFound);
      }
      var previous := LatestControl(scope.value);
      var revision := 1;
      if previous.Some? {
        revision := controls[previous.value].revision + 1;
      }
      controls := controls + [Control(scope.value, revision, p.mode, p.riskTier, p.system, principal.user, principal.assurance,
                                      previous, p.expiresAt, changedAt)];
      return Ok(|controls| - 1);
    }

    method CapabilityDecision(scope: Option<Scope>, fingerprint: Option<Fingerprint>, now: int) returns (v: Verdict)
      ensures v == Decide(Contents(), scope, fingerprint, now)
    {
      hide Latest;
      if scope.None? {
        return InvalidScopeVerdict;
      }
      var global := LatestControl(AllModelCalls);
      if global.None? {
        return GlobalMissing;
      }
      if controls[global.value].mode.Disabled? {
        return GlobalStopped;
      }
      if IsExpired(controls[global.value], now) {
        return GlobalExpired;
      }
      if scope.value.AllModelCalls? {
        return GlobalEnabled;
      }
      var own := LatestControl(scope.value);
      if own.None? {
        return ScopeMissing;
      }
      var c := controls[own.value];
      if c.mode.Disabled? {
        return ScopeStopped;
      }
      if IsExpired(c, now) {
        return ScopeExpired;
      }
      if c.system.None? || fingerprint.None? {
        return FingerprintMissing;
      }
      if c.system.value !in systems || systems[c.system.value] != fingerprint.value {
        return FingerprintMismatch;
      }
      return ScopeEnabled;
    }

    method CreateAiIncident(r: Report, principal: Principal, checkedAt: int, changedAt: int) returns (result: Result<IncidentId, Refusal>)
      modifies this`controls, this`incidents
      ensures match CreateIncident(old(Contents()), r, principal, checkedAt, changedAt)
              case Ok(b) => Contents() == b && result == Ok(|old(incidents)|)
              case Err(e) => Contents() == old(Contents()) && result == Err(e)
    {
      hide SetControl;
      if !IsHuman(principal.role) {
        return Err(ServiceIdentity);
      }
      if r.scope.None? {
        return Err(InvalidScope);
      }
      if r.system.Some? && r.system.value !in systems {
        return Err(SystemNotFound);
      }
      var action, status := r.containment, Open;
      if IsHigh(r.severity) {
        if action.None? || action.value == "" {
          action := Some("Automatically disabled");
        }
        var stopped := SetCapabilityControl(r.scope, StopPayload(r), principal, checkedAt, changedAt);
        if stopped.Err? {
          return Err(stopped.error);
        }
        status := Contained;
      }
      incidents := incidents + [Incident(r.scope.value, r.system, [Entry(1, status, r.severity, action, principal.user, principal.assurance)])];
      return Ok(|incidents| - 1);
    }

    method AppendIncidentEvent(id: IncidentId, u: Update, principal: Principal) returns (result: Result<Entry, Refusal>)
      modifies this`incidents
      ensures match AppendEntry(old(Contents()), id, u, principal)
              case Ok(b) => Contents() == b && id < |b.incidents| && b.incidents[id].entries != []
                            && result == Ok(b.incidents[id].entries[|b.incidents[id].entries| - 1])
              case Err(e) => Contents() == old(Contents()) && result == Err(e)
    {
      if !IsHuman(principal.role) {
        return Err(ServiceIdentity);
      }
      if id >= |incidents| || incidents[id].entries == [] {
        return Err(IncidentNotFound);
      }
      var entries := incidents[id].entries;
      var latest := entries[|entries| - 1];
      if latest.status == Resolved {
        return Err(IncidentImmutable);
      }
      if u.status == Contained && !HasAction(u.containment) {
        return Err(ContainmentActionRequired);
      }
      if u.status == Resolved {
        if !OwnsControls(principal.role) || !Desk.Strong(principal.assurance) {
          return Err(ControlOwnerRequired);
        }
        if IsHigh(u.severity) && !WasContained(entries) {
          return Err(NotContained);
        }
      }
      var entry := Entry(latest.sequence + 1, u.status, u.severity, u.containment, principal.user, principal.assurance);
      incidents := incidents[id := incidents[id].(entries := entries + [entry])];
      return Ok(entry);
    }
  }
}
