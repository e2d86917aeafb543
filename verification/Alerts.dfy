/**
 * Customer alerts (alerts.py): the audience of a release, daily caps, and the release itself.
 *
 * Accounts, users and profiles are numbered in the order the queries return them.  Whether a
 * profile's own geometry intersects the event is a parameter, as is what a user's channel
 * settings resolve to.
 */
module Alerts {
  import opened Common

  type AccountId = nat
  type UserId = nat
  type ProfileId = nat
  type VersionId = nat
  type AlertId = nat

  datatype Channel = Email | Telegram | WhatsApp

  datatype Tier = Watch | Desk | DeskPro | Data

  datatype Throttle = Throttle(maxAlertsDay: nat, minSeverity: nat)

  datatype Rules = Rules(version: string, watch: Throttle, desk: Throttle, deskPro: Throttle, data: Throttle, severity4Bypasses: bool) {
    function For(tier: Tier): Throttle {
      match tier
      case Watch => watch
      case Desk => desk
      case DeskPro => deskPro
      case Data => data
    }
  }

  datatype Account = Account(tier: Tier, startDay: int, endDay: int)

  /** `destinations` holds the channels the user can be reached on, with their addresses. */
  datatype User = User(account: AccountId, active: bool, destinations: map<Channel, string>)

  datatype Profile = Profile(account: AccountId, active: bool, configured: bool, minSeverity: nat, corridors: set<string>,
                             eventTypes: set<string>, ports: set<string>, customGeo: bool)

  datatype Published = Published(hash: string, severity: nat, corridor: string, eventType: string, ports: set<string>)

  datatype Planned = Planned(account: AccountId, recipient: string)

  /** A delivery is identified by its user and channel (the table's unique key). */
  type Deliveries = map<(UserId, Channel), Planned>

  datatype AccountPreview = AccountPreview(account: AccountId, matched: set<ProfileId>, userCount: nat, deliveryCount: nat,
                                           alertsToday: nat, cap: nat, throttled: bool)

  /** The document whose hash is the preview hash; the hash is taken to be injective. */
  datatype PreviewHash = PreviewHash(version: VersionId, contentHash: string, channels: set<Channel>, releasedBy: string, note: string,
                                     rulesVersion: string, accounts: seq<AccountPreview>, deliveries: Deliveries)

  datatype Alert = Alert(version: VersionId, severity: nat, createdAt: int, releasedBy: string, channels: seq<Channel>, note: string,
                         previewHash: PreviewHash, deliveries: Deliveries)

  datatype Book = Book(accounts: seq<Account>, users: seq<User>, profiles: seq<Profile>, versions: map<VersionId, Published>,
                       alerts: seq<Alert>)

  datatype Draft = Draft(channels: seq<Channel>, releasedBy: string, note: string)

  function ChannelSet(channels: seq<Channel>): set<Channel> {
    set c | c in channels
  }

  /** The contract of a release payload (contracts.py, `AlertReleaseDraft`). */
  predicate ValidDraft(d: Draft) {
    !IsModel(d.releasedBy) && forall i, j | 0 <= i < j < |d.channels| :: d.channels[i] != d.channels[j]
  }

  // ---------------------------------------------------------------------------------------
  // Matching and throttling
  // ---------------------------------------------------------------------------------------

  const DAY: int := 86400

  function DayOf(time: int): int {
    time / DAY
  }

  predicate WatchProfileMatches(p: Profile, e: Published, geoIntersects: bool, tierMinSeverity: nat) {
    && p.active && p.configured
    && p.minSeverity <= e.severity && tierMinSeverity <= e.severity
    && (p.corridors == {} || e.corridor in p.corridors)
    && (p.eventTypes == {} || e.eventType in p.eventTypes)
    && (p.ports == {} || e.ports * p.ports != {})
    && (!p.customGeo || geoIntersects)
  }

  predicate DailyCapThrottles(alertsToday: nat, maxAlertsDay: nat, severity: nat, severity4Bypasses: bool) {
    alertsToday >= maxAlertsDay && !(severity == 4 && severity4Bypasses)
  }

  predicate IsMatched(book: Book, rules: Rules, e: Published, geo: set<ProfileId>, now: int, a: AccountId, p: ProfileId)
    requires a < |book.accounts| && p < |book.profiles|
  {
    && book.profiles[p].account == a
    && book.accounts[a].startDay <= DayOf(now) <= book.accounts[a].endDay
    && WatchProfileMatches(book.profiles[p], e, p in geo, rules.For(book.accounts[a].tier).minSeverity)
  }

  function MatchedProfiles(book: Book, rules: Rules, e: Published, geo: set<ProfileId>, now: int, a: AccountId): set<ProfileId>
    requires a < |book.accounts|
  {
    set p: ProfileId | 0 <= p < |book.profiles| && IsMatched(book, rules, e, geo, now, a, p)
  }

  predicate Reaches(alert: Alert, a: AccountId) {
    exists k | k in alert.deliveries :: alert.deliveries[k].account == a
  }

  /** How many of the first `n` alerts were created on or after the day and reached the account. */
  function AlertsSince(alerts: seq<Alert>, a: AccountId, day: int, n: nat): nat
    requires n <= |alerts|
  {
    if n == 0 then 0
    else AlertsSince(alerts, a, day, n - 1) + if alerts[n - 1].createdAt >= day * DAY && Reaches(alerts[n - 1], a) then 1 else 0
  }

  // ---------------------------------------------------------------------------------------
  // The audience
  // ---------------------------------------------------------------------------------------

  /** `planned` with the first `n` of the channels a user can be reached on. */
  function PlanChannels(planned: Deliveries, book: Book, u: UserId, channels: seq<Channel>, n: nat): Deliveries
    requires u < |book.users| && n <= |channels|
  {
    if n == 0 then planned
    else
      var before, c := PlanChannels(planned, book, u, channels, n - 1), channels[n - 1];
      if c in book.users[u].destinations then before[(u, c) := Planned(book.users[u].account, book.users[u].destinations[c])] else before
  }

  /** On how many of the first `n` channels can the user be reached? */
  function ReachableOn(user: User, channels: seq<Channel>, n: nat): nat
    requires n <= |channels|
  {
    if n == 0 then 0 else ReachableOn(user, channels, n - 1) + if channels[n - 1] in user.destinations then 1 else 0
  }

  predicate Belongs(book: Book, u: UserId, a: AccountId)
    requires u < |book.users|
  {
    book.users[u].account == a && book.users[u].active
  }

  /** `planned` with the first `n` users, as far as they belong to the account. */
  function PlanUsers(planned: Deliveries, book: Book, a: AccountId, channels: seq<Channel>, n: nat): Deliveries
    requires n <= |book.users|
  {
    if n == 0 then planned
    else
      var before := PlanUsers(planned, book, a, channels, n - 1);
      if Belongs(book, n - 1, a) then PlanChannels(before, book, n - 1, channels, |channels|) else before
  }

  function DeliveryCount(book: Book, a: AccountId, channels: seq<Channel>, n: nat): nat
    requires n <= |book.users|
  {
    if n == 0 then 0
    else DeliveryCount(book, a, channels, n - 1)
         + if Belongs(book, n - 1, a) then ReachableOn(book.users[n - 1], channels, |channels|) else 0
  }

  function EligibleUsers(book: Book, a: AccountId, channels: seq<Channel>, n: nat): nat
    requires n <= |book.users|
  {
    if n == 0 then 0
    else EligibleUsers(book, a, channels, n - 1)
         + if Belongs(book, n - 1, a) && ReachableOn(book.users[n - 1], channels, |channels|) > 0 then 1 else 0
  }

  datatype Audience = Audience(planned: Deliveries, accounts: seq<AccountPreview>)

  predicate IsThrottled(book: Book, rules: Rules, e: Published, now: int, a: AccountId)
    requires a < |book.accounts|
  {
    DailyCapThrottles(AlertsSince(book.alerts, a, DayOf(now), |book.alerts|), rules.For(book.accounts[a].tier).maxAlertsDay,
                      e.severity, rules.severity4Bypasses)
  }

  function PreviewOf(book: Book, rules: Rules, e: Published, geo: set<ProfileId>, channels: seq<Channel>, now: int, a: AccountId): AccountPreview
    requires a < |book.accounts|
  {
    var throttled := IsThrottled(book, rules, e, now, a);
    AccountPreview(a, MatchedProfiles(book, rules, e, geo, now, a),
                   if throttled then 0 else EligibleUsers(book, a, channels, |book.users|),
                   if throttled then 0 else DeliveryCount(book, a, channels, |book.users|),
                   AlertsSince(book.alerts, a, DayOf(now), |book.alerts|), rules.For(book.accounts[a].tier).maxAlertsDay, throttled)
  }

  /** The audience among the first `n` accounts. */
  function AudienceOf(book: Book, rules: Rules, e: Published, geo: set<ProfileId>, channels: seq<Channel>, now: int, n: nat): Audience
    requires n <= |book.accounts|
  {
    if n == 0 then Audience(map[], [])
    else
      var before, a := AudienceOf(book, rules, e, geo, channels, now, n - 1), n - 1;
      if MatchedProfiles(book, rules, e, geo, now, a) == {} then before
      else
        Audience(if IsThrottled(book, rules, e, now, a) then before.planned else PlanUsers(before.planned, book, a, channels, |book.users|),
                 before.accounts + [PreviewOf(book, rules, e, geo, channels, now, a)])
  }

  datatype Blocker = AlreadyReleased | NoMatch | NoRecipient

  datatype Plan = Plan(audience: Audience, blockers: seq<Blocker>, hash: PreviewHash)

  /** The alert released for a version, if there is one. */
  function ReleasedFor(alerts: seq<Alert>, version: VersionId): (id: Option<AlertId>)
    ensures id.Some? ==> id.value < |alerts| && alerts[id.value].version == version
    ensures id.None? ==> forall i | 0 <= i < |alerts| :: alerts[i].version != version
  {
    if alerts == [] then None
    else
      var n := |alerts| - 1;
      var earlier := ReleasedFor(alerts[..n], version);
      if earlier.Some? then earlier else if alerts[n].version == version then Some(n) else None
  }

  function PlanOf(book: Book, rules: Rules, version: VersionId, draft: Draft, geo: set<ProfileId>, now: int): Plan
    requires version in book.versions
  {
    var e := book.versions[version];
    var audience := AudienceOf(book, rules, e, geo, draft.channels, now, |book.accounts|);
    var blockers :=
      (if ReleasedFor(book.alerts, version).Some? then [AlreadyReleased] else [])
      + (if audience.accounts == [] then [NoMatch] else [])
      + (if audience.planned == map[] then [NoRecipient] else []);
    Plan(audience, blockers,
         PreviewHash(version, e.hash, ChannelSet(draft.channels), draft.releasedBy, draft.note, rules.version, audience.accounts, audience.planned))
  }

  // ---------------------------------------------------------------------------------------
  // Releasing
  // ---------------------------------------------------------------------------------------

  datatype ReleaseError = VersionNotFound | DifferentChannels | DifferentAnalyst | DifferentNote | DifferentPreview | StalePreview | Blocked(blockers: seq<Blocker>)

  datatype Released = Released(alert: AlertId, deliveryCount: nat, replay: bool)

  function Replay(alert: Alert, id: AlertId, draft: Draft, hash: PreviewHash): Result<Released, ReleaseError> {
    if ChannelSet(alert.channels) != ChannelSet(draft.channels) then Err(DifferentChannels)
    else if alert.releasedBy != draft.releasedBy then Err(DifferentAnalyst)
    else if alert.note != draft.note then Err(DifferentNote)
    else if alert.previewHash != hash then Err(DifferentPreview)
    else Ok(Released(id, |alert.deliveries|, true))
  }

  datatype Outcome = Outcome(alerts: seq<Alert>, result: Result<Released, ReleaseError>)

  function Release(book: Book, rules: Rules, version: VersionId, draft: Draft, hash: PreviewHash, geo: set<ProfileId>, now: int): Outcome {
    if version !in book.versions then Outcome(book.alerts, Err(VersionNotFound))
    else
      var existing := ReleasedFor(book.alerts, version);
      if existing.Some? then Outcome(book.alerts, Replay(book.alerts[existing.value], existing.value, draft, hash))
      else
        var plan := PlanOf(book, rules, version, draft, geo, now);
        if hash != plan.hash then Outcome(book.alerts, Err(StalePreview))
        else if plan.blockers != [] then Outcome(book.alerts, Err(Blocked(plan.blockers)))
        else
          var alert := Alert(version, book.versions[version].severity, now, draft.releasedBy, draft.channels, draft.note, hash, plan.audience.planned);
          Outcome(book.alerts + [alert], Ok(Released(|book.alerts|, |plan.audience.planned|, false)))
  }

  // ---------------------------------------------------------------------------------------
  // The alert desk as the code runs it
  // ---------------------------------------------------------------------------------------

  class AlertDesk {
    var accounts: seq<Account>
    var users: seq<User>
    var profiles: seq<Profile>
    var versions: map<VersionId, Published>
    var alerts: seq<Alert>

    ghost function Contents(): Book
      reads this
    {
      Book(accounts, users, profiles, versions, alerts)
    }

    method CountAlertsSince(a: AccountId, day: int) returns (count: nat)
      ensures count == AlertsSince(alerts, a, day, |alerts|)
    {
      count := 0;
      for i := 0 to |alerts|
        invariant count == AlertsSince(alerts, a, day, i)
      {
        if alerts[i].createdAt >= day * DAY && Reaches(alerts[i], a) {
          count := count + 1;
        }
      }
    }

    method FindReleased(version: VersionId) returns (id: Option<AlertId>)
      ensures id == ReleasedFor(alerts, version)
    {
      id := None;
      for i := 0 to |alerts|
        invariant id == ReleasedFor(alerts[..i], version)
      {
        assert alerts[..i + 1][..i] == alerts[..i];
        if id.None? && alerts[i].version == version {
          id := Some(i);
        }
      }
      assert alerts[..|alerts|] == alerts;
    }

    method MatchAccount(rules: Rules, e: Published, geo: set<ProfileId>, now: int, a: AccountId) returns (matched: set<ProfileId>)
      requires a < |accounts|
      ensures matched == MatchedProfiles(Contents(), rules, e, geo, now, a)
    {
      hide WatchProfileMatches;
      matched := {};
      for p := 0 to |profiles|
        invariant matched == set q: ProfileId | 0 <= q < p && IsMatched(Contents(), rules, e, geo, now, a, q)
      {
        if profiles[p].account == a && accounts[a].startDay <= DayOf(now) <= accounts[a].endDay
           && WatchProfileMatches(profiles[p], e, p in geo, rules.For(accounts[a].tier).minSeverity) {
          matched := matched + {p};
        }
      }
    }

    method PlanUser(planned: Deliveries, u: UserId, channels: seq<Channel>) returns (after: Deliveries, count: nat)
      requires u < |users|
      ensures after == PlanChannels(planned, Contents(), u, channels, |channels|)
      ensures count == ReachableOn(users[u], channels, |channels|)
    {
      after, count := planned, 0;
      for i := 0 to |channels|
        invariant after == PlanChannels(planned, Contents(), u, channels, i)
        invariant count == ReachableOn(users[u], channels, i)
      {
        if channels[i] !in users[u].destinations {
          continue;
        }
        after := after[(u, channels[i]) := Planned(users[u].account, users[u].destinations[channels[i]])];
        count := count + 1;
      }
    }

    method PlanAccount(planned: Deliveries, a: AccountId, channels: seq<Channel>)
      returns (after: Deliveries, eligible: nat, count: nat)
      ensures after == PlanUsers(planned, Contents(), a, channels, |users|)
      ensures eligible == EligibleUsers(Contents(), a, channels, |users|)
      ensures count == DeliveryCount(Contents(), a, channels, |users|)
    {
      after, eligible, count := planned, 0, 0;
      for u := 0 to |users|
        invariant after == PlanUsers(planned, Contents(), a, channels, u)
        invariant eligible == EligibleUsers(Contents(), a, channels, u)
        invariant count == DeliveryCount(Contents(), a, channels, u)
      {
        if users[u].account == a && users[u].active {
          var more;
          after, more := PlanUser(after, u, channels);
          count := count + more;
          if more > 0 {
            eligible := eligible + 1;
          }
        }
      }
    }

    method BuildAlertPlan(rules: Rules, version: VersionId, draft: Draft, geo: set<ProfileId>, now: int)
      returns (result: Result<Plan, ReleaseError>)
      ensures result == if version in versions then Ok(PlanOf(Contents(), rules, version, draft, geo, now)) else Err(VersionNotFound)
    {
      hide MatchedProfiles, AlertsSince, PlanUsers, EligibleUsers, DeliveryCount;
      if version !in versions {
        return Err(VersionNotFound);
      }
      var e := versions[version];
      var planned: Deliveries := map[];
      var previews: seq<AccountPreview> := [];
      for a := 0 to |accounts|
        invariant Audience(planned, previews) == AudienceOf(Contents(), rules, e, geo, draft.channels, now, a)
      {
        var matched := MatchAccount(rules, e, geo, now, a);
        if matched != {} {
          var throttle := rules.For(accounts[a].tier);
          var today := CountAlertsSince(a, DayOf(now));
          var throttled := DailyCapThrottles(today, throttle.maxAlertsDay, e.severity, rules.severity4Bypasses);
          var eligible, count := 0, 0;
          if !throttled {
            planned, eligible, count := PlanAccount(planned, a, draft.channels);
          }
          previews := previews + [AccountPreview(a, matched, eligible, count, today, throttle.maxAlertsDay, throttled)];
        }
      }
      var existing := FindReleased(version);
      var blockers: seq<Blocker> := [];
      if existing.Some? {
        blockers := blockers + [AlreadyReleased];
      }
      if previews == [] {
        blockers := blockers + [NoMatch];
      }
      if planned == map[] {
        blockers := blockers + [NoRecipient];
      }
      var hash := PreviewHash(version, e.hash, ChannelSet(draft.channels), draft.releasedBy, draft.note, rules.version, previews, planned);
      var plan := Plan(Audience(planned, previews), blockers, hash);
      assert plan == PlanOf(Contents(), rules, version, draft, geo, now);
      return Ok(plan);
    }

    method ReleaseAlert(rules: Rules, version: VersionId, draft: Draft, hash: PreviewHash, geo: set<ProfileId>, now: int)
      returns (result: Result<Released, ReleaseError>)
      modifies this`alerts
      ensures Outcome(alerts, result) == Release(old(Contents()), rules, version, draft, hash, geo, now)
    {
      hide PlanOf, ReleasedFor;
      if version !in versions {
        return Err(VersionNotFound);
      }
      var existing := FindReleased(version);
      if existing.Some? {
        var alert := alerts[existing.value];
        if ChannelSet(alert.channels) != ChannelSet(draft.channels) {
          return Err(DifferentChannels);
        }
        if alert.releasedBy != draft.releasedBy {
          return Err(DifferentAnalyst);
        }
        if alert.note != draft.note {
          return Err(DifferentNote);
        }
        if alert.previewHash != hash {
          return Err(DifferentPreview);
        }
        return Ok(Released(existing.value, |alert.deliveries|, true));
      }
      var built := BuildAlertPlan(rules, version, draft, geo, now);
      var plan := built.value;
      if hash != plan.hash {
        return Err(StalePreview);
      }
      if plan.blockers != [] {
        return Err(Blocked(plan.blockers));
      }
      alerts := alerts + [Alert(version, versions[version].severity, now, draft.releasedBy, draft.channels, draft.note, hash, plan.audience.planned)];
      return Ok(Released(|alerts| - 1, |plan.audience.planned|, false));
    }
  }
}
