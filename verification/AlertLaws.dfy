/** Who an alert reaches, and what caps and replays guarantee over whole runs. */
module AlertLaws {
  import opened Common
  import opened Alerts

  // ---------------------------------------------------------------------------------------
  // The audience, without the loops
  // ---------------------------------------------------------------------------------------

  lemma {:induction false} PlanChannelsExactly(planned: Deliveries, book: Book, u: UserId, channels: seq<Channel>, n: nat, k: (UserId, Channel))
    requires u < |book.users| && n <= |channels|
    ensures var after := PlanChannels(planned, book, u, channels, n);
            var added := k.0 == u && k.1 in channels[..n] && k.1 in book.users[u].destinations;
            && (k in after <==> added || k in planned)
            && (added ==> after[k] == Planned(book.users[u].account, book.users[u].destinations[k.1]))
            && (!added && k in planned ==> after[k] == planned[k])
  {
    if n > 0 {
      PlanChannelsExactly(planned, book, u, channels, n - 1, k);
      assert channels[..n] == channels[..n - 1] + [channels[n - 1]];
    }
  }

  /** The user belongs to the account and can be reached on the channel. */
  predicate Reachable(book: Book, a: AccountId, channels: seq<Channel>, u: UserId, c: Channel)
    requires u < |book.users|
  {
    Belongs(book, u, a) && c in channels && c in book.users[u].destinations
  }

  lemma {:induction false} PlanUsersExactly(planned: Deliveries, book: Book, a: AccountId, channels: seq<Channel>, n: nat, k: (UserId, Channel))
    requires n <= |book.users|
    ensures var after := PlanUsers(planned, book, a, channels, n);
            var added := k.0 < n && Reachable(book, a, channels, k.0, k.1);
            && (k in after <==> added || k in planned)
            && (added ==> after[k] == Planned(a, book.users[k.0].destinations[k.1]))
            && (!added && k in planned ==> after[k] == planned[k])
  {
    if n > 0 {
      PlanUsersExactly(planned, book, a, channels, n - 1, k);
      if Belongs(book, n - 1, a) {
        PlanChannelsExactly(PlanUsers(planned, book, a, channels, n - 1), book, n - 1, channels, |channels|, k);
        assert channels[..|channels|] == channels;
      }
    }
  }

  /** The account is matched and has not used up its day. */
  predicate IsServed(book: Book, rules: Rules, e: Published, geo: set<ProfileId>, now: int, a: AccountId)
    requires a < |book.accounts|
  {
    MatchedProfiles(book, rules, e, geo, now, a) != {} && !IsThrottled(book, rules, e, now, a)
  }

  predicate IsPlanned(book: Book, rules: Rules, e: Published, geo: set<ProfileId>, channels: seq<Channel>, now: int, n: nat, k: (UserId, Channel))
    requires n <= |book.accounts|
  {
    && k.0 < |book.users| && book.users[k.0].account < n
    && IsServed(book, rules, e, geo, now, book.users[k.0].account)
    && Reachable(book, book.users[k.0].account, channels, k.0, k.1)
  }

  /** A user is planned on a channel exactly when their account is served and they can be reached on it. */
  lemma {:induction false} AudienceExactly(book: Book, rules: Rules, e: Published, geo: set<ProfileId>, channels: seq<Channel>, now: int,
                                           n: nat, k: (UserId, Channel))
    requires n <= |book.accounts|
    ensures var planned := AudienceOf(book, rules, e, geo, channels, now, n).planned;
            && (k in planned <==> IsPlanned(book, rules, e, geo, channels, now, n, k))
            && (k in planned ==> planned[k] == Planned(book.users[k.0].account, book.users[k.0].destinations[k.1]))
  {
    hide MatchedProfiles, IsThrottled, PlanUsers, PreviewOf;
    if n > 0 {
      AudienceExactly(book, rules, e, geo, channels, now, n - 1, k);
      PlanUsersExactly(AudienceOf(book, rules, e, geo, channels, now, n - 1).planned, book, n - 1, channels, |book.users|, k);
    }
  }

  // ---------------------------------------------------------------------------------------
  // Who is matched, throttled and shown
  // ---------------------------------------------------------------------------------------

  /** One of the alert's deliveries goes to the account. */
  ghost predicate WentTo(alert: Alert, a: AccountId) {
    exists k | k in alert.deliveries :: alert.deliveries[k].account == a
  }

  /** The alerts since the day began that reached the account. */
  ghost function AlertsOfTheDay(alerts: seq<Alert>, a: AccountId, now: int): set<AlertId> {
    set id: AlertId | id < |alerts| && (now / 86400) * 86400 <= alerts[id].createdAt && WentTo(alerts[id], a)
  }

  ghost function AlertsFrom(alerts: seq<Alert>, a: AccountId, day: int, n: nat): set<AlertId>
    requires n <= |alerts|
  {
    set id: AlertId | id < n && day * 86400 <= alerts[id].createdAt && WentTo(alerts[id], a)
  }

  lemma {:induction false} SinceIsSize(alerts: seq<Alert>, a: AccountId, day: int, n: nat)
    requires n <= |alerts|
    ensures AlertsSince(alerts, a, day, n) == |AlertsFrom(alerts, a, day, n)|
  {
    hide WentTo, Reaches;
    if n > 0 {
      SinceIsSize(alerts, a, day, n - 1);
      ReachesExactly(alerts[n - 1], a);
      var own := if day * 86400 <= alerts[n - 1].createdAt && WentTo(alerts[n - 1], a) then {n - 1} else {};
      assert AlertsFrom(alerts, a, day, n) == AlertsFrom(alerts, a, day, n - 1) + own;
    }
  }

  lemma ReachesExactly(alert: Alert, a: AccountId)
    ensures Reaches(alert, a) <==> WentTo(alert, a)
  {
  }

  /**
   * An account is throttled exactly if the alerts that reached it since the day began are as many
   * as its cap, and the event does not bypass the cap.
   */
  lemma ThrottledExactly(book: Book, rules: Rules, e: Published, now: int, a: AccountId)
    requires a < |book.accounts|
    ensures IsThrottled(book, rules, e, now, a) <==>
              && |AlertsOfTheDay(book.alerts, a, now)| >= rules.For(book.accounts[a].tier).maxAlertsDay
              && !(e.severity == 4 && rules.severity4Bypasses)
  {
    SinceIsSize(book.alerts, a, DayOf(now), |book.alerts|);
    assert AlertsOfTheDay(book.alerts, a, now) == AlertsFrom(book.alerts, a, DayOf(now), |book.alerts|);
  }

  /** An account matches an event through its own active profile, if its tier and the profile let it pass every filter. */
  lemma MatchedExactly(book: Book, rules: Rules, e: Published, geo: set<ProfileId>, now: int, a: AccountId, p: ProfileId)
    requires a < |book.accounts| && p < |book.profiles|
    ensures var profile, account := book.profiles[p], book.accounts[a];
            p in MatchedProfiles(book, rules, e, geo, now, a) <==>
              && profile.account == a && profile.active && profile.configured
              && account.startDay <= now / 86400 <= account.endDay
              && e.severity >= profile.minSeverity && e.severity >= rules.For(account.tier).minSeverity
              && (profile.corridors != {} ==> e.corridor in profile.corridors)
              && (profile.eventTypes != {} ==> e.eventType in profile.eventTypes)
              && (profile.ports != {} ==> exists port | port in e.ports :: port in profile.ports)
              && (profile.customGeo ==> p in geo)
  {
    var profile := book.profiles[p];
    if port :| port in e.ports && port in profile.ports {
      assert port in e.ports * profile.ports;
    }
  }

  /** An active user of the account who can be reached on one of the channels. */
  ghost predicate IsReachable(book: Book, a: AccountId, channels: seq<Channel>, u: UserId)
    requires u < |book.users|
  {
    book.users[u].account == a && book.users[u].active && exists c | c in channels :: c in book.users[u].destinations
  }

  /** The reachable users of the account among the first `n`. */
  ghost function ReachableUsers(book: Book, a: AccountId, channels: seq<Channel>, n: nat): set<UserId>
    requires n <= |book.users|
  {
    set u: UserId | u < n && IsReachable(book, a, channels, u)
  }

  lemma {:induction false} ReachableOnExactly(user: User, channels: seq<Channel>, n: nat)
    requires n <= |channels|
    ensures ReachableOn(user, channels, n) > 0 <==> exists c | c in channels[..n] :: c in user.destinations
  {
    if n > 0 {
      ReachableOnExactly(user, channels, n - 1);
      assert channels[..n] == channels[..n - 1] + [channels[n - 1]];
    }
  }

  lemma {:induction false} EligibleAreReachable(book: Book, a: AccountId, channels: seq<Channel>, n: nat)
    requires n <= |book.users|
    ensures EligibleUsers(book, a, channels, n) == |ReachableUsers(book, a, channels, n)|
  {
    hide ReachableOn, IsReachable;
    if n > 0 {
      EligibleAreReachable(book, a, channels, n - 1);
      EligibleExactly(book, a, channels, n - 1);
      var own := if IsReachable(book, a, channels, n - 1) then {n - 1} else {};
      assert ReachableUsers(book, a, channels, n) == ReachableUsers(book, a, channels, n - 1) + own;
    }
  }

  lemma EligibleExactly(book: Book, a: AccountId, channels: seq<Channel>, u: UserId)
    requires u < |book.users|
    ensures Belongs(book, u, a) && ReachableOn(book.users[u], channels, |channels|) > 0 <==> IsReachable(book, a, channels, u)
  {
    ReachableOnExactly(book.users[u], channels, |channels|);
    assert channels[..|channels|] == channels;
  }

  /** What an account's line of the preview shows. */
  lemma PreviewExactly(book: Book, rules: Rules, e: Published, geo: set<ProfileId>, channels: seq<Channel>, now: int, a: AccountId)
    requires a < |book.accounts|
    ensures var line := PreviewOf(book, rules, e, geo, channels, now, a);
            && line.account == a && line.matched == MatchedProfiles(book, rules, e, geo, now, a)
            && line.alertsToday == |AlertsOfTheDay(book.alerts, a, now)| && line.cap == rules.For(book.accounts[a].tier).maxAlertsDay
            && (line.throttled <==> line.alertsToday >= line.cap && !(e.severity == 4 && rules.severity4Bypasses))
            && line.userCount == (if line.throttled then 0 else |ReachableUsers(book, a, channels, |book.users|)|)
  {
    hide MatchedProfiles, IsThrottled, EligibleUsers, DeliveryCount, IsReachable;
    ThrottledExactly(book, rules, e, now, a);
    SinceIsSize(book.alerts, a, DayOf(now), |book.alerts|);
    assert AlertsOfTheDay(book.alerts, a, now) == AlertsFrom(book.alerts, a, DayOf(now), |book.alerts|);
    EligibleAreReachable(book, a, channels, |book.users|);
  }

  /** The preview has one line per matched account, in their order. */
  lemma {:induction false} LinesExactly(book: Book, rules: Rules, e: Published, geo: set<ProfileId>, channels: seq<Channel>, now: int, n: nat, line: AccountPreview)
    requires n <= |book.accounts|
    ensures line in AudienceOf(book, rules, e, geo, channels, now, n).accounts <==>
              line.account < n && MatchedProfiles(book, rules, e, geo, now, line.account) != {}
              && line == PreviewOf(book, rules, e, geo, channels, now, line.account)
  {
    hide MatchedProfiles, IsThrottled, PlanUsers, EligibleUsers, DeliveryCount, AlertsSince;
    if n > 0 {
      LinesExactly(book, rules, e, geo, channels, now, n - 1, line);
    }
  }

  /** The alerts since the day began. */
  function Since(alerts: seq<Alert>, day: int): seq<Alert> {
    if alerts == [] then []
    else
      var last := alerts[|alerts| - 1];
      Since(alerts[..|alerts| - 1], day) + if last.createdAt >= day * 86400 then [last] else []
  }

  lemma {:induction false} CountedAreSince(alerts: seq<Alert>, a: AccountId, day: int)
    ensures AlertsSince(alerts, a, day, |alerts|) == AlertsSince(Since(alerts, day), a, day, |Since(alerts, day)|)
  {
    hide Reaches;
    if alerts != [] {
      var front, last := alerts[..|alerts| - 1], alerts[|alerts| - 1];
      CountedAreSince(front, a, day);
      CountOfFront(front, [last], a, day, |front|);
      assert alerts == front + [last];
      if last.createdAt >= day * DAY {
        CountOfFront(Since(front, day), [last], a, day, |Since(front, day)|);
        assert Since(alerts, day) == Since(front, day) + [last];
      } else {
        assert Since(alerts, day) == Since(front, day);
      }
    }
  }

  lemma {:induction false} CountOfFront(alerts: seq<Alert>, more: seq<Alert>, a: AccountId, day: int, n: nat)
    requires n <= |alerts|
    ensures AlertsSince(alerts + more, a, day, n) == AlertsSince(alerts, a, day, n)
  {
    hide Reaches;
    if n > 0 {
      CountOfFront(alerts, more, a, day, n - 1);
    }
  }

  /** Alerts of earlier days change nothing: books that agree on the others plan the same audience and show the same preview. */
  lemma {:induction false} OldAlertsDoNotMatter(book: Book, book': Book, rules: Rules, e: Published, geo: set<ProfileId>, channels: seq<Channel>, now: int, n: nat)
    requires n <= |book.accounts| && book' == book.(alerts := book'.alerts) && Since(book.alerts, DayOf(now)) == Since(book'.alerts, DayOf(now))
    ensures AudienceOf(book, rules, e, geo, channels, now, n) == AudienceOf(book', rules, e, geo, channels, now, n)
  {
    hide AlertsSince, IsMatched;
    if n > 0 {
      OldAlertsDoNotMatter(book, book', rules, e, geo, channels, now, n - 1);
      CountedAreSince(book.alerts, n - 1, DayOf(now));
      CountedAreSince(book'.alerts, n - 1, DayOf(now));
      PlansAlike(book, book', n - 1, channels, |book.users|);
      assert MatchedProfiles(book, rules, e, geo, now, n - 1) == MatchedProfiles(book', rules, e, geo, now, n - 1) by {
        MatchesAlike(book, book', rules, e, geo, now, n - 1);
      }
    }
  }

  lemma MatchesAlike(book: Book, book': Book, rules: Rules, e: Published, geo: set<ProfileId>, now: int, a: AccountId)
    requires a < |book.accounts| && book' == book.(alerts := book'.alerts)
    ensures MatchedProfiles(book, rules, e, geo, now, a) == MatchedProfiles(book', rules, e, geo, now, a)
  {
  }

  lemma {:induction false} PlansAlike(book: Book, book': Book, a: AccountId, channels: seq<Channel>, n: nat)
    requires n <= |book.users| && book'.users == book.users
    ensures forall planned :: PlanUsers(planned, book, a, channels, n) == PlanUsers(planned, book', a, channels, n)
    ensures EligibleUsers(book, a, channels, n) == EligibleUsers(book', a, channels, n)
    ensures DeliveryCount(book, a, channels, n) == DeliveryCount(book', a, channels, n)
  {
    if n > 0 {
      PlansAlike(book, book', a, channels, n - 1);
      var u, m := n - 1, |channels|;
      forall planned ensures PlanChannels(planned, book, u, channels, m) == PlanChannels(planned, book', u, channels, m) {
        ChannelsAlike(planned, book, book', u, channels, m);
      }
    }
  }

  lemma {:induction false} ChannelsAlike(planned: Deliveries, book: Book, book': Book, u: UserId, channels: seq<Channel>, n: nat)
    requires u < |book.users| && n <= |channels| && book'.users == book.users
    ensures PlanChannels(planned, book, u, channels, n) == PlanChannels(planned, book', u, channels, n)
  {
    if n > 0 {
      ChannelsAlike(planned, book, book', u, channels, n - 1);
    }
  }

  /** An active user of a matched account is reached on every channel they have, if alerts since the day began leave the account room. */
  lemma RoomMeansServed(book: Book, rules: Rules, e: Published, geo: set<ProfileId>, channels: seq<Channel>, now: int, u: UserId, c: Channel)
    requires u < |book.users| && book.users[u].account < |book.accounts| && book.users[u].active && c in channels && c in book.users[u].destinations
    requires MatchedProfiles(book, rules, e, geo, now, book.users[u].account) != {}
    requires |AlertsOfTheDay(book.alerts, book.users[u].account, now)| < rules.For(book.accounts[book.users[u].account].tier).maxAlertsDay
    ensures (u, c) in AudienceOf(book, rules, e, geo, channels, now, |book.accounts|).planned
  {
    hide AudienceOf, MatchedProfiles, IsThrottled;
    ThrottledExactly(book, rules, e, now, book.users[u].account);
    AudienceExactly(book, rules, e, geo, channels, now, |book.accounts|, (u, c));
  }

  // ---------------------------------------------------------------------------------------
  // Conservation
  // ---------------------------------------------------------------------------------------

  lemma {:induction false} PlanChannelsSize(planned: Deliveries, book: Book, u: UserId, channels: seq<Channel>, n: nat)
    requires u < |book.users| && n <= |channels|
    requires forall i, j | 0 <= i < j < |channels| :: channels[i] != channels[j]
    requires forall k | k in planned :: k.0 != u
    ensures |PlanChannels(planned, book, u, channels, n)| == |planned| + ReachableOn(book.users[u], channels, n)
  {
    if n > 0 {
      PlanChannelsSize(planned, book, u, channels, n - 1);
      PlanChannelsExactly(planned, book, u, channels, n - 1, (u, channels[n - 1]));
    }
  }

  lemma {:induction false} PlanUsersSize(planned: Deliveries, book: Book, a: AccountId, channels: seq<Channel>, n: nat)
    requires n <= |book.users|
    requires forall i, j | 0 <= i < j < |channels| :: channels[i] != channels[j]
    requires forall k | k in planned :: k.0 < |book.users| && book.users[k.0].account != a
    ensures |PlanUsers(planned, book, a, channels, n)| == |planned| + DeliveryCount(book, a, channels, n)
  {
    hide PlanChannels, ReachableOn;
    if n > 0 {
      PlanUsersSize(planned, book, a, channels, n - 1);
      if Belongs(book, n - 1, a) {
        var before := PlanUsers(planned, book, a, channels, n - 1);
        forall k | k in before ensures k.0 != n - 1 {
          PlanUsersExactly(planned, book, a, channels, n - 1, k);
        }
        PlanChannelsSize(before, book, n - 1, channels, |channels|);
      }
    }
  }

  function TotalDeliveries(accounts: seq<AccountPreview>): nat {
    if accounts == [] then 0 else TotalDeliveries(accounts[..|accounts| - 1]) + accounts[|accounts| - 1].deliveryCount
  }

  lemma PlannedSoFar(book: Book, rules: Rules, e: Published, geo: set<ProfileId>, channels: seq<Channel>, now: int, n: nat)
    requires n <= |book.accounts|
    ensures forall k | k in AudienceOf(book, rules, e, geo, channels, now, n).planned :: k.0 < |book.users| && book.users[k.0].account < n
  {
    hide AudienceOf, IsServed, Reachable;
    forall k | k in AudienceOf(book, rules, e, geo, channels, now, n).planned ensures k.0 < |book.users| && book.users[k.0].account < n {
      AudienceExactly(book, rules, e, geo, channels, now, n, k);
    }
  }

  /** The accounts' delivery counts add up to the planned deliveries. */
  lemma {:induction false} CountsAddUp(book: Book, rules: Rules, e: Published, geo: set<ProfileId>, draft: Draft, now: int, n: nat)
    requires n <= |book.accounts| && ValidDraft(draft)
    ensures var audience := AudienceOf(book, rules, e, geo, draft.channels, now, n);
            |audience.planned| == TotalDeliveries(audience.accounts)
  {
    hide MatchedProfiles, IsThrottled, PlanUsers, DeliveryCount, EligibleUsers, AlertsSince;
    if n > 0 {
      CountsAddUp(book, rules, e, geo, draft, now, n - 1);
      var before := AudienceOf(book, rules, e, geo, draft.channels, now, n - 1);
      PlannedSoFar(book, rules, e, geo, draft.channels, now, n - 1);
      PlanUsersSize(before.planned, book, n - 1, draft.channels, |book.users|);
      var row := PreviewOf(book, rules, e, geo, draft.channels, now, n - 1);
      assert (before.accounts + [row])[..|before.accounts|] == before.accounts;
    }
  }

  // ---------------------------------------------------------------------------------------
  // Runs
  // ---------------------------------------------------------------------------------------

  datatype Action =
    | ReleaseAction(rules: Rules, version: VersionId, draft: Draft, hash: PreviewHash, geo: set<ProfileId>, now: int)
    | EditAction(accounts: seq<Account>, users: seq<User>, profiles: seq<Profile>, versions: map<VersionId, Published>)

  /** Customers, profiles and versions may change in any way between releases. */
  function Step(book: Book, x: Action): Book {
    match x
    case ReleaseAction(rules, version, draft, hash, geo, now) => book.(alerts := Release(book, rules, version, draft, hash, geo, now).alerts)
    case EditAction(accounts, users, profiles, versions) => Book(accounts, users, profiles, versions, book.alerts)
  }

  function Run(book: Book, actions: seq<Action>): Book
    decreases |actions|
  {
    if actions == [] then book else Run(Step(book, actions[0]), actions[1..])
  }

  /** Whenever an alert is released, the account's cap is at most `cap`, and bypassing implies `bypass`. */
  ghost predicate Capped(book: Book, actions: seq<Action>, a: AccountId, cap: nat, bypass: bool)
    decreases |actions|
  {
    actions != [] ==>
      && (actions[0].ReleaseAction? ==>
            && (a < |book.accounts| ==> actions[0].rules.For(book.accounts[a].tier).maxAlertsDay <= cap)
            && (actions[0].rules.severity4Bypasses ==> bypass))
      && Capped(Step(book, actions[0]), actions[1..], a, cap, bypass)
  }

  predicate CountsAgainstCap(alert: Alert, a: AccountId, day: int, bypass: bool) {
    DayOf(alert.createdAt) == day && Reaches(alert, a) && !(alert.severity == 4 && bypass)
  }

  /** How many of the first `n` alerts of one day use up the account's cap. */
  function Used(alerts: seq<Alert>, a: AccountId, day: int, bypass: bool, n: nat): nat
    requires n <= |alerts|
  {
    if n == 0 then 0 else Used(alerts, a, day, bypass, n - 1) + if CountsAgainstCap(alerts[n - 1], a, day, bypass) then 1 else 0
  }

  lemma {:induction false} UsedAreSince(alerts: seq<Alert>, a: AccountId, day: int, bypass: bool, n: nat)
    requires n <= |alerts|
    ensures Used(alerts, a, day, bypass, n) <= AlertsSince(alerts, a, day, n)
  {
    hide Reaches;
    if n > 0 {
      UsedAreSince(alerts, a, day, bypass, n - 1);
    }
  }

  lemma {:induction false} UsedOfPrefix(alerts: seq<Alert>, last: Alert, a: AccountId, day: int, bypass: bool, n: nat)
    requires n <= |alerts|
    ensures Used(alerts + [last], a, day, bypass, n) == Used(alerts, a, day, bypass, n)
  {
    hide CountsAgainstCap;
    if n > 0 {
      UsedOfPrefix(alerts, last, a, day, bypass, n - 1);
    }
  }

  /** A release that reaches an account found it under its cap for that day, or bypassed the cap. */
  lemma ReachedAccountHadRoom(book: Book, rules: Rules, version: VersionId, draft: Draft, hash: PreviewHash, geo: set<ProfileId>, now: int, a: AccountId)
    requires var r := Release(book, rules, version, draft, hash, geo, now);
             && |r.alerts| == |book.alerts| + 1 && Reaches(r.alerts[|book.alerts|], a)
    ensures version in book.versions && a < |book.accounts| && !IsThrottled(book, rules, book.versions[version], now, a)
    ensures var alert := Release(book, rules, version, draft, hash, geo, now).alerts[|book.alerts|];
            alert.severity == book.versions[version].severity && alert.createdAt == now
  {
    hide IsThrottled, AudienceOf, ReleasedFor, MatchedProfiles;
    var e := book.versions[version];
    var planned := AudienceOf(book, rules, e, geo, draft.channels, now, |book.accounts|).planned;
    var k :| k in planned && planned[k].account == a;
    AudienceExactly(book, rules, e, geo, draft.channels, now, |book.accounts|, k);
  }

  lemma StepKeepsCap(book: Book, x: Action, a: AccountId, cap: nat, bypass: bool, day: int)
    requires Used(book.alerts, a, day, bypass, |book.alerts|) <= cap
    requires Capped(book, [x], a, cap, bypass)
    ensures var t := Step(book, x); Used(t.alerts, a, day, bypass, |t.alerts|) <= cap
  {
    hide Reaches, PlanOf, ReleasedFor, AlertsSince;
    if x.ReleaseAction? {
      var t := Step(book, x);
      if |t.alerts| > |book.alerts| {
        var last := t.alerts[|book.alerts|];
        UsedOfPrefix(book.alerts, last, a, day, bypass, |book.alerts|);
        if CountsAgainstCap(last, a, day, bypass) {
          ReachedAccountHadRoom(book, x.rules, x.version, x.draft, x.hash, x.geo, x.now, a);
          UsedAreSince(book.alerts, a, day, bypass, |book.alerts|);
        }
      }
    }
  }

  /**
   * Over every run, with clocks that may go back and customers that may change: the alerts that
   * reach an account on one day, apart from bypassing ones of severity 4, never exceed its cap.
   */
  lemma {:induction false} DailyCapHolds(book: Book, actions: seq<Action>, a: AccountId, cap: nat, bypass: bool, day: int)
    requires Used(book.alerts, a, day, bypass, |book.alerts|) <= cap
    requires Capped(book, actions, a, cap, bypass)
    ensures var t := Run(book, actions); Used(t.alerts, a, day, bypass, |t.alerts|) <= cap
    decreases |actions|
  {
    hide Step, Used;
    if actions != [] {
      assert Capped(book, [actions[0]], a, cap, bypass) by {
        assert Capped(Step(book, actions[0]), [], a, cap, bypass);
        assert [actions[0]][1..] == [];
      }
      StepKeepsCap(book, actions[0], a, cap, bypass, day);
      DailyCapHolds(Step(book, actions[0]), actions[1..], a, cap, bypass, day);
    }
  }

  // ---------------------------------------------------------------------------------------
  // Replays
  // ---------------------------------------------------------------------------------------

  ghost predicate OnePerVersion(alerts: seq<Alert>) {
    forall i, j | 0 <= i < j < |alerts| :: alerts[i].version != alerts[j].version
  }

  lemma {:induction false} RunKeepsAlerts(book: Book, actions: seq<Action>)
    requires OnePerVersion(book.alerts)
    ensures OnePerVersion(Run(book, actions).alerts) && book.alerts <= Run(book, actions).alerts
    decreases |actions|
  {
    hide PlanOf, Replay;
    if actions != [] {
      RunKeepsAlerts(Step(book, actions[0]), actions[1..]);
    }
  }

  /**
   * Once a version's alert is out, asking for it again the same way adds neither an alert nor a
   * delivery, whatever happened in between, and reports the alert that is out.
   */
  lemma ReplayAddsNothing(book: Book, rules: Rules, version: VersionId, draft: Draft, hash: PreviewHash, geo: set<ProfileId>, now: int,
                          between: seq<Action>, rules': Rules, geo': set<ProfileId>, later: int)
    requires OnePerVersion(book.alerts) && Release(book, rules, version, draft, hash, geo, now).result.Ok?
    requires version in Run(book.(alerts := Release(book, rules, version, draft, hash, geo, now).alerts), between).versions
    ensures var first := Release(book, rules, version, draft, hash, geo, now);
            var u := Run(book.(alerts := first.alerts), between);
            Release(u, rules', version, draft, hash, geo', later)
            == Outcome(u.alerts, Ok(first.result.value.(replay := true)))
  {
    hide PlanOf, Run, ReleasedFor;
    var first := Release(book, rules, version, draft, hash, geo, now);
    var t := book.(alerts := first.alerts);
    assert OnePerVersion(t.alerts);
    RunKeepsAlerts(t, between);
    var u := Run(t, between);
    var id := first.result.value.alert;
    assert u.alerts[id] == t.alerts[id] && t.alerts[id].version == version;
    assert ReleasedFor(u.alerts, version) == Some(id);
  }

  /** A release goes to exactly the audience, and on the terms, that the preview showed. */
  lemma ReleasedAsPreviewed(seen: Book, seenRules: Rules, seenGeo: set<ProfileId>, seenAt: int,
                            book: Book, rules: Rules, version: VersionId, draft: Draft, geo: set<ProfileId>, now: int)
    requires version in seen.versions && ReleasedFor(book.alerts, version).None?
    requires Release(book, rules, version, draft, PlanOf(seen, seenRules, version, draft, seenGeo, seenAt).hash, geo, now).result.Ok?
    ensures var plan := PlanOf(seen, seenRules, version, draft, seenGeo, seenAt);
            var r := Release(book, rules, version, draft, plan.hash, geo, now);
            && r.alerts == book.alerts + [Alert(version, book.versions[version].severity, now, draft.releasedBy, draft.channels, draft.note,
                                                plan.hash, plan.audience.planned)]
            && PlanOf(book, rules, version, draft, geo, now).audience == plan.audience
            && seen.versions[version].hash == book.versions[version].hash
  {
    hide AudienceOf;
  }

  /**
   * A version that has no alert yet gets one exactly if it exists, the preview is current and
   * there is somebody to deliver to; a version that has one is answered exactly if channels, analyst,
   * note and preview are those of that alert.
   */
  lemma ReleasedExactly(book: Book, rules: Rules, version: VersionId, draft: Draft, hash: PreviewHash, geo: set<ProfileId>, now: int)
    ensures var r, released := Release(book, rules, version, draft, hash, geo, now), ReleasedFor(book.alerts, version);
            && (r.result.Ok? <==>
                  && version in book.versions
                  && if released.None? then
                       && hash == PlanOf(book, rules, version, draft, geo, now).hash
                       && AudienceOf(book, rules, book.versions[version], geo, draft.channels, now, |book.accounts|).planned != map[]
                     else
                       var alert := book.alerts[released.value];
                       && alert.releasedBy == draft.releasedBy && alert.note == draft.note && alert.previewHash == hash
                       && forall c :: c in alert.channels <==> c in draft.channels)
            && (r.alerts != book.alerts <==> r.result.Ok? && released.None?)
  {
    hide AudienceOf, ReleasedFor;
    if version in book.versions {
      NobodyWithoutMatch(book, rules, book.versions[version], geo, draft.channels, now, |book.accounts|);
      var released := ReleasedFor(book.alerts, version);
      if released.Some? {
        SameChannels(book.alerts[released.value].channels, draft.channels);
      }
    }
  }

  lemma SameChannels(channels: seq<Channel>, others: seq<Channel>)
    ensures ChannelSet(channels) == ChannelSet(others) <==> forall c :: c in channels <==> c in others
  {
    if ChannelSet(channels) == ChannelSet(others) {
      forall c ensures c in channels <==> c in others {
        assert c in ChannelSet(channels) <==> c in ChannelSet(others);
      }
    }
  }

  lemma {:induction false} NobodyWithoutMatch(book: Book, rules: Rules, e: Published, geo: set<ProfileId>, channels: seq<Channel>, now: int, n: nat)
    requires n <= |book.accounts|
    ensures var audience := AudienceOf(book, rules, e, geo, channels, now, n); audience.accounts == [] ==> audience.planned == map[]
  {
    hide MatchedProfiles, IsThrottled, PlanUsers, PreviewOf;
    if n > 0 {
      NobodyWithoutMatch(book, rules, e, geo, channels, now, n - 1);
    }
  }
}
