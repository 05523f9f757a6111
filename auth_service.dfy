/** The local account and usage ledger (services/authService.ts): a map from
    username to account, persisted by the browser, a "current user" key, the
    rank derived from experience, the lazily reset monthly usage counter and
    the free-tier quota gate.

    The pure functions below say what each operation does to one account; the
    class `Store` holds the two persisted keys and performs the operations,
    with every write stated in terms of those functions. */
module AuthService {
  import opened Wrappers
  import opened Types
  import opened Common

  /** Quota-consuming actions a FREE account may perform per calendar month. */
  const FreeMonthlyLimit := 3
  /** Experience awarded for reading an article not read before. */
  const HistoryExp := 10
  /** Experience awarded per correct exam answer. */
  const ExpPerPoint := 20
  /** The one username created on its first login instead of by signup. */
  const BootstrapUsername := "Guillaume"

  datatype AuthError = UserNotFound | UserExists

  /** Rank bands: the upper bound of each band belongs to it. */
  function CalculateRank(exp: int): (r: Rank)
    ensures r == Elite <==> exp > 1000
    ensures r == Specialist <==> 500 < exp <= 1000
    ensures r == Operative <==> 100 < exp <= 500
    ensures r == Novice <==> exp <= 100
  {
    if exp > 1000 then Elite
    else if exp > 500 then Specialist
    else if exp > 100 then Operative
    else Novice
  }

  function RankLevel(r: Rank): nat {
    match r
    case Novice => 0
    case Operative => 1
    case Specialist => 2
    case Elite => 3
  }

  /** More experience never means a lower rank. */
  lemma RankMonotone(a: int, b: int)
    requires a <= b
    ensures RankLevel(CalculateRank(a)) <= RankLevel(CalculateRank(b))
  {
  }

  predicate RankConsistent(u: User) {
    u.rank == CalculateRank(u.exp)
  }

  /** A fresh account: zero counters, FREE, empty lists. Its reset date is the
      moment the service was loaded, not the moment of creation. */
  function InitialUser(username: string, loadedAt: Moment): (u: User)
    ensures u.username == username && RankConsistent(u)
    ensures u.exp == 0 && u.usageCount == 0 && u.subscription == Free
    ensures u.history == [] && u.examResults == [] && u.studyPlan == []
    ensures u.lastResetDate == loadedAt
  {
    User(username, Novice, 0, [], [], [], Free, 0, loadedAt, true)
  }

  /** What `updateUser` writes and returns: the account with its rank
      recomputed from its experience, and nothing else changed. */
  function Saved(u: User): (r: User)
    ensures RankConsistent(r)
    ensures r.(rank := u.rank) == u
  {
    u.(rank := CalculateRank(u.exp))
  }

  /** The usage window is stale: `now` lies in another month or year. */
  predicate NeedsReset(u: User, now: Moment) {
    now.month != u.lastResetDate.month || now.year != u.lastResetDate.year
  }

  /** The account as `checkAndResetUsage` returns it. */
  function Refreshed(u: User, now: Moment): (r: User)
    ensures !NeedsReset(r, now)
    ensures NeedsReset(u, now) ==>
      && r.usageCount == 0 && r.lastResetDate == now && RankConsistent(r)
      && r.(usageCount := u.usageCount, lastResetDate := u.lastResetDate, rank := u.rank) == u
    ensures !NeedsReset(u, now) ==> r == u
  {
    if NeedsReset(u, now) then Saved(u.(usageCount := 0, lastResetDate := now)) else u
  }

  /** A second check in the same month changes nothing. */
  lemma RefreshedIdempotent(u: User, now: Moment)
    ensures Refreshed(Refreshed(u, now), now) == Refreshed(u, now)
  {
  }

  /** The quota gate: PREMIUM always passes; FREE passes when its usage,
      after a possible monthly reset, is below the limit. */
  function CanPerform(u: User, now: Moment): (b: bool)
    ensures u.subscription == Premium ==> b
    ensures u.subscription == Free ==> (b <==> NeedsReset(u, now) || u.usageCount < FreeMonthlyLimit)
  {
    if u.subscription == Premium then true
    else Refreshed(u, now).usageCount < FreeMonthlyLimit
  }

  /** What `incrementUsage` returns: PREMIUM is never metered; FREE counts one
      more action in the current window, with no ceiling. */
  function Incremented(u: User, now: Moment): (r: User)
    ensures u.subscription == Premium ==> r == u
    ensures u.subscription == Free ==>
      && r.usageCount == Refreshed(u, now).usageCount + 1
      && r.lastResetDate == Refreshed(u, now).lastResetDate
      && !NeedsReset(r, now) && RankConsistent(r)
      && r.(usageCount := u.usageCount, lastResetDate := u.lastResetDate, rank := u.rank) == u
  {
    if u.subscription == Premium then u
    else
      var checked := Refreshed(u, now);
      Saved(checked.(usageCount := checked.usageCount + 1))
  }

  /** Three gated actions exhaust a fresh FREE window; the counter does not
      stop at the limit if the gate is bypassed. */
  lemma FreeQuotaIsThreePerMonth(u: User, now: Moment)
    requires u.subscription == Free && Refreshed(u, now).usageCount == 0
    ensures CanPerform(u, now)
    ensures var u1 := Incremented(u, now);
            var u2 := Incremented(u1, now);
            var u3 := Incremented(u2, now);
            && u1.usageCount == 1 && CanPerform(u1, now)
            && u2.usageCount == 2 && CanPerform(u2, now)
            && u3.usageCount == 3 && !CanPerform(u3, now)
            && Incremented(u3, now).usageCount == 4
  {
  }

  /** What `upgradeSubscription` returns. */
  function Upgraded(u: User): (r: User)
    ensures r.subscription == Premium && RankConsistent(r)
    ensures r.(subscription := u.subscription, rank := u.rank) == u
  {
    Saved(u.(subscription := Premium))
  }

  /** After an upgrade the gate always passes and usage is never counted. */
  lemma PremiumIsNeverMetered(u: User, now: Moment)
    ensures CanPerform(Upgraded(u), now)
    ensures Incremented(Upgraded(u), now) == Upgraded(u)
  {
  }

  /** What `addHistory` does to the current account: nothing when the article
      was read before, otherwise record it once and award the experience. */
  function RecordHistory(u: User, articleId: string): (r: Option<User>)
    ensures r.None? <==> articleId in u.history
    ensures r.Some? ==>
      && r.value.history == u.history + [articleId]
      && r.value.exp == u.exp + HistoryExp
      && RankConsistent(r.value)
      && r.value.(history := u.history, exp := u.exp, rank := u.rank) == u
    ensures r.Some? && NoDuplicates(u.history) ==> NoDuplicates(r.value.history)
  {
    if articleId in u.history then None
    else Some(Saved(u.(history := u.history + [articleId], exp := u.exp + HistoryExp)))
  }

  /** Reading the same article again awards nothing more. */
  lemma RecordHistoryOnce(u: User, articleId: string)
    requires articleId !in u.history
    ensures RecordHistory(u, articleId).Some?
    ensures RecordHistory(RecordHistory(u, articleId).value, articleId) == None
  {
  }

  /** What `addExamResult` does to the current account. */
  function RecordExam(u: User, result: ExamResult): (r: User)
    ensures r.examResults == u.examResults + [result]
    ensures r.exp == u.exp + result.score * ExpPerPoint
    ensures RankConsistent(r)
    ensures r.(examResults := u.examResults, exp := u.exp, rank := u.rank) == u
  {
    Saved(u.(examResults := u.examResults + [result], exp := u.exp + result.score * ExpPerPoint))
  }

  /** The account the "current user" key designates, as stored. The source
      treats an empty key like a missing one. The key is looked up by
      membership in the map, the corrected form of the truthy lookup. */
  function StoredCurrent(users: map<string, User>, current: Option<string>): (r: Option<User>)
    ensures r.Some? <==> current.Some? && current.value != "" && current.value in users
    ensures r.Some? ==> r.value == users[current.value]
  {
    match current
    case None => None
    case Some(name) => if name == "" || name !in users then None else Some(users[name])
  }

  /** The properties of a JavaScript plain object that every key lookup finds
      even on an empty object. */
  const ObjectPrototypeKeys: set<string> := {
    "constructor", "hasOwnProperty", "isPrototypeOf", "propertyIsEnumerable",
    "toLocaleString", "toString", "valueOf", "__proto__",
    "__defineGetter__", "__defineSetter__", "__lookupGetter__", "__lookupSetter__"
  }

  /** `users[username]` is truthy in the source: a stored account, or a
      property every object inherits. */
  predicate LooksRegistered(users: map<string, User>, username: string) {
    username in users || username in ObjectPrototypeKeys
  }

  /** `signup` as written: the existence test is a property lookup on a plain
      object, so inherited property names count as taken. */
  function SignupAsWritten(users: map<string, User>, username: string, loadedAt: Moment): (r: Result<map<string, User>, AuthError>)
    ensures r.Failure? <==> LooksRegistered(users, username)
    ensures r.Success? ==> r.value == users[username := InitialUser(username, loadedAt)]
  {
    if LooksRegistered(users, username) then Failure(UserExists)
    else Success(users[username := InitialUser(username, loadedAt)])
  }

  /** On an empty store, signing up as "toString" is refused as a duplicate. */
  lemma SignupAsWrittenRejectsInheritedName(loadedAt: Moment)
    ensures SignupAsWritten(map[], "toString", loadedAt) == Failure(UserExists)
  {
  }

  /** The existence test of `login` as written: the bootstrap seed, then the
      same truthy lookup. On success the name becomes the current key and
      the value found is handed to the usage check. */
  function LoginCheckAsWritten(users: map<string, User>, username: string, loadedAt: Moment): (r: Result<map<string, User>, AuthError>)
    ensures r.Failure? <==> !LooksRegistered(users, username) && username != BootstrapUsername
    ensures r.Success? && username == BootstrapUsername && username !in users ==>
      r.value == users[username := InitialUser(username, loadedAt)]
    ensures r.Success? && (username != BootstrapUsername || username in users) ==> r.value == users
  {
    var seeded := if username == BootstrapUsername && username !in users
                  then users[username := InitialUser(username, loadedAt)] else users;
    if LooksRegistered(seeded, username) then Success(seeded) else Failure(UserNotFound)
  }

  /** On an empty store, logging in as "toString" passes the test and makes
      "toString" the current key, though no account of that name exists. */
  lemma LoginAsWrittenAcceptsInheritedName(loadedAt: Moment)
    ensures var r := LoginCheckAsWritten(map[], "toString", loadedAt);
            && r.Success? && "toString" !in r.value
            && StoredCurrent(r.value, Some("toString")).None?
  {
    assert "toString" in ObjectPrototypeKeys;
  }

  /** The persisted ledger: the users map and the current-user key. */
  class Store {
    var users: map<string, User>
    var current: Option<string>
    /** When the service module was loaded; the reset date of new accounts. */
    const loadedAt: Moment

    /** Every account is stored under its own username and shows the rank
        its experience earns. */
    ghost predicate Valid()
      reads this
    {
      forall name :: name in users ==> users[name].username == name && RankConsistent(users[name])
    }

    /** No stored reading history holds an article twice. */
    ghost predicate HistoriesDistinct()
      reads this
    {
      forall name :: name in users ==> NoDuplicates(users[name].history)
    }

    /** An empty store, as on first visit. */
    constructor (loadedAt: Moment)
      ensures this.loadedAt == loadedAt && users == map[] && current == None
      ensures Valid() && HistoriesDistinct()
    {
      this.loadedAt := loadedAt;
      users := map[];
      current := None;
    }

    /** `updateUser`: store the account, with its rank recomputed, under its
        own username; every other entry and the current key are untouched. */
    method UpdateUser(u: User) returns (r: User)
      requires Valid()
      modifies this
      ensures Valid()
      ensures r == Saved(u)
      ensures users == old(users)[u.username := r] && current == old(current)
      ensures old(HistoriesDistinct()) && NoDuplicates(u.history) ==> HistoriesDistinct()
    {
      r := u.(rank := CalculateRank(u.exp));
      users := users[u.username := r];
    }

    /** `checkAndResetUsage`: start a new usage window when `now` is in another
        month or year, writing the account; otherwise no write. */
    method CheckAndResetUsage(u: User, now: Moment) returns (r: User)
      requires Valid()
      modifies this
      ensures Valid()
      ensures r == Refreshed(u, now)
      ensures users == (if NeedsReset(u, now) then old(users)[u.username := r] else old(users))
      ensures current == old(current)
      ensures old(HistoriesDistinct()) && NoDuplicates(u.history) ==> HistoriesDistinct()
    {
      if now.month != u.lastResetDate.month || now.year != u.lastResetDate.year {
        r := UpdateUser(u.(usageCount := 0, lastResetDate := now));
      } else {
        r := u;
      }
    }

    /** `login`: the bootstrap username is created on first use; any other
        unknown name fails and changes nothing. On success the name becomes
        current and the account's usage window is checked. */
    method Login(username: string, now: Moment) returns (res: Result<User, AuthError>)
      requires Valid()
      modifies this
      ensures Valid()
      ensures old(HistoriesDistinct()) ==> HistoriesDistinct()
      ensures username !in old(users) && username != BootstrapUsername ==>
        res == Failure(UserNotFound) && users == old(users) && current == old(current)
      ensures username in old(users) || username == BootstrapUsername ==>
        var stored := if username in old(users) then old(users)[username] else InitialUser(username, loadedAt);
        && res == Success(Refreshed(stored, now))
        && current == Some(username)
        && users == old(users)[username := if NeedsReset(stored, now) then res.value else stored]
    {
      if username == BootstrapUsername && username !in users {
        users := users[username := InitialUser(username, loadedAt)];
      }
      if username !in users {
        return Failure(UserNotFound);
      }
      current := Some(username);
      var r := CheckAndResetUsage(users[username], now);
      res := Success(r);
    }

    /** `signup`: a taken name fails and changes nothing; otherwise a fresh
        account is stored and becomes current. */
    method Signup(username: string) returns (res: Result<User, AuthError>)
      requires Valid()
      modifies this
      ensures Valid()
      ensures old(HistoriesDistinct()) ==> HistoriesDistinct()
      ensures username in old(users) ==>
        res == Failure(UserExists) && users == old(users) && current == old(current)
      ensures username !in old(users) ==>
        && res == Success(InitialUser(username, loadedAt))
        && users == old(users)[username := InitialUser(username, loadedAt)]
        && current == Some(username)
    {
      if username in users {
        return Failure(UserExists);
      }
      var created := InitialUser(username, loadedAt);
      users := users[username := created];
      current := Some(username);
      res := Success(created);
    }

    /** `logout`: forget the current user; accounts are kept. */
    method Logout()
      modifies this
      ensures current == None && users == old(users)
    {
      current := None;
    }

    /** `getCurrentUser`: the current account after its usage-window check,
        or nothing when there is no current user or it is not stored. */
    method GetCurrentUser(now: Moment) returns (r: Option<User>)
      requires Valid()
      modifies this
      ensures Valid() && current == old(current)
      ensures old(HistoriesDistinct()) ==> HistoriesDistinct()
      ensures StoredCurrent(old(users), old(current)).None? ==> r == None && users == old(users)
      ensures StoredCurrent(old(users), old(current)).Some? ==>
        var stored := StoredCurrent(old(users), old(current)).value;
        && r == Some(Refreshed(stored, now))
        && users == (if NeedsReset(stored, now) then old(users)[stored.username := r.value] else old(users))
    {
      if current.None? || current.value == "" || current.value !in users {
        return None;
      }
      var u := CheckAndResetUsage(users[current.value], now);
      r := Some(u);
    }

    /** `canPerformAction`: the quota gate. A FREE account whose window is
        stale is reset and written before the test. */
    method CanPerformAction(u: User, now: Moment) returns (allowed: bool)
      requires Valid()
      modifies this
      ensures Valid() && current == old(current)
      ensures allowed == CanPerform(u, now)
      ensures users == (if u.subscription == Free && NeedsReset(u, now)
                        then old(users)[u.username := Refreshed(u, now)] else old(users))
      ensures old(HistoriesDistinct()) && NoDuplicates(u.history) ==> HistoriesDistinct()
    {
      if u.subscription == Premium {
        return true;
      }
      var updated := CheckAndResetUsage(u, now);
      allowed := updated.usageCount < FreeMonthlyLimit;
    }

    /** `incrementUsage`: count one action for a FREE account. */
    method IncrementUsage(u: User, now: Moment) returns (r: User)
      requires Valid()
      modifies this
      ensures Valid() && current == old(current)
      ensures r == Incremented(u, now)
      ensures users == (if u.subscription == Premium then old(users) else old(users)[u.username := r])
      ensures old(HistoriesDistinct()) && NoDuplicates(u.history) ==> HistoriesDistinct()
    {
      if u.subscription == Premium {
        return u;
      }
      var checked := CheckAndResetUsage(u, now);
      r := UpdateUser(checked.(usageCount := checked.usageCount + 1));
    }

    /** `upgradeSubscription`: switch the account to PREMIUM and store it. */
    method UpgradeSubscription(u: User) returns (r: User)
      requires Valid()
      modifies this
      ensures Valid() && current == old(current)
      ensures r == Upgraded(u)
      ensures users == old(users)[u.username := r]
      ensures old(HistoriesDistinct()) && NoDuplicates(u.history) ==> HistoriesDistinct()
    {
      r := UpdateUser(u.(subscription := Premium));
    }

    /** `addHistory`: record an article on the current account. With no
        current account, or an article already read, the result is nothing;
        the usage-window write of the lookup still happens. */
    method AddHistory(articleId: string, now: Moment) returns (r: Option<User>)
      requires Valid()
      modifies this
      ensures Valid() && current == old(current)
      ensures old(HistoriesDistinct()) ==> HistoriesDistinct()
      ensures StoredCurrent(old(users), old(current)).None? ==> r == None && users == old(users)
      ensures StoredCurrent(old(users), old(current)).Some? ==>
        var stored := StoredCurrent(old(users), old(current)).value;
        var checked := Refreshed(stored, now);
        && r == RecordHistory(checked, articleId)
        && users == (if r.Some? then old(users)[stored.username := r.value]
                     else if NeedsReset(stored, now) then old(users)[stored.username := checked]
                     else old(users))
    {
      var user := GetCurrentUser(now);
      if user.None? || articleId in user.value.history {
        return None;
      }
      var u := user.value;
      var saved := UpdateUser(u.(history := u.history + [articleId], exp := u.exp + HistoryExp));
      r := Some(saved);
    }

    /** `addExamResult`: append the result to the current account and award
        `score * 20` experience. */
    method AddExamResult(result: ExamResult, now: Moment) returns (r: Option<User>)
      requires Valid()
      modifies this
      ensures Valid() && current == old(current)
      ensures old(HistoriesDistinct()) ==> HistoriesDistinct()
      ensures StoredCurrent(old(users), old(current)).None? ==> r == None && users == old(users)
      ensures StoredCurrent(old(users), old(current)).Some? ==>
        var stored := StoredCurrent(old(users), old(current)).value;
        && r == Some(RecordExam(Refreshed(stored, now), result))
        && users == old(users)[stored.username := r.value]
    {
      var user := GetCurrentUser(now);
      if user.None? {
        return None;
      }
      var u := user.value;
      var saved := UpdateUser(u.(examResults := u.examResults + [result], exp := u.exp + result.score * ExpPerPoint));
      r := Some(saved);
    }
  }

  /** The account a reading action records its article on. For FREE it is
      the caller's snapshot, counted: `incrementUsage` writes that snapshot
      back whole, whatever the store held. PREMIUM skips the counter, so the
      stored account, refreshed, is used. */
  function ReadBase(stored: User, snapshot: User, now: Moment): (b: User)
    ensures !NeedsReset(b, now)
    ensures snapshot.subscription == Free ==>
      b.history == snapshot.history && b.exp == snapshot.exp &&
      b.usageCount == Refreshed(snapshot, now).usageCount + 1
    ensures snapshot.subscription == Premium ==>
      b.history == stored.history && b.exp == stored.exp && b.usageCount == Refreshed(stored, now).usageCount
  {
    if snapshot.subscription == Free then Incremented(snapshot, now) else Refreshed(stored, now)
  }

  /** The account after `addHistory` on `base`: the article is recorded and
      rewarded once, or `base` is kept when it was read before. */
  function AfterRead(base: User, articleId: string): (v: User)
    ensures articleId in v.history
    ensures articleId in base.history ==> v == base
    ensures articleId !in base.history ==>
      && v.history == base.history + [articleId]
      && v.exp == base.exp + HistoryExp
      && v.(history := base.history, exp := base.exp, rank := base.rank) == base
  {
    match RecordHistory(base, articleId)
    case None => base
    case Some(w) => w
  }

  /** A reading action that starts from the stored account: what the ledger
      holds after it, for the intended protocol. */
  function FreshRead(stored: User, articleId: string, now: Moment): (v: User)
    ensures stored.history <= v.history && articleId in v.history
    ensures v.exp == stored.exp + (if articleId in stored.history then 0 else HistoryExp)
    ensures v.usageCount == Refreshed(stored, now).usageCount + (if stored.subscription == Free then 1 else 0)
    ensures !NeedsReset(v, now)
  {
    AfterRead(ReadBase(stored, stored, now), articleId)
  }

  /** Reads that start from the stored account never lose an article: the
      history only grows, both articles end up in it, and re-reading an
      article awards nothing. */
  lemma FreshReadsKeepHistory(s: User, a: string, b: string, now: Moment)
    ensures var s1 := FreshRead(s, a, now);
            var s2 := FreshRead(s1, b, now);
            && s.history <= s1.history <= s2.history
            && a in s2.history && b in s2.history
            && FreshRead(s1, a, now).exp == s1.exp
            && FreshRead(s1, a, now).history == s1.history
  {
    var s1 := FreshRead(s, a, now);
    var s2 := FreshRead(s1, b, now);
    assert s1.history <= s2.history;
    assert a in s1.history;
    assert s1.history[|s1.history| - 1] == a || a in s.history;
  }

  /** The reading actions as the component calls them: the snapshot it holds
      is replaced by `incrementUsage`'s result, never by what `addHistory`
      stored. Sign up "alice", read A, read B, read A: B is lost, A is
      rewarded twice, and the third read still passes the gate. */
  lemma StaleSnapshotLosesHistory(loadedAt: Moment)
    ensures var u0 := InitialUser("alice", loadedAt);
            var s1 := AfterRead(ReadBase(u0, u0, loadedAt), "A");
            var u1 := Incremented(u0, loadedAt);
            var s2 := AfterRead(ReadBase(s1, u1, loadedAt), "B");
            var u2 := Incremented(u1, loadedAt);
            var s3 := AfterRead(ReadBase(s2, u2, loadedAt), "A");
            && CanPerform(u0, loadedAt) && CanPerform(u1, loadedAt) && CanPerform(u2, loadedAt)
            && s1.history == ["A"] && s1.exp == 10
            && s2.history == ["B"] && s2.exp == 10
            && s3.history == ["A"] && s3.exp == 10 && s3.usageCount == 3
  {
    var u0 := InitialUser("alice", loadedAt);
    var u1 := Incremented(u0, loadedAt);
    var u2 := Incremented(u1, loadedAt);
    assert u1.history == [] && u1.exp == 0 && u1.usageCount == 1;
    assert u2.history == [] && u2.exp == 0 && u2.usageCount == 2;
    assert "A" !in u0.history && "B" !in u1.history && "A" !in u2.history;
  }

  /** The ledger calls a reading action makes (components/LCAModule.tsx):
      the gate, then (after the article is fetched) the usage count, then the
      history record. `u` is the caller's snapshot of the current account,
      which may be older than the stored one; `next` is the snapshot the
      caller keeps afterwards. */
  method GatedRead(store: Store, u: User, articleId: string, now: Moment) returns (allowed: bool, next: User)
    requires store.Valid() && store.HistoriesDistinct() && NoDuplicates(u.history)
    requires store.current == Some(u.username) && u.username != "" && u.username in store.users
    modifies store
    ensures store.Valid() && store.HistoriesDistinct() && store.current == old(store.current)
    ensures allowed == CanPerform(u, now)
    ensures next == (if allowed then Incremented(u, now) else u)
    ensures !allowed ==> store.users == old(store.users)
    ensures allowed ==>
      store.users == old(store.users)[u.username := AfterRead(ReadBase(old(store.users)[u.username], u, now), articleId)]
  {
    ghost var stored := store.users[u.username];
    allowed := store.CanPerformAction(u, now);
    if !allowed {
      return allowed, u;
    }
    next := store.IncrementUsage(u, now);
    ghost var before := store.users;
    ghost var base := ReadBase(stored, u, now);
    assert Refreshed(before[u.username], now) == base;
    assert StoredCurrent(before, store.current) == Some(before[u.username]);
    var recorded := store.AddHistory(articleId, now);
    if recorded.None? && !NeedsReset(before[u.username], now) {
      assert before == before[u.username := base];
    }
  }

  /** The intended protocol: every reading action starts from the stored
      account rather than from a snapshot kept by the caller. */
  method GatedReadFresh(store: Store, name: string, articleId: string, now: Moment) returns (allowed: bool)
    requires store.Valid() && store.HistoriesDistinct()
    requires store.current == Some(name) && name != "" && name in store.users
    modifies store
    ensures store.Valid() && store.HistoriesDistinct() && store.current == old(store.current)
    ensures allowed == CanPerform(old(store.users)[name], now)
    ensures !allowed ==> store.users == old(store.users)
    ensures allowed ==> store.users == old(store.users)[name := FreshRead(old(store.users)[name], articleId, now)]
  {
    var u := store.users[name];
    var next;
    allowed, next := GatedRead(store, u, articleId, now);
  }

  /** A new account reading A, B and A again as the component does: after
      each read the stored account is as `StaleSnapshotLosesHistory` says. */
  method ReadingSessionScenario(loadedAt: Moment) returns (first: User, second: User, third: User)
    ensures first.history == ["A"] && first.exp == 10 && first.usageCount == 1
    ensures second.history == ["B"] && second.exp == 10 && second.usageCount == 2
    ensures third.history == ["A"] && third.exp == 10 && third.usageCount == 3
  {
    StaleSnapshotLosesHistory(loadedAt);
    var store := new Store(loadedAt);
    var signedUp := store.Signup("alice");
    var snap := signedUp.value;
    var allowed;
    allowed, snap := GatedRead(store, snap, "A", loadedAt);
    first := store.users["alice"];
    allowed, snap := GatedRead(store, snap, "B", loadedAt);
    second := store.users["alice"];
    allowed, snap := GatedRead(store, snap, "A", loadedAt);
    third := store.users["alice"];
  }
}
