/** The orchestration around the two fetchers: the in-memory caches
    `cachedLevelData` and `cachedCreditData`, their freshness checks in
    `loadLevelData` and `loadCreditData`, and the account-change check in
    `init`. Rendering and the mirror in browser storage are not modelled. */
module Monitor {
  import opened Text
  import opened Requirements
  import opened Credit

  /** `DATA_VERSION`. */
  const DataVersion: int := 2
  /** The trust-level cache lives one hour. */
  const LevelMaxAge: int := 3600000
  /** The credit cache lives 30 minutes. */
  const CreditMaxAge: int := 1800000

  /** content.js:853 — a cached snapshot of the current version younger than one hour. */
  predicate LevelFresh(cached: Option<LevelSnapshot>, now: int) {
    cached.Some? && cached.value.version == Some(DataVersion) && now - cached.value.timestamp < LevelMaxAge
  }

  /** content.js:888 — a cached credit result that is not an error and is younger than 30 minutes. */
  predicate CreditFresh(cached: Option<CreditResult>, now: int) {
    cached.Some? && cached.value.CreditOk? && now - cached.value.data.timestamp < CreditMaxAge
  }

  /** `cachedLevelData?.username || cachedCreditData?.userId || cachedCreditData?.username`. */
  function CachedUser(level: Option<LevelSnapshot>, credit: Option<CreditResult>): (u: Option<string>)
    ensures u.Some? ==> u.value != []
    ensures u.None? <==> (level.None? || level.value.username == [])
                         && (credit.None? || credit.value.CreditErr?
                             || (credit.value.data.userId == [] && credit.value.data.username == []))
  {
    if level.Some? && level.value.username != [] then Some(level.value.username)
    else if credit.Some? && credit.value.CreditOk? && credit.value.data.userId != [] then Some(credit.value.data.userId)
    else if credit.Some? && credit.value.CreditOk? && credit.value.data.username != [] then Some(credit.value.data.username)
    else None
  }

  /** The account changed: a current user is known, a cached user is known, and they differ ignoring case. */
  predicate AccountChanged(currentUser: Option<string>, level: Option<LevelSnapshot>, credit: Option<CreditResult>) {
    && currentUser.Some? && currentUser.value != []
    && CachedUser(level, credit).Some?
    && !EqualsIgnoreCase(CachedUser(level, credit).value, currentUser.value)
  }

  /** What a load shows: the cached snapshot (no request made), a new result, or the failure panel. */
  datatype Load<T> = FromCache(cached: T) | Fetched(result: T) | FetchFailed

  class ContentScript {
    var cachedLevel: Option<LevelSnapshot>
    var cachedCredit: Option<CreditResult>
    const fetcher: CreditFetcher

    constructor (fetcher: CreditFetcher)
      ensures cachedLevel.None? && cachedCredit.None? && this.fetcher == fetcher
    {
      cachedLevel := None;
      cachedCredit := None;
      this.fetcher := fetcher;
    }

    /** The account-change check of `init`: both caches are dropped exactly when the account changed. */
    method CheckAccount(currentUser: Option<string>) returns (cleared: bool)
      modifies this
      ensures cleared <==> AccountChanged(currentUser, old(cachedLevel), old(cachedCredit))
      ensures cleared ==> cachedLevel.None? && cachedCredit.None?
      ensures !cleared ==> cachedLevel == old(cachedLevel) && cachedCredit == old(cachedCredit)
    {
      cleared := false;
      if currentUser.Some? && currentUser.value != [] {
        var cachedUser := CachedUser(cachedLevel, cachedCredit);
        if cachedUser.Some? && ToLower(cachedUser.value) != ToLower(currentUser.value) {
          cachedLevel := None;
          cachedCredit := None;
          cleared := true;
        }
      }
    }

    /** The start of `init` after the login check: restore both caches from
        storage, then drop them if the account changed. */
    method Restore(storedLevel: Option<LevelSnapshot>, storedCredit: Option<CreditResult>, currentUser: Option<string>)
      modifies this
      ensures AccountChanged(currentUser, storedLevel, storedCredit) ==> cachedLevel.None? && cachedCredit.None?
      ensures !AccountChanged(currentUser, storedLevel, storedCredit) ==> cachedLevel == storedLevel && cachedCredit == storedCredit
    {
      cachedLevel := storedLevel;
      cachedCredit := storedCredit;
      var _ := CheckAccount(currentUser);
    }

    /** `loadLevelData(force)`. `fetched` is what `fetchUserData()` returns at this
        point; it is consulted only when the cache is not used. */
    method LoadLevelData(force: bool, now: int, fetched: Option<LevelSnapshot>) returns (shown: Load<LevelSnapshot>)
      modifies this
      ensures !force && LevelFresh(old(cachedLevel), now) ==> shown == FromCache(old(cachedLevel).value) && cachedLevel == old(cachedLevel)
      ensures !(!force && LevelFresh(old(cachedLevel), now)) && fetched.Some? ==>
                var stamped := fetched.value.(version := Some(DataVersion));
                shown == Fetched(stamped) && cachedLevel == Some(stamped)
      ensures !(!force && LevelFresh(old(cachedLevel), now)) && fetched.None? ==>
                shown == FetchFailed && cachedLevel == old(cachedLevel)
      ensures cachedCredit == old(cachedCredit)
    {
      if !force && cachedLevel.Some? && cachedLevel.value.version == Some(DataVersion)
         && now - cachedLevel.value.timestamp < LevelMaxAge {
        return FromCache(cachedLevel.value);
      }
      if fetched.Some? {
        var data := fetched.value.(version := Some(DataVersion));
        cachedLevel := Some(data);
        return Fetched(data);
      }
      shown := FetchFailed;
    }

    /** `loadCreditData(force)`: a fresh cache is shown without calling the
        fetcher; otherwise the fetcher runs and whatever it returns, error or
        not, becomes the cached value. */
    method LoadCreditData(force: bool, now: int, currentUser: Option<string>, info: UserInfoOutcome,
                          stamp: int, daily: DailyOutcome)
      returns (shown: Load<CreditResult>)
      modifies this, fetcher
      ensures !force && CreditFresh(old(cachedCredit), now) ==>
                shown == FromCache(old(cachedCredit).value) && cachedCredit == old(cachedCredit)
                && fetcher.lock == old(fetcher.lock) && fetcher.lastRequestTime == old(fetcher.lastRequestTime)
      ensures !(!force && CreditFresh(old(cachedCredit), now)) ==>
                shown.Fetched? && cachedCredit == Some(shown.result)
                && (var g := Admit(old(fetcher.lock), old(fetcher.lastRequestTime), now, force);
                    && (g == Busy ==> shown.result == CreditErr(Loading))
                    && (g.Cooldown? ==> shown.result == CreditErr(RateLimited(g.waitSeconds)))
                    && (g.Acquired? ==> shown.result == Outcome(currentUser, info, stamp, daily))
                    && (g.Acquired? ==> !fetcher.lock && fetcher.lastRequestTime == now)
                    && (!g.Acquired? ==> fetcher.lock == old(fetcher.lock)
                                         && fetcher.lastRequestTime == old(fetcher.lastRequestTime)))
      ensures cachedLevel == old(cachedLevel)
    {
      if !force && cachedCredit.Some? && cachedCredit.value.CreditOk?
         && now - cachedCredit.value.data.timestamp < CreditMaxAge {
        return FromCache(cachedCredit.value);
      }
      var data := fetcher.FetchCredit(now, force, currentUser, info, stamp, daily);
      cachedCredit := Some(data);
      shown := Fetched(data);
    }
  }

  // ---------------------------------------------------------------- properties

  /** A snapshot the loader has stamped stays fresh for exactly one hour after its timestamp. */
  lemma StampedLevelFreshForAnHour(s: LevelSnapshot, now: int)
    ensures LevelFresh(Some(s.(version := Some(DataVersion))), now) <==> now - s.timestamp < LevelMaxAge
  {
  }

  /** A snapshot without the current version is never fresh, whatever its age. */
  lemma OldVersionNeverFresh(s: LevelSnapshot, now: int)
    requires s.version != Some(DataVersion)
    ensures !LevelFresh(Some(s), now)
  {
  }

  /** An error result is never served from the credit cache. */
  lemma CreditErrorNeverFresh(e: CreditError, now: int)
    ensures !CreditFresh(Some(CreditErr(e)), now)
  {
  }

  /** The round trip of content.js:858-865 and 853: a snapshot just loaded is
      reused, unchanged and without a request, by an unforced load within the hour. */
  method LoadThenReuse(t0: int, dt: int, fetched: LevelSnapshot, later: Option<LevelSnapshot>)
    returns (first: Load<LevelSnapshot>, second: Load<LevelSnapshot>)
    requires fetched.timestamp == t0 && 0 <= dt < LevelMaxAge
    ensures first.Fetched? && second == FromCache(first.result)
  {
    var f := new CreditFetcher();
    var m := new ContentScript(f);
    first := m.LoadLevelData(false, t0, Some(fetched));
    second := m.LoadLevelData(false, t0 + dt, later);
  }

  /** A case-only difference between the cached and the current user is no account change. */
  lemma CaseOnlyIsSameAccount(currentUser: string, level: Option<LevelSnapshot>, credit: Option<CreditResult>)
    requires CachedUser(level, credit).Some? && EqualsIgnoreCase(CachedUser(level, credit).value, currentUser)
    ensures !AccountChanged(Some(currentUser), level, credit)
  {
  }

  /** After the check, whatever cached user is left agrees with the current user. */
  method CheckLeavesMatchingUser(m: ContentScript, currentUser: string)
    returns (cleared: bool)
    requires currentUser != []
    modifies m
    ensures var u := CachedUser(m.cachedLevel, m.cachedCredit);
            u.None? || EqualsIgnoreCase(u.value, currentUser)
  {
    cleared := m.CheckAccount(Some(currentUser));
  }

  /** content.js:937 — the level snapshot's user is consulted before the credit snapshot's. */
  lemma LevelUserFirst(level: LevelSnapshot, credit: Option<CreditResult>)
    requires level.username != []
    ensures CachedUser(Some(level), credit) == Some(level.username)
  {
  }

  /** The identity-change scenario: a cache left by one user is dropped when another user is current. */
  lemma OtherUserClearsCache(cached: LevelSnapshot, credit: Option<CreditResult>)
    requires cached.username == "alice"
    ensures AccountChanged(Some("bob"), Some(cached), credit)
  {
    assert ToLower("alice")[0] == 'a';
    assert ToLower("bob")[0] == 'b';
  }
}
