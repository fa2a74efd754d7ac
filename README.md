# linuxdo-level-monitor — a Dafny model of the content script

The extension's content script (`chrome-extension/content.js`) shows a
linux.do user's trust-level progress and their Credit balance in a floating
panel. This project models the deterministic core of that script and proves
what it promises:

- **Trust-level items for levels 2 and up** (`parseHighLevelData`) — module `HighLevel`.
  The parsed page is given as records: rings, bars, quota cards, veto items and
  the rows of the old table layout. Each `forEach … push` loop is a method with
  a loop invariant, proved equal to a specification function. The function's
  properties are lemmas: the four shape rules, card order, the legacy fallback
  and the counts.
- **Trust-level items for levels 0 and 1** (the part of `fetchLowLevelData`
  after `summary.json` arrives) — module `LowLevel`. It holds the threshold
  table `LEVEL_REQUIREMENTS` and the loop over it. Reading time is shown in
  minutes and compared in seconds.
- **The Credit fetcher** (`fetchCreditData`) — module `Credit`. A class holds
  `creditRequestLock` and `lastCreditRequestTime`. The admission gate reports
  `isLoading` or a rate limit with a whole-second wait. The lock is released on
  every exit after admission. The account check ignores case. The daily
  income and expense lists are built, filtered and reversed.
- **Caches and the account-change check** (`loadLevelData`, `loadCreditData`
  and the start of `init`) — module `Monitor`. It has the two freshness tests and
  the in-memory caches as fields of a class.
- **Who is logged in** (`getCurrentUsername`, `isLoggedIn`) — module `Identity`.
  This is the seven-step fallback chain, with the two avatar-URL patterns and
  the `/u/<name>` split.
- **The theme button** (`ThemeManager.next`) — module `Theme`. It covers the
  cyclic successor, including `indexOf` giving -1 for an unknown theme.
- **Shared pieces** — modules `Text` and `Requirements`. `Text` holds the
  JavaScript string built-ins the script uses: `trim`, `split`, `replace`,
  `String(n)`, `parseInt`, `toLowerCase`, `includes` and `substring`.
  `Requirements` holds the requirement item and the level snapshot.

The network, the DOM, storage and the clock are parameters. A selector's
result is an `Option` or a sequence of records. A response is an outcome
datatype. `Date.now()` is a `now` argument.

## Model

| member | source | states |
|---|---|---|
| Text.TrimStartSpec | chrome-extension/content.js:316-318 | Trimming the start drops exactly the leading whitespace: the result is a suffix of the input, everything dropped is whitespace, and the result does not start with whitespace. |
| Text.TrimEndSpec | chrome-extension/content.js:316-318 | Trimming the end drops exactly the trailing whitespace: the result is a prefix of the input, everything dropped is whitespace, and the result does not end with whitespace. |
| Text.TrimSpec | chrome-extension/content.js:316-318 | `trim()` gives a contiguous slice of its input. Everything before and after that slice is whitespace, and the slice neither starts nor ends with whitespace. |
| Text.TrimKeepsTrimmed | chrome-extension/content.js:332 | Trimming a text with no whitespace at either end returns it unchanged. |
| Text.Split | chrome-extension/content.js:332 | `split('/')` always gives at least one part. |
| Text.SplitCount | chrome-extension/content.js:332 | `split` gives one more part than the text has separators. |
| Text.SplitPartsHaveNoSeparator | chrome-extension/content.js:332 | No part of a split contains the separator. |
| Text.JoinSplit | chrome-extension/content.js:332 | Joining the parts with the separator gives back the original text. |
| Text.SplitAtSingleSeparator | chrome-extension/content.js:332-334 | With exactly one separator, at position i, the parts are the text before i and the text after it. |
| Text.NoSeparatorSplit | chrome-extension/content.js:332 | A text without the separator splits into itself. |
| Text.DigitsOnly | chrome-extension/content.js:319 | `replace(/[^\d]/g, '')` leaves only digits and never lengthens the text. |
| Text.DigitsOnlyAppend | chrome-extension/content.js:319 | The filter works character by character: a concatenation is filtered part by part, and one character is kept exactly when it is a digit. So the result is the digits of the text, all of them, in order. |
| Text.DigitsOnlyOfDigits | chrome-extension/content.js:319 | A text of digits is left as it is. |
| Text.DigitsOnlyIdempotent | chrome-extension/content.js:319 | Filtering twice is filtering once. |
| Text.NatToStringDigits | chrome-extension/content.js:379 | `String(n)` is a non-empty digit string with no leading zero. |
| Text.ParseNatToString | chrome-extension/content.js:288 | `parseInt(String(n))` is n. |
| Text.DigitValue | chrome-extension/content.js:288 | A digit character's value is below 10 and converts back to the same character. |
| Text.LowerChar | chrome-extension/content.js:500 | Each upper-case ASCII letter becomes the lower-case letter at the same place in the alphabet; every other character is unchanged. |
| Text.ToLower | chrome-extension/content.js:938 | `toLowerCase()` keeps the length and lower-cases each character on its own. |
| Text.ToLowerIdempotent | chrome-extension/content.js:938 | Lower-casing twice is lower-casing once. |
| Text.Find | chrome-extension/content.js:134 | `includes`/`indexOf` on a string: the result is the first position where the pattern occurs; None means it occurs nowhere. |
| Text.ReplaceFirstSpec | chrome-extension/content.js:526 | `replace('-', '/')` changes only the first `-`, at k, into `/` and keeps everything else; a text without `-` is unchanged. |
| Text.Drop | chrome-extension/content.js:526 | `substring(5)` is the suffix left after the first five characters (the dropped prefix plus the result is the text), or empty for a shorter text. |
| Text.TakeUntil | chrome-extension/content.js:135 | `split('/')[0]` is the longest prefix without `/`, and it stops at the first `/`. |
| Text.TakeUntilPrefix | chrome-extension/content.js:135 | When the first `/` is at n, `split('/')[0]` is the first n characters. |
| Requirements.MetItems | chrome-extension/content.js:377 | `filter(i => i.isMet)` keeps only met items, each taken from the list. |
| Requirements.MetItemsAppend | chrome-extension/content.js:377 | Filtering a concatenation filters each part in order. |
| Requirements.CountMetAppend | chrome-extension/content.js:377 | The met count is additive over concatenation. |
| Requirements.CountMetAllIff | chrome-extension/content.js:377-383 | The achieved count equals the total exactly when every item is met. |
| Requirements.CountMetNoneIff | chrome-extension/content.js:377-383 | The achieved count is 0 exactly when no item is met. |
| Requirements.AchievedAtMostTotal | chrome-extension/content.js:377-383 | A snapshot whose counts agree with its items has `achievedCount <= totalCount`. |
| HighLevel.Collect | chrome-extension/content.js:315-358 | A push loop yields at most one item per record. |
| HighLevel.CollectSources | chrome-extension/content.js:315-358 | Every item a push loop yields comes from a record that produced exactly that item. |
| HighLevel.PushRingItems | chrome-extension/content.js:315-324 | The ring loop appends exactly the ring items, in ring order. |
| HighLevel.PushBarItems | chrome-extension/content.js:327-336 | The bar loop appends exactly the bar items, in bar order. |
| HighLevel.PushQuotaItems | chrome-extension/content.js:339-348 | The quota loop appends exactly the quota items, in order. |
| HighLevel.PushVetoItems | chrome-extension/content.js:350-358 | The veto loop appends exactly the veto items, in order. |
| HighLevel.PushRowItems | chrome-extension/content.js:361-374 | The table loop appends exactly the row items, skipping row 0 and short rows. |
| HighLevel.ExtractItems | chrome-extension/content.js:311-375 | The four card loops and the legacy fallback together yield exactly the container's items. |
| HighLevel.ParseHighLevel | chrome-extension/content.js:287-385 | Gives null exactly when there is no container and the user is not at the top level. Without a container it gives the empty top-level snapshot. Otherwise its items are the container's items. `isMaxLevel` and the target follow the rules below, and the counts agree with the items. |
| HighLevel.TargetRules | chrome-extension/content.js:289-379 | Below level 3 the user is never at the top level and always has a target. At the top level with no target card there is no target. A card target is reported as text that parses back to it; otherwise the target is level + 1. |
| HighLevel.BarItemIff | chrome-extension/content.js:327-336 | A bar gives an item exactly when it has a label and its text holds exactly one `/`. |
| HighLevel.QuotaItemIff | chrome-extension/content.js:339-348 | A quota gives an item exactly when it has a label and its text holds exactly one `/`. |
| HighLevel.BarItemValues | chrome-extension/content.js:332-334 | A bar `a / b` gives current `trim(a)` and required `trim(b)`. |
| HighLevel.QuotaItemValues | chrome-extension/content.js:343-345 | A quota `a / b` gives current `trim(a)` and required `≤` + `trim(b)`. |
| HighLevel.ShapeRules | chrome-extension/content.js:315-358 | Ring requirements are digit strings. Quota requirements start with `≤`. Veto requirements are `"0"`, and a veto's label is `label(desc)`. |
| HighLevel.CardOrder | chrome-extension/content.js:313-358 | The card items are the ring items, then the bar items, then the quota items, then the veto items. |
| HighLevel.CollectPrefix | chrome-extension/content.js:315-358 | The items of a prefix of the records are a prefix of the items, so record order is kept. |
| HighLevel.RowItemsFromDataRows | chrome-extension/content.js:361-374 | Every legacy item comes from a data row (not row 0) with at least three cells. Its `isMet` is the green class of cell 1. |
| HighLevel.HeaderRowIgnored | chrome-extension/content.js:363-364 | Replacing the header row changes no item. |
| HighLevel.LegacyOnlyAsFallback | chrome-extension/content.js:361 | The table is read only for a legacy container that produced no card item. |
| LowLevel.EvaluateLowLevel | chrome-extension/content.js:424-457 | Gives null exactly when the summary or the level's table is missing. Otherwise there is one item per table entry, in table order. Each item is met iff the raw counter reaches the raw threshold. The target is level + 1 and the counts agree. |
| LowLevel.EvaluateItems | chrome-extension/content.js:440-451 | The `forEach` over the requirement table gives one item per entry, in table order. Each item is met exactly when the raw counter reaches the raw threshold. |
| LowLevel.ThresholdsWhole | chrome-extension/content.js:27-30 | Every threshold in the table is a whole number of display units (the reading-time thresholds are whole minutes). |
| LowLevel.DisplayAgreesWithMet | chrome-extension/content.js:435-448 | For whole-minute thresholds, comparing seconds agrees with comparing the minutes shown. |
| LowLevel.TimeReadBoundary | chrome-extension/content.js:437-448 | 3600 s of reading against 3600 s shows as 60 of 60 minutes and is met. |
| LowLevel.EmptySummaryMeetsNothing | chrome-extension/content.js:434-446 | With every counter missing (read as 0), no threshold is met. |
| Credit.WaitSeconds | chrome-extension/content.js:478 | The wait is the ceiling of the remaining milliseconds over 1000, and at least 1. |
| Credit.Admit | chrome-extension/content.js:472-484 | Busy iff the lock is held. Cooldown iff unlocked, unforced and inside 30 s, with a ceiling wait of at least 1 s. Admitted otherwise. |
| Credit.DatedPrefix | chrome-extension/content.js:524-526 | Counts the leading entries that have a date; the next entry, if any, lacks one. |
| Credit.BuildDailyLists | chrome-extension/content.js:522-537 | The loop and the two `reverse()` calls produce exactly `DailyLists`. |
| Credit.CreditFetcher.constructor | chrome-extension/content.js:466-467 | Starts unlocked with last request time 0. |
| Credit.CreditFetcher.TryAcquire | chrome-extension/content.js:471-484 | Returns the gate's decision. Only on admission does it take the lock and stamp the time; otherwise it changes nothing. |
| Credit.CreditFetcher.Finish | chrome-extension/content.js:486-549 | Every exit releases the lock, and the result is `Outcome`: error, not logged in, mismatch or data. |
| Credit.CreditFetcher.FetchCredit | chrome-extension/content.js:470-550 | A busy call returns `isLoading`. A rate-limited call returns the wait. Neither refusal changes the lock or the last request time. An admitted call returns `Outcome`, frees the lock and stamps `now`. |
| Credit.SecondCallInsideWindow | chrome-extension/content.js:477-480 | A second unforced call within 30 s is rate-limited, with a wait of at least 1 s. |
| Credit.CallWhileInFlight | chrome-extension/content.js:473-475 | A call while the lock is held gets `isLoading`, even when forced. |
| Credit.MismatchRules | chrome-extension/content.js:497-503 | Names equal ignoring case are no mismatch. A mismatch happens exactly when both names are present and differ, and it carries both names verbatim. |
| Credit.ReversedAt | chrome-extension/content.js:532-533 | `reverse()` puts element `n-1-k` at position k. |
| Credit.ReversedLength | chrome-extension/content.js:532-533 | `reverse()` keeps the length. |
| Credit.ReversedAll | chrome-extension/content.js:532-533 | `reverse()` keeps the length and puts element `n-1-k` at every position k. |
| Credit.DailyListsReversePushOrder | chrome-extension/content.js:522-537 | When every entry has a date, each list is its pushed entries in reverse order. |
| Credit.IncomesArePositive | chrome-extension/content.js:526-529 | Every listed income comes from an entry with positive income, with that entry's date and a `+` amount. |
| Credit.ExpensesArePositive | chrome-extension/content.js:526-530 | Every listed expense comes from an entry with positive expense, with that entry's date and a `-` amount. |
| Credit.FormatDateOfIsoDate | chrome-extension/content.js:526 | `YYYY-MM-DD` is shown as `MM/DD`. |
| Monitor.CachedUser | chrome-extension/content.js:937 | No cached user exactly when neither the level snapshot nor a successful credit snapshot names one; a result is never empty. |
| Monitor.ContentScript.constructor | chrome-extension/content.js:849-850 | Both caches start empty. |
| Monitor.ContentScript.CheckAccount | chrome-extension/content.js:935-946 | Both caches are cleared exactly when the account changed; otherwise nothing changes. |
| Monitor.ContentScript.Restore | chrome-extension/content.js:930-946 | The stored snapshots are restored, then dropped if they belong to another account. |
| Monitor.ContentScript.LoadLevelData | chrome-extension/content.js:852-884 | A fresh cache is shown without a fetch. Otherwise a fetched snapshot is stamped with the data version and cached, and a failure leaves the cache as it was. |
| Monitor.ContentScript.LoadCreditData | chrome-extension/content.js:886-906 | A fresh, non-error cache is shown without calling the fetcher, whose state stays as it was. Otherwise the fetcher's result, error or not, replaces the cache. An admitted fetch leaves the fetcher unlocked with its time stamped `now`; a refused one leaves the fetcher's lock and time unchanged. |
| Monitor.StampedLevelFreshForAnHour | chrome-extension/content.js:853 | A stamped snapshot is fresh exactly while it is less than one hour old. |
| Monitor.OldVersionNeverFresh | chrome-extension/content.js:853 | A snapshot from another data version is never fresh. |
| Monitor.CreditErrorNeverFresh | chrome-extension/content.js:888 | An error result is never served from the cache. |
| Monitor.LoadThenReuse | chrome-extension/content.js:853-865 | A snapshot just loaded is reused unchanged, without a fetch, by an unforced load within the hour. |
| Monitor.CaseOnlyIsSameAccount | chrome-extension/content.js:936-938 | A case-only difference is not an account change. |
| Monitor.CheckLeavesMatchingUser | chrome-extension/content.js:935-946 | After the check, any cached user left agrees with the current user, ignoring case. |
| Monitor.LevelUserFirst | chrome-extension/content.js:937 | The level snapshot's user is consulted before the credit snapshot's. |
| Monitor.OtherUserClearsCache | chrome-extension/content.js:938-942 | A cache left by `alice` is dropped when `bob` is current. |
| Identity.Segment | chrome-extension/content.js:123-125 | `([^/]+)\/` matched at j ends at a `/` that closes a non-empty run without `/` starting at j. |
| Identity.SegmentNone | chrome-extension/content.js:123-125 | There is no match at j only when no `/` after j closes a run without `/` from j. |
| Identity.LetterAvatarAt | chrome-extension/content.js:123 | A match at position i captures a name n such that the text at i reads `/letter_avatar/` + n + `/`, with n non-empty and without `/`. |
| Identity.LetterAvatarAtComplete | chrome-extension/content.js:123 | Conversely, whenever the text at i reads `/letter_avatar/` + n + `/` with such an n, the match at i captures n. |
| Identity.UserAvatarAt | chrome-extension/content.js:125 | A match at position i captures a non-empty name without `/`. |
| Identity.UserAvatarAtSound | chrome-extension/content.js:125 | A match at i capturing n happens only where the text at i reads `/user_avatar/` + a + `/` + n + `/` for some non-empty run a without `/`. |
| Identity.UserAvatarAtComplete | chrome-extension/content.js:125 | Conversely, whenever the text at i has that shape, the match at i captures n. |
| Identity.LetterAvatarName | chrome-extension/content.js:123-124 | `match` gives the capture at a matching position with no match before it, so the leftmost one; None means no position matches. |
| Identity.UserAvatarName | chrome-extension/content.js:125-126 | `match` gives the capture at a matching position with no match before it, so the leftmost one; None means no position matches. |
| Identity.ProfileName | chrome-extension/content.js:134-140 | None exactly when the text has no `/u/`. Otherwise the name is the text right after the first `/u/`, up to the next `/` or the end, and holds no `/`. |
| Identity.CurrentUsername | chrome-extension/content.js:116-151 | The resolved name is never empty. |
| Identity.SegmentAt | chrome-extension/content.js:123-125 | A run without `/` from j, closed by the `/` at e, makes `([^/]+)\/` at j end at e. |
| Identity.FirstTruthy | chrome-extension/content.js:116-151 | The first non-empty candidate; None means no candidate is non-empty. |
| Identity.FirstOfSeven | chrome-extension/content.js:116-151 | The first non-empty of seven candidates is the chain `c0 \|\| c1 \|\| … \|\| c6`. |
| Identity.CurrentUsernameIsFirstTruthy | chrome-extension/content.js:116-151 | The resolver is exactly "the first non-empty candidate", in the fixed order: alt, letter avatar, user avatar, title, link, path, stored user. |
| Identity.AltWins | chrome-extension/content.js:117-119 | A non-empty avatar `alt` wins whatever else the page holds. |
| Identity.NoSourceNoName | chrome-extension/content.js:116-151 | With no source at all the resolver gives null. |
| Identity.AliceAtStart | chrome-extension/content.js:123-124 | The letter-avatar pattern matches `/letter_avatar/alice/48/5_abc.png` at its start, capturing `alice`. |
| Identity.LetterAvatarExample | chrome-extension/content.js:123-124 | `/letter_avatar/alice/48/5_abc.png` names `alice`. |
| Identity.IsLoggedIn | chrome-extension/content.js:153-159 | Logged out exactly when there is no user menu and a login button is shown. |
| Theme.IndexOfSpec | chrome-extension/content.js:100 | `indexOf` gives the first position of the name, or -1 exactly when it is absent. |
| Theme.ThemeManager.constructor | chrome-extension/content.js:77 | The theme starts as `default`. |
| Theme.ThemeManager.Apply | chrome-extension/content.js:85-90 | `apply` sets the theme to the name given. |
| Theme.ThemeManager.Switch | chrome-extension/content.js:92-96 | `switch` applies every name whose `THEMES` lookup is truthy: a listed theme, or a key inherited from `Object.prototype` such as `toString`. Every other name is ignored. |
| Theme.ThemeManager.Next | chrome-extension/content.js:98-104 | `next` switches to `NextTheme` of the current theme and returns it. |
| Theme.KnownIndex | chrome-extension/content.js:100 | In a list without repeats, `indexOf` finds each name at its own position. |
| Theme.NextInIsListed | chrome-extension/content.js:98-104 | The next name is always listed; from an unlisted name it is the first. |
| Theme.NextInIsSuccessor | chrome-extension/content.js:101-102 | From the name at k the next is at k + 1, and the last wraps to the first. |
| Theme.NextNAdvances | chrome-extension/content.js:98-104 | n presses that do not pass the end move n places down the list. |
| Theme.NextNCompose | chrome-extension/content.js:98-104 | a presses and then b presses are a + b presses. |
| Theme.NextNCycles | chrome-extension/content.js:98-104 | Pressing once per name returns to the starting name. |
| Theme.ThemeNamesDistinct | chrome-extension/content.js:18-24 | The five theme names differ. |
| Theme.NextIsKnown | chrome-extension/content.js:98-104 | `next()` always lands on a known theme, and on `default` from an unknown one. |
| Theme.NextIsSuccessor | chrome-extension/content.js:98-104 | From theme k `next()` goes to theme (k + 1) mod 5. |
| Theme.NextCycles | chrome-extension/content.js:98-104 | Five presses from a known theme return to it. |
| Theme.NextVisitsAll | chrome-extension/content.js:18-24 | From `default`, presses 1 to 4 visit `rpg`, `pixel`, `card` and `cyber` in order. |

## Left out

- DOM extraction: selectors, `textContent.trim()` on elements, class-list tests and the regular expressions of `fetchUserData` (content.js:196-285). They are inputs to the model: record sequences, optional texts and already-trimmed strings.
- `fetchUserData`'s choice between the two evaluators (level 2 and up versus below 2) and its username fallbacks from the page header are not modelled. Both evaluators are modelled.
- The network: `fetchViaBackground`, `fetchJsonViaBackground`, `fetch` of `summary.json`, and the CSRF meta lookup. Their results are outcome datatypes (`UserInfoOutcome`, `DailyOutcome`, an optional `Summary`).
- `parseFloat` and `toFixed(2)` in the daily statistics, because floating point is out of scope. Amounts are whole hundredths (`incomeCents`, `expenseCents`), formatted as `+i.dd` / `-i.dd`.
- Timers and asynchrony: the 2 s pause before the daily statistics, the start-up waits, `debounce` and hover timeouts. `Date.now()` is a parameter. The await inside `fetchCreditData` is modelled by splitting it into `TryAcquire` and `Finish`, so a second call can arrive while the lock is held.
- Rendering (`createFloatingUI`, `updateLevelUI`, `updateCreditUI`, `updateButtonUI`, `initTabs`, `bindRefreshButton`, `escapeHtml`) and logging.
- The `Storage` wrapper and `chrome.storage.onChanged`. The restored snapshots are parameters of `Restore`. Writes to storage, `ThemeManager.init`, `listenForChanges` and the body's CSS classes are not modelled.
- `chrome-extension/background.js` (a fetch relay) and `chrome-extension/popup/popup.js` (storage and class toggling) are not part of this model.
- Text.LowerChar: `toLowerCase` is modelled on ASCII letters only. Full Unicode case mapping is out of scope.
- Identity.UserAvatarAt: its own contract states only that the capture is a non-empty run without `/`. The full shape of a match is stated in both directions by the lemmas UserAvatarAtSound and UserAvatarAtComplete, which keeps the existential out of every proof that uses the function.
- Identity.CurrentUsername: the JSON parse of `discourse_current_user` is folded into the optional `storedUsername` input. A parse failure is None.
- Credit.CreditFetcher.Finish: the user-information request failing with an exception is the `UserInfoThrew(message)` input. No other exception source in that body is modelled.
- Credit.BuildDailyLists: models the code as written. An entry without a date makes `item.date.substring` throw; the inner `catch` only logs, so both lists keep what was pushed so far and are not reversed (`DailyLists`).
- Monitor.ContentScript.LoadCreditData: models the code as written. An error result (including `isLoading` and the rate-limit refusal) replaces the in-memory cached data. Only the stored copy keeps the last good data.
- Theme.ThemeManager.Next: calls `switch` without awaiting its storage write. Only the change to `currentTheme` is modelled.
