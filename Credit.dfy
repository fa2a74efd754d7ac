/** The credit fetcher (`fetchCreditData`): an in-flight lock and a 30-second
    cooldown guard the credit API; once admitted, the user-info answer is
    checked against the forum identity and the 7-day history is turned into
    oldest-first income and expense lists.

    The network answers are inputs: `UserInfoOutcome` for the user-info
    request and `DailyOutcome` for the daily-statistics request. */
module Credit {
  import opened Text

  /** `CREDIT_REQUEST_INTERVAL`, in milliseconds. */
  const Interval: int := 30000

  // ---------------------------------------------------------------- inputs

  /** `userInfo.data`; a field that is absent (or falsy) is None. Amounts are the API's text. */
  datatype UserData = UserData(
    username: Option<string>,
    nickname: Option<string>,
    avatarUrl: Option<string>,
    availableBalance: Option<string>,
    remainQuota: Option<string>,
    totalReceive: Option<string>,
    totalPayment: Option<string>)

  /** The user-info request: it throws with a message, or answers with or without `data`. */
  datatype UserInfoOutcome =
    | UserInfoThrew(message: string)
    | UserInfoAnswered(data: Option<UserData>)

  /** One `{date, income, expense}` entry; amounts in hundredths after `parseFloat(...) || 0`.
      `date` is None when it is not a string, so that `substring` throws. */
  datatype DailyEntry = DailyEntry(date: Option<string>, incomeCents: int, expenseCents: int)

  /** The daily-statistics request: it threw or its `data` is not an array, or it gave entries. */
  datatype DailyOutcome = DailyUnavailable | DailyEntries(entries: seq<DailyEntry>)

  // ---------------------------------------------------------------- results

  datatype DailyAmount = DailyAmount(date: string, amount: string)

  datatype CreditData = CreditData(
    username: string,
    userId: string,
    avatarUrl: string,
    credits: string,
    dailyLimit: string,
    incomeTotal: string,
    expenseTotal: string,
    incomeList: seq<DailyAmount>,
    expenseList: seq<DailyAmount>,
    timestamp: int)

  /** The error variants: `isLoading`, `isRateLimit` with a wait, `not_logged_in`,
      `account_mismatch` with both names, `HTTP 429` and any other exception message. */
  datatype CreditError =
    | Loading
    | RateLimited(waitSeconds: nat)
    | NotLoggedIn
    | AccountMismatch(creditUser: string, currentUser: string)
    | Http429
    | Failed(message: string)

  datatype CreditResult = CreditOk(data: CreditData) | CreditErr(err: CreditError)

  /** The `error` text of each variant. */
  function ErrorText(e: CreditError): string {
    match e
    case Loading => "请求中..."
    case RateLimited(w) => "请等待 " + NatToString(w) + " 秒后重试"
    case NotLoggedIn => "not_logged_in"
    case AccountMismatch(_, _) => "account_mismatch"
    case Http429 => "HTTP 429"
    case Failed(m) => m
  }

  /** The variants that carry `isRateLimit: true`. */
  predicate IsRateLimit(e: CreditError) {
    e.RateLimited? || e.Http429?
  }

  // ---------------------------------------------------------------- the gate

  /** `Math.ceil(remaining / 1000)` for a positive number of milliseconds. */
  function WaitSeconds(remaining: int): (w: nat)
    requires remaining > 0
    ensures w >= 1
    ensures (w - 1) * 1000 < remaining <= w * 1000
  {
    (remaining + 999) / 1000
  }

  datatype Gate = Busy | Cooldown(waitSeconds: nat) | Acquired

  /** The admission decision at time `now`, given the lock and the last request time. */
  function Admit(lock: bool, last: int, now: int, force: bool): (g: Gate)
    ensures g == Busy <==> lock
    ensures g.Cooldown? <==> !lock && !force && now - last < Interval
    ensures g.Cooldown? ==> g.waitSeconds >= 1
                            && (g.waitSeconds - 1) * 1000 < Interval - (now - last) <= g.waitSeconds * 1000
  {
    if lock then Busy
    else if !force && now - last < Interval then Cooldown(WaitSeconds(Interval - (now - last)))
    else Acquired
  }

  // ---------------------------------------------------------------- after admission

  /** `a || d` for a text field. */
  function OrElse(a: Option<string>, d: string): string {
    if a.Some? && a.value != [] then a.value else d
  }

  /** The identity check: both names present and different ignoring case. */
  predicate Mismatch(currentUser: Option<string>, creditUser: Option<string>) {
    && currentUser.Some? && currentUser.value != []
    && creditUser.Some? && creditUser.value != []
    && !EqualsIgnoreCase(currentUser.value, creditUser.value)
  }

  /** `item.date.substring(5).replace('-', '/')`. */
  function FormatDate(date: string): string {
    ReplaceFirst(Drop(date, 5), '-', '/')
  }

  /** `toFixed(2)` of a non-negative amount given in hundredths, with its sign. */
  function FormatAmount(sign: char, cents: nat): string {
    var frac := cents % 100;
    [sign] + NatToString(cents / 100) + "." + [DigitChar(frac / 10), DigitChar(frac % 10)]
  }

  /** The first `n` entries exist and have a date. */
  predicate DatedUpTo(entries: seq<DailyEntry>, n: nat) {
    n <= |entries| && forall k :: 0 <= k < n ==> entries[k].date.Some?
  }

  /** The income row of a dated entry with an income: its date as `MM/DD` and a `+` amount. */
  function IncomeRow(e: DailyEntry): DailyAmount
    requires e.date.Some? && e.incomeCents > 0
  {
    DailyAmount(FormatDate(e.date.value), FormatAmount('+', e.incomeCents))
  }

  /** The expense row of a dated entry with an expense: its date as `MM/DD` and a `-` amount. */
  function ExpenseRow(e: DailyEntry): DailyAmount
    requires e.date.Some? && e.expenseCents > 0
  {
    DailyAmount(FormatDate(e.date.value), FormatAmount('-', e.expenseCents))
  }

  /** What one dated entry pushes onto the income list: its row when the amount is positive. */
  function IncomeOf(e: DailyEntry): seq<DailyAmount>
    requires e.date.Some?
  {
    if e.incomeCents > 0 then [IncomeRow(e)] else []
  }

  /** What one dated entry pushes onto the expense list: its row when the amount is positive. */
  function ExpenseOf(e: DailyEntry): seq<DailyAmount>
    requires e.date.Some?
  {
    if e.expenseCents > 0 then [ExpenseRow(e)] else []
  }

  /** The income entries pushed for the first `n` entries, in the API's order. */
  function Incomes(entries: seq<DailyEntry>, n: nat): seq<DailyAmount>
    requires DatedUpTo(entries, n)
  {
    if n == 0 then [] else Incomes(entries, n - 1) + IncomeOf(entries[n - 1])
  }

  /** The expense entries pushed for the first `n` entries, in the API's order. */
  function Expenses(entries: seq<DailyEntry>, n: nat): seq<DailyAmount>
    requires DatedUpTo(entries, n)
  {
    if n == 0 then [] else Expenses(entries, n - 1) + ExpenseOf(entries[n - 1])
  }

  function Reversed<T>(s: seq<T>): seq<T> {
    if s == [] then [] else Reversed(s[1..]) + [s[0]]
  }

  /** How many leading entries have a date: the `forEach` throws at the first that has none. */
  function DatedPrefix(entries: seq<DailyEntry>): (n: nat)
    ensures n <= |entries|
    ensures forall k :: 0 <= k < n ==> entries[k].date.Some?
    ensures n < |entries| ==> entries[n].date.None?
  {
    if entries == [] || entries[0].date.None? then 0 else 1 + DatedPrefix(entries[1..])
  }

  /** The two lists as the source leaves them: both reversed when the loop ran to
      the end; when it threw, the entries pushed before the throw, not reversed. */
  function DailyLists(entries: seq<DailyEntry>): (seq<DailyAmount>, seq<DailyAmount>) {
    var n := DatedPrefix(entries);
    if n == |entries| then (Reversed(Incomes(entries, n)), Reversed(Expenses(entries, n)))
    else (Incomes(entries, n), Expenses(entries, n))
  }

  /** Everything after admission, as a value. */
  function Outcome(currentUser: Option<string>, info: UserInfoOutcome, stamp: int, daily: DailyOutcome): CreditResult {
    match info
    case UserInfoThrew(m) => CreditErr(if Contains(m, "429") then Http429 else Failed(m))
    case UserInfoAnswered(None) => CreditErr(NotLoggedIn)
    case UserInfoAnswered(Some(u)) =>
      if Mismatch(currentUser, u.username) then CreditErr(AccountMismatch(u.username.value, currentUser.value))
      else
        var lists := if daily.DailyEntries? then DailyLists(daily.entries) else ([], []);
        CreditOk(CreditData(
          OrElse(u.nickname, OrElse(u.username, "User")), OrElse(u.username, ""), OrElse(u.avatarUrl, ""),
          OrElse(u.availableBalance, "0"), OrElse(u.remainQuota, "0"),
          OrElse(u.totalReceive, "0"), OrElse(u.totalPayment, "0"),
          lists.0, lists.1, stamp))
  }

  /** The daily-statistics `forEach` and the two `reverse()` calls. */
  method BuildDailyLists(entries: seq<DailyEntry>) returns (incomeList: seq<DailyAmount>, expenseList: seq<DailyAmount>)
    ensures (incomeList, expenseList) == DailyLists(entries)
  {
    incomeList, expenseList := [], [];
    var i := 0;
    while i < |entries|
      invariant DatedUpTo(entries, i)
      invariant incomeList == Incomes(entries, i) && expenseList == Expenses(entries, i)
    {
      var item := entries[i];
      if item.date.None? {
        // `item.date.substring` throws; the surrounding `catch` only logs
        DatedPrefixAt(entries, i);
        return;
      }
      assert DatedUpTo(entries, i + 1);
      assert Incomes(entries, i + 1) == incomeList + IncomeOf(item);
      assert Expenses(entries, i + 1) == expenseList + ExpenseOf(item);
      if item.incomeCents > 0 {
        incomeList := incomeList + [IncomeRow(item)];
      }
      if item.expenseCents > 0 {
        expenseList := expenseList + [ExpenseRow(item)];
      }
      i := i + 1;
    }
    DatedPrefixAll(entries);
    incomeList := Reversed(incomeList);
    expenseList := Reversed(expenseList);
  }

  lemma {:induction false} DatedPrefixAt(entries: seq<DailyEntry>, i: nat)
    requires i < |entries| && entries[i].date.None?
    requires forall k :: 0 <= k < i ==> entries[k].date.Some?
    ensures DatedPrefix(entries) == i
  {
    if i > 0 {
      DatedPrefixAt(entries[1..], i - 1);
    }
  }

  lemma {:induction false} DatedPrefixAll(entries: seq<DailyEntry>)
    requires DatedUpTo(entries, |entries|)
    ensures DatedPrefix(entries) == |entries|
  {
    if entries != [] {
      DatedPrefixAll(entries[1..]);
    }
  }

  // ---------------------------------------------------------------- the fetcher

  /** The module-level `creditRequestLock` and `lastCreditRequestTime`. */
  class CreditFetcher {
    var lock: bool
    var lastRequestTime: int

    constructor ()
      ensures !lock && lastRequestTime == 0
    {
      lock := false;
      lastRequestTime := 0;
    }

    /** The guard at the top of `fetchCreditData`: refuse while a request is in
        flight or inside the cooldown (changing nothing), else take the lock and
        stamp the time. */
    method TryAcquire(now: int, force: bool) returns (g: Gate)
      modifies this
      ensures g == Admit(old(lock), old(lastRequestTime), now, force)
      ensures g.Acquired? ==> lock && lastRequestTime == now
      ensures !g.Acquired? ==> lock == old(lock) && lastRequestTime == old(lastRequestTime)
    {
      if lock {
        return Busy;
      }
      if !force && now - lastRequestTime < Interval {
        var waitTime := (Interval - (now - lastRequestTime) + 999) / 1000;
        return Cooldown(waitTime);
      }
      lock := true;
      lastRequestTime := now;
      g := Acquired;
    }

    /** The body after admission: every exit releases the lock. `currentUser` is
        what `getCurrentUsername()` gives at that point; `stamp` is `Date.now()`
        when the snapshot is built. */
    method Finish(currentUser: Option<string>, info: UserInfoOutcome, stamp: int, daily: DailyOutcome)
      returns (r: CreditResult)
      requires lock
      modifies this
      ensures !lock && lastRequestTime == old(lastRequestTime)
      ensures r == Outcome(currentUser, info, stamp, daily)
    {
      if info.UserInfoThrew? {
        lock := false;
        if Contains(info.message, "429") {
          return CreditErr(Http429);
        }
        return CreditErr(Failed(info.message));
      }
      if info.data.None? {
        lock := false;
        return CreditErr(NotLoggedIn);
      }
      var userData := info.data.value;
      var creditUser := userData.username;
      if currentUser.Some? && currentUser.value != [] && creditUser.Some? && creditUser.value != []
         && ToLower(currentUser.value) != ToLower(creditUser.value) {
        lock := false;
        return CreditErr(AccountMismatch(creditUser.value, currentUser.value));
      }
      var incomeList, expenseList := [], [];
      if daily.DailyEntries? {
        incomeList, expenseList := BuildDailyLists(daily.entries);
      }
      var data := CreditData(
        OrElse(userData.nickname, OrElse(userData.username, "User")), OrElse(userData.username, ""),
        OrElse(userData.avatarUrl, ""), OrElse(userData.availableBalance, "0"),
        OrElse(userData.remainQuota, "0"), OrElse(userData.totalReceive, "0"),
        OrElse(userData.totalPayment, "0"), incomeList, expenseList, stamp);
      lock := false;
      r := CreditOk(data);
    }

    /** `fetchCreditData(force)` run to completion: a refused call changes nothing;
        an admitted one leaves the lock free and the time stamped. */
    method FetchCredit(now: int, force: bool, currentUser: Option<string>, info: UserInfoOutcome,
                       stamp: int, daily: DailyOutcome)
      returns (r: CreditResult)
      modifies this
      ensures var g := Admit(old(lock), old(lastRequestTime), now, force);
              && (g == Busy ==> r == CreditErr(Loading))
              && (g.Cooldown? ==> r == CreditErr(RateLimited(g.waitSeconds)))
              && (g.Acquired? ==> r == Outcome(currentUser, info, stamp, daily))
      ensures old(lock) ==> lock && lastRequestTime == old(lastRequestTime)
      ensures !old(lock) ==> !lock
      ensures Admit(old(lock), old(lastRequestTime), now, force).Acquired? <==> lastRequestTime == now && !old(lock) && (force || now - old(lastRequestTime) >= Interval)
      ensures Admit(old(lock), old(lastRequestTime), now, force).Acquired? ==> !lock && lastRequestTime == now
      ensures !Admit(old(lock), old(lastRequestTime), now, force).Acquired? ==>
                lock == old(lock) && lastRequestTime == old(lastRequestTime)
    {
      var g := TryAcquire(now, force);
      match g
      case Busy => r := CreditErr(Loading);
      case Cooldown(w) => r := CreditErr(RateLimited(w));
      case Acquired => r := Finish(currentUser, info, stamp, daily);
    }
  }

  // ---------------------------------------------------------------- properties

  /** Two unforced calls 30 seconds apart or less: the second is refused with a
      positive wait and the state the first left is untouched. */
  method SecondCallInsideWindow(t0: int, dt: int, currentUser: Option<string>, info: UserInfoOutcome,
                                stamp: int, daily: DailyOutcome)
    returns (second: CreditResult)
    requires t0 >= Interval && 0 <= dt < Interval
    ensures second.CreditErr? && second.err.RateLimited? && second.err.waitSeconds >= 1
    ensures IsRateLimit(second.err)
  {
    var f := new CreditFetcher();
    var first := f.FetchCredit(t0, false, currentUser, info, stamp, daily);
    assert f.lastRequestTime == t0 && !f.lock;
    second := f.FetchCredit(t0 + dt, false, currentUser, info, stamp, daily);
  }

  /** A call made while another holds the lock gets `isLoading`, even when forced. */
  method CallWhileInFlight(t0: int, dt: int, force: bool)
    returns (second: CreditResult)
    requires t0 >= Interval && dt >= 0
    ensures second == CreditErr(Loading)
  {
    var f := new CreditFetcher();
    var g := f.TryAcquire(t0, false);
    assert g.Acquired? && f.lock;
    second := f.FetchCredit(t0 + dt, force, None, UserInfoAnswered(None), t0, DailyUnavailable);
  }

  /** Names differing only in case are not a mismatch; a mismatch is reported
      exactly when both names are present and differ, and keeps both verbatim. */
  lemma MismatchRules(currentUser: Option<string>, info: UserInfoOutcome, stamp: int, daily: DailyOutcome)
    requires info.UserInfoAnswered? && info.data.Some?
    ensures var creditUser := info.data.value.username;
            currentUser.Some? && creditUser.Some? && EqualsIgnoreCase(currentUser.value, creditUser.value)
            ==> Outcome(currentUser, info, stamp, daily).CreditOk?
    ensures var r := Outcome(currentUser, info, stamp, daily);
            (r.CreditErr? && r.err.AccountMismatch?) <==> Mismatch(currentUser, info.data.value.username)
    ensures var creditUser := info.data.value.username;
            Mismatch(currentUser, creditUser)
            ==> Outcome(currentUser, info, stamp, daily) == CreditErr(AccountMismatch(creditUser.value, currentUser.value))
  {
  }

  /** Reversal: the last pushed entry comes first. */
  lemma {:induction false} ReversedAt<T>(s: seq<T>, k: nat)
    requires k < |s|
    ensures |Reversed(s)| == |s| && Reversed(s)[k] == s[|s| - 1 - k]
  {
    ReversedLength(s);
    if k < |s| - 1 {
      ReversedAt(s[1..], k);
      ReversedLength(s[1..]);
    }
  }

  lemma {:induction false} ReversedLength<T>(s: seq<T>)
    ensures |Reversed(s)| == |s|
  {
    if s != [] {
      ReversedLength(s[1..]);
    }
  }

  /** When every entry has a date, each list is its pushed entries in reverse:
      the API's newest-first days become oldest-first. */
  lemma DailyListsReversePushOrder(entries: seq<DailyEntry>)
    requires DatedUpTo(entries, |entries|)
    ensures var (inc, exp) := DailyLists(entries);
            var pushedIn, pushedOut := Incomes(entries, |entries|), Expenses(entries, |entries|);
            && |inc| == |pushedIn| && |exp| == |pushedOut|
            && (forall k :: 0 <= k < |inc| ==> inc[k] == pushedIn[|inc| - 1 - k])
            && (forall k :: 0 <= k < |exp| ==> exp[k] == pushedOut[|exp| - 1 - k])
  {
    DatedPrefixAll(entries);
    ReversedAll(Incomes(entries, |entries|));
    ReversedAll(Expenses(entries, |entries|));
  }

  /** Reversal read index by index. */
  lemma ReversedAll<T>(s: seq<T>)
    ensures |Reversed(s)| == |s|
    ensures forall k :: 0 <= k < |s| ==> Reversed(s)[k] == s[|s| - 1 - k]
  {
    ReversedLength(s);
    forall k | 0 <= k < |s|
      ensures Reversed(s)[k] == s[|s| - 1 - k]
    {
      ReversedAt(s, k);
    }
  }

  /** Only positive incomes are listed, each with its entry's date and a `+` amount. */
  lemma {:induction false} IncomesArePositive(entries: seq<DailyEntry>, n: nat)
    requires DatedUpTo(entries, n)
    ensures forall a :: a in Incomes(entries, n) ==>
              exists k :: 0 <= k < n && entries[k].incomeCents > 0
                && a == DailyAmount(FormatDate(entries[k].date.value), FormatAmount('+', entries[k].incomeCents))
  {
    if n > 0 {
      IncomesArePositive(entries, n - 1);
      forall a | a in Incomes(entries, n)
        ensures exists k :: 0 <= k < n && entries[k].incomeCents > 0
                  && a == DailyAmount(FormatDate(entries[k].date.value), FormatAmount('+', entries[k].incomeCents))
      {
        if a !in Incomes(entries, n - 1) {
          assert a in IncomeOf(entries[n - 1]);
        }
      }
    }
  }

  /** Only positive expenses are listed, each with its entry's date and a `-` amount. */
  lemma {:induction false} ExpensesArePositive(entries: seq<DailyEntry>, n: nat)
    requires DatedUpTo(entries, n)
    ensures forall a :: a in Expenses(entries, n) ==>
              exists k :: 0 <= k < n && entries[k].expenseCents > 0
                && a == DailyAmount(FormatDate(entries[k].date.value), FormatAmount('-', entries[k].expenseCents))
  {
    if n > 0 {
      ExpensesArePositive(entries, n - 1);
      forall a | a in Expenses(entries, n)
        ensures exists k :: 0 <= k < n && entries[k].expenseCents > 0
                  && a == DailyAmount(FormatDate(entries[k].date.value), FormatAmount('-', entries[k].expenseCents))
      {
        if a !in Expenses(entries, n - 1) {
          assert a in ExpenseOf(entries[n - 1]);
        }
      }
    }
  }

  /** An API date `YYYY-MM-DD` is shown as `MM/DD`. */
  lemma FormatDateOfIsoDate(date: string)
    requires |date| == 10 && date[4] == '-' && date[7] == '-'
    requires AllDigits(date[5..7]) && AllDigits(date[8..])
    ensures FormatDate(date) == date[5..7] + "/" + date[8..]
  {
    var rest := date[5..];
    assert rest == date[5..7] + "-" + date[8..];
    assert rest[0] != '-' && rest[1] != '-' && rest[2] == '-';
    assert ReplaceFirst(rest, '-', '/') == [rest[0]] + ReplaceFirst(rest[1..], '-', '/');
    assert ReplaceFirst(rest[1..], '-', '/') == [rest[1]] + ReplaceFirst(rest[2..], '-', '/');
  }
}
