// The fixed-window login throttle, its one driver, and how many guesses that allows.
module LoginThrottle {
  import opened Strings
  import opened Sorting

  const MAX_FAILURES := 10

  /** Fifteen minutes, in microseconds. */
  const WINDOW := 900_000_000

  datatype Attempt = Attempt(started: int, failures: nat)

  predicate Live(row: Attempt, now: int) {
    now - row.started < WINDOW
  }

  // --- what has happened ---

  datatype Entry = Failure(key: string, at: int) | Clear(key: string)

  /** When failures were recorded for `key` since it was last cleared. */
  function Since(log: seq<Entry>, key: string): seq<int> {
    if log == [] then []
    else
      var before, last := Since(log[..|log| - 1], key), log[|log| - 1];
      if last.key != key then before else if last.Failure? then before + [last.at] else []
  }

  function Within(a: int): int -> bool {
    (at: int) => a <= at < a + 900_000_000
  }

  /** Between two successful logins on a key, no fifteen minutes hold more than nineteen of its failures: two windows of
      ten cannot both be had whole, since the first failure of the earlier one lies fifteen minutes before the start of
      the later. */
  ghost predicate Bounded(log: seq<Entry>) {
    forall n: nat, key, a :: n <= |log| ==> Count(Within(a), Since(log[..n], key)) <= 19
  }

  // --- windows ---

  /** The failures of one window: from its start, for less than fifteen minutes. */
  predicate IsWindow(w: seq<int>) {
    w != [] && forall k :: 0 <= k < |w| ==> w[0] <= w[k] < w[0] + WINDOW
  }

  /** Windows follow one another at least fifteen minutes apart. */
  predicate Spaced(windows: seq<seq<int>>) {
    && (forall k :: 0 <= k < |windows| ==> IsWindow(windows[k]))
    && (forall k :: 0 < k < |windows| ==> windows[k - 1][0] + WINDOW <= windows[k][0])
  }

  predicate Full(windows: seq<seq<int>>) {
    forall k :: 0 <= k < |windows| ==> |windows[k]| <= MAX_FAILURES
  }

  function Flat(windows: seq<seq<int>>): seq<int> {
    if windows == [] then [] else Flat(windows[..|windows| - 1]) + windows[|windows| - 1]
  }

  /** Every failure lies before the end of the last window. */
  lemma {:induction false} FlatIsBefore(windows: seq<seq<int>>, end: int)
    requires Spaced(windows)
    requires windows != [] ==> windows[|windows| - 1][0] + WINDOW <= end
    ensures forall at :: at in Flat(windows) ==> at < end
    decreases |windows|
  {
    if windows != [] {
      var front, last := windows[..|windows| - 1], windows[|windows| - 1];
      FlatIsBefore(front, last[0]);
      forall at | at in Flat(windows)
        ensures at < end
      {
        assert at in Flat(front) || at in last;
        assert IsWindow(last);
      }
    }
  }

  lemma NoneWithin(times: seq<int>, a: int)
    requires forall at :: at in times ==> at < a
    ensures Count(Within(a), times) == 0
  {
    assert forall k :: 0 <= k < |times| ==> times[k] in times;
    FilterAll(Within(a), times);
  }

  lemma {:induction false} CountAtMost<T>(p: T -> bool, s: seq<T>)
    ensures Count(p, s) <= |s|
  {
    if s != [] {
      CountAtMost(p, s[1..]);
    }
  }

  lemma CountOfBoth(p: int -> bool, a: seq<int>, b: seq<int>)
    ensures Count(p, a + b) == Count(p, a) + Count(p, b)
  {
    FilterConcat(p, a, b);
  }

  /** Fifteen minutes meet two windows at most. */
  lemma {:induction false} TwoWindows(windows: seq<seq<int>>, a: int)
    requires Spaced(windows) && Full(windows)
    ensures Count(Within(a), Flat(windows)) <= 19
    decreases |windows|
  {
    if windows != [] {
      var front, last := windows[..|windows| - 1], windows[|windows| - 1];
      CountOfBoth(Within(a), Flat(front), last);
      CountAtMost(Within(a), last);
      if last[0] < a + WINDOW {
        if front != [] {
          var older, previous := front[..|front| - 1], front[|front| - 1];
          CountOfBoth(Within(a), Flat(older), previous);
          assert previous == [previous[0]] + previous[1..] && windows[|front| - 1] == previous;
          CountOfBoth(Within(a), [previous[0]], previous[1..]);
          NoneWithin([previous[0]], a);
          CountAtMost(Within(a), previous[1..]);
          FlatIsBefore(older, previous[0]);
          NoneWithin(Flat(older), a);
        }
      } else {
        TwoWindows(front, a);
        NoneAfter(last, a);
      }
    }
  }

  lemma NoneAfter(times: seq<int>, a: int)
    requires forall k :: 0 <= k < |times| ==> times[k] >= a + WINDOW
    ensures Count(Within(a), times) == 0
  {
    FilterAll(Within(a), times);
  }

  // --- a row and its windows ---

  /** A row is the last window of its key: when it began, and how many failures it holds. */
  predicate Shows(row: Option<Attempt>, windows: seq<seq<int>>, times: seq<int>, now: int) {
    && Spaced(windows) && Full(windows) && Flat(windows) == times
    && (row.None? <==> windows == [])
    && (windows != [] ==>
          var last := windows[|windows| - 1];
          row == Some(Attempt(last[0], |last|)) && last[0] <= now)
  }

  /** The windows once a failure is recorded at `at`. */
  function Extended(windows: seq<seq<int>>, at: int): seq<seq<int>>
    requires Spaced(windows)
  {
    if windows != [] && at - windows[|windows| - 1][0] < WINDOW
    then windows[..|windows| - 1] + [windows[|windows| - 1] + [at]]
    else windows + [[at]]
  }

  predicate HasRoom(row: Option<Attempt>, now: int) {
    row.Some? && Live(row.value, now) ==> row.value.failures < MAX_FAILURES
  }

  function AfterFailure(row: Option<Attempt>, at: int): Attempt {
    if row.Some? && Live(row.value, at) then Attempt(row.value.started, row.value.failures + 1) else Attempt(at, 1)
  }

  lemma ExtendedShows(row: Option<Attempt>, windows: seq<seq<int>>, times: seq<int>, before: int, at: int)
    requires Shows(row, windows, times, before) && before <= at && HasRoom(row, at)
    ensures Shows(Some(AfterFailure(row, at)), Extended(windows, at), times + [at], at)
  {
    var after := Extended(windows, at);
    assert after[..|after| - 1] == if |after| == |windows| then windows[..|windows| - 1] else windows;
    if |after| == |windows| {
      assert Flat(after) == Flat(windows[..|windows| - 1]) + (windows[|windows| - 1] + [at]);
    }
  }

  // --- the bound is met ---

  /** Whether failures at `times` are all let through, from a row. */
  predicate LetThrough(row: Option<Attempt>, times: seq<int>)
    decreases |times|
  {
    times == [] || (HasRoom(row, times[0]) && LetThrough(Some(AfterFailure(row, times[0])), times[1..]))
  }

  function Often(at: int, n: nat): seq<int> {
    seq(n, _ => at)
  }

  lemma {:induction false} OftenLetThrough(row: Attempt, at: int, n: nat, rest: seq<int>)
    requires Live(row, at) && row.failures + n <= MAX_FAILURES
    requires LetThrough(Some(Attempt(row.started, row.failures + n)), rest)
    ensures LetThrough(Some(row), Often(at, n) + rest)
    decreases n
  {
    if n == 0 {
      assert Often(at, n) + rest == rest;
    } else {
      assert (Often(at, n) + rest)[1..] == Often(at, n - 1) + rest;
      OftenLetThrough(Attempt(row.started, row.failures + 1), at, n - 1, rest);
    }
  }

  /** One failure opens a window, nine more just before it closes and ten as the next opens: all are let through, and
      nineteen of them lie within fifteen minutes. */
  lemma NineteenHappen()
    ensures var times := [0] + Often(899_999_999, 9) + Often(900_000_000, 10);
      && LetThrough(None, times)
      && Count(Within(899_999_999), times) == 19
  {
    var times := [0] + Often(WINDOW - 1, 9) + Often(WINDOW, 10);
    OftenLetThrough(Attempt(WINDOW, 1), WINDOW, 9, []);
    assert Often(WINDOW, 10)[1..] == Often(WINDOW, 9) == Often(WINDOW, 9) + [];
    assert LetThrough(Some(Attempt(0, 10)), Often(WINDOW, 10));
    OftenLetThrough(Attempt(0, 1), WINDOW - 1, 9, Often(WINDOW, 10));
    assert times[1..] == Often(WINDOW - 1, 9) + Often(WINDOW, 10);
    CountOfBoth(Within(WINDOW - 1), [0], Often(WINDOW - 1, 9) + Often(WINDOW, 10));
    assert times == [0] + (Often(WINDOW - 1, 9) + Often(WINDOW, 10));
    NoneWithin([0], WINDOW - 1);
    FilterAll(Within(WINDOW - 1), times[1..]);
  }

  lemma LaterShows(row: Option<Attempt>, windows: seq<seq<int>>, times: seq<int>, before: int, now: int)
    requires Shows(row, windows, times, before) && before <= now
    ensures Shows(row, windows, times, now)
  {
  }

  lemma SinceNext(log: seq<Entry>, e: Entry, key: string)
    ensures Since(log + [e], key)
         == if e.key != key then Since(log, key) else if e.Failure? then Since(log, key) + [e.at] else []
  {
    assert (log + [e])[..|log|] == log;
  }

  lemma BoundedNothing()
    ensures Bounded([])
  {
  }

  lemma BoundedNext(log: seq<Entry>, e: Entry)
    requires Bounded(log)
    requires forall key, a :: Count(Within(a), Since(log + [e], key)) <= 19
    ensures Bounded(log + [e])
  {
    var next := log + [e];
    forall n: nat, key, a | n <= |next|
      ensures Count(Within(a), Since(next[..n], key)) <= 19
    {
      if n <= |log| {
        assert next[..n] == log[..n];
      } else {
        assert next[..n] == next;
      }
    }
  }

  lemma ShowsBounds(row: Option<Attempt>, windows: seq<seq<int>>, times: seq<int>, now: int)
    requires Shows(row, windows, times, now)
    ensures forall a :: Count(Within(a), times) <= 19
    ensures row.Some? ==> row.value.failures <= MAX_FAILURES
  {
    forall a
      ensures Count(Within(a), times) <= 19
    {
      TwoWindows(windows, a);
    }
  }

  // --- the throttle ---

  class Clock {
    var time: int

    constructor (start: int)
      ensures time == start
    {
      time := start;
    }

    /** Time never runs backwards; how far it has run is anyone's guess. */
    method Now() returns (t: int)
      modifies this
      ensures old(time) <= time == t
    {
      t :| time <= t;
      time := t;
    }
  }

  class Throttle {
    const clock: Clock
    var rows: map<string, Attempt>
    ghost var log: seq<Entry>
    ghost var windows: map<string, seq<seq<int>>>

    function RowOf(key: string): Option<Attempt>
      reads this
    {
      if key in rows then Some(rows[key]) else None
    }

    ghost function WindowsOf(key: string): seq<seq<int>>
      reads this
    {
      if key in windows then windows[key] else []
    }

    ghost predicate Valid()
      reads this, clock
    {
      && (forall key :: Shows(RowOf(key), WindowsOf(key), Since(log, key), clock.time))
      && Bounded(log)
    }

    constructor (clock: Clock)
      ensures this.clock == clock && rows == map[] && log == [] && Valid()
    {
      this.clock, rows, log, windows := clock, map[], [], map[];
      new;
      BoundedNothing();
      forall key
        ensures Shows(RowOf(key), WindowsOf(key), Since(log, key), this.clock.time)
      {
        NothingShows(this.clock.time);
      }
    }

    /** The row of the window still running, if any. */
    method LiveRow(key: string) returns (row: Option<Attempt>)
      modifies clock
      ensures old(clock.time) <= clock.time
      ensures row == if key in rows && Live(rows[key], clock.time) then Some(rows[key]) else None
    {
      if key !in rows {
        return None;
      }
      var now := clock.Now();
      return if now - rows[key].started < WINDOW then Some(rows[key]) else None;
    }

    /** Blocked means that some key has used up the window running for it. */
    method Blocked(keys: seq<string>) returns (blocked: bool)
      modifies clock
      ensures old(clock.time) <= clock.time
      ensures blocked <==> exists k :: 0 <= k < |keys| && !HasRoom(RowOf(keys[k]), clock.time)
    {
      for k := 0 to |keys|
        invariant old(clock.time) <= clock.time
        invariant forall j :: 0 <= j < k ==> HasRoom(RowOf(keys[j]), clock.time)
      {
        var row := LiveRow(keys[k]);
        if row.Some? && row.value.failures >= MAX_FAILURES {
          return true;
        }
      }
      return false;
    }

    /** Records one failure, in the running window or in a new one. */
    method RecordOne(key: string) returns (ghost at: int)
      requires Valid() && HasRoom(RowOf(key), clock.time)
      modifies this, clock
      ensures Valid() && old(clock.time) <= at == clock.time
      ensures rows == old(rows)[key := AfterFailure(old(RowOf(key)), at)]
      ensures log == old(log) + [Failure(key, at)]
    {
      hide Shows, Since, Bounded, Extended, Spaced;
      ghost var w, times := WindowsOf(key), Since(log, key);
      assert Shows(RowOf(key), w, times, clock.time);
      var row := LiveRow(key);
      if row.None? {
        var now := clock.Now();
        rows := rows[key := Attempt(now, 0)];
      }
      at := clock.time;
      rows := rows[key := rows[key].(failures := rows[key].failures + 1)];
      assert Spaced(w) by {
        ShowsSpaced(old(RowOf(key)), w, times, old(clock.time));
      }
      windows := windows[key := Extended(w, at)];
      log := log + [Failure(key, at)];
      ExtendedShows(old(RowOf(key)), w, times, old(clock.time), at);
      forall other
        ensures Shows(RowOf(other), WindowsOf(other), Since(log, other), clock.time)
      {
        SinceNext(old(log), Failure(key, at), other);
        if other != key {
          LaterShows(old(RowOf(other)), old(WindowsOf(other)), old(Since(log, other)), old(clock.time), at);
        }
      }
      StaysBounded(old(log), Failure(key, at));
    }

    lemma StaysBounded(before: seq<Entry>, e: Entry)
      requires Bounded(before) && log == before + [e]
      requires forall key :: Shows(RowOf(key), WindowsOf(key), Since(log, key), clock.time)
      ensures Bounded(log)
    {
      hide Shows, Since;
      forall key, a
        ensures Count(Within(a), Since(log, key)) <= 19
      {
        ShowsBounds(RowOf(key), WindowsOf(key), Since(log, key), clock.time);
      }
      BoundedNext(before, e);
    }

    /** One failure for each key. */
    method RecordFailure(keys: seq<string>) returns (ghost times: seq<int>)
      requires Valid() && forall k :: 0 <= k < |keys| ==> HasRoom(RowOf(keys[k]), clock.time)
      requires forall i, j :: 0 <= i < j < |keys| ==> keys[i] != keys[j]
      modifies this, clock
      ensures Valid() && old(clock.time) <= clock.time
      ensures |times| == |keys| && log == old(log) + Failed(keys, times)
    {
      hide Valid;
      times := [];
      assert Failed(keys[..0], []) == [];
      for i := 0 to |keys|
        invariant Valid() && old(clock.time) <= clock.time
        invariant |times| == i && log == old(log) + Failed(keys[..i], times)
        invariant forall k :: i <= k < |keys| ==> HasRoom(RowOf(keys[k]), clock.time)
      {
        ghost var before := rows;
        ghost var at := RecordOne(keys[i]);
        assert Failed(keys[..i + 1], times + [at]) == Failed(keys[..i], times) + [Failure(keys[i], at)];
        times := times + [at];
        forall k | i < k < |keys|
          ensures HasRoom(RowOf(keys[k]), clock.time)
        {
          assert keys[i] != keys[k];
          assert RowOf(keys[k]) == if keys[k] in before then Some(before[keys[k]]) else None;
        }
      }
      assert keys[..|keys|] == keys;
    }

    /** Forgets the keys. */
    method ClearKeys(keys: seq<string>)
      requires Valid()
      modifies this
      ensures Valid() && rows == old(rows) - set k | 0 <= k < |keys| :: keys[k]
      ensures log == old(log) + Cleared(keys)
    {
      hide Shows, Since, Bounded;
      assert Cleared(keys[..0]) == [];
      for i := 0 to |keys|
        invariant Valid() && log == old(log) + Cleared(keys[..i])
        invariant rows == old(rows) - set k | 0 <= k < i :: keys[k]
      {
        ghost var before, was := log, rows;
        rows := rows - {keys[i]};
        windows := windows - {keys[i]};
        log := log + [Clear(keys[i])];
        assert Cleared(keys[..i + 1]) == Cleared(keys[..i]) + [Clear(keys[i])];
        forall other
          ensures Shows(RowOf(other), WindowsOf(other), Since(log, other), clock.time)
        {
          SinceNext(before, Clear(keys[i]), other);
          NothingShows(clock.time);
        }
        StaysBounded(before, Clear(keys[i]));
      }
      assert keys[..|keys|] == keys;
    }
  }

  function Failed(keys: seq<string>, times: seq<int>): seq<Entry>
    requires |times| == |keys|
  {
    seq(|keys|, k requires 0 <= k < |keys| => Failure(keys[k], times[k]))
  }

  function Cleared(keys: seq<string>): seq<Entry> {
    seq(|keys|, k requires 0 <= k < |keys| => Clear(keys[k]))
  }

  lemma NothingShows(now: int)
    ensures Shows(None, [], [], now)
  {
  }

  lemma ShowsSpaced(row: Option<Attempt>, windows: seq<seq<int>>, times: seq<int>, now: int)
    requires Shows(row, windows, times, now)
    ensures Spaced(windows)
  {
  }

  // --- login ---

  datatype Outcome = TooManyAttempts | InvalidCredentials | Welcome

  /** What a login is throttled by: the account and, when known, the address. */
  function Keys(account: string, ip: string): (r: seq<string>)
    ensures forall i, j :: 0 <= i < j < |r| ==> r[i] != r[j]
  {
    var byAccount, byAddress := "email:" + account, "ip:" + ip;
    assert byAccount[0] == 'e' && byAddress[0] == 'i';
    if ip == "" then [byAccount] else [byAccount, byAddress]
  }

  /** Ten failures are recorded in the fifteen minutes since the row began. */
  predicate Spent(row: Option<Attempt>, now: int) {
    row.Some? && now - row.value.started < 900_000_000 && row.value.failures >= 10
  }

  lemma SpentIsFull(row: Option<Attempt>, now: int)
    ensures Spent(row, now) <==> !HasRoom(row, now)
  {
  }

  lemma KeysFail(account: string, ip: string, times: seq<int>)
    requires |times| == |Keys(account, ip)|
    ensures Failed(Keys(account, ip), times)
         == [Failure("email:" + account, times[0])] + (if ip == "" then [] else [Failure("ip:" + ip, times[1])])
  {
  }

  lemma KeysClear(account: string, ip: string)
    ensures Cleared(Keys(account, ip)) == [Clear("email:" + account)] + (if ip == "" then [] else [Clear("ip:" + ip)])
  {
  }

  /** A login, with `proven` saying whether the account exists, has a usable password and the one given is it, and `lower`
      for `str.lower`; the throttle is asked at the time `asked`. It is refused exactly when the account's failures are
      spent, however it is spelt, or those of the address when there is one; a wrong password counts against both; and the
      right one clears both. */
  method Login(throttle: Throttle, lower: string -> string, email: string, ip: string, proven: bool)
    returns (outcome: Outcome, ghost asked: int, ghost times: seq<int>)
    requires throttle.Valid()
    modifies throttle, throttle.clock
    ensures throttle.Valid() && old(throttle.log) <= throttle.log
    ensures old(throttle.clock.time) <= asked <= throttle.clock.time
    ensures outcome.TooManyAttempts?
      <==> Spent(old(throttle.RowOf("email:" + lower(Strip(email)))), asked)
           || (ip != "" && Spent(old(throttle.RowOf("ip:" + ip)), asked))
    ensures outcome.TooManyAttempts? ==> throttle.rows == old(throttle.rows) && throttle.log == old(throttle.log)
    ensures outcome.InvalidCredentials? ==>
      && !proven && |times| == (if ip == "" then 1 else 2)
      && throttle.log == old(throttle.log) + [Failure("email:" + lower(Strip(email)), times[0])]
                         + (if ip == "" then [] else [Failure("ip:" + ip, times[1])])
    ensures outcome.Welcome? ==>
      && proven
      && throttle.log == old(throttle.log) + [Clear("email:" + lower(Strip(email)))]
                         + (if ip == "" then [] else [Clear("ip:" + ip)])
  {
    hide Bounded, Shows, Since;
    var account := lower(Strip(email));
    var keys := Keys(account, ip);
    times := [];
    var blocked := throttle.Blocked(keys);
    asked := throttle.clock.time;
    assert blocked <==> exists k :: 0 <= k < |keys| && !HasRoom(old(throttle.RowOf(keys[k])), asked);
    SpentIsFull(old(throttle.RowOf("email:" + account)), asked);
    SpentIsFull(old(throttle.RowOf("ip:" + ip)), asked);
    assert throttle.Valid() by {
      forall key
        ensures Shows(throttle.RowOf(key), throttle.WindowsOf(key), Since(throttle.log, key), throttle.clock.time)
      {
        LaterShows(throttle.RowOf(key), throttle.WindowsOf(key), Since(throttle.log, key), old(throttle.clock.time),
                   throttle.clock.time);
      }
    }
    if blocked {
      return TooManyAttempts, asked, times;
    }
    assert keys[0] == "email:" + account && (ip != "" ==> keys[1] == "ip:" + ip);
    if !proven {
      times := throttle.RecordFailure(keys);
      KeysFail(account, ip, times);
      return InvalidCredentials, asked, times;
    }
    throttle.ClearKeys(keys);
    KeysClear(account, ip);
    return Welcome, asked, times;
  }
}
