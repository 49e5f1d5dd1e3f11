/**
 Counting recently created users month by month, because the index on creation times is
 partitioned by calendar month (engine/src/juliabox/db/user_v2.py, db_base.py). Times are
 whole seconds relative to 1970; dates are those Python can represent, years 1 to 9999 of the
 Gregorian calendar.
 */
module MonthCount {
  import opened Basics

  // ---------- The calendar ----------

  predicate IsLeap(year: int) {
    year % 4 == 0 && (year % 100 != 0 || year % 400 == 0)
  }

  function DaysIn(year: int, month: int): (days: nat)
    ensures 28 <= days <= 31
  {
    if month == 2 then (if IsLeap(year) then 29 else 28)
    else if month == 4 || month == 6 || month == 9 || month == 11 then 30
    else 31
  }

  // Month k counts from January of year 1. Its year and number in the year, and
  // datetime_to_yyyymm
  function Year(k: nat): nat {
    if k < 12 then 1 else Year(k - 12) + 1
  }

  function Number(k: nat): (n: nat)
    ensures 1 <= n <= 12
  {
    if k < 12 then k + 1 else Number(k - 12)
  }

  function Code(k: nat): int {
    Year(k) * 100 + Number(k)
  }

  // The second, counted from the beginning of year 1, at which month k begins
  function Start(k: nat): nat {
    if k == 0 then 0 else Start(k - 1) + 86400 * DaysIn(Year(k - 1), Number(k - 1))
  }

  // The beginning of 1970
  const EPOCH: nat := 62135596800
  const END_OF_TIME: nat := 9999 * 12

  predicate IsTime(t: int) {
    0 <= t + EPOCH < Start(END_OF_TIME)
  }

  // The month of a time, searched from month k on
  function MonthFrom(second: nat, k: nat): (r: nat)
    requires Start(k) <= second
    ensures Start(r) <= second < Start(r + 1)
    decreases second - Start(k)
  {
    if second < Start(k + 1) then k else MonthFrom(second, k + 1)
  }

  function MonthOf(t: int): (r: nat)
    requires t + EPOCH >= 0
    ensures Start(r) <= t + EPOCH < Start(r + 1)
  {
    MonthFrom(t + EPOCH, 0)
  }

  lemma {:induction false} StartGrows(j: nat, k: nat)
    requires j <= k
    ensures Start(j) <= Start(k)
  {
    hide DaysIn, Year, Number;
    if j < k {
      StartGrows(j, k - 1);
    }
  }

  // Later times are not in earlier months.
  lemma MonthsFollowTimes(t: int, t': int)
    requires 0 <= t + EPOCH && t <= t'
    ensures MonthOf(t) <= MonthOf(t')
  {
    hide Start, MonthFrom;
    if MonthOf(t') < MonthOf(t) {
      StartGrows(MonthOf(t') + 1, MonthOf(t));
    }
  }

  // The loop steps from the code of a month to that of the next.
  function NextCode(mon: int): int {
    if mon % 100 == 12 then (mon / 100 + 1) * 100 + 1 else mon + 1
  }

  lemma CodeParts(year: nat, number: nat)
    requires 1 <= number <= 12
    ensures (year * 100 + number) % 100 == number && (year * 100 + number) / 100 == year
  {
  }

  // A year later
  lemma YearLater(k: nat)
    ensures Year(k + 12) == Year(k) + 1 && Number(k + 12) == Number(k) && Code(k + 12) == Code(k) + 100
  {
  }

  // Within a year numbers go up by one, and after December comes January.
  lemma {:induction false} NextMonth(k: nat)
    ensures if Number(k) == 12 then Year(k + 1) == Year(k) + 1 && Number(k + 1) == 1
            else Year(k + 1) == Year(k) && Number(k + 1) == Number(k) + 1
  {
    if k >= 12 {
      NextMonth(k - 12);
      YearLater(k - 12);
      YearLater(k - 11);
    }
  }

  lemma NextCodeIsNextMonth(k: nat)
    ensures NextCode(Code(k)) == Code(k + 1)
  {
    hide Year, Number;
    NextMonth(k);
    CodeParts(Year(k), Number(k));
  }

  // Codes are ordered like months.
  lemma {:induction false} CodesGrow(j: nat, k: nat)
    requires j < k
    ensures Code(j) < Code(k)
  {
    hide Year, Number;
    NextMonth(k - 1);
    if j < k - 1 {
      CodesGrow(j, k - 1);
    }
  }

  lemma CodesAreOrdered(j: nat, k: nat)
    ensures Code(j) <= Code(k) <==> j <= k
  {
    hide Code;
    if j < k {
      CodesGrow(j, k);
    } else if k < j {
      CodesGrow(k, j);
    }
  }

  // The leap years up to a year
  function Leaps(year: nat): int {
    year / 4 - year / 100 + year / 400
  }

  lemma DivStep(year: nat, d: nat)
    requires year > 0 && (d == 4 || d == 100 || d == 400)
    ensures year / d == (year - 1) / d + if year % d == 0 then 1 else 0
  {
    if d == 4 {
    } else if d == 100 {
    } else {
    }
  }

  lemma LeapsGrow(year: nat)
    requires year > 0
    ensures Leaps(year) == Leaps(year - 1) + if IsLeap(year) then 1 else 0
  {
    DivStep(year, 4);
    DivStep(year, 100);
    DivStep(year, 400);
    Multiples(year);
  }

  lemma Multiples(year: nat)
    ensures year % 400 == 0 ==> year % 100 == 0
    ensures year % 100 == 0 ==> year % 4 == 0
  {
    if year % 400 == 0 {
      assert year == 100 * (4 * (year / 400));
      TimesHundred(4 * (year / 400));
    }
    if year % 100 == 0 {
      assert year == 4 * (25 * (year / 100));
      TimesFour(25 * (year / 100));
    }
  }

  lemma TimesHundred(x: nat)
    ensures 100 * x % 100 == 0
  {
  }

  lemma TimesFour(x: nat)
    ensures 4 * x % 4 == 0
  {
  }

  lemma {:induction false} MonthsOfYear(n: nat, i: nat)
    requires i < 12
    ensures Year(12 * n + i) == n + 1 && Number(12 * n + i) == i + 1
  {
    if n > 0 {
      MonthsOfYear(n - 1, i);
      YearLater(12 * (n - 1) + i);
    }
  }

  lemma MonthLength(n: nat, i: nat)
    requires i < 12
    ensures Start(12 * n + i + 1) == Start(12 * n + i) + 86400 * DaysIn(n + 1, i + 1)
  {
    hide Year, Number, DaysIn;
    MonthsOfYear(n, i);
  }

  // The month lengths add up to the usual beginnings of months within a year.
  lemma MonthStarts(n: nat, i: nat)
    requires i < 12
    ensures var days := [0, 31, 59, 90, 120, 151, 181, 212, 243, 273, 304, 334][i];
            Start(12 * n + i) == Start(12 * n) + 86400 * (days + if i >= 2 && IsLeap(n + 1) then 1 else 0)
  {
    hide Start, IsLeap;
    if i > 0 {
      MonthStarts(n, i - 1);
      MonthLength(n, i - 1);
    }
  }

  lemma YearLength(n: nat)
    ensures Start(12 * n + 12) == Start(12 * n) + 86400 * (if IsLeap(n + 1) then 366 else 365)
  {
    hide Start, IsLeap;
    MonthLength(n, 0);
    MonthLength(n, 1);
    MonthLength(n, 2);
    MonthLength(n, 3);
    MonthLength(n, 4);
    MonthLength(n, 5);
    MonthLength(n, 6);
    MonthLength(n, 7);
    MonthLength(n, 8);
    MonthLength(n, 9);
    MonthLength(n, 10);
    MonthLength(n, 11);
  }

  // Adding up months agrees with the usual count of days before a year,
  lemma {:induction false} YearStarts(n: nat)
    ensures Start(12 * n) == 86400 * (365 * n + Leaps(n))
  {
    hide IsLeap, Start;
    if n == 0 {
      assert Start(0) == 0 by { StartOfTime(); }
    } else {
      YearStarts(n - 1);
      YearLength(n - 1);
      LeapsGrow(n);
      hide Leaps;
      assert 12 * (n - 1) + 12 == 12 * n;
    }
  }

  lemma StartOfTime()
    ensures Start(0) == 0
  {
  }

  // which gives the second at which 1970 begins.
  lemma EpochIs1970()
    ensures Start(12 * 1969) == EPOCH && Year(12 * 1969) == 1970 && Number(12 * 1969) == 1
  {
    hide Start, Year, Number;
    YearStarts(1969);
    MonthsOfYear(1969, 0);
    assert Leaps(1969) == 477;
  }

  // ---------- Users ----------

  datatype User = User(month: int, time: int)

  // _set_time: the month stored is that of the time stored.
  predicate IsDated(u: User) {
    u.time + EPOCH >= 0 && u.month == Code(MonthOf(u.time))
  }

  predicate IsWithin(u: User, from: int, till: int) {
    from <= u.time <= till
  }

  // query_count for one month
  function CountMonth(users: seq<User>, mon: int, from: int, till: int): nat {
    if users == [] then 0
    else
      (if users[0].month == mon && IsWithin(users[0], from, till) then 1 else 0)
      + CountMonth(users[1..], mon, from, till)
  }

  function CountMonths(users: seq<User>, mons: set<int>, from: int, till: int): nat {
    if users == [] then 0
    else
      (if users[0].month in mons && IsWithin(users[0], from, till) then 1 else 0)
      + CountMonths(users[1..], mons, from, till)
  }

  // Without the partition: all users created in the interval
  function CountAll(users: seq<User>, from: int, till: int): nat {
    if users == [] then 0
    else (if IsWithin(users[0], from, till) then 1 else 0) + CountAll(users[1..], from, till)
  }

  // The codes of n months from month k on, in order
  function CodesFrom(k: nat, n: nat): seq<int> {
    if n == 0 then [] else CodesFrom(k, n - 1) + [Code(k + n - 1)]
  }

  // The codes of the months from j to k
  function Codes(j: nat, k: int): set<int> {
    set i | j <= i <= k :: Code(i)
  }

  lemma {:induction false} OneMonthMore(users: seq<User>, mons: set<int>, mon: int, from: int, till: int)
    requires mon !in mons
    ensures CountMonths(users, mons + {mon}, from, till)
            == CountMonths(users, mons, from, till) + CountMonth(users, mon, from, till)
  {
    if users != [] {
      OneMonthMore(users[1..], mons, mon, from, till);
    }
  }

  lemma {:induction false} NoMonths(users: seq<User>, from: int, till: int)
    ensures CountMonths(users, {}, from, till) == 0
  {
    if users != [] {
      NoMonths(users[1..], from, till);
    }
  }

  // Counting by months misses nobody exactly when everybody created in the interval is filed
  // under one of the months.
  lemma {:induction false} AllCountedIff(users: seq<User>, mons: set<int>, from: int, till: int)
    ensures CountMonths(users, mons, from, till) <= CountAll(users, from, till)
    ensures CountMonths(users, mons, from, till) == CountAll(users, from, till)
            <==> forall u <- users :: IsWithin(u, from, till) ==> u.month in mons
  {
    if users != [] {
      AllCountedIff(users[1..], mons, from, till);
      assert forall u :: u in users <==> u == users[0] || u in users[1..];
    }
  }

  // The count is that of the entries whose time lies in the interval, both ends included.
  lemma {:induction false} CountAllCounts(users: seq<User>, from: int, till: int)
    ensures CountAll(users, from, till) == |set i | 0 <= i < |users| && from <= users[i].time && users[i].time <= till|
  {
    var found := set i | 0 <= i < |users| && from <= users[i].time && users[i].time <= till;
    if users != [] {
      CountAllCounts(users[1..], from, till);
      var rest := set i | 0 <= i < |users[1..]| && from <= users[1..][i].time && users[1..][i].time <= till;
      var moved := found - {0};
      assert forall i :: 0 <= i < |users[1..]| ==> users[1..][i] == users[i + 1];
      assert forall i :: i in rest <==> i + 1 in moved;
      SameSize(rest, moved);
      if IsWithin(users[0], from, till) {
        assert 0 in found;
        assert |moved| == |found| - 1;
      } else {
        assert moved == found;
      }
    }
  }

  lemma {:induction false} SameSize(a: set<int>, b: set<int>)
    requires forall i :: i in a <==> i + 1 in b
    ensures |a| == |b|
  {
    if i :| i in a {
      SameSize(a - {i}, b - {i + 1});
    } else {
      forall j ensures j !in b {
        assert j - 1 !in a;
      }
      assert forall i :: i !in a;
      assert a == {} && b == {};
    }
  }

  // Times are the seconds of the years 1 to 9999.
  lemma TimesAreBounded(t: int)
    ensures IsTime(t) <==> -62135596800 <= t && t <= 253402300799
  {
    YearStarts(9999);
    assert Leaps(9999) == 2424;
  }

  lemma DatedUsersAreFiled(u: User, from: int, till: int)
    requires from + EPOCH >= 0 && IsWithin(u, from, till) && u.month == Code(MonthOf(u.time))
    ensures u.month in Codes(MonthOf(from), MonthOf(till))
  {
    hide MonthOf, Code;
    MonthsFollowTimes(from, u.time);
    MonthsFollowTimes(u.time, till);
  }

  lemma DatedUsersAreCounted(users: seq<User>, from: int, till: int)
    requires from + EPOCH >= 0 && till + EPOCH >= 0
    ensures (forall u <- users :: IsDated(u)) ==>
              CountMonths(users, Codes(MonthOf(from), MonthOf(till)), from, till) == CountAll(users, from, till)
  {
    hide Codes, CountMonths, CountAll, MonthOf;
    AllCountedIff(users, Codes(MonthOf(from), MonthOf(till)), from, till);
    forall u | u in users && IsDated(u) && IsWithin(u, from, till)
      ensures u.month in Codes(MonthOf(from), MonthOf(till))
    {
      DatedUsersAreFiled(u, from, till);
    }
  }

  // The loop over months visits each month of the interval once, in order, and its sum is the
  // number of users created in the interval. It is not reached when the interval begins at a
  // time that is not a date.
  method CountCreated(users: seq<User>, hoursBefore: int, tillTime: int)
    returns (result: Option<nat>, ghost visited: seq<int>)
    requires IsTime(tillTime)
    ensures result.Some? <==> IsTime(tillTime - 3600 * hoursBefore)
    ensures result.Some? ==>
              var first, last := MonthOf(tillTime - 3600 * hoursBefore), MonthOf(tillTime);
              visited == CodesFrom(first, if first <= last then last - first + 1 else 0)
    ensures var fromTime := tillTime - 3600 * hoursBefore;
            result.Some? ==>
              result.value == CountMonths(users, Codes(MonthOf(fromTime), MonthOf(tillTime)), fromTime, tillTime)
    ensures result.Some? && (forall u <- users :: u.time >= -62135596800 && u.month == Code(MonthOf(u.time))) ==>
              result.value == CountAll(users, tillTime - 3600 * hoursBefore, tillTime)
  {
    hide Code, MonthOf, CountMonth, CountMonths, CountAll, IsWithin, IsTime, Start;
    var fromTime := tillTime - 3600 * hoursBefore;
    visited := [];
    TimesAreDates(tillTime);
    if !IsTime(fromTime) {
      return None, [];
    }
    TimesAreDates(fromTime);
    var count;
    count, visited := SumMonths(users, fromTime, tillTime);
    result := Some(count);
    DatedUsersAreCounted(users, fromTime, tillTime);
  }

  lemma TimesAreDates(t: int)
    requires IsTime(t)
    ensures t + EPOCH >= 0
  {
  }

  // Its step
  method Advance(mon: int) returns (next: int)
    ensures next == NextCode(mon)
  {
    if mon % 100 == 12 {
      next := (mon / 100 + 1) * 100 + 1;
    } else {
      next := mon + 1;
    }
  }

  // The loop itself
  method SumMonths(users: seq<User>, fromTime: int, tillTime: int) returns (count: nat, ghost visited: seq<int>)
    requires fromTime + EPOCH >= 0 && tillTime + EPOCH >= 0
    ensures var first, last := MonthOf(fromTime), MonthOf(tillTime);
            visited == CodesFrom(first, if first <= last then last - first + 1 else 0)
    ensures count == CountMonths(users, Codes(MonthOf(fromTime), MonthOf(tillTime)), fromTime, tillTime)
  {
    hide Code, MonthOf, CountMonth, CountMonths, IsWithin, Codes, CodesFrom, NextCode;
    hide Start, Year, Number, IsLeap, Leaps, CountAll, IsDated, IsTime;
    var tillMonth, fromMonth := Code(MonthOf(tillTime)), Code(MonthOf(fromTime));
    ghost var first, last := MonthOf(fromTime), MonthOf(tillTime);
    ghost var k: int := first;
    var mon := fromMonth;
    count, visited := 0, [];
    NoMonths(users, fromTime, tillTime);
    NoCodes(first);
    while mon <= tillMonth
      invariant first <= k && (first <= last ==> k <= last + 1) && mon == Code(k)
      invariant visited == CodesFrom(first, k - first)
      invariant count == CountMonths(users, Codes(first, k - 1), fromTime, tillTime)
      invariant first > last ==> k == first
      decreases tillMonth - mon
    {
      CodesAreOrdered(k, last);
      NewCode(first, k);
      OneMonthMore(users, Codes(first, k - 1), mon, fromTime, tillTime);
      count := count + CountMonth(users, mon, fromTime, tillTime);
      visited := visited + [mon];
      NextCodeIsNextMonth(k);
      mon := Advance(mon);
      k := k + 1;
    }
    CodesAreOrdered(k, last);
    if first > last {
      SameNoCodes(first, k - 1, last);
    }
  }

  lemma NoCodes(first: nat)
    ensures Codes(first, first - 1) == {} && CodesFrom(first, 0) == []
  {
  }

  lemma SameNoCodes(first: nat, k: int, last: nat)
    requires first > last && first > k
    ensures Codes(first, k) == Codes(first, last)
  {
  }

  lemma NewCode(first: nat, k: nat)
    requires first <= k
    ensures Code(k) !in Codes(first, k - 1) && Codes(first, k) == Codes(first, k - 1) + {Code(k)}
    ensures CodesFrom(first, k + 1 - first) == CodesFrom(first, k - first) + [Code(k)]
    ensures NextCode(Code(k)) > Code(k)
  {
    hide Code;
    forall i | first <= i < k ensures Code(i) != Code(k) {
      CodesAreOrdered(k, i);
    }
    NextCodeIsNextMonth(k);
    CodesAreOrdered(k + 1, k);
  }
}
