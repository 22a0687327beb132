/** Local time by transition table: `findLocaltime`, `TimeZone::toLocalTime` and
    `TimeZone::fromLocalTime` (base/timeZone.cc).  The library's `gmtime_r` and
    `timegm` are the file's own UTC functions, as its FIXMEs intend. */
module TimeZone {
  import opened Calendar
  import opened CInts
  import opened Options
  import opened UtcTime

  datatype Transition = Transition(gmttime: int, localtime: int, localtimeIdx: nat)
  datatype Localtime = Localtime(gmtOffset: int, isDst: bool, arrbIdx: int)
  datatype Data = Data(transitions: seq<Transition>, localtimes: seq<Localtime>)

  /** What every lookup relies on: a first type exists and indices stay inside the types. */
  predicate Indexed(data: Data) {
    && data.localtimes != []
    && forall i :: 0 <= i < |data.transitions| ==> data.transitions[i].localtimeIdx < |data.localtimes|
  }

  // ---------------------------------------------------------------- the code

  /** The time a comparison looks at: `Comp(true)` compares UTC times, `Comp(false)` local ones. */
  function Key(t: Transition, gmt: bool): int {
    if gmt then t.gmttime else t.localtime
  }

  /** What lies just before `lo` is less than `key`, and what lies at `hi` is not. */
  predicate Boundary(transitions: seq<Transition>, key: int, gmt: bool, lo: nat, hi: nat)
    requires lo <= |transitions| && hi <= |transitions|
  {
    && (lo > 0 ==> Key(transitions[lo - 1], gmt) < key)
    && (hi < |transitions| ==> key <= Key(transitions[hi], gmt))
  }

  /** `std::lower_bound` over `transitions[first..first + len]`, halving as the library does. */
  function LowerBound(transitions: seq<Transition>, key: int, gmt: bool, first: nat, len: nat): (pos: nat)
    requires first + len <= |transitions| && Boundary(transitions, key, gmt, first, first + len)
    ensures first <= pos <= first + len && Boundary(transitions, key, gmt, pos, pos)
    decreases len
  {
    if len == 0 then first
    else
      var half := len / 2;
      if Key(transitions[first + half], gmt) < key
      then LowerBound(transitions, key, gmt, first + half + 1, len - half - 1)
      else LowerBound(transitions, key, gmt, first, half)
  }

  /** The transition `findLocaltime` settles on; -1 when it takes the first type instead. */
  function FindTransition(data: Data, key: int, gmt: bool): (i: int)
    ensures -1 <= i < |data.transitions|
  {
    var ts := data.transitions;
    if ts == [] || key < Key(ts[0], gmt) then -1
    else
      var pos := LowerBound(ts, key, gmt, 0, |ts|);
      if pos < |ts| then
        if key != Key(ts[pos], gmt) then pos - 1 else pos
      else |ts| - 1
  }

  /** The local time type in force from transition `i` on, or before the first one. */
  function TypeFrom(data: Data, i: int): Localtime
    requires Indexed(data) && -1 <= i < |data.transitions|
  {
    if i == -1 then data.localtimes[0] else data.localtimes[data.transitions[i].localtimeIdx]
  }

  function FindLocaltime(data: Data, key: int, gmt: bool): Localtime
    requires Indexed(data)
  {
    TypeFrom(data, FindTransition(data, key, gmt))
  }

  function ToLocalTime(data: Data, seconds: int): Option<Tm>
    requires Indexed(data)
  {
    var local := FindLocaltime(data, seconds, true);
    var utc :- ToUtc(seconds + local.gmtOffset, false);
    Some(utc.(isdst := local.isDst, gmtoff := local.gmtOffset))
  }

  function FromLocalTime(data: Data, localTm: Tm): Option<int>
    requires Indexed(data)
  {
    var seconds :- FromUtc(localTm);
    var local := FindLocaltime(data, seconds, false);
    if localTm.isdst then
      var tryTm :- ToLocalTime(data, seconds - local.gmtOffset);
      if !tryTm.isdst && tryTm.hour == localTm.hour && tryTm.min == localTm.min
      then Some(seconds - 3600 - local.gmtOffset)
      else Some(seconds - local.gmtOffset)
    else Some(seconds - local.gmtOffset)
  }

  // ------------------------------------------------------------- properties

  /** Transition `i` covers `key`: it is no later, and the next one is later. */
  predicate Covers(data: Data, key: int, gmt: bool, i: int)
    requires -1 <= i < |data.transitions|
  {
    && (i >= 0 ==> Key(data.transitions[i], gmt) <= key)
    && (i + 1 < |data.transitions| ==> key < Key(data.transitions[i + 1], gmt))
  }

  predicate Increasing(data: Data, gmt: bool) {
    forall i, j :: 0 <= i < j < |data.transitions| ==>
      Key(data.transitions[i], gmt) < Key(data.transitions[j], gmt)
  }

  /** On an increasing table the search returns the covering transition, and only it. */
  lemma FindsTheCoveringTransition(data: Data, key: int, gmt: bool, i: int)
    requires Increasing(data, gmt) && -1 <= i < |data.transitions|
    ensures FindTransition(data, key, gmt) == i <==> Covers(data, key, gmt, i)
  {
    var k := FindTransition(data, key, gmt);
    assert Covers(data, key, gmt, k);
    if k != i {
      OnlyOneCovers(data, key, gmt, i, k);
    }
  }

  lemma OnlyOneCovers(data: Data, key: int, gmt: bool, i: int, k: int)
    requires Increasing(data, gmt) && -1 <= i < |data.transitions| && -1 <= k < |data.transitions|
    requires Covers(data, key, gmt, k) && i != k
    ensures !Covers(data, key, gmt, i)
  {
    var ts := data.transitions;
    if i < k {
      assert Key(ts[i + 1], gmt) <= Key(ts[k], gmt);
    } else {
      assert Key(ts[k + 1], gmt) <= Key(ts[i], gmt);
    }
  }

  /** The type in force at a UTC time, said of the table alone: the first one before any
      transition, and from then on that of the latest transition no later. */
  ghost predicate InForce(data: Data, seconds: int, local: Localtime)
    requires Indexed(data)
  {
    || ((forall j :: 0 <= j < |data.transitions| ==> seconds < data.transitions[j].gmttime)
        && local == data.localtimes[0])
    || (exists i :: 0 <= i < |data.transitions| && data.transitions[i].gmttime <= seconds
          && (forall j :: i < j < |data.transitions| ==> seconds < data.transitions[j].gmttime)
          && local == data.localtimes[data.transitions[i].localtimeIdx])
  }

  /** The same of the local times that the transitions start at. */
  ghost predicate InForceLocally(data: Data, localSeconds: int, local: Localtime)
    requires Indexed(data)
  {
    || ((forall j :: 0 <= j < |data.transitions| ==> localSeconds < data.transitions[j].localtime)
        && local == data.localtimes[0])
    || (exists i :: 0 <= i < |data.transitions| && data.transitions[i].localtime <= localSeconds
          && (forall j :: i < j < |data.transitions| ==> localSeconds < data.transitions[j].localtime)
          && local == data.localtimes[data.transitions[i].localtimeIdx])
  }

  /** `findLocaltime` gives the type in force, and only that, in either order in which the
      table increases. */
  lemma FindsTheTypeInForce(data: Data, seconds: int, local: Localtime)
    requires Indexed(data)
    ensures Increasing(data, true) ==> (FindLocaltime(data, seconds, true) == local <==> InForce(data, seconds, local))
    ensures Increasing(data, false) ==>
              (FindLocaltime(data, seconds, false) == local <==> InForceLocally(data, seconds, local))
  {
    hide FindTransition;
    if Increasing(data, true) {
      FindsByKey(data, seconds, true, local);
    }
    if Increasing(data, false) {
      FindsByKey(data, seconds, false, local);
    }
  }

  lemma FindsByKey(data: Data, key: int, gmt: bool, local: Localtime)
    requires Indexed(data) && Increasing(data, gmt)
    ensures FindLocaltime(data, key, gmt) == local
       <==> if gmt then InForce(data, key, local) else InForceLocally(data, key, local)
  {
    hide FindTransition;
    var k := FindTransition(data, key, gmt);
    FindsTheCoveringTransition(data, key, gmt, k);
    var ts := data.transitions;
    if k >= 0 {
      assert Key(ts[k], gmt) <= key;
    }
    forall j | k < j < |ts| ensures key < Key(ts[j], gmt) {
      assert Key(ts[k + 1], gmt) <= Key(ts[j], gmt);
    }
    forall i | 0 <= i < |ts| && i != k && Key(ts[i], gmt) <= key ensures i < k {
    }
  }

  /** A table as the zone file gives it: 32-bit times and offsets, and each local
      time the UTC time plus the offset that starts there. */
  predicate FromFile(data: Data) {
    && Indexed(data)
    && (forall k :: 0 <= k < |data.localtimes| ==> FitsInt32(data.localtimes[k].gmtOffset))
    && (forall i :: 0 <= i < |data.transitions| ==>
          && FitsInt32(data.transitions[i].gmttime)
          && data.transitions[i].localtime == data.transitions[i].gmttime + TypeFrom(data, i).gmtOffset)
  }

  function Gap(data: Data, i: int): int
    requires 0 <= i < |data.transitions| - 1
  {
    data.transitions[i + 1].gmttime - data.transitions[i].gmttime
  }

  /** Consecutive transitions lie further apart than any two offsets do. */
  predicate WellSpaced(data: Data)
    requires Indexed(data)
  {
    forall i, p, q ::
      0 <= i < |data.transitions| - 1 && -1 <= p < |data.transitions| && -1 <= q < |data.transitions| ==>
      TypeFrom(data, p).gmtOffset - TypeFrom(data, q).gmtOffset < Gap(data, i)
  }

  lemma SpacedBy(data: Data, i: int, p: int, q: int)
    requires Indexed(data) && WellSpaced(data)
    requires 0 <= i < |data.transitions| - 1 && -1 <= p < |data.transitions| && -1 <= q < |data.transitions|
    ensures TypeFrom(data, p).gmtOffset - TypeFrom(data, q).gmtOffset < Gap(data, i)
  {
  }

  lemma {:induction false} KeysIncrease(data: Data, gmt: bool, i: nat, j: nat)
    requires FromFile(data) && WellSpaced(data)
    requires i < j < |data.transitions|
    ensures Key(data.transitions[i], gmt) < Key(data.transitions[j], gmt)
  {
    hide WellSpaced;
    if i + 1 < j {
      KeysIncrease(data, gmt, i, j - 1);
    }
    SpacedBy(data, j - 1, j, j);
    SpacedBy(data, j - 1, j - 1, j);
  }

  lemma BothOrdersIncrease(data: Data)
    requires FromFile(data) && WellSpaced(data)
    ensures Increasing(data, true) && Increasing(data, false)
  {
    forall i, j | 0 <= i < j < |data.transitions|
      ensures Key(data.transitions[i], true) < Key(data.transitions[j], true)
      ensures Key(data.transitions[i], false) < Key(data.transitions[j], false)
    {
      KeysIncrease(data, true, i, j);
      KeysIncrease(data, false, i, j);
    }
  }

  /** Second `s` falls after the local clock has been set back over it: the next
      transition's local start is already reached. */
  predicate Repeated(data: Data, s: int)
    requires Indexed(data)
  {
    var i := FindTransition(data, s, true);
    i + 1 < |data.transitions| && data.transitions[i + 1].localtime <= s + TypeFrom(data, i).gmtOffset
  }

  /** Transition `i + 1` ends daylight saving by exactly one hour. */
  predicate EndsDstHour(data: Data, i: int)
    requires Indexed(data) && -1 <= i < |data.transitions| - 1
  {
    && TypeFrom(data, i).isDst && !TypeFrom(data, i + 1).isDst
    && TypeFrom(data, i).gmtOffset - TypeFrom(data, i + 1).gmtOffset == 3600
  }

  /** Transition `i + 1` sets the local clock back. */
  predicate SetsBack(data: Data, i: int)
    requires Indexed(data)
  {
    -1 <= i < |data.transitions| - 1 && TypeFrom(data, i + 1).gmtOffset < TypeFrom(data, i).gmtOffset
  }

  function LocalSeconds(data: Data, s: int): int
    requires Indexed(data)
  {
    s + FindLocaltime(data, s, true).gmtOffset
  }

  /** Reading a local time back starts from the local second it was made from. */
  lemma LocalTmKeepsSecond(data: Data, s: int)
    requires Indexed(data) && UtcRange(LocalSeconds(data, s))
    ensures ToLocalTime(data, s).Some?
    ensures FromUtc(ToLocalTime(data, s).value) == Some(LocalSeconds(data, s))
    ensures ToLocalTime(data, s).value.isdst == FindLocaltime(data, s, true).isDst
  {
    hide ToUtc, FromUtc, UtcRange, FindTransition;
    UtcRoundTrip(LocalSeconds(data, s));
    var local := FindLocaltime(data, s, true);
    ZoneDoesNotMatter(ToUtc(LocalSeconds(data, s), false).value, local.isDst, local.gmtOffset);
  }

  /** Sorted in UTC order and in local order, as the two searches need it. */
  predicate Sorted(data: Data) {
    Increasing(data, true) && Increasing(data, false)
  }

  /** The transition and the offset that reading second `s` back settles on, and the second
      it tries. */
  function FoundAgain(data: Data, s: int): (j: int)
    requires Indexed(data)
    ensures -1 <= j < |data.transitions|
  {
    FindTransition(data, LocalSeconds(data, s), false)
  }

  function Tried(data: Data, s: int): int
    requires Indexed(data)
  {
    LocalSeconds(data, s) - TypeFrom(data, FoundAgain(data, s)).gmtOffset
  }

  /** The same hour and minute of some day. */
  predicate SameMinute(x: int, y: int) {
    x % SECONDS_PER_DAY / 60 == y % SECONDS_PER_DAY / 60
  }

  /** A repeated daylight saving second that the correction by an hour hits: what is found
      again lies an hour behind, and the second tried is standard time and shows the same
      hour and minute. */
  predicate Recovered(data: Data, s: int)
    requires Indexed(data)
  {
    var local := FindLocaltime(data, s, true);
    && local.isDst && local.gmtOffset - TypeFrom(data, FoundAgain(data, s)).gmtOffset == 3600
    && !FindLocaltime(data, Tried(data, s), true).isDst
    && SameMinute(LocalSeconds(data, Tried(data, s)), LocalSeconds(data, s))
  }

  /** `toLocalTime` on a table in UTC order: the date and time of day of the second plus the
      offset in force, with the daylight saving flag and the offset of that type. */
  lemma ToLocalTimeExactly(data: Data, s: int, local: Localtime)
    requires Indexed(data) && Increasing(data, true) && InForce(data, s, local) && UtcRange(s + local.gmtOffset)
    ensures ToLocalTime(data, s).Some?
    ensures var tm := ToLocalTime(data, s).value;
            && tm.isdst == local.isDst && tm.gmtoff == local.gmtOffset
            && DateOf(tm) == NthDate(DayIndex(s + local.gmtOffset)) && ValidClock(tm)
            && SecondsOfDay(tm) == (s + local.gmtOffset) % SECONDS_PER_DAY
  {
    hide ToUtc, UtcRange, FindLocaltime, InForce, NthDate;
    FindsTheTypeInForce(data, s, local);
    ToUtcExact(s + local.gmtOffset);
  }

  /** `fromLocalTime` on a table in both orders, for any valid broken-down time: its UTC
      reading less the offset in force at that local time; and an hour less, if it claims
      daylight saving and the second so found is standard time at the same hour and minute. */
  lemma FromLocalTimeExactly(data: Data, tm: Tm, local: Localtime, tried: Localtime)
    requires Indexed(data) && Sorted(data) && FromUtc(tm).Some?
    requires InForceLocally(data, FromUtc(tm).value, local)
    requires InForce(data, FromUtc(tm).value - local.gmtOffset, tried)
    requires tm.isdst ==> UtcRange(FromUtc(tm).value - local.gmtOffset + tried.gmtOffset)
    ensures var s := FromUtc(tm).value;
            var second := s - local.gmtOffset + tried.gmtOffset;
            var corrected := tm.isdst && !tried.isDst
              && tm.hour == second % SECONDS_PER_DAY / 3600 && tm.min == second % SECONDS_PER_DAY / 60 % 60;
            FromLocalTime(data, tm) == Some(s - local.gmtOffset - if corrected then 3600 else 0)
  {
    hide FromUtc, ToUtc, UtcRange, FindLocaltime, InForce, InForceLocally, Increasing;
    var s := FromUtc(tm).value;
    FindsTheTypeInForce(data, s, local);
    FindsTheTypeInForce(data, s - local.gmtOffset, tried);
    if tm.isdst {
      ToUtcExact(s - local.gmtOffset + tried.gmtOffset);
      ClockOfDay(ToUtc(s - local.gmtOffset + tried.gmtOffset, false).value);
    }
  }

  lemma ClockOfDay(utc: Tm)
    requires ValidClock(utc)
    ensures utc.hour == SecondsOfDay(utc) / 3600 && utc.min == SecondsOfDay(utc) / 60 % 60
  {
  }

  /** In the repeated stretch the local search lands one transition too late, and
      trying that type's second shows the same clock. */
  lemma RepeatedFindsNext(data: Data, s: int)
    requires FromFile(data) && WellSpaced(data) && Repeated(data, s)
    ensures var i := FindTransition(data, s, true);
            && FindTransition(data, LocalSeconds(data, s), false) == i + 1
            && FindTransition(data, LocalSeconds(data, s) - TypeFrom(data, i + 1).gmtOffset, true) == i + 1
            && SetsBack(data, i)
  {
    hide WellSpaced, FindTransition, Increasing;
    BothOrdersIncrease(data);
    var i := FindTransition(data, s, true);
    FindsTheCoveringTransition(data, s, true, i);
    var a, b := TypeFrom(data, i).gmtOffset, TypeFrom(data, i + 1).gmtOffset;
    if i + 2 < |data.transitions| {
      SpacedBy(data, i + 1, i, i + 1);
      SpacedBy(data, i + 1, i, i + 2);
    }
    FindsTheCoveringTransition(data, s + a, false, i + 1);
    FindsTheCoveringTransition(data, s + a - b, true, i + 1);
  }

  lemma UnrepeatedFindsSame(data: Data, s: int)
    requires FromFile(data) && Sorted(data) && !Repeated(data, s)
    ensures FoundAgain(data, s) == FindTransition(data, s, true)
  {
    hide FindTransition, Increasing;
    var i := FindTransition(data, s, true);
    FindsTheCoveringTransition(data, s, true, i);
    FindsTheCoveringTransition(data, LocalSeconds(data, s), false, i);
  }

  /** A repeated second is found again at a later transition with a smaller offset. */
  lemma RepeatedFindsLater(data: Data, s: int)
    requires FromFile(data) && Sorted(data) && Repeated(data, s)
    ensures var i, j := FindTransition(data, s, true), FoundAgain(data, s);
            && i < j && TypeFrom(data, j).gmtOffset < TypeFrom(data, i).gmtOffset && SetsBack(data, i)
  {
    hide FindTransition;
    var i, j := FindTransition(data, s, true), FoundAgain(data, s);
    FindsTheCoveringTransition(data, s, true, i);
    FindsTheCoveringTransition(data, LocalSeconds(data, s), false, j);
    var ts := data.transitions;
    assert i < j;
    assert Key(ts[i + 1], true) <= Key(ts[j], true);
  }

  /** The clock readings the correction compares. */
  lemma SameReading(x: int, y: int)
    requires UtcRange(x) && UtcRange(y)
    ensures ToUtc(x, false).Some? && ToUtc(y, false).Some?
    ensures var a, b := ToUtc(x, false).value, ToUtc(y, false).value;
            a.hour == b.hour && a.min == b.min <==> SameMinute(x, y)
  {
    hide ToUtc, UtcRange;
    ToUtcExact(x);
    ToUtcExact(y);
    MinuteOfDay(ToUtc(x, false).value);
    MinuteOfDay(ToUtc(y, false).value);
  }

  lemma MinuteOfDay(utc: Tm)
    requires ValidClock(utc)
    ensures SecondsOfDay(utc) / 60 == utc.hour * 60 + utc.min
  {
  }

  /** On every sorted table, a second survives the trip through local time exactly when
      its clock reading was not repeated, or the correction by an hour recovers it. */
  lemma LocalRoundTripExactly(data: Data, s: int)
    requires FromFile(data) && Sorted(data) && UtcRange(LocalSeconds(data, s))
    requires FindLocaltime(data, s, true).isDst ==> UtcRange(LocalSeconds(data, Tried(data, s)))
    ensures ToLocalTime(data, s).Some?
    ensures FromLocalTime(data, ToLocalTime(data, s).value) == Some(s) <==> !Repeated(data, s) || Recovered(data, s)
  {
    hide ToUtc, FromUtc, UtcRange, FindTransition, Increasing;
    LocalTmKeepsSecond(data, s);
    if Repeated(data, s) {
      RepeatedFindsLater(data, s);
      if FindLocaltime(data, s, true).isDst {
        SameReading(LocalSeconds(data, Tried(data, s)), LocalSeconds(data, s));
      }
    } else {
      UnrepeatedFindsSame(data, s);
    }
  }

  /** On a well-spaced table, what is recovered is the hour that ends daylight saving. */
  lemma WellSpacedRoundTripExactly(data: Data, s: int)
    requires FromFile(data) && WellSpaced(data) && UtcRange(LocalSeconds(data, s))
    ensures ToLocalTime(data, s).Some?
    ensures FromLocalTime(data, ToLocalTime(data, s).value) == Some(s)
       <==> !Repeated(data, s) || EndsDstHour(data, FindTransition(data, s, true))
  {
    hide ToUtc, FromUtc, UtcRange, FindTransition, ToLocalTime, FromLocalTime, Increasing;
    BothOrdersIncrease(data);
    if Repeated(data, s) {
      RepeatedFindsNext(data, s);
    } else {
      UnrepeatedFindsSame(data, s);
    }
    assert LocalSeconds(data, Tried(data, s)) == LocalSeconds(data, s);
    LocalRoundTripExactly(data, s);
  }

  lemma FileTimesInRange(data: Data, s: int)
    requires FromFile(data) && INT32_MIN - 1 <= s <= INT32_MAX
    ensures UtcRange(LocalSeconds(data, s))
  {
    assert LocalSeconds(data, s) >= 2 * INT32_MIN - 1;
    assert LocalSeconds(data, s) / SECONDS_PER_DAY >= -49711;
  }

  /** `fromLocalTime` inverts `toLocalTime` on a whole table exactly when every
      backward shift in it is a daylight saving hour ending. */
  lemma TableInvertibleExactly(data: Data)
    requires FromFile(data) && WellSpaced(data)
    ensures (forall s :: UtcRange(LocalSeconds(data, s)) ==>
               ToLocalTime(data, s).Some? && FromLocalTime(data, ToLocalTime(data, s).value) == Some(s))
       <==> (forall i :: SetsBack(data, i) ==> EndsDstHour(data, i))
  {
    hide ToUtc, FromUtc, UtcRange, FindTransition, ToLocalTime, FromLocalTime;
    forall s | UtcRange(LocalSeconds(data, s)) && Repeated(data, s)
      ensures SetsBack(data, FindTransition(data, s, true))
    {
      RepeatedFindsNext(data, s);
    }
    forall s | UtcRange(LocalSeconds(data, s))
      ensures ToLocalTime(data, s).Some?
      ensures FromLocalTime(data, ToLocalTime(data, s).value) == Some(s)
         <==> !Repeated(data, s) || EndsDstHour(data, FindTransition(data, s, true))
    {
      WellSpacedRoundTripExactly(data, s);
    }
    BothOrdersIncrease(data);
    forall i | SetsBack(data, i)
      ensures exists s :: UtcRange(LocalSeconds(data, s)) && Repeated(data, s)
                       && FindTransition(data, s, true) == i
    {
      LastSecondIsRepeated(data, i);
    }
  }

  /** Before every backward shift there is a second whose reading is repeated. */
  lemma LastSecondIsRepeated(data: Data, i: int)
    requires FromFile(data) && Sorted(data) && SetsBack(data, i)
    ensures var s := data.transitions[i + 1].gmttime - 1;
            && FindTransition(data, s, true) == i
            && Repeated(data, s) && UtcRange(LocalSeconds(data, s))
  {
    hide UtcRange;
    var s := data.transitions[i + 1].gmttime - 1;
    FindsTheCoveringTransition(data, s, true, i);
    FileTimesInRange(data, s);
  }

  /** The table the code is written for: standard and daylight saving time
      alternate from a standard first type, one hour apart. */
  predicate AlternatesByAnHour(data: Data)
    requires Indexed(data)
  {
    !TypeFrom(data, -1).isDst && forall i :: 0 <= i < |data.transitions| ==> TogglesDst(data, i)
  }

  predicate TogglesDst(data: Data, i: int)
    requires Indexed(data) && 0 <= i < |data.transitions|
  {
    var before, after := TypeFrom(data, i - 1), TypeFrom(data, i);
    && after.isDst == !before.isDst
    && after.gmtOffset - before.gmtOffset == if after.isDst then 3600 else -3600
  }

  predicate GapsOverAnHour(data: Data) {
    forall i :: 0 <= i < |data.transitions| - 1 ==>
      Gap(data, i) > 3600
  }

  lemma {:induction false} OffsetByDst(data: Data, i: int)
    requires Indexed(data) && AlternatesByAnHour(data) && -1 <= i < |data.transitions|
    ensures TypeFrom(data, i).gmtOffset
         == TypeFrom(data, -1).gmtOffset + if TypeFrom(data, i).isDst then 3600 else 0
    decreases i + 1
  {
    if i > -1 {
      OffsetByDst(data, i - 1);
      assert TogglesDst(data, i);
    }
  }

  /** For such a table every second comes back, in both passes of the repeated hour. */
  lemma DaylightSavingRoundTrip(data: Data, s: int)
    requires FromFile(data) && AlternatesByAnHour(data) && GapsOverAnHour(data)
    requires UtcRange(LocalSeconds(data, s))
    ensures ToLocalTime(data, s).Some?
    ensures FromLocalTime(data, ToLocalTime(data, s).value) == Some(s)
  {
    hide ToUtc, FromUtc, UtcRange, FindTransition, ToLocalTime, FromLocalTime;
    forall i, p, q | 0 <= i < |data.transitions| - 1
                  && -1 <= p < |data.transitions| && -1 <= q < |data.transitions|
      ensures TypeFrom(data, p).gmtOffset - TypeFrom(data, q).gmtOffset < Gap(data, i)
    {
      OffsetByDst(data, p);
      OffsetByDst(data, q);
    }
    WellSpacedRoundTripExactly(data, s);
    if Repeated(data, s) {
      RepeatedFindsNext(data, s);
      assert TogglesDst(data, FindTransition(data, s, true) + 1);
    }
  }

  /** Any other backward shift loses time: when standard time moves back, the
      seconds it repeats, and only those, come back wrong. */
  lemma StandardShiftLosesRepeatedSeconds(data: Data, s: int)
    requires FromFile(data) && Sorted(data) && UtcRange(LocalSeconds(data, s))
    requires forall i :: -1 <= i < |data.transitions| ==> !TypeFrom(data, i).isDst
    ensures ToLocalTime(data, s).Some?
    ensures FromLocalTime(data, ToLocalTime(data, s).value) == Some(s) <==> !Repeated(data, s)
  {
    hide ToUtc, FromUtc, UtcRange, FindTransition, ToLocalTime, FromLocalTime;
    LocalRoundTripExactly(data, s);
  }
}
