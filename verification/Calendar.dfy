/**
 Versioned exchange days, and the binding of a count of sessions to one version.

 A date is its ordinal; an instant is an integer.  A binding's own digest is a function
 of its other three fields, so it is not repeated here.
 */
module Calendar {
  import opened Prelude

  /** 2026-01-01 and 2028-12-31. */
  const START := 739617
  const END := 740712
  const MAX_SESSIONS := 252

  datatype Fact = Trading(opensAt: int, closesAt: int) | Closed | Unknown

  datatype Day = Day(day: int, fact: Fact)

  /** What a version says of each covered date; only trading days have hours. */
  type Days = map<int, Fact>

  datatype Version = Version(
    digest: string, parent: Option<string>, observedAt: int, days: Days, ancestors: seq<string>)

  datatype Binding = Binding(version: string, anchor: int, sessions: seq<Day>)

  /** Outside the covered dates every day is unknown. */
  function DayOf(days: Days, day: int): Day {
    Day(day, if START <= day <= END && day in days then days[day] else Unknown)
  }

  // ---- binding -----------------------------------------------------------------------

  /** The next `count` open days from `day` on; an unknown day on the way ends the search. */
  function Sessions(days: Days, day: int, count: nat): (r: Option<seq<Day>>)
    ensures r.Some? ==> |r.value| == count
    decreases END + 1 - day
  {
    if count == 0 then Some([])
    else
      var current := DayOf(days, day);
      if current.fact == Unknown then None
      else if current.fact == Closed then Sessions(days, day + 1, count)
      else
        match Sessions(days, day + 1, count - 1)
        case Some(rest) => Some([current] + rest)
        case None => None
  }

  function BindResult(v: Version, anchor: int, count: int): Result<Binding>
  {
    if !(1 <= count <= MAX_SESSIONS) then Rejected("invalid session count")
    else if !DayOf(v.days, anchor).fact.Trading? then Rejected("entry is not a known open session")
    else
      match Sessions(v.days, anchor, count)
      case Some(sessions) => Ok(Binding(v.digest, anchor, sessions))
      case None => Rejected("unknown calendar date")
  }

  /** Counts the open anchor as session one and never skips an unknown day. */
  method Bind(v: Version, anchor: int, count: int) returns (r: Result<Binding>)
    ensures r == BindResult(v, anchor, count)
  {
    if !(1 <= count <= MAX_SESSIONS) {
      return Rejected("invalid session count");
    }
    if !DayOf(v.days, anchor).fact.Trading? {
      return Rejected("entry is not a known open session");
    }
    var sessions: seq<Day> := [];
    var day := anchor;
    ghost var all := Sessions(v.days, anchor, count);
    assert all.Some? ==> sessions + all.value == all.value;
    while |sessions| < count
      invariant |sessions| <= count
      invariant var rest := Sessions(v.days, day, count - |sessions|);
        Sessions(v.days, anchor, count) == if rest.Some? then Some(sessions + rest.value) else None
      decreases END + 1 - day
    {
      var current := DayOf(v.days, day);
      if current.fact == Unknown {
        return Rejected("unknown calendar date");
      }
      ghost var rest := Sessions(v.days, day + 1, count - |sessions| - if current.fact.Trading? then 1 else 0);
      if current.fact.Trading? {
        assert rest.Some? ==> sessions + ([current] + rest.value) == (sessions + [current]) + rest.value;
        sessions := sessions + [current];
      }
      day := day + 1;
    }
    assert sessions + [] == sessions;
    return Ok(Binding(v.digest, anchor, sessions));
  }

  /** Bound sessions are open days of the version, strictly increasing and not before the start. */
  lemma {:induction false} SessionsAreOpenDays(days: Days, day: int, count: nat)
    requires Sessions(days, day, count).Some?
    ensures var s := Sessions(days, day, count).value;
      && (forall i :: 0 <= i < count ==> day <= s[i].day && s[i] == DayOf(days, s[i].day) && s[i].fact.Trading?)
      && (forall i, j :: 0 <= i < j < count ==> s[i].day < s[j].day)
    decreases END + 1 - day
  {
    if count > 0 {
      var current := DayOf(days, day);
      SessionsAreOpenDays(days, day + 1, if current.fact.Trading? then count - 1 else count);
    }
  }

  /** Every day from the start through the last bound session is known, and open exactly when bound. */
  lemma {:induction false} SessionsSkipOnlyClosed(days: Days, day: int, count: nat, at: int)
    requires count > 0 && Sessions(days, day, count).Some?
    requires day <= at <= Last(Sessions(days, day, count).value).day
    ensures DayOf(days, at).fact != Unknown
    ensures DayOf(days, at).fact.Trading? ==> DayOf(days, at) in Sessions(days, day, count).value
    decreases END + 1 - day
  {
    var current := DayOf(days, day);
    if current.fact == Closed {
      if at != day {
        SessionsSkipOnlyClosed(days, day + 1, count, at);
      }
    } else if at != day {
      var rest := Sessions(days, day + 1, count - 1).value;
      if count > 1 {
        assert Last([current] + rest) == Last(rest);
        SessionsSkipOnlyClosed(days, day + 1, count - 1, at);
      }
    }
  }

  /** Starting later inside a binding, with a smaller count, yields the matching slice of it. */
  lemma {:induction false} SessionsSlice(days: Days, day: int, count: nat, i: nat, n: nat)
    requires Sessions(days, day, count).Some? && i < count && i + n <= count
    ensures var s := Sessions(days, day, count).value;
      Sessions(days, s[i].day, n) == Some(s[i..i + n])
    decreases END + 1 - day
  {
    var s := Sessions(days, day, count).value;
    var current := DayOf(days, day);
    if current.fact == Closed {
      SessionsSlice(days, day + 1, count, i, n);
    } else {
      var rest := Sessions(days, day + 1, count - 1).value;
      if i > 0 {
        SessionsSlice(days, day + 1, count - 1, i - 1, n);
        assert rest[i - 1..i - 1 + n] == s[i..i + n];
      } else if n > 0 {
        SessionsPrefix(days, day + 1, count - 1, n - 1);
        assert [current] + rest[..n - 1] == s[..n];
      } else {
        assert s[i..i + n] == [];
      }
    }
  }

  lemma {:induction false} SessionsPrefix(days: Days, day: int, count: nat, n: nat)
    requires Sessions(days, day, count).Some? && n <= count
    ensures Sessions(days, day, n) == Some(Sessions(days, day, count).value[..n])
    decreases END + 1 - day
  {
    if n > 0 {
      var current := DayOf(days, day);
      if current.fact == Closed {
        SessionsPrefix(days, day + 1, count, n);
      } else {
        SessionsPrefix(days, day + 1, count - 1, n - 1);
        assert [current] + Sessions(days, day + 1, count - 1).value[..n - 1] == Sessions(days, day, count).value[..n];
      }
    }
  }

  /** A binding restarted at its session `i` is the tail slice of the original. */
  lemma {:induction false} BindTail(v: Version, anchor: int, count: int, i: nat, n: int)
    requires BindResult(v, anchor, count).Ok?
    requires i < count && 1 <= n <= count - i
    ensures var s := BindResult(v, anchor, count).value.sessions;
      BindResult(v, s[i].day, n) == Ok(Binding(v.digest, s[i].day, s[i..i + n]))
  {
    SessionsAreOpenDays(v.days, anchor, count);
    SessionsSlice(v.days, anchor, count, i, n);
  }

  // ---- conflicts with a frozen binding -------------------------------------------------

  /** The bound sessions keyed by date. */
  function ByDate(sessions: seq<Day>): map<int, Day> {
    if sessions == [] then map[] else ByDate(Init(sessions))[Last(sessions).day := Last(sessions)]
  }

  /** What the binding says of a date in its span: the bound session, or closed. */
  function Expected(b: Binding, day: int): Day {
    var expected := ByDate(b.sessions);
    if day in expected then expected[day] else Day(day, Closed)
  }

  /** The dates from `day` through `last` on which the version differs from the binding. */
  function Differing(b: Binding, days: Days, day: int, last: int): seq<int>
    decreases last - day
  {
    if day > last then []
    else (if DayOf(days, day) != Expected(b, day) then [day] else []) + Differing(b, days, day + 1, last)
  }

  /** Later contradictions of a frozen binding; the binding itself is never repaired. */
  function Conflicts(b: Binding, v: Version, bound: Version): Result<seq<int>>
  {
    if BindResult(bound, b.anchor, |b.sessions|) != Ok(b) then
      Rejected("binding differs from original validated version")
    else if bound.digest !in v.ancestors && bound.digest != v.digest then
      Rejected("comparison version is not a descendant")
    else Ok(Differing(b, v.days, b.anchor, Last(b.sessions).day))
  }

  lemma {:induction false} ByDateFinds(sessions: seq<Day>, day: int)
    requires forall i, j :: 0 <= i < j < |sessions| ==> sessions[i].day < sessions[j].day
    ensures day in ByDate(sessions) <==> exists i :: 0 <= i < |sessions| && sessions[i].day == day
    ensures forall i :: 0 <= i < |sessions| && sessions[i].day == day ==>
      day in ByDate(sessions) && ByDate(sessions)[day] == sessions[i]
  {
    if sessions != [] {
      ByDateFinds(Init(sessions), day);
      if day in ByDate(Init(sessions)) {
        var i :| 0 <= i < |Init(sessions)| && Init(sessions)[i].day == day;
        assert sessions[i].day == day;
      }
      forall i | 0 <= i < |sessions| && sessions[i].day == day
        ensures day in ByDate(sessions) && ByDate(sessions)[day] == sessions[i]
      {
        if i < |sessions| - 1 {
          assert Init(sessions)[i] == sessions[i];
        }
      }
    }
  }

  /** Inside its span the binding expects exactly the day of the version it was bound to. */
  lemma {:induction false} ExpectedIsBoundDay(b: Binding, bound: Version, day: int)
    requires BindResult(bound, b.anchor, |b.sessions|) == Ok(b)
    requires b.anchor <= day <= Last(b.sessions).day
    ensures Expected(b, day) == DayOf(bound.days, day)
  {
    SessionsAreOpenDays(bound.days, b.anchor, |b.sessions|);
    SessionsSkipOnlyClosed(bound.days, b.anchor, |b.sessions|, day);
    ByDateFinds(b.sessions, day);
    if DayOf(bound.days, day).fact.Trading? {
      var i :| 0 <= i < |b.sessions| && b.sessions[i] == DayOf(bound.days, day);
      assert b.sessions[i].day == day;
    }
  }

  lemma {:induction false} DifferingIsMembership(b: Binding, days: Days, day: int, last: int, at: int)
    ensures at in Differing(b, days, day, last) <==> day <= at <= last && DayOf(days, at) != Expected(b, at)
    decreases last - day
  {
    if day <= last {
      DifferingIsMembership(b, days, day + 1, last, at);
    }
  }

  /** A date conflicts exactly when it lies in the span and the two versions disagree on it. */
  lemma {:induction false} ConflictMeansDisagreement(b: Binding, v: Version, bound: Version, at: int)
    requires Conflicts(b, v, bound).Ok?
    ensures at in Conflicts(b, v, bound).value <==>
      b.anchor <= at <= Last(b.sessions).day && DayOf(v.days, at) != DayOf(bound.days, at)
  {
    DifferingIsMembership(b, v.days, b.anchor, Last(b.sessions).day, at);
    if b.anchor <= at <= Last(b.sessions).day {
      ExpectedIsBoundDay(b, bound, at);
    }
  }

  lemma {:induction false} AgreementKeepsSessions(a: Days, b: Days, day: int, count: nat)
    requires count > 0 && Sessions(b, day, count).Some?
    requires forall d :: day <= d <= Last(Sessions(b, day, count).value).day ==> DayOf(a, d) == DayOf(b, d)
    ensures Sessions(a, day, count) == Sessions(b, day, count)
    decreases END + 1 - day
  {
    SessionsAreOpenDays(b, day, count);
    assert DayOf(a, day) == DayOf(b, day);
    if DayOf(b, day).fact == Closed {
      AgreementKeepsSessions(a, b, day + 1, count);
    } else if count > 1 {
      var rest := Sessions(b, day + 1, count - 1).value;
      assert Last([DayOf(b, day)] + rest) == Last(rest);
      AgreementKeepsSessions(a, b, day + 1, count - 1);
    }
  }

  lemma {:induction false} EqualSessionsAgree(a: Days, b: Days, day: int, count: nat, at: int)
    requires count > 0
    requires Sessions(a, day, count).Some? && Sessions(a, day, count) == Sessions(b, day, count)
    requires day <= at <= Last(Sessions(b, day, count).value).day
    ensures DayOf(a, at) == DayOf(b, at)
    decreases END + 1 - day
  {
    var s := Sessions(b, day, count).value;
    SessionsAreOpenDays(a, day, count);
    SessionsAreOpenDays(b, day, count);
    SessionsSkipOnlyClosed(a, day, count, at);
    SessionsSkipOnlyClosed(b, day, count, at);
    if DayOf(a, at).fact.Trading? {
      var i :| 0 <= i < count && s[i] == DayOf(a, at);
      assert s[i] == DayOf(b, s[i].day);
    }
  }

  /**
   Conflict detection is exact: a descendant shows no conflict precisely when binding the
   same anchor and count on it would succeed with the very same sessions.
   */
  lemma {:induction false} ConflictFreeExactlyWhenRebindAgrees(b: Binding, v: Version, bound: Version)
    requires Conflicts(b, v, bound).Ok?
    ensures Conflicts(b, v, bound).value == [] <==>
      BindResult(v, b.anchor, |b.sessions|) == Ok(Binding(v.digest, b.anchor, b.sessions))
  {
    var conflicts, last := Conflicts(b, v, bound).value, Last(b.sessions).day;
    if conflicts == [] {
      forall d | b.anchor <= d <= last ensures DayOf(v.days, d) == DayOf(bound.days, d) {
        ConflictMeansDisagreement(b, v, bound, d);
      }
      SessionsAreOpenDays(bound.days, b.anchor, |b.sessions|);
      AgreementKeepsSessions(v.days, bound.days, b.anchor, |b.sessions|);
    }
    if BindResult(v, b.anchor, |b.sessions|) == Ok(Binding(v.digest, b.anchor, b.sessions)) && conflicts != [] {
      ConflictMeansDisagreement(b, v, bound, conflicts[0]);
      EqualSessionsAgree(v.days, bound.days, b.anchor, |b.sessions|, conflicts[0]);
      assert false;
    }
  }

  // ---- notices -------------------------------------------------------------------------

  /** A notice replaces what is recorded of each named date. */
  function Changed(days: Days, mark: Fact, dates: seq<int>): Days {
    map d | d in days :: if d in dates then mark else days[d]
  }

  lemma {:induction false} ChangedDay(days: Days, mark: Fact, dates: seq<int>, d: int)
    ensures DayOf(Changed(days, mark, dates), d) ==
      if d in dates && START <= d <= END && d in days then Day(d, mark) else DayOf(days, d)
  {
  }
}
