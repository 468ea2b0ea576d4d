/**
 New York wall-clock time over integer instants.

 An instant counts microseconds and a wall-clock time counts seconds after midnight.
 Times between 00:00:01 and 03:00, where clock changes happen, are never asked for.
 */
module LocalTime {

  const SECOND := 1_000_000
  const DAY_SECONDS := 86_400

  datatype Zone = Zone(localDay: int -> int, localTime: int -> int, at: (int, int) -> int)

  predicate Clear(time: int) {
    time == 0 || 10_800 <= time < DAY_SECONDS
  }

  /** `at` names the first instant whose local date and time reach the given ones. */
  ghost predicate Valid(z: Zone) {
    && (forall d, t, x :: Clear(t) ==>
          (z.at(d, t) <= x <==> z.localDay(x) > d || (z.localDay(x) == d && z.localTime(x) >= t)))
    && (forall d, t :: Clear(t) ==> z.localDay(z.at(d, t)) == d && z.localTime(z.at(d, t)) == t)
    && (forall x :: 0 <= z.localTime(x) < DAY_SECONDS)
  }

  function Utc(): Zone {
    Zone(
      x => x / (DAY_SECONDS * SECOND), x => (x % (DAY_SECONDS * SECOND)) / SECOND,
      (d, t) => (d * DAY_SECONDS + t) * SECOND)
  }

  lemma {:induction false} UtcAt(d: int, t: int, x: int)
    requires 0 <= t < DAY_SECONDS
    ensures Utc().at(d, t) <= x <==> Utc().localDay(x) > d || (Utc().localDay(x) == d && Utc().localTime(x) >= t)
  {
    var day, rest := x / (DAY_SECONDS * SECOND), x % (DAY_SECONDS * SECOND);
    assert x == day * (DAY_SECONDS * SECOND) + rest;
    if day > d {
      assert day * (DAY_SECONDS * SECOND) >= (d + 1) * (DAY_SECONDS * SECOND);
    }
    if day < d {
      assert (day + 1) * (DAY_SECONDS * SECOND) <= d * (DAY_SECONDS * SECOND);
    }
  }

  /** The assumption is satisfiable: a zone without clock changes meets it. */
  lemma {:induction false} UtcIsValid()
    ensures Valid(Utc())
  {
    forall d, t, x | Clear(t)
      ensures Utc().at(d, t) <= x <==> Utc().localDay(x) > d || (Utc().localDay(x) == d && Utc().localTime(x) >= t)
    {
      UtcAt(d, t, x);
    }
    forall d, t | Clear(t)
      ensures Utc().localDay(Utc().at(d, t)) == d && Utc().localTime(Utc().at(d, t)) == t
    {
      UtcAt(d, t, Utc().at(d, t));
      if t + 1 < DAY_SECONDS {
        UtcAt(d, t + 1, Utc().at(d, t));
      }
      UtcAt(d + 1, 0, Utc().at(d, t));
    }
  }

  /** Wall-clock order is instant order. */
  lemma {:induction false} AtOrder(z: Zone, d: int, t: int, e: int, u: int)
    requires Valid(z) && Clear(t) && Clear(u)
    ensures z.at(d, t) < z.at(e, u) <==> d < e || (d == e && t < u)
  {
    assert z.at(e, u) <= z.at(d, t) <==>
      z.localDay(z.at(d, t)) > e || (z.localDay(z.at(d, t)) == e && z.localTime(z.at(d, t)) >= u);
  }

  lemma {:induction false} LocalDayMonotone(z: Zone, x: int, y: int)
    requires Valid(z) && x <= y
    ensures z.localDay(x) <= z.localDay(y)
  {
    assert z.at(z.localDay(x), 0) <= x;
  }
}
