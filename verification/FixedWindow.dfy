/** What any fixed-window limiter guarantees: windows that start at least a length apart and admit
    at most max calls each let at most 2 * max calls through in any interval of that length. */
module FixedWindow {

  /** A call that was let through: as the ordinal-th of a window, at a time. */
  datatype Take = Take(window: nat, ordinal: nat, time: int)

  /** Windows start at least a length apart, in the order of their numbers. */
  ghost predicate Spaced(starts: map<nat, int>, length: int) {
    forall w, x :: w in starts && x in starts && w < x ==> starts[w] + length <= starts[x]
  }

  /** Every call let through has one of the first max places of its window, no place is used twice,
      and its time lies between its window's start and any later one's. */
  ghost predicate Fits<T>(takes: map<T, Take>, starts: map<nat, int>, max: int) {
    && (forall a :: a in takes ==>
          && 1 <= takes[a].ordinal <= max
          && takes[a].window in starts && starts[takes[a].window] <= takes[a].time
          && (forall x :: x in starts && takes[a].window < x ==> takes[a].time <= starts[x]))
    && (forall a, b :: a in takes && b in takes && a != b ==>
          takes[a].window != takes[b].window || takes[a].ordinal != takes[b].ordinal)
  }

  ghost function Within<T>(takes: map<T, Take>, from: int, length: int): set<T> {
    set a | a in takes && from <= takes[a].time < from + length
  }

  /** One window has at most max places. */
  lemma {:induction false} WindowCard<T>(calls: set<T>, takes: map<T, Take>, max: nat)
    requires calls <= takes.Keys
    requires forall a :: a in calls ==> 1 <= takes[a].ordinal <= max
    requires forall a, b :: a in calls && b in calls && a != b ==> takes[a].ordinal != takes[b].ordinal
    ensures |calls| <= max
  {
    if max > 0 {
      var last := set a | a in calls && takes[a].ordinal == max;
      WindowCard(calls - last, takes, max - 1);
      if a :| a in last {
        assert last == {a};
        assert calls == (calls - last) + {a};
      } else {
        assert last == {};
        assert calls - last == calls;
      }
    } else if a :| a in calls {
      assert false;
    } else {
      assert calls == {};
    }
  }

  /** No three windows have calls in one interval of a window length. */
  lemma AtMostTwo<T>(takes: map<T, Take>, starts: map<nat, int>, length: int, max: int, from: int, a: T, b: T, c: T)
    requires length > 0 && Spaced(starts, length) && Fits(takes, starts, max)
    requires a in Within(takes, from, length) && b in Within(takes, from, length) && c in Within(takes, from, length)
    ensures !(takes[a].window < takes[b].window < takes[c].window)
  {
  }

  /** At most 2 * max calls are let through in any interval of one window length. */
  lemma TwiceMax<T>(takes: map<T, Take>, starts: map<nat, int>, length: int, max: nat, from: int)
    requires length > 0 && Spaced(starts, length) && Fits(takes, starts, max)
    ensures |Within(takes, from, length)| <= 2 * max
  {
    var within := Within(takes, from, length);
    if a :| a in within {
      var w := takes[a].window;
      var same := set b | b in within && takes[b].window == w;
      var rest := within - same;
      WindowCard(same, takes, max);
      assert within == same + rest;
      if b :| b in rest {
        forall c | c in rest ensures takes[c].window == takes[b].window {
          AtMostTwo(takes, starts, length, max, from, a, b, c);
          AtMostTwo(takes, starts, length, max, from, a, c, b);
          AtMostTwo(takes, starts, length, max, from, b, a, c);
          AtMostTwo(takes, starts, length, max, from, c, a, b);
          AtMostTwo(takes, starts, length, max, from, b, c, a);
          AtMostTwo(takes, starts, length, max, from, c, b, a);
        }
        WindowCard(rest, takes, max);
      } else {
        assert rest == {};
      }
    } else {
      assert within == {};
    }
  }
}
