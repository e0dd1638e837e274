/** A loop that moves between finitely many stations: it either stops or comes back to a station for ever. */
module Descent {

  /** A switch MAC and one of its port ids. */
  type Station = (string, string)

  /** Where a switch hangs, or that the loop looking for it would never end. */
  datatype Place = Nowhere | At(mac: string, port: string) | Forever

  datatype Turn = Stop(place: Place) | GoOn(at: Station)

  /** The loop after n turns. */
  ghost function After(f: Station -> Turn, s: Station, n: nat): Turn {
    if n == 0 then GoOn(s)
    else
      match After(f, s, n - 1)
      case Stop(p) => Stop(p)
      case GoOn(t) => f(t)
  }

  ghost predicate Closed(f: Station -> Turn, all: set<Station>) {
    forall s :: s in all && f(s).GoOn? ==> f(s).at in all
  }

  /** The loop, cut off as soon as it comes back to where it was. */
  function Walk(f: Station -> Turn, ghost all: set<Station>, s: Station, seen: set<Station>): Place
    requires Closed(f, all) && s in all
    decreases all - seen
  {
    if s in seen then Forever
    else
      match f(s)
      case Stop(p) => p
      case GoOn(t) => Walk(f, all, t, seen + {s})
  }

  lemma {:induction false} AfterSplit(f: Station -> Turn, s: Station, k: nat, n: nat)
    ensures After(f, s, k + n) ==
            match After(f, s, k)
            case Stop(p) => Stop(p)
            case GoOn(t) => After(f, t, n)
  {
    if n > 0 {
      AfterSplit(f, s, k, n - 1);
    }
  }

  lemma {:induction false} AfterFirst(f: Station -> Turn, s: Station, n: nat)
    ensures After(f, s, n + 1) == if f(s).Stop? then f(s) else After(f, f(s).at, n)
  {
    AfterSplit(f, s, 1, n);
    assert After(f, s, 1) == f(s);
  }

  /** A walk that does not come back ends after finitely many turns. */
  lemma {:induction false} WalkEnds(f: Station -> Turn, all: set<Station>, s: Station, seen: set<Station>)
    returns (n: nat)
    requires Closed(f, all) && s in all && Walk(f, all, s, seen) != Forever
    ensures After(f, s, n) == Stop(Walk(f, all, s, seen))
    decreases all - seen
  {
    if f(s).GoOn? {
      var k := WalkEnds(f, all, f(s).at, seen + {s});
      AfterFirst(f, s, k);
      n := k + 1;
    } else {
      AfterFirst(f, s, 0);
      n := 1;
    }
  }

  ghost predicate Passed(f: Station -> Turn, s: Station, n: nat, at: Station) {
    exists k: nat :: k < n && After(f, s, k) == GoOn(at)
  }

  /** A walk that comes back passes some station twice. */
  lemma {:induction false} WalkRepeats(f: Station -> Turn, all: set<Station>, s: Station, seen: set<Station>)
    returns (n: nat, at: Station)
    requires Closed(f, all) && s in all && Walk(f, all, s, seen) == Forever
    requires forall t :: t in all ==> f(t) != Stop(Forever)
    ensures After(f, s, n) == GoOn(at) && (at in seen || Passed(f, s, n, at))
    decreases all - seen
  {
    if s in seen {
      n, at := 0, s;
    } else {
      var k;
      k, at := WalkRepeats(f, all, f(s).at, seen + {s});
      AfterFirst(f, s, k);
      n := k + 1;
      if at == s {
        assert After(f, s, 0) == GoOn(at);
      } else if at !in seen {
        var j: nat :| j < k && After(f, f(s).at, j) == GoOn(at);
        AfterFirst(f, s, j);
        assert j + 1 < n;
      }
    }
  }

  lemma {:induction false} StillGoing(f: Station -> Turn, s: Station, n: nat, m: nat)
    requires n <= m && After(f, s, m).GoOn?
    ensures After(f, s, n).GoOn?
    decreases m - n
  {
    if n < m {
      StillGoing(f, s, n + 1, m);
    }
  }

  lemma {:induction false} Circles(f: Station -> Turn, s: Station, k: nat, d: nat, at: Station, times: nat)
    returns (n: nat)
    requires d > 0 && After(f, s, k) == GoOn(at) && After(f, s, k + d) == GoOn(at)
    ensures n >= times && After(f, s, n) == GoOn(at)
  {
    if times == 0 {
      n := k;
    } else {
      var m := Circles(f, s, k, d, at, times - 1);
      AfterSplit(f, s, m, d);
      AfterSplit(f, s, k, d);
      n := m + d;
    }
  }

  /** `Forever` is exact: it means that the loop is still running after any number of turns. */
  lemma {:induction false} ForeverIsExact(f: Station -> Turn, all: set<Station>, s: Station)
    requires Closed(f, all) && s in all && forall t :: t in all ==> f(t) != Stop(Forever)
    ensures Walk(f, all, s, {}) == Forever <==> forall n: nat :: After(f, s, n).GoOn?
  {
    if Walk(f, all, s, {}) == Forever {
      var n, at := WalkRepeats(f, all, s, {});
      var k: nat :| k < n && After(f, s, k) == GoOn(at);
      forall m: nat ensures After(f, s, m).GoOn? {
        var far := Circles(f, s, k, n - k, at, m);
        StillGoing(f, s, m, far);
      }
    } else {
      var n := WalkEnds(f, all, s, {});
    }
  }

  /** No two stations lead to the same one. */
  ghost predicate OneToOne(f: Station -> Turn) {
    forall s, t :: f(s).GoOn? && f(s) == f(t) ==> s == t
  }

  lemma {:induction false} FirstRepeat(f: Station -> Turn, s: Station, k: nat, d: nat, at: Station)
    requires OneToOne(f) && d > 0 && After(f, s, k) == GoOn(at) && After(f, s, k + d) == GoOn(at)
    ensures After(f, s, d) == GoOn(s)
  {
    if k > 0 {
      StillGoing(f, s, k - 1, k);
      StillGoing(f, s, k + d - 1, k + d);
      FirstRepeat(f, s, k - 1, d, After(f, s, k - 1).at);
    }
  }

  /** A loop whose turns are one-to-one runs for ever if and only if it comes back to where it started. */
  lemma {:induction false} ForeverMeansReturn(f: Station -> Turn, all: set<Station>, s: Station)
    requires Closed(f, all) && s in all && (forall t :: t in all ==> f(t) != Stop(Forever)) && OneToOne(f)
    ensures Walk(f, all, s, {}) == Forever <==> exists d: nat :: d > 0 && After(f, s, d) == GoOn(s)
  {
    ForeverIsExact(f, all, s);
    if Walk(f, all, s, {}) == Forever {
      var n, at := WalkRepeats(f, all, s, {});
      var k: nat :| k < n && After(f, s, k) == GoOn(at);
      FirstRepeat(f, s, k, n - k, at);
    }
    if d: nat :| d > 0 && After(f, s, d) == GoOn(s) {
      forall m: nat ensures After(f, s, m).GoOn? {
        var far := Circles(f, s, 0, d, s, m);
        StillGoing(f, s, m, far);
      }
    }
  }

  /** Where a loop stops, it stops once. */
  lemma {:induction false} StopsOnce(f: Station -> Turn, s: Station, m: nat, n: nat, p: Place, q: Place)
    requires After(f, s, m) == Stop(p) && After(f, s, n) == Stop(q)
    ensures p == q
  {
    if m <= n {
      AfterSplit(f, s, m, n - m);
    } else {
      AfterSplit(f, s, n, m - n);
    }
  }
}
