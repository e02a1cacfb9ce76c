/** The matcher shared by the file search and the camera search: a nested
    scan over the probe's face encodings (outer) and the registered persons
    (inner) that keeps the pair with the smallest distance strictly below the
    tolerance, the first such pair in scan order winning ties; and the
    confidence score derived from the winning distance.

    The face-distance computation is a foreign floating-point call; it is the
    parameter `dist`, applied as `dist(known, probe)`. */
module Matcher {
  import opened Records

  /** FACIAL_TOLERANCE. */
  const Tolerance: real := 0.6

  type Distance = (Encoding, Encoding) -> real

  /** A winning pair: index into the probe encodings, index into the
      registry snapshot, and the distance between the two. */
  datatype Hit = Hit(query: nat, person: nat, distance: real)

  /** A person is compared only when its stored encoding is present and
      non-empty (`if not person.get('face_encoding'): continue`). */
  predicate Comparable(p: Person) {
    p.encoding.Some? && |p.encoding.value| > 0
  }

  function PairDistance(queries: seq<Encoding>, persons: seq<Person>, dist: Distance, q: nat, p: nat): real
    requires q < |queries| && p < |persons| && Comparable(persons[p])
  {
    dist(persons[p].encoding.value, queries[q])
  }

  /** The pair (q, p) is a candidate match: a comparable person whose
      distance to probe encoding q is strictly below the tolerance. */
  predicate WithinTolerance(queries: seq<Encoding>, persons: seq<Person>, dist: Distance, q: nat, p: nat) {
    q < |queries| && p < |persons| && Comparable(persons[p])
    && PairDistance(queries, persons, dist, q, p) < Tolerance
  }

  /** Scan order: probe encodings outer, persons inner. */
  predicate Before(q1: nat, p1: nat, q2: nat, p2: nat) {
    q1 < q2 || (q1 == q2 && p1 < p2)
  }

  ghost predicate AnyWithinTolerance(queries: seq<Encoding>, persons: seq<Person>, dist: Distance) {
    exists q: nat, p: nat :: WithinTolerance(queries, persons, dist, q, p)
  }

  /** The declarative specification of the winner: a candidate whose distance
      is minimal over ALL candidates (every probe encoding, every person), and
      strictly smaller than that of every candidate earlier in scan order. */
  ghost predicate IsBestMatch(queries: seq<Encoding>, persons: seq<Person>, dist: Distance, h: Hit) {
    && WithinTolerance(queries, persons, dist, h.query, h.person)
    && h.distance == PairDistance(queries, persons, dist, h.query, h.person)
    && (forall q: nat, p: nat :: WithinTolerance(queries, persons, dist, q, p) ==>
          h.distance <= PairDistance(queries, persons, dist, q, p))
    && (forall q: nat, p: nat :: WithinTolerance(queries, persons, dist, q, p) && Before(q, p, h.query, h.person) ==>
          h.distance < PairDistance(queries, persons, dist, q, p))
  }

  /** One iteration of the inner loop body: replace the current best only on
      a strictly smaller in-tolerance distance. */
  function Step(queries: seq<Encoding>, persons: seq<Person>, dist: Distance, best: Option<Hit>, q: nat, p: nat): Option<Hit>
    requires q < |queries| && p < |persons|
  {
    if Comparable(persons[p]) then
      var d := PairDistance(queries, persons, dist, q, p);
      if d < Tolerance && (best.None? || d < best.value.distance) then Some(Hit(q, p, d)) else best
    else best
  }

  /** The inner loop over the first j persons for probe encoding q. */
  function ScanPersons(queries: seq<Encoding>, persons: seq<Person>, dist: Distance, q: nat, j: nat, best: Option<Hit>): Option<Hit>
    requires q < |queries| && j <= |persons|
  {
    if j == 0 then best
    else Step(queries, persons, dist, ScanPersons(queries, persons, dist, q, j - 1, best), q, j - 1)
  }

  /** The outer loop over the first i probe encodings, starting with no match. */
  function ScanQueries(queries: seq<Encoding>, persons: seq<Person>, dist: Distance, i: nat): Option<Hit>
    requires i <= |queries|
  {
    if i == 0 then None
    else ScanPersons(queries, persons, dist, i - 1, |persons|, ScanQueries(queries, persons, dist, i - 1))
  }

  /** `best` correctly summarises every pair scanned before (q, j). */
  ghost predicate Summarizes(queries: seq<Encoding>, persons: seq<Person>, dist: Distance, best: Option<Hit>, q: nat, j: nat) {
    && (best.None? <==>
          forall q': nat, p': nat :: Before(q', p', q, j) ==> !WithinTolerance(queries, persons, dist, q', p'))
    && (best.Some? ==>
          var h := best.value;
          && Before(h.query, h.person, q, j)
          && WithinTolerance(queries, persons, dist, h.query, h.person)
          && h.distance == PairDistance(queries, persons, dist, h.query, h.person)
          && (forall q': nat, p': nat :: Before(q', p', q, j) && WithinTolerance(queries, persons, dist, q', p') ==>
                h.distance <= PairDistance(queries, persons, dist, q', p'))
          && (forall q': nat, p': nat ::
                (Before(q', p', q, j) && WithinTolerance(queries, persons, dist, q', p')
                 && Before(q', p', h.query, h.person)) ==>
                h.distance < PairDistance(queries, persons, dist, q', p')))
  }

  lemma StepSummarizes(queries: seq<Encoding>, persons: seq<Person>, dist: Distance, best: Option<Hit>, q: nat, j: nat)
    requires q < |queries| && j < |persons|
    requires Summarizes(queries, persons, dist, best, q, j)
    ensures Summarizes(queries, persons, dist, Step(queries, persons, dist, best, q, j), q, j + 1)
  {
    var next := Step(queries, persons, dist, best, q, j);
    forall q': nat, p': nat | Before(q', p', q, j + 1)
      ensures Before(q', p', q, j) || (q' == q && p' == j)
    {
    }
    if next != best {
      var d := PairDistance(queries, persons, dist, q, j);
      assert next == Some(Hit(q, j, d));
      assert WithinTolerance(queries, persons, dist, q, j) && Before(q, j, q, j + 1);
      forall q': nat, p': nat | Before(q', p', q, j + 1) && WithinTolerance(queries, persons, dist, q', p')
        ensures d <= PairDistance(queries, persons, dist, q', p')
        ensures Before(q', p', q, j) ==> d < PairDistance(queries, persons, dist, q', p')
      {
        if Before(q', p', q, j) {
          assert best.Some?;
        }
      }
    } else if WithinTolerance(queries, persons, dist, q, j) {
      assert best.Some?;
    }
  }

  lemma {:induction false} ScanPersonsSummarizes(queries: seq<Encoding>, persons: seq<Person>, dist: Distance, q: nat, j: nat, best: Option<Hit>)
    requires q < |queries| && j <= |persons|
    requires Summarizes(queries, persons, dist, best, q, 0)
    ensures Summarizes(queries, persons, dist, ScanPersons(queries, persons, dist, q, j, best), q, j)
  {
    if j > 0 {
      ScanPersonsSummarizes(queries, persons, dist, q, j - 1, best);
      StepSummarizes(queries, persons, dist, ScanPersons(queries, persons, dist, q, j - 1, best), q, j - 1);
    }
  }

  /** Having scanned all persons for probe q is the same as standing at the
      start of probe q + 1. */
  lemma EndOfRow(queries: seq<Encoding>, persons: seq<Person>, dist: Distance, best: Option<Hit>, q: nat)
    requires Summarizes(queries, persons, dist, best, q, |persons|)
    ensures Summarizes(queries, persons, dist, best, q + 1, 0)
  {
  }

  lemma {:induction false} ScanQueriesSummarizes(queries: seq<Encoding>, persons: seq<Person>, dist: Distance, i: nat)
    requires i <= |queries|
    ensures Summarizes(queries, persons, dist, ScanQueries(queries, persons, dist, i), i, 0)
  {
    if i > 0 {
      var prev := ScanQueries(queries, persons, dist, i - 1);
      ScanQueriesSummarizes(queries, persons, dist, i - 1);
      ScanPersonsSummarizes(queries, persons, dist, i - 1, |persons|, prev);
      EndOfRow(queries, persons, dist, ScanPersons(queries, persons, dist, i - 1, |persons|, prev), i - 1);
    }
  }

  lemma FullScanCharacterized(queries: seq<Encoding>, persons: seq<Person>, dist: Distance)
    ensures var r := ScanQueries(queries, persons, dist, |queries|);
            && (r.None? <==> !AnyWithinTolerance(queries, persons, dist))
            && (r.Some? ==> IsBestMatch(queries, persons, dist, r.value))
  {
    ScanQueriesSummarizes(queries, persons, dist, |queries|);
    forall q: nat, p: nat | WithinTolerance(queries, persons, dist, q, p)
      ensures Before(q, p, |queries|, 0)
    {
    }
  }

  /** The result of the whole scan, characterised by the argmin-under-tolerance
      specification: no match exactly when no pair is within tolerance, and
      otherwise the first minimal pair. */
  function BestMatch(queries: seq<Encoding>, persons: seq<Person>, dist: Distance): (r: Option<Hit>)
    ensures r.None? <==> !AnyWithinTolerance(queries, persons, dist)
    ensures r.Some? ==> IsBestMatch(queries, persons, dist, r.value)
  {
    FullScanCharacterized(queries, persons, dist);
    ScanQueries(queries, persons, dist, |queries|)
  }

  /** The nested loops of `search_person` and `camera_search`. */
  method FindBestMatch(queries: seq<Encoding>, persons: seq<Person>, dist: Distance) returns (best: Option<Hit>)
    ensures best == BestMatch(queries, persons, dist)
    ensures best.Some? ==> best.value.person < |persons| && Comparable(persons[best.value.person])
    ensures best.Some? ==> best.value.distance < Tolerance
  {
    best := None;
    var q := 0;
    while q < |queries|
      invariant q <= |queries|
      invariant best == ScanQueries(queries, persons, dist, q)
    {
      var p := 0;
      while p < |persons|
        invariant p <= |persons|
        invariant best == ScanPersons(queries, persons, dist, q, p, ScanQueries(queries, persons, dist, q))
      {
        var person := persons[p];
        if person.encoding.Some? && |person.encoding.value| > 0 {
          var d := dist(person.encoding.value, queries[q]);
          if d < Tolerance && (best.None? || d < best.value.distance) {
            best := Some(Hit(q, p, d));
          }
        }
        p := p + 1;
      }
      q := q + 1;
    }
  }

  /** The specification picks exactly one pair: ties go to the earlier pair. */
  lemma BestMatchUnique(queries: seq<Encoding>, persons: seq<Person>, dist: Distance, h1: Hit, h2: Hit)
    requires IsBestMatch(queries, persons, dist, h1) && IsBestMatch(queries, persons, dist, h2)
    ensures h1 == h2
  {
  }

  /** Two probe encodings at 0.5 and 0.2 from the only registered person: the
      scan reports the 0.2 pair (best of all, not best of the first probe). */
  lemma TwoProbesPickSmaller(person: Person, e1: Encoding, e2: Encoding)
    requires Comparable(person) && e1 != e2
    ensures var dist := (k: Encoding, q: Encoding) => if q == e1 then 0.5 else 0.2;
            BestMatch([e1, e2], [person], dist) == Some(Hit(1, 0, 0.2))
  {
  }

  /** A distance equal to the tolerance never matches. */
  lemma AtToleranceNoMatch(person: Person, e: Encoding)
    requires Comparable(person)
    ensures BestMatch([e], [person], (k: Encoding, q: Encoding) => Tolerance).None?
  {
  }

  function Max(a: real, b: real): real {
    if a >= b then a else b
  }

  /** `int(max(1, 100 * (1 - d / FACIAL_TOLERANCE)))`: Python's int() truncates,
      and the argument is at least 1, so truncation is the floor. */
  function Score(d: real): (r: int)
    ensures 1 <= r
    ensures 0.0 <= d ==> r <= 100
    ensures d == 0.0 ==> r == 100
    ensures d >= Tolerance ==> r == 1
  {
    Max(1.0, 100.0 * (1.0 - d / Tolerance)).Floor
  }

  /** A smaller distance never gives a smaller score. */
  lemma ScoreMonotone(d1: real, d2: real)
    requires d1 <= d2
    ensures Score(d2) <= Score(d1)
  {
  }

  /** Distance 0.3 scores 50. */
  lemma ScoreAtHalfTolerance()
    ensures Score(0.3) == 50
  {
  }

  /** The score truncates: 100 * (1 - 0.05 / 0.6) = 91.66.. scores 91, not 92. */
  lemma ScoreTruncates()
    ensures Score(0.05) == 91
  {
  }

  /** Near the tolerance the clamp at 1 makes different distances score alike,
      so a smaller distance does not always give a strictly larger score. */
  lemma ScoreNotStrictlyMonotone()
    ensures Score(0.595) == Score(0.599) == 1
  {
  }
}
