/** The score loop and the ordering of matches (backend/internal/processor/engine.go, `Process`). */
module MatchRanking {
  import opened Wrappers
  import opened MatchScoring
  import opened ScanLifecycle
  import opened ScoreRounding

  // ---------- the order ----------

  /** Percentage descending, a missing distance last, distance ascending, job ID. */
  predicate Before(l: Match, r: Match) {
    if l.score.percent != r.score.percent then l.score.percent > r.score.percent
    else if l.score.distance.None? && r.score.distance.Some? then false
    else if l.score.distance.Some? && r.score.distance.None? then true
    else if l.score.distance.Some? && r.score.distance.Some? && l.score.distance != r.score.distance then
      l.score.distance.value < r.score.distance.value
    else l.job < r.job
  }

  /** A strict order, total on matches of different jobs. */
  lemma BeforeIsStrictAndTotal(l: Match, m: Match, r: Match)
    ensures !Before(l, l)
    ensures Before(l, m) && Before(m, r) ==> Before(l, r)
    ensures l.job != r.job ==> (Before(l, r) <==> !Before(r, l))
  {
  }

  predicate Ordered(ms: seq<Match>) {
    forall i, j :: 0 <= i < j < |ms| ==> Before(ms[i], ms[j])
  }

  predicate DistinctJobs(ms: seq<Match>) {
    forall i, j :: 0 <= i < j < |ms| ==> ms[i].job != ms[j].job
  }

  /** What a reader of the ranking sees. */
  lemma OrderedReads(ms: seq<Match>, i: nat, j: nat)
    requires Ordered(ms) && i < j < |ms|
    ensures ms[i].score.percent >= ms[j].score.percent
    ensures ms[i].score.percent == ms[j].score.percent ==>
              && (ms[i].score.distance.None? ==> ms[j].score.distance.None?)
              && (ms[j].score.distance.Some? ==> ms[i].score.distance.value <= ms[j].score.distance.value)
              && (ms[i].score.distance == ms[j].score.distance ==> ms[i].job < ms[j].job)
  {
    assert Before(ms[i], ms[j]);
  }

  lemma FirstIsLeast(x: seq<Match>, m: Match)
    requires Ordered(x) && m in x
    ensures m == x[0] || Before(x[0], m)
  {
    var i :| 0 <= i < |x| && x[i] == m;
  }

  lemma SameFirst(x: seq<Match>, y: seq<Match>)
    requires Ordered(x) && Ordered(y) && x != [] && y != [] && y[0] in x && x[0] in y
    ensures x[0] == y[0]
  {
    FirstIsLeast(x, y[0]);
    FirstIsLeast(y, x[0]);
    BeforeIsStrictAndTotal(x[0], y[0], x[0]);
  }

  lemma Cancel<T>(a: multiset<T>, b: multiset<T>, x: T)
    requires a + multiset{x} == b + multiset{x}
    ensures a == b
  {
    assert a == a + multiset{x} - multiset{x};
    assert b == b + multiset{x} - multiset{x};
  }

  lemma HeadBag<T>(xs: seq<T>)
    requires xs != []
    ensures multiset(xs) == multiset(xs[1..]) + multiset{xs[0]}
  {
    assert xs == [xs[0]] + xs[1..];
  }

  /** There is one ordered arrangement of a given bag of matches. */
  lemma {:induction false} OrderIsUnique(x: seq<Match>, y: seq<Match>)
    requires Ordered(x) && Ordered(y) && multiset(x) == multiset(y)
    ensures x == y
    decreases |x|
  {
    if x == [] {
      assert |multiset(y)| == 0;
    } else {
      assert x[0] in multiset(y) && y != [];
      assert y[0] in multiset(x);
      SameFirst(x, y);
      HeadBag(x);
      HeadBag(y);
      Cancel(multiset(x[1..]), multiset(y[1..]), x[0]);
      OrderIsUnique(x[1..], y[1..]);
      assert x == [x[0]] + x[1..] && y == [y[0]] + y[1..];
    }
  }

  // ---------- sorting ----------

  /** The stable sort of the matches, by insertion. */
  method SortMatches(matches: seq<Match>) returns (sorted: seq<Match>)
    requires DistinctJobs(matches)
    ensures Ordered(sorted) && multiset(sorted) == multiset(matches)
  {
    sorted := [];
    for i := 0 to |matches|
      invariant Ordered(sorted) && multiset(sorted) == multiset(matches[..i])
    {
      var m := matches[i];
      assert matches[..i + 1] == matches[..i] + [m];
      JobIsNew(matches, i, sorted);
      var k := |sorted|;
      while k > 0 && Before(m, sorted[k - 1])
        invariant 0 <= k <= |sorted|
        invariant forall j :: k <= j < |sorted| ==> Before(m, sorted[j])
      {
        k := k - 1;
      }
      InsertKeepsOrder(sorted, k, m);
      assert sorted == sorted[..k] + sorted[k..];
      sorted := sorted[..k] + [m] + sorted[k..];
    }
    assert matches[..|matches|] == matches;
  }

  lemma JobIsNew(matches: seq<Match>, i: nat, sorted: seq<Match>)
    requires DistinctJobs(matches) && i < |matches| && multiset(sorted) == multiset(matches[..i])
    ensures forall j :: 0 <= j < |sorted| ==> sorted[j].job != matches[i].job
  {
    forall j | 0 <= j < |sorted| ensures sorted[j].job != matches[i].job {
      assert sorted[j] in multiset(sorted);
      assert sorted[j] in matches[..i];
    }
  }

  lemma InsertKeepsOrder(sorted: seq<Match>, k: nat, m: Match)
    requires k <= |sorted| && Ordered(sorted) && (forall j :: k <= j < |sorted| ==> Before(m, sorted[j]))
    requires k > 0 ==> !Before(m, sorted[k - 1])
    requires forall j :: 0 <= j < |sorted| ==> sorted[j].job != m.job
    ensures Ordered(sorted[..k] + [m] + sorted[k..])
  {
    forall j | 0 <= j < k ensures Before(sorted[j], m) {
      BeforeIsStrictAndTotal(sorted[j], sorted[k - 1], m);
    }
  }

  // ---------- the processor ----------

  function Scored(r: Rules, p: Profile, c: Candidate): Match {
    Match(c.id, Rounded(Points(r, p, c), c.distance))
  }

  function AllScored(r: Rules, p: Profile, cs: seq<Candidate>): seq<Match> {
    seq(|cs|, i requires 0 <= i < |cs| => Scored(r, p, cs[i]))
  }

  predicate AllScorable(r: Rules, p: Profile, cs: seq<Candidate>) {
    forall i :: 0 <= i < |cs| ==> Scorable(r, p, cs[i])
  }

  predicate DistinctIDs(cs: seq<Candidate>) {
    forall i, j :: 0 <= i < j < |cs| ==> cs[i].id != cs[j].id
  }

  /** The candidates scored and put in order; one candidate that cannot be scored fails them all. */
  method RankCandidates(r: Rules, p: Profile, cs: seq<Candidate>) returns (result: Result<seq<Match>, ScoreError>)
    requires DistinctIDs(cs)
    ensures result.Ok? <==> AllScorable(r, p, cs)
    ensures result.Ok? ==> Ordered(result.value) && multiset(result.value) == multiset(AllScored(r, p, cs))
  {
    var matches := [];
    for i := 0 to |cs|
      invariant matches == AllScored(r, p, cs[..i]) && AllScorable(r, p, cs[..i])
    {
      var score := ScoreCandidate(r, p, cs[i]);
      assert cs[..i + 1] == cs[..i] + [cs[i]];
      if score.Err? {
        return Err(score.error);
      }
      matches := matches + [score.value];
    }
    assert cs[..|cs|] == cs;
    var sorted := SortMatches(matches);
    return Ok(sorted);
  }

  /** The ranking does not depend on the order in which the candidates come. */
  lemma RankingIgnoresCandidateOrder(r: Rules, p: Profile, cs: seq<Candidate>, cs': seq<Candidate>, x: seq<Match>, y: seq<Match>)
    requires multiset(cs) == multiset(cs')
    requires Ordered(x) && multiset(x) == multiset(AllScored(r, p, cs))
    requires Ordered(y) && multiset(y) == multiset(AllScored(r, p, cs'))
    ensures x == y
  {
    ScoredBag(r, p, cs, cs');
    OrderIsUnique(x, y);
  }

  lemma ScoredBag(r: Rules, p: Profile, cs: seq<Candidate>, cs': seq<Candidate>)
    requires multiset(cs) == multiset(cs')
    ensures multiset(AllScored(r, p, cs)) == multiset(AllScored(r, p, cs'))
  {
    var score := (c: Candidate) => Scored(r, p, c);
    assert AllScored(r, p, cs) == Mapped(score, cs) && AllScored(r, p, cs') == Mapped(score, cs');
    SameBagMapped(score, cs, cs');
  }

  function Mapped<T, U>(f: T -> U, xs: seq<T>): seq<U> {
    seq(|xs|, i requires 0 <= i < |xs| => f(xs[i]))
  }

  function Without<T>(xs: seq<T>, k: nat): seq<T>
    requires k < |xs|
  {
    xs[..k] + xs[k + 1..]
  }

  lemma BagWithout<T>(xs: seq<T>, k: nat)
    requires k < |xs|
    ensures multiset(xs) == multiset(Without(xs, k)) + multiset{xs[k]}
  {
    assert xs == xs[..k] + [xs[k]] + xs[k + 1..];
  }

  lemma MappedBagWithout<T, U>(f: T -> U, xs: seq<T>, k: nat)
    requires k < |xs|
    ensures multiset(Mapped(f, xs)) == multiset(Mapped(f, Without(xs, k))) + multiset{f(xs[k])}
  {
    assert Without(Mapped(f, xs), k) == Mapped(f, Without(xs, k));
    BagWithout(Mapped(f, xs), k);
  }

  lemma {:induction false} SameBagMapped<T, U>(f: T -> U, xs: seq<T>, ys: seq<T>)
    requires multiset(xs) == multiset(ys)
    ensures multiset(Mapped(f, xs)) == multiset(Mapped(f, ys))
    decreases |xs|
  {
    if xs == [] {
      assert |multiset(ys)| == 0;
    } else {
      assert xs[0] in multiset(ys);
      var k :| 0 <= k < |ys| && ys[k] == xs[0];
      BagWithout(xs, 0);
      BagWithout(ys, k);
      Cancel(multiset(Without(xs, 0)), multiset(Without(ys, k)), xs[0]);
      SameBagMapped(f, Without(xs, 0), Without(ys, k));
      MappedBagWithout(f, xs, 0);
      MappedBagWithout(f, ys, k);
    }
  }

  // ---------- publishing ----------

  /**
   The ranking of a PARSING scan is published exactly when the remainders of
   its counts cancel for every candidate: one that the table refuses keeps the
   whole scan from completing.
   */
  lemma PublishedExactlyWhenAllRemaindersCancel(r: Rules, p: Profile, cs: seq<Candidate>, ms: seq<Match>, t: Tables, scan: nat, profile: nat)
    requires AllScorable(r, p, cs) && DistinctIDs(cs)
    requires multiset(ms) == multiset(AllScored(r, p, cs))
    requires forall i :: 0 <= i < |cs| ==> cs[i].id in t.jobs && (cs[i].distance.Some? ==> cs[i].distance.value >= 0)
    requires scan in t.scans && t.scans[scan].status == Parsing && MatchesOf(t, scan) == map[]
    ensures ScanCompleted(t, scan, profile, ms).Ok? <==> forall i :: 0 <= i < |cs| ==> RemaindersCancel(CountsOf(r, p, cs[i]))
  {
    var all := AllScored(r, p, cs);
    InsertedExactly(t.jobs, map[], ms);
    AcceptedAsBag(t.jobs, all, ms);
    forall i | 0 <= i < |cs| ensures ScoreChecks(all[i].score) <==> RemaindersCancel(CountsOf(r, p, cs[i])) {
      AcceptedExactlyWhenRemaindersCancel(r, p, cs[i]);
    }
  }

  /** Whether the table takes a list of known, different jobs depends on the scores alone, and not on their order. */
  lemma AcceptedAsBag(jobs: set<nat>, all: seq<Match>, ms: seq<Match>)
    requires multiset(ms) == multiset(all) && DistinctJobs(all) && forall i :: 0 <= i < |all| ==> all[i].job in jobs
    ensures ListAccepted(jobs, map[], ms) <==> forall i :: 0 <= i < |all| ==> ScoreChecks(all[i].score)
  {
    JobsStayDistinct(all, ms);
    forall k | 0 <= k < |ms| ensures ms[k] in all {
      assert ms[k] in multiset(all);
    }
    forall i | 0 <= i < |all| ensures all[i] in ms {
      assert all[i] in multiset(ms);
    }
  }

  /** A bag of matches with different jobs has them in any arrangement. */
  lemma {:induction false} JobsStayDistinct(x: seq<Match>, y: seq<Match>)
    requires DistinctJobs(x) && multiset(x) == multiset(y)
    ensures DistinctJobs(y)
  {
    forall i, j | 0 <= i < j < |y| ensures y[i].job != y[j].job {
      assert y[i] in multiset(y) && y[j] in multiset(y);
      var a :| 0 <= a < |x| && x[a] == y[i];
      var b :| 0 <= b < |x| && x[b] == y[j];
      if a == b { OccursTwice(y, i, j); OccursOnce(x, a); }
    }
  }

  lemma OccursTwice(y: seq<Match>, i: nat, j: nat)
    requires i < j < |y| && y[i] == y[j]
    ensures multiset(y)[y[i]] >= 2
  {
    assert y == y[..i] + [y[i]] + y[i + 1..j] + [y[j]] + y[j + 1..];
  }

  lemma OccursOnce(x: seq<Match>, a: nat)
    requires DistinctJobs(x) && a < |x|
    ensures multiset(x)[x[a]] == 1
  {
    assert x == x[..a] + [x[a]] + x[a + 1..];
    assert x[a] !in x[..a] && x[a] !in x[a + 1..];
  }
}
