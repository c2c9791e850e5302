/** Choosing a free key for a manually added gotcha. */
module GotchaKeys {
  import opened Common

  datatype Lifecycle = Active | OtherState

  datatype Gotcha = Gotcha(rule: string, reason: string, severity: nat, affectedFiles: seq<string>,
    refUrl: Option<string>)

  /** A stored record; the payload is absent when it is not a gotcha. */
  datatype Record = Record(lifecycle: Lifecycle, payload: Option<Gotcha>)

  datatype Choice = Chosen(key: string) | AlreadyThere(key: string)

  predicate Matches(r: Record, g: Gotcha) {
    r.lifecycle == Active && r.payload == Some(g)
  }

  // ----- Decimal suffixes

  function Digit(n: nat): char
    requires n < 10
  {
    ('0' as int + n) as char
  }

  function Decimal(n: nat): (s: string)
    ensures s != []
  {
    if n < 10 then [Digit(n)] else Decimal(n / 10) + [Digit(n % 10)]
  }

  lemma {:induction false} DecimalInjective(m: nat, n: nat)
    requires Decimal(m) == Decimal(n)
    ensures m == n
    decreases m
  {
    var s := Decimal(m);
    assert s[|s| - 1] == Digit(m % 10) == Digit(n % 10);
    if m >= 10 && n >= 10 {
      assert s[..|s| - 1] == Decimal(m / 10) == Decimal(n / 10);
      DecimalInjective(m / 10, n / 10);
    }
  }

  /** The candidate for a suffix; the first one is the bare key. */
  function Candidate(slug: string, suffix: nat): string
    requires suffix >= 1
  {
    if suffix == 1 then "gotcha:" + slug else "gotcha:" + slug + ":" + Decimal(suffix)
  }

  /** Different suffixes give different keys. */
  lemma CandidatesDiffer(slug: string, i: nat, j: nat)
    requires 1 <= i < j
    ensures Candidate(slug, i) != Candidate(slug, j)
  {
    var base := "gotcha:" + slug;
    if i == 1 {
      assert |Candidate(slug, j)| > |base|;
    } else if Candidate(slug, i) == Candidate(slug, j) {
      assert (base + ":" + Decimal(i))[|base| + 1..] == Decimal(i);
      assert (base + ":" + Decimal(j))[|base| + 1..] == Decimal(j);
      DecimalInjective(i, j);
    }
  }

  ghost function Probed(slug: string, n: nat): set<string> {
    if n == 0 then {} else Probed(slug, n - 1) + {Candidate(slug, n)}
  }

  lemma {:induction false} ProbedSuffix(slug: string, n: nat, k: string) returns (i: nat)
    requires k in Probed(slug, n)
    ensures 1 <= i < n + 1 && k == Candidate(slug, i)
    decreases n
  {
    if k == Candidate(slug, n) {
      i := n;
    } else {
      i := ProbedSuffix(slug, n - 1, k);
    }
  }

  lemma {:induction false} ProbedSize(slug: string, n: nat)
    ensures |Probed(slug, n)| == n
  {
    if n == 0 {
    } else {
      ProbedSize(slug, n - 1);
      if Candidate(slug, n) in Probed(slug, n - 1) {
        var i := ProbedSuffix(slug, n - 1, Candidate(slug, n));
        CandidatesDiffer(slug, i, n);
      }
    }
  }

  /** The candidate with this suffix is taken by something other than the gotcha to add. */
  predicate Occupied(store: map<string, Record>, slug: string, g: Gotcha, i: nat)
    requires i >= 1
  {
    Candidate(slug, i) in store && !Matches(store[Candidate(slug, i)], g)
  }

  lemma ProbedFit(store: map<string, Record>, slug: string, g: Gotcha, n: nat)
    requires forall i: nat :: 1 <= i < n + 1 ==> Occupied(store, slug, g, i)
    ensures n <= |store|
  {
    ProbedSize(slug, n);
    forall k | k in Probed(slug, n) ensures k in store {
      var i := ProbedSuffix(slug, n, k);
      assert Occupied(store, slug, g, i);
    }
    SubsetSize(Probed(slug, n), store.Keys);
    assert |store.Keys| == |store|;
  }

  /** The search ends on every finite store. It returns the candidate with the smallest free
      suffix, or reports a match, exactly according to which of the two comes first. */
  method ChooseKey(store: map<string, Record>, slug: string, g: Gotcha) returns (r: Choice, suffix: nat)
    ensures 1 <= suffix <= |store| + 1 && r.key == Candidate(slug, suffix)
    ensures forall i: nat :: 1 <= i < suffix ==> Occupied(store, slug, g, i)
    ensures r.Chosen? <==> Candidate(slug, suffix) !in store
    ensures r.AlreadyThere? <==> Candidate(slug, suffix) in store && Matches(store[Candidate(slug, suffix)], g)
  {
    suffix := 1;
    while true
      invariant 1 <= suffix
      invariant forall i: nat :: 1 <= i < suffix ==> Occupied(store, slug, g, i)
      decreases |store| + 1 - suffix
    {
      ProbedFit(store, slug, g, suffix - 1);
      var key := Candidate(slug, suffix);
      if key !in store {
        return Chosen(key), suffix;
      }
      if Matches(store[key], g) {
        return AlreadyThere(key), suffix;
      }
      suffix := suffix + 1;
    }
  }

  ghost predicate MatchesAt(store: map<string, Record>, slug: string, g: Gotcha, n: nat) {
    n >= 1 && Candidate(slug, n) in store && Matches(store[Candidate(slug, n)], g)
  }

  /** Some active record that matches is met before any free suffix. */
  ghost predicate MatchFirst(store: map<string, Record>, slug: string, g: Gotcha) {
    exists n: nat :: MatchesAt(store, slug, g, n) && forall i: nat :: 1 <= i < n ==> Candidate(slug, i) in store
  }

  /** The outcome is determined: the search fails exactly when a matching active record is met
      before any free suffix, and otherwise the chosen key is unused and has the smallest free
      suffix. */
  lemma OutcomeIsDetermined(store: map<string, Record>, slug: string, g: Gotcha, r: Choice, suffix: nat)
    requires suffix >= 1 && r.key == Candidate(slug, suffix)
    requires forall i: nat :: 1 <= i < suffix ==> Occupied(store, slug, g, i)
    requires r.Chosen? <==> Candidate(slug, suffix) !in store
    requires r.AlreadyThere? <==> Candidate(slug, suffix) in store && Matches(store[Candidate(slug, suffix)], g)
    ensures r.AlreadyThere? <==> MatchFirst(store, slug, g)
    ensures r.Chosen? ==> r.key !in store && forall i: nat :: 1 <= i < suffix ==> Candidate(slug, i) in store
  {
    forall i: nat | 1 <= i < suffix
      ensures Candidate(slug, i) in store && !Matches(store[Candidate(slug, i)], g)
    {
      assert Occupied(store, slug, g, i);
    }
    if r.AlreadyThere? {
      assert MatchesAt(store, slug, g, suffix);
    }
    if MatchFirst(store, slug, g) {
      var n: nat :| MatchesAt(store, slug, g, n) && forall i: nat :: 1 <= i < n ==> Candidate(slug, i) in store;
      assert !(n < suffix);
    }
  }

  // ----- Keys and matches in plain words

  /** The number that a string of digits stands for. */
  function Value(s: string): nat {
    if s == [] then 0
    else
      var c := s[|s| - 1];
      10 * Value(s[..|s| - 1]) + if '0' <= c <= '9' then c as int - '0' as int else 0
  }

  /** A suffix is written in digits, without a leading zero. */
  lemma {:induction false} DecimalMeans(n: nat)
    ensures Value(Decimal(n)) == n && forall c :: c in Decimal(n) ==> '0' <= c <= '9'
    ensures n > 0 ==> Decimal(n)[0] != '0'
    decreases n
  {
    if n < 10 {
      assert [Digit(n)][..0] == [];
      assert Value([]) == 0;
    } else {
      DecimalMeans(n / 10);
      assert Decimal(n)[..|Decimal(n)| - 1] == Decimal(n / 10);
    }
  }

  /** The first candidate is the bare key, the others carry their number behind a colon. */
  lemma CandidateMeans(slug: string, suffix: nat)
    requires suffix >= 2
    ensures Candidate(slug, 1) == "gotcha:" + slug
    ensures Candidate(slug, suffix) == Candidate(slug, 1) + ":" + Decimal(suffix)
  {
  }

  /** A record matches when it is active and its gotcha agrees in all five fields. */
  lemma MatchMeans(r: Record, g: Gotcha)
    ensures Matches(r, g) <==>
      && r.lifecycle == Active && r.payload.Some?
      && r.payload.value.rule == g.rule && r.payload.value.reason == g.reason && r.payload.value.severity == g.severity
      && r.payload.value.affectedFiles == g.affectedFiles && r.payload.value.refUrl == g.refUrl
  {
  }
}
