/** How `getClass` ranks the candidates of one class (DatabaseMatcher2.java lines 280-369),
    with `getBestCandidates` (lines 400-413) and `filterVersions` (lines 380-398). */
module Ranking {
  import opened Wrappers
  import opened Dex

  // ---------------------------------------------------------------------------
  // getBestCandidates: the max-score fold

  /** A candidate's score: how many binary methods it binds. */
  function Score(c: Candidate): nat {
    |c.classPathMethod|
  }

  /** The larger of `hi` and every score in `cands`. */
  function MaxScore(hi: nat, cands: seq<Candidate>): (m: nat)
    ensures m >= hi
  {
    if cands == [] then hi
    else
      var m0 := MaxScore(hi, cands[..|cands| - 1]);
      var s := Score(cands[|cands| - 1]);
      if s > m0 then s else m0
  }

  /** The candidates of `cands` scoring `m`, in encounter order. */
  function OfScore(cands: seq<Candidate>, m: nat): seq<Candidate> {
    if cands == [] then []
    else
      var c := cands[|cands| - 1];
      OfScore(cands[..|cands| - 1], m) + (if Score(c) == m then [c] else [])
  }

  /** The maximum bounds every score and is reached unless it is `hi`. */
  lemma {:induction false} MaxScoreIsMax(hi: nat, cands: seq<Candidate>)
    ensures forall i :: 0 <= i < |cands| ==> Score(cands[i]) <= MaxScore(hi, cands)
    ensures MaxScore(hi, cands) == hi || exists i :: 0 <= i < |cands| && Score(cands[i]) == MaxScore(hi, cands)
  {
    if cands != [] {
      var p := cands[..|cands| - 1];
      MaxScoreIsMax(hi, p);
      assert forall i :: 0 <= i < |p| ==> p[i] == cands[i];
    }
  }

  /** `OfScore` keeps exactly the candidates scoring `m`, in order. */
  lemma {:induction false} OfScoreMembers(cands: seq<Candidate>, m: nat)
    ensures forall c :: c in OfScore(cands, m) <==> c in cands && Score(c) == m
  {
    if cands != [] {
      var p := cands[..|cands| - 1];
      OfScoreMembers(p, m);
      assert cands == p + [cands[|cands| - 1]];
    }
  }

  lemma {:induction false} OfScoreAbove(cands: seq<Candidate>, m: nat)
    requires forall i :: 0 <= i < |cands| ==> Score(cands[i]) < m
    ensures OfScore(cands, m) == []
  {
    if cands != [] {
      OfScoreAbove(cands[..|cands| - 1], m);
    }
  }

  lemma {:induction false} OfScoreAppend(a: seq<Candidate>, b: seq<Candidate>, m: nat)
    ensures OfScore(a + b, m) == OfScore(a, m) + OfScore(b, m)
  {
    if b != [] {
      assert (a + b)[..|a + b| - 1] == a + b[..|b| - 1];
      OfScoreAppend(a, b[..|b| - 1], m);
    } else {
      assert a + b == a;
    }
  }

  lemma {:induction false} MaxScoreAppend(hi: nat, a: seq<Candidate>, b: seq<Candidate>)
    ensures MaxScore(hi, a + b) == MaxScore(MaxScore(hi, a), b)
  {
    if b != [] {
      assert (a + b)[..|a + b| - 1] == a + b[..|b| - 1];
      MaxScoreAppend(hi, a, b[..|b| - 1]);
    } else {
      assert a + b == a;
    }
  }

  /** `getBestCandidates`: fold `cands` into the running best list `best` and maximum `hi`. */
  method GetBestCandidates(best: seq<Candidate>, cands: seq<Candidate>, hi: nat)
    returns (best': seq<Candidate>, hi': nat)
    ensures hi' == MaxScore(hi, cands)
    ensures best' == (if hi' == hi then best else []) + OfScore(cands, hi')
  {
    best', hi' := best, hi;
    var i := 0;
    while i < |cands|
      invariant 0 <= i <= |cands|
      invariant hi' == MaxScore(hi, cands[..i])
      invariant best' == (if hi' == hi then best else []) + OfScore(cands[..i], hi')
    {
      var c := cands[i];
      assert cands[..i + 1][..i] == cands[..i];
      if Score(c) > hi' {
        MaxScoreIsMax(hi, cands[..i]);
        OfScoreAbove(cands[..i], Score(c));
        hi' := Score(c);
        best' := [c];
      } else if Score(c) == hi' {
        best' := best' + [c];
      }
      i := i + 1;
    }
    assert cands[..i] == cands;
  }

  /** All candidates of all files, in the order the files are visited. */
  function Flatten(groups: seq<seq<Candidate>>): seq<Candidate> {
    if groups == [] then [] else Flatten(groups[..|groups| - 1]) + groups[|groups| - 1]
  }

  /** Lines 280-284: the fold over every file's candidates leaves exactly the candidates of
      the highest score, in encounter order. */
  method BestAcrossFiles(groups: seq<seq<Candidate>>) returns (best: seq<Candidate>, hi: nat)
    ensures hi == MaxScore(0, Flatten(groups))
    ensures best == OfScore(Flatten(groups), hi)
  {
    best, hi := [], 0;
    var g := 0;
    while g < |groups|
      invariant 0 <= g <= |groups|
      invariant hi == MaxScore(0, Flatten(groups[..g]))
      invariant best == OfScore(Flatten(groups[..g]), hi)
    {
      assert groups[..g + 1][..g] == groups[..g];
      var flat := Flatten(groups[..g]);
      MaxScoreAppend(0, flat, groups[g]);
      OfScoreAppend(flat, groups[g], MaxScore(hi, groups[g]));
      if MaxScore(hi, groups[g]) != hi {
        MaxScoreIsMax(0, flat);
        OfScoreAbove(flat, MaxScore(hi, groups[g]));
      }
      best, hi := GetBestCandidates(best, groups[g], hi);
      g := g + 1;
    }
    assert groups[..g] == groups;
  }

  // ---------------------------------------------------------------------------
  // filterVersions

  /** Whether `s` carries one of the versions `vs`; a null array carries none. */
  predicate SharesVersion(s: Sig, vs: set<string>) {
    s.versions.Some? && exists v :: v in vs && v in s.versions.value
  }

  /** The signatures of `cands` carrying one of `vs`, in order. */
  function Sharing(cands: seq<Sig>, vs: set<string>): seq<Sig> {
    if cands == [] then []
    else
      var s := cands[|cands| - 1];
      Sharing(cands[..|cands| - 1], vs) + (if SharesVersion(s, vs) then [s] else [])
  }

  predicate HasNullVersions(cands: seq<Sig>) {
    exists i :: 0 <= i < |cands| && cands[i].versions.None?
  }

  /** What `filterVersions` answers: the input for a null set, and also when a null version
      array is reached while the set is non-empty; otherwise the sharing candidates. */
  function VersionFiltered(cands: seq<Sig>, versions: Option<set<string>>): seq<Sig> {
    if versions.None? then cands
    else if versions.value != {} && HasNullVersions(cands) then cands
    else Sharing(cands, versions.value)
  }

  method FilterVersions(cands: seq<Sig>, versions: Option<set<string>>) returns (r: seq<Sig>)
    ensures r == VersionFiltered(cands, versions)
  {
    if versions.None? {
      return cands;
    }
    var vs := versions.value;
    r := [];
    var i := 0;
    while i < |cands|
      invariant 0 <= i <= |cands|
      invariant r == Sharing(cands[..i], vs)
      invariant vs != {} ==> !HasNullVersions(cands[..i])
    {
      var c := cands[i];
      var isNull, shares := Carries(c, vs);
      if isNull {
        assert HasNullVersions(cands) by { assert cands[i] == c; }
        return cands;
      }
      assert cands[..i + 1][..i] == cands[..i];
      if shares {
        r := r + [c];
      }
      assert vs != {} ==> !HasNullVersions(cands[..i + 1]) by {
        if vs != {} {
          var q := cands[..i + 1];
          forall j | 0 <= j < |q| ensures q[j].versions.Some? {
            if j < i {
              assert q[j] == cands[..i][j];
            }
          }
        }
      }
      i := i + 1;
    }
    assert cands[..i] == cands;
  }

  /** The inner loop of lines 386-395 for one candidate: whether its array is null while a
      version remains to be looked up, and whether it carries one of the versions. */
  method Carries(c: Sig, vs: set<string>) returns (isNull: bool, shares: bool)
    ensures isNull <==> vs != {} && c.versions.None?
    ensures shares <==> SharesVersion(c, vs)
  {
    var rest := vs;
    isNull, shares := false, false;
    while rest != {} && !shares
      invariant rest <= vs
      invariant rest != vs ==> c.versions.Some?
      invariant shares <==> SharesVersion(c, vs - rest)
      decreases |rest|
    {
      var v :| v in rest;
      if c.versions.None? {
        return true, false;
      }
      if v in c.versions.value {
        shares := true;
      }
      rest := rest - {v};
    }
    if !shares {
      assert vs - rest == vs;
    }
  }

  /** `Sharing` keeps exactly the signatures carrying one of the versions, in order. */
  lemma {:induction false} SharingMembers(cands: seq<Sig>, vs: set<string>)
    ensures |Sharing(cands, vs)| <= |cands|
    ensures forall s :: s in Sharing(cands, vs) <==> s in cands && SharesVersion(s, vs)
  {
    if cands != [] {
      var p := cands[..|cands| - 1];
      SharingMembers(p, vs);
      assert cands == p + [cands[|cands| - 1]];
    }
  }

  /** An empty version set keeps nothing. */
  lemma {:induction false} EmptyVersionSetKeepsNothing(cands: seq<Sig>)
    ensures VersionFiltered(cands, Some({})) == []
  {
    if cands != [] {
      EmptyVersionSetKeepsNothing(cands[..|cands| - 1]);
    }
  }

  // ---------------------------------------------------------------------------
  // The tie-break on method counts (lines 294-321)

  /** The version keys one signature is counted under: its tags, or "all" for none. */
  function Tags(s: Sig): seq<string> {
    if s.versions.None? then ["all"] else s.versions.value
  }

  function AllTags(sigs: seq<Sig>): seq<string> {
    if sigs == [] then [] else AllTags(sigs[..|sigs| - 1]) + Tags(sigs[|sigs| - 1])
  }

  /** `FileMatches.increment`: one more occurrence of `v`. */
  function Inc(counts: map<string, nat>, v: string): map<string, nat> {
    counts[v := (if v in counts then counts[v] else 0) + 1]
  }

  /** The counter map after incrementing every key of `xs` in turn. */
  function CountsOf(xs: seq<string>): map<string, nat> {
    if xs == [] then map[] else Inc(CountsOf(xs[..|xs| - 1]), xs[|xs| - 1])
  }

  /** The counters hold exactly the keys of `xs`, each with its number of occurrences. */
  lemma {:induction false} CountsOfIsMultiset(xs: seq<string>)
    ensures forall v :: v in CountsOf(xs) <==> v in xs
    ensures forall v :: v in CountsOf(xs) ==> CountsOf(xs)[v] == multiset(xs)[v]
  {
    if xs != [] {
      var p, x := xs[..|xs| - 1], xs[|xs| - 1];
      CountsOfIsMultiset(p);
      assert xs == p + [x];
      assert multiset(xs) == multiset(p) + multiset{x};
    }
  }

  /** `methodCountPerVersion` (lines 297-310): for each version key, how many signatures of
      the class carry it. */
  method CountPerVersion(sigs: seq<Sig>) returns (counts: map<string, nat>)
    ensures counts == CountsOf(AllTags(sigs))
  {
    counts := map[];
    var i := 0;
    while i < |sigs|
      invariant 0 <= i <= |sigs|
      invariant counts == CountsOf(AllTags(sigs[..i]))
    {
      assert sigs[..i + 1][..i] == sigs[..i];
      counts := IncrementAll(counts, AllTags(sigs[..i]), Tags(sigs[i]));
      i := i + 1;
    }
    assert sigs[..i] == sigs;
  }

  /** The inner loop of lines 306-308. */
  method IncrementAll(counts: map<string, nat>, ghost done: seq<string>, tags: seq<string>)
    returns (counts': map<string, nat>)
    requires counts == CountsOf(done)
    ensures counts' == CountsOf(done + tags)
  {
    counts' := counts;
    var j := 0;
    assert done + tags[..0] == done;
    while j < |tags|
      invariant 0 <= j <= |tags|
      invariant counts' == CountsOf(done + tags[..j])
    {
      assert (done + tags[..j + 1])[..|done + tags[..j + 1]| - 1] == done + tags[..j];
      counts' := Inc(counts', tags[j]);
      j := j + 1;
    }
    assert tags[..j] == tags;
  }

  function Abs(x: int): nat {
    if x < 0 then -x else x
  }

  /** The differences between the binary's method count `n` and each per-version count. */
  function Diffs(n: nat, counts: map<string, nat>): set<nat> {
    set v | v in counts :: Abs(n - counts[v])
  }

  /** The differences of candidate `i`, whose class's signatures `exact` returns. */
  function DiffsOf(best: seq<Candidate>, n: nat, exact: (string, string) -> seq<Sig>, i: nat): set<nat>
    requires i < |best|
  {
    Diffs(n, CountsOf(AllTags(exact(best[i].file, best[i].className))))
  }

  /** `d` is the smallest difference of any candidate: the first key of `diffMatch`. */
  ghost predicate IsMinDiff(best: seq<Candidate>, n: nat, exact: (string, string) -> seq<Sig>, d: nat) {
    && (exists i :: 0 <= i < |best| && d in DiffsOf(best, n, exact, i))
    && (forall i, e :: 0 <= i < |best| && e in DiffsOf(best, n, exact, i) ==> d <= e)
  }

  /** Candidate `i` reaches the smallest difference. */
  ghost predicate Winner(best: seq<Candidate>, n: nat, exact: (string, string) -> seq<Sig>, i: nat) {
    i < |best| && exists d :: IsMinDiff(best, n, exact, d) && d in DiffsOf(best, n, exact, i)
  }

  /** All winners, by index into `best`. */
  ghost function Winners(best: seq<Candidate>, n: nat, exact: (string, string) -> seq<Sig>): set<nat> {
    set i: nat | i < |best| && Winner(best, n, exact, i)
  }

  ghost predicate NoDiffs(best: seq<Candidate>, n: nat, exact: (string, string) -> seq<Sig>) {
    forall i :: 0 <= i < |best| ==> DiffsOf(best, n, exact, i) == {}
  }

  lemma MinDiffUnique(best: seq<Candidate>, n: nat, exact: (string, string) -> seq<Sig>, d: nat, d': nat)
    requires IsMinDiff(best, n, exact, d) && IsMinDiff(best, n, exact, d')
    ensures d == d'
  {
    var i :| 0 <= i < |best| && d in DiffsOf(best, n, exact, i);
    var i' :| 0 <= i' < |best| && d' in DiffsOf(best, n, exact, i');
    assert d' <= d && d <= d';
  }

  /** The winners are the candidates that reach the smallest difference. */
  lemma WinnersReachMin(best: seq<Candidate>, n: nat, exact: (string, string) -> seq<Sig>, d: nat)
    requires IsMinDiff(best, n, exact, d)
    ensures forall i: nat :: Winner(best, n, exact, i) <==> i < |best| && d in DiffsOf(best, n, exact, i)
  {
    forall i: nat | Winner(best, n, exact, i) ensures d in DiffsOf(best, n, exact, i) {
      var d' :| IsMinDiff(best, n, exact, d') && d' in DiffsOf(best, n, exact, i);
      MinDiffUnique(best, n, exact, d, d');
    }
  }

  /** The union of the difference sets. */
  function Union(ds: seq<set<nat>>): set<nat> {
    if ds == [] then {} else Union(ds[..|ds| - 1]) + ds[|ds| - 1]
  }

  lemma {:induction false} UnionMembers(ds: seq<set<nat>>)
    ensures forall d :: d in Union(ds) <==> exists j :: 0 <= j < |ds| && d in ds[j]
  {
    if ds != [] {
      var p := ds[..|ds| - 1];
      UnionMembers(p);
      assert forall j :: 0 <= j < |p| ==> p[j] == ds[j];
    }
  }

  /** `diffMatch` once the difference sets `ds` have been entered: for each difference, the
      candidates reaching it. */
  function Table(ds: seq<set<nat>>): map<nat, set<nat>> {
    map d | d in Union(ds) :: set j | 0 <= j < |ds| && d in ds[j]
  }

  /** `diffMatch.get(d)` followed by `add(i)`. */
  function Put(t: map<nat, set<nat>>, d: nat, i: nat): map<nat, set<nat>> {
    t[d := (if d in t then t[d] else {}) + {i}]
  }

  lemma TableAdd(ds: seq<set<nat>>, s: set<nat>, d: nat)
    ensures Table(ds + [s + {d}]) == Put(Table(ds + [s]), d, |ds|)
  {
    var A, B := ds + [s + {d}], ds + [s];
    assert A[..|ds|] == ds && B[..|ds|] == ds;
    assert Union(A) == Union(ds) + (s + {d});
    assert Union(B) == Union(ds) + s;
    UnionMembers(B);
    var l, r := Table(A), Put(Table(B), d, |ds|);
    assert l.Keys == r.Keys;
    forall e | e in l ensures l[e] == r[e] {
      var la := set j | 0 <= j < |A| && e in A[j];
      var rb := set j | 0 <= j < |B| && e in B[j];
      assert l[e] == la;
      assert e in Table(B) ==> Table(B)[e] == rb;
      assert e !in Table(B) ==> rb == {};
      forall j ensures j in la <==> j in rb || (e == d && j == |ds|) {
        if 0 <= j < |ds| {
          assert A[j] == ds[j] == B[j];
        }
      }
    }
  }

  lemma TableEmptyStart(ds: seq<set<nat>>)
    ensures Table(ds + [{}]) == Table(ds)
  {
    var A := ds + [{}];
    assert A[..|ds|] == ds;
    assert forall j :: 0 <= j < |ds| ==> A[j] == ds[j];
    assert Union(A) == Union(ds);
    forall e | e in Table(A) ensures Table(A)[e] == Table(ds)[e] {
      assert (set j | 0 <= j < |A| && e in A[j]) == (set j | 0 <= j < |ds| && e in ds[j]);
    }
  }

  /** The differences of one candidate, by the `methodCountPerVersion` loop of lines 311-319. */
  method AddDiffs(diffMatch: map<nat, set<nat>>, ghost ds: seq<set<nat>>, i: nat, n: nat, counts: map<string, nat>)
    returns (diffMatch': map<nat, set<nat>>)
    requires i == |ds| && diffMatch == Table(ds)
    ensures diffMatch' == Table(ds + [Diffs(n, counts)])
  {
    TableEmptyStart(ds);
    diffMatch' := diffMatch;
    var rest := counts.Keys;
    ghost var done: set<nat> := {};
    while rest != {}
      invariant rest <= counts.Keys
      invariant done == set v | v in counts.Keys - rest :: Abs(n - counts[v])
      invariant diffMatch' == Table(ds + [done])
      decreases |rest|
    {
      var v :| v in rest;
      var diff := Abs(n - counts[v]);
      TableAdd(ds, done, diff);
      diffMatch' := Put(diffMatch', diff, i);
      done := done + {diff};
      rest := rest - {v};
      assert done == set v | v in counts.Keys - rest :: Abs(n - counts[v]);
    }
    assert counts.Keys - rest == counts.Keys;
  }

  /** The smallest key of a non-empty map: `TreeMap.firstKey`. */
  method FirstKey(t: map<nat, set<nat>>) returns (k: nat)
    requires t != map[]
    ensures k in t && forall e :: e in t ==> k <= e
  {
    var keys := t.Keys;
    k :| k in keys;
    var rest := keys - {k};
    while rest != {}
      invariant rest <= keys && k in keys
      invariant forall e :: e in keys && e !in rest ==> k <= e
      decreases |rest|
    {
      var x :| x in rest;
      if x < k {
        k := x;
      }
      rest := rest - {x};
    }
  }

  /** The difference sets of the candidates. */
  function AllDiffs(best: seq<Candidate>, n: nat, exact: (string, string) -> seq<Sig>): (ds: seq<set<nat>>)
    ensures |ds| == |best| && forall i :: 0 <= i < |best| ==> ds[i] == DiffsOf(best, n, exact, i)
  {
    seq(|best|, i requires 0 <= i < |best| => DiffsOf(best, n, exact, i))
  }

  /** `diffMatch` for all candidates (lines 295-320). */
  method DiffMatch(best: seq<Candidate>, n: nat, exact: (string, string) -> seq<Sig>)
    returns (diffMatch: map<nat, set<nat>>)
    ensures diffMatch == Table(AllDiffs(best, n, exact))
  {
    ghost var ds := AllDiffs(best, n, exact);
    diffMatch := map[];
    var i := 0;
    while i < |best|
      invariant 0 <= i <= |best|
      invariant diffMatch == Table(ds[..i])
    {
      var counts := CountPerVersion(exact(best[i].file, best[i].className));
      diffMatch := AddDiffs(diffMatch, ds[..i], i, n, counts);
      assert ds[..i + 1] == ds[..i] + [Diffs(n, counts)];
      i := i + 1;
    }
    assert ds[..i] == ds;
  }

  /** The table is empty exactly when every difference set is. */
  lemma TableEmptyIff(ds: seq<set<nat>>)
    ensures Table(ds) == map[] <==> forall j :: 0 <= j < |ds| ==> ds[j] == {}
  {
    UnionMembers(ds);
    assert Table(ds).Keys == Union(ds);
    forall j | 0 <= j < |ds| ensures ds[j] <= Union(ds) {
    }
    if Table(ds) != map[] {
      var e :| e in Table(ds);
      assert e in Union(ds);
    }
  }

  /** The smallest key of the table is reached by some set, bounds every set's members, and
      maps to exactly the indices of the sets holding it. */
  lemma TableMin(ds: seq<set<nat>>, d: nat)
    requires d in Table(ds) && forall e :: e in Table(ds) ==> d <= e
    ensures exists j :: 0 <= j < |ds| && d in ds[j]
    ensures forall j, e :: 0 <= j < |ds| && e in ds[j] ==> d <= e
    ensures forall j :: j in Table(ds)[d] <==> 0 <= j < |ds| && d in ds[j]
  {
    UnionMembers(ds);
    forall j, e | 0 <= j < |ds| && e in ds[j] ensures d <= e {
      assert e in Union(ds);
      assert e in Table(ds);
    }
  }

  /** No candidate has a difference exactly when the table of all candidates is empty. */
  lemma TableEmptyIsNoDiffs(best: seq<Candidate>, n: nat, exact: (string, string) -> seq<Sig>)
    ensures Table(AllDiffs(best, n, exact)) == map[] <==> NoDiffs(best, n, exact)
  {
    var ds := AllDiffs(best, n, exact);
    TableEmptyIff(ds);
    if !NoDiffs(best, n, exact) {
      var j :| 0 <= j < |best| && DiffsOf(best, n, exact, j) != {};
      assert ds[j] != {};
    }
  }

  /** The candidates reaching difference `d`. */
  ghost function Reaching(best: seq<Candidate>, n: nat, exact: (string, string) -> seq<Sig>, d: nat): set<nat> {
    set i: nat | i < |best| && d in DiffsOf(best, n, exact, i)
  }

  /** The first key of the table of all candidates is the smallest difference, and its entry
      holds the candidates reaching it. */
  lemma TableMinIsMinDiff(best: seq<Candidate>, n: nat, exact: (string, string) -> seq<Sig>, d: nat)
    requires var t := Table(AllDiffs(best, n, exact)); d in t && forall e :: e in t ==> d <= e
    ensures IsMinDiff(best, n, exact, d)
    ensures Table(AllDiffs(best, n, exact))[d] == Reaching(best, n, exact, d)
  {
    var ds := AllDiffs(best, n, exact);
    TableMin(ds, d);
    var j :| 0 <= j < |ds| && d in ds[j];
    assert d in DiffsOf(best, n, exact, j);
    forall i, e | 0 <= i < |best| && e in DiffsOf(best, n, exact, i) ensures d <= e {
      assert e in ds[i];
    }
    var w, r := Table(ds)[d], Reaching(best, n, exact, d);
    forall i: nat ensures i in w <==> i in r {
      if i < |best| {
        assert ds[i] == DiffsOf(best, n, exact, i);
      }
    }
  }

  /** With `d` the smallest difference, the winners are the candidates reaching `d`, and
      there is one. */
  lemma WinnersAreReaching(best: seq<Candidate>, n: nat, exact: (string, string) -> seq<Sig>, d: nat)
    requires IsMinDiff(best, n, exact, d)
    ensures Winners(best, n, exact) == Reaching(best, n, exact, d) != {}
  {
    WinnersEqReaching(best, n, exact, d);
    ReachingNonEmpty(best, n, exact, d);
  }

  lemma WinnersEqReaching(best: seq<Candidate>, n: nat, exact: (string, string) -> seq<Sig>, d: nat)
    requires IsMinDiff(best, n, exact, d)
    ensures Winners(best, n, exact) == Reaching(best, n, exact, d)
  {
    WinnersReachMin(best, n, exact, d);
    var w, r := Winners(best, n, exact), Reaching(best, n, exact, d);
    forall i | i in w ensures i in r {
      assert Winner(best, n, exact, i);
    }
    forall i | i in r ensures i in w {
      assert Winner(best, n, exact, i);
    }
  }

  lemma ReachingNonEmpty(best: seq<Candidate>, n: nat, exact: (string, string) -> seq<Sig>, d: nat)
    requires IsMinDiff(best, n, exact, d)
    ensures Reaching(best, n, exact, d) != {}
  {
    var j :| 0 <= j < |best| && d in DiffsOf(best, n, exact, j);
    assert j in Reaching(best, n, exact, d);
  }

  /** Lines 295-321: the candidates reaching the smallest difference between the binary's
      method count `n` and a per-version method count of their class. `None` when no
      candidate has any count, where the source's `firstKey` throws. */
  method TiedCandidates(best: seq<Candidate>, n: nat, exact: (string, string) -> seq<Sig>)
    returns (tied: Option<set<nat>>)
    ensures tied.None? <==> NoDiffs(best, n, exact)
    ensures tied.Some? ==> tied.value == Winners(best, n, exact) != {}
  {
    var diffMatch := DiffMatch(best, n, exact);
    TableEmptyIsNoDiffs(best, n, exact);
    if diffMatch == map[] {
      return None;
    }
    var d := FirstKey(diffMatch);
    TableMinIsMinDiff(best, n, exact, d);
    WinnersAreReaching(best, n, exact, d);
    return Some(diffMatch[d]);
  }

  // ---------------------------------------------------------------------------
  // The final choice (lines 286-369)

  /** What the ranking of `getClass` answers: nothing, or a candidate; `shortcut` marks the
      return of line 344, the only one that skips `addMatchedClassFiles`. */
  datatype Ranked = NoPick | Pick(cand: Candidate, shortcut: bool)

  /** `new ArrayList<>(set)`: the members of `s` in some order. */
  method Enumerate(s: set<nat>) returns (xs: seq<nat>)
    ensures |xs| == |s| && forall x :: x in xs <==> x in s
  {
    xs := [];
    var rest := s;
    while rest != {}
      invariant |xs| + |rest| == |s|
      invariant forall x :: x in s <==> x in xs || x in rest
      invariant forall x :: x in xs ==> x !in rest
      decreases |rest|
    {
      var x :| x in rest;
      xs := xs + [x];
      rest := rest - {x};
    }
  }

  /** All candidates listed in `ws` have the same class name. */
  ghost predicate SameClassName(best: seq<Candidate>, ws: set<nat>) {
    forall i, j :: i in ws && j in ws && i < |best| && j < |best| ==> best[i].className == best[j].className
  }

  /** Lines 326-336: the class name shared by all tied candidates, if they share one. */
  method CommonClassName(best: seq<Candidate>, ws: seq<nat>) returns (cn: Option<string>)
    requires |ws| > 0 && forall m :: 0 <= m < |ws| ==> ws[m] < |best|
    ensures cn.Some? <==> forall i, j :: i in ws && j in ws ==> best[i].className == best[j].className
    ensures cn.Some? ==> cn.value == best[ws[0]].className
  {
    var name := best[ws[0]].className;
    var k := 1;
    while k < |ws|
      invariant 1 <= k <= |ws|
      invariant forall m :: 0 <= m < k ==> best[ws[m]].className == name
    {
      if best[ws[k]].className != name {
        return None;
      }
      k := k + 1;
    }
    assert forall i :: i in ws ==> best[i].className == name;
    return Some(name);
  }

  /** The first tied candidate whose file is one of `files` (lines 340-343 and 356-363). */
  method FirstIn(best: seq<Candidate>, ws: seq<nat>, files: set<string>) returns (k: Option<nat>)
    requires forall m :: 0 <= m < |ws| ==> ws[m] < |best|
    ensures k.Some? ==> k.value in ws && best[k.value].file in files
    ensures k.None? ==> forall w :: w in ws ==> best[w].file !in files
  {
    var m := 0;
    while m < |ws|
      invariant 0 <= m <= |ws|
      invariant forall m' :: 0 <= m' < m ==> best[ws[m']].file !in files
    {
      if best[ws[m]].file in files {
        return Some(ws[m]);
      }
      m := m + 1;
    }
    return None;
  }

  /** Lines 321-369 once the winners `W` are tied, listed in some order as `ws`. */
  method BreakTie(best: seq<Candidate>, ghost W: set<nat>, ws: seq<nat>, firstRound: bool, unique: bool,
                  used: set<string>, bestFile: string -> Option<string>) returns (r: Ranked)
    requires |ws| == |W| >= 2 && forall x :: x in ws <==> x in W
    requires forall i :: i in W ==> i < |best|
    ensures r.Pick? ==> exists i :: i in W && best[i] == r.cand
    ensures r.Pick? && r.shortcut <==>
      && !firstRound && SameClassName(best, W)
      && exists i :: i in W && bestFile(best[i].className) == Some(best[i].file)
    ensures r.Pick? && r.shortcut ==> bestFile(r.cand.className) == Some(r.cand.file)
    ensures firstRound || unique ==> r.NoPick? || r.shortcut
    ensures !firstRound && !unique ==> r.Pick?
    ensures r.Pick? && !r.shortcut && (exists i :: i in W && best[i].file in used) ==> r.cand.file in used
  {
    assert forall m :: 0 <= m < |ws| ==> ws[m] in W;
    if !firstRound {
      var cn := CommonClassName(best, ws);
      if cn.Some? {
        var bf := bestFile(cn.value);
        if bf.Some? {
          var k := FirstIn(best, ws, {bf.value});
          if k.Some? {
            return Pick(best[k.value], true);
          }
        }
      }
    }
    if firstRound || unique {
      return NoPick;
    }
    var k := FirstIn(best, ws, used);
    if k.Some? {
      return Pick(best[k.value], false);
    }
    assert ws[0] in W;
    return Pick(best[ws[0]], false);
  }

  /** The ranking of lines 286-369 over the best-scoring candidates `best`, for a binary class
      with `n` methods. `used` is the set of signature files in use, `bestFile` answers
      `getMatchedClassFile` for a class name. */
  method Rank(best: seq<Candidate>, n: nat, exact: (string, string) -> seq<Sig>, firstRound: bool, unique: bool,
              used: set<string>, bestFile: string -> Option<string>) returns (r: Ranked)
    ensures |best| == 0 ==> r == NoPick
    ensures |best| == 1 ==> r == Pick(best[0], false)
    ensures r.Pick? ==> r.cand in best
    ensures |best| > 1 && r.Pick? ==>
      exists i :: i in Winners(best, n, exact) && i < |best| && best[i] == r.cand
    ensures |best| > 1 && NoDiffs(best, n, exact) ==> r == NoPick
    ensures |best| > 1 && |Winners(best, n, exact)| == 1 ==> r.Pick? && !r.shortcut
    ensures r.Pick? && r.shortcut <==>
      && |best| > 1 && |Winners(best, n, exact)| >= 2 && !firstRound
      && SameClassName(best, Winners(best, n, exact))
      && exists i :: i in Winners(best, n, exact) && i < |best| && bestFile(best[i].className) == Some(best[i].file)
    ensures r.Pick? && r.shortcut ==> bestFile(r.cand.className) == Some(r.cand.file)
    ensures |best| > 1 && |Winners(best, n, exact)| >= 2 && (firstRound || unique) ==> r.NoPick? || r.shortcut
    ensures |best| > 1 && |Winners(best, n, exact)| >= 2 && !firstRound && !unique ==> r.Pick?
    ensures (|best| > 1 && |Winners(best, n, exact)| >= 2 && r.Pick? && !r.shortcut &&
             (exists i :: i in Winners(best, n, exact) && i < |best| && best[i].file in used)) ==> r.cand.file in used
  {
    if |best| == 0 {
      return NoPick;
    }
    if |best| == 1 {
      return Pick(best[0], false);
    }
    var tied := TiedCandidates(best, n, exact);
    if tied.None? {
      return NoPick;
    }
    ghost var W := tied.value;
    assert forall i :: i in W ==> i < |best|;
    var ws := Enumerate(tied.value);
    if |ws| == 1 {
      assert ws[0] in W;
      return Pick(best[ws[0]], false);
    }
    r := BreakTie(best, W, ws, firstRound, unique, used, bestFile);
  }
}
