/** DatabaseMatcher2 itself (DatabaseMatcher2.java): the matcher keeps its tables as fields
    and updates them in place. Each method is proved against the functions of the modules
    it imports, whose properties are proved there. */
module Matcher {
  import opened Wrappers
  import opened JavaStrings
  import opened Dex
  import opened Gate
  import opened Ranking
  import opened InnerClasses
  import opened MatchState
  import opened Merging
  import opened Refinement
  import opened Callers

  /** Some listing of the keys `keys`. */
  ghost function ListOf(keys: set<MethodId>): (ids: seq<MethodId>)
    ensures ListsKeys(ids, keys)
    decreases |keys|
  {
    if keys == {} then []
    else
      var k :| k in keys;
      ListOf(keys - {k}) + [k]
  }

  /** `m` is `m0` with the entries of `add` whose keys are not in `rest` put over it. */
  ghost predicate PutExcept<V>(m: map<MethodId, V>, m0: map<MethodId, V>, add: map<MethodId, V>, rest: set<MethodId>) {
    forall k :: (k in m <==> k in m0 || (k in add && k !in rest)) &&
      (k in m ==> m[k] == if k in add && k !in rest then add[k] else m0[k])
  }

  lemma PutExceptStep<V>(m: map<MethodId, V>, m0: map<MethodId, V>, add: map<MethodId, V>, rest: set<MethodId>, k: MethodId)
    requires PutExcept(m, m0, add, rest) && k in rest
    ensures PutExcept(if k in add then m[k := add[k]] else m, m0, add, rest - {k})
  {
  }

  lemma PutExceptDone<V>(m: map<MethodId, V>, m0: map<MethodId, V>, add: map<MethodId, V>)
    requires PutExcept(m, m0, add, {})
    ensures m == m0 + add
  {
  }

  /** A counted method is found in `ms[..i + 1]` when one is in `ms[..i]` or it is `ms[i]`. */
  lemma AnyCountedSnoc(bin: Binary, ms: seq<MethodId>, i: nat)
    requires i < |ms|
    ensures AnyCounted(bin, ms[..i + 1]) <==> AnyCounted(bin, ms[..i]) || Counted(bin.Method(ms[i]))
  {
    if AnyCounted(bin, ms[..i]) {
      var j :| 0 <= j < i && Counted(bin.Method(ms[..i][j]));
      assert ms[..i + 1][j] == ms[..i][j];
    }
    if AnyCounted(bin, ms[..i + 1]) && !Counted(bin.Method(ms[i])) {
      var j :| 0 <= j < i + 1 && Counted(bin.Method(ms[..i + 1][j]));
      assert ms[..i][j] == ms[..i + 1][j];
    }
    if Counted(bin.Method(ms[i])) {
      assert ms[..i + 1][i] == ms[i];
    }
  }

  /** Every class newly matched since `mc0` to the name of another newly matched class. */
  ghost predicate Clashing(s: RunState, mc0: map<ClassId, string>, c1: ClassId, c2: ClassId) {
    c1 in s.matchedClasses && c1 !in mc0 && c2 in s.matchedClasses && c2 !in mc0 &&
    c1 != c2 && s.matchedClasses[c1] == s.matchedClasses[c2]
  }

  /** What the search of `getClass` is asked for class `c` in state `s`. */
  function Query(s: RunState, c: ClassId, firstRound: bool, unique: bool, inner: Option<(string, string)>): SearchQuery {
    SearchQuery(c, inner, s.matchedClasses, s.matchedMethods, s.fileLog, firstRound, unique)
  }

  /** Lines 248-371 after the search: `r` is one of the best-scoring candidates of all files,
      nothing when there is none and the only one when there is one; a pick is either
      recorded as the class's file, or is the file FileMatches already holds for its name. */
  ghost predicate Picked(e: Env, s: RunState, c: ClassId, all: seq<Candidate>, r: Option<Candidate>, log: seq<FileEvent>) {
    var best := OfScore(all, MaxScore(0, all));
    (r.None? ==> log == s.fileLog) &&
    (r.Some? ==>
       r.value in best && r.value in all &&
       (log == s.fileLog + [AddMatchedClassFiles(c, r.value.file)] ||
        (log == s.fileLog && e.or.matchedClassFile(s.fileLog, c, r.value.className) == Some(r.value.file)))) &&
    (|best| == 0 ==> r.None?) &&
    (|best| == 1 ==> r == Some(best[0]) && log == s.fileLog + [AddMatchedClassFiles(c, best[0].file)])
  }

  /** `getClass` (lines 197-372) on state `s` for class `c`: it answers `r` and leaves `s'`,
      which differs from `s` only in the two logs. No methods or a deferred inner class give
      nothing; a resolved inner class only records its context match; otherwise the search
      result is ranked as `Picked` says. */
  ghost predicate ClassChosen(e: Env, s: RunState, c: ClassId, firstRound: bool, unique: bool,
                              r: Option<Candidate>, s': RunState)
    requires c in e.bin.classes
  {
    var g := GateInner(e, s, c, firstRound, unique);
    s' == s.(fileLog := s'.fileLog, ctxLog := s'.ctxLog) &&
    (|e.bin.MethodsOf(c)| == 0 ==> r.None? && s' == s) &&
    (|e.bin.MethodsOf(c)| > 0 ==>
       (g.Defer? ==> r.None? && s' == s) &&
       (g.Resolved? ==> r.None? && s' == s.(ctxLog := s.ctxLog + [g.event])) &&
       (g.Search? ==>
          s'.ctxLog == s.ctxLog &&
          Picked(e, s, c, Flatten(e.or.search(Query(s, c, firstRound, unique, g.inner))), r, s'.fileLog)))
  }

  /** What one class of the loop of `storeFinalCandidates` did: skipped as already matched,
      or asked of `getClass` (leaving `mid`), which answered `pick`, stored with its key
      order `ids`. */
  datatype ClassStep = Skipped | Tried(mid: RunState, pick: Option<Candidate>, ids: seq<MethodId>)

  /** Lines 184-192 for class `c`: a class matched by now is skipped; any other is asked of
      `getClass`, and its answer, when there is one, goes to `storeFinalCandidate`. */
  ghost predicate PassStep(e: Env, s: RunState, c: ClassId, firstRound: bool, firstPass: bool,
                           st: ClassStep, s': RunState)
    requires c in e.bin.classes
  {
    match st
    case Skipped => c in s.matchedClasses && s' == s
    case Tried(mid, pick, ids) =>
      c !in s.matchedClasses && ClassChosen(e, s, c, firstRound, firstPass, pick, mid) &&
      (pick.None? ==> s' == mid) &&
      (pick.Some? ==>
         ListsKeys(ids, pick.value.classPathMethod.Keys) &&
         s' == StoreFinal(e, mid, c, pick.value, firstRound, ids).state)
  }

  /** One pass of `storeFinalCandidates`: the states before and after each class of the
      binary, in the order of `getClasses()`, and what each class did. */
  datatype PassRun = PassRun(trace: seq<RunState>, steps: seq<ClassStep>)

  /** The first `|steps|` classes of a pass, with the states around each. */
  ghost predicate StepsOk(e: Env, firstRound: bool, firstPass: bool, trace: seq<RunState>, steps: seq<ClassStep>)
    requires e.bin.Valid()
  {
    |steps| <= |e.bin.order| && |trace| == |steps| + 1 &&
    forall i :: 0 <= i < |steps| ==>
      PassStep(e, trace[i], e.bin.order[i], firstRound, firstPass, steps[i], trace[i + 1])
  }

  ghost predicate PassTrace(e: Env, firstRound: bool, firstPass: bool, p: PassRun)
    requires e.bin.Valid()
  {
    |p.steps| == |e.bin.order| && StepsOk(e, firstRound, firstPass, p.trace, p.steps)
  }

  lemma StepsSnoc(e: Env, firstRound: bool, firstPass: bool, trace: seq<RunState>, steps: seq<ClassStep>,
                  st: ClassStep, s': RunState)
    requires e.bin.Valid() && StepsOk(e, firstRound, firstPass, trace, steps) && |steps| < |e.bin.order|
    requires PassStep(e, trace[|steps|], e.bin.order[|steps|], firstRound, firstPass, st, s')
    ensures StepsOk(e, firstRound, firstPass, trace + [s'], steps + [st])
    ensures AnyPicked(steps + [st]) <==> AnyPicked(steps) || (st.Tried? && st.pick.Some?)
  {
    var t, ss := trace + [s'], steps + [st];
    forall i | 0 <= i < |ss|
      ensures PassStep(e, t[i], e.bin.order[i], firstRound, firstPass, ss[i], t[i + 1])
    {
      if i < |steps| {
        assert t[i] == trace[i] && t[i + 1] == trace[i + 1] && ss[i] == steps[i];
      }
    }
    if AnyPicked(steps) {
      var i :| 0 <= i < |steps| && steps[i].Tried? && steps[i].pick.Some?;
      assert ss[i] == steps[i];
    }
    if st.Tried? && st.pick.Some? {
      assert ss[|steps|] == st;
    }
    if AnyPicked(ss) && !(st.Tried? && st.pick.Some?) {
      var i :| 0 <= i < |ss| && ss[i].Tried? && ss[i].pick.Some?;
      assert i < |steps| && steps[i] == ss[i];
    }
  }

  /** `storeFinalCandidates` answers true: some class got a candidate from `getClass`. */
  predicate AnyPicked(steps: seq<ClassStep>) {
    exists i :: 0 <= i < |steps| && steps[i].Tried? && steps[i].pick.Some?
  }

  /** Lines 118-125 from state `s`: the strict pass `p1`, then the stable flag set, then the
      permissive pass `p2` exactly when this is not the first round and the strict pass
      stored some candidate; `s'` is the state after the last pass. */
  ghost predicate StoreRounds(e: Env, firstRound: bool, s: RunState, p1: PassRun, p2: Option<PassRun>, s': RunState)
    requires e.bin.Valid()
  {
    PassTrace(e, firstRound, true, p1) && p1.trace[0] == s &&
    var mid := p1.trace[|p1.trace| - 1].(stable := true);
    (p2.Some? <==> !firstRound && AnyPicked(p1.steps)) &&
    (p2.None? ==> s' == mid) &&
    (p2.Some? ==>
       PassTrace(e, firstRound, false, p2.value) && p2.value.trace[0] == mid &&
       s' == p2.value.trace[|p2.value.trace| - 1])
  }

  /** A pass in which `getClass` answers nothing for every class changes only the two logs:
      no class is matched and no table is touched. */
  lemma {:induction false} NoPickOnlyLogs(e: Env, firstRound: bool, firstPass: bool, p: PassRun, n: nat)
    requires e.bin.Valid() && PassTrace(e, firstRound, firstPass, p) && !AnyPicked(p.steps)
    requires n <= |p.steps|
    ensures p.trace[n] == p.trace[0].(fileLog := p.trace[n].fileLog, ctxLog := p.trace[n].ctxLog)
  {
    if n > 0 {
      NoPickOnlyLogs(e, firstRound, firstPass, p, n - 1);
      var st := p.steps[n - 1];
      assert PassStep(e, p.trace[n - 1], e.bin.order[n - 1], firstRound, firstPass, st, p.trace[n]);
      if st.Tried? {
        assert !(st.pick.Some?);
      }
    }
  }

  /** A strict pass that stores nothing means no permissive pass, and the round changes only
      the logs and the stable flag before the merge. */
  lemma NoPickNoSecondPass(e: Env, firstRound: bool, s: RunState, p1: PassRun, p2: Option<PassRun>, s': RunState)
    requires e.bin.Valid() && StoreRounds(e, firstRound, s, p1, p2, s') && !AnyPicked(p1.steps)
    ensures p2.None?
    ensures s' == s.(fileLog := s'.fileLog, ctxLog := s'.ctxLog, stable := true)
  {
    NoPickOnlyLogs(e, firstRound, true, p1, |p1.steps|);
  }

  /** The classes of the duplicate groups of `dc` named in `names` whose size is not one. */
  ghost function GroupIds(dc: map<string, seq<ClassId>>, names: set<string>): set<ClassId> {
    set n, c | n in names && n in dc && c in dc[n] && |dc[n]| != 1 :: c
  }

  /** The method ids `dm` records for the classes `cs`. */
  ghost function RecordedMethods(dm: map<ClassId, seq<MethodId>>, cs: set<ClassId>): set<MethodId> {
    set c, m | c in cs && c in dm && m in dm[c] :: m
  }

  lemma GroupIdsAdd(dc: map<string, seq<ClassId>>, names: set<string>, n: string)
    requires n in dc
    ensures GroupIds(dc, names + {n}) ==
      GroupIds(dc, names) + (if |dc[n]| != 1 then set c | c in dc[n] else {})
  {
  }

  lemma GroupIdsAll(s: RunState)
    ensures GroupIds(s.dupClasses, s.dupClasses.Keys) == DupIds(s)
    ensures RecordedMethods(s.dupMethods, DupIds(s)) == DupMethodIds(s)
  {
  }

  lemma RecordedMethodsAdd(dm: map<ClassId, seq<MethodId>>, cs: set<ClassId>, c: ClassId)
    requires c in dm
    ensures RecordedMethods(dm, cs + {c}) == RecordedMethods(dm, cs) + set m | m in dm[c]
  {
  }

  lemma MinusUnion<K, V>(m: map<K, V>, a: set<K>, b: set<K>)
    ensures m - a - b == m - (a + b)
  {
  }

  lemma RecordedMethodsUnion(dm: map<ClassId, seq<MethodId>>, a: set<ClassId>, b: set<ClassId>)
    ensures RecordedMethods(dm, a + b) == RecordedMethods(dm, a) + RecordedMethods(dm, b)
  {
  }

  /** Two classes newly matched to the same library class are recorded in one duplicate
      group, so neither survives the rollback. */
  lemma ClashesResolved(e: Env, s: RunState, mc0: map<ClassId, string>, corder: seq<string>, morder: seq<MethodId>)
    requires Recorded(s, mc0)
    requires forall i :: 0 <= i < |corder| ==> corder[i] in e.or.ctxClasses(s.ctxLog)
    requires forall i :: 0 <= i < |morder| ==> morder[i] in e.or.ctxMethods(ClassesMerged(e, s, corder).ctxLog)
    ensures var r := RollbackDups(MethodsMerged(e, ClassesMerged(e, s, corder), morder));
      forall c1, c2 :: Clashing(s, mc0, c1, c2) ==> c1 !in r.matchedClasses && c2 !in r.matchedClasses
  {
    forall c1, c2 | Clashing(s, mc0, c1, c2)
      ensures var r := RollbackDups(MethodsMerged(e, ClassesMerged(e, s, corder), morder));
        c1 !in r.matchedClasses && c2 !in r.matchedClasses
    {
      ClashesUnmatched(e, s, corder, morder, s.matchedClasses[c1], c1, c2);
    }
  }

  /** `calls` is what the binary's callers of `k` in `cl` give, taken in the order `order`. */
  ghost predicate CallsOf(bin: Binary, cl: map<MethodId, map<MethodId, int>>, k: MethodId,
                          calls: map<string, int>, order: seq<MethodId>) {
    if k in cl then
      && ListsKeys(order, cl[k].Keys)
      && (forall j :: 0 <= j < |order| ==> order[j] in cl[k])
      && calls == Calls(bin, cl[k], order)
    else calls == map[]
  }

  lemma CallerPassSnoc(e: Env, log: seq<FileEvent>, msm: map<MethodId, Sig>, order: seq<MethodId>,
                       calls: seq<map<string, int>>, k: MethodId, c: map<string, int>)
    requires |calls| == |order| && k in msm
    requires forall i :: 0 <= i < |order| ==> order[i] in msm
    ensures forall i :: 0 <= i < |order + [k]| ==> (order + [k])[i] in msm
    ensures CallerPass(e, log, msm, order + [k], calls + [c]) ==
            CallerPass(e, log, msm, order, calls) + CallerEvents(e, log, msm[k], c)
  {
    assert (order + [k])[..|order|] == order;
    assert (calls + [c])[..|calls|] == calls;
  }

  /** A loop over the keys `keys` of a hash map: `order` holds the ones taken, each once,
      and `rest` the others. */
  ghost predicate Taking(rest: set<nat>, order: seq<nat>, keys: set<nat>) {
    rest <= keys && (forall k :: k in order <==> k in keys && k !in rest) && |order| + |rest| == |keys|
  }

  lemma TakingStep(rest: set<nat>, order: seq<nat>, keys: set<nat>, k: nat)
    requires Taking(rest, order, keys) && k in rest
    ensures Taking(rest - {k}, order + [k], keys)
  {
  }

  lemma TakingDone(order: seq<nat>, keys: set<nat>)
    requires Taking({}, order, keys)
    ensures ListsKeys(order, keys)
  {
  }

  /** `calls[i]` are the calls of method `order[i]`, listed by `corders[i]`. */
  ghost predicate CallsAll(bin: Binary, cl: map<MethodId, map<MethodId, int>>, order: seq<MethodId>,
                           calls: seq<map<string, int>>, corders: seq<seq<MethodId>>) {
    && |calls| == |order| && |corders| == |order|
    && (forall i :: 0 <= i < |order| ==> CallsOf(bin, cl, order[i], calls[i], corders[i]))
  }

  lemma CallsAllSnoc(bin: Binary, cl: map<MethodId, map<MethodId, int>>, order: seq<MethodId>,
                     calls: seq<map<string, int>>, corders: seq<seq<MethodId>>,
                     k: MethodId, c: map<string, int>, co: seq<MethodId>)
    requires CallsAll(bin, cl, order, calls, corders) && CallsOf(bin, cl, k, c, co)
    ensures CallsAll(bin, cl, order + [k], calls + [c], corders + [co])
  {
    var n := |order|;
    forall i | 0 <= i < n + 1
      ensures CallsOf(bin, cl, (order + [k])[i], (calls + [c])[i], (corders + [co])[i])
    {
      if i < n {
        assert (order + [k])[i] == order[i] && (calls + [c])[i] == calls[i] && (corders + [co])[i] == corders[i];
      }
    }
  }

  /** The invariant of the loop of `postProcessRenameMethods`: the keys `order` taken so
      far, each once, with their calls, and the events they gave appended to `log0`. */
  ghost predicate CallerLoop(e: Env, flog: seq<FileEvent>, log0: seq<CtxEvent>, msm: map<MethodId, Sig>,
                             cl: map<MethodId, map<MethodId, int>>, rest: set<MethodId>, order: seq<MethodId>,
                             calls: seq<map<string, int>>, corders: seq<seq<MethodId>>, log: seq<CtxEvent>) {
    && Taking(rest, order, msm.Keys)
    && (forall i :: 0 <= i < |order| ==> order[i] in msm)
    && CallsAll(e.bin, cl, order, calls, corders)
    && log == log0 + CallerPass(e, flog, msm, order, calls)
  }

  lemma CallerLoopStep(e: Env, flog: seq<FileEvent>, log0: seq<CtxEvent>, msm: map<MethodId, Sig>,
                       cl: map<MethodId, map<MethodId, int>>, rest: set<MethodId>, order: seq<MethodId>,
                       calls: seq<map<string, int>>, corders: seq<seq<MethodId>>, log: seq<CtxEvent>,
                       k: MethodId, c: map<string, int>, co: seq<MethodId>, ev: seq<CtxEvent>)
    requires CallerLoop(e, flog, log0, msm, cl, rest, order, calls, corders, log)
    requires k in rest && CallsOf(e.bin, cl, k, c, co) && ev == CallerEvents(e, flog, msm[k], c)
    ensures CallerLoop(e, flog, log0, msm, cl, rest - {k}, order + [k], calls + [c], corders + [co], log + ev)
  {
    TakingStep(rest, order, msm.Keys, k);
    CallsAllSnoc(e.bin, cl, order, calls, corders, k, c, co);
    CallerPassSnoc(e, flog, msm, order, calls, k, c);
    assert log + ev == log0 + (CallerPass(e, flog, msm, order, calls) + ev);
  }


  class DatabaseMatcher {
    const env: Env

    var matchedClasses: map<ClassId, string>
    var matchedMethods: map<MethodId, string>
    var matchedSigMethods: map<MethodId, Sig>
    var dupClasses: map<string, seq<ClassId>>
    var dupMethods: map<ClassId, seq<MethodId>>
    var instruCount: map<ClassId, nat>
    var fileLog: seq<FileEvent>
    var stable: bool
    var ctxLog: seq<CtxEvent>
    var apkCallerLists: map<MethodId, map<MethodId, int>>

    /** The fields as one value. */
    function State(): RunState
      reads this
    {
      RunState(matchedClasses, matchedMethods, matchedSigMethods, dupClasses, dupMethods,
               instruCount, fileLog, stable, ctxLog, apkCallerLists)
    }

    /** Between public calls the binary is well formed and the duplicate tables are empty
        (they are only used within `storeMatchedClassesAndMethods`). */
    ghost predicate Valid()
      reads this
    {
      env.bin.Valid() && dupClasses == map[] && dupMethods == map[]
    }

    /** Within `storeMatchedClassesAndMethods`: the duplicate tables agree with the matches. */
    ghost predicate Consistent()
      reads this
    {
      env.bin.Valid() && DupConsistent(State())
    }

    constructor (e: Env)
      requires e.bin.Valid()
      ensures env == e && Valid()
      ensures State() == RunState(map[], map[], map[], map[], map[], map[], [], false, [], map[])
    {
      env := e;
      matchedClasses, matchedMethods, matchedSigMethods := map[], map[], map[];
      dupClasses, dupMethods, instruCount := map[], map[], map[];
      fileLog, stable, ctxLog, apkCallerLists := [], false, [], map[];
    }

    // -------------------------------------------------------------------------
    // f (lines 531-582)

    /** The gate for class `c` whose matched methods are `ids`; an uncached pass leaves the
        class's total in `instruCount` when it counted some method. */
    method F(c: ClassId, ids: seq<MethodId>) returns (ok: bool)
      modifies this
      ensures var d := Decide(env.bin, c, ids, Lookup(old(instruCount), c), env.bar);
        ok == d.accept && State() == Cache(old(State()), c, d.cache)
    {
      var bin := env.bin;
      if c in instruCount {
        var total := instruCount[c];
        var matched := 0;
        var i := 0;
        while i < |ids|
          invariant 0 <= i <= |ids|
          invariant matched == Listed(bin, ids[..i])
        {
          assert ids[..i + 1][..i] == ids[..i];
          matched := matched + Size(bin.Method(ids[i]));
          i := i + 1;
        }
        assert ids[..i] == ids;
        return Accept(matched, total, env.bar);
      }
      var ms := bin.MethodsOf(c);
      if |ms| == 0 {
        return false;
      }
      if |ms| == 1 && IsConstructor(bin.Method(ms[0]).name) {
        var matchedInstrus := 0;
        return matchedInstrus > 20;
      }
      ghost var counted := false;
      var cache := instruCount;
      var matched, total := 0, 0;
      var i := 0;
      while i < |ms|
        invariant 0 <= i <= |ms|
        invariant matched == Matched(bin, ms[..i], ids) && total == Total(bin, ms[..i])
        invariant counted == AnyCounted(bin, ms[..i])
        invariant cache == if counted then instruCount[c := total] else instruCount
        invariant unchanged(this)
      {
        var m := bin.Method(ms[i]);
        assert ms[..i + 1][..i] == ms[..i];
        AnyCountedSnoc(bin, ms, i);
        if m.internal && m.instructions.Some? {
          var count := m.instructions.value;
          if ms[i] in ids {
            matched := matched + count;
          }
          total := total + count;
          cache := cache[c := total];
          counted := true;
        }
        i := i + 1;
      }
      instruCount := cache;
      assert ms[..i] == ms;
      return Accept(matched, total, env.bar);
    }

    // -------------------------------------------------------------------------
    // storeFinalCandidate (lines 415-529)

    /** The inner-class checks of lines 416-473. */
    method CheckInner(c: ClassId, cand: Candidate, firstRound: bool) returns (out: Option<Outcome>)
      requires c in env.bin.classes
      modifies this
      ensures (State(), out) == InnerChecks(env, old(State()), c, cand, firstRound)
    {
      if !IsNested(cand.className) {
        return None;
      }
      var sig := env.bin.classes[c].signature;
      if !IsNested(sig) {
        fileLog := fileLog + [RemoveClassFiles(c)];
        return Some(DroppedFlat);
      }
      if Parent(sig) == Parent(cand.className) {
        return None;
      }
      if firstRound {
        fileLog := fileLog + [RemoveClassFiles(c)];
        return Some(DroppedParent);
      }
      var conflict := AncestorConflict(env.bin, matchedClasses, sig, cand.className);
      if conflict {
        fileLog := fileLog + [RemoveClassFiles(c)];
        return Some(DroppedConflict);
      }
      var events := SegmentMatches(sig, cand.className, cand.className);
      LevelMatchesAfter(ctxLog, [], sig, cand.className, cand.className);
      assert ctxLog + [] == ctxLog;
      ctxLog := ctxLog + events;
      return None;
    }

    /** Lines 475-486: every key listed in `ids`, the renamable ones stored. */
    method StageMethods(cand: Candidate) returns (ids: seq<MethodId>)
      modifies this
      ensures ListsKeys(ids, cand.classPathMethod.Keys)
      ensures State() == Stage(old(State()), cand)
    {
      var cpm := cand.classPathMethod;
      var mm, msm := matchedMethods, matchedSigMethods;
      ids := [];
      var rest := cpm.Keys;
      while rest != {}
        invariant rest <= cpm.Keys
        invariant |ids| + |rest| == |cpm.Keys|
        invariant forall k :: k in ids <==> k in cpm && k !in rest
        invariant PutExcept(mm, matchedMethods, NamesOf(cand), rest)
        invariant PutExcept(msm, matchedSigMethods, SigsOf(cand), rest)
        invariant unchanged(this)
        decreases |rest|
      {
        var k :| k in rest;
        ids := ids + [k];
        var name := cpm[k].mname;
        PutExceptStep(mm, matchedMethods, NamesOf(cand), rest, k);
        PutExceptStep(msm, matchedSigMethods, SigsOf(cand), rest, k);
        if !IsBlank(name) && k !in cand.doNotRename {
          mm := mm[k := name];
          msm := msm[k := cpm[k]];
        } else {
          assert k !in NamesOf(cand) && k !in SigsOf(cand);
        }
        rest := rest - {k};
      }
      PutExceptDone(mm, matchedMethods, NamesOf(cand));
      PutExceptDone(msm, matchedSigMethods, SigsOf(cand));
      matchedMethods, matchedSigMethods := mm, msm;
    }

    /** Lines 523-526: every listed method taken back. */
    method UnstageMethods(cand: Candidate, ids: seq<MethodId>)
      requires ListsKeys(ids, cand.classPathMethod.Keys)
      modifies this
      ensures State() == Unstage(old(State()), cand)
    {
      var mm, msm := matchedMethods, matchedSigMethods;
      var i := 0;
      while i < |ids|
        invariant 0 <= i <= |ids|
        invariant mm == matchedMethods - set j | 0 <= j < i :: ids[j]
        invariant msm == matchedSigMethods - set j | 0 <= j < i :: ids[j]
        invariant unchanged(this)
      {
        assert (set j | 0 <= j < i + 1 :: ids[j]) == (set j | 0 <= j < i :: ids[j]) + {ids[i]};
        mm := mm - {ids[i]};
        msm := msm - {ids[i]};
        i := i + 1;
      }
      assert (set j | 0 <= j < |ids| :: ids[j]) == cand.classPathMethod.Keys by {
        forall k | k in cand.classPathMethod.Keys ensures k in (set j | 0 <= j < |ids| :: ids[j]) {
          var j :| 0 <= j < |ids| && ids[j] == k;
        }
      }
      matchedMethods, matchedSigMethods := mm, msm;
    }

    /** Lines 494-519: the class matched and recorded, its parameter matches reported. */
    method CommitClass(c: ClassId, cand: Candidate, ids: seq<MethodId>)
      requires forall i :: 0 <= i < |ids| ==> ids[i] in cand.classPathMethod
      modifies this
      ensures State() == MatchState.Commit(env, old(State()), c, cand, ids)
    {
      matchedClasses := matchedClasses[c := cand.className];
      var group := if cand.className in dupClasses then dupClasses[cand.className] else [];
      dupClasses := dupClasses[cand.className := group + [c]];
      dupMethods := dupMethods[c := ids];
      var log := ctxLog;
      var i := 0;
      label Params:
      while i < |ids|
        invariant 0 <= i <= |ids|
        invariant log == ctxLog + ParamEvents(env.bin, cand, ids[..i])
        invariant unchanged@Params(this)
      {
        assert ids[..i + 1][..i] == ids[..i];
        var k := ids[i];
        var sig := cand.classPathMethod[k];
        var proto := env.bin.Method(k).prototype;
        if proto != sig.prototype {
          log := log + [SaveParamMatching(proto, sig.prototype, cand.className, sig.mname)];
        } else {
          assert log + [] == log;
        }
        i := i + 1;
      }
      assert ids[..i] == ids;
      ctxLog := log;
    }

    /** `storeFinalCandidate` for class `c` and candidate `cand`; `ids` is the order in which
        the candidate's methods were visited, `outcome` how it ended. */
    method StoreFinalCandidate(c: ClassId, cand: Candidate, firstRound: bool)
      returns (ghost ids: seq<MethodId>, ghost outcome: Outcome)
      requires c in env.bin.classes
      modifies this
      ensures ListsKeys(ids, cand.classPathMethod.Keys)
      ensures Stored(State(), outcome) == StoreFinal(env, old(State()), c, cand, firstRound, ids)
    {
      var out := CheckInner(c, cand, firstRound);
      if out.Some? {
        ids, outcome := ListOf(cand.classPathMethod.Keys), out.value;
        return;
      }
      ghost var s1 := State();
      if |cand.classPathMethod| == 0 {
        ids, outcome := [], NoMethods;
        return;
      }
      var temp1 := StageMethods(cand);
      ids := temp1;
      var ok := F(c, temp1);
      if !ok {
        UnstageMethods(cand, temp1);
        outcome := GateRejected;
        return;
      }
      var vals := Values(cand, temp1);
      var res := env.or.addVersions(fileLog, cand.file, vals);
      fileLog := fileLog + [AddVersions(cand.file, vals)];
      if !res {
        outcome := VersionsRejected;
        return;
      }
      CommitClass(c, cand, temp1);
      outcome := Committed;
    }

    // -------------------------------------------------------------------------
    // getClass (lines 197-372)

    /** Lines 209-244: what the inner-class gate decides for class `c`. */
    method InnerGate(c: ClassId, firstRound: bool, unique: bool) returns (g: InnerGate)
      requires c in env.bin.classes
      ensures g == GateInner(env, State(), c, firstRound, unique)
    {
      var sig := env.bin.classes[c].signature;
      if !env.or.isInner(sig) {
        return Search(None);
      }
      var parent := env.or.parentClass(sig);
      if parent.Some? && parent.value in matchedClasses {
        var name := matchedClasses[parent.value];
        var file := env.or.fileFromClass(fileLog, parent.value);
        if file.None? || name == [] {
          return Search(None);
        }
        var innerClass := name[..|name| - 1] + "$";
        var merged := env.or.mergePerClass(env.or.prefixQuery(file.value, innerClass));
        var versions := env.or.parentVersions(fileLog, parent.value, matchedSigMethods);
        var filtered := FilterVersions(merged, versions);
        var cands := InnerCandidates(env.bin, matchedClasses, filtered);
        if |cands| == 1 {
          return Resolved(SaveClassMatch(sig, cands[0].cname, name));
        }
        return Search(Some((file.value, innerClass)));
      }
      if firstRound || unique {
        return Defer;
      }
      return Search(None);
    }

    /** Lines 248-371: the best-scoring candidates across files ranked, the pick recorded
        as the class's file unless the ranking took the file FileMatches holds. */
    method Choose(c: ClassId, n: nat, firstRound: bool, unique: bool, inner: Option<(string, string)>)
      returns (r: Option<Candidate>)
      modifies this
      ensures State() == old(State()).(fileLog := fileLog)
      ensures Picked(env, old(State()), c, Flatten(env.or.search(Query(old(State()), c, firstRound, unique, inner))), r, fileLog)
    {
      var groups := env.or.search(SearchQuery(c, inner, matchedClasses, matchedMethods, fileLog, firstRound, unique));
      var best, hi := BestAcrossFiles(groups);
      var log, or := fileLog, env.or;
      var ranked := Rank(best, n, or.exactQuery, firstRound, unique, or.usedSigFiles(log),
                         (name: string) => or.matchedClassFile(log, c, name));
      OfScoreMembers(Flatten(groups), hi);
      if ranked.NoPick? {
        return None;
      }
      if !ranked.shortcut {
        fileLog := fileLog + [AddMatchedClassFiles(c, ranked.cand.file)];
      }
      return Some(ranked.cand);
    }

    /** `getClass`: the candidate chosen for class `c`, if any. */
    method GetClass(c: ClassId, firstRound: bool, unique: bool) returns (r: Option<Candidate>)
      requires c in env.bin.classes
      modifies this
      ensures ClassChosen(env, old(State()), c, firstRound, unique, r, State())
    {
      var methods := env.bin.classes[c].methods;
      if |methods| == 0 {
        return None;
      }
      var g := InnerGate(c, firstRound, unique);
      match g
      case Defer =>
        return None;
      case Resolved(event) =>
        ctxLog := ctxLog + [event];
        return None;
      case Search(inner) =>
        r := Choose(c, |methods|, firstRound, unique, inner);
    }

    // -------------------------------------------------------------------------
    // storeFinalCandidates (lines 180-195)

    /** One unmatched class of the loop of `storeFinalCandidates` (lines 188-192): `getClass`
        leaves `mid` and answers `pick`; `found` says it answered, and the answer is then
        stored. Only `c` can become matched. */
    method StoreClass(c: ClassId, firstRound: bool, firstPass: bool, ghost mc0: map<ClassId, string>)
      returns (found: bool, ghost mid: RunState, ghost pick: Option<Candidate>, ghost ids: seq<MethodId>)
      requires Consistent() && Recorded(State(), mc0)
      requires c in env.bin.classes && c !in matchedClasses
      modifies this
      ensures found <==> pick.Some?
      ensures PassStep(env, old(State()), c, firstRound, firstPass, Tried(mid, pick, ids), State())
      ensures Consistent() && Recorded(State(), mc0)
      ensures forall x :: x in old(matchedClasses) ==> x in matchedClasses && matchedClasses[x] == old(matchedClasses)[x]
      ensures forall x :: x in matchedClasses ==> x in old(matchedClasses) || x == c
      ensures !found ==> matchedClasses == old(matchedClasses)
      ensures stable == old(stable) && apkCallerLists == old(apkCallerLists)
    {
      var innerMatch := GetClass(c, firstRound, firstPass);
      pick, mid := innerMatch, State();
      found := innerMatch.Some?;
      ids := [];
      if found {
        ghost var s := State();
        assert DupConsistent(s) && Recorded(s, mc0);
        ghost var outcome;
        ids, outcome := StoreFinalCandidate(c, innerMatch.value, firstRound);
        StorePreservesDup(env, s, c, innerMatch.value, firstRound, ids);
        StorePreservesRecorded(env, s, c, innerMatch.value, firstRound, ids, mc0);
        StoreRecords(env, s, c, innerMatch.value, firstRound, ids);
        StoreKeepsFlags(env, s, c, innerMatch.value, firstRound, ids);
      }
    }

    /** Class `i` of the loop of `storeFinalCandidates` (lines 184-192): skipped when it is
        matched by now, otherwise handed to `StoreClass`; the trace of the pass grows by that
        step, and `stored` says the class got a candidate. */
    method VisitClass(i: nat, firstRound: bool, firstPass: bool, ghost mc0: map<ClassId, string>,
                      ghost trace: seq<RunState>, ghost steps: seq<ClassStep>)
      returns (stored: bool, ghost trace': seq<RunState>, ghost steps': seq<ClassStep>)
      requires Consistent() && Recorded(State(), mc0) && i < |env.bin.order|
      requires |steps| == i && StepsOk(env, firstRound, firstPass, trace, steps) && trace[i] == State()
      modifies this
      ensures |steps'| == i + 1 && StepsOk(env, firstRound, firstPass, trace', steps')
      ensures trace'[0] == trace[0] && trace'[i + 1] == State()
      ensures AnyPicked(steps') <==> AnyPicked(steps) || stored
      ensures Consistent() && Recorded(State(), mc0)
      ensures forall x :: x in old(matchedClasses) ==> x in matchedClasses && matchedClasses[x] == old(matchedClasses)[x]
      ensures forall x :: x in matchedClasses ==> x in old(matchedClasses) || x == env.bin.order[i]
      ensures !stored ==> matchedClasses == old(matchedClasses)
      ensures stable == old(stable) && apkCallerLists == old(apkCallerLists)
    {
      var c := env.bin.order[i];
      if c in matchedClasses {
        StepsSnoc(env, firstRound, firstPass, trace, steps, Skipped, State());
        return false, trace + [State()], steps + [Skipped];
      }
      ghost var mid, pick, ids;
      stored, mid, pick, ids := StoreClass(c, firstRound, firstPass, mc0);
      StepsSnoc(env, firstRound, firstPass, trace, steps, Tried(mid, pick, ids), State());
      trace', steps' := trace + [State()], steps + [Tried(mid, pick, ids)];
    }

    /** `storeFinalCandidates`: one pass over the classes of the binary in order, traced by
        `run`; `found` says some class got a candidate. Matches are only added, and every
        class matched since `mc0` stays recorded in its duplicate group. */
    method StoreFinalCandidates(firstRound: bool, firstPass: bool, ghost mc0: map<ClassId, string>)
      returns (found: bool, ghost run: PassRun)
      requires Consistent() && Recorded(State(), mc0)
      modifies this
      ensures PassTrace(env, firstRound, firstPass, run)
      ensures run.trace[0] == old(State()) && run.trace[|run.trace| - 1] == State()
      ensures found <==> AnyPicked(run.steps)
      ensures Consistent() && Recorded(State(), mc0)
      ensures forall x :: x in old(matchedClasses) ==> x in matchedClasses && matchedClasses[x] == old(matchedClasses)[x]
      ensures forall x :: x in matchedClasses && x !in old(matchedClasses) ==> x in env.bin.order
      ensures !found ==> matchedClasses == old(matchedClasses)
      ensures stable == old(stable) && apkCallerLists == old(apkCallerLists)
    {
      found := false;
      var i := 0;
      ghost var trace, steps := [State()], [];
      while i < |env.bin.order|
        invariant 0 <= i <= |env.bin.order|
        invariant |steps| == i && StepsOk(env, firstRound, firstPass, trace, steps)
        invariant trace[0] == old(State()) && trace[i] == State()
        invariant found <==> AnyPicked(steps)
        invariant Consistent() && Recorded(State(), mc0)
        invariant forall x :: x in old(matchedClasses) ==> x in matchedClasses && matchedClasses[x] == old(matchedClasses)[x]
        invariant forall x :: x in matchedClasses && x !in old(matchedClasses) ==> x in env.bin.order[..i]
        invariant !found ==> matchedClasses == old(matchedClasses)
        invariant stable == old(stable) && apkCallerLists == old(apkCallerLists)
      {
        var stored;
        stored, trace, steps := VisitClass(i, firstRound, firstPass, mc0, trace, steps);
        found := found || stored;
        i := i + 1;
      }
      run := PassRun(trace, steps);
    }

    // -------------------------------------------------------------------------
    // storeMatchedClassesAndMethods (lines 110-178)

    /** Lines 128-144: the class matches of the context merged, its entries taken in the
        order `order`. */
    /** One entry `k -> v` of the class context (lines 129-142). */
    method MergeClassEntry(mc: map<ClassId, string>, log: seq<CtxEvent>, k: string, v: string)
      returns (mc': map<ClassId, string>, log': seq<CtxEvent>)
      ensures Merged(mc', log') == MergeStep(env.or.ctxValid, ResolveClass(env.bin), InvalidClass(), Merged(mc, log), k, v)
    {
      mc', log' := mc, log;
      if env.or.ctxValid(log, v) {
        var cl := Lookup(env.bin.byName, k);
        if cl.Some? {
          if cl.value !in mc {
            mc' := mc[cl.value := v];
          } else if mc[cl.value] != v {
            log' := log + [SetInvalidClass(k)];
          }
        }
      }
    }

    method MergeContextClasses() returns (ghost order: seq<string>)
      modifies this
      ensures forall i :: 0 <= i < |order| ==> order[i] in env.or.ctxClasses(old(ctxLog))
      ensures State() == ClassesMerged(env, old(State()), order)
    {
      var ctx := env.or.ctxClasses(ctxLog);
      var mc, log := matchedClasses, ctxLog;
      ghost var m0 := Merged(mc, log);
      var rest := ctx.Keys;
      order := [];
      while rest != {}
        invariant rest <= ctx.Keys
        invariant forall i :: 0 <= i < |order| ==> order[i] in ctx
        invariant Merged(mc, log) == MergeAll(env.or.ctxValid, ResolveClass(env.bin), InvalidClass(), ctx, m0, order)
        invariant unchanged(this)
        decreases |rest|
      {
        var k :| k in rest;
        rest := rest - {k};
        var v := ctx[k];
        assert (order + [k])[..|order|] == order;
        mc, log := MergeClassEntry(mc, log, k, v);
        order := order + [k];
      }
      matchedClasses, ctxLog := mc, log;
    }

    /** Lines 145-159: the method matches of the context merged likewise. */
    method MergeContextMethods() returns (ghost order: seq<MethodId>)
      modifies this
      ensures forall i :: 0 <= i < |order| ==> order[i] in env.or.ctxMethods(old(ctxLog))
      ensures State() == MethodsMerged(env, old(State()), order)
    {
      var ctx := env.or.ctxMethods(ctxLog);
      var mm, log := matchedMethods, ctxLog;
      var rest := ctx.Keys;
      order := [];
      while rest != {}
        invariant forall i :: 0 <= i < |order| ==> order[i] in ctx
        invariant rest <= ctx.Keys
        invariant Merged(mm, log) ==
          MergeAll(env.or.ctxValid, ResolveMethod(), InvalidMethod(), ctx, Merged(matchedMethods, ctxLog), order)
        invariant unchanged(this)
        decreases |rest|
      {
        var k :| k in rest;
        rest := rest - {k};
        var v := ctx[k];
        assert (order + [k])[..|order|] == order;
        if env.or.ctxValid(log, v) {
          if k !in mm {
            mm := mm[k := v];
          } else if mm[k] != v {
            log := log + [SetInvalidMethod(k)];
          }
        }
        order := order + [k];
      }
      matchedMethods, ctxLog := mm, log;
    }

    /** The recorded methods `ms` of one class taken back from both method tables. */
    static method DropMethods(ms: seq<MethodId>, mm: map<MethodId, string>, msm: map<MethodId, Sig>)
      returns (mm': map<MethodId, string>, msm': map<MethodId, Sig>)
      ensures mm' == mm - set m | m in ms
      ensures msm' == msm - set m | m in ms
    {
      mm', msm' := mm, msm;
      var i := 0;
      while i < |ms|
        invariant 0 <= i <= |ms|
        invariant mm' == mm - set m | m in ms[..i]
        invariant msm' == msm - set m | m in ms[..i]
      {
        ghost var taken := ms[..i + 1];
        assert (set m | m in taken) == (set m | m in ms[..i]) + {ms[i]};
        mm' := mm' - {ms[i]};
        msm' := msm' - {ms[i]};
        i := i + 1;
      }
      assert ms[..i] == ms;
    }

    /** Every class of one duplicate group taken back with the methods `dm` records for it. */
    static method DropGroup(dm: map<ClassId, seq<MethodId>>, group: seq<ClassId>,
                            mc: map<ClassId, string>, mm: map<MethodId, string>, msm: map<MethodId, Sig>)
      returns (mc': map<ClassId, string>, mm': map<MethodId, string>, msm': map<MethodId, Sig>)
      requires forall j :: 0 <= j < |group| ==> group[j] in dm
      ensures mc' == mc - set c | c in group
      ensures mm' == mm - RecordedMethods(dm, set c | c in group)
      ensures msm' == msm - RecordedMethods(dm, set c | c in group)
    {
      mc', mm', msm' := mc, mm, msm;
      var j := 0;
      while j < |group|
        invariant 0 <= j <= |group|
        invariant mc' == mc - set c | c in group[..j]
        invariant mm' == mm - RecordedMethods(dm, set c | c in group[..j])
        invariant msm' == msm - RecordedMethods(dm, set c | c in group[..j])
      {
        var e := group[j];
        ghost var cs := set c | c in group[..j];
        ghost var taken := group[..j + 1];
        assert (set c | c in taken) == cs + {e};
        RecordedMethodsAdd(dm, cs, e);
        MinusUnion(mc, cs, {e});
        MinusUnion(mm, RecordedMethods(dm, cs), set m | m in dm[e]);
        MinusUnion(msm, RecordedMethods(dm, cs), set m | m in dm[e]);
        mc' := mc' - {e};
        mm', msm' := DropMethods(dm[e], mm', msm');
        j := j + 1;
      }
      assert group[..j] == group;
    }

    /** The group of name `n` in `dc` taken back when its size is not one, on top of the
        groups `done` taken back from the tables `mc0`, `mm0` and `msm0`. */
    static method DropName(dc: map<string, seq<ClassId>>, dm: map<ClassId, seq<MethodId>>, n: string, ghost done: set<string>,
                           ghost mc0: map<ClassId, string>, ghost mm0: map<MethodId, string>, ghost msm0: map<MethodId, Sig>,
                           mc: map<ClassId, string>, mm: map<MethodId, string>, msm: map<MethodId, Sig>)
      returns (mc': map<ClassId, string>, mm': map<MethodId, string>, msm': map<MethodId, Sig>)
      requires n in dc && forall j :: 0 <= j < |dc[n]| ==> dc[n][j] in dm
      requires mc == mc0 - GroupIds(dc, done)
      requires mm == mm0 - RecordedMethods(dm, GroupIds(dc, done))
      requires msm == msm0 - RecordedMethods(dm, GroupIds(dc, done))
      ensures mc' == mc0 - GroupIds(dc, done + {n})
      ensures mm' == mm0 - RecordedMethods(dm, GroupIds(dc, done + {n}))
      ensures msm' == msm0 - RecordedMethods(dm, GroupIds(dc, done + {n}))
    {
      var group := dc[n];
      GroupIdsAdd(dc, done, n);
      mc', mm', msm' := mc, mm, msm;
      if |group| != 1 {
        ghost var ids := set c | c in group;
        RecordedMethodsUnion(dm, GroupIds(dc, done), ids);
        MinusUnion(mc0, GroupIds(dc, done), ids);
        MinusUnion(mm0, RecordedMethods(dm, GroupIds(dc, done)), RecordedMethods(dm, ids));
        MinusUnion(msm0, RecordedMethods(dm, GroupIds(dc, done)), RecordedMethods(dm, ids));
        mc', mm', msm' := DropGroup(dm, group, mc, mm, msm);
      }
    }

    /** Lines 162-177: the classes of every duplicate group of a size other than one, and
        their recorded methods, taken back; then both tables cleared. */
    method RemoveDuplicates()
      requires DupConsistent(State())
      modifies this
      ensures State() == RollbackDups(old(State()))
    {
      var mc, mm, msm := Survivors();
      matchedClasses, matchedMethods, matchedSigMethods := mc, mm, msm;
      dupClasses, dupMethods := map[], map[];
    }

    /** The three match tables with every duplicate group of a size other than one taken
        back. */
    method Survivors() returns (mc: map<ClassId, string>, mm: map<MethodId, string>, msm: map<MethodId, Sig>)
      requires DupConsistent(State())
      ensures mc == matchedClasses - DupIds(State())
      ensures mm == matchedMethods - DupMethodIds(State())
      ensures msm == matchedSigMethods - DupMethodIds(State())
    {
      mc, mm, msm := matchedClasses, matchedMethods, matchedSigMethods;
      var dc, dm := dupClasses, dupMethods;
      ghost var done: set<string> := {};
      var rest := dc.Keys;
      while rest != {}
        invariant rest + done == dc.Keys && rest !! done
        invariant mc == matchedClasses - GroupIds(dc, done)
        invariant mm == matchedMethods - RecordedMethods(dm, GroupIds(dc, done))
        invariant msm == matchedSigMethods - RecordedMethods(dm, GroupIds(dc, done))
        decreases |rest|
      {
        var n :| n in rest;
        rest := rest - {n};
        assert forall j :: 0 <= j < |dc[n]| ==> dc[n][j] in dm;
        mc, mm, msm := DropName(dc, dm, n, done, matchedClasses, matchedMethods, matchedSigMethods, mc, mm, msm);
        done := done + {n};
      }
      GroupIdsAll(State());
    }

    /** Lines 128-177: both context merges, then the rollback of duplicates. */
    method MergeAndRollback() returns (ghost corder: seq<string>, ghost morder: seq<MethodId>)
      requires Consistent()
      modifies this
      ensures Valid()
      ensures forall i :: 0 <= i < |corder| ==> corder[i] in env.or.ctxClasses(old(ctxLog))
      ensures forall i :: 0 <= i < |morder| ==> morder[i] in env.or.ctxMethods(ClassesMerged(env, old(State()), corder).ctxLog)
      ensures State() == RollbackDups(MethodsMerged(env, ClassesMerged(env, old(State()), corder), morder))
    {
      ghost var s0 := State();
      corder := MergeContextClasses();
      ClassesMergedKeeps(env, s0, corder);
      ghost var s2 := State();
      morder := MergeContextMethods();
      MethodsMergedKeeps(env, s2, morder);
      RemoveDuplicates();
    }

    /** Lines 118-125: the strict pass of `storeFinalCandidates`, and the permissive one
        when this is not the first round and the strict pass stored something. */
    method StorePasses(firstRound: bool) returns (ghost p1: PassRun, ghost p2: Option<PassRun>)
      requires Valid()
      modifies this
      ensures StoreRounds(env, firstRound, old(State()), p1, p2, State())
      ensures Consistent() && Recorded(State(), old(matchedClasses)) && stable
      ensures apkCallerLists == old(apkCallerLists)
      ensures forall x :: x in old(matchedClasses) ==> x in matchedClasses && matchedClasses[x] == old(matchedClasses)[x]
      ensures forall x :: x in matchedClasses && x !in old(matchedClasses) ==> x in env.bin.order
    {
      ghost var mc0 := matchedClasses;
      var processSecondPass;
      processSecondPass, p1 := StoreFinalCandidates(firstRound, true, mc0);
      stable := true;
      p2 := None;
      if !firstRound && processSecondPass {
        var _, run := StoreFinalCandidates(firstRound, false, mc0);
        p2 := Some(run);
      }
    }

    /** `storeMatchedClassesAndMethods`. With no classes only the caller lists are reset.
        Otherwise the passes of `storeFinalCandidates`, traced by `p1` and `p2`, lead to `s1`, which keeps every
        earlier class match and records each new one in its duplicate group; then the
        context merges in the orders `corder` and `morder` and the rollback of duplicates
        follow. Two binary classes newly matched to the same library class both end
        unmatched. */
    method StoreMatchedClassesAndMethods(firstRound: bool)
      returns (ghost s1: RunState, ghost p1: PassRun, ghost p2: Option<PassRun>,
               ghost corder: seq<string>, ghost morder: seq<MethodId>)
      requires Valid()
      modifies this
      ensures Valid()
      ensures |env.bin.order| == 0 ==> State() == old(State()).(callerLists := map[])
      ensures |env.bin.order| > 0 ==>
        && StoreRounds(env, firstRound, old(State()).(callerLists := map[]), p1, p2, s1)
        && s1.callerLists == map[] && s1.stable
        && (forall x :: x in old(matchedClasses) ==> x in s1.matchedClasses && s1.matchedClasses[x] == old(matchedClasses)[x])
        && (forall x :: x in s1.matchedClasses && x !in old(matchedClasses) ==> x in env.bin.order)
        && Recorded(s1, old(matchedClasses)) && DupConsistent(s1)
        && (forall i :: 0 <= i < |corder| ==> corder[i] in env.or.ctxClasses(s1.ctxLog))
        && (forall i :: 0 <= i < |morder| ==> morder[i] in env.or.ctxMethods(ClassesMerged(env, s1, corder).ctxLog))
        && State() == RollbackDups(MethodsMerged(env, ClassesMerged(env, s1, corder), morder))
      ensures |env.bin.order| > 0 ==>
        forall c1, c2 :: Clashing(s1, old(matchedClasses), c1, c2) ==> c1 !in matchedClasses && c2 !in matchedClasses
    {
      apkCallerLists := map[];
      if |env.bin.order| == 0 {
        s1, p1, p2, corder, morder := State(), PassRun([State()], []), None, [], [];
        return;
      }
      ghost var mc0 := matchedClasses;
      p1, p2 := StorePasses(firstRound);
      s1 := State();
      corder, morder := MergeAndRollback();
      ClashesResolved(env, s1, mc0, corder, morder);
    }

    // -------------------------------------------------------------------------
    // postProcessRenameClasses (lines 698-835) and its helpers

    /** One loop over `files` of lines 755-777 or 783-809: the files are asked in turn until
        one gives no answer, an unnamed one or a different name. */
    static method AgreeFiles(next: (Option<Sig>, string) -> Option<Sig>, files: seq<string>, a: Agreement)
      returns (r: Agreement)
      ensures r == Agree(next, files, a)
    {
      r := a;
      var i := 0;
      while i < |files| && r.merged.Some?
        invariant 0 <= i <= |files|
        invariant Agree(next, files[i..], r) == Agree(next, files, a)
        decreases |files| - i, if r.merged.Some? then 1 else 0
      {
        var answer := next(r.last, files[i]);
        if answer.None? || answer.value.mname == [] {
          r := r.(merged := None, last := answer);
        } else if r.merged.value == [] {
          r := Agreement(Some(answer.value.mname), r.arrays + [answer.value], answer);
          i := i + 1;
        } else if r.merged.value != answer.value.mname {
          r := r.(merged := None, last := answer);
        } else {
          r := r.(last := answer);
          i := i + 1;
        }
      }
    }

    /** Lines 729-828 for one method: the hash phase, the name phase, and what is done with
        the agreed name. */
    method RefineMethod(firstRound: bool, className: string, files: seq<string>, mid: MethodId, already: seq<Sig>)
      returns (r: Refined)
      ensures r == Refine(env, firstRound, className, files, mid, already)
    {
      var m := env.bin.Method(mid);
      var a := Start;
      if m.instructions.Some? {
        var hash := env.or.tightHash(mid);
        if hash.None? {
          return Skip;
        }
        a := AgreeFiles(HashNext(env, hash.value, m.prototype, m.shorty, className, already, mid), files, Start);
      }
      if BlankOpt(a.merged) && !firstRound {
        a := AgreeFiles(NameNext(env, m.prototype, m.shorty, className, already, mid), files,
                        Agreement(Some([]), a.arrays, None));
      }
      if BlankOpt(a.merged) {
        r := Skip;
      } else if |a.arrays| == 1 {
        r := Refined.Commit(a.merged.value, a.arrays[0]);
      } else {
        r := Context(a.merged.value);
      }
    }

    /** `getCandidateFilesForClass` (lines 837-863). */
    method GetCandidateFilesForClass(f: Option<string>, className: string) returns (files: Option<seq<string>>)
      ensures files == CandidateFiles(env, fileLog, f, className)
    {
      if f.Some? {
        return Some([f.value]);
      }
      var found := env.or.filesContainingClass(className);
      if found.None? {
        return None;
      }
      var fs := found.value;
      var inUse := env.or.usedSigFiles(fileLog);
      var used := [];
      var i := 0;
      while i < |fs|
        invariant 0 <= i <= |fs|
        invariant used == UsedOnly(fs[..i], inUse)
      {
        assert fs[..i + 1][..i] == fs[..i];
        if fs[i] in inUse {
          used := used + [fs[i]];
        }
        i := i + 1;
      }
      assert fs[..i] == fs;
      if |fs| > 1 && used != [] {
        files := Some(used);
      } else {
        files := Some(fs);
      }
    }

    /** `getAlreadyMatched` (lines 668-695): the signatures of the matched methods of `ms`,
        with the ones found in the class's file remembered. */
    method GetAlreadyMatched(className: string, ms: seq<MethodId>, f: Option<string>) returns (already: seq<Sig>)
      modifies this
      ensures (State(), already) == AlreadyFrom(env, className, f, old(State()), [], ms)
    {
      var msm := matchedSigMethods;
      already := [];
      var i := 0;
      while i < |ms|
        invariant 0 <= i <= |ms|
        invariant AlreadyFrom(env, className, f, State().(matchedSigMethods := msm), already, ms[i..]) ==
                  AlreadyFrom(env, className, f, old(State()), [], ms)
        invariant unchanged(this)
      {
        var mid := ms[i];
        assert ms[i..][1..] == ms[i + 1..];
        if mid in matchedMethods {
          if mid in msm {
            already := already + [msm[mid]];
          } else {
            var name := matchedMethods[mid];
            var match_ := if f.Some? then env.or.findMatched(f.value, className, mid, name) else None;
            if match_.Some? {
              msm := msm[mid := match_.value];
              already := already + [match_.value];
            } else {
              var m := env.bin.Method(mid);
              already := already + [Sig(className, name, m.shorty, m.prototype, None, [], map[])];
            }
          }
        }
        i := i + 1;
      }
      matchedSigMethods := msm;
    }

    /** Lines 729-828 for one internal method `mid` not matched yet, on the method tables
        `mm`, `msm` and the context log `log` of a state `s`. */
    method SweepOne(ghost s: RunState, firstRound: bool, className: string, files: seq<string>, mid: MethodId,
                    mm: map<MethodId, string>, msm: map<MethodId, Sig>, log: seq<CtxEvent>, already: seq<Sig>)
      returns (mm': map<MethodId, string>, msm': map<MethodId, Sig>, log': seq<CtxEvent>, already': seq<Sig>)
      requires env.bin.Method(mid).internal && mid !in mm
      ensures (s.(matchedMethods := mm', matchedSigMethods := msm', ctxLog := log'), already') ==
        SweepStep(env, firstRound, className, files, s.(matchedMethods := mm, matchedSigMethods := msm, ctxLog := log), already, mid)
    {
      var m := env.bin.Method(mid);
      mm', msm', log', already' := mm, msm, log, already;
      var res := RefineMethod(firstRound, className, files, mid, already);
      match res {
        case Skip =>
        case Commit(n, sig) =>
          mm' := mm[mid := n];
          msm' := msm[mid := sig];
          if m.prototype != sig.prototype {
            log' := log + [SaveParamMatching(m.prototype, sig.prototype, className, n)];
          } else {
            assert log + [] == log;
          }
          already' := already + [sig];
        case Context(n) =>
          log' := log + [SaveMethodMatch(mid, n)];
      }
    }

    /** One pass of the do-while body of lines 726-831 over the methods `ms` of a class; the
        candidate files are loaded at the first method looked at, and the pass stops there
        when the class is in no library file. */
    method SweepMethods(firstRound: bool, className: string, f: Option<string>, ms: seq<MethodId>, already: seq<Sig>)
      returns (already': seq<Sig>)
      modifies this
      ensures (State(), already') ==
        SweepPass(env, firstRound, className, CandidateFiles(env, old(fileLog), f, className), old(State()), already, ms)
    {
      var mm, msm, log;
      mm, msm, log, already' := SweepTables(firstRound, className, f, ms, already);
      matchedMethods, matchedSigMethods, ctxLog := mm, msm, log;
    }

    /** The pass of `SweepMethods` on copies of the two method tables and the context log:
        the methods before the first one looked at are passed over, the candidate files are
        then loaded, and the pass goes on from that method. */
    method SweepTables(firstRound: bool, className: string, f: Option<string>, ms: seq<MethodId>, already: seq<Sig>)
      returns (mm: map<MethodId, string>, msm: map<MethodId, Sig>, log: seq<CtxEvent>, already': seq<Sig>)
      ensures (State().(matchedMethods := mm, matchedSigMethods := msm, ctxLog := log), already') ==
        SweepPass(env, firstRound, className, CandidateFiles(env, fileLog, f, className), State(), already, ms)
    {
      ghost var s0 := State();
      ghost var fs := CandidateFiles(env, fileLog, f, className);
      mm, msm, log, already' := matchedMethods, matchedSigMethods, ctxLog, already;
      var i := 0;
      while i < |ms| && !(env.bin.Method(ms[i]).internal && ms[i] !in mm)
        invariant 0 <= i <= |ms|
        invariant fs.Some? ==>
          SweepFrom(env, firstRound, className, fs.value, s0, already, ms[i..]) ==
          SweepPass(env, firstRound, className, fs, s0, already, ms)
      {
        assert ms[i..][1..] == ms[i + 1..];
        i := i + 1;
      }
      if i == |ms| {
        return;
      }
      var files := GetCandidateFilesForClass(f, className);
      if files.None? {
        return;
      }
      mm, msm, log, already' := SweepRest(s0, firstRound, className, files.value, ms[i..], mm, msm, log, already);
    }

    /** Lines 729-829 over the methods `ms` with the candidate files `files`, on copies of
        the method tables and the context log of a state `s`. */
    method SweepRest(ghost s: RunState, firstRound: bool, className: string, files: seq<string>, ms: seq<MethodId>,
                     mm: map<MethodId, string>, msm: map<MethodId, Sig>, log: seq<CtxEvent>, already: seq<Sig>)
      returns (mm': map<MethodId, string>, msm': map<MethodId, Sig>, log': seq<CtxEvent>, already': seq<Sig>)
      requires mm == s.matchedMethods && msm == s.matchedSigMethods && log == s.ctxLog
      ensures (s.(matchedMethods := mm', matchedSigMethods := msm', ctxLog := log'), already') ==
        SweepFrom(env, firstRound, className, files, s, already, ms)
    {
      mm', msm', log', already' := mm, msm, log, already;
      assert s.(matchedMethods := mm', matchedSigMethods := msm', ctxLog := log') == s;
      var i := 0;
      while i < |ms|
        invariant 0 <= i <= |ms|
        invariant SweepFrom(env, firstRound, className, files,
                            s.(matchedMethods := mm', matchedSigMethods := msm', ctxLog := log'), already', ms[i..]) ==
                  SweepFrom(env, firstRound, className, files, s, already, ms)
      {
        var mid := ms[i];
        assert ms[i..][1..] == ms[i + 1..];
        if env.bin.Method(mid).internal && mid !in mm' {
          mm', msm', log', already' := SweepOne(s, firstRound, className, files, mid, mm', msm', log', already');
        }
        i := i + 1;
      }
    }

    /** Lines 705-831 for matched class `c` renamed to `name`: the class's file, the
        signatures already matched, then sweeps until one renames nothing. */
    method RenameClassMethods(c: ClassId, name: string, firstRound: bool)
      modifies this
      ensures State() == RenameClass(env, firstRound, old(State()), c, name)
    {
      if c !in env.bin.classes {
        return;
      }
      var f := env.or.fileFromClass(fileLog, c);
      if f.None? {
        f := env.or.matchedClassFile(fileLog, c, name);
      }
      var ms := env.bin.classes[c].methods;
      if |ms| == 0 {
        return;
      }
      var className := env.bin.classes[c].signature;
      var already := GetAlreadyMatched(className, ms, f);
      ghost var s1, a1 := State(), already;
      ghost var files := CandidateFiles(env, fileLog, f, className);
      while true
        invariant fileLog == s1.fileLog
        invariant Repeat(env, firstRound, className, files, State(), already, ms) ==
                  Repeat(env, firstRound, className, files, s1, a1, ms)
        decreases |Unmatched(env.bin, State(), ms)|
      {
        ghost var before, beforeAlready := State(), already;
        var size := |already|;
        already := SweepMethods(firstRound, className, f, ms, already);
        if |already| == size {
          break;
        }
        SweepProgress(env, firstRound, className, files.value, before, beforeAlready, ms, ms);
      }
    }

    /** `postProcessRenameClasses`: the caller lists loaded when empty, then every matched
        class swept under its name, in the order `order` of the matched classes. */
    method PostProcessRenameClasses(firstRound: bool) returns (ghost order: seq<ClassId>)
      modifies this
      ensures ListsKeys(order, old(matchedClasses).Keys)
      ensures forall i :: 0 <= i < |order| ==> order[i] in old(matchedClasses)
      ensures State() == RenameAll(env, firstRound, old(matchedClasses),
        old(State()).(callerLists := if |old(apkCallerLists)| == 0 then env.or.callerLists else old(apkCallerLists)),
        order)
    {
      if |apkCallerLists| == 0 {
        apkCallerLists := env.or.callerLists;
      }
      order := RenameMatchedClasses(firstRound);
    }

    /** Lines 704-832: every matched class swept under its name, in the order `order`. */
    method RenameMatchedClasses(firstRound: bool) returns (ghost order: seq<ClassId>)
      modifies this
      ensures ListsKeys(order, old(matchedClasses).Keys)
      ensures forall i :: 0 <= i < |order| ==> order[i] in old(matchedClasses)
      ensures State() == RenameAll(env, firstRound, old(matchedClasses), old(State()), order)
    {
      ghost var s0 := State();
      var mc := matchedClasses;
      var rest := mc.Keys;
      order := [];
      while rest != {}
        invariant Taking(rest, order, mc.Keys)
        invariant forall i :: 0 <= i < |order| ==> order[i] in mc
        invariant State() == RenameAll(env, firstRound, mc, s0, order)
        decreases |rest|
      {
        var c :| c in rest;
        TakingStep(rest, order, mc.Keys, c);
        rest := rest - {c};
        assert (order + [c])[..|order|] == order;
        RenameClassMethods(c, mc[c], firstRound);
        order := order + [c];
      }
      TakingDone(order, mc.Keys);
    }

    // -------------------------------------------------------------------------
    // postProcessRenameMethods (lines 585-623) and getBestCallers (lines 625-666)

    /** `getBestCallers` for matched signature `target`. */
    method GetBestCallers(target: Sig) returns (r: Option<map<string, int>>)
      ensures r == BestCallers(env, fileLog, target)
    {
      var cl := Lookup(env.bin.byName, target.cname);
      if cl.None? {
        return None;
      }
      var file := env.or.matchedClassFile(fileLog, cl.value, target.cname);
      if file.None? {
        return None;
      }
      var f := file.value;
      var compatible := env.or.exactQuery(f, target.cname);
      var candidates := [];
      var i := 0;
      while i < |compatible|
        invariant 0 <= i <= |compatible|
        invariant candidates == CallerCandidates(target, compatible[..i])
      {
        assert compatible[..i + 1][..i] == compatible[..i];
        var sig := compatible[i];
        if sig.mname == target.mname && sig.prototype == target.prototype && !IsBlank(sig.caller) {
          candidates := candidates + [sig];
        }
        i := i + 1;
      }
      assert compatible[..i] == compatible;
      if |candidates| == 0 {
        return None;
      }
      if |candidates| == 1 {
        return Some(candidates[0].targetCaller);
      }
      var best := env.or.filterMatching(fileLog, f, candidates);
      r := None;
      var j := 0;
      while j < |best|
        invariant 0 <= j <= |best|
        invariant r == if j == 0 then None else Some(best[0].targetCaller)
        invariant j > 0 ==> AllExpect(best[..j], best[0].targetCaller)
      {
        if r.None? {
          r := Some(best[j].targetCaller);
        } else if r.value != best[j].targetCaller {
          return None;
        }
        j := j + 1;
      }
      assert best[..j] == best;
    }

    /** Lines 592-599: the binary's callers of one method as caller signature to call count,
        taken in the order `order` of the caller map. */
    method BinaryCalls(callers: map<MethodId, int>) returns (calls: map<string, int>, ghost order: seq<MethodId>)
      ensures ListsKeys(order, callers.Keys)
      ensures forall j :: 0 <= j < |order| ==> order[j] in callers
      ensures calls == Calls(env.bin, callers, order)
    {
      calls := map[];
      order := [];
      var rest := callers.Keys;
      while rest != {}
        invariant rest <= callers.Keys
        invariant forall k :: k in order <==> k in callers && k !in rest
        invariant |order| + |rest| == |callers.Keys|
        invariant forall j :: 0 <= j < |order| ==> order[j] in callers
        invariant calls == Calls(env.bin, callers, order)
        decreases |rest|
      {
        var k :| k in rest;
        rest := rest - {k};
        assert (order + [k])[..|order|] == order;
        calls := calls[env.bin.Method(k).signature := callers[k]];
        order := order + [k];
      }
    }

    /** Lines 600-620 for one matched signature and the binary's calls of its method: the
        event handed to ContextMatches, if any. */
    method CallerEvent(sig: Sig, calls: map<string, int>) returns (ev: seq<CtxEvent>)
      ensures ev == CallerEvents(env, fileLog, sig, calls)
    {
      var expected := sig.targetCaller;
      if |expected| == 0 && |calls| == 0 {
        return [];
      }
      if |expected| == 0 {
        var best := GetBestCallers(sig);
        if best.None? || |best.value| == 0 {
          return [];
        }
        expected := best.value;
      }
      if |expected| == 1 && |calls| == 1 {
        var x :| x in expected;
        var y :| y in calls;
        SingletonKey(expected, x);
        SingletonKey(calls, y);
        if expected[x] == calls[y] {
          ev := [SaveCallerMatching(x, y)];
        } else {
          ev := [];
        }
      } else {
        ev := [SaveCallerMatchings(expected, calls)];
      }
    }

    /** `postProcessRenameMethods`: the caller lists loaded when empty, then every matched
        signature, in the order `order`, compared with the binary's calls `calls[i]` of its
        method (gathered in the order `corders[i]` of its caller map). Only the context log
        and the caller lists change. */
    method PostProcessRenameMethods()
      returns (ghost order: seq<MethodId>, ghost calls: seq<map<string, int>>, ghost corders: seq<seq<MethodId>>)
      modifies this
      ensures apkCallerLists == if |old(apkCallerLists)| == 0 then env.or.callerLists else old(apkCallerLists)
      ensures ListsKeys(order, matchedSigMethods.Keys) && |calls| == |order| && |corders| == |order|
      ensures forall i :: 0 <= i < |order| ==> order[i] in matchedSigMethods
      ensures forall i :: 0 <= i < |order| ==> CallsOf(env.bin, apkCallerLists, order[i], calls[i], corders[i])
      ensures State() == old(State()).(callerLists := apkCallerLists,
        ctxLog := old(ctxLog) + CallerPass(env, fileLog, matchedSigMethods, order, calls))
    {
      if |apkCallerLists| == 0 {
        apkCallerLists := env.or.callerLists;
      }
      var log;
      log, order, calls, corders := CallerContext();
      ctxLog := log;
    }

    /** Lines 591-620 for matched method `k`: the binary's calls of it and the event. */
    method MethodCallerEvent(k: MethodId) returns (c: map<string, int>, ghost co: seq<MethodId>, ev: seq<CtxEvent>)
      requires k in matchedSigMethods
      ensures CallsOf(env.bin, apkCallerLists, k, c, co)
      ensures ev == CallerEvents(env, fileLog, matchedSigMethods[k], c)
    {
      c, co := map[], [];
      if k in apkCallerLists {
        c, co := BinaryCalls(apkCallerLists[k]);
      }
      ev := CallerEvent(matchedSigMethods[k], c);
    }

    /** Lines 590-621: the loop over the matched signatures, giving the new context log. */
    method CallerContext()
      returns (log: seq<CtxEvent>, ghost order: seq<MethodId>, ghost calls: seq<map<string, int>>,
               ghost corders: seq<seq<MethodId>>)
      ensures ListsKeys(order, matchedSigMethods.Keys) && |calls| == |order| && |corders| == |order|
      ensures forall i :: 0 <= i < |order| ==> order[i] in matchedSigMethods
      ensures forall i :: 0 <= i < |order| ==> CallsOf(env.bin, apkCallerLists, order[i], calls[i], corders[i])
      ensures log == ctxLog + CallerPass(env, fileLog, matchedSigMethods, order, calls)
    {
      var msm, cl := matchedSigMethods, apkCallerLists;
      log := ctxLog;
      var rest := msm.Keys;
      order, calls, corders := [], [], [];
      while rest != {}
        invariant CallerLoop(env, fileLog, ctxLog, msm, cl, rest, order, calls, corders, log)
        decreases |rest|
      {
        var k :| k in rest;
        var c, co, ev := MethodCallerEvent(k);
        CallerLoopStep(env, fileLog, ctxLog, msm, cl, rest, order, calls, corders, log, k, c, co, ev);
        rest := rest - {k};
        log := log + ev;
        order, calls, corders := order + [k], calls + [c], corders + [co];
      }
      TakingDone(order, msm.Keys);
    }
  }
}
