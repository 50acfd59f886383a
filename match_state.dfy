/** The state DatabaseMatcher2 keeps across calls, and what its class-storing steps do to
    it: the inner-class gate at the head of `getClass` (DatabaseMatcher2.java lines 209-244)
    and `storeFinalCandidate` (lines 415-529). */
module MatchState {
  import opened Wrappers
  import opened JavaStrings
  import opened Dex
  import opened Gate
  import opened Ranking
  import opened InnerClasses

  /** What the matcher is built with and never changes: the binary, the acceptance bar of
      the gate and the collaborators. */
  datatype Env = Env(bin: Binary, bar: real, or: Oracles)

  /** The fields of DatabaseMatcher2 that the core reads and writes, with the calls made to
      FileMatches and ContextMatches as logs. */
  datatype RunState = RunState(
    matchedClasses: map<ClassId, string>,
    matchedMethods: map<MethodId, string>,
    matchedSigMethods: map<MethodId, Sig>,
    dupClasses: map<string, seq<ClassId>>,
    dupMethods: map<ClassId, seq<MethodId>>,
    instruCount: map<ClassId, nat>,
    fileLog: seq<FileEvent>,
    stable: bool,
    ctxLog: seq<CtxEvent>,
    callerLists: map<MethodId, map<MethodId, int>>)

  function Lookup<K, V>(m: map<K, V>, k: K): (r: Option<V>)
    ensures r.Some? <==> k in m
    ensures r.Some? ==> r.value == m[k]
  {
    if k in m then Some(m[k]) else None
  }

  /** Every class recorded in a duplicate group is matched to the group's name and has its
      matched method ids recorded. */
  ghost predicate DupConsistent(s: RunState) {
    forall n, i :: n in s.dupClasses && 0 <= i < |s.dupClasses[n]| ==>
      s.dupClasses[n][i] in s.dupMethods && s.dupClasses[n][i] in s.matchedClasses &&
      s.matchedClasses[s.dupClasses[n][i]] == n
  }

  // ---------------------------------------------------------------------------
  // The inner-class gate of getClass

  /** `isInnerClassCandidate` (lines 374-378): a library class that is not a class of the
      binary, or one that is not matched yet. */
  predicate IsInnerClassCandidate(bin: Binary, matched: map<ClassId, string>, s: Sig) {
    s.cname !in bin.byName || bin.byName[s.cname] !in matched
  }

  function InnerCandidates(bin: Binary, matched: map<ClassId, string>, sigs: seq<Sig>): seq<Sig> {
    if sigs == [] then []
    else
      var last := sigs[|sigs| - 1];
      InnerCandidates(bin, matched, sigs[..|sigs| - 1]) +
        (if IsInnerClassCandidate(bin, matched, last) then [last] else [])
  }

  /** The filter keeps exactly the candidates, in order. */
  lemma {:induction false} InnerCandidatesMembers(bin: Binary, matched: map<ClassId, string>, sigs: seq<Sig>)
    ensures |InnerCandidates(bin, matched, sigs)| <= |sigs|
    ensures forall s :: s in InnerCandidates(bin, matched, sigs) <==> s in sigs && IsInnerClassCandidate(bin, matched, s)
  {
    if sigs != [] {
      var p := sigs[..|sigs| - 1];
      InnerCandidatesMembers(bin, matched, p);
      assert sigs == p + [sigs[|sigs| - 1]];
    }
  }

  /** In a well-formed binary a kept candidate names no matched class. */
  lemma KeptNamesNoMatchedClass(bin: Binary, matched: map<ClassId, string>, sigs: seq<Sig>, s: Sig, c: ClassId)
    requires bin.Valid()
    requires s in InnerCandidates(bin, matched, sigs)
    requires c in matched && c in bin.classes
    ensures bin.classes[c].signature != s.cname
  {
    InnerCandidatesMembers(bin, matched, sigs);
  }

  /** What the head of `getClass` decides for an inner class: wait for the parent, record the
      only possible inner class as a context match, or search (restricted to the inner
      classes of the parent's file when that file is known). */
  datatype InnerGate = Defer | Resolved(event: CtxEvent) | Search(inner: Option<(string, string)>)

  function GateInner(e: Env, s: RunState, c: ClassId, firstRound: bool, unique: bool): InnerGate
    requires c in e.bin.classes
  {
    var sig := e.bin.classes[c].signature;
    if !e.or.isInner(sig) then Search(None)
    else
      var parent := e.or.parentClass(sig);
      if parent.Some? && parent.value in s.matchedClasses then
        var name := s.matchedClasses[parent.value];
        var file := e.or.fileFromClass(s.fileLog, parent.value);
        if file.None? || name == [] then Search(None)
        else
          var innerClass := name[..|name| - 1] + "$";
          var merged := e.or.mergePerClass(e.or.prefixQuery(file.value, innerClass));
          var versions := e.or.parentVersions(s.fileLog, parent.value, s.matchedSigMethods);
          var cands := InnerCandidates(e.bin, s.matchedClasses, VersionFiltered(merged, versions));
          if |cands| == 1 then Resolved(SaveClassMatch(sig, cands[0].cname, name))
          else Search(Some((file.value, innerClass)))
      else if firstRound || unique then Defer
      else Search(None)
  }

  /** An inner class whose parent is not matched waits in the first round and in the strict
      pass, and is searched like any class in the permissive pass of a later round. */
  lemma UnmatchedParentWaits(e: Env, s: RunState, c: ClassId, firstRound: bool, unique: bool)
    requires c in e.bin.classes
    requires e.or.isInner(e.bin.classes[c].signature)
    requires var p := e.or.parentClass(e.bin.classes[c].signature); p.None? || p.value !in s.matchedClasses
    ensures GateInner(e, s, c, firstRound, unique) == if firstRound || unique then Defer else Search(None)
  {
  }

  /** A resolved inner class is matched, in the context, to a library class that is one of the
      version-compatible inner classes of its parent's match and is no matched binary class;
      the match is recorded under the parent's name. */
  lemma ResolvedIsOnlyCandidate(e: Env, s: RunState, c: ClassId, firstRound: bool, unique: bool)
    requires c in e.bin.classes
    requires GateInner(e, s, c, firstRound, unique).Resolved?
    ensures var sig := e.bin.classes[c].signature;
      var p := e.or.parentClass(sig);
      e.or.isInner(sig) && p.Some? && p.value in s.matchedClasses &&
      var name := s.matchedClasses[p.value];
      var file := e.or.fileFromClass(s.fileLog, p.value);
      file.Some? && |name| > 0 &&
      var ev := GateInner(e, s, c, firstRound, unique).event;
      var merged := e.or.mergePerClass(e.or.prefixQuery(file.value, name[..|name| - 1] + "$"));
      ev.SaveClassMatch? && ev.oldClass == sig && ev.matchedName == name &&
      exists t :: t in VersionFiltered(merged, e.or.parentVersions(s.fileLog, p.value, s.matchedSigMethods)) &&
        t.cname == ev.newClass && IsInnerClassCandidate(e.bin, s.matchedClasses, t)
  {
    var sig := e.bin.classes[c].signature;
    var p := e.or.parentClass(sig);
    var name := s.matchedClasses[p.value];
    var file := e.or.fileFromClass(s.fileLog, p.value);
    var merged := e.or.mergePerClass(e.or.prefixQuery(file.value, name[..|name| - 1] + "$"));
    var filtered := VersionFiltered(merged, e.or.parentVersions(s.fileLog, p.value, s.matchedSigMethods));
    var cands := InnerCandidates(e.bin, s.matchedClasses, filtered);
    InnerCandidatesMembers(e.bin, s.matchedClasses, filtered);
    assert cands[0] in cands;
  }

  // ---------------------------------------------------------------------------
  // storeFinalCandidate

  /** How `storeFinalCandidate` ends. */
  datatype Outcome =
    | DroppedFlat        // an inner library class for a top-level binary class
    | DroppedParent      // parents differ, first round
    | DroppedConflict    // parents differ and an ancestor is matched elsewhere
    | NoMethods          // the candidate has no matched methods
    | GateRejected       // `f` refused the class
    | VersionsRejected   // FileMatches refused the versions
    | Committed

  datatype Stored = Stored(state: RunState, outcome: Outcome)

  /** A matched method the candidate may rename: its name is not blank and it is not marked
      as one not to rename. */
  predicate Renamable(cand: Candidate, k: MethodId)
    requires k in cand.classPathMethod
  {
    !IsBlank(cand.classPathMethod[k].mname) && k !in cand.doNotRename
  }

  function NamesOf(cand: Candidate): map<MethodId, string> {
    map k | k in cand.classPathMethod && Renamable(cand, k) :: cand.classPathMethod[k].mname
  }

  function SigsOf(cand: Candidate): map<MethodId, Sig> {
    map k | k in cand.classPathMethod && Renamable(cand, k) :: cand.classPathMethod[k]
  }

  /** `ids` lists the keys `keys`, each once: the iteration order of a hash map. */
  ghost predicate ListsKeys(ids: seq<MethodId>, keys: set<MethodId>) {
    |ids| == |keys| && forall k :: k in ids <==> k in keys
  }

  /** The signatures of `ids`, in that order. */
  function Values(cand: Candidate, ids: seq<MethodId>): seq<Sig> {
    if ids == [] then []
    else
      var k := ids[|ids| - 1];
      Values(cand, ids[..|ids| - 1]) + (if k in cand.classPathMethod then [cand.classPathMethod[k]] else [])
  }

  /** Over a listing of the keys these are the candidate's signatures, one per key. */
  lemma {:induction false} ValuesOfKeys(cand: Candidate, ids: seq<MethodId>)
    requires forall i :: 0 <= i < |ids| ==> ids[i] in cand.classPathMethod
    ensures |Values(cand, ids)| == |ids|
    ensures forall i :: 0 <= i < |ids| ==> Values(cand, ids)[i] == cand.classPathMethod[ids[i]]
  {
    if ids != [] {
      ValuesOfKeys(cand, ids[..|ids| - 1]);
    }
  }

  predicate ParamDiffers(bin: Binary, cand: Candidate, k: MethodId)
    requires k in cand.classPathMethod
  {
    bin.Method(k).prototype != cand.classPathMethod[k].prototype
  }

  function ParamEvent(bin: Binary, cand: Candidate, k: MethodId): CtxEvent
    requires k in cand.classPathMethod
  {
    var sig := cand.classPathMethod[k];
    SaveParamMatching(bin.Method(k).prototype, sig.prototype, cand.className, sig.mname)
  }

  /** The parameter matches reported after a commit (lines 509-519). */
  function ParamEvents(bin: Binary, cand: Candidate, ids: seq<MethodId>): seq<CtxEvent> {
    if ids == [] then []
    else
      var k := ids[|ids| - 1];
      ParamEvents(bin, cand, ids[..|ids| - 1]) +
        (if k in cand.classPathMethod && ParamDiffers(bin, cand, k) then [ParamEvent(bin, cand, k)] else [])
  }

  /** One parameter match is reported per listed method whose binary prototype differs from
      the library's, and no other. */
  lemma {:induction false} ParamEventsExact(bin: Binary, cand: Candidate, ids: seq<MethodId>)
    ensures |ParamEvents(bin, cand, ids)| <= |ids|
    ensures forall ev :: ev in ParamEvents(bin, cand, ids) ==>
      exists k :: k in ids && k in cand.classPathMethod && ParamDiffers(bin, cand, k) && ev == ParamEvent(bin, cand, k)
    ensures forall k :: k in ids && k in cand.classPathMethod && ParamDiffers(bin, cand, k) ==>
      ParamEvent(bin, cand, k) in ParamEvents(bin, cand, ids)
  {
    if ids != [] {
      var p := ids[..|ids| - 1];
      ParamEventsExact(bin, cand, p);
      assert ids == p + [ids[|ids| - 1]];
    }
  }

  /** Lines 416-473: the checks made when the library class is an inner class. `None` when
      the methods are to be stored next. */
  function InnerChecks(e: Env, s: RunState, c: ClassId, cand: Candidate, firstRound: bool): (RunState, Option<Outcome>)
    requires c in e.bin.classes
  {
    var sig := e.bin.classes[c].signature;
    var drop := s.(fileLog := s.fileLog + [RemoveClassFiles(c)]);
    if !IsNested(cand.className) then (s, None)
    else if !IsNested(sig) then (drop, Some(DroppedFlat))
    else if Parent(sig) == Parent(cand.className) then (s, None)
    else if firstRound then (drop, Some(DroppedParent))
    else if AnyClash(e.bin, s.matchedClasses, sig, cand.className) then (drop, Some(DroppedConflict))
    else (s.(ctxLog := LevelMatches(s.ctxLog, sig, cand.className, cand.className)), None)
  }

  /** The renamable methods stored under their library names (lines 479-486). */
  function Stage(s: RunState, cand: Candidate): RunState {
    s.(matchedMethods := s.matchedMethods + NamesOf(cand), matchedSigMethods := s.matchedSigMethods + SigsOf(cand))
  }

  /** Every method of the candidate taken back (lines 523-526). */
  function Unstage(s: RunState, cand: Candidate): RunState {
    s.(matchedMethods := s.matchedMethods - cand.classPathMethod.Keys,
       matchedSigMethods := s.matchedSigMethods - cand.classPathMethod.Keys)
  }

  /** The total the gate leaves in the cache for class `c`. */
  function Cache(s: RunState, c: ClassId, total: Option<nat>): RunState {
    if total.Some? then s.(instruCount := s.instruCount[c := total.value]) else s
  }

  /** The class matched and recorded in the duplicate tables, and its parameter matches
      reported (lines 494-519). */
  function Commit(e: Env, s: RunState, c: ClassId, cand: Candidate, ids: seq<MethodId>): RunState {
    var group := Lookup(s.dupClasses, cand.className).GetOr([]);
    s.(matchedClasses := s.matchedClasses[c := cand.className],
       dupClasses := s.dupClasses[cand.className := group + [c]],
       dupMethods := s.dupMethods[c := ids],
       ctxLog := s.ctxLog + ParamEvents(e.bin, cand, ids))
  }

  /** Lines 475-528: the renamable methods are stored, then the gate's decision `d` either
      commits the class or takes back every method of the candidate. */
  function StoreMethods(e: Env, s: RunState, c: ClassId, cand: Candidate, ids: seq<MethodId>, d: Decision): Stored
  {
    if |cand.classPathMethod| == 0 then Stored(s, NoMethods)
    else
      var s2 := Cache(Stage(s, cand), c, d.cache);
      if !d.accept then Stored(Unstage(s2, cand), GateRejected)
      else
        var vals := Values(cand, ids);
        var s3 := s2.(fileLog := s2.fileLog + [AddVersions(cand.file, vals)]);
        if !e.or.addVersions(s2.fileLog, cand.file, vals) then Stored(s3, VersionsRejected)
        else Stored(Commit(e, s3, c, cand, ids), Committed)
  }

  /** `storeFinalCandidate` for class `c` and candidate `cand`, whose keys iterate as `ids`;
      the gate is `f` on the state after the checks. */
  function StoreFinal(e: Env, s: RunState, c: ClassId, cand: Candidate, firstRound: bool, ids: seq<MethodId>): Stored
    requires c in e.bin.classes
  {
    var (s1, out) := InnerChecks(e, s, c, cand, firstRound);
    if out.Some? then Stored(s1, out.value)
    else StoreMethods(e, s1, c, cand, ids, Decide(e.bin, c, ids, Lookup(s1.instruCount, c), e.bar))
  }

  // ---------------------------------------------------------------------------
  // Properties of storeFinalCandidate

  /** An inner library class is never stored for a top-level binary class, and in the first
      round never for a class whose parent differs: the class's files are dropped and nothing
      else changes. */
  lemma InnerMismatchDropped(e: Env, s: RunState, c: ClassId, cand: Candidate, firstRound: bool)
    requires c in e.bin.classes
    requires IsNested(cand.className)
    requires var sig := e.bin.classes[c].signature;
      !IsNested(sig) || (firstRound && Parent(sig) != Parent(cand.className))
    ensures var r := InnerChecks(e, s, c, cand, firstRound);
      r.0 == s.(fileLog := s.fileLog + [RemoveClassFiles(c)]) &&
      r.1 in {Some(DroppedFlat), Some(DroppedParent)}
  {
  }

  /** Outside the first round, a class whose parents differ is dropped exactly when some
      ancestor pair clashes; when none does, the per-level class matches are recorded. */
  lemma ConflictDropped(e: Env, s: RunState, c: ClassId, cand: Candidate)
    requires c in e.bin.classes
    requires var sig := e.bin.classes[c].signature;
      IsNested(cand.className) && IsNested(sig) && Parent(sig) != Parent(cand.className)
    ensures var sig := e.bin.classes[c].signature;
      var r := InnerChecks(e, s, c, cand, false);
      (r.1 == Some(DroppedConflict) <==> exists p :: p in Ladder(sig, cand.className) && Clash(e.bin, s.matchedClasses, p.0, p.1)) &&
      (r.1 == Some(DroppedConflict) ==> r.0 == s.(fileLog := s.fileLog + [RemoveClassFiles(c)])) &&
      (r.1.None? ==> r.0 == s.(ctxLog := LevelMatches(s.ctxLog, sig, cand.className, cand.className)))
  {
    AnyClashOnLadder(e.bin, s.matchedClasses, e.bin.classes[c].signature, cand.className);
  }

  /** The inner-class checks change only the logs, and when they let the candidate through
      the file log is unchanged. */
  lemma InnerChecksFrame(e: Env, s: RunState, c: ClassId, cand: Candidate, firstRound: bool)
    requires c in e.bin.classes
    ensures var t := InnerChecks(e, s, c, cand, firstRound);
      t.0 == s.(fileLog := t.0.fileLog, ctxLog := t.0.ctxLog) &&
      (t.1.None? ==> t.0.fileLog == s.fileLog)
  {
    var sig := e.bin.classes[c].signature;
    var drop := s.(fileLog := s.fileLog + [RemoveClassFiles(c)]);
    var t := InnerChecks(e, s, c, cand, firstRound);
    if !IsNested(cand.className) || (IsNested(sig) && Parent(sig) == Parent(cand.className)) {
      assert t == (s, None);
    } else if !IsNested(sig) || firstRound || AnyClash(e.bin, s.matchedClasses, sig, cand.className) {
      assert t.0 == drop;
    } else {
      assert t == (s.(ctxLog := LevelMatches(s.ctxLog, sig, cand.className, cand.className)), None);
    }
  }

  /** The outcome follows the gate: a candidate with methods is refused exactly when the gate
      refuses it, and only an accepted class reaches FileMatches. */
  lemma OutcomeFollowsGate(e: Env, s: RunState, c: ClassId, cand: Candidate, ids: seq<MethodId>, d: Decision)
    ensures var r := StoreMethods(e, s, c, cand, ids, d);
      (r.outcome == NoMethods <==> |cand.classPathMethod| == 0) &&
      (r.outcome == GateRejected <==> |cand.classPathMethod| > 0 && !d.accept) &&
      (r.outcome == Committed <==>
        (|cand.classPathMethod| > 0 && d.accept &&
         e.or.addVersions(Cache(Stage(s, cand), c, d.cache).fileLog, cand.file, Values(cand, ids)))) &&
      r.outcome in {NoMethods, GateRejected, VersionsRejected, Committed}
  {
  }

  /** A method whose name is blank or which is marked not to rename keeps whatever entry it
      had, or loses it when the gate refuses the class. */
  lemma UnrenamableUntouched(e: Env, s: RunState, c: ClassId, cand: Candidate, ids: seq<MethodId>, d: Decision, k: MethodId)
    requires k in cand.classPathMethod && !Renamable(cand, k)
    ensures var r := StoreMethods(e, s, c, cand, ids, d).state;
      (k in r.matchedMethods ==> k in s.matchedMethods && r.matchedMethods[k] == s.matchedMethods[k]) &&
      (k in r.matchedSigMethods ==> k in s.matchedSigMethods && r.matchedSigMethods[k] == s.matchedSigMethods[k])
  {
    StoreMethodsCases(e, s, c, cand, ids, d);
    StagedTables(e, s, c, cand, ids, d);
    CommitTables(e, Staged(s, c, cand, ids, d), c, cand, ids);
    assert k !in NamesOf(cand) && k !in SigsOf(cand);
  }

  /** A refused class leaves no method of the candidate matched, keeps every other entry, and
      is not matched. */
  lemma GateRejectionRollsBack(e: Env, s: RunState, c: ClassId, cand: Candidate, ids: seq<MethodId>, d: Decision)
    requires StoreMethods(e, s, c, cand, ids, d).outcome == GateRejected
    ensures var r := StoreMethods(e, s, c, cand, ids, d).state;
      r.matchedClasses == s.matchedClasses &&
      (forall k :: k in cand.classPathMethod ==> k !in r.matchedMethods && k !in r.matchedSigMethods) &&
      (forall k :: k in s.matchedMethods && k !in cand.classPathMethod ==> k in r.matchedMethods && r.matchedMethods[k] == s.matchedMethods[k]) &&
      (forall k :: k in s.matchedSigMethods && k !in cand.classPathMethod ==> k in r.matchedSigMethods && r.matchedSigMethods[k] == s.matchedSigMethods[k])
  {
    StoreMethodsCases(e, s, c, cand, ids, d);
    StagedTables(e, s, c, cand, ids, d);
    CommitTables(e, Staged(s, c, cand, ids, d), c, cand, ids);
    forall k | k in s.matchedMethods && k !in cand.classPathMethod
      ensures k !in NamesOf(cand)
    {
    }
    forall k | k in s.matchedSigMethods && k !in cand.classPathMethod
      ensures k !in SigsOf(cand)
    {
    }
  }

  /** The methods staged and the versions accepted before a commit (lines 475-493). */
  function Staged(s: RunState, c: ClassId, cand: Candidate, ids: seq<MethodId>, d: Decision): RunState {
    var s2 := Cache(Stage(s, cand), c, d.cache);
    s2.(fileLog := s2.fileLog + [AddVersions(cand.file, Values(cand, ids))])
  }

  /** The four ways `StoreMethods` can end, each with its state written out. */
  lemma StoreMethodsCases(e: Env, s: RunState, c: ClassId, cand: Candidate, ids: seq<MethodId>, d: Decision)
    ensures var r := StoreMethods(e, s, c, cand, ids, d);
      var s2 := Cache(Stage(s, cand), c, d.cache);
      var ok := e.or.addVersions(s2.fileLog, cand.file, Values(cand, ids));
      && (|cand.classPathMethod| == 0 ==> r == Stored(s, NoMethods))
      && (|cand.classPathMethod| != 0 && !d.accept ==> r == Stored(Unstage(s2, cand), GateRejected))
      && (|cand.classPathMethod| != 0 && d.accept && !ok ==> r == Stored(Staged(s, c, cand, ids, d), VersionsRejected))
      && (|cand.classPathMethod| != 0 && d.accept && ok ==>
            r == Stored(Commit(e, Staged(s, c, cand, ids, d), c, cand, ids), Committed))
  {
  }

  /** What staging changes: the method tables gain the renamable methods, and the versions
      request is logged. */
  lemma StagedTables(e: Env, s: RunState, c: ClassId, cand: Candidate, ids: seq<MethodId>, d: Decision)
    ensures var s2 := Cache(Stage(s, cand), c, d.cache);
      && s2.matchedMethods == s.matchedMethods + NamesOf(cand)
      && s2.matchedSigMethods == s.matchedSigMethods + SigsOf(cand)
      && s2.matchedClasses == s.matchedClasses && s2.stable == s.stable && s2.callerLists == s.callerLists
      && s2.dupClasses == s.dupClasses && s2.dupMethods == s.dupMethods
    ensures Staged(s, c, cand, ids, d) == Cache(Stage(s, cand), c, d.cache).(fileLog :=
      Cache(Stage(s, cand), c, d.cache).fileLog + [AddVersions(cand.file, Values(cand, ids))])
  {
    CacheTables(Stage(s, cand), c, d.cache);
  }

  lemma CacheTables(s: RunState, c: ClassId, total: Option<nat>)
    ensures var r := Cache(s, c, total);
      r.matchedMethods == s.matchedMethods && r.matchedSigMethods == s.matchedSigMethods &&
      r.matchedClasses == s.matchedClasses && r.stable == s.stable && r.callerLists == s.callerLists &&
      r.dupClasses == s.dupClasses && r.dupMethods == s.dupMethods
  {
  }

  /** A commit leaves the method tables and the flags as they are. */
  lemma CommitTables(e: Env, s: RunState, c: ClassId, cand: Candidate, ids: seq<MethodId>)
    ensures var cm := Commit(e, s, c, cand, ids);
      cm.matchedMethods == s.matchedMethods && cm.matchedSigMethods == s.matchedSigMethods &&
      cm.stable == s.stable && cm.callerLists == s.callerLists
  {
  }

  lemma CommittedStaged(e: Env, s: RunState, c: ClassId, cand: Candidate, ids: seq<MethodId>, d: Decision)
    requires StoreMethods(e, s, c, cand, ids, d).outcome == Committed
    ensures StoreMethods(e, s, c, cand, ids, d).state == Commit(e, Staged(s, c, cand, ids, d), c, cand, ids)
    ensures Staged(s, c, cand, ids, d).matchedMethods == s.matchedMethods + NamesOf(cand)
    ensures Staged(s, c, cand, ids, d).matchedSigMethods == s.matchedSigMethods + SigsOf(cand)
    ensures Staged(s, c, cand, ids, d).matchedClasses == s.matchedClasses
    ensures Staged(s, c, cand, ids, d).dupClasses == s.dupClasses && Staged(s, c, cand, ids, d).dupMethods == s.dupMethods
  {
    StoreMethodsCases(e, s, c, cand, ids, d);
    StagedTables(e, s, c, cand, ids, d);
  }

  /** A committed class is matched to the library class, joins the duplicate group of that
      name, records its method ids, and every renamable method carries its library name. */
  lemma CommitRecords(e: Env, s: RunState, c: ClassId, cand: Candidate, ids: seq<MethodId>, d: Decision)
    requires StoreMethods(e, s, c, cand, ids, d).outcome == Committed
    ensures var r := StoreMethods(e, s, c, cand, ids, d).state;
      r.matchedClasses == s.matchedClasses[c := cand.className] &&
      r.dupMethods == s.dupMethods[c := ids] &&
      r.dupClasses == s.dupClasses[cand.className := Lookup(s.dupClasses, cand.className).GetOr([]) + [c]] &&
      (forall k :: k in cand.classPathMethod && Renamable(cand, k) ==>
        k in r.matchedMethods && r.matchedMethods[k] == cand.classPathMethod[k].mname &&
        k in r.matchedSigMethods && r.matchedSigMethods[k] == cand.classPathMethod[k])
  {
    CommittedStaged(e, s, c, cand, ids, d);
    forall k | k in cand.classPathMethod && Renamable(cand, k)
      ensures k in NamesOf(cand) && k in SigsOf(cand)
    {
    }
  }

  /** Only a commit matches the class or touches the duplicate tables. */
  lemma OnlyCommitMatches(e: Env, s: RunState, c: ClassId, cand: Candidate, ids: seq<MethodId>, d: Decision)
    requires StoreMethods(e, s, c, cand, ids, d).outcome != Committed
    ensures var r := StoreMethods(e, s, c, cand, ids, d).state;
      r.matchedClasses == s.matchedClasses && r.dupClasses == s.dupClasses && r.dupMethods == s.dupMethods
  {
    if |cand.classPathMethod| != 0 {
      var s2 := Cache(Stage(s, cand), c, d.cache);
      assert s2.matchedClasses == s.matchedClasses && s2.dupClasses == s.dupClasses && s2.dupMethods == s.dupMethods;
    }
  }

  /** When FileMatches refuses the versions the class stays unmatched, but the renamable
      methods stay stored under their library names (lines 490-493 return before any
      rollback). */
  lemma VersionsRejectedKeepsMethods(e: Env, s: RunState, c: ClassId, cand: Candidate, ids: seq<MethodId>, d: Decision)
    requires StoreMethods(e, s, c, cand, ids, d).outcome == VersionsRejected
    ensures var r := StoreMethods(e, s, c, cand, ids, d).state;
      r.matchedClasses == s.matchedClasses &&
      |r.fileLog| > 0 && r.fileLog[|r.fileLog| - 1] == AddVersions(cand.file, Values(cand, ids)) &&
      (forall k :: k in cand.classPathMethod && Renamable(cand, k) ==>
        k in r.matchedMethods && r.matchedMethods[k] == cand.classPathMethod[k].mname)
  {
    StoreMethodsCases(e, s, c, cand, ids, d);
    StagedTables(e, s, c, cand, ids, d);
    CommitTables(e, Staged(s, c, cand, ids, d), c, cand, ids);
    forall k | k in cand.classPathMethod && Renamable(cand, k)
      ensures k in NamesOf(cand)
    {
    }
  }

  /** Storing a candidate for an unmatched class keeps the duplicate tables consistent. */
  lemma StorePreservesDup(e: Env, s: RunState, c: ClassId, cand: Candidate, firstRound: bool, ids: seq<MethodId>)
    requires c in e.bin.classes
    requires DupConsistent(s) && c !in s.matchedClasses
    ensures DupConsistent(StoreFinal(e, s, c, cand, firstRound, ids).state)
  {
    var ic := InnerChecks(e, s, c, cand, firstRound);
    InnerChecksFrame(e, s, c, cand, firstRound);
    if ic.1.None? {
      var t := ic.0;
      var d := Decide(e.bin, c, ids, Lookup(t.instruCount, c), e.bar);
      assert DupConsistent(t);
      if StoreMethods(e, t, c, cand, ids, d).outcome == Committed {
        CommitRecords(e, t, c, cand, ids, d);
        DupAfterCommit(t, StoreMethods(e, t, c, cand, ids, d).state, c, cand.className, ids);
      } else {
        OnlyCommitMatches(e, t, c, cand, ids, d);
      }
    }
  }

  /** Every class matched since `mc0` is recorded in the duplicate group of its name. */
  ghost predicate Recorded(s: RunState, mc0: map<ClassId, string>) {
    forall x :: x in s.matchedClasses && x !in mc0 ==>
      s.matchedClasses[x] in s.dupClasses && x in s.dupClasses[s.matchedClasses[x]]
  }

  /** Storing a candidate for an unmatched class keeps every class match, can only match
      that class, records it in the duplicate group of its name when it does, and only
      appends to the duplicate groups. */
  lemma StoreRecords(e: Env, s: RunState, c: ClassId, cand: Candidate, firstRound: bool, ids: seq<MethodId>)
    requires c in e.bin.classes && c !in s.matchedClasses
    ensures var t := StoreFinal(e, s, c, cand, firstRound, ids).state;
      (forall x :: x in s.matchedClasses ==> x in t.matchedClasses && t.matchedClasses[x] == s.matchedClasses[x]) &&
      (forall x :: x in t.matchedClasses ==> x in s.matchedClasses || x == c) &&
      (c in t.matchedClasses ==>
        (t.matchedClasses[c] == cand.className && cand.className in t.dupClasses &&
         c in t.dupClasses[cand.className])) &&
      (forall n :: n in s.dupClasses ==> n in t.dupClasses && s.dupClasses[n] <= t.dupClasses[n])
  {
    var ic := InnerChecks(e, s, c, cand, firstRound);
    InnerChecksFrame(e, s, c, cand, firstRound);
    if ic.1.None? {
      StoreMethodsRecords(e, ic.0, c, cand, ids, Decide(e.bin, c, ids, Lookup(ic.0.instruCount, c), e.bar));
    }
  }

  lemma StoreMethodsRecords(e: Env, s: RunState, c: ClassId, cand: Candidate, ids: seq<MethodId>, d: Decision)
    requires c !in s.matchedClasses
    ensures var t := StoreMethods(e, s, c, cand, ids, d).state;
      (forall x :: x in s.matchedClasses ==> x in t.matchedClasses && t.matchedClasses[x] == s.matchedClasses[x]) &&
      (forall x :: x in t.matchedClasses ==> x in s.matchedClasses || x == c) &&
      (c in t.matchedClasses ==>
        (t.matchedClasses[c] == cand.className && cand.className in t.dupClasses &&
         c in t.dupClasses[cand.className])) &&
      (forall n :: n in s.dupClasses ==> n in t.dupClasses && s.dupClasses[n] <= t.dupClasses[n])
  {
    if StoreMethods(e, s, c, cand, ids, d).outcome == Committed {
      CommitRecords(e, s, c, cand, ids, d);
      var g := Lookup(s.dupClasses, cand.className).GetOr([]);
      assert (g + [c])[|g|] == c;
    } else {
      OnlyCommitMatches(e, s, c, cand, ids, d);
    }
  }

  /** Storing never touches the stable flag or the caller lists. */
  lemma StoreKeepsFlags(e: Env, s: RunState, c: ClassId, cand: Candidate, firstRound: bool, ids: seq<MethodId>)
    requires c in e.bin.classes
    ensures var t := StoreFinal(e, s, c, cand, firstRound, ids).state;
      t.stable == s.stable && t.callerLists == s.callerLists
  {
    var ic := InnerChecks(e, s, c, cand, firstRound);
    InnerChecksFrame(e, s, c, cand, firstRound);
    if ic.1.None? {
      StoreMethodsKeepsFlags(e, ic.0, c, cand, ids, Decide(e.bin, c, ids, Lookup(ic.0.instruCount, c), e.bar));
    }
  }

  lemma StoreMethodsKeepsFlags(e: Env, s: RunState, c: ClassId, cand: Candidate, ids: seq<MethodId>, d: Decision)
    ensures var t := StoreMethods(e, s, c, cand, ids, d).state;
      t.stable == s.stable && t.callerLists == s.callerLists
  {
    StoreMethodsCases(e, s, c, cand, ids, d);
    StagedTables(e, s, c, cand, ids, d);
    CommitTables(e, Staged(s, c, cand, ids, d), c, cand, ids);
  }

  /** Hence storing keeps the classes matched since `mc0` recorded. */
  lemma StorePreservesRecorded(e: Env, s: RunState, c: ClassId, cand: Candidate, firstRound: bool, ids: seq<MethodId>,
                               mc0: map<ClassId, string>)
    requires c in e.bin.classes && c !in s.matchedClasses
    requires Recorded(s, mc0)
    ensures Recorded(StoreFinal(e, s, c, cand, firstRound, ids).state, mc0)
  {
    var t := StoreFinal(e, s, c, cand, firstRound, ids).state;
    StoreRecords(e, s, c, cand, firstRound, ids);
    forall x | x in t.matchedClasses && x !in mc0
      ensures t.matchedClasses[x] in t.dupClasses && x in t.dupClasses[t.matchedClasses[x]]
    {
      if x != c {
        var n := s.matchedClasses[x];
        assert x in s.dupClasses[n];
        assert s.dupClasses[n] <= t.dupClasses[n];
      }
    }
  }

  lemma DupAfterCommit(s: RunState, t: RunState, c: ClassId, n0: string, ids: seq<MethodId>)
    requires DupConsistent(s) && c !in s.matchedClasses
    requires t.matchedClasses == s.matchedClasses[c := n0] && t.dupMethods == s.dupMethods[c := ids]
    requires t.dupClasses == s.dupClasses[n0 := Lookup(s.dupClasses, n0).GetOr([]) + [c]]
    ensures DupConsistent(t)
  {
    var g := Lookup(s.dupClasses, n0).GetOr([]);
    forall n, i | n in t.dupClasses && 0 <= i < |t.dupClasses[n]|
      ensures t.dupClasses[n][i] in t.dupMethods && t.dupClasses[n][i] in t.matchedClasses &&
              t.matchedClasses[t.dupClasses[n][i]] == n
    {
      if n == n0 && i == |g| {
        assert t.dupClasses[n][i] == c;
      } else {
        assert n in s.dupClasses && 0 <= i < |s.dupClasses[n]| && t.dupClasses[n][i] == s.dupClasses[n][i];
      }
    }
  }
}
