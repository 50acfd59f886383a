/** The caller context of `postProcessRenameMethods` and `getBestCallers`
    (DatabaseMatcher2.java lines 585-666): for every matched method, the callers the binary
    shows are compared with the callers its library signature expects, and the outcome is
    handed to ContextMatches. */
module Callers {
  import opened Wrappers
  import opened JavaStrings
  import opened Dex
  import opened MatchState

  // ---------------------------------------------------------------------------
  // The binary's callers of one method

  /** Lines 593-598: the callers of a method as caller signature to call count, taking the
      callers in `order` (the iteration order of the caller map); a later caller with the
      same signature overwrites an earlier one. */
  function Calls(bin: Binary, callers: map<MethodId, int>, order: seq<MethodId>): map<string, int>
    requires forall i :: 0 <= i < |order| ==> order[i] in callers
  {
    if order == [] then map[]
    else
      var k := order[|order| - 1];
      Calls(bin, callers, order[..|order| - 1])[bin.Method(k).signature := callers[k]]
  }

  /** Every caller's signature is a key, and every key holds the count of a caller with
      that signature. */
  lemma {:induction false} CallsKeys(bin: Binary, callers: map<MethodId, int>, order: seq<MethodId>)
    requires forall i :: 0 <= i < |order| ==> order[i] in callers
    ensures var r := Calls(bin, callers, order);
      (forall i :: 0 <= i < |order| ==> bin.Method(order[i]).signature in r) &&
      (forall n :: n in r ==> exists i :: 0 <= i < |order| && bin.Method(order[i]).signature == n && r[n] == callers[order[i]])
  {
    if order != [] {
      var p := order[..|order| - 1];
      CallsKeys(bin, callers, p);
      var r := Calls(bin, callers, order);
      forall n | n in r
        ensures exists i :: 0 <= i < |order| && bin.Method(order[i]).signature == n && r[n] == callers[order[i]]
      {
        if n != bin.Method(order[|order| - 1]).signature {
          assert n in Calls(bin, callers, p);
          var i :| 0 <= i < |p| && bin.Method(p[i]).signature == n && Calls(bin, callers, p)[n] == callers[p[i]];
          assert order[i] == p[i];
        }
      }
      forall i | 0 <= i < |order| ensures bin.Method(order[i]).signature in r {
        if i < |p| {
          assert order[i] == p[i];
        }
      }
    }
  }

  /** When the callers have distinct signatures, each one's count is kept as it is. */
  lemma {:induction false} CallsOfDistinct(bin: Binary, callers: map<MethodId, int>, order: seq<MethodId>)
    requires forall i :: 0 <= i < |order| ==> order[i] in callers
    requires forall i, j :: 0 <= i < j < |order| ==> bin.Method(order[i]).signature != bin.Method(order[j]).signature
    ensures forall i :: 0 <= i < |order| ==>
      bin.Method(order[i]).signature in Calls(bin, callers, order) &&
      Calls(bin, callers, order)[bin.Method(order[i]).signature] == callers[order[i]]
  {
    if order != [] {
      var p := order[..|order| - 1];
      CallsOfDistinct(bin, callers, p);
      CallsKeys(bin, callers, p);
      forall i | 0 <= i < |order|
        ensures bin.Method(order[i]).signature in Calls(bin, callers, order) &&
          Calls(bin, callers, order)[bin.Method(order[i]).signature] == callers[order[i]]
      {
        if i < |p| {
          assert order[i] == p[i];
        }
      }
    }
  }

  // ---------------------------------------------------------------------------
  // getBestCallers

  /** A library signature of the same method that records a caller. */
  predicate CallerCandidate(target: Sig, x: Sig) {
    x.mname == target.mname && x.prototype == target.prototype && !IsBlank(x.caller)
  }

  /** The signatures of `sigs` that are caller candidates for `target`, in order. */
  function CallerCandidates(target: Sig, sigs: seq<Sig>): seq<Sig> {
    if sigs == [] then []
    else
      var x := sigs[|sigs| - 1];
      CallerCandidates(target, sigs[..|sigs| - 1]) + (if CallerCandidate(target, x) then [x] else [])
  }

  lemma {:induction false} CallerCandidatesMembers(target: Sig, sigs: seq<Sig>)
    ensures |CallerCandidates(target, sigs)| <= |sigs|
    ensures forall x :: x in CallerCandidates(target, sigs) <==> x in sigs && CallerCandidate(target, x)
  {
    if sigs != [] {
      var p := sigs[..|sigs| - 1];
      CallerCandidatesMembers(target, p);
      assert sigs == p + [sigs[|sigs| - 1]];
    }
  }

  /** Every signature of `cands` expects the callers `t`. */
  predicate AllExpect(cands: seq<Sig>, t: map<string, int>) {
    forall i :: 0 <= i < |cands| ==> cands[i].targetCaller == t
  }

  /** Lines 650-662: the expected callers all signatures share, `None` when there is no
      signature or two differ. */
  function CommonTarget(cands: seq<Sig>): Option<map<string, int>> {
    if |cands| > 0 && AllExpect(cands, cands[0].targetCaller) then Some(cands[0].targetCaller) else None
  }

  /** A common target is exactly one every signature expects. */
  lemma CommonTargetIff(cands: seq<Sig>, t: map<string, int>)
    ensures CommonTarget(cands) == Some(t) <==> |cands| > 0 && AllExpect(cands, t)
  {
    if |cands| > 0 && AllExpect(cands, t) {
      assert cands[0].targetCaller == t;
    }
  }

  /** Lines 625-666 for matched signature `target`: the expected callers of the one library
      signature of the same method with a caller, or those all the best ones share. The class
      is looked up under the library name, as the source does. */
  function BestCallers(e: Env, log: seq<FileEvent>, target: Sig): Option<map<string, int>> {
    if target.cname !in e.bin.byName then None
    else match e.or.matchedClassFile(log, e.bin.byName[target.cname], target.cname)
      case None => None
      case Some(f) =>
        var cands := CallerCandidates(target, e.or.exactQuery(f, target.cname));
        if |cands| == 0 then None
        else if |cands| == 1 then Some(cands[0].targetCaller)
        else CommonTarget(e.or.filterMatching(log, f, cands))
  }

  /** The expected callers are found exactly when the class has a library file and it holds
      one caller candidate, or several whose best ones agree; they are then what that one, or
      every best one, expects. */
  lemma BestCallersCases(e: Env, log: seq<FileEvent>, target: Sig, t: map<string, int>)
    ensures BestCallers(e, log, target) == Some(t) <==>
      target.cname in e.bin.byName &&
      e.or.matchedClassFile(log, e.bin.byName[target.cname], target.cname).Some? &&
      var f := e.or.matchedClassFile(log, e.bin.byName[target.cname], target.cname).value;
      var cands := CallerCandidates(target, e.or.exactQuery(f, target.cname));
      (|cands| == 1 && cands[0] in e.or.exactQuery(f, target.cname) && CallerCandidate(target, cands[0]) &&
       cands[0].targetCaller == t) ||
      (|cands| > 1 && |e.or.filterMatching(log, f, cands)| > 0 && AllExpect(e.or.filterMatching(log, f, cands), t))
  {
    if target.cname in e.bin.byName {
      var fo := e.or.matchedClassFile(log, e.bin.byName[target.cname], target.cname);
      if fo.Some? {
        var f := fo.value;
        var cands := CallerCandidates(target, e.or.exactQuery(f, target.cname));
        CallerCandidatesMembers(target, e.or.exactQuery(f, target.cname));
        if |cands| > 0 {
          assert cands[0] in cands;
        }
        CommonTargetIff(e.or.filterMatching(log, f, cands), t);
      }
    }
  }

  // ---------------------------------------------------------------------------
  // postProcessRenameMethods

  /** The key of a map with one entry. */
  ghost function OnlyKey<V>(m: map<string, V>): (k: string)
    requires |m| == 1
    ensures k in m
  {
    var k :| k in m; k
  }

  lemma SingletonKey<V>(m: map<string, V>, k: string)
    requires |m| == 1 && k in m
    ensures k == OnlyKey(m)
  {
    var rest := m.Keys - {k};
    assert |rest| == |m.Keys| - 1;
    assert rest == {};
    assert OnlyKey(m) !in rest;
  }

  /** Lines 600-620 for one matched signature and the binary's calls of its method: the
      event given to ContextMatches, if any. */
  ghost function CallerEvents(e: Env, log: seq<FileEvent>, sig: Sig, calls: map<string, int>): seq<CtxEvent> {
    var own := sig.targetCaller;
    if |own| == 0 && |calls| == 0 then []
    else
      var expected := if |own| == 0 then BestCallers(e, log, sig) else Some(own);
      if expected.None? || |expected.value| == 0 then []
      else if |expected.value| == 1 && |calls| == 1 then
        var x, y := OnlyKey(expected.value), OnlyKey(calls);
        if expected.value[x] == calls[y] then [SaveCallerMatching(x, y)] else []
      else [SaveCallerMatchings(expected.value, calls)]
  }

  /** A single caller is matched only against a single expected caller of the same count; a
      partial match is asked for whenever the expected callers are known and not both sides
      are single. Nothing is asked for without expected callers. */
  lemma CallerEventsCases(e: Env, log: seq<FileEvent>, sig: Sig, calls: map<string, int>)
    ensures var ev := CallerEvents(e, log, sig, calls);
      var expected := if |sig.targetCaller| == 0 then BestCallers(e, log, sig) else Some(sig.targetCaller);
      |ev| <= 1 &&
      (forall x, y :: SaveCallerMatching(x, y) in ev <==>
        expected.Some? && |expected.value| == 1 && |calls| == 1 && x in expected.value && y in calls &&
        expected.value[x] == calls[y]) &&
      (forall ex, cs :: SaveCallerMatchings(ex, cs) in ev <==>
        !(|sig.targetCaller| == 0 && |calls| == 0) &&
        expected.Some? && |expected.value| > 0 && ex == expected.value && cs == calls &&
        !(|expected.value| == 1 && |calls| == 1)) &&
      (expected.Some? && |expected.value| == 0 ==> ev == []) &&
      (ev == [] <==> (|sig.targetCaller| == 0 && |calls| == 0) || expected.None? || |expected.value| == 0 ||
                     (|expected.value| == 1 && |calls| == 1 && expected.value[OnlyKey(expected.value)] != calls[OnlyKey(calls)]))
  {
    var expected := if |sig.targetCaller| == 0 then BestCallers(e, log, sig) else Some(sig.targetCaller);
    if expected.Some? && |expected.value| == 1 && |calls| == 1 {
      forall x, y | x in expected.value && y in calls ensures x == OnlyKey(expected.value) && y == OnlyKey(calls) {
        SingletonKey(expected.value, x);
        SingletonKey(calls, y);
      }
    }
  }

  /** The events of the matched methods of `order`, each with the binary calls of
      `calls[i]`. */
  ghost function CallerPass(e: Env, log: seq<FileEvent>, msm: map<MethodId, Sig>,
                            order: seq<MethodId>, calls: seq<map<string, int>>): seq<CtxEvent>
    requires |calls| == |order|
    requires forall i :: 0 <= i < |order| ==> order[i] in msm
  {
    if order == [] then []
    else
      var n := |order| - 1;
      CallerPass(e, log, msm, order[..n], calls[..n]) + CallerEvents(e, log, msm[order[n]], calls[n])
  }

  /** At most one event per matched method, and each one a caller event. */
  lemma {:induction false} CallerPassShape(e: Env, log: seq<FileEvent>, msm: map<MethodId, Sig>,
                                           order: seq<MethodId>, calls: seq<map<string, int>>)
    requires |calls| == |order|
    requires forall i :: 0 <= i < |order| ==> order[i] in msm
    ensures var ev := CallerPass(e, log, msm, order, calls);
      |ev| <= |order| && forall x :: x in ev ==> x.SaveCallerMatching? || x.SaveCallerMatchings?
  {
    if order != [] {
      var n := |order| - 1;
      CallerPassShape(e, log, msm, order[..n], calls[..n]);
      CallerEventsCases(e, log, msm[order[n]], calls[n]);
      var last := CallerEvents(e, log, msm[order[n]], calls[n]);
      if last != [] {
        assert last == [last[0]];
        assert last[0] in last;
      }
    }
  }
}
