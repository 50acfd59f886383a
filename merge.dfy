/** The last steps of `storeMatchedClassesAndMethods` (DatabaseMatcher2.java lines 128-177):
    the class and method matches found by context are added where nothing is matched yet,
    and the classes that several binary classes were matched to are taken back. */
module Merging {
  import opened Wrappers
  import opened Dex
  import opened MatchState

  /** A table of matches and the context log, as a context merge sees them. */
  datatype Merged<I> = Merged(target: map<I, string>, log: seq<CtxEvent>)

  /** One context entry `k -> v`: skipped when its name is no longer valid or its key names
      nothing in the binary; taken when the id is unmatched; invalidated when the id is
      already matched to another name. */
  function MergeStep<K, I>(valid: (seq<CtxEvent>, string) -> bool, resolve: K -> Option<I>,
                           invalidate: K -> CtxEvent, m: Merged<I>, k: K, v: string): Merged<I>
  {
    if !valid(m.log, v) then m
    else match resolve(k)
      case None => m
      case Some(id) =>
        if id !in m.target then m.(target := m.target[id := v])
        else if m.target[id] != v then m.(log := m.log + [invalidate(k)])
        else m
  }

  /** The entries of `ctx` merged in the order `order`. */
  function MergeAll<K, I>(valid: (seq<CtxEvent>, string) -> bool, resolve: K -> Option<I>,
                          invalidate: K -> CtxEvent, ctx: map<K, string>, m: Merged<I>, order: seq<K>): Merged<I>
    requires forall i :: 0 <= i < |order| ==> order[i] in ctx
  {
    if order == [] then m
    else
      var k := order[|order| - 1];
      MergeStep(valid, resolve, invalidate, MergeAll(valid, resolve, invalidate, ctx, m, order[..|order| - 1]), k, ctx[k])
  }

  /** A merge never changes or removes a match, and only appends to the log. */
  lemma {:induction false} MergeKeeps<K, I>(valid: (seq<CtxEvent>, string) -> bool, resolve: K -> Option<I>,
                                           invalidate: K -> CtxEvent, ctx: map<K, string>, m: Merged<I>, order: seq<K>)
    requires forall i :: 0 <= i < |order| ==> order[i] in ctx
    ensures var r := MergeAll(valid, resolve, invalidate, ctx, m, order);
      (forall id :: id in m.target ==> id in r.target && r.target[id] == m.target[id]) &&
      |m.log| <= |r.log| && r.log[..|m.log|] == m.log
  {
    if order != [] {
      MergeKeeps(valid, resolve, invalidate, ctx, m, order[..|order| - 1]);
    }
  }

  /** Every new match comes from a context entry whose key names that id. */
  lemma {:induction false} MergeSources<K, I>(valid: (seq<CtxEvent>, string) -> bool, resolve: K -> Option<I>,
                                             invalidate: K -> CtxEvent, ctx: map<K, string>, m: Merged<I>, order: seq<K>)
    requires forall i :: 0 <= i < |order| ==> order[i] in ctx
    ensures var r := MergeAll(valid, resolve, invalidate, ctx, m, order);
      forall id :: id in r.target && id !in m.target ==>
        exists i :: 0 <= i < |order| && resolve(order[i]) == Some(id) && r.target[id] == ctx[order[i]]
  {
    if order != [] {
      var p := order[..|order| - 1];
      MergeSources(valid, resolve, invalidate, ctx, m, p);
      var r := MergeAll(valid, resolve, invalidate, ctx, m, order);
      forall id | id in r.target && id !in m.target
        ensures exists i :: 0 <= i < |order| && resolve(order[i]) == Some(id) && r.target[id] == ctx[order[i]]
      {
        var q := MergeAll(valid, resolve, invalidate, ctx, m, p);
        if id in q.target {
          assert r.target[id] == q.target[id];
          var i :| 0 <= i < |p| && resolve(p[i]) == Some(id) && q.target[id] == ctx[p[i]];
          assert order[i] == p[i];
        } else {
          assert resolve(order[|order| - 1]) == Some(id);
        }
      }
    }
  }

  /** Every appended log entry invalidates a context entry whose id ends up matched to
      another name. */
  lemma {:induction false} MergeInvalidations<K, I>(valid: (seq<CtxEvent>, string) -> bool, resolve: K -> Option<I>,
                                                   invalidate: K -> CtxEvent, ctx: map<K, string>, m: Merged<I>, order: seq<K>)
    requires forall i :: 0 <= i < |order| ==> order[i] in ctx
    ensures var r := MergeAll(valid, resolve, invalidate, ctx, m, order);
      forall j :: |m.log| <= j < |r.log| ==>
        exists i :: 0 <= i < |order| && r.log[j] == invalidate(order[i]) && resolve(order[i]).Some? &&
          resolve(order[i]).value in r.target && r.target[resolve(order[i]).value] != ctx[order[i]]
  {
    if order != [] {
      var p := order[..|order| - 1];
      var q := MergeAll(valid, resolve, invalidate, ctx, m, p);
      var r := MergeAll(valid, resolve, invalidate, ctx, m, order);
      MergeInvalidations(valid, resolve, invalidate, ctx, m, p);
      MergeKeeps(valid, resolve, invalidate, ctx, m, p);
      assert forall id :: id in q.target ==> id in r.target && r.target[id] == q.target[id];
      forall j | |m.log| <= j < |r.log|
        ensures exists i ::
          (0 <= i < |order| && r.log[j] == invalidate(order[i]) && resolve(order[i]).Some? &&
           resolve(order[i]).value in r.target && r.target[resolve(order[i]).value] != ctx[order[i]])
      {
        if j < |q.log| {
          assert r.log[j] == q.log[j];
          var i :| 0 <= i < |p| && q.log[j] == invalidate(p[i]) && resolve(p[i]).Some? &&
            resolve(p[i]).value in q.target && q.target[resolve(p[i]).value] != ctx[p[i]];
          assert order[i] == p[i];
        } else {
          assert r.log[j] == invalidate(order[|order| - 1]);
        }
      }
    }
  }

  /** Merging a longer order is merging its tail after its head. */
  lemma {:induction false} MergeAppend<K, I>(valid: (seq<CtxEvent>, string) -> bool, resolve: K -> Option<I>,
                                            invalidate: K -> CtxEvent, ctx: map<K, string>, m: Merged<I>,
                                            head: seq<K>, tail: seq<K>)
    requires forall i :: 0 <= i < |head| ==> head[i] in ctx
    requires forall i :: 0 <= i < |tail| ==> tail[i] in ctx
    ensures forall i :: 0 <= i < |head + tail| ==> (head + tail)[i] in ctx
    ensures MergeAll(valid, resolve, invalidate, ctx, m, head + tail) ==
            MergeAll(valid, resolve, invalidate, ctx, MergeAll(valid, resolve, invalidate, ctx, m, head), tail)
  {
    assert forall i :: 0 <= i < |head + tail| ==> (head + tail)[i] in ctx by {
      forall i | 0 <= i < |head + tail| ensures (head + tail)[i] in ctx {
        if i >= |head| {
          assert (head + tail)[i] == tail[i - |head|];
        }
      }
    }
    if tail == [] {
      assert head + tail == head;
    } else {
      var t := tail[..|tail| - 1];
      MergeAppend(valid, resolve, invalidate, ctx, m, head, t);
      assert (head + tail)[..|head + tail| - 1] == head + t;
    }
  }

  /** Every context entry that is still valid when its turn comes and whose key names an id
      leaves that id matched: to the entry's name when the id was unmatched, and with the
      entry invalidated when the id was matched to another name. */
  lemma MergeFills<K, I>(valid: (seq<CtxEvent>, string) -> bool, resolve: K -> Option<I>,
                         invalidate: K -> CtxEvent, ctx: map<K, string>, m: Merged<I>, order: seq<K>, i: nat)
    requires forall i :: 0 <= i < |order| ==> order[i] in ctx
    requires i < |order| && resolve(order[i]).Some?
    requires valid(MergeAll(valid, resolve, invalidate, ctx, m, order[..i]).log, ctx[order[i]])
    ensures var before := MergeAll(valid, resolve, invalidate, ctx, m, order[..i]);
      var r := MergeAll(valid, resolve, invalidate, ctx, m, order);
      var id := resolve(order[i]).value;
      id in r.target &&
      (id !in before.target ==> r.target[id] == ctx[order[i]]) &&
      (id in before.target && before.target[id] != ctx[order[i]] ==> invalidate(order[i]) in r.log)
  {
    var head, tail := order[..i + 1], order[i + 1..];
    assert order == head + tail;
    assert head[..i] == order[..i];
    assert forall j :: 0 <= j < |tail| ==> tail[j] in ctx by {
      forall j | 0 <= j < |tail| ensures tail[j] in ctx {
        assert tail[j] == order[i + 1 + j];
      }
    }
    MergeAppend(valid, resolve, invalidate, ctx, m, head, tail);
    var after := MergeAll(valid, resolve, invalidate, ctx, m, head);
    MergeKeeps(valid, resolve, invalidate, ctx, after, tail);
    var r := MergeAll(valid, resolve, invalidate, ctx, m, order);
    assert r == MergeAll(valid, resolve, invalidate, ctx, after, tail);
    var before := MergeAll(valid, resolve, invalidate, ctx, m, order[..i]);
    var id := resolve(order[i]).value;
    if id in before.target && before.target[id] != ctx[order[i]] {
      assert after.log[|after.log| - 1] == invalidate(order[i]);
      assert r.log[|after.log| - 1] == after.log[|after.log| - 1];
    }
  }

  // ---------------------------------------------------------------------------
  // The two merges on the matcher's state

  function ResolveClass(bin: Binary): string -> Option<ClassId> {
    k => Lookup(bin.byName, k)
  }

  function InvalidClass(): string -> CtxEvent {
    k => SetInvalidClass(k)
  }

  function ResolveMethod(): MethodId -> Option<MethodId> {
    (k: MethodId) => Some(k)
  }

  function InvalidMethod(): MethodId -> CtxEvent {
    (k: MethodId) => SetInvalidMethod(k)
  }

  /** Lines 128-144: the class matches of the context, merged in the order `order` of its
      entries. */
  function ClassesMerged(e: Env, s: RunState, order: seq<string>): RunState
    requires forall i :: 0 <= i < |order| ==> order[i] in e.or.ctxClasses(s.ctxLog)
  {
    var m := MergeAll(e.or.ctxValid, ResolveClass(e.bin), InvalidClass(), e.or.ctxClasses(s.ctxLog),
                      Merged(s.matchedClasses, s.ctxLog), order);
    s.(matchedClasses := m.target, ctxLog := m.log)
  }

  /** Lines 145-159: the method matches of the context, merged likewise. */
  function MethodsMerged(e: Env, s: RunState, order: seq<MethodId>): RunState
    requires forall i :: 0 <= i < |order| ==> order[i] in e.or.ctxMethods(s.ctxLog)
  {
    var m := MergeAll(e.or.ctxValid, ResolveMethod(), InvalidMethod(), e.or.ctxMethods(s.ctxLog),
                      Merged(s.matchedMethods, s.ctxLog), order);
    s.(matchedMethods := m.target, ctxLog := m.log)
  }

  /** Merging the context classes keeps every earlier class match and the duplicate tables
      consistent. */
  lemma ClassesMergedKeeps(e: Env, s: RunState, order: seq<string>)
    requires forall i :: 0 <= i < |order| ==> order[i] in e.or.ctxClasses(s.ctxLog)
    ensures var r := ClassesMerged(e, s, order);
      (forall c :: c in s.matchedClasses ==> c in r.matchedClasses && r.matchedClasses[c] == s.matchedClasses[c]) &&
      (DupConsistent(s) ==> DupConsistent(r))
  {
    MergeKeeps(e.or.ctxValid, ResolveClass(e.bin), InvalidClass(), e.or.ctxClasses(s.ctxLog),
               Merged(s.matchedClasses, s.ctxLog), order);
  }

  /** Merging the context methods keeps every earlier method match and the duplicate tables
      consistent. */
  lemma MethodsMergedKeeps(e: Env, s: RunState, order: seq<MethodId>)
    requires forall i :: 0 <= i < |order| ==> order[i] in e.or.ctxMethods(s.ctxLog)
    ensures var r := MethodsMerged(e, s, order);
      (forall m :: m in s.matchedMethods ==> m in r.matchedMethods && r.matchedMethods[m] == s.matchedMethods[m]) &&
      r.matchedClasses == s.matchedClasses &&
      (DupConsistent(s) ==> DupConsistent(r))
  {
    MergeKeeps(e.or.ctxValid, ResolveMethod(), InvalidMethod(), e.or.ctxMethods(s.ctxLog),
               Merged(s.matchedMethods, s.ctxLog), order);
  }

  // ---------------------------------------------------------------------------
  // Taking back duplicates (lines 162-177)

  /** The classes recorded in a duplicate group of any size but one. */
  function DupIds(s: RunState): set<ClassId> {
    set n, c | n in s.dupClasses && c in s.dupClasses[n] && |s.dupClasses[n]| != 1 :: c
  }

  /** The method ids recorded for those classes. */
  function DupMethodIds(s: RunState): set<MethodId> {
    set c, m | c in DupIds(s) && c in s.dupMethods && m in s.dupMethods[c] :: m
  }

  /** Each class of a group of another size than one is unmatched with its recorded methods,
      and both tables are cleared. */
  function RollbackDups(s: RunState): RunState {
    var gone := DupMethodIds(s);
    s.(matchedClasses := s.matchedClasses - DupIds(s),
       matchedMethods := s.matchedMethods - gone,
       matchedSigMethods := s.matchedSigMethods - gone,
       dupClasses := map[], dupMethods := map[])
  }

  /** After the rollback no library class recorded in the tables is the match of two binary
      classes of its group, a class whose group had another member is unmatched together
      with its recorded methods, and the tables are empty. */
  lemma RollbackSeparates(s: RunState)
    ensures var r := RollbackDups(s);
      r.dupClasses == map[] && r.dupMethods == map[] &&
      (forall n, i, j ::
        (n in s.dupClasses && 0 <= i < |s.dupClasses[n]| && 0 <= j < |s.dupClasses[n]| &&
         s.dupClasses[n][i] in r.matchedClasses && s.dupClasses[n][j] in r.matchedClasses) ==> i == j) &&
      (forall n, i :: n in s.dupClasses && 0 <= i < |s.dupClasses[n]| && |s.dupClasses[n]| != 1 ==>
        var c := s.dupClasses[n][i];
        c !in r.matchedClasses &&
        (c in s.dupMethods ==> forall m :: m in s.dupMethods[c] ==> m !in r.matchedMethods && m !in r.matchedSigMethods))
  {
    var r := RollbackDups(s);
    forall n, i | n in s.dupClasses && 0 <= i < |s.dupClasses[n]| && |s.dupClasses[n]| != 1
      ensures var c := s.dupClasses[n][i];
        c !in r.matchedClasses &&
        (c in s.dupMethods ==> forall m :: m in s.dupMethods[c] ==> m !in r.matchedMethods && m !in r.matchedSigMethods)
    {
      var c := s.dupClasses[n][i];
      assert c in s.dupClasses[n];
      assert c in DupIds(s);
      if c in s.dupMethods {
        forall m | m in s.dupMethods[c] ensures m in DupMethodIds(s) {
        }
      }
    }
  }

  /** The rollback keeps the match of a class alone in its group, and of a class in no
      group (such as one matched by context or in an earlier round). */
  lemma RollbackKeeps(s: RunState)
    requires DupConsistent(s)
    ensures var r := RollbackDups(s);
      (forall n :: n in s.dupClasses && |s.dupClasses[n]| == 1 ==>
        var c := s.dupClasses[n][0]; c in r.matchedClasses && r.matchedClasses[c] == n) &&
      (forall c :: c in s.matchedClasses && (forall n :: n in s.dupClasses ==> c !in s.dupClasses[n]) ==>
        c in r.matchedClasses && r.matchedClasses[c] == s.matchedClasses[c])
  {
    var r := RollbackDups(s);
    forall n | n in s.dupClasses && |s.dupClasses[n]| == 1
      ensures var c := s.dupClasses[n][0]; c in r.matchedClasses && r.matchedClasses[c] == n
    {
      var c := s.dupClasses[n][0];
      assert s.matchedClasses[c] == n;
      forall n' | n' in s.dupClasses && c in s.dupClasses[n'] ensures n' == n {
        var i :| 0 <= i < |s.dupClasses[n']| && s.dupClasses[n'][i] == c;
        assert s.matchedClasses[c] == n';
      }
      assert c !in DupIds(s);
    }
  }

  /** The end of `storeMatchedClassesAndMethods`: two binary classes recorded in the same
      duplicate group are both unmatched once the context merges and the rollback are done,
      together with their recorded methods. */
  lemma ClashesUnmatched(e: Env, s: RunState, corder: seq<string>, morder: seq<MethodId>, n: string, c1: ClassId, c2: ClassId)
    requires forall i :: 0 <= i < |corder| ==> corder[i] in e.or.ctxClasses(s.ctxLog)
    requires forall i :: 0 <= i < |morder| ==> morder[i] in e.or.ctxMethods(ClassesMerged(e, s, corder).ctxLog)
    requires n in s.dupClasses && c1 in s.dupClasses[n] && c2 in s.dupClasses[n] && c1 != c2
    ensures var r := RollbackDups(MethodsMerged(e, ClassesMerged(e, s, corder), morder));
      c1 !in r.matchedClasses && c2 !in r.matchedClasses &&
      (c1 in s.dupMethods ==> forall m :: m in s.dupMethods[c1] ==> m !in r.matchedMethods && m !in r.matchedSigMethods)
  {
    var u := MethodsMerged(e, ClassesMerged(e, s, corder), morder);
    assert u.dupClasses == s.dupClasses && u.dupMethods == s.dupMethods;
    var g := s.dupClasses[n];
    var i :| 0 <= i < |g| && g[i] == c1;
    var j :| 0 <= j < |g| && g[j] == c2;
    assert |g| != 1;
    RollbackSeparates(u);
  }
}
