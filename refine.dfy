/** The method-renaming sweep of `postProcessRenameClasses` (DatabaseMatcher2.java lines
    698-835) with `getAlreadyMatched` (lines 668-695) and `getCandidateFilesForClass` (lines
    837-863): within each matched class, every internal method not matched yet is looked up
    in the candidate files, first by tight hash and then by prototype, and is renamed when
    all files agree on one name. */
module Refinement {
  import opened Wrappers
  import opened JavaStrings
  import opened Dex
  import opened MatchState

  // ---------------------------------------------------------------------------
  // Agreement of the per-file answers (the two loops over `files`)

  /** The running merge of the answers for one method: the agreed name so far (`Some("")`
      before any answer, `None` once an answer is missing, unnamed or different), the
      signatures collected, and the last answer seen. */
  datatype Agreement = Agreement(merged: Option<string>, arrays: seq<Sig>, last: Option<Sig>)

  /** The files asked in turn from `a`; `next` gives a file's answer from the previous one. */
  function Agree(next: (Option<Sig>, string) -> Option<Sig>, files: seq<string>, a: Agreement): Agreement
    decreases |files|
  {
    if files == [] || a.merged.None? then a
    else
      var r := next(a.last, files[0]);
      if r.None? || r.value.mname == [] then a.(merged := None, last := r)
      else if a.merged.value == [] then Agree(next, files[1..], Agreement(Some(r.value.mname), a.arrays + [r.value], r))
      else if a.merged.value != r.value.mname then a.(merged := None, last := r)
      else Agree(next, files[1..], a.(last := r))
  }

  /** The answers the files give when all are asked, each query seeing the previous answer. */
  function Chain(next: (Option<Sig>, string) -> Option<Sig>, files: seq<string>, last: Option<Sig>): (ch: seq<Option<Sig>>)
    ensures |ch| == |files|
    decreases |files|
  {
    if files == [] then [] else var r := next(last, files[0]); [r] + Chain(next, files[1..], r)
  }

  predicate AllNamed(ch: seq<Option<Sig>>, n: string) {
    forall i :: 0 <= i < |ch| ==> ch[i].Some? && ch[i].value.mname == n
  }

  lemma AllNamedCons(r: Option<Sig>, tail: seq<Option<Sig>>, n: string)
    ensures AllNamed([r] + tail, n) <==> r.Some? && r.value.mname == n && AllNamed(tail, n)
  {
    if r.Some? && r.value.mname == n && AllNamed(tail, n) {
      forall i | 0 <= i < |[r] + tail| ensures ([r] + tail)[i].Some? && ([r] + tail)[i].value.mname == n {
        if i > 0 {
          assert ([r] + tail)[i] == tail[i - 1];
        }
      }
    }
    if AllNamed([r] + tail, n) {
      assert ([r] + tail)[0] == r;
      forall i | 0 <= i < |tail| ensures tail[i].Some? && tail[i].value.mname == n {
        assert ([r] + tail)[i + 1] == tail[i];
      }
    }
  }

  /** Once a name is agreed, it stays agreed exactly when every further file answers with it,
      and no more signatures are collected. */
  lemma {:induction false} AgreeOn(next: (Option<Sig>, string) -> Option<Sig>, files: seq<string>, ar: seq<Sig>,
                                   n: string, last: Option<Sig>)
    requires n != []
    ensures var r := Agree(next, files, Agreement(Some(n), ar, last));
      r.arrays == ar &&
      (r.merged == Some(n) <==> AllNamed(Chain(next, files, last), n)) &&
      (r.merged != Some(n) ==> r.merged.None?)
    decreases |files|
  {
    if files != [] {
      var r := next(last, files[0]);
      AllNamedCons(r, Chain(next, files[1..], r), n);
      if r.Some? && r.value.mname == n {
        AgreeOn(next, files[1..], ar, n, r);
      }
    }
  }

  /** From the start, the files agree on a name exactly when there is at least one file and
      every file answers with the first file's non-empty name; the one signature collected is
      the first answer. Whatever happens, at most one signature is added. */
  lemma AgreeFromStart(next: (Option<Sig>, string) -> Option<Sig>, files: seq<string>, ar: seq<Sig>, last: Option<Sig>)
    ensures var r := Agree(next, files, Agreement(Some([]), ar, last));
      var ch := Chain(next, files, last);
      (r.merged == Some([]) <==> files == []) &&
      (files == [] ==> r.arrays == ar) &&
      (r.merged.Some? && r.merged.value != [] <==>
        files != [] && ch[0].Some? && ch[0].value.mname != [] && AllNamed(ch, ch[0].value.mname)) &&
      (r.merged.Some? && r.merged.value != [] ==> r.merged.value == ch[0].value.mname && r.arrays == ar + [ch[0].value]) &&
      (r.arrays == ar || (|r.arrays| == |ar| + 1 && r.arrays[..|ar|] == ar))
  {
    if files != [] {
      var r := next(last, files[0]);
      var ch := Chain(next, files, last);
      assert ch[0] == r;
      if r.Some? && r.value.mname != [] {
        AgreeOn(next, files[1..], ar + [r.value], r.value.mname, r);
        AllNamedCons(r, Chain(next, files[1..], r), r.value.mname);
        assert (ar + [r.value])[..|ar|] == ar;
      }
    }
  }

  // ---------------------------------------------------------------------------
  // One method

  /** Phase 1: the signature found by tight hash in a file. */
  function HashNext(e: Env, hash: string, proto: string, shorty: string, className: string,
                    already: seq<Sig>, mid: MethodId): (Option<Sig>, string) -> Option<Sig>
  {
    (prev: Option<Sig>, file: string) => e.or.findByHash(file, hash, proto, shorty, className, already, mid)
  }

  /** Phase 2: the signature found by name among a file's signatures for the method; a file
      with none leaves the previous answer in place (its variable is declared outside the
      loop, line 782). */
  function NameNext(e: Env, proto: string, shorty: string, className: string,
                    already: seq<Sig>, mid: MethodId): (Option<Sig>, string) -> Option<Sig>
  {
    (prev: Option<Sig>, file: string) =>
      var sigs := e.or.sigsForMethod(file, className, mid);
      if |sigs| > 0 then e.or.findName(sigs, proto, shorty, className, already, mid) else prev
  }

  /** `Strings.isBlank` on a name that may be null. */
  predicate BlankOpt(n: Option<string>) {
    n.None? || IsBlank(n.value)
  }

  const Start := Agreement(Some([]), [], None)

  /** Lines 736-778: `None` when the method has code but no tight hash (the method is
      skipped). A method without code skips this phase. */
  function HashPhase(e: Env, className: string, files: seq<string>, mid: MethodId, already: seq<Sig>): Option<Agreement> {
    var m := e.bin.Method(mid);
    if m.instructions.None? then Some(Start)
    else match e.or.tightHash(mid)
      case None => None
      case Some(h) => Some(Agree(HashNext(e, h, m.prototype, m.shorty, className, already, mid), files, Start))
  }

  /** Lines 779-810: after a blank phase 1, outside the first round, the name search; the
      signatures collected by phase 1 are kept. */
  function NamePhase(e: Env, firstRound: bool, className: string, files: seq<string>, mid: MethodId,
                     already: seq<Sig>, a1: Agreement): Agreement
  {
    if BlankOpt(a1.merged) && !firstRound then
      var m := e.bin.Method(mid);
      Agree(NameNext(e, m.prototype, m.shorty, className, already, mid), files, Agreement(Some([]), a1.arrays, None))
    else a1
  }

  /** What lines 812-828 do with a method: nothing, rename it after its one signature, or
      only record the name in the context. */
  datatype Refined = Skip | Commit(name: string, sig: Sig) | Context(name: string)

  function Refine(e: Env, firstRound: bool, className: string, files: seq<string>, mid: MethodId, already: seq<Sig>): Refined {
    match HashPhase(e, className, files, mid, already)
      case None => Skip
      case Some(a1) =>
        var a2 := NamePhase(e, firstRound, className, files, mid, already, a1);
        if BlankOpt(a2.merged) then Skip
        else if |a2.arrays| == 1 then Commit(a2.merged.value, a2.arrays[0])
        else Context(a2.merged.value)
  }

  /** A rename follows one phase in which every file agreed on the name: phase 1, or phase 2
      after a phase 1 that collected nothing. The signature kept carries that name. */
  lemma RefineCommit(e: Env, firstRound: bool, className: string, files: seq<string>, mid: MethodId, already: seq<Sig>)
    requires Refine(e, firstRound, className, files, mid, already).Commit?
    ensures var r := Refine(e, firstRound, className, files, mid, already);
      var a1 := HashPhase(e, className, files, mid, already).value;
      var a2 := NamePhase(e, firstRound, className, files, mid, already, a1);
      !IsBlank(r.name) && r.sig.mname == r.name && files != [] &&
      ((a1.merged == Some(r.name) && a1.arrays == [r.sig]) ||
       (!firstRound && BlankOpt(a1.merged) && a1.arrays == [] && a2.merged == Some(r.name) && a2.arrays == [r.sig]))
  {
    var m := e.bin.Method(mid);
    var a1 := HashPhase(e, className, files, mid, already).value;
    if m.instructions.Some? {
      var h := e.or.tightHash(mid).value;
      AgreeFromStart(HashNext(e, h, m.prototype, m.shorty, className, already, mid), files, [], None);
    }
    if BlankOpt(a1.merged) && !firstRound {
      AgreeFromStart(NameNext(e, m.prototype, m.shorty, className, already, mid), files, a1.arrays, None);
    }
  }

  /** A name only recorded in the context always comes from phase 2 after a phase 1 that
      collected a signature and then failed to agree: the stale signature makes two. */
  lemma RefineContext(e: Env, firstRound: bool, className: string, files: seq<string>, mid: MethodId, already: seq<Sig>)
    requires Refine(e, firstRound, className, files, mid, already).Context?
    ensures var a1 := HashPhase(e, className, files, mid, already).value;
      var a2 := NamePhase(e, firstRound, className, files, mid, already, a1);
      !firstRound && BlankOpt(a1.merged) && |a1.arrays| == 1 && |a2.arrays| == 2 &&
      a2.merged == Some(Refine(e, firstRound, className, files, mid, already).name)
  {
    var m := e.bin.Method(mid);
    var a1 := HashPhase(e, className, files, mid, already).value;
    if m.instructions.Some? {
      var h := e.or.tightHash(mid).value;
      AgreeFromStart(HashNext(e, h, m.prototype, m.shorty, className, already, mid), files, [], None);
    }
    if BlankOpt(a1.merged) && !firstRound {
      AgreeFromStart(NameNext(e, m.prototype, m.shorty, className, already, mid), files, a1.arrays, None);
    }
  }

  /** With no candidate file nothing is found. */
  lemma RefineNoFiles(e: Env, firstRound: bool, className: string, mid: MethodId, already: seq<Sig>)
    ensures Refine(e, firstRound, className, [], mid, already) == Skip
  {
  }

  // ---------------------------------------------------------------------------
  // One sweep over the methods of a class

  /** A method the sweep looks at: internal and not matched yet. */
  predicate Eligible(bin: Binary, s: RunState, mid: MethodId) {
    bin.Method(mid).internal && mid !in s.matchedMethods
  }

  function Unmatched(bin: Binary, s: RunState, ms: seq<MethodId>): set<MethodId> {
    set m | m in ms && Eligible(bin, s, m)
  }

  /** Lines 729-829 for one method `mid`: the state and the signatures already matched. */
  function SweepStep(e: Env, firstRound: bool, className: string, files: seq<string>,
                     s: RunState, already: seq<Sig>, mid: MethodId): (RunState, seq<Sig>)
  {
    if !Eligible(e.bin, s, mid) then (s, already)
    else match Refine(e, firstRound, className, files, mid, already)
      case Skip => (s, already)
      case Commit(n, sig) =>
        var proto := e.bin.Method(mid).prototype;
        (s.(matchedMethods := s.matchedMethods[mid := n],
            matchedSigMethods := s.matchedSigMethods[mid := sig],
            ctxLog := s.ctxLog + (if proto == sig.prototype then [] else [SaveParamMatching(proto, sig.prototype, className, n)])),
         already + [sig])
      case Context(n) => (s.(ctxLog := s.ctxLog + [SaveMethodMatch(mid, n)]), already)
  }

  function SweepFrom(e: Env, firstRound: bool, className: string, files: seq<string>,
                     s: RunState, already: seq<Sig>, ms: seq<MethodId>): (RunState, seq<Sig>)
    decreases |ms|
  {
    if ms == [] then (s, already)
    else
      var t := SweepStep(e, firstRound, className, files, s, already, ms[0]);
      SweepFrom(e, firstRound, className, files, t.0, t.1, ms[1..])
  }

  /** One pass of the do-while body. With no candidate files the pass stops at the first
      method it would look at, before changing anything. */
  function SweepPass(e: Env, firstRound: bool, className: string, files: Option<seq<string>>,
                     s: RunState, already: seq<Sig>, ms: seq<MethodId>): (RunState, seq<Sig>)
  {
    if files.None? then (s, already) else SweepFrom(e, firstRound, className, files.value, s, already, ms)
  }

  /** One method: matches are only added; a rename adds one signature and takes one method
      of `ms0` out of the unmatched ones. */
  lemma SweepStepProgress(e: Env, firstRound: bool, className: string, files: seq<string>,
                          s: RunState, already: seq<Sig>, mid: MethodId, ms0: seq<MethodId>)
    requires mid in ms0
    ensures var t := SweepStep(e, firstRound, className, files, s, already, mid);
      (forall m :: m in s.matchedMethods ==> m in t.0.matchedMethods && t.0.matchedMethods[m] == s.matchedMethods[m]) &&
      (forall m :: m in s.matchedMethods && m in s.matchedSigMethods ==>
        m in t.0.matchedSigMethods && t.0.matchedSigMethods[m] == s.matchedSigMethods[m]) &&
      t.0 == s.(matchedMethods := t.0.matchedMethods, matchedSigMethods := t.0.matchedSigMethods, ctxLog := t.0.ctxLog) &&
      |s.ctxLog| <= |t.0.ctxLog| && t.0.ctxLog[..|s.ctxLog|] == s.ctxLog &&
      (t.1 == already || (|t.1| == |already| + 1 && t.1[..|already|] == already)) &&
      Unmatched(e.bin, t.0, ms0) <= Unmatched(e.bin, s, ms0) &&
      |Unmatched(e.bin, t.0, ms0)| + |t.1| - |already| <= |Unmatched(e.bin, s, ms0)|
  {
    var t := SweepStep(e, firstRound, className, files, s, already, mid);
    if Eligible(e.bin, s, mid) && Refine(e, firstRound, className, files, mid, already).Commit? {
      assert Unmatched(e.bin, t.0, ms0) == Unmatched(e.bin, s, ms0) - {mid};
      assert (already + [t.1[|already|]])[..|already|] == already;
    } else {
      assert Unmatched(e.bin, t.0, ms0) == Unmatched(e.bin, s, ms0);
    }
  }

  /** A sweep only adds matches and signatures, and each signature it adds takes a method of
      `ms0` out of the unmatched ones. */
  lemma {:induction false} SweepProgress(e: Env, firstRound: bool, className: string, files: seq<string>,
                                         s: RunState, already: seq<Sig>, ms: seq<MethodId>, ms0: seq<MethodId>)
    requires forall i :: 0 <= i < |ms| ==> ms[i] in ms0
    ensures var t := SweepFrom(e, firstRound, className, files, s, already, ms);
      (forall m :: m in s.matchedMethods ==> m in t.0.matchedMethods && t.0.matchedMethods[m] == s.matchedMethods[m]) &&
      (forall m :: m in s.matchedMethods && m in s.matchedSigMethods ==>
        m in t.0.matchedSigMethods && t.0.matchedSigMethods[m] == s.matchedSigMethods[m]) &&
      t.0 == s.(matchedMethods := t.0.matchedMethods, matchedSigMethods := t.0.matchedSigMethods, ctxLog := t.0.ctxLog) &&
      |s.ctxLog| <= |t.0.ctxLog| && t.0.ctxLog[..|s.ctxLog|] == s.ctxLog &&
      |already| <= |t.1| && t.1[..|already|] == already &&
      Unmatched(e.bin, t.0, ms0) <= Unmatched(e.bin, s, ms0) &&
      |Unmatched(e.bin, t.0, ms0)| + |t.1| - |already| <= |Unmatched(e.bin, s, ms0)|
    decreases |ms|
  {
    if ms != [] {
      var t1 := SweepStep(e, firstRound, className, files, s, already, ms[0]);
      SweepStepProgress(e, firstRound, className, files, s, already, ms[0], ms0);
      SweepProgress(e, firstRound, className, files, t1.0, t1.1, ms[1..], ms0);
      var t := SweepFrom(e, firstRound, className, files, t1.0, t1.1, ms[1..]);
      assert t.1[..|already|] == t.1[..|t1.1|][..|already|];
      assert t.0.ctxLog[..|s.ctxLog|] == t.0.ctxLog[..|t1.0.ctxLog|][..|s.ctxLog|];
      assert |Unmatched(e.bin, t.0, ms0)| <= |Unmatched(e.bin, t1.0, ms0)|;
    }
  }

  /** A method renamed by one step is an eligible method of the class, under a non-blank
      name, with a signature of that name. */
  lemma SweepStepAdds(e: Env, firstRound: bool, className: string, files: seq<string>,
                      s: RunState, already: seq<Sig>, mid: MethodId)
    ensures var t := SweepStep(e, firstRound, className, files, s, already, mid).0;
      forall m :: m in t.matchedMethods && m !in s.matchedMethods ==>
        m == mid && Eligible(e.bin, s, m) && !IsBlank(t.matchedMethods[m]) &&
        m in t.matchedSigMethods && t.matchedSigMethods[m].mname == t.matchedMethods[m]
  {
    if Eligible(e.bin, s, mid) && Refine(e, firstRound, className, files, mid, already).Commit? {
      RefineCommit(e, firstRound, className, files, mid, already);
    }
  }

  /** Every method a sweep renames is an internal method of `ms`, under a non-blank name,
      with a signature of that name. */
  lemma {:induction false} SweepAdds(e: Env, firstRound: bool, className: string, files: seq<string>,
                                     s: RunState, already: seq<Sig>, ms: seq<MethodId>)
    ensures var t := SweepFrom(e, firstRound, className, files, s, already, ms).0;
      forall m :: m in t.matchedMethods && m !in s.matchedMethods ==>
        m in ms && e.bin.Method(m).internal && !IsBlank(t.matchedMethods[m]) &&
        m in t.matchedSigMethods && t.matchedSigMethods[m].mname == t.matchedMethods[m]
    decreases |ms|
  {
    if ms != [] {
      var t1 := SweepStep(e, firstRound, className, files, s, already, ms[0]);
      SweepStepAdds(e, firstRound, className, files, s, already, ms[0]);
      SweepStepProgress(e, firstRound, className, files, s, already, ms[0], ms);
      SweepAdds(e, firstRound, className, files, t1.0, t1.1, ms[1..]);
      SweepProgress(e, firstRound, className, files, t1.0, t1.1, ms[1..], ms);
    }
  }

  /** The do-while of lines 726-831: sweeps until one renames nothing. */
  function Repeat(e: Env, firstRound: bool, className: string, files: Option<seq<string>>,
                  s: RunState, already: seq<Sig>, ms: seq<MethodId>): (RunState, seq<Sig>)
    decreases |Unmatched(e.bin, s, ms)|
  {
    var t := SweepPass(e, firstRound, className, files, s, already, ms);
    if |t.1| == |already| then t
    else
      SweepProgress(e, firstRound, className, files.value, s, already, ms, ms);
      Repeat(e, firstRound, className, files, t.0, t.1, ms)
  }

  /** How `t` extends `s` when only methods are renamed: nothing but the method matches,
      their signatures and the context change; every earlier match and its signature stay;
      and each new match is an internal method of `ms`, under a non-blank name, whose
      recorded signature carries that name. */
  ghost predicate Grows(bin: Binary, s: RunState, t: RunState, ms: seq<MethodId>) {
    && t == s.(matchedMethods := t.matchedMethods, matchedSigMethods := t.matchedSigMethods, ctxLog := t.ctxLog)
    && s.ctxLog <= t.ctxLog
    && (forall m :: m in s.matchedMethods ==> m in t.matchedMethods && t.matchedMethods[m] == s.matchedMethods[m])
    && (forall m :: m in s.matchedMethods && m in s.matchedSigMethods ==>
          m in t.matchedSigMethods && t.matchedSigMethods[m] == s.matchedSigMethods[m])
    && (forall m :: m in t.matchedMethods && m !in s.matchedMethods ==>
          m in ms && bin.Method(m).internal && !IsBlank(t.matchedMethods[m]) &&
          m in t.matchedSigMethods && t.matchedSigMethods[m].mname == t.matchedMethods[m])
  }

  lemma GrowsTrans(bin: Binary, s: RunState, u: RunState, t: RunState, ms1: seq<MethodId>, ms2: seq<MethodId>)
    requires Grows(bin, s, u, ms1) && Grows(bin, u, t, ms2)
    ensures Grows(bin, s, t, ms1 + ms2)
  {
  }

  lemma SweepGrows(e: Env, firstRound: bool, className: string, files: seq<string>,
                   s: RunState, already: seq<Sig>, ms: seq<MethodId>)
    ensures Grows(e.bin, s, SweepFrom(e, firstRound, className, files, s, already, ms).0, ms)
  {
    SweepProgress(e, firstRound, className, files, s, already, ms, ms);
    SweepAdds(e, firstRound, className, files, s, already, ms);
  }

  /** The repeated sweeps grow the state by renaming methods of `ms` only. */
  lemma {:induction false} RepeatFacts(e: Env, firstRound: bool, className: string, files: Option<seq<string>>,
                                       s: RunState, already: seq<Sig>, ms: seq<MethodId>)
    ensures Grows(e.bin, s, Repeat(e, firstRound, className, files, s, already, ms).0, ms)
    decreases |Unmatched(e.bin, s, ms)|
  {
    var t := SweepPass(e, firstRound, className, files, s, already, ms);
    if files.Some? {
      SweepProgress(e, firstRound, className, files.value, s, already, ms, ms);
      SweepGrows(e, firstRound, className, files.value, s, already, ms);
      if |t.1| != |already| {
        RepeatFacts(e, firstRound, className, files, t.0, t.1, ms);
        GrowsTrans(e.bin, s, t.0, Repeat(e, firstRound, className, files, t.0, t.1, ms).0, ms, ms);
        assert forall m :: m in ms + ms ==> m in ms;
      }
    }
  }

  // ---------------------------------------------------------------------------
  // getAlreadyMatched

  /** Lines 673-692 for one method `mid`: the signature of a matched method, taken from the
      matched signatures, else looked up in the class's file (and then remembered), else made
      up from the binary's prototype with no versions and no caller; nothing for an unmatched one. */
  function AlreadyStep(e: Env, className: string, f: Option<string>, s: RunState, acc: seq<Sig>,
                       mid: MethodId): (RunState, seq<Sig>)
  {
    if mid !in s.matchedMethods then (s, acc)
    else if mid in s.matchedSigMethods then (s, acc + [s.matchedSigMethods[mid]])
    else
      var name := s.matchedMethods[mid];
      var found := if f.Some? then e.or.findMatched(f.value, className, mid, name) else None;
      if found.Some? then (s.(matchedSigMethods := s.matchedSigMethods[mid := found.value]), acc + [found.value])
      else
        var m := e.bin.Method(mid);
        (s, acc + [Sig(className, name, m.shorty, m.prototype, None, [], map[])])
  }

  /** Lines 668-695 from method list `ms` on: one step per method, in order. */
  function AlreadyFrom(e: Env, className: string, f: Option<string>, s: RunState, acc: seq<Sig>,
                       ms: seq<MethodId>): (RunState, seq<Sig>)
    decreases |ms|
  {
    if ms == [] then (s, acc)
    else
      var t := AlreadyStep(e, className, f, s, acc, ms[0]);
      AlreadyFrom(e, className, f, t.0, t.1, ms[1..])
  }

  /** How many entries of `ms` are matched methods. */
  function MatchedCount(mm: map<MethodId, string>, ms: seq<MethodId>): nat {
    if ms == [] then 0 else (if ms[0] in mm then 1 else 0) + MatchedCount(mm, ms[1..])
  }

  /** A step adds one signature exactly for a matched method, remembers at most the signature
      of `mid`, and changes nothing else. */
  lemma AlreadyStepFacts(e: Env, className: string, f: Option<string>, s: RunState, acc: seq<Sig>, mid: MethodId)
    ensures var t := AlreadyStep(e, className, f, s, acc, mid);
      |t.1| == |acc| + (if mid in s.matchedMethods then 1 else 0) && acc <= t.1 &&
      t.0 == s.(matchedSigMethods := t.0.matchedSigMethods) &&
      (forall m :: m in s.matchedSigMethods ==> m in t.0.matchedSigMethods && t.0.matchedSigMethods[m] == s.matchedSigMethods[m]) &&
      (forall m :: m in t.0.matchedSigMethods && m !in s.matchedSigMethods ==> m == mid && m in s.matchedMethods)
  {
    if mid in s.matchedMethods && mid !in s.matchedSigMethods {
      var name := s.matchedMethods[mid];
      var found := if f.Some? then e.or.findMatched(f.value, className, mid, name) else None;
      if found.Some? {
        var s1 := s.(matchedSigMethods := s.matchedSigMethods[mid := found.value]);
        assert AlreadyStep(e, className, f, s, acc, mid) == (s1, acc + [found.value]);
      }
    }
  }

  /** One signature per matched method of `ms`, after those of `acc`. */
  lemma {:induction false} AlreadyCount(e: Env, className: string, f: Option<string>, s: RunState, acc: seq<Sig>,
                                        ms: seq<MethodId>)
    ensures var t := AlreadyFrom(e, className, f, s, acc, ms);
      |t.1| == |acc| + MatchedCount(s.matchedMethods, ms) && acc <= t.1
    decreases |ms|
  {
    if ms != [] {
      var t := AlreadyStep(e, className, f, s, acc, ms[0]);
      AlreadyStepFacts(e, className, f, s, acc, ms[0]);
      AlreadyCount(e, className, f, t.0, t.1, ms[1..]);
    }
  }

  /** Only the signatures of matched methods of `ms` that were not known are added to the
      state; nothing else changes. */
  lemma {:induction false} AlreadyState(e: Env, className: string, f: Option<string>, s: RunState, acc: seq<Sig>,
                                        ms: seq<MethodId>)
    ensures var t := AlreadyFrom(e, className, f, s, acc, ms).0;
      t == s.(matchedSigMethods := t.matchedSigMethods) &&
      (forall m :: m in s.matchedSigMethods ==> m in t.matchedSigMethods && t.matchedSigMethods[m] == s.matchedSigMethods[m]) &&
      (forall m :: m in t.matchedSigMethods && m !in s.matchedSigMethods ==> m in ms && m in s.matchedMethods)
    decreases |ms|
  {
    if ms != [] {
      var t := AlreadyStep(e, className, f, s, acc, ms[0]);
      AlreadyStepFacts(e, className, f, s, acc, ms[0]);
      AlreadyState(e, className, f, t.0, t.1, ms[1..]);
    }
  }

  // ---------------------------------------------------------------------------
  // getCandidateFilesForClass

  /** The files of `files` that are in use, in order. */
  function UsedOnly(files: seq<string>, used: set<string>): seq<string> {
    if files == [] then []
    else UsedOnly(files[..|files| - 1], used) + (if files[|files| - 1] in used then [files[|files| - 1]] else [])
  }

  lemma {:induction false} UsedOnlyMembers(files: seq<string>, used: set<string>)
    ensures forall x :: x in UsedOnly(files, used) <==> x in files && x in used
  {
    if files != [] {
      var p := files[..|files| - 1];
      UsedOnlyMembers(p, used);
      assert files == p + [files[|files| - 1]];
    }
  }

  /** Lines 837-863: the class's known file alone; else the files of the library that hold
      the class name (`None` when it is in none), narrowed to the used ones when there are
      several and some are used. */
  function CandidateFiles(e: Env, log: seq<FileEvent>, f: Option<string>, className: string): Option<seq<string>> {
    if f.Some? then Some([f.value])
    else match e.or.filesContainingClass(className)
      case None => None
      case Some(fs) =>
        var used := UsedOnly(fs, e.or.usedSigFiles(log));
        if |fs| > 1 && used != [] then Some(used) else Some(fs)
  }

  /** Without a known file the candidates are files holding the class; when several do and
      some are in use, exactly the used ones are kept. */
  lemma CandidateFilesFacts(e: Env, log: seq<FileEvent>, className: string)
    ensures var r := CandidateFiles(e, log, None, className);
      var fs := e.or.filesContainingClass(className);
      var used := e.or.usedSigFiles(log);
      (r.None? <==> fs.None?) &&
      (r.Some? ==> forall x :: x in r.value ==> x in fs.value) &&
      (r.Some? && |fs.value| > 1 && (exists x :: x in fs.value && x in used) ==>
        forall x :: x in r.value <==> x in fs.value && x in used) &&
      (r.Some? && (|fs.value| <= 1 || forall x :: x in fs.value ==> x !in used) ==> r.value == fs.value)
  {
    var fs := e.or.filesContainingClass(className);
    if fs.Some? {
      UsedOnlyMembers(fs.value, e.or.usedSigFiles(log));
      if exists x :: x in fs.value && x in e.or.usedSigFiles(log) {
        var x :| x in fs.value && x in e.or.usedSigFiles(log);
        assert x in UsedOnly(fs.value, e.or.usedSigFiles(log));
      }
      var used := UsedOnly(fs.value, e.or.usedSigFiles(log));
      if used != [] {
        assert used[0] in used;
      }
    }
  }

  // ---------------------------------------------------------------------------
  // postProcessRenameClasses

  /** The file of a matched class: the one FileMatches holds, else the one it matched for
      the class name. */
  function ClassFile(e: Env, s: RunState, c: ClassId, name: string): Option<string> {
    match e.or.fileFromClass(s.fileLog, c)
      case Some(x) => Some(x)
      case None => e.or.matchedClassFile(s.fileLog, c, name)
  }

  /** Lines 705-831 for matched class `c` renamed to `name`. */
  function RenameClass(e: Env, firstRound: bool, s: RunState, c: ClassId, name: string): RunState {
    if c !in e.bin.classes || |e.bin.classes[c].methods| == 0 then s
    else
      var f := ClassFile(e, s, c, name);
      var ms := e.bin.classes[c].methods;
      var className := e.bin.classes[c].signature;
      var a := AlreadyFrom(e, className, f, s, [], ms);
      Repeat(e, firstRound, className, CandidateFiles(e, a.0.fileLog, f, className), a.0, a.1, ms).0
  }

  /** The sweep over one class grows the state by renaming methods of that class only. */
  lemma RenameClassFacts(e: Env, firstRound: bool, s: RunState, c: ClassId, name: string)
    ensures Grows(e.bin, s, RenameClass(e, firstRound, s, c, name), e.bin.MethodsOf(c))
  {
    if c in e.bin.classes && |e.bin.classes[c].methods| != 0 {
      var f := ClassFile(e, s, c, name);
      var ms := e.bin.classes[c].methods;
      var className := e.bin.classes[c].signature;
      var a := AlreadyFrom(e, className, f, s, [], ms);
      AlreadyState(e, className, f, s, [], ms);
      assert Grows(e.bin, s, a.0, []);
      RepeatFacts(e, firstRound, className, CandidateFiles(e, a.0.fileLog, f, className), a.0, a.1, ms);
      GrowsTrans(e.bin, s, a.0, RenameClass(e, firstRound, s, c, name), [], ms);
      assert [] + ms == ms;
    }
  }

  /** The classes of `order`, each under its name in `mc`, swept in turn. */
  function RenameAll(e: Env, firstRound: bool, mc: map<ClassId, string>, s: RunState, order: seq<ClassId>): RunState
    requires forall i :: 0 <= i < |order| ==> order[i] in mc
  {
    if order == [] then s
    else
      var c := order[|order| - 1];
      RenameClass(e, firstRound, RenameAll(e, firstRound, mc, s, order[..|order| - 1]), c, mc[c])
  }

  /** The methods of the classes of `order`, in order. */
  function MethodsOfAll(bin: Binary, order: seq<ClassId>): seq<MethodId> {
    if order == [] then [] else MethodsOfAll(bin, order[..|order| - 1]) + bin.MethodsOf(order[|order| - 1])
  }

  /** `postProcessRenameClasses` only adds method matches: every earlier one stays, and each
      new one is an internal method of a class of `order`, under a non-blank name whose
      signature is recorded. Classes, duplicate tables and files are untouched. */
  lemma {:induction false} RenameAllFacts(e: Env, firstRound: bool, mc: map<ClassId, string>, s: RunState, order: seq<ClassId>)
    requires forall i :: 0 <= i < |order| ==> order[i] in mc
    ensures Grows(e.bin, s, RenameAll(e, firstRound, mc, s, order), MethodsOfAll(e.bin, order))
  {
    if order != [] {
      var p := order[..|order| - 1];
      var c := order[|order| - 1];
      RenameAllFacts(e, firstRound, mc, s, p);
      var u := RenameAll(e, firstRound, mc, s, p);
      RenameClassFacts(e, firstRound, u, c, mc[c]);
      GrowsTrans(e.bin, s, u, RenameAll(e, firstRound, mc, s, order), MethodsOfAll(e.bin, p), e.bin.MethodsOf(c));
    }
  }
}
