/** The inner-class string surgery of `storeFinalCandidate` (DatabaseMatcher2.java lines
    416-472): the parent of a `$`-nested type signature, the ladder of ancestor pairs, the
    ancestor-conflict check and the per-level class matches it records. */
module InnerClasses {
  import opened Wrappers
  import opened JavaStrings
  import opened Dex

  /** Whether a type signature names an inner class. */
  predicate IsNested(s: string) {
    '$' in s
  }

  /** The enclosing class: everything before the last `$`, closed by `;`. */
  function Parent(s: string): string
    requires IsNested(s)
  {
    s[..LastIndexOf(s, '$')] + ";"
  }

  /** The parent is one level less nested. */
  lemma ParentIsShallower(s: string)
    requires IsNested(s)
    ensures Count(Parent(s), '$') == Count(s, '$') - 1
  {
    CutAtLastRemovesOne(s, '$', ';');
  }

  /** The last segment of a nested name, `$` and `;` included. */
  function LastSegment(s: string): (t: string)
    requires IsNested(s)
    ensures |t| > 0 && t[0] == '$' && EndsWith(s, t)
  {
    var k := LastIndexOf(s, '$');
    assert s[|s| - (|s| - k)..] == s[k..];
    s[k..]
  }

  /** The pairs (binary class, library class) visited while both are nested, walking up one
      level at a time from (`dex`, `lib`). */
  function Ladder(dex: string, lib: string): seq<(string, string)>
    decreases Count(lib, '$')
  {
    if IsNested(dex) && IsNested(lib) then
      ParentIsShallower(lib);
      [(dex, lib)] + Ladder(Parent(dex), Parent(lib))
    else []
  }

  /** The ladder has one rung per level both names share... */
  lemma {:induction false} LadderLength(dex: string, lib: string)
    ensures |Ladder(dex, lib)| == if Count(dex, '$') <= Count(lib, '$') then Count(dex, '$') else Count(lib, '$')
    decreases Count(lib, '$')
  {
    if IsNested(dex) && IsNested(lib) {
      ParentIsShallower(dex);
      ParentIsShallower(lib);
      LadderLength(Parent(dex), Parent(lib));
    } else {
      CountZero(dex);
      CountZero(lib);
    }
  }

  /** ... and rung `k` sits `k` levels up. */
  lemma {:induction false} LadderDepths(dex: string, lib: string)
    ensures forall k :: 0 <= k < |Ladder(dex, lib)| ==>
      Count(Ladder(dex, lib)[k].0, '$') == Count(dex, '$') - k &&
      Count(Ladder(dex, lib)[k].1, '$') == Count(lib, '$') - k
    decreases Count(lib, '$')
  {
    if IsNested(dex) && IsNested(lib) {
      ParentIsShallower(dex);
      ParentIsShallower(lib);
      var l, r := Ladder(dex, lib), Ladder(Parent(dex), Parent(lib));
      LadderDepths(Parent(dex), Parent(lib));
      forall k | 0 <= k < |l| ensures Count(l[k].0, '$') == Count(dex, '$') - k && Count(l[k].1, '$') == Count(lib, '$') - k {
        if k > 0 {
          assert l[k] == r[k - 1];
        }
      }
    }
  }

  lemma {:induction false} CountZero(s: string)
    ensures Count(s, '$') == 0 <==> !IsNested(s)
  {
    if s != [] {
      CountZero(s[1..]);
      assert s == [s[0]] + s[1..];
    }
  }

  /** The test of lines 442-460 on the parents of rung (`dex`, `lib`): the binary parent is
      already matched to another class, or it is unmatched while the library parent names a
      binary class that is matched. A binary parent that is not loaded is skipped. */
  predicate Clash(bin: Binary, matched: map<ClassId, string>, dex: string, lib: string) {
    IsNested(dex) && IsNested(lib) &&
    var dp, lp := Parent(dex), Parent(lib);
    dp in bin.byName &&
    (if bin.byName[dp] in matched then matched[bin.byName[dp]] != lp
     else lp in bin.byName && bin.byName[lp] in matched)
  }

  /** Whether some rung from (`dex`, `lib`) upwards clashes. */
  predicate AnyClash(bin: Binary, matched: map<ClassId, string>, dex: string, lib: string)
    decreases Count(lib, '$')
  {
    IsNested(dex) && IsNested(lib) &&
    (Clash(bin, matched, dex, lib) || (ParentIsShallower(lib); AnyClash(bin, matched, Parent(dex), Parent(lib))))
  }

  /** A clash found walking up is a clash on some rung of the ladder, and conversely. */
  lemma {:induction false} AnyClashOnLadder(bin: Binary, matched: map<ClassId, string>, dex: string, lib: string)
    ensures AnyClash(bin, matched, dex, lib) <==> exists p :: p in Ladder(dex, lib) && Clash(bin, matched, p.0, p.1)
    decreases Count(lib, '$')
  {
    if IsNested(dex) && IsNested(lib) {
      var dp, lp := Parent(dex), Parent(lib);
      ParentIsShallower(lib);
      AnyClashOnLadder(bin, matched, dp, lp);
      assert forall p :: p in Ladder(dex, lib) <==> p == (dex, lib) || p in Ladder(dp, lp);
    }
  }

  /** The first loop of lines 439-461: whether walking up the ladder meets a clash. */
  method AncestorConflict(bin: Binary, matched: map<ClassId, string>, dex: string, lib: string)
    returns (conflict: bool)
    ensures conflict == AnyClash(bin, matched, dex, lib)
  {
    var d, l := dex, lib;
    while IsNested(l) && IsNested(d)
      invariant AnyClash(bin, matched, dex, lib) == AnyClash(bin, matched, d, l)
      decreases Count(l, '$')
    {
      ghost var here := Clash(bin, matched, d, l);
      var dp, lp := Parent(d), Parent(l);
      ParentIsShallower(l);
      d, l := dp, lp;
      if dp !in bin.byName {
        continue;
      }
      var did := bin.byName[dp];
      if did in matched {
        if matched[did] != lp {
          return true;
        }
      } else if lp in bin.byName && bin.byName[lp] in matched {
        return true;
      }
      assert !here;
    }
    return false;
  }

  /** The class matches recorded walking up from rung (`dex`, `lib`), after those of `acc`:
      one for each rung whose binary name does not end with the library name's last
      segment. */
  function LevelMatches(acc: seq<CtxEvent>, dex: string, lib: string, className: string): seq<CtxEvent>
    decreases Count(lib, '$')
  {
    if IsNested(dex) && IsNested(lib) then
      ParentIsShallower(lib);
      LevelMatches(acc + (if EndsWith(dex, LastSegment(lib)) then [] else [SaveClassMatch(dex, lib, className)]),
                   Parent(dex), Parent(lib), className)
    else acc
  }

  /** Each recorded class match pairs the two names of one rung whose last segments differ,
      and there is at most one per rung. */
  lemma {:induction false} LevelMatchesShape(acc: seq<CtxEvent>, dex: string, lib: string, className: string)
    ensures |LevelMatches(acc, dex, lib, className)| <= |acc| + |Ladder(dex, lib)|
    ensures forall e :: e in LevelMatches(acc, dex, lib, className) ==>
      (e in acc ||
       (e.SaveClassMatch? && e.matchedName == className && (e.oldClass, e.newClass) in Ladder(dex, lib) &&
        IsNested(e.newClass) && !EndsWith(e.oldClass, LastSegment(e.newClass))))
    decreases Count(lib, '$')
  {
    if IsNested(dex) && IsNested(lib) {
      var here := if EndsWith(dex, LastSegment(lib)) then [] else [SaveClassMatch(dex, lib, className)];
      ParentIsShallower(lib);
      LevelMatchesShape(acc + here, Parent(dex), Parent(lib), className);
      assert Ladder(dex, lib) == [(dex, lib)] + Ladder(Parent(dex), Parent(lib));
    }
  }

  /** The matches recorded after `a + b` are `a` followed by those recorded after `b`. */
  lemma {:induction false} LevelMatchesAfter(a: seq<CtxEvent>, b: seq<CtxEvent>, dex: string, lib: string, className: string)
    ensures LevelMatches(a + b, dex, lib, className) == a + LevelMatches(b, dex, lib, className)
    decreases Count(lib, '$')
  {
    if IsNested(dex) && IsNested(lib) {
      var here := if EndsWith(dex, LastSegment(lib)) then [] else [SaveClassMatch(dex, lib, className)];
      ParentIsShallower(lib);
      LevelMatchesAfter(a, b + here, Parent(dex), Parent(lib), className);
      assert a + b + here == a + (b + here);
    }
  }

  /** The second loop of lines 462-470. */
  method SegmentMatches(dex: string, lib: string, className: string) returns (events: seq<CtxEvent>)
    ensures events == LevelMatches([], dex, lib, className)
  {
    events := [];
    var d, l := dex, lib;
    while IsNested(l) && IsNested(d)
      invariant LevelMatches(events, d, l, className) == LevelMatches([], dex, lib, className)
      decreases Count(l, '$')
    {
      var seg := LastSegment(l);
      assert events + [] == events;
      if !EndsWith(d, seg) {
        events := events + [SaveClassMatch(d, l, className)];
      }
      ParentIsShallower(l);
      d, l := Parent(d), Parent(l);
    }
  }
}
