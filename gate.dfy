/** The acceptance gate `f` of DatabaseMatcher2.java (lines 531-582): the share of a class's
    instructions covered by the matched methods must exceed the configured bar. */
module Gate {
  import opened Wrappers
  import opened Dex

  /** The instruction count of a method; no code reads as 0. */
  function Size(m: DexMethod): nat {
    m.instructions.GetOr(0)
  }

  /** The uncached pass counts internal methods that have a code item (lines 557-568). */
  predicate Counted(m: DexMethod) {
    m.internal && m.instructions.Some?
  }

  /** Cached pass: the instructions of every listed id (lines 538-542). */
  function Listed(bin: Binary, ids: seq<MethodId>): nat {
    if ids == [] then 0
    else Listed(bin, ids[..|ids| - 1]) + Size(bin.Method(ids[|ids| - 1]))
  }

  /** Uncached pass: the instructions of the counted methods of `ms`. */
  function Total(bin: Binary, ms: seq<MethodId>): nat {
    if ms == [] then 0
    else
      var m := bin.Method(ms[|ms| - 1]);
      Total(bin, ms[..|ms| - 1]) + (if Counted(m) then Size(m) else 0)
  }

  /** Uncached pass: the instructions of the counted methods of `ms` that are listed in `ids`. */
  function Matched(bin: Binary, ms: seq<MethodId>, ids: seq<MethodId>): nat {
    if ms == [] then 0
    else
      var m := bin.Method(ms[|ms| - 1]);
      Matched(bin, ms[..|ms| - 1], ids) + (if Counted(m) && ms[|ms| - 1] in ids then Size(m) else 0)
  }

  /** Whether some method of `ms` is counted, i.e. whether the uncached pass caches a total. */
  predicate AnyCounted(bin: Binary, ms: seq<MethodId>) {
    exists i :: 0 <= i < |ms| && Counted(bin.Method(ms[i]))
  }

  /** The comparison of line 578. With a zero total Java divides to NaN or +infinity, neither
      of which is `<=` the bar, so the gate accepts. */
  predicate Accept(matched: nat, total: nat, bar: real) {
    total == 0 || matched as real > bar * total as real
  }

  predicate IsConstructor(name: string) {
    name == "<init>" || name == "<clinit>"
  }

  /** What `f` answers and which total it leaves in the cache for the class. */
  datatype Decision = Decision(accept: bool, cache: Option<nat>)

  /** `f` for class `c` with matched ids `ids`, given the cached total of `c` if any. */
  function Decide(bin: Binary, c: ClassId, ids: seq<MethodId>, cached: Option<nat>, bar: real): Decision {
    var ms := bin.MethodsOf(c);
    if cached.Some? then Decision(Accept(Listed(bin, ids), cached.value, bar), None)
    else if |ms| == 0 then Decision(false, None)
    // line 553 compares the matched count, still 0 here, with 20
    else if |ms| == 1 && IsConstructor(bin.Method(ms[0]).name) then Decision(false, None)
    else Decision(Accept(Matched(bin, ms, ids), Total(bin, ms), bar),
                  if AnyCounted(bin, ms) then Some(Total(bin, ms)) else None)
  }

  // ---------------------------------------------------------------------------
  // Properties

  /** With a positive total the gate is the ratio test; a ratio equal to the bar fails. */
  lemma AcceptIsRatio(matched: nat, total: nat, bar: real)
    requires total > 0
    ensures Accept(matched, total, bar) <==> matched as real / total as real > bar
    ensures matched as real == bar * total as real ==> !Accept(matched, total, bar)
  {
    var t := total as real;
    var q := matched as real / t;
    assert q * t == matched as real;
    if q > bar {
      assert q * t > bar * t;
    } else {
      assert q * t <= bar * t;
    }
  }

  lemma {:induction false} MatchedAtMostTotal(bin: Binary, ms: seq<MethodId>, ids: seq<MethodId>)
    ensures Matched(bin, ms, ids) <= Total(bin, ms)
  {
    if ms != [] {
      MatchedAtMostTotal(bin, ms[..|ms| - 1], ids);
    }
  }

  /** When every counted method is listed the matched share is the whole. */
  lemma {:induction false} MatchedAllIsTotal(bin: Binary, ms: seq<MethodId>, ids: seq<MethodId>)
    requires forall i :: 0 <= i < |ms| && Counted(bin.Method(ms[i])) ==> ms[i] in ids
    ensures Matched(bin, ms, ids) == Total(bin, ms)
  {
    if ms != [] {
      MatchedAllIsTotal(bin, ms[..|ms| - 1], ids);
    }
  }

  /** A total is cached exactly when some method is counted, and a total without counted
      methods is zero. */
  lemma {:induction false} NoCountedNoTotal(bin: Binary, ms: seq<MethodId>)
    requires !AnyCounted(bin, ms)
    ensures Total(bin, ms) == 0
  {
    if ms != [] {
      var p := ms[..|ms| - 1];
      assert !AnyCounted(bin, p) by {
        forall i | 0 <= i < |p| ensures !Counted(bin.Method(p[i])) {
          assert p[i] == ms[i];
        }
      }
      NoCountedNoTotal(bin, p);
    }
  }

  /** On the uncached path: a class with no methods, and a class whose only method is a
      constructor, are always rejected and nothing is cached. */
  lemma RejectedShapes(bin: Binary, c: ClassId, ids: seq<MethodId>, bar: real)
    requires |bin.MethodsOf(c)| == 0 ||
             (|bin.MethodsOf(c)| == 1 && IsConstructor(bin.Method(bin.MethodsOf(c)[0]).name))
    ensures Decide(bin, c, ids, None, bar) == Decision(false, None)
  {
  }

  /** On the uncached path with a bar below 1, a class whose counted methods are all matched
      is accepted, unless it is one of the shapes that are always rejected. */
  lemma FullMatchAccepted(bin: Binary, c: ClassId, ids: seq<MethodId>, bar: real)
    requires bar < 1.0
    requires var ms := bin.MethodsOf(c);
      |ms| >= 1 && !(|ms| == 1 && IsConstructor(bin.Method(ms[0]).name))
    requires var ms := bin.MethodsOf(c);
      forall i :: 0 <= i < |ms| && Counted(bin.Method(ms[i])) ==> ms[i] in ids
    ensures Decide(bin, c, ids, None, bar).accept
  {
    var ms := bin.MethodsOf(c);
    MatchedAllIsTotal(bin, ms, ids);
    var t := Total(bin, ms);
    if t > 0 {
      assert t as real > bar * t as real;
    }
  }

  /** With a bar of 1 or more only a class with no counted instructions passes the
      uncached gate. */
  lemma HighBarRejects(bin: Binary, c: ClassId, ids: seq<MethodId>, bar: real)
    requires bar >= 1.0
    ensures Decide(bin, c, ids, None, bar).accept ==> Total(bin, bin.MethodsOf(c)) == 0
  {
    var ms := bin.MethodsOf(c);
    MatchedAtMostTotal(bin, ms, ids);
    var t := Total(bin, ms);
    if t > 0 {
      assert Matched(bin, ms, ids) as real <= t as real <= bar * t as real;
    }
  }
}
