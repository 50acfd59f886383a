/** The few java.lang.String operations the matcher and the signature loader rely on,
    over `string` (a sequence of UTF-16 code units). */
module JavaStrings {

  /** `s.startsWith(p)` */
  predicate StartsWith(s: string, p: string) {
    |p| <= |s| && s[..|p|] == p
  }

  /** `s.endsWith(p)` */
  predicate EndsWith(s: string, p: string) {
    |p| <= |s| && s[|s| - |p|..] == p
  }

  /** `s.lastIndexOf(c)`: the last position holding `c`, or -1. */
  function LastIndexOf(s: string, c: char): (r: int)
    ensures -1 <= r < |s|
    ensures r == -1 <==> c !in s
    ensures r >= 0 ==> s[r] == c && forall j :: r < j < |s| ==> s[j] != c
  {
    if |s| == 0 then -1
    else if s[|s| - 1] == c then |s| - 1
    else LastIndexOf(s[..|s| - 1], c)
  }

  /** Number of occurrences of `c` in `s`. */
  function Count(s: string, c: char): nat {
    multiset(s)[c]
  }

  /** Java's `trim` removes every leading and trailing character at or below U+0020. */
  predicate IsTrimmable(c: char) {
    c <= ' '
  }

  function TrimStart(s: string): (i: nat)
    ensures i <= |s|
    ensures forall k :: 0 <= k < i ==> IsTrimmable(s[k])
    ensures i < |s| ==> !IsTrimmable(s[i])
  {
    if |s| == 0 || !IsTrimmable(s[0]) then 0 else 1 + TrimStart(s[1..])
  }

  function TrimEnd(s: string): (j: nat)
    ensures j <= |s|
    ensures forall k :: j <= k < |s| ==> IsTrimmable(s[k])
    ensures j > 0 ==> !IsTrimmable(s[j - 1])
  {
    if |s| == 0 || !IsTrimmable(s[|s| - 1]) then |s| else TrimEnd(s[..|s| - 1])
  }

  /** `s.trim()` */
  function Trim(s: string): string {
    var i := TrimStart(s);
    var j := TrimEnd(s);
    if i < j then s[i..j] else ""
  }

  /** JEB's `Strings.isBlank` for a non-null string: nothing but whitespace. */
  predicate IsBlank(s: string) {
    forall k :: 0 <= k < |s| ==> IsTrimmable(s[k])
  }

  /** The trimmed string is a slice of the input, its ends are not whitespace, and
      everything cut away is whitespace. */
  lemma TrimIsSlice(s: string)
    ensures var t := Trim(s);
      (t == "" <==> IsBlank(s)) &&
      (t != "" ==> !IsTrimmable(t[0]) && !IsTrimmable(t[|t| - 1])) &&
      exists i, j :: 0 <= i <= j <= |s| && t == s[i..j] &&
        (forall k :: 0 <= k < i ==> IsTrimmable(s[k])) &&
        (forall k :: j <= k < |s| ==> IsTrimmable(s[k]))
  {
    var i := TrimStart(s);
    var j := TrimEnd(s);
    if i < j {
      assert Trim(s) == s[i..j];
      assert !IsTrimmable(s[i]);
    } else {
      assert i == |s| || j == 0;
      assert Trim(s) == s[i..i];
    }
  }

  /** Trimming twice changes nothing. */
  lemma TrimIdempotent(s: string)
    ensures Trim(Trim(s)) == Trim(s)
  {
    var t := Trim(s);
    TrimIsSlice(s);
    if t != "" {
      assert TrimStart(t) == 0;
      assert TrimEnd(t) == |t|;
      assert t[0..|t|] == t;
    }
  }

  /** Cutting at the last `c` and appending a character strips exactly one `c`:
      the measure that makes the "$"-segment loops terminate. */
  lemma CutAtLastRemovesOne(s: string, c: char, tail: char)
    requires c in s && tail != c
    ensures Count(s[..LastIndexOf(s, c)] + [tail], c) == Count(s, c) - 1
  {
    var i := LastIndexOf(s, c);
    assert s == s[..i] + [s[i]] + s[i + 1..];
    assert c !in s[i + 1..];
    assert multiset(s) == multiset(s[..i]) + multiset{c} + multiset(s[i + 1..]);
    assert multiset(s[..i] + [tail]) == multiset(s[..i]) + multiset{tail};
  }
}
