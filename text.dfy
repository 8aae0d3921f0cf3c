/**
 * The JavaScript string built-ins the handlers and the profile page use
 * (`trim`, `toLowerCase`, `includes`, `split`, `join`, `replace`), over
 * Dafny strings. Characters are Unicode scalar values; `toLowerCase` is
 * modelled on ASCII letters only.
 */
module Text {
  import opened Wrappers
  import opened Arrays

  /** The characters `String.prototype.trim` strips: ECMAScript WhiteSpace and LineTerminator. */
  predicate IsSpace(c: char) {
    || c == ' ' || c == '\t' || c == '\n' || c == '\r'
    || c == '\U{000B}' || c == '\U{000C}' || c == '\U{00A0}' || c == '\U{1680}'
    || ('\U{2000}' <= c <= '\U{200A}')
    || c == '\U{2028}' || c == '\U{2029}' || c == '\U{202F}' || c == '\U{205F}'
    || c == '\U{3000}' || c == '\U{FEFF}'
  }

  predicate AllSpace(s: string) {
    forall i :: 0 <= i < |s| ==> IsSpace(s[i])
  }

  /** How many whitespace characters `s` starts with. */
  function LeadingSpaces(s: string): (n: nat)
    ensures n <= |s| && AllSpace(s[..n])
    ensures n < |s| ==> !IsSpace(s[n])
    decreases |s|
  {
    if |s| > 0 && IsSpace(s[0]) then
      var m := LeadingSpaces(s[1..]);
      assert s[..m + 1] == [s[0]] + s[1..][..m];
      m + 1
    else 0
  }

  /** How many whitespace characters `s` ends with. */
  function TrailingSpaces(s: string): (n: nat)
    ensures n <= |s| && AllSpace(s[|s| - n..])
    ensures n < |s| ==> !IsSpace(s[|s| - n - 1])
    decreases |s|
  {
    if |s| > 0 && IsSpace(s[|s| - 1]) then
      var t := s[..|s| - 1];
      var m := TrailingSpaces(t);
      var u := s[|s| - (m + 1)..];
      forall i | 0 <= i < |u| ensures IsSpace(u[i]) {
        if i < m {
          assert u[i] == t[|t| - m..][i];
        }
      }
      m + 1
    else 0
  }

  /** `s` without its trailing whitespace. */
  function TrimEnd(t: string): (r: string)
    ensures |r| <= |t| && r == t[..|r|]
    ensures r == [] <==> AllSpace(t)
    ensures r != [] ==> !IsSpace(r[|r| - 1])
    ensures AllSpace(t[|r|..])
  {
    var b := TrailingSpaces(t);
    assert b == |t| ==> AllSpace(t) by {
      if b == |t| { assert t[|t| - b..] == t; }
    }
    t[..|t| - b]
  }

  /** `s.trim()`: `s` without its leading and trailing whitespace. */
  function Trim(s: string): (r: string)
    ensures |r| <= |s|
    ensures r == [] <==> AllSpace(s)
    ensures r != [] ==> !IsSpace(r[0]) && !IsSpace(r[|r| - 1])
    ensures LeadingSpaces(s) + |r| <= |s| && r == s[LeadingSpaces(s)..LeadingSpaces(s) + |r|]
    ensures AllSpace(s[..LeadingSpaces(s)]) && AllSpace(s[LeadingSpaces(s) + |r|..])
  {
    var a := LeadingSpaces(s);
    var r := TrimEnd(s[a..]);
    TrimParts(s, a, r);
    r
  }

  /** What `Trim` needs: stripping the end of the rest after the leading whitespace leaves a slice of `s`. */
  lemma TrimParts(s: string, a: nat, r: string)
    requires a == LeadingSpaces(s) && r == TrimEnd(s[a..])
    ensures r == [] <==> AllSpace(s)
    ensures r != [] ==> !IsSpace(r[0]) && !IsSpace(r[|r| - 1])
    ensures a + |r| <= |s| && r == s[a..a + |r|]
    ensures AllSpace(s[..a]) && AllSpace(s[a + |r|..])
  {
    TrimEndSlice(s, a, r);
    if r == [] {
      AllSpaceJoin(s, a);
    } else {
      NotAllSpace(s, a);
    }
  }

  lemma TrimEndSlice(s: string, a: nat, r: string)
    requires a <= |s| && r == TrimEnd(s[a..])
    ensures a + |r| <= |s| && r == s[a..a + |r|] && AllSpace(s[a + |r|..])
    ensures r != [] ==> r[0] == s[a]
  {
    var t := s[a..];
    assert t[|r|..] == s[a + |r|..];
    assert t[..|r|] == s[a..a + |r|];
  }

  lemma NotAllSpace(s: string, a: nat)
    requires a < |s| && !IsSpace(s[a])
    ensures !AllSpace(s)
  {
  }

  /** Any prefix of `t` that leaves only whitespace behind and does not itself end in whitespace is `TrimEnd(t)`. */
  lemma TrimEndUnique(t: string, n: nat)
    requires n <= |t| && AllSpace(t[n..])
    requires n == 0 || !IsSpace(t[n - 1])
    ensures TrimEnd(t) == t[..n]
  {
  }

  /** The whitespace run in front of `s` ends exactly where the first non-whitespace character is. */
  lemma LeadingSpacesUnique(s: string, a: nat)
    requires a <= |s| && AllSpace(s[..a]) && (a < |s| ==> !IsSpace(s[a]))
    ensures LeadingSpaces(s) == a
  {
    var n := LeadingSpaces(s);
    SpacesBefore(s, a);
    SpacesBefore(s, n);
  }

  lemma SpacesBefore(s: string, a: nat)
    requires a <= |s| && AllSpace(s[..a])
    ensures forall i :: 0 <= i < a ==> IsSpace(s[i])
  {
    forall i | 0 <= i < a ensures IsSpace(s[i]) {
      assert s[..a][i] == s[i];
    }
  }

  /**
   * Trim is determined by its cuts: whitespace before `a`, whitespace from
   * `b` on, and no whitespace at either end of what lies between.
   */
  lemma TrimUnique(s: string, a: nat, b: nat)
    requires a <= b <= |s| && AllSpace(s[..a]) && AllSpace(s[b..])
    requires a < b ==> !IsSpace(s[a]) && !IsSpace(s[b - 1])
    ensures Trim(s) == s[a..b]
  {
    if a == b {
      AllSpaceJoin(s, a);
    } else {
      LeadingSpacesUnique(s, a);
      var t := s[a..];
      assert t[b - a..] == s[b..];
      assert t[b - a - 1] == s[b - 1];
      TrimEndUnique(t, b - a);
      assert t[..b - a] == s[a..b];
    }
  }

  lemma AllSpaceJoin(s: string, a: nat)
    requires a <= |s| && AllSpace(s[..a]) && AllSpace(s[a..])
    ensures AllSpace(s)
  {
    forall i | 0 <= i < |s| ensures IsSpace(s[i]) {
      if i < a {
        assert s[..a][i] == s[i];
      } else {
        assert s[a..][i - a] == s[i];
      }
    }
  }

  /** `value || fallback` on strings: the empty string is falsy. */
  function OrElse(value: string, fallback: string): (r: string)
    ensures r == value || r == fallback
    ensures r == "" ==> fallback == ""
    ensures value != "" ==> r == value
    ensures value == "" ==> r == fallback
  {
    if value == "" then fallback else value
  }

  /** Applying the same fallback twice is applying it once. */
  lemma OrElseIdempotent(value: string, fallback: string)
    ensures OrElse(OrElse(value, fallback), fallback) == OrElse(value, fallback)
  {
  }

  /** Whitespace in front of a string does not survive trimming. */
  lemma {:induction false} TrimAfterSpaces(w: string, v: string)
    requires AllSpace(w)
    ensures Trim(w + v) == Trim(v)
    decreases |w|
  {
    LeadingSpacesAfter(w, v);
    assert (w + v)[LeadingSpaces(w + v)..] == v[LeadingSpaces(v)..];
  }

  lemma {:induction false} LeadingSpacesAfter(w: string, v: string)
    requires AllSpace(w)
    ensures LeadingSpaces(w + v) == |w| + LeadingSpaces(v)
    decreases |w|
  {
    if |w| > 0 {
      assert (w + v)[1..] == w[1..] + v;
      LeadingSpacesAfter(w[1..], v);
    } else {
      assert w + v == v;
    }
  }

  /** A string with no whitespace at either end is its own trim. */
  lemma TrimOfTrimmed(s: string)
    requires s == [] || (!IsSpace(s[0]) && !IsSpace(s[|s| - 1]))
    ensures Trim(s) == s
  {
  }

  /** Trimming twice is trimming once. */
  lemma TrimIdempotent(s: string)
    ensures Trim(Trim(s)) == Trim(s)
  {
    TrimOfTrimmed(Trim(s));
  }

  /** The trimmed string is a contiguous piece of the original. */
  lemma TrimSlice(s: string) returns (a: nat, b: nat)
    ensures a <= b <= |s| && Trim(s) == s[a..b]
  {
    a := LeadingSpaces(s);
    b := a + |Trim(s)|;
  }

  function LowerChar(c: char): char {
    if 'A' <= c <= 'Z' then (c as int + 32) as char else c
  }

  /** `s.toLowerCase()`, on ASCII letters. */
  function ToLower(s: string): (r: string)
    ensures |r| == |s|
    ensures forall i :: 0 <= i < |s| ==> r[i] == LowerChar(s[i])
  {
    seq(|s|, i requires 0 <= i < |s| => LowerChar(s[i]))
  }

  lemma ToLowerConcat(a: string, b: string)
    ensures ToLower(a + b) == ToLower(a) + ToLower(b)
  {
  }

  /** `s.startsWith(p)`. */
  predicate StartsWith(s: string, p: string) {
    |p| <= |s| && s[..|p|] == p
  }

  /** A string that differs from `p` at some position of `p` does not start with `p`. */
  lemma DiffersFromPrefix(s: string, p: string, i: nat)
    requires i < |p| && (i >= |s| || s[i] != p[i])
    ensures !StartsWith(s, p)
  {
    if |p| <= |s| {
      assert s[..|p|][i] == s[i];
    }
  }

  /** `s.endsWith(p)`. */
  predicate EndsWith(s: string, p: string) {
    |p| <= |s| && s[|s| - |p|..] == p
  }

  /** `k` occurs in `s` starting at index `j`. */
  predicate OccursAt(s: string, k: string, j: nat) {
    j + |k| <= |s| && s[j..j + |k|] == k
  }

  /** `s.includes(k)`: `k` occurs somewhere in `s`. */
  predicate Contains(s: string, k: string) {
    exists j: nat | j <= |s| :: OccursAt(s, k, j)
  }

  /** A string contains whatever is written in its middle. */
  lemma ContainsMiddle(a: string, k: string, b: string)
    ensures Contains(a + k + b, k)
  {
    assert (a + k + b)[|a|..|a| + |k|] == k;
    assert OccursAt(a + k + b, k, |a|);
  }

  /** Whatever contains a string contains everything that string contains. */
  lemma ContainsTransitive(t: string, k1: string, k2: string)
    requires Contains(t, k1) && Contains(k1, k2)
    ensures Contains(t, k2)
  {
    var j1: nat :| j1 <= |t| && OccursAt(t, k1, j1);
    var j2: nat :| j2 <= |k1| && OccursAt(k1, k2, j2);
    forall i | 0 <= i < |k2| ensures t[j1 + j2 + i] == k2[i] {
      assert k2[i] == k1[j2..j2 + |k2|][i] == k1[j2 + i];
      assert k1[j2 + i] == t[j1..j1 + |k1|][j2 + i] == t[j1 + j2 + i];
    }
    assert OccursAt(t, k2, j1 + j2);
  }

  /**
   * In a string whose only `c` is at position `p`, a key ending in `c`
   * occurs exactly when it ends at `p`.
   */
  lemma ContainsKeyAtSeparator(s: string, p: nat, key: string, c: char)
    requires p < |s| && s[p] == c
    requires forall i :: 0 <= i < |s| && i != p ==> s[i] != c
    requires |key| > 0 && key[|key| - 1] == c
    ensures Contains(s, key) <==> EndsWith(s[..p + 1], key)
  {
    if Contains(s, key) {
      var j: nat :| j <= |s| && OccursAt(s, key, j);
      assert s[j + |key| - 1] == s[j..j + |key|][|key| - 1] == c;
      assert s[..p + 1][p + 1 - |key|..] == s[j..j + |key|];
    }
    if EndsWith(s[..p + 1], key) {
      assert s[p + 1 - |key|..p + 1] == s[..p + 1][p + 1 - |key|..];
      assert OccursAt(s, key, p + 1 - |key|);
    }
  }

  /** `s.split(c)`: the pieces between the occurrences of `c`. */
  function Split(s: string, c: char): (r: seq<string>)
    ensures |r| >= 1
    ensures forall i :: 0 <= i < |r| ==> c !in r[i]
    decreases |s|
  {
    if |s| == 0 then [""]
    else
      var rest := Split(s[1..], c);
      if s[0] == c then [""] + rest
      else [[s[0]] + rest[0]] + rest[1..]
  }

  /** `parts.join(c)`. */
  function Join(parts: seq<string>, c: char): string
    decreases |parts|
  {
    if |parts| == 0 then ""
    else if |parts| == 1 then parts[0]
    else parts[0] + [c] + Join(parts[1..], c)
  }

  /** Splitting a string that starts with a separator-free piece. */
  lemma {:induction false} SplitAfterPiece(a: string, rest: string, c: char)
    requires c !in a
    ensures Split(a + rest, c) == [a + Split(rest, c)[0]] + Split(rest, c)[1..]
    decreases |a|
  {
    var r := Split(rest, c);
    if |a| == 0 {
      assert a + rest == rest;
      assert a + r[0] == r[0];
      assert r == [r[0]] + r[1..];
    } else {
      assert (a + rest)[1..] == a[1..] + rest;
      SplitAfterPiece(a[1..], rest, c);
      assert [a[0]] + (a[1..] + Split(rest, c)[0]) == a + Split(rest, c)[0];
    }
  }

  /** Splitting at the first separator: the first piece, then the split of the rest. */
  lemma SplitAtFirst(a: string, b: string, c: char)
    requires c !in a
    ensures Split(a + [c] + b, c) == [a] + Split(b, c)
  {
    SplitAfterPiece(a, [c] + b, c);
    assert a + [c] + b == a + ([c] + b);
    assert ([c] + b)[1..] == b;
    assert Split([c] + b, c) == [""] + Split(b, c);
    assert a + "" == a;
  }

  /** A string without the separator splits into itself. */
  lemma SplitNoSeparator(a: string, c: char)
    requires c !in a
    ensures Split(a, c) == [a]
  {
    SplitAfterPiece(a, "", c);
    assert a + "" == a;
  }

  /** `s.split(c).join(c)` gives back `s`. */
  lemma {:induction false} JoinSplit(s: string, c: char)
    ensures Join(Split(s, c), c) == s
    decreases |s|
  {
    if |s| > 0 {
      var rest := Split(s[1..], c);
      JoinSplit(s[1..], c);
      if s[0] == c {
        assert Join([""] + rest, c) == "" + [c] + Join(rest, c);
        assert s == [c] + s[1..];
      } else {
        JoinExtendFirst([s[0]], rest, c);
        assert s == [s[0]] + s[1..];
      }
    }
  }

  /** Prepending to the first piece prepends to the joined string. */
  lemma JoinExtendFirst(x: string, parts: seq<string>, c: char)
    requires |parts| >= 1
    ensures Join([x + parts[0]] + parts[1..], c) == x + Join(parts, c)
  {
    var ps := [x + parts[0]] + parts[1..];
    assert ps[1..] == parts[1..];
    if |parts| > 1 {
      assert Join(ps, c) == x + parts[0] + [c] + Join(parts[1..], c);
    }
  }

  /** Joining separator-free pieces and splitting again gives back the pieces. */
  lemma {:induction false} SplitJoin(parts: seq<string>, c: char)
    requires |parts| >= 1
    requires forall i :: 0 <= i < |parts| ==> c !in parts[i]
    ensures Split(Join(parts, c), c) == parts
    decreases |parts|
  {
    if |parts| == 1 {
      SplitNoSeparator(parts[0], c);
    } else {
      SplitJoin(parts[1..], c);
      SplitAtFirst(parts[0], Join(parts[1..], c), c);
    }
  }

  /** Where `p` first occurs in `s` at or after `j`. */
  function FirstOccurrenceFrom(s: string, p: string, j: nat): (r: Option<nat>)
    ensures r.Some? ==> j <= r.value && OccursAt(s, p, r.value)
    ensures r.Some? ==> forall i: nat :: j <= i < r.value ==> !OccursAt(s, p, i)
    ensures r.None? ==> forall i: nat :: j <= i ==> !OccursAt(s, p, i)
    decreases |s| - j
  {
    if j + |p| > |s| then None
    else if OccursAt(s, p, j) then Some(j)
    else FirstOccurrenceFrom(s, p, j + 1)
  }

  /**
   * `s.replace(p, rep)` with a string pattern: only the first occurrence is
   * replaced. The replacement is inserted literally, as it is when `rep`
   * holds no `$`; the `$&`, `$$`, `` $` `` and `$'` patterns are not modelled.
   */
  function ReplaceFirst(s: string, p: string, rep: string): (r: string)
    ensures !Contains(s, p) ==> r == s
  {
    match FirstOccurrenceFrom(s, p, 0)
    case None => s
    case Some(i) => s[..i] + rep + s[i + |p|..]
  }

  /** The replacement lands at the earliest occurrence, and the rest of the string is kept as it was. */
  lemma ReplaceFirstAt(s: string, p: string, rep: string, i: nat)
    requires OccursAt(s, p, i)
    requires forall j: nat :: j < i ==> !OccursAt(s, p, j)
    ensures ReplaceFirst(s, p, rep) == s[..i] + rep + s[i + |p|..]
  {
    var f := FirstOccurrenceFrom(s, p, 0);
    assert f.Some?;
    assert f.value == i;
  }

  /** A string starting with the pattern: later copies of the pattern stay in place. */
  lemma ReplaceFirstLeavesLater(p: string, tail: string, rep: string)
    ensures ReplaceFirst(p + tail, p, rep) == rep + tail
  {
    assert OccursAt(p + tail, p, 0);
    ReplaceFirstAt(p + tail, p, rep, 0);
    assert (p + tail)[|p|..] == tail;
  }

  /** Where the pattern occurs, the result carries the replacement. */
  lemma ReplaceFirstContains(s: string, p: string, rep: string)
    requires Contains(s, p)
    ensures Contains(ReplaceFirst(s, p, rep), rep)
  {
    var j: nat :| j <= |s| && OccursAt(s, p, j);
    var f := FirstOccurrenceFrom(s, p, 0);
    assert f.Some?;
    var i := f.value;
    assert ReplaceFirst(s, p, rep) == s[..i] + rep + s[i + |p|..];
    ContainsMiddle(s[..i], rep, s[i + |p|..]);
  }

  /** No two consecutive asterisks. */
  predicate NoDoubleStar(s: string) {
    forall i :: 0 <= i < |s| - 1 ==> !(s[i] == '*' && s[i + 1] == '*')
  }

  predicate NotStar(c: char) {
    c != '*'
  }

  // A global replace of "**" by "": every double asterisk found scanning
  // left to right is removed, and none is left. Only asterisks go: the
  // other characters stay, in their order.
  function RemoveDoubleStars(s: string): (r: string)
    ensures |r| <= |s|
    ensures NoDoubleStar(r)
    ensures |s| > 0 && s[0] != '*' ==> |r| > 0 && r[0] == s[0]
    ensures Filter(r, NotStar) == Filter(s, NotStar)
    decreases |s|
  {
    if |s| >= 2 && s[0] == '*' && s[1] == '*' then
      assert s[1..][1..] == s[2..];
      RemoveDoubleStars(s[2..])
    else if |s| == 0 then ""
    else
      var rest := RemoveDoubleStars(s[1..]);
      assert ([s[0]] + rest)[0] == s[0] && ([s[0]] + rest)[1..] == rest;
      [s[0]] + rest
  }

  /** A run of `k` asterisks. */
  function Stars(k: nat): (r: string)
    ensures |r| == k && forall i :: 0 <= i < k ==> r[i] == '*'
  {
    seq(k, _ => '*')
  }

  /** A run of `k` asterisks not followed by another keeps `k % 2` of them. */
  lemma {:induction false} RemoveDoubleStarsRun(k: nat, b: string)
    requires b == [] || b[0] != '*'
    ensures RemoveDoubleStars(Stars(k) + b) == Stars(k % 2) + RemoveDoubleStars(b)
    decreases k
  {
    if k >= 2 {
      RunPeel(k, b);
    } else if k == 1 {
      RunOne(k, b);
    } else {
      RunNone(k, b);
    }
  }

  /** The inductive step: the first two asterisks go together. */
  lemma {:induction false} RunPeel(k: nat, b: string)
    requires b == [] || b[0] != '*'
    requires k >= 2
    ensures RemoveDoubleStars(Stars(k) + b) == Stars(k % 2) + RemoveDoubleStars(b)
    decreases k, 1
  {
    StarsSplit(k, b);
    DropPair(Stars(k - 2) + b);
    RemoveDoubleStarsRun(k - 2, b);
    ParityStep(k);
  }

  lemma RunOne(k: nat, b: string)
    requires b == [] || b[0] != '*'
    requires k == 1
    ensures RemoveDoubleStars(Stars(k) + b) == Stars(k % 2) + RemoveDoubleStars(b)
  {
    LoneStar(b);
  }

  lemma RunNone(k: nat, b: string)
    requires k == 0
    ensures RemoveDoubleStars(Stars(k) + b) == Stars(k % 2) + RemoveDoubleStars(b)
  {
    var none := Stars(k);
    assert k % 2 == k;
    assert none == [];
    var r := RemoveDoubleStars(b);
    assert none + b == b;
    assert none + r == r;
  }

  lemma StarsSplit(k: nat, b: string)
    requires k >= 2
    ensures Stars(k) + b == Stars(2) + (Stars(k - 2) + b)
  {
    assert Stars(k) == Stars(2) + Stars(k - 2);
  }

  /** A `**` in front is dropped. */
  lemma DropPair(t: string)
    ensures RemoveDoubleStars(Stars(2) + t) == RemoveDoubleStars(t)
  {
    var s := Stars(2) + t;
    assert s[0] == '*' && s[1] == '*' && s[2..] == t;
  }

  /** A single asterisk not followed by another stays. */
  lemma LoneStar(b: string)
    requires b == [] || b[0] != '*'
    ensures RemoveDoubleStars(Stars(1) + b) == Stars(1) + RemoveDoubleStars(b)
  {
    var s := Stars(1) + b;
    StarsFront(1, b);
    StarsNone(b);
    RemoveKeepFront(s, b);
    assert Stars(1) == [s[0]];
  }

  lemma ParityStep(k: nat)
    requires k >= 2
    ensures k % 2 == (k - 2) % 2
  {
  }

  /** A first character that does not start a `**` is kept. */
  lemma RemoveKeepFront(s: string, t: string)
    requires |s| >= 1 && s[1..] == t && (t == [] || s[0] != '*' || t[0] != '*')
    ensures RemoveDoubleStars(s) == [s[0]] + RemoveDoubleStars(t)
  {
    assert |s| >= 2 ==> s[1] == t[0];
  }

  lemma StarsFront(k: nat, b: string)
    requires k >= 1
    ensures |Stars(k) + b| >= 1 && (Stars(k) + b)[0] == '*' && (Stars(k) + b)[1..] == Stars(k - 1) + b
  {
    assert Stars(k)[1..] == Stars(k - 1);
  }

  lemma StarsNone(b: string)
    ensures Stars(0) + b == b
  {
    assert Stars(0) == [];
  }

  /** Text without asterisks in front of a `**` is kept and the pair is dropped. */
  lemma {:induction false} RemoveDoubleStarsPair(a: string, b: string)
    requires forall i :: 0 <= i < |a| ==> a[i] != '*'
    ensures RemoveDoubleStars(a + Stars(2) + b) == a + RemoveDoubleStars(b)
    decreases |a|
  {
    var s := a + Stars(2) + b;
    if |a| == 0 {
      assert s == Stars(2) + b;
      assert s[0] == '*' && s[1] == '*' && s[2..] == b;
    } else {
      var t := a[1..] + Stars(2) + b;
      assert s == [a[0]] + t;
      assert s[0] != '*' && s[1..] == t;
      RemoveDoubleStarsPair(a[1..], b);
      assert a == [a[0]] + a[1..];
    }
  }

  /**
   * A prefix without `**` that does not end in an asterisk is kept as it
   * is: no pair can start inside it, so the removal restarts where it ends.
   */
  lemma {:induction false} RemoveDoubleStarsPrefix(a: string, b: string)
    requires NoDoubleStar(a) && (a == [] || a[|a| - 1] != '*')
    ensures RemoveDoubleStars(a + b) == a + RemoveDoubleStars(b)
    decreases |a|
  {
    if |a| == 0 {
      assert a + b == b;
      assert a + RemoveDoubleStars(b) == RemoveDoubleStars(b);
    } else {
      var s := a + b;
      var t := a[1..] + b;
      assert s[0] == a[0] && s[1..] == t;
      if a[0] == '*' {
        assert |a| >= 2 && s[1] == a[1];
        assert !(a[0] == '*' && a[1] == '*');
      }
      assert RemoveDoubleStars(s) == [s[0]] + RemoveDoubleStars(t);
      NoDoubleStarSlice(a, 1, |a|);
      assert a[1..] == [] || a[1..][|a| - 2] == a[|a| - 1];
      RemoveDoubleStarsPrefix(a[1..], b);
      HeadTail(a, RemoveDoubleStars(b));
    }
  }

  lemma HeadTail(a: string, x: string)
    requires |a| > 0
    ensures a + x == [a[0]] + (a[1..] + x)
  {
    assert a == [a[0]] + a[1..];
  }

  /** Removing `**` from a string that has none changes nothing. */
  lemma {:induction false} RemoveDoubleStarsNone(s: string)
    requires NoDoubleStar(s)
    ensures RemoveDoubleStars(s) == s
    decreases |s|
  {
    if |s| > 0 {
      RemoveDoubleStarsNone(s[1..]);
    }
  }

  /** Slicing cannot create a `**`. */
  lemma NoDoubleStarSlice(s: string, a: nat, b: nat)
    requires a <= b <= |s| && NoDoubleStar(s)
    ensures NoDoubleStar(s[a..b])
  {
    forall i | 0 <= i < b - a - 1 ensures !(s[a..b][i] == '*' && s[a..b][i + 1] == '*') {
      assert s[a..b][i] == s[a + i] && s[a..b][i + 1] == s[a + i + 1];
    }
  }

  /** Trimming cannot create a `**` either. */
  lemma TrimNoDoubleStar(s: string)
    requires NoDoubleStar(s)
    ensures NoDoubleStar(Trim(s))
  {
    var a, b := TrimSlice(s);
    NoDoubleStarSlice(s, a, b);
  }

  /** A string without asterisks has no `**`. */
  lemma NoStarNoDoubleStar(s: string)
    requires '*' !in s
    ensures NoDoubleStar(s)
  {
    forall i | 0 <= i < |s| - 1 ensures s[i] != '*' {
      assert s[i] in s;
    }
  }
}
