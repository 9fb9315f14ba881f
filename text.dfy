/**
 * The string operations the TypeScript code relies on: `toLowerCase`, `trim`,
 * `includes`, `split(/\s+/)`, `Array.prototype.join` and number formatting.
 * Strings are sequences of code points.
 */
module Text {

  /** The characters matched by the regular-expression class `\s`; they are also
      the characters `String.prototype.trim` removes. */
  predicate IsSpace(c: char) {
    c == '\t' || c == '\n' || c == '\U{000B}' || c == '\U{000C}' || c == '\r' || c == ' '
    || c == '\U{00A0}' || c == '\U{1680}' || ('\U{2000}' <= c <= '\U{200A}')
    || c == '\U{2028}' || c == '\U{2029}' || c == '\U{202F}' || c == '\U{205F}'
    || c == '\U{3000}' || c == '\U{FEFF}'
  }

  /** The line terminators, which the regular-expression `.` does not match. */
  predicate IsLineTerminator(c: char) {
    c == '\n' || c == '\r' || c == '\U{2028}' || c == '\U{2029}'
  }

  predicate IsUpper(c: char) {
    'A' <= c <= 'Z'
  }

  function LowerChar(c: char): (r: char)
    ensures !IsUpper(r)
    ensures IsSpace(r) <==> IsSpace(c)
  {
    if IsUpper(c) then (c as int + 32) as char else c
  }

  /** `s.toLowerCase()`, on the letters A to Z. */
  function Lower(s: string): (r: string)
    ensures |r| == |s|
    ensures forall i :: 0 <= i < |s| ==> r[i] == LowerChar(s[i])
  {
    seq(|s|, i requires 0 <= i < |s| => LowerChar(s[i]))
  }

  predicate IsLowerCase(s: string) {
    forall i :: 0 <= i < |s| ==> !IsUpper(s[i])
  }

  lemma LowerIsLowerCase(s: string)
    ensures IsLowerCase(Lower(s))
  {
  }

  lemma LowerAppend(a: string, b: string)
    ensures Lower(a + b) == Lower(a) + Lower(b)
  {
  }

  lemma LowerOfLowerCase(s: string)
    requires IsLowerCase(s)
    ensures Lower(s) == s
  {
  }

  predicate NoSpace(s: string) {
    forall i :: 0 <= i < |s| ==> !IsSpace(s[i])
  }

  predicate AllSpace(s: string) {
    forall i :: 0 <= i < |s| ==> IsSpace(s[i])
  }

  /** Neither end of `s` is white space. */
  predicate IsTrimmed(s: string) {
    |s| == 0 || (!IsSpace(s[0]) && !IsSpace(s[|s| - 1]))
  }

  /** The number of white-space characters `s` starts with. */
  function LeadingSpace(s: string): (n: nat)
    ensures n <= |s| && AllSpace(s[..n])
    ensures n == |s| || !IsSpace(s[n])
  {
    if |s| > 0 && IsSpace(s[0]) then
      var m := LeadingSpace(s[1..]);
      assert s[..1 + m] == [s[0]] + s[1..][..m];
      1 + m
    else 0
  }

  /** The number of white-space characters `s` ends with. */
  function TrailingSpace(s: string): (n: nat)
    ensures n <= |s| && AllSpace(s[|s| - n..])
    ensures n == |s| || !IsSpace(s[|s| - n - 1])
  {
    if |s| > 0 && IsSpace(s[|s| - 1]) then
      var p := s[..|s| - 1];
      var m := TrailingSpace(p);
      assert s[|s| - (1 + m)..] == p[|p| - m..] + [s[|s| - 1]];
      AllSpaceAppend(p[|p| - m..], [s[|s| - 1]]);
      assert m == |p| || s[|s| - (1 + m) - 1] == p[|p| - m - 1];
      1 + m
    else 0
  }

  lemma AllSpaceAppend(a: string, b: string)
    requires AllSpace(a) && AllSpace(b)
    ensures AllSpace(a + b)
  {
  }

  /** `s.trimStart()`. */
  function TrimStart(s: string): (r: string)
    ensures |r| <= |s| && r == s[|s| - |r|..]
    ensures |r| == 0 || !IsSpace(r[0])
    ensures AllSpace(s[..|s| - |r|])
  {
    s[LeadingSpace(s)..]
  }

  /** `s.trimEnd()`. */
  function TrimEnd(s: string): (r: string)
    ensures |r| <= |s| && r == s[..|r|]
    ensures |r| == 0 || !IsSpace(r[|r| - 1])
    ensures AllSpace(s[|r|..])
  {
    s[..|s| - TrailingSpace(s)]
  }

  lemma TrimStartCons(s: string)
    requires |s| > 0 && IsSpace(s[0])
    ensures TrimStart(s) == TrimStart(s[1..])
  {
  }

  /** `r` is `s` with the `a` characters before it and everything after it
      white space. */
  predicate IsMiddle(s: string, r: string, a: nat) {
    a + |r| <= |s| && r == s[a..a + |r|]
    && AllSpace(s[..a]) && AllSpace(s[a + |r|..])
  }

  /** `s.trim()`: the middle of `s` left once the white space at both ends is removed. */
  function Trim(s: string): (r: string)
    ensures IsTrimmed(r) && |r| <= |s|
    ensures exists a: nat :: IsMiddle(s, r, a)
    ensures NoSpace(s) ==> r == s
  {
    TrimIsMiddle(s);
    TrimEnd(TrimStart(s))
  }

  lemma {:induction false} TrimIsMiddle(s: string)
    ensures IsMiddle(s, TrimEnd(TrimStart(s)), |s| - |TrimStart(s)|)
  {
    var t := TrimStart(s);
    PrefixOfSuffix(s, t, TrimEnd(t));
  }

  /** `r` is the middle of `s` when `t` is `s` without leading white space and
      `r` is `t` without trailing white space. */
  lemma {:induction false} PrefixOfSuffix(s: string, t: string, r: string)
    requires |t| <= |s| && t == s[|s| - |t|..]
    requires AllSpace(s[..|s| - |t|])
    requires |r| <= |t| && r == t[..|r|]
    requires AllSpace(t[|r|..])
    ensures IsMiddle(s, r, |s| - |t|)
  {
    assert s[|s| - |t| + |r|..] == t[|r|..];
  }

  lemma TrimOfTrimmed(s: string)
    requires IsTrimmed(s)
    ensures Trim(s) == s
  {
  }

  lemma {:induction false} TrimKeepsLowerCase(s: string)
    requires IsLowerCase(s)
    ensures IsLowerCase(Trim(s))
  {
    var t := TrimStart(s);
    forall i | 0 <= i < |t| ensures !IsUpper(t[i]) {
      assert t[i] == s[|s| - |t| + i];
    }
    var r := TrimEnd(t);
    forall i | 0 <= i < |r| ensures !IsUpper(r[i]) {
      assert r[i] == t[i];
    }
  }

  /** `t` is a prefix of `s` (`s.startsWith(t)`). */
  predicate IsPrefix(t: string, s: string) {
    |t| <= |s| && s[..|t|] == t
  }

  /** `t` occurs in `s` starting at position `i`. */
  predicate OccursAt(s: string, t: string, i: nat) {
    i + |t| <= |s| && s[i..i + |t|] == t
  }

  /** `s.includes(t)`: `t` occurs in `s` at some position. */
  predicate Contains(s: string, t: string)
    decreases |s|
  {
    IsPrefix(t, s) || (|s| > 0 && Contains(s[1..], t))
  }

  lemma {:induction false} OccursAtContains(s: string, t: string, i: nat)
    requires OccursAt(s, t, i)
    ensures Contains(s, t)
    decreases i
  {
    if i > 0 {
      assert s[1..][i - 1..i - 1 + |t|] == s[i..i + |t|];
      OccursAtContains(s[1..], t, i - 1);
    }
  }

  lemma {:induction false} ContainsAt(s: string, t: string)
    ensures Contains(s, t) <==> exists i: nat :: OccursAt(s, t, i)
    decreases |s|
  {
    if Contains(s, t) {
      if IsPrefix(t, s) {
        assert OccursAt(s, t, 0);
      } else {
        ContainsAt(s[1..], t);
        var i: nat :| OccursAt(s[1..], t, i);
        assert s[i + 1..i + 1 + |t|] == s[1..][i..i + |t|];
        assert OccursAt(s, t, i + 1);
      }
    }
    forall i: nat | OccursAt(s, t, i) ensures Contains(s, t) {
      OccursAtContains(s, t, i);
    }
  }

  lemma ContainsEmpty(s: string)
    ensures Contains(s, "")
  {
  }

  lemma OccursInAppend(a: string, b: string, t: string, i: nat)
    requires OccursAt(b, t, i)
    ensures OccursAt(a + b, t, |a| + i)
  {
    assert (a + b)[|a| + i..|a| + i + |t|] == b[i..i + |t|];
  }

  /** Every part of a joined string occurs in it. */
  lemma {:induction false} PartInJoin(parts: seq<string>, sep: string, k: nat)
    requires k < |parts|
    ensures Contains(Join(parts, sep), parts[k])
    decreases |parts|
  {
    if k == 0 {
      assert OccursAt(Join(parts, sep), parts[0], 0);
      OccursAtContains(Join(parts, sep), parts[0], 0);
    } else {
      PartInJoin(parts[1..], sep, k - 1);
      ContainsAt(Join(parts[1..], sep), parts[k]);
      var i: nat :| OccursAt(Join(parts[1..], sep), parts[k], i);
      OccursInAppend(parts[0] + sep, Join(parts[1..], sep), parts[k], i);
      OccursAtContains(Join(parts, sep), parts[k], |parts[0] + sep| + i);
    }
  }

  lemma OccursInAppendLeft(a: string, b: string, t: string, i: nat)
    requires OccursAt(a, t, i)
    ensures OccursAt(a + b, t, i)
  {
    assert (a + b)[i..i + |t|] == a[i..i + |t|];
  }

  /** What occurs in `b` occurs in `a + b`, and in `b + c`. */
  lemma ContainsAppend(a: string, b: string, c: string, t: string)
    requires Contains(b, t)
    ensures Contains(a + b, t) && Contains(b + c, t)
  {
    ContainsAt(b, t);
    var i: nat :| OccursAt(b, t, i);
    OccursInAppend(a, b, t, i);
    OccursAtContains(a + b, t, |a| + i);
    OccursInAppendLeft(b, c, t, i);
    OccursAtContains(b + c, t, i);
  }

  lemma ContainsMiddle(a: string, b: string, c: string)
    ensures Contains(a + b + c, b)
  {
    assert (a + b + c)[|a|..|a| + |b|] == b;
    OccursAtContains(a + b + c, b, |a|);
  }

  function DigitChar(d: nat): char
    requires d < 10
  {
    "0123456789"[d]
  }

  /** `String(n)` for a non-negative integer: its decimal digits. */
  function NatToString(n: nat): (r: string)
    ensures |r| > 0
    ensures forall i :: 0 <= i < |r| ==> '0' <= r[i] <= '9'
  {
    if n < 10 then [DigitChar(n)] else NatToString(n / 10) + [DigitChar(n % 10)]
  }

  /** `parts.join(sep)`. */
  function Join(parts: seq<string>, sep: string): (r: string)
    ensures |parts| > 0 ==> IsPrefix(parts[0], r)
  {
    if |parts| == 0 then ""
    else if |parts| == 1 then parts[0]
    else parts[0] + sep + Join(parts[1..], sep)
  }

  /** All the parts at once. */
  lemma JoinContainsAll(parts: seq<string>, sep: string)
    ensures forall k :: 0 <= k < |parts| ==> Contains(Join(parts, sep), parts[k])
  {
    forall k | 0 <= k < |parts| ensures Contains(Join(parts, sep), parts[k]) {
      PartInJoin(parts, sep, k);
    }
  }

  /** The number of non-space characters at the front of `s`. */
  function RunLength(s: string): (n: nat)
    ensures n <= |s| && NoSpace(s[..n])
    ensures n == |s| || IsSpace(s[n])
  {
    if |s| == 0 || IsSpace(s[0]) then 0 else 1 + RunLength(s[1..])
  }

  /** A piece of `split(/\s+/)` that the filters keep: non-empty, no space. */
  predicate IsWord(w: string) {
    |w| > 0 && NoSpace(w)
  }

  lemma ConsWords(w: string, rest: seq<string>)
    requires IsWord(w)
    requires forall k :: 0 <= k < |rest| ==> IsWord(rest[k])
    ensures forall k :: 0 <= k < |[w] + rest| ==> IsWord(([w] + rest)[k])
  {
    forall k | 0 <= k < |[w] + rest| ensures IsWord(([w] + rest)[k]) {
      if k > 0 {
        assert ([w] + rest)[k] == rest[k - 1];
      }
    }
  }

  /** The non-empty pieces of `s.split(/\s+/)`: the maximal runs of non-space
      characters, left to right. */
  function Words(s: string): (ws: seq<string>)
    ensures forall k :: 0 <= k < |ws| ==> IsWord(ws[k])
    decreases |s|
  {
    var t := TrimStart(s);
    if |t| == 0 then []
    else
      var n := RunLength(t);
      assert n > 0;
      var rest := Words(t[n..]);
      ConsWords(t[..n], rest);
      [t[..n]] + rest
  }

  lemma {:induction false} TrimStartAppend(x: string, y: string)
    ensures |TrimStart(x)| > 0 ==> TrimStart(x + y) == TrimStart(x) + y
    ensures |TrimStart(x)| == 0 ==> TrimStart(x + y) == TrimStart(y)
    decreases |x|
  {
    if |x| == 0 {
      assert x + y == y;
    } else if IsSpace(x[0]) {
      assert (x + y)[1..] == x[1..] + y;
      TrimStartCons(x);
      TrimStartCons(x + y);
      TrimStartAppend(x[1..], y);
    }
  }

  lemma SplitAppend<T>(x: seq<T>, y: seq<T>, n: nat)
    requires n <= |x|
    ensures (x + y)[..n] == x[..n] && (x + y)[n..] == x[n..] + y
  {
  }

  lemma AppendAssoc<T>(x: seq<T>, y: seq<T>, z: seq<T>)
    ensures x + (y + z) == (x + y) + z
  {
  }

  lemma {:induction false} RunLengthAppend(x: string, c: char, y: string)
    requires IsSpace(c)
    ensures RunLength(x + [c] + y) == RunLength(x)
    decreases |x|
  {
    if |x| > 0 && !IsSpace(x[0]) {
      assert (x + [c] + y)[1..] == x[1..] + [c] + y;
      RunLengthAppend(x[1..], c, y);
    }
  }

  /** A word on its own is the only piece. */
  lemma {:induction false} WordsOfWord(w: string)
    requires IsWord(w)
    ensures Words(w) == [w]
  {
    assert TrimStart(w) == w;
    assert RunLength(w) == |w|;
    assert w[..|w|] == w && w[|w|..] == [];
  }

  /** White space alone has no pieces. */
  lemma WordsOfSpaces(s: string)
    requires AllSpace(s)
    ensures Words(s) == []
  {
  }

  /** One step of `Words` on a string with a word in it. */
  lemma WordsCons(s: string)
    requires |TrimStart(s)| > 0
    ensures var t := TrimStart(s); var n := RunLength(t);
      Words(s) == [t[..n]] + Words(t[n..])
  {
  }

  /** Once `a` holds a word, the leading white space of `a + [c] + b` is that of `a`. */
  lemma {:induction false} TrimStartSplit(a: string, c: char, b: string)
    requires |TrimStart(a)| > 0
    ensures TrimStart(a + [c] + b) == TrimStart(a) + [c] + b
  {
    var rest := [c] + b;
    assert a + [c] + b == a + rest;
    TrimStartAppend(a, rest);
    AppendAssoc(TrimStart(a), [c], b);
  }

  /** Cutting `t + [c] + b` after the first word of `t`. */
  lemma {:induction false} CutSplit(t: string, c: char, b: string, n: nat)
    requires n <= |t|
    ensures (t + [c] + b)[..n] == t[..n]
    ensures (t + [c] + b)[n..] == t[n..] + [c] + b
  {
    AppendAssoc(t, [c], b);
    SplitAppend(t, [c] + b, n);
    AppendAssoc(t[n..], [c], b);
  }

  /** The step of `WordsSplit` where `a` is white space only. */
  lemma {:induction false} WordsSplitBlank(a: string, c: char, b: string)
    requires IsSpace(c) && |TrimStart(a)| == 0
    ensures Words(a + [c] + b) == Words(a) + Words(b)
  {
    var rest := [c] + b;
    assert a + [c] + b == a + rest;
    TrimStartAppend(a, rest);
    assert rest[1..] == b;
    TrimStartCons(rest);
  }

  /** The step of `WordsSplit` where `a` holds a word: `ta` is `a` without its
      leading white space. */
  lemma {:induction false} WordsSplitStep(a: string, ta: string, c: char, b: string)
    requires IsSpace(c) && ta == TrimStart(a) && |ta| > 0
    requires Words(ta[RunLength(ta)..] + [c] + b) == Words(ta[RunLength(ta)..]) + Words(b)
    ensures Words(a + [c] + b) == Words(a) + Words(b)
  {
    var s := a + [c] + b;
    var t := ta + [c] + b;
    var n := RunLength(ta);
    TrimStartSplit(a, c, b);
    RunLengthAppend(ta, c, b);
    CutSplit(ta, c, b, n);
    WordsCons(s);
    assert Words(s) == [ta[..n]] + Words(ta[n..] + [c] + b);
    WordsCons(a);
    AppendAssoc([ta[..n]], Words(ta[n..]), Words(b));
  }

  /** Splitting at a white-space character: the pieces of `a + [c] + b` are
      the pieces of `a` followed by the pieces of `b`. With `WordsOfWord` and
      `WordsOfSpaces` this determines `Words` on every string. */
  lemma {:induction false} WordsSplit(a: string, c: char, b: string)
    requires IsSpace(c)
    ensures Words(a + [c] + b) == Words(a) + Words(b)
    decreases |a|
  {
    var ta := TrimStart(a);
    if |ta| == 0 {
      WordsSplitBlank(a, c, b);
    } else {
      var n := RunLength(ta);
      WordsSplit(ta[n..], c, b);
      WordsSplitStep(a, ta, c, b);
    }
  }
}
