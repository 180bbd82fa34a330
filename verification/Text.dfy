/** The string operations of the services, with Python's meaning:
    strip, partition, split, join, lower-casing of ASCII letters. */
module Text {

  predicate IsSpace(c: char) {
    || '\t' <= c <= '\U{000D}'
    || '\U{001C}' <= c <= ' '
    || c == '\U{0085}'
    || c == '\U{00A0}'
    || c == '\U{1680}'
    || '\U{2000}' <= c <= '\U{200A}'
    || c == '\U{2028}'
    || c == '\U{2029}'
    || c == '\U{202F}'
    || c == '\U{205F}'
    || c == '\U{3000}'
  }

  function LStrip(s: string): string {
    if s != "" && IsSpace(s[0]) then LStrip(s[1..]) else s
  }

  function RStrip(s: string): string {
    if s != "" && IsSpace(s[|s| - 1]) then RStrip(s[..|s| - 1]) else s
  }

  function Strip(s: string): string {
    RStrip(LStrip(s))
  }

  /** Neither end is white space. */
  predicate Trimmed(s: string) {
    s != "" ==> !IsSpace(s[0]) && !IsSpace(s[|s| - 1])
  }

  lemma TrimmedStrip(s: string)
    requires Trimmed(s)
    ensures Strip(s) == s
  {
  }

  predicate AllSpace(s: string) {
    forall i :: 0 <= i < |s| ==> IsSpace(s[i])
  }

  /** Strip takes the white space at both ends, and no more. */
  lemma StripIs(before: string, s: string, after: string)
    requires AllSpace(before) && AllSpace(after) && Trimmed(s) && s != ""
    ensures Strip(before + s + after) == s
  {
    LStripIs(before, s + after);
    assert before + (s + after) == before + s + after;
    RStripIs(s, after);
  }

  /** What is left of `s` when the white space at both ends is taken off. */
  predicate CutAt(s: string, i: int, j: int, core: string) {
    0 <= i <= j <= |s| && s[i..j] == core && AllSpace(s[..i]) && AllSpace(s[j..]) && Trimmed(core)
  }

  lemma StripCuts(s: string)
    ensures exists i, j :: CutAt(s, i, j, Strip(s))
    ensures Strip(s) == "" <==> AllSpace(s)
  {
    var i := LStripCuts(s);
    var l := LStrip(s);
    var j := RStripCuts(l);
    assert CutAt(s, i, i + j, Strip(s)) by {
      assert s[i..i + j] == l[..j] && s[i + j..] == l[j..];
    }
  }

  lemma {:induction false} LStripCuts(s: string) returns (i: nat)
    ensures i <= |s| && LStrip(s) == s[i..] && AllSpace(s[..i])
    ensures i < |s| ==> !IsSpace(s[i])
  {
    if s != "" && IsSpace(s[0]) {
      var k := LStripCuts(s[1..]);
      i := k + 1;
      assert forall n :: 0 < n < i ==> s[n] == s[1..][..k][n - 1];
    } else {
      i := 0;
    }
  }

  lemma {:induction false} RStripCuts(s: string) returns (j: nat)
    ensures j <= |s| && RStrip(s) == s[..j] && AllSpace(s[j..])
    ensures j > 0 ==> !IsSpace(s[j - 1])
  {
    if s != "" && IsSpace(s[|s| - 1]) {
      var n := |s| - 1;
      j := RStripCuts(s[..n]);
      assert forall k :: j <= k < n ==> s[k] == s[..n][j..][k - j];
    } else {
      j := |s|;
    }
  }

  lemma {:induction false} LStripIs(before: string, s: string)
    requires AllSpace(before) && s != "" && !IsSpace(s[0])
    ensures LStrip(before + s) == s
  {
    if before == "" {
      assert before + s == s;
    } else {
      LStripIs(before[1..], s);
      assert (before + s)[1..] == before[1..] + s;
    }
  }

  lemma {:induction false} RStripIs(s: string, after: string)
    requires AllSpace(after) && s != "" && !IsSpace(s[|s| - 1])
    ensures RStrip(s + after) == s
  {
    if after == "" {
      assert s + after == s;
    } else {
      var n := |after| - 1;
      RStripIs(s, after[..n]);
      assert (s + after)[..|s| + n] == s + after[..n];
    }
  }

  /** Index of the first `c` in `s`, or the length of `s`. */
  function Find(s: string, c: char): (i: nat)
    ensures i <= |s|
    ensures c !in s[..i]
    ensures i < |s| ==> s[i] == c
  {
    if s == "" || s[0] == c then 0
    else
      var i := 1 + Find(s[1..], c);
      assert s[..i] == [s[0]] + s[1..][..i - 1];
      i
  }

  /** The part before the first `c`: `s.partition(c)[0]`, `s.split(c, 1)[0]`. */
  function Before(s: string, c: char): string {
    s[..Find(s, c)]
  }

  /** The part after the first `c`, empty when there is none. */
  function After(s: string, c: char): string {
    var i := Find(s, c);
    if i < |s| then s[i + 1..] else ""
  }

  lemma FindIs(s: string, c: char, i: nat)
    requires i <= |s| && c !in s[..i]
    requires i < |s| ==> s[i] == c
    ensures Find(s, c) == i
  {
    var j := Find(s, c);
    assert forall k :: 0 <= k < i ==> s[..i][k] == s[k];
    assert forall k :: 0 <= k < j ==> s[..j][k] == s[k];
  }

  lemma PartitionAt(head: string, c: char, tail: string)
    requires c !in head
    ensures Before(head + [c] + tail, c) == head
    ensures After(head + [c] + tail, c) == tail
  {
    var s := head + [c] + tail;
    assert s[..|head|] == head;
    FindIs(s, c, |head|);
    assert s[|head| + 1..] == tail;
  }

  function Split(s: string, c: char): (parts: seq<string>)
    ensures |parts| > 0
    decreases |s|
  {
    var i := Find(s, c);
    if i == |s| then [s] else [s[..i]] + Split(s[i + 1..], c)
  }

  function Join(parts: seq<string>, c: char): string {
    if |parts| == 0 then ""
    else if |parts| == 1 then parts[0]
    else parts[0] + [c] + Join(parts[1..], c)
  }

  lemma SplitAt(head: string, c: char, tail: string)
    requires c !in head
    ensures Split(head + [c] + tail, c) == [head] + Split(tail, c)
  {
    PartitionAt(head, c, tail);
    var s := head + [c] + tail;
    assert s[..|head|] == head;
    FindIs(s, c, |head|);
  }

  lemma SplitWhole(s: string, c: char)
    requires c !in s
    ensures Split(s, c) == [s]
  {
    assert s[..|s|] == s;
    FindIs(s, c, |s|);
  }

  lemma {:induction false} SplitInvertsJoin(parts: seq<string>, c: char)
    requires |parts| > 0
    requires forall i :: 0 <= i < |parts| ==> c !in parts[i]
    ensures Split(Join(parts, c), c) == parts
  {
    if |parts| == 1 {
      SplitWhole(parts[0], c);
    } else {
      SplitInvertsJoin(parts[1..], c);
      SplitAt(parts[0], c, Join(parts[1..], c));
    }
  }

  function LowerChar(c: char): char {
    if 'A' <= c <= 'Z' then ((c as int) + 32) as char else c
  }

  function Lower(s: string): (r: string)
    ensures |r| == |s|
    ensures forall i :: 0 <= i < |s| ==> r[i] == LowerChar(s[i])
  {
    if s == "" then "" else [LowerChar(s[0])] + Lower(s[1..])
  }

  /** A name already in the form `strip().lower()` leaves it in. */
  predicate Plain(s: string) {
    forall i :: 0 <= i < |s| ==> 'a' <= s[i] <= 'z' || s[i] == '_'
  }

  lemma PlainIsFixed(s: string)
    requires Plain(s)
    ensures Lower(Strip(s)) == s
  {
    TrimmedStrip(s);
  }
}
