/**
 The few functions of Go's `strings` package that the owner checker applies to
 one line of text: TrimSpace, HasPrefix/TrimPrefix, HasSuffix/TrimSuffix,
 Contains and the first field of Split. Strings are sequences of characters;
 white space is the ASCII white space that strings.TrimSpace removes.
 */
module GoStrings {

  /** ASCII white space: '\t', '\n', '\v', '\f', '\r' and ' '. */
  predicate IsSpace(c: char) {
    c == ' ' || c == '\t' || c == '\n' || c == '\U{B}' || c == '\U{C}' || c == '\r'
  }

  predicate AllSpace(s: string) {
    forall i :: 0 <= i < |s| ==> IsSpace(s[i])
  }

  /** Neither end of `s` is white space. */
  predicate IsTrimmed(s: string) {
    s == [] || (!IsSpace(s[0]) && !IsSpace(s[|s| - 1]))
  }

  /** `s` without its leading white space: the suffix left after the longest all-space prefix. */
  function TrimLeft(s: string): (r: string)
    ensures |r| <= |s|
    ensures r == [] || !IsSpace(r[0])
  {
    if s != [] && IsSpace(s[0]) then TrimLeft(s[1..]) else s
  }

  /** `s` without its trailing white space: the prefix left before the longest all-space suffix. */
  function TrimRight(s: string): (r: string)
    ensures |r| <= |s|
    ensures r == [] || !IsSpace(r[|r| - 1])
  {
    if s != [] && IsSpace(s[|s| - 1]) then TrimRight(s[..|s| - 1]) else s
  }

  /** strings.TrimSpace */
  function TrimSpace(s: string): (r: string)
    ensures IsTrimmed(r) && |r| <= |s|
  {
    TrimLeftIsSuffix(TrimRight(s));
    TrimLeft(TrimRight(s))
  }

  /** TrimSpace brings in no character that was not there. */
  lemma TrimSpaceNoNewChar(s: string, c: char)
    requires c !in s
    ensures c !in TrimSpace(s)
  {
    var i, j := TrimSpaceSlice(s);
    assert forall k :: i <= k < j ==> s[i..j][k - i] == s[k];
  }

  /** What TrimLeft keeps is a suffix of its argument, and what it drops is white space. */
  lemma {:induction false} TrimLeftIsSuffix(s: string)
    ensures TrimLeft(s) == s[|s| - |TrimLeft(s)|..]
    ensures AllSpace(s[..|s| - |TrimLeft(s)|])
  {
    if s != [] && IsSpace(s[0]) {
      TrimLeftIsSuffix(s[1..]);
    }
  }

  /** What TrimRight keeps is a prefix of its argument, and what it drops is white space. */
  lemma {:induction false} TrimRightIsPrefix(s: string)
    ensures TrimRight(s) == s[..|TrimRight(s)|]
    ensures AllSpace(s[|TrimRight(s)|..])
  {
    if s != [] && IsSpace(s[|s| - 1]) {
      TrimRightIsPrefix(s[..|s| - 1]);
    }
  }

  /** strings.HasPrefix(s, string(c)) */
  predicate HasPrefix(s: string, c: char): (b: bool)
    ensures b <==> [c] <= s
  {
    |s| > 0 && s[0] == c
  }

  /** strings.TrimPrefix(s, string(c)): putting the prefix back gives `s`. */
  function TrimPrefix(s: string, c: char): (r: string)
    ensures HasPrefix(s, c) ==> [c] + r == s
    ensures !HasPrefix(s, c) ==> r == s
  {
    if HasPrefix(s, c) then s[1..] else s
  }

  /** strings.HasSuffix(s, string(c)) */
  predicate HasSuffix(s: string, c: char) {
    |s| > 0 && s[|s| - 1] == c
  }

  /** HasSuffix holds exactly when `s` is some text followed by `c`. */
  lemma HasSuffixIsSuffix(s: string, c: char)
    ensures HasSuffix(s, c) <==> exists t :: s == t + [c]
  {
    if HasSuffix(s, c) {
      assert s == s[..|s| - 1] + [c];
    }
  }

  /** strings.TrimSuffix(s, string(c)): putting the suffix back gives `s`. */
  function TrimSuffix(s: string, c: char): (r: string)
    ensures HasSuffix(s, c) ==> r + [c] == s
    ensures !HasSuffix(s, c) ==> r == s
  {
    if HasSuffix(s, c) then s[..|s| - 1] else s
  }

  /** strings.Split(s, string(sep))[0]: the part of `s` before the first `sep`, all of `s` when it has none. */
  function BeforeFirst(s: string, sep: char): (r: string)
    ensures sep !in r
    ensures |r| <= |s|
    ensures |r| < |s| ==> s[|r|] == sep
  {
    if s == [] || s[0] == sep then [] else [s[0]] + BeforeFirst(s[1..], sep)
  }

  /** What BeforeFirst keeps is a prefix of its argument. */
  lemma {:induction false} BeforeFirstIsPrefix(s: string, sep: char)
    ensures BeforeFirst(s, sep) == s[..|BeforeFirst(s, sep)|]
  {
    if s != [] && s[0] != sep {
      BeforeFirstIsPrefix(s[1..], sep);
    }
  }

  /** TrimLeft is determined by its contract: the first non-space position is unique. */
  lemma TrimLeftAt(s: string, k: nat)
    requires k <= |s| && AllSpace(s[..k])
    requires k == |s| || !IsSpace(s[k])
    ensures TrimLeft(s) == s[k..]
  {
    var r := TrimLeft(s);
    var j := |s| - |r|;
    TrimLeftIsSuffix(s);
    SpaceBetween(s, 0, k);
    SpaceBetween(s, 0, j);
    assert j < |s| ==> s[j] == r[0];
    assert j == k;
  }

  /** TrimRight is determined by its contract: the end of the last non-space is unique. */
  lemma TrimRightAt(s: string, k: nat)
    requires k <= |s| && AllSpace(s[k..])
    requires k == 0 || !IsSpace(s[k - 1])
    ensures TrimRight(s) == s[..k]
  {
    var r := TrimRight(s);
    var j := |r|;
    TrimRightIsPrefix(s);
    SpaceBetween(s, k, |s|);
    SpaceBetween(s, j, |s|);
    assert j > 0 ==> s[j - 1] == r[j - 1];
    assert j == k;
  }

  /** Every character of an all-space slice is white space. */
  lemma SpaceBetween(s: string, a: nat, b: nat)
    requires a <= b <= |s| && AllSpace(s[a..b])
    ensures forall i :: a <= i < b ==> IsSpace(s[i])
  {
    forall i | a <= i < b ensures IsSpace(s[i]) { assert s[a..b][i - a] == s[i]; }
  }

  /** TrimSpace removes exactly the white space around a trimmed middle. */
  lemma TrimSpaceOf(p: string, m: string, q: string)
    requires AllSpace(p) && AllSpace(q) && IsTrimmed(m)
    ensures TrimSpace(p + m + q) == m
  {
    var s := p + m + q;
    if m == [] {
      assert s[0..] == s;
      TrimRightAt(s, 0);
    } else {
      assert s[|p| + |m|..] == q;
      TrimRightAt(s, |p| + |m|);
      assert s[..|p| + |m|] == p + m;
      assert (p + m)[..|p|] == p;
      TrimLeftAt(p + m, |p|);
      assert (p + m)[|p|..] == m;
    }
  }

  /** TrimSpace(s) is a slice of `s` with white space on both sides. */
  lemma TrimSpaceSlice(s: string) returns (i: nat, j: nat)
    ensures i <= j <= |s| && TrimSpace(s) == s[i..j]
    ensures AllSpace(s[..i]) && AllSpace(s[j..])
  {
    var t := TrimRight(s);
    j := |t|;
    i := j - |TrimLeft(t)|;
    TrimRightIsPrefix(s);
    TrimLeftIsSuffix(t);
    assert t[..i] == s[..i];
    assert t[i..] == s[i..j];
  }

  /** Extra white space on either side does not change what TrimSpace returns. */
  lemma TrimSpacePadded(p: string, s: string, q: string)
    requires AllSpace(p) && AllSpace(q)
    ensures TrimSpace(p + s + q) == TrimSpace(s)
  {
    var i, j := TrimSpaceSlice(s);
    var m := s[i..j];
    var p' := p + s[..i];
    var q' := s[j..] + q;
    AllSpaceAppend(p, s[..i]);
    AllSpaceAppend(s[j..], q);
    assert s == s[..i] + m + s[j..];
    assert p + s + q == p' + m + q';
    TrimSpaceOf(p', m, q');
  }

  /** Only the first `sep` matters: everything after it is dropped. */
  lemma BeforeFirstOf(a: string, sep: char, b: string)
    requires sep !in a
    ensures BeforeFirst(a + [sep] + b, sep) == a
  {
    var s := a + [sep] + b;
    var r := BeforeFirst(s, sep);
    BeforeFirstIsPrefix(s, sep);
    assert forall i :: 0 <= i < |a| ==> s[i] == a[i];
    assert forall i :: 0 <= i < |r| ==> s[i] == r[i];
    assert s[|a|] == sep;
    assert s[..|a|] == a;
  }

  /** Two runs of white space make one. */
  lemma AllSpaceAppend(a: string, b: string)
    requires AllSpace(a) && AllSpace(b)
    ensures AllSpace(a + b)
  {
    assert forall i :: 0 <= i < |a + b| ==> (a + b)[i] == if i < |a| then a[i] else b[i - |a|];
  }
}
