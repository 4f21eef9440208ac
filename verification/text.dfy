/** The Python string primitives the move-interpretation code relies on: the
    character classes of its fixed regular expressions, `str.lower`,
    `str.upper`, `str.strip`, the `in` operator and `str.replace`.
    Letters are ASCII letters; whitespace is Python's full `isspace` set. */
module Text {

  /** `str.isspace`, which is also the `\s` class of `re` on `str` patterns. */
  predicate IsSpace(c: char)
  {
    var n := c as int;
    || n == 0x20 || 0x09 <= n <= 0x0D || 0x1C <= n <= 0x1F || n == 0x85 || n == 0xA0
    || n == 0x1680 || 0x2000 <= n <= 0x200A || n == 0x2028 || n == 0x2029
    || n == 0x202F || n == 0x205F || n == 0x3000
  }

  predicate IsUpper(c: char) { 'A' <= c <= 'Z' }

  predicate IsLower(c: char) { 'a' <= c <= 'z' }

  /** The `\w` class of `re`: letters, digits and the underscore. */
  predicate IsWordChar(c: char)
  {
    IsUpper(c) || IsLower(c) || '0' <= c <= '9' || c == '_'
  }

  function LowerChar(c: char): (r: char)
    ensures !IsUpper(r)
    ensures r == c <==> !IsUpper(c)
  {
    if IsUpper(c) then (c as int + 32) as char else c
  }

  function UpperChar(c: char): (r: char)
    ensures !IsLower(r)
    ensures r == c <==> !IsLower(c)
  {
    if IsLower(c) then (c as int - 32) as char else c
  }

  /** `s.lower()`. */
  function Lower(s: string): (r: string)
    ensures |r| == |s|
    ensures forall i :: 0 <= i < |s| ==> r[i] == LowerChar(s[i])
  {
    seq(|s|, i requires 0 <= i < |s| => LowerChar(s[i]))
  }

  predicate NoUpper(s: string)
  {
    forall c :: c in s ==> !IsUpper(c)
  }

  /** `s.lstrip()`. */
  function StripStart(s: string): string
  {
    if |s| > 0 && IsSpace(s[0]) then StripStart(s[1..]) else s
  }

  /** `s.rstrip()`. */
  function StripEnd(s: string): string
  {
    if |s| > 0 && IsSpace(s[|s| - 1]) then StripEnd(s[..|s| - 1]) else s
  }

  /** `s.strip()`. */
  function Strip(s: string): string
  {
    StripEnd(StripStart(s))
  }

  /** lstrip drops exactly the leading whitespace: the result is a suffix
      of the input that does not start with whitespace, and what was dropped
      is all whitespace. */
  lemma {:induction false} StripStartSpec(s: string)
    ensures var r := StripStart(s);
            && |r| <= |s| && r == s[|s| - |r|..]
            && (forall m :: 0 <= m < |s| - |r| ==> IsSpace(s[m]))
            && (|r| > 0 ==> !IsSpace(r[0]))
    decreases |s|
  {
    if |s| > 0 && IsSpace(s[0]) {
      StripStartSpec(s[1..]);
      var r := StripStart(s[1..]);
      assert s[1..][|s| - 1 - |r|..] == s[|s| - |r|..];
      forall m | 1 <= m < |s| - |r|
        ensures IsSpace(s[m])
      {
        assert s[m] == s[1..][m - 1];
      }
    }
  }

  /** rstrip drops exactly the trailing whitespace: the result is a prefix
      of the input that does not end with whitespace, and what was dropped
      is all whitespace. */
  lemma {:induction false} StripEndSpec(s: string)
    ensures var r := StripEnd(s);
            && |r| <= |s| && r == s[..|r|]
            && (forall m :: |r| <= m < |s| ==> IsSpace(s[m]))
            && (|r| > 0 ==> !IsSpace(r[|r| - 1]))
    decreases |s|
  {
    if |s| > 0 && IsSpace(s[|s| - 1]) {
      var u := s[..|s| - 1];
      StripEndSpec(u);
      var r := StripEnd(u);
      assert u[..|r|] == s[..|r|];
      forall m | |r| <= m < |s| - 1
        ensures IsSpace(s[m])
      {
        assert s[m] == u[m];
      }
    }
  }

  /** strip keeps a slice of the input, `s[i..i + |r|]`, that neither
      starts nor ends with whitespace, and drops only whitespace on either
      side of it. */
  lemma StripSpec(s: string)
    ensures var r := Strip(s);
            var i := |s| - |StripStart(s)|;
            && 0 <= i && i + |r| <= |s| && r == s[i..i + |r|]
            && (forall m :: 0 <= m < i ==> IsSpace(s[m]))
            && (forall m :: i + |r| <= m < |s| ==> IsSpace(s[m]))
            && (|r| > 0 ==> !IsSpace(r[0]) && !IsSpace(r[|r| - 1]))
  {
    var u := StripStart(s);
    var r := StripEnd(u);
    var i := |s| - |u|;
    StripStartSpec(s);
    StripEndSpec(u);
    assert r == s[i..i + |r|];
    forall m | i + |r| <= m < |s|
      ensures IsSpace(s[m])
    {
      assert s[m] == u[m - i];
    }
    if |r| > 0 {
      assert r[0] == u[0];
    }
  }

  /** `t.startswith(p)`, compared character by character. */
  predicate StartsWith(t: string, p: string)
  {
    |p| <= |t| && (|p| == 0 || (t[0] == p[0] && StartsWith(t[1..], p[1..])))
  }

  lemma {:induction false} StartsWithPrefix(t: string, p: string)
    ensures StartsWith(t, p) <==> |p| <= |t| && t[..|p|] == p
    decreases |p|
  {
    if |p| <= |t| && |p| > 0 {
      StartsWithPrefix(t[1..], p[1..]);
      assert t[..|p|] == [t[0]] + t[1..][..|p| - 1];
      assert p == [p[0]] + p[1..];
    }
  }

  /** `p` occurs in `t` starting at index `i`. */
  predicate OccursAt(t: string, p: string, i: int)
  {
    0 <= i && i + |p| <= |t| && t[i..i + |p|] == p
  }

  lemma OccursShift(t: string, p: string)
    requires |t| > 0
    ensures forall i :: 0 <= i ==> (OccursAt(t[1..], p, i) <==> OccursAt(t, p, i + 1))
  {
    forall i
      ensures 0 <= i ==> (OccursAt(t[1..], p, i) <==> OccursAt(t, p, i + 1))
    {
      if 0 <= i && i + |p| <= |t| - 1 {
        assert t[1..][i..i + |p|] == t[i + 1..i + 1 + |p|];
      }
    }
  }

  /** Python's `p in t`, scanning left to right. */
  predicate Contains(t: string, p: string)
    decreases |t|
  {
    if |t| < |p| then false
    else if StartsWith(t, p) then true
    else Contains(t[1..], p)
  }

  /** `p in t` holds exactly when `p` occurs at some index of `t`. */
  lemma {:induction false} ContainsMeansOccurs(t: string, p: string)
    ensures Contains(t, p) <==> exists i :: OccursAt(t, p, i)
    decreases |t|
  {
    StartsWithPrefix(t, p);
    if |t| < |p| {
    } else if StartsWith(t, p) {
      assert OccursAt(t, p, 0);
    } else {
      ContainsMeansOccurs(t[1..], p);
      OccursShift(t, p);
      assert !OccursAt(t, p, 0);
      assert forall i :: OccursAt(t, p, i) ==> OccursAt(t[1..], p, i - 1);
    }
  }

  /** Python's `t.replace(p, r)`: every leftmost non-overlapping occurrence
      of `p`, scanning left to right, becomes `r`. */
  function ReplaceAll(t: string, p: string, r: string): string
    requires |p| > 0
    decreases |t|
  {
    if |t| == 0 then []
    else if StartsWith(t, p) then r + ReplaceAll(t[|p|..], p, r)
    else [t[0]] + ReplaceAll(t[1..], p, r)
  }

  /** `t.replace(p, r)` leaves `t` alone when `p` does not occur, never grows
      it for a replacement no longer than the key, changes it exactly when
      `p` occurs (for a shorter replacement), and uses only characters of
      `t` and `r`. */
  lemma {:induction false} ReplaceAllFacts(t: string, p: string, r: string)
    requires |p| > 0
    ensures var u := ReplaceAll(t, p, r);
            && (!Contains(t, p) ==> u == t)
            && (|r| <= |p| ==> |u| <= |t|)
            && (|r| < |p| ==> (u == t <==> !Contains(t, p)))
            && (forall c :: c in u ==> c in t || c in r)
    decreases |t|
  {
    if |t| == 0 {
    } else if StartsWith(t, p) {
      ReplaceAllFacts(t[|p|..], p, r);
    } else {
      ReplaceAllFacts(t[1..], p, r);
      assert t == [t[0]] + t[1..];
    }
  }

  /** Helper for `ReplaceLeavesNoKey`: a prefix of the replaced text made of
      key characters only was already a prefix of the original text, because
      a replacement starts with a character the key does not contain. */
  lemma {:induction false} KeyCharPrefixSurvives(t: string, p: string, r: string, q: string)
    requires |p| > 0 && |r| > 0
    requires forall k :: 0 <= k < |r| ==> r[k] !in p
    requires forall k :: 0 <= k < |q| ==> q[k] in p
    ensures |q| <= |ReplaceAll(t, p, r)| && ReplaceAll(t, p, r)[..|q|] == q
            ==> |q| <= |t| && t[..|q|] == q
    decreases |t|
  {
    var u := ReplaceAll(t, p, r);
    if |q| == 0 {
    } else if |t| == 0 {
    } else if StartsWith(t, p) {
      assert u[0] == r[0];
    } else {
      var u' := ReplaceAll(t[1..], p, r);
      assert u == [t[0]] + u';
      KeyCharPrefixSurvives(t[1..], p, r, q[1..]);
      if |q| <= |u| && u[..|q|] == q {
        assert u'[..|q| - 1] == q[1..];
        assert t == [t[0]] + t[1..];
      }
    }
  }

  /** Helper for `ReplaceLeavesNoKey`: no occurrence starts inside a
      replacement that shares no character with the key, nor after it. */
  lemma {:induction false} NoKeyPastReplacement(r: string, u': string, p: string)
    requires |p| > 0
    requires forall k :: 0 <= k < |r| ==> r[k] !in p
    requires !Contains(u', p)
    ensures !Contains(r + u', p)
    decreases |r|
  {
    if |r| == 0 {
      assert r + u' == u';
    } else {
      var v := r[1..] + u';
      NoKeyPastReplacement(r[1..], u', p);
      assert r + u' == [r[0]] + v;
      assert p[0] in p;
      assert !OccursAt([r[0]] + v, p, 0);
      NoKeyPastChar(r[0], v, p);
    }
  }

  /** Helper for `ReplaceLeavesNoKey`: when `t` does not start with the
      key, neither does its replacement. */
  lemma NoKeyAtStart(t: string, p: string, r: string)
    requires |p| > 0 && |r| > 0
    requires forall k :: 0 <= k < |r| ==> r[k] !in p
    requires |t| > 0 && !StartsWith(t, p)
    ensures !OccursAt(ReplaceAll(t, p, r), p, 0)
  {
    var u := ReplaceAll(t, p, r);
    var u' := ReplaceAll(t[1..], p, r);
    StartsWithPrefix(t, p);
    assert u == [t[0]] + u';
    var q := p[1..];
    KeyCharPrefixSurvives(t[1..], p, r, q);
    if |p| <= |u| {
      assert u[..|p|] == [t[0]] + u'[..|q|];
      if |q| <= |t[1..]| {
        assert t[..|p|] == [t[0]] + t[1..][..|q|];
      }
    }
  }

  /** Helper for `ReplaceLeavesNoKey`: a character in front of a text
      without the key adds an occurrence only by starting one. */
  lemma NoKeyPastChar(c: char, u': string, p: string)
    requires !Contains(u', p) && !OccursAt([c] + u', p, 0)
    ensures !Contains([c] + u', p)
  {
    var u := [c] + u';
    assert u[1..] == u';
    OccursShift(u, p);
    ContainsMeansOccurs(u', p);
    ContainsMeansOccurs(u, p);
    forall i | 1 <= i
      ensures !OccursAt(u, p, i)
    {
      assert !OccursAt(u', p, i - 1);
    }
  }

  /** After `t.replace(p, r)` with a non-empty `r` that shares no character
      with `p`, no occurrence of `p` is left: every occurrence was consumed
      whole, and none is formed across a replacement. */
  lemma {:induction false} ReplaceLeavesNoKey(t: string, p: string, r: string)
    requires |p| > 0 && |r| > 0
    requires forall k :: 0 <= k < |r| ==> r[k] !in p
    ensures !Contains(ReplaceAll(t, p, r), p)
    decreases |t|
  {
    if |t| == 0 {
      assert p[0] in p;
      ContainsMeansOccurs(ReplaceAll(t, p, r), p);
    } else if StartsWith(t, p) {
      ReplaceLeavesNoKey(t[|p|..], p, r);
      StartsWithPrefix(t, p);
      NoKeyPastReplacement(r, ReplaceAll(t[|p|..], p, r), p);
    } else {
      ReplaceLeavesNoKey(t[1..], p, r);
      NoKeyAtStart(t, p, r);
      NoKeyPastChar(t[0], ReplaceAll(t[1..], p, r), p);
    }
  }

  /** An occurrence in the tail is an occurrence in the whole text. */
  lemma {:induction false} ContainsTail(t: string, p: string)
    requires |t| > 0 && Contains(t[1..], p)
    ensures Contains(t, p)
  {
    ContainsMeansOccurs(t[1..], p);
    ContainsMeansOccurs(t, p);
    OccursShift(t, p);
    var i :| OccursAt(t[1..], p, i);
    assert OccursAt(t, p, i + 1);
  }

  /** When the first occurrence of `p` in `a + p + b` is the one after `a`
      (no occurrence begins inside `a`), `str.replace` keeps `a`, writes `r`
      for that occurrence and carries on with `b`. */
  lemma {:induction false} ReplaceFirst(a: string, p: string, r: string, b: string)
    requires |p| > 0
    requires !Contains(a + p[..|p| - 1], p)
    ensures ReplaceAll(a + p + b, p, r) == a + r + ReplaceAll(b, p, r)
    decreases |a|
  {
    var t := a + p + b;
    StartsWithPrefix(t, p);
    if |a| == 0 {
      assert t == p + b;
      assert t[|p|..] == b;
    } else {
      var x := a + p[..|p| - 1];
      assert !StartsWith(t, p) by {
        StartsWithPrefix(x, p);
        assert t[..|p|] == x[..|p|];
        assert !StartsWith(x, p);
      }
      assert !Contains(a[1..] + p[..|p| - 1], p) by {
        assert x[1..] == a[1..] + p[..|p| - 1];
        if Contains(x[1..], p) {
          ContainsTail(x, p);
        }
      }
      ReplaceFirst(a[1..], p, r, b);
      assert t[1..] == a[1..] + p + b;
      assert a + r + ReplaceAll(b, p, r) == [a[0]] + (a[1..] + r + ReplaceAll(b, p, r));
    }
  }

  /** A key holding a character the text lacks does not occur in it. */
  lemma MissingCharNotContained(t: string, p: string, c: char)
    requires c in p && c !in t
    ensures !Contains(t, p)
  {
    ContainsMeansOccurs(t, p);
    var k :| 0 <= k < |p| && p[k] == c;
    forall i | 0 <= i && i + |p| <= |t|
      ensures !OccursAt(t, p, i)
    {
      assert t[i + k] in t;
      assert t[i..i + |p|][k] == t[i + k] != p[k];
    }
  }

  /** `t.replace(p, r)` is `t` when `p` holds a character `t` lacks. */
  lemma ReplaceMissing(t: string, p: string, r: string, c: char)
    requires |p| > 0 && c in p && c !in t
    ensures ReplaceAll(t, p, r) == t
  {
    MissingCharNotContained(t, p, c);
    ReplaceAllFacts(t, p, r);
  }

  /** A key whose character at offset `k` never lines up with the same
      character of the text does not occur in it. */
  lemma MisalignedNotContained(t: string, p: string, k: nat)
    requires k < |p|
    requires forall j :: k <= j <= |t| - |p| + k ==> t[j] != p[k]
    ensures !Contains(t, p)
  {
    ContainsMeansOccurs(t, p);
    forall i | 0 <= i && i + |p| <= |t|
      ensures !OccursAt(t, p, i)
    {
      assert t[i..i + |p|][k] == t[i + k];
    }
  }

  /** An occurrence at a known index makes `p in t` hold. */
  lemma OccursContained(t: string, p: string, i: int)
    requires OccursAt(t, p, i)
    ensures Contains(t, p)
  {
    ContainsMeansOccurs(t, p);
  }

  /** Replacing a single character works one character at a time. */
  lemma ReplaceCharStep(t: string, p: string, r: string)
    requires |p| == 1 && |t| > 0
    ensures ReplaceAll(t, p, r) == (if t[0] == p[0] then r else [t[0]]) + ReplaceAll(t[1..], p, r)
  {
    StartsWithPrefix(t, p);
    assert StartsWith(t, p) <==> t[..1] == p;
    assert t[..1] == p <==> t[0] == p[0];
  }

  /** Replacing a single character distributes over concatenation: no
      occurrence can straddle the seam. */
  lemma {:induction false} ReplaceCharAppend(a: string, b: string, p: string, r: string)
    requires |p| == 1
    ensures ReplaceAll(a + b, p, r) == ReplaceAll(a, p, r) + ReplaceAll(b, p, r)
    decreases |a|
  {
    if |a| == 0 {
      assert a + b == b;
    } else {
      var t := a + b;
      var head := if a[0] == p[0] then r else [a[0]];
      assert t[1..] == a[1..] + b;
      assert t[0] == a[0];
      ReplaceCharStep(t, p, r);
      ReplaceCharStep(a, p, r);
      ReplaceCharAppend(a[1..], b, p, r);
      assert head + (ReplaceAll(a[1..], p, r) + ReplaceAll(b, p, r))
          == (head + ReplaceAll(a[1..], p, r)) + ReplaceAll(b, p, r);
    }
  }
}
