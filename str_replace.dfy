/** Python's `str.replace(old, new)` with no count argument: every non-overlapping
    occurrence of `old`, found scanning left to right, is replaced by `new`.
    Only non-empty keys are modelled (every key the plotter passes is non-empty). */
module StrReplace {

  /** `k` occurs in `s` starting at position `i`. */
  predicate OccursAt(s: string, k: string, i: int)
  {
    0 <= i && i + |k| <= |s| && s[i..i + |k|] == k
  }

  /** Python's substring test `k in s`. */
  predicate Contains(s: string, k: string)
  {
    exists i | 0 <= i <= |s| :: OccursAt(s, k, i)
  }

  /** `s.replace(k, v)`: at each position, an occurrence of `k` is consumed and
      replaced by `v`; otherwise one character is copied and the scan moves on. */
  function ReplaceAll(s: string, k: string, v: string): string
    requires |k| > 0
    decreases |s|
  {
    if |s| < |k| then s
    else if s[..|k|] == k then v + ReplaceAll(s[|k|..], k, v)
    else [s[0]] + ReplaceAll(s[1..], k, v)
  }

  /** An occurrence in a suffix is an occurrence in the whole string. */
  lemma OccursInSuffix(s: string, k: string, n: nat, i: int)
    requires n <= |s| && OccursAt(s[n..], k, i)
    ensures OccursAt(s, k, i + n)
  {
    assert s[n..][i..i + |k|] == s[i + n..i + n + |k|];
  }

  /** A string that does not contain the key comes back unchanged. */
  lemma {:induction false} ReplaceAllAbsentKey(s: string, k: string, v: string)
    requires |k| > 0 && !Contains(s, k)
    ensures ReplaceAll(s, k, v) == s
    decreases |s|
  {
    if |s| >= |k| {
      assert !OccursAt(s, k, 0);
      assert s[..|k|] != k;
      if Contains(s[1..], k) {
        var i :| 0 <= i <= |s[1..]| && OccursAt(s[1..], k, i);
        OccursInSuffix(s, k, 1, i);
        assert false;
      }
      ReplaceAllAbsentKey(s[1..], k, v);
      assert s == [s[0]] + s[1..];
    }
  }

  /** With a replacement longer than the key, replacing never shortens the string,
      and it strictly lengthens it as soon as the key occurs. */
  lemma {:induction false} ReplaceAllGrows(s: string, k: string, v: string)
    requires 0 < |k| < |v|
    ensures |ReplaceAll(s, k, v)| >= |s|
    ensures Contains(s, k) ==> |ReplaceAll(s, k, v)| > |s|
    decreases |s|
  {
    if |s| < |k| {
    } else if s[..|k|] == k {
      ReplaceAllGrows(s[|k|..], k, v);
    } else {
      ReplaceAllGrows(s[1..], k, v);
      if Contains(s, k) {
        var i :| 0 <= i <= |s| && OccursAt(s, k, i);
        assert i != 0;
        assert s[1..][i - 1..i - 1 + |k|] == s[i..i + |k|];
        assert OccursAt(s[1..], k, i - 1);
      }
    }
  }

  /** For a replacement longer than the key, `s.replace(k, v) == s` exactly when
      `k` does not occur in `s`. */
  lemma ReplaceAllUnchangedIff(s: string, k: string, v: string)
    requires 0 < |k| < |v|
    ensures ReplaceAll(s, k, v) == s <==> !Contains(s, k)
  {
    ReplaceAllGrows(s, k, v);
    if !Contains(s, k) {
      ReplaceAllAbsentKey(s, k, v);
    }
  }

  /** A character absent from both the input and the replacement stays absent. */
  lemma {:induction false} ReplaceAllKeepsCharOut(s: string, k: string, v: string, c: char)
    requires |k| > 0 && c !in s && c !in v
    ensures c !in ReplaceAll(s, k, v)
    decreases |s|
  {
    if |s| >= |k| {
      if s[..|k|] == k {
        assert forall j :: 0 <= j < |s[|k|..]| ==> s[|k|..][j] == s[|k| + j];
        ReplaceAllKeepsCharOut(s[|k|..], k, v, c);
      } else {
        assert forall j :: 0 <= j < |s[1..]| ==> s[1..][j] == s[1 + j];
        ReplaceAllKeepsCharOut(s[1..], k, v, c);
      }
    }
  }

  /** Replacing a one-character key by a string without that character removes
      every occurrence of it. */
  lemma {:induction false} ReplaceAllRemovesChar(s: string, c: char, v: string)
    requires c !in v
    ensures c !in ReplaceAll(s, [c], v)
    decreases |s|
  {
    if |s| >= 1 {
      if s[..1] == [c] {
        ReplaceAllRemovesChar(s[1..], c, v);
      } else {
        assert s[0] != c;
        ReplaceAllRemovesChar(s[1..], c, v);
      }
    }
  }

  /** A key with a character that `s` lacks does not occur in `s`. */
  lemma ReplaceAllMissingChar(s: string, k: string, v: string, c: char)
    requires c in k && c !in s
    ensures !Contains(s, k)
    ensures ReplaceAll(s, k, v) == s
  {
    ReplaceAllAbsentKey(s, k, v);
  }

  /** A character that cannot start the key is copied and the scan moves on. */
  lemma ReplaceAllSkip(c: char, rest: string, k: string, v: string)
    requires |k| > 0 && c != k[0]
    ensures ReplaceAll([c] + rest, k, v) == [c] + ReplaceAll(rest, k, v)
  {
    var s := [c] + rest;
    if |s| >= |k| {
      assert s[..|k|][0] != k[0];
      assert s[1..] == rest;
    } else {
      ReplaceAllAbsentKey(rest, k, v);
    }
  }

  /** An occurrence of the key at the front is replaced and skipped over. */
  lemma ReplaceAllHit(k: string, rest: string, v: string)
    requires |k| > 0
    ensures ReplaceAll(k + rest, k, v) == v + ReplaceAll(rest, k, v)
  {
    var s := k + rest;
    assert s[..|k|] == k && s[|k|..] == rest;
  }
}
