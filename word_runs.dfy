/** The tokeniser `re.findall('[a-zA-Z_]+', s)`: every maximal run of ASCII
    letters and underscores, in order of appearance. Digits, operators, spaces and
    every other character end a run and are never returned. */
module WordRuns {

  /** The regular-expression class `[a-zA-Z_]`. */
  predicate IsWordChar(c: char)
  {
    'a' <= c <= 'z' || 'A' <= c <= 'Z' || c == '_'
  }

  /** Every character of `w` belongs to `[a-zA-Z_]`. */
  predicate IsWord(w: string)
  {
    forall j :: 0 <= j < |w| ==> IsWordChar(w[j])
  }

  /** `s[a..b]` is a maximal run: non-empty, made of word characters only, and
      not extendable on either side. */
  predicate IsMaximalRun(s: string, a: int, b: int)
  {
    0 <= a < b <= |s| &&
    (forall j :: a <= j < b ==> IsWordChar(s[j])) &&
    (a == 0 || !IsWordChar(s[a - 1])) &&
    (b == |s| || !IsWordChar(s[b]))
  }

  /** The end of the run of word characters that starts at `i`: the first
      position at or after `i` that is not a word character. */
  function RunEnd(s: string, i: nat): (j: nat)
    requires i <= |s|
    ensures i <= j <= |s|
    ensures forall p :: i <= p < j ==> IsWordChar(s[p])
    ensures j == |s| || !IsWordChar(s[j])
    decreases |s| - i
  {
    if i < |s| && IsWordChar(s[i]) then RunEnd(s, i + 1) else i
  }

  /** Position `i` is not strictly inside a run, so a scan may resume there. */
  predicate AtBoundary(s: string, i: nat)
    requires i <= |s|
  {
    i == 0 || i == |s| || !IsWordChar(s[i - 1]) || !IsWordChar(s[i])
  }

  /** The runs found by scanning `s` from position `i`. */
  function TokensFrom(s: string, i: nat): (ws: seq<string>)
    requires i <= |s|
    ensures forall t :: 0 <= t < |ws| ==> |ws[t]| > 0 && IsWord(ws[t])
    decreases |s| - i
  {
    if i == |s| then []
    else if !IsWordChar(s[i]) then TokensFrom(s, i + 1)
    else
      var j := RunEnd(s, i);
      assert forall p :: 0 <= p < j - i ==> s[i..j][p] == s[i + p];
      [s[i..j]] + TokensFrom(s, j)
  }

  /** `re.findall('[a-zA-Z_]+', s)`. */
  function Tokens(s: string): seq<string>
  {
    TokensFrom(s, 0)
  }

  lemma {:induction false} TokensFromAreMaximalRuns(s: string, i: nat, t: nat)
    requires i <= |s| && AtBoundary(s, i)
    requires t < |TokensFrom(s, i)|
    ensures exists a, b :: i <= a && IsMaximalRun(s, a, b) && s[a..b] == TokensFrom(s, i)[t]
    decreases |s| - i
  {
    if !IsWordChar(s[i]) {
      TokensFromAreMaximalRuns(s, i + 1, t);
    } else {
      var j := RunEnd(s, i);
      if t == 0 {
        assert IsMaximalRun(s, i, j);
      } else {
        assert TokensFrom(s, i)[t] == TokensFrom(s, j)[t - 1];
        TokensFromAreMaximalRuns(s, j, t - 1);
      }
    }
  }

  lemma {:induction false} MaximalRunInTokensFrom(s: string, i: nat, a: int, b: int)
    requires i <= |s| && AtBoundary(s, i)
    requires i <= a && IsMaximalRun(s, a, b)
    ensures s[a..b] in TokensFrom(s, i)
    decreases |s| - i
  {
    if !IsWordChar(s[i]) {
      MaximalRunInTokensFrom(s, i + 1, a, b);
    } else {
      var j := RunEnd(s, i);
      if i == a {
        assert j == b;
      } else {
        assert !IsWordChar(s[a - 1]);
        assert j <= a - 1;
        MaximalRunInTokensFrom(s, j, a, b);
      }
    }
  }

  /** The tokens are exactly the texts of the maximal runs of `[a-zA-Z_]`. */
  lemma TokensAreMaximalRuns(s: string, w: string)
    ensures w in Tokens(s) <==> exists a, b :: IsMaximalRun(s, a, b) && s[a..b] == w
  {
    if w in Tokens(s) {
      var t :| 0 <= t < |Tokens(s)| && Tokens(s)[t] == w;
      TokensFromAreMaximalRuns(s, 0, t);
    }
    if exists a, b :: IsMaximalRun(s, a, b) && s[a..b] == w {
      var a, b :| IsMaximalRun(s, a, b) && s[a..b] == w;
      MaximalRunInTokensFrom(s, 0, a, b);
    }
  }

  /** The run starting at `i` ends at the same place in `p + [c] + q` as in `p`
      when `c` is not a word character. */
  lemma RunEndBeforeSeparator(p: string, c: char, q: string, i: nat)
    requires i <= |p| && !IsWordChar(c)
    ensures RunEnd(p + [c] + q, i) == RunEnd(p, i)
  {
    var s := p + [c] + q;
    var j1, j2 := RunEnd(s, i), RunEnd(p, i);
    assert s[|p|] == c;
    assert forall k :: 0 <= k < |p| ==> s[k] == p[k];
  }

  lemma {:induction false} TokensFromBeforeSeparator(p: string, c: char, q: string, i: nat)
    requires i <= |p| && !IsWordChar(c)
    ensures TokensFrom(p + [c] + q, i) == TokensFrom(p, i) + TokensFrom(p + [c] + q, |p| + 1)
    decreases |p| - i
  {
    var s := p + [c] + q;
    if i < |p| {
      assert s[i] == p[i];
      if !IsWordChar(p[i]) {
        TokensFromBeforeSeparator(p, c, q, i + 1);
      } else {
        var j := RunEnd(p, i);
        RunEndBeforeSeparator(p, c, q, i);
        assert s[i..j] == p[i..j];
        TokensFromBeforeSeparator(p, c, q, j);
      }
    }
  }

  /** Scanning from `i` depends only on the text from `i` on. */
  lemma {:induction false} TokensFromSuffix(s: string, i: nat, t: string, i': nat)
    requires i <= |s| && i' <= |t| && s[i..] == t[i'..]
    ensures TokensFrom(s, i) == TokensFrom(t, i')
    decreases |s| - i
  {
    if i < |s| {
      assert s[i] == s[i..][0] == t[i'];
      if !IsWordChar(s[i]) {
        assert s[i + 1..] == s[i..][1..];
        assert t[i' + 1..] == t[i'..][1..];
        TokensFromSuffix(s, i + 1, t, i' + 1);
      } else {
        var j, j' := RunEnd(s, i), RunEnd(t, i');
        RunEndSuffix(s, i, t, i');
        assert s[i..j] == s[i..][..j - i];
        assert t[i'..j'] == t[i'..][..j' - i'];
        assert s[j..] == s[i..][j - i..];
        assert t[j'..] == t[i'..][j' - i'..];
        TokensFromSuffix(s, j, t, j');
      }
    }
  }

  lemma RunEndSuffix(s: string, i: nat, t: string, i': nat)
    requires i <= |s| && i' <= |t| && s[i..] == t[i'..]
    ensures RunEnd(s, i) - i == RunEnd(t, i') - i'
  {
    var j, j' := RunEnd(s, i), RunEnd(t, i');
    assert |s| - i == |t| - i';
    assert forall d :: 0 <= d < |s| - i ==> s[i + d] == s[i..][d] == t[i'..][d] == t[i' + d];
  }

  /** A character outside `[a-zA-Z_]` always ends a run: the runs of
      `p + [c] + q` are those of `p` followed by those of `q`. */
  lemma TokensSplit(p: string, c: char, q: string)
    requires !IsWordChar(c)
    ensures Tokens(p + [c] + q) == Tokens(p) + Tokens(q)
  {
    var s := p + [c] + q;
    TokensFromBeforeSeparator(p, c, q, 0);
    assert s[|p|] == c;
    assert s[|p| + 1..] == q[0..];
    TokensFromSuffix(s, |p| + 1, q, 0);
  }

  /** A non-empty run of word characters is a single token. */
  lemma TokensOfWord(w: string)
    requires |w| > 0 && IsWord(w)
    ensures Tokens(w) == [w]
  {
    assert IsWordChar(w[0]);
    assert RunEnd(w, 0) == |w|;
    assert w[0..|w|] == w;
    assert TokensFrom(w, |w|) == [];
  }
}
