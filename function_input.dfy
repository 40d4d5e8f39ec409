/** The front end of `Plotter.convertStringToFunction`: the whitelist check on the
    letter runs of the user's expression, the textual rewrite into numpy spelling,
    and the `+0*x` term appended to expressions without the character `x`.
    The model's output is the rewritten expression text; evaluating it is not modelled. */
module FunctionInput {
  import opened StrReplace
  import opened WordRuns

  /** The names a letter run may spell (`allowedFunctions`). The operator entries
      can never equal a run; see `OperatorEntriesNeverMatch`. */
  const AllowedFunctions: set<string> := {
    "x", "sin", "cos", "tan", "asin", "acos", "atan", "sinh", "cosh", "tanh",
    "exp", "log", "log10", "sqrt", "abs", "+", "-", "*", "/", "^"
  }

  const OperatorEntries: set<string> := {"+", "-", "*", "/", "^"}

  /** `stringFunctionConversions`, as (key, value) pairs in dict insertion order. */
  const Conversions: seq<(string, string)> := [
    ("^", "**"),
    ("sin", "np.sin"),
    ("cos", "np.cos"),
    ("tan", "np.tan"),
    ("log", "np.log"),
    ("exp", "np.exp"),
    ("sqrt", "np.sqrt"),
    ("abs", "np.abs")
  ]

  /** The term appended when the rewritten text has no `x`. */
  const ZeroTerm: string := "+0*x"

  /** The message of the `TypeError` raised on a rejected expression. */
  const InvalidFunctionInput: string := "Invalid function Input"

  datatype InputError = TypeError(message: string)

  datatype Result = Success(code: string) | Failure(error: InputError)

  /** Every key is non-empty, as `str.replace` needs for the scan modelled here. */
  predicate NonEmptyKeys(t: seq<(string, string)>)
  {
    forall e :: 0 <= e < |t| ==> |t[e].0| > 0
  }

  /** Every replacement is longer than its key. */
  predicate Lengthening(t: seq<(string, string)>)
  {
    forall e :: 0 <= e < |t| ==> |t[e].0| < |t[e].1|
  }

  /** Every letter run of `s` is a whitelisted name. */
  predicate AllWordsAllowed(s: string)
  {
    forall w :: w in Tokens(s) ==> w in AllowedFunctions
  }

  /** A run is never one of the operator entries of the whitelist, so those
      entries neither admit nor reject anything. */
  lemma OperatorEntriesNeverMatch(s: string)
    ensures forall w :: w in Tokens(s) ==> w !in OperatorEntries
    ensures AllWordsAllowed(s) <==> forall w :: w in Tokens(s) ==> w in AllowedFunctions - OperatorEntries
  {
    forall w | w in Tokens(s) ensures w !in OperatorEntries {
      var t :| 0 <= t < |Tokens(s)| && Tokens(s)[t] == w;
      assert IsWordChar(w[0]);
    }
  }

  /** Validation, stated over the maximal runs of `s` instead of the token list. */
  lemma AllWordsAllowedIff(s: string)
    ensures AllWordsAllowed(s) <==>
            forall a, b :: IsMaximalRun(s, a, b) ==> s[a..b] in AllowedFunctions
  {
    forall a, b | IsMaximalRun(s, a, b) ensures s[a..b] in Tokens(s) {
      TokensAreMaximalRuns(s, s[a..b]);
    }
    forall w | w in Tokens(s) ensures exists a, b :: IsMaximalRun(s, a, b) && s[a..b] == w {
      TokensAreMaximalRuns(s, w);
    }
  }

  /** The loop `for key, value in ...: string = string.replace(key, value)`:
      a left fold of replace-all over the table entries in order. */
  function ReplaceEach(s: string, t: seq<(string, string)>): string
    requires NonEmptyKeys(t)
    decreases |t|
  {
    if t == [] then s else ReplaceEach(ReplaceAll(s, t[0].0, t[0].1), t[1..])
  }

  /** The conversion applied to a validated expression. */
  function Rewrite(s: string): string
  {
    ReplaceEach(s, Conversions)
  }

  lemma {:induction false} ReplaceEachKeepsCharOut(s: string, t: seq<(string, string)>, c: char)
    requires NonEmptyKeys(t)
    requires c !in s && forall e :: 0 <= e < |t| ==> c !in t[e].1
    ensures c !in ReplaceEach(s, t)
    decreases |t|
  {
    if t != [] {
      ReplaceAllKeepsCharOut(s, t[0].0, t[0].1, c);
      ReplaceEachKeepsCharOut(ReplaceAll(s, t[0].0, t[0].1), t[1..], c);
    }
  }

  /** A fold over a table whose replacements are longer than their keys leaves the
      text unchanged exactly when none of the keys occurs in it. */
  lemma {:induction false} ReplaceEachUnchangedIff(s: string, t: seq<(string, string)>)
    requires NonEmptyKeys(t) && Lengthening(t)
    ensures |ReplaceEach(s, t)| >= |s|
    ensures ReplaceEach(s, t) == s <==> forall e :: 0 <= e < |t| ==> !Contains(s, t[e].0)
    decreases |t|
  {
    if t != [] {
      var s' := ReplaceAll(s, t[0].0, t[0].1);
      ReplaceAllGrows(s, t[0].0, t[0].1);
      ReplaceEachUnchangedIff(s', t[1..]);
      if !Contains(s, t[0].0) {
        ReplaceAllAbsentKey(s, t[0].0, t[0].1);
        assert s' == s;
        assert forall e :: 1 <= e < |t| ==> t[e].0 == t[1..][e - 1].0;
      }
    }
  }

  /** Leading table entries whose keys do not occur leave the text as it is, so the
      fold may start at the first entry that can match. */
  lemma {:induction false} ReplaceEachAbsentPrefix(s: string, t: seq<(string, string)>, n: nat)
    requires NonEmptyKeys(t) && n <= |t|
    requires forall e :: 0 <= e < n ==> !Contains(s, t[e].0)
    ensures ReplaceEach(s, t) == ReplaceEach(s, t[n..])
    decreases n
  {
    if n > 0 {
      ReplaceAllAbsentKey(s, t[0].0, t[0].1);
      assert forall e :: 0 <= e < n - 1 ==> t[1..][e].0 == t[e + 1].0;
      ReplaceEachAbsentPrefix(s, t[1..], n - 1);
      assert t[1..][n - 1..] == t[n..];
    }
  }

  /** After the rewrite no `^` is left: the first entry turns each into `**` and no
      later replacement contains `^`. */
  lemma RewriteHasNoCaret(s: string)
    ensures '^' !in Rewrite(s)
  {
    ReplaceAllRemovesChar(s, '^', "**");
    var rest := Conversions[1..];
    assert forall e :: 0 <= e < |rest| ==> '^' !in rest[e].1;
    ReplaceEachKeepsCharOut(ReplaceAll(s, "^", "**"), rest, '^');
  }

  /** The rewrite changes the text exactly when some key of the table occurs in it;
      an expression with none of the keys passes through unchanged. */
  lemma RewriteUnchangedIff(s: string)
    ensures Rewrite(s) == s <==> forall e :: 0 <= e < |Conversions| ==> !Contains(s, Conversions[e].0)
  {
    ReplaceEachUnchangedIff(s, Conversions);
  }

  /** `if "x" not in string: string = f"{string}+0*x"`. */
  function AppendVariable(code: string): (r: string)
    ensures 'x' in r
    ensures r == code <==> 'x' in code
    ensures r == code || r == code + ZeroTerm
  {
    if 'x' in code then code else code + ZeroTerm
  }

  /** `convertStringToFunction` up to the `eval`: reject the expression when a
      letter run is not whitelisted, otherwise rewrite it and make sure it
      mentions `x`. */
  function Convert(s: string): (r: Result)
    ensures r.Failure? <==> exists a, b :: IsMaximalRun(s, a, b) && s[a..b] !in AllowedFunctions
    ensures r.Failure? ==> r.error == TypeError(InvalidFunctionInput)
    ensures r.Success? ==> 'x' in r.code && '^' !in r.code
    ensures r.Success? ==> |Rewrite(s)| <= |r.code| && r.code[..|Rewrite(s)|] == Rewrite(s)
  {
    AllWordsAllowedIff(s);
    RewriteHasNoCaret(s);
    if AllWordsAllowed(s) then Success(AppendVariable(Rewrite(s)))
    else Failure(TypeError(InvalidFunctionInput))
  }

  /** The procedure itself: a loop over the runs with an early exit on the first
      name outside the whitelist, then a loop over the table reassigning the text. */
  method ConvertStringToFunction(s: string) returns (r: Result)
    ensures r == Convert(s)
  {
    var words := Tokens(s);
    for i := 0 to |words|
      invariant forall j :: 0 <= j < i ==> words[j] in AllowedFunctions
    {
      if words[i] !in AllowedFunctions {
        return Failure(TypeError(InvalidFunctionInput));
      }
    }
    var code := s;
    for i := 0 to |Conversions|
      invariant ReplaceEach(code, Conversions[i..]) == Rewrite(s)
    {
      code := ReplaceAll(code, Conversions[i].0, Conversions[i].1);
    }
    if 'x' !in code {
      code := code + ZeroTerm;
    }
    return Success(code);
  }

  // Worked examples. Each is proved by a lemma over a parameter equal to the
  // literal, which keeps the solver from unfolding the definitions on literals.

  /** The keys after `sin` all have a character that `r` lacks. */
  lemma TailKeysAbsent(r: string)
    requires 'c' !in r && 't' !in r && 'l' !in r && 'e' !in r && 'q' !in r && 'b' !in r
    ensures ReplaceEach(r, Conversions[2..]) == r
  {
    var t := Conversions[2..];
    forall e | 0 <= e < |t| ensures !Contains(r, t[e].0) {
      var c := if e == 0 then 'c' else if e == 1 then 't' else if e == 2 then 'l'
               else if e == 3 then 'e' else if e == 4 then 'q' else 'b';
      ReplaceAllMissingChar(r, t[e].0, "", c);
    }
    ReplaceEachUnchangedIff(r, t);
  }

  /** The rewrite as its first two steps followed by the rest of the table. */
  lemma RewriteFirstTwo(s: string)
    ensures Rewrite(s) == ReplaceEach(ReplaceAll(ReplaceAll(s, "^", "**"), "sin", "np.sin"), Conversions[2..])
  {
    assert Conversions[1..][1..] == Conversions[2..];
  }

  /** The rewritten examples contain none of the tail keys' telltale characters. */
  lemma TailCharsMissing(r: string)
    requires r == "anp.sin(x)" || r == "np.sinh(x)" || r == "x**2"
    ensures 'c' !in r && 't' !in r && 'l' !in r && 'e' !in r && 'q' !in r && 'b' !in r
  {
  }

  lemma FirstTwoStepsOfAsin(s: string, r: string)
    requires s == "asin(x)" && r == "anp.sin(x)"
    ensures ReplaceAll(ReplaceAll(s, "^", "**"), "sin", "np.sin") == r
  {
    ReplaceAllMissingChar(s, "^", "**", '^');
    assert s == ['a'] + ("sin" + "(x)");
    ReplaceAllSkip('a', "sin" + "(x)", "sin", "np.sin");
    ReplaceAllHit("sin", "(x)", "np.sin");
    ReplaceAllMissingChar("(x)", "sin", "np.sin", 's');
  }

  lemma RewriteOfAsin(s: string, r: string)
    requires s == "asin(x)" && r == "anp.sin(x)"
    ensures Rewrite(s) == r
  {
    RewriteFirstTwo(s);
    FirstTwoStepsOfAsin(s, r);
    TailCharsMissing(r);
    TailKeysAbsent(r);
  }

  lemma FirstTwoStepsOfSinh(s: string, r: string)
    requires s == "sinh(x)" && r == "np.sinh(x)"
    ensures ReplaceAll(ReplaceAll(s, "^", "**"), "sin", "np.sin") == r
  {
    ReplaceAllMissingChar(s, "^", "**", '^');
    assert s == "sin" + "h(x)";
    ReplaceAllHit("sin", "h(x)", "np.sin");
    ReplaceAllMissingChar("h(x)", "sin", "np.sin", 's');
  }

  lemma RewriteOfSinh(s: string, r: string)
    requires s == "sinh(x)" && r == "np.sinh(x)"
    ensures Rewrite(s) == r
  {
    RewriteFirstTwo(s);
    FirstTwoStepsOfSinh(s, r);
    TailCharsMissing(r);
    TailKeysAbsent(r);
  }

  lemma RewriteOfPower(s: string, r: string)
    requires s == "x^2" && r == "x**2"
    ensures Rewrite(s) == r
  {
    RewriteFirstTwo(s);
    assert s == ['x'] + ("^" + "2");
    ReplaceAllSkip('x', "^" + "2", "^", "**");
    ReplaceAllHit("^", "2", "**");
    ReplaceAllMissingChar("2", "^", "**", '^');
    assert ReplaceAll(s, "^", "**") == r;
    ReplaceAllMissingChar(r, "sin", "np.sin", 's');
    TailCharsMissing(r);
    TailKeysAbsent(r);
  }

  /** Keys are replaced wherever they occur as substrings, also inside longer
      whitelisted names, and `^` becomes `**`. */
  lemma RewriteExamples()
    ensures Rewrite("asin(x)") == "anp.sin(x)"
    ensures Rewrite("sinh(x)") == "np.sinh(x)"
    ensures Rewrite("x^2") == "x**2"
  {
    RewriteOfAsin("asin(x)", "anp.sin(x)");
    RewriteOfSinh("sinh(x)", "np.sinh(x)");
    RewriteOfPower("x^2", "x**2");
  }

  /** With a telltale character of every key missing, the rewrite is the identity. */
  lemma RewriteWithoutKeyChars(r: string)
    requires '^' !in r && 's' !in r
    requires 'c' !in r && 't' !in r && 'l' !in r && 'e' !in r && 'q' !in r && 'b' !in r
    ensures Rewrite(r) == r
  {
    RewriteFirstTwo(r);
    ReplaceAllMissingChar(r, "^", "**", '^');
    ReplaceAllMissingChar(r, "sin", "np.sin", 's');
    TailKeysAbsent(r);
  }

  lemma RejectsWholeRun(s: string)
    requires s == "np" || s == "x_"
    ensures Convert(s) == Failure(TypeError(InvalidFunctionInput))
  {
    TokensOfWord(s);
    assert s !in AllowedFunctions;
  }

  lemma RejectsSine(s: string)
    requires s == "sine(x)"
    ensures Convert(s) == Failure(TypeError(InvalidFunctionInput))
  {
    assert s == "sine" + ['('] + ("x" + [')'] + "");
    TokensSplit("sine", '(', "x" + [')'] + "");
    TokensSplit("x", ')', "");
    TokensOfWord("sine");
    TokensOfWord("x");
    assert Tokens(s)[0] == "sine" && "sine" !in AllowedFunctions;
  }

  lemma AcceptsLog10(s: string)
    requires s == "log10(x)"
    ensures Convert(s).Success?
  {
    assert s == "log" + ['1'] + ("" + ['0'] + ("" + ['('] + ("x" + [')'] + "")));
    TokensSplit("log", '1', "" + ['0'] + ("" + ['('] + ("x" + [')'] + "")));
    TokensSplit("", '0', "" + ['('] + ("x" + [')'] + ""));
    TokensSplit("", '(', "x" + [')'] + "");
    TokensSplit("x", ')', "");
    TokensOfWord("log");
    TokensOfWord("x");
    assert Tokens(s) == ["log", "x"];
  }

  lemma ConvertOfX2(s: string)
    requires s == "x2"
    ensures Convert(s) == Success(s)
  {
    assert s == "x" + ['2'] + "";
    TokensSplit("x", '2', "");
    TokensOfWord("x");
    assert AllWordsAllowed(s);
    RewriteWithoutKeyChars(s);
  }

  lemma RewriteOfConstant(s: string)
    requires s == "5"
    ensures Rewrite(s) == s
  {
    RewriteWithoutKeyChars(s);
  }

  lemma ConvertOfConstant(s: string)
    requires s == "5"
    ensures Convert(s) == Success("5+0*x")
  {
    assert s == "" + ['5'] + "";
    TokensSplit("", '5', "");
    assert AllWordsAllowed(s);
    RewriteOfConstant(s);
    assert 'x' !in s;
    assert s + ZeroTerm == "5+0*x";
  }

  lemma ExpCharsMissing(s: string, r: string)
    requires s == "exp(1)" && r == "np.exp(1)"
    ensures '^' !in s && 's' !in s && 'c' !in s && 't' !in s && 'l' !in s
    ensures 'q' !in r && 'b' !in r
  {
  }

  /** The first five keys all have a character that `r` lacks. */
  lemma HeadKeysAbsent(r: string)
    requires '^' !in r && 's' !in r && 'c' !in r && 't' !in r && 'l' !in r
    ensures ReplaceEach(r, Conversions) == ReplaceEach(r, Conversions[5..])
  {
    forall e | 0 <= e < 5 ensures !Contains(r, Conversions[e].0) {
      var c := if e == 0 then '^' else if e == 1 then 's' else if e == 2 then 'c'
               else if e == 3 then 't' else 'l';
      ReplaceAllMissingChar(r, Conversions[e].0, "", c);
    }
    ReplaceEachAbsentPrefix(r, Conversions, 5);
  }

  /** The last two keys both have a character that `r` lacks. */
  lemma LastKeysAbsent(r: string)
    requires 'q' !in r && 'b' !in r
    ensures ReplaceEach(r, Conversions[6..]) == r
  {
    var t := Conversions[6..];
    forall e | 0 <= e < |t| ensures !Contains(r, t[e].0) {
      ReplaceAllMissingChar(r, t[e].0, "", if e == 0 then 'q' else 'b');
    }
    ReplaceEachAbsentPrefix(r, t, |t|);
  }

  lemma ExpStepOfExp(s: string, r: string)
    requires s == "exp(1)" && r == "np.exp(1)"
    ensures ReplaceAll(s, "exp", "np.exp") == r
  {
    assert s == "exp" + "(1)";
    ReplaceAllHit("exp", "(1)", "np.exp");
    ReplaceAllMissingChar("(1)", "exp", "np.exp", 'e');
  }

  /** Only the `exp` entry matches in `exp(1)`. */
  lemma RewriteOfExp(s: string, r: string)
    requires s == "exp(1)" && r == "np.exp(1)"
    ensures Rewrite(s) == r
  {
    ExpCharsMissing(s, r);
    HeadKeysAbsent(s);
    assert Conversions[5..] == [("exp", "np.exp")] + Conversions[6..];
    ExpStepOfExp(s, r);
    LastKeysAbsent(r);
  }

  lemma TokensOfExpConstant(s: string)
    requires s == "exp(1)"
    ensures Tokens(s) == ["exp"]
  {
    assert s == "exp" + ['('] + ("" + ['1'] + ("" + [')'] + ""));
    TokensSplit("exp", '(', "" + ['1'] + ("" + [')'] + ""));
    TokensSplit("", '1', "" + [')'] + "");
    TokensSplit("", ')', "");
    TokensOfWord("exp");
  }

  lemma TokensOfExpCode(r: string)
    requires r == "np.exp(1)"
    ensures Tokens(r) == ["np", "exp"]
  {
    assert r == "np" + ['.'] + "exp(1)";
    TokensSplit("np", '.', "exp(1)");
    TokensOfWord("np");
    TokensOfExpConstant("exp(1)");
  }

  /** `exp(1)` is accepted and, since `np.exp` holds an `x`, nothing is appended,
      although the variable `x` is not among the runs of the result. */
  lemma ConvertOfExpConstant(s: string, r: string)
    requires s == "exp(1)" && r == "np.exp(1)"
    ensures Convert(s) == Success(r)
    ensures "x" !in Tokens(r)
  {
    TokensOfExpConstant(s);
    assert AllWordsAllowed(s);
    RewriteOfExp(s, r);
    assert r[4] == 'x';
    TokensOfExpCode(r);
  }

  /** Whole runs are checked: `np`, `sine` and `x_` are rejected. Digits end a run,
      so `log10` passes as `log` and `x2` as `x`. A constant gains the `+0*x` term,
      except one built with `exp`: the character test finds the `x` of `np.exp`. */
  lemma ValidationExamples()
    ensures Convert("np") == Failure(TypeError(InvalidFunctionInput))
    ensures Convert("x_") == Failure(TypeError(InvalidFunctionInput))
    ensures Convert("sine(x)") == Failure(TypeError(InvalidFunctionInput))
    ensures Convert("log10(x)").Success?
    ensures Convert("x2") == Success("x2")
    ensures Convert("5") == Success("5+0*x")
    ensures Convert("exp(1)") == Success("np.exp(1)") && "x" !in Tokens("np.exp(1)")
  {
    RejectsWholeRun("np");
    RejectsWholeRun("x_");
    RejectsSine("sine(x)");
    AcceptsLog10("log10(x)");
    ConvertOfX2("x2");
    ConvertOfConstant("5");
    ConvertOfExpConstant("exp(1)", "np.exp(1)");
  }
}
