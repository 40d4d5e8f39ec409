# FunctionPlotter core, modelled in Dafny

FunctionPlotter is a Qt widget (`Plotter.py`). The user types an expression in
`x`, picks x and y limits in four spin boxes, and gets a matplotlib plot. This
project models the two parts of the widget that are logic rather than toolkit
calls. It proves what they do.

1. **The expression front end of `convertStringToFunction`**, up to the `eval`.
   - Tokenise: `re.findall('[a-zA-Z_]+', s)` becomes `WordRuns.Tokens`. It is
     proved equal to the set of maximal `[a-zA-Z_]` runs, and any other
     character is proved to split the token list.
   - Validate: every run must be in `allowedFunctions`, otherwise a
     `TypeError("Invalid function Input")` is raised.
   - Rewrite: Python `str.replace` (`StrReplace.ReplaceAll`) is applied once per
     entry of `stringFunctionConversions`, in dict insertion order
     (`FunctionInput.ReplaceEach`, a left fold over the table).
   - Append `+0*x` when the text has no `x` character.

   The procedure itself is `FunctionInput.ConvertStringToFunction`: a method with
   the source's two loops. It is proved equal to the functional specification
   `FunctionInput.Convert`. The model's output is the rewritten expression text.
2. **The bound guard and dispatch of `Plotter.onChange(index)`.** The class
   `Plotter.Plotter` holds the four spin-box values as `real` fields, plus the
   text of the function box. `OnChange` assigns the corrected bound the way
   `setValue` does. It returns an `Outcome`: an error dialog (title and text),
   a plot, or nothing. It is proved against two functions of the old state:
   `NextLimits` (the new bounds) and `Respond` (the outcome).

## Behaviour worth knowing

- The substitutions run in the dict's insertion order `^, sin, cos, tan, log,
  exp, sqrt, abs` (Plotter.py:56-65). Each one works on the output of the one
  before it.
- Replacement works on substrings. So `asin`, `acos` and `atan` become
  `anp.sin`, `anp.cos` and `anp.tan`. `sinh`, `cosh`, `tanh` and `log10`
  become `np.sinh`, `np.cosh`, `np.tanh` and `np.log10`. Plotter.py imports
  numpy only as `np` (Plotter.py:22). The `eval` at Plotter.py:166 sees the
  module globals and `x`, and neither holds an `anp`. An expression using
  `asin`, `acos` or `atan` therefore passes the whitelist but always ends in a
  `NameError` and the "Function Error!" dialog.
- The `+0*x` test (Plotter.py:162) looks for the character `x`, not for the
  variable. `exp` is rewritten to `np.exp`, which contains an `x`. So `exp(1)`
  becomes `np.exp(1)` with nothing appended, and its runs are `np` and `exp`
  only (`FunctionInput.ValidationExamples`). Evaluating it gives one number,
  not one value per sample.
- The plot samples `np.linspace(min, max)` over the current x limits
  (Plotter.py:217). The model carries the limits, not the samples.
- Within one call of `onChange`, a min-bound event (index 1 or 3) on an
  inverted axis sets max to max - 1, which leaves max below min. Only a
  max-bound event (index 2 or 4) sets max = min + 1 within its call. The
  `setValue` at Plotter.py:185 and :201 makes the spin box emit
  `valueChanged`. Plotter.py:174 and :176 connect that signal to
  `onChange(2)` and `onChange(4)`, and that nested call sets max = min + 1
  before the min-bound call returns. For example, bounds (-10, 10) with min
  set to 20 end at max 21. This cascade is not modelled (see "## Left out");
  `Plotter.MinCorrectionThenMaxEvent` states its second step.

## Model

| member | source | states |
|---|---|---|
| `StrReplace.ReplaceAllAbsentKey` | Plotter.py:160-161 | `s.replace(k, v)` returns `s` unchanged when `k` does not occur in `s` |
| `StrReplace.ReplaceAllGrows` | Plotter.py:160-161 | if the replacement is longer than the key, replacing never shortens the text, and it lengthens it strictly when the key occurs |
| `StrReplace.ReplaceAllUnchangedIff` | Plotter.py:160-161 | if the replacement is longer than the key, `s.replace(k, v) == s` exactly when `k` does not occur in `s` |
| `StrReplace.ReplaceAllKeepsCharOut` | Plotter.py:160-161 | a character absent from the text and from the replacement is absent after replacing |
| `StrReplace.ReplaceAllRemovesChar` | Plotter.py:57 | replacing a one-character key by a string without that character removes every occurrence of it (`^` by `**`) |
| `WordRuns.RunEnd` | Plotter.py:157 | the run starting at `i` ends at the first position at or after `i` that is not in `[a-zA-Z_]`, and every character before it is |
| `WordRuns.TokensFrom` | Plotter.py:157 | every token found is non-empty and made only of `[a-zA-Z_]` characters |
| `WordRuns.TokensAreMaximalRuns` | Plotter.py:157 | a string is a token of `s` exactly when it is the text of a maximal `[a-zA-Z_]` run of `s` |
| `WordRuns.TokensSplit` | Plotter.py:157 | a character outside `[a-zA-Z_]` (digit, operator, bracket) always ends a run: the tokens of `p + [c] + q` are those of `p` followed by those of `q` |
| `WordRuns.TokensOfWord` | Plotter.py:157 | a non-empty run of word characters is exactly one token, so `sine` and `x_` are checked whole |
| `FunctionInput.OperatorEntriesNeverMatch` | Plotter.py:33-54 | no token is ever one of the operator entries `+ - * / ^` of the whitelist, so those entries admit nothing |
| `FunctionInput.AllWordsAllowedIff` | Plotter.py:157-159 | the loop over tokens passes exactly when every maximal `[a-zA-Z_]` run is a whitelisted name |
| `FunctionInput.ReplaceEachKeepsCharOut` | Plotter.py:160-161 | folding replacements over a table keeps out a character absent from the text and from every replacement |
| `FunctionInput.ReplaceEachUnchangedIff` | Plotter.py:160-161 | a fold over a table with replacements longer than their keys never shortens the text, and leaves it unchanged exactly when no key occurs in it |
| `FunctionInput.ReplaceEachAbsentPrefix` | Plotter.py:160-161 | leading table entries whose keys do not occur in the text leave it as it is, so the fold equals the fold over the remaining entries |
| `FunctionInput.RewriteHasNoCaret` | Plotter.py:56-65 | after the table rewrite the text contains no `^`: `^` becomes `**` and no later replacement holds `^` |
| `FunctionInput.RewriteUnchangedIff` | Plotter.py:160-161 | the table rewrite returns its input unchanged exactly when none of `^, sin, cos, tan, log, exp, sqrt, abs` occurs in it |
| `FunctionInput.RewriteExamples` | Plotter.py:56-65 | keys are replaced inside longer names: `asin(x)` becomes `anp.sin(x)`, `sinh(x)` becomes `np.sinh(x)`; `x^2` becomes `x**2` |
| `FunctionInput.AppendVariable` | Plotter.py:162-163 | the result always contains `x`; it equals the input exactly when the input contains `x`, and otherwise is the input followed by `+0*x` |
| `FunctionInput.Convert` | Plotter.py:156-163 | the conversion fails, with `TypeError("Invalid function Input")`, exactly when some maximal `[a-zA-Z_]` run is not whitelisted; on success the text contains `x`, contains no `^`, and starts with the rewritten input |
| `FunctionInput.ConvertStringToFunction` | Plotter.py:156-163 | the two loops (early exit on the first bad token; reassigning the text once per table entry) and the append compute exactly `Convert` |
| `FunctionInput.ValidationExamples` | Plotter.py:156-163 | `np`, `x_` and `sine(x)` are rejected; `log10(x)` passes (checked as `log` and `x`); `x2` passes unchanged; `5` becomes `5+0*x`; `exp(1)` becomes `np.exp(1)` with nothing appended, and `x` is not among its runs |
| `Plotter.NextLimits` | Plotter.py:184-214 | a max event (2 or 4) on an inverted axis sets max to min + 1 and leaves max > min; a min event (1 or 3) sets max to max - 1 and leaves max <= min; min and the other axis never change; with no inverted axis involved, or on index 5, nothing changes |
| `Plotter.Respond` | Plotter.py:182-243 | each correction reports "x limits Error!" or "y limits Error!" with the min or max text; only index 5 can plot, and it gives a plot outcome exactly when conversion succeeds and evaluation does not fail, over the current limits; a failure shows "Function Error!" with the exception text; other events show nothing |
| `Plotter.OrderedLimitsAreStable` | Plotter.py:184-214 | with max > min on both axes, no event changes a bound or reports a limits error |
| `Plotter.MinCorrectionThenMaxEvent` | Plotter.py:184-198 | a min-event correction leaves the axis inverted, and a following max event sets max to min + 1 |
| `Plotter.EqualBoundsExample` | testing.py:66-69 | with x min and max both 1, the max event sets max to 2 and reports "x limits Error!" |
| `Plotter.Plotter.constructor` | Plotter.py:94-113 | both axes start at (-10, 10) and the function text at `x` |
| `Plotter.Plotter.SetFunctionText` | testing.py:32-34 | setting the function text stores it as given and leaves the bounds alone |
| `Plotter.Plotter.OnChange` | Plotter.py:181-243 | the new bounds are `NextLimits` of the old ones, the function text is unchanged, and the outcome is `Respond` of the old state |

## Left out

- `eval(string)` and the closure it returns (Plotter.py:165-168) are not modelled. The model's output is the rewritten text. `Plotter.Plotter.OnChange` takes the way evaluation ends as a parameter (`None`, or `Some(text)` for an exception). The source catches every exception class the same way.
- `np.linspace` sampling (Plotter.py:183, 217) and the floating-point values of the plotted function are left out. A plot outcome carries the rewritten text and the four limits.
- The matplotlib calls (Plotter.py:236-243) are left out: axis labels, grid state and plot title are not carried in the outcome. The theme image written by `savefig` (Plotter.py:89-90) is also left out.
- Qt widget construction and layout (Plotter.py:70-154) are left out, and so is showing the dialog. The signal wiring (Plotter.py:173-179) appears only as the event-index constants.
- Re-entrancy is not modelled. `setValue` inside `onChange` makes Qt emit `valueChanged`, which runs `onChange` again. `Plotter.MinCorrectionThenMaxEvent` states what such a follow-up max event does.
- `Plotter.Respond`: a `Plot` outcome assumes that drawing succeeds. The drawing calls (Plotter.py:236-243) run outside the `try` at Plotter.py:218-234, so an exception there is not caught and no dialog is shown. A constant expression built with `exp`, such as `exp(1)`, gets no `+0*x` and evaluates to a single number. `self.axes.plot(x, y)` then raises because x has 50 samples and y has one. The model returns `Plot` for it.
- Spin boxes are modelled as exact reals. The model does not capture clamping to (-1000, 1000) (Plotter.py:101-102), rounding to the spin box's decimals, or IEEE double arithmetic for `± 1`.
- `Plotter.NextLimits`: its max > min after a max-event correction does not hold in the program at the edge of the range, because of that clamping. With min at 1000, `setValue(min + 1)` is clamped to 1000 and the axis stays inverted. With max at -1000, a min event's `setValue(max - 1)` does not change the value, so no `valueChanged` signal fires either.
- `StrReplace.ReplaceAll` covers only non-empty keys. Python's rule for an empty key is not modelled, because every key in the table is non-empty.

## Findings

None. The code as written is modelled throughout. Its behaviour on `asin`,
`acos`, `atan` and constant `exp` expressions is listed under "Behaviour worth
knowing" and proved in `FunctionInput.RewriteExamples` and
`FunctionInput.ValidationExamples`.
