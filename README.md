# TI-84 style calculator engine and grapher, in Dafny

This project models the two computational classes of a TI-84 style calculator written in Python and proves properties of the model.

`TI84Engine` (module `Ti84`, class `Ti84.Engine`) does the following:
- It translates calculator notation into a Python expression: it strips the text, substitutes `Ans`, `^`, `×`, `÷` and `√`, and rewrites postfix `!`.
- It hands the result to a restricted evaluator.
- It maps the evaluator's exceptions to the `ERROR: …` messages.
- It formats the result.
- It keeps one memory cell and a history bounded by `history_limit`.

`GraphingEngine` (module `Graphing`, class `Graphing.GraphingEngine`) does the following:
- It keeps the equation slots and the viewing window.
- It samples 400 equidistant x values.
- It evaluates each equation over them, with NaN where the calculator raises `TI84Error`.
- It finds approximate intersections of every pair of equations by sign changes of their difference, interpolating linearly between samples.

Supporting modules:
- `Text`: `str.strip` and `str.replace`.
- `Factorial`: the `re.sub` factorial rewrite, as a left-to-right scanner. It is checked against an independent description of the operands the pattern accepts.
- `Format`: Python floats, `_format_result`, and `str`/`int` round-tripping.
- `Order`: `sorted` over the string keys of a dict.
- `Wrappers`: `Option` and `Result`.

Python's `eval` and the `.10g` rendering of a finite float are foreign code. They are the two fields of `Ti84.Host`, and every operation takes them as given. Floats are `Format.Float`: an exact real, NaN, or a signed infinity.

In these places the code does not do what a reader might expect, and the model follows the code:
- `_evaluate_series` turns only a `TI84Error` into NaN, and `_find_intersections` skips only a `TI84Error`. Any other exception escapes and ends the series, the scan and `plot`. `_safe_eval` lets every exception other than `NameError` through. Examples are `ZeroDivisionError`, `ValueError`, `OverflowError`, Python's own `SyntaxError` and `TypeError`, and an `AttributeError` from `math.foo`. The functions return that exception as `Err`.
- `-1!` is rewritten to `-math.factorial(int(1))`, because the minus sign is not part of the operand. The expression therefore evaluates to `-1` and is not a math error (`Factorial.ExampleNegative`).
- `history_limit` of 0 or below follows Python's slice `[-limit:]`:
  - 0 keeps every entry.
  - A negative `-k` drops the `k` oldest entries.

## Model

| member | source | states |
|---|---|---|
| Text.Strip | ti84_engine.py:105 | The result is the contiguous middle of the input. It neither starts nor ends with whitespace. It is empty exactly when the input is all whitespace. |
| Text.StripIdempotent | graphing_engine.py:37-39 | Stripping an already stripped expression changes nothing, so a stored equation is its own strip. |
| Text.ReplaceAll | ti84_engine.py:116-117 | Defines `s.replace(pat, rep)` for a non-empty pattern. Occurrences are found from left to right, do not overlap, and are each replaced by `rep`. The lemmas below state its properties. |
| Text.ReplaceAllRemoves | ti84_engine.py:116-117 | After `s.replace(c, rep)` with `c` not in `rep`, no `c` is left. |
| Text.ReplaceAllChars | ti84_engine.py:116-117 | Every character of `s.replace(pat, rep)` comes from `s` or from `rep`. |
| Text.ReplaceAllAbsent | ti84_engine.py:116-117 | Text in which the pattern never occurs is returned unchanged. |
| Text.ReplaceAllKeepsAbsent | ti84_engine.py:116-117 | A character in neither `s` nor `rep` is not in the result. |
| Text.ReplaceAllAbsentChar | ti84_engine.py:116-117 | Replacing a one-character pattern that does not occur changes nothing. |
| Factorial.RewriteFactorials | ti84_engine.py:120-124 | Defines the `re.sub` call as a scan from position 0. |
| Factorial.RewriteFrom | ti84_engine.py:120-124 | Defines the scan from position `p`. Where the pattern matches, it emits `math.factorial(int(` operand `))` and resumes after the `!`. Elsewhere it copies one character. |
| Factorial.OperandBefore | ti84_engine.py:121 | The independent reference for the pattern: `s[p..q]` is a group without inner parentheses, an identifier at a word boundary, or a numeral, and `s[q]` is `!`. |
| Factorial.TargetEnd | ti84_engine.py:120-121 | Where the pattern matches at `p`, the index of the `!` it consumes, after `p`. |
| Factorial.TargetEndSound | ti84_engine.py:121 | A match at `p` ending at `q` covers a parenthesised group, an identifier starting at a word boundary, or a numeral, followed by `!`. |
| Factorial.ParenGroupAccepted | ti84_engine.py:121 | Every `(…)` without inner parentheses followed by `!` is matched, up to that `!`. |
| Factorial.IdentifierAccepted | ti84_engine.py:121 | Every identifier at a word boundary followed by `!` is matched, up to that `!`. |
| Factorial.NumeralAccepted | ti84_engine.py:121 | Every `\d+(\.\d+)?` followed by `!` is matched, up to that `!`. |
| Factorial.TargetEndIff | ti84_engine.py:120-124 | The pattern matches at `p` and consumes the `!` at `q` if and only if `s[p..q]` is an accepted operand and `s[q]` is `!`. |
| Factorial.RewritePreservesAbsence | ti84_engine.py:120-124 | A character in neither the input nor `math.factorial(int(` `))` is not in the output. |
| Factorial.RewriteWithoutBang | ti84_engine.py:120-124 | Without any `!`, the scan from any position returns the rest of the text unchanged. |
| Factorial.RewriteFactorialsFixesPlainText | ti84_engine.py:120-124 | Text without `!` is left as it is. |
| Factorial.ExampleNumber | ti84_engine.py:120-124 | `5!` becomes `math.factorial(int(5))`. |
| Factorial.ExampleGroup | ti84_engine.py:120-124 | `(2+3)!` becomes `math.factorial(int((2+3)))`. |
| Factorial.ExampleNegative | ti84_engine.py:120-124 | `-1!` becomes `-math.factorial(int(1))`. |
| Factorial.ExampleNoBoundary | ti84_engine.py:120-124 | `2x!` is left alone. `x` is not at a word boundary, and `2` is followed by `x`, not by `!`. |
| Format.Sub | graphing_engine.py:135 | The difference of two floats is finite exactly when both are, and then it is their difference. |
| Format.IntToString | ti84_engine.py:156 | Defines `str(n)` for an `int`: an optional `-`, then the decimal digits with no leading zero. |
| Format.ParseInt | ti84_engine.py:156 | The inverse used by the round trip: an optional `-` followed by decimal digits, read as an integer. |
| Format.IntToStringRoundTrip | ti84_engine.py:156 | `str(n)` reads back as `n`. |
| Format.FormatResult | ti84_engine.py:150-157 | Values below `1e-10` in magnitude show as `0`. Integral values below `1e4` show as a decimal integer that reads back as the value. Everything else uses the `.10g` rendering. NaN and the infinities show as `nan`, `inf`, `-inf`. |
| Format.FormatIntegral | ti84_engine.py:155-156 | An integer strictly between -10000 and 10000 is shown as `str(n)`. |
| Format.FormatTwo | ti84_engine.py:155-156 | The value 2.0 is shown as `2`. |
| Ti84.AnsText | ti84_engine.py:110 | Defines the text substituted for `Ans`: the value of the last history entry, or `0` when the history is empty. |
| Ti84.Replacements | ti84_engine.py:109-115 | The five replacements in the order applied: `Ans`, `^`, `×`, `÷`, `√`. No pattern is empty. |
| Ti84.ReplaceEach | ti84_engine.py:116-117 | Defines the replacement loop: each `s.replace(pat, rep)` in turn, left to right. |
| Ti84.Prepared | ti84_engine.py:103-126 | Translation fails, with `ERROR: SYNTAX`, exactly when the expression is all whitespace. |
| Ti84.PreparedHasNoGlyphs | ti84_engine.py:109-124 | A translated expression contains none of `^`, `×`, `÷`, `√`. |
| Ti84.ReplaceEachRemoves | ti84_engine.py:116-117 | Once a replacement removes a one-character pattern, no later replacement text brings it back. |
| Ti84.ReplaceEachKeepsAbsent | ti84_engine.py:116-117 | A character in neither the text nor any replacement text stays absent. |
| Ti84.GlyphSlot | ti84_engine.py:109-115 | Each glyph has its own replacement after `Ans`, and no later replacement text contains it. |
| Ti84.ExampleAnsPower | ti84_engine.py:103-126 | ` Ans^2 ` with last answer `7` becomes `7**2`. `Ans` is substituted first and `^` second. |
| Ti84.ExampleReplacements | ti84_engine.py:109-117 | The replacement chain turns `Ans^2` with last answer `7` into `7**2`. |
| Ti84.SafeEval | ti84_engine.py:144-148 | A `NameError` from `eval`, and nothing else, becomes `TI84Error("ERROR: SYNTAX")`. Other exceptions pass through unchanged. A returned value is returned. |
| Ti84.EvaluateAt | ti84_engine.py:128-131 | A blank expression raises `TI84Error("ERROR: SYNTAX")`. Every `TI84Error` it raises carries that message. A non-blank expression gives `_safe_eval` of its translation, with `M` the memory and `x` bound to the given value. |
| Ti84.ErrorMessage | ti84_engine.py:84-91 | `ZeroDivisionError` maps to `ERROR: DIVIDE BY 0`, `ValueError` to `ERROR: MATH` and `OverflowError` to `ERROR: OVERFLOW`. Everything else, a `TI84Error` included, maps to `ERROR: SYNTAX`. |
| Ti84.EvaluateSpec | ti84_engine.py:79-95 | It succeeds exactly when the expression is not blank and `eval` returns. The entry holds the raw input and the formatted value. Every failure carries one of the four messages. `ZeroDivisionError` gives `ERROR: DIVIDE BY 0`, `ValueError` gives `ERROR: MATH`, `OverflowError` gives `ERROR: OVERFLOW`, and `NameError` or any other exception gives `ERROR: SYNTAX`. |
| Ti84.SliceFrom | ti84_engine.py:101 | Python's `s[start:]` for negative and non-negative `start`, clamped to the sequence. |
| Ti84.Appended | ti84_engine.py:97-101 | Defines `_append_history`: the entry is appended, then the history is cut to `[-history_limit:]` when it is longer than the limit. The lemmas below state its properties. |
| Ti84.AppendedAll | ti84_engine.py:97-101 | Defines the history after a sequence of appends, one `Appended` after another. |
| Ti84.AppendedKeepsNewest | ti84_engine.py:97-101 | For a positive limit, the history keeps the newest `min(len + 1, limit)` entries in order, and the new entry comes last. |
| Ti84.AppendedAllKeepsNewest | ti84_engine.py:97-101 | After any number of appends to a history within a positive limit, the history is exactly the newest `limit` entries ever appended. |
| Ti84.NewestOfNewest | ti84_engine.py:100-101 | Truncating to the newest `n`, appending, and truncating again equals appending, then truncating once. |
| Ti84.AppendedZeroLimitKeepsAll | ti84_engine.py:100-101 | With `history_limit = 0` nothing is ever evicted. |
| Ti84.AppendedNegativeLimit | ti84_engine.py:100-101 | With `history_limit = -k` the `k` oldest entries are dropped. |
| Ti84.Engine.constructor | ti84_engine.py:26-28 | A fresh engine has memory 0, an empty history and the given `history_limit`, by default 20. |
| Ti84.Engine.ClearMemory | ti84_engine.py:63-65 | Memory becomes 0. The history is unchanged. |
| Ti84.Engine.AddToMemory | ti84_engine.py:67-69 | Memory grows by the value. |
| Ti84.Engine.SubtractFromMemory | ti84_engine.py:71-73 | Memory shrinks by the value. |
| Ti84.Engine.RecallMemory | ti84_engine.py:75-77 | Returns the memory without changing anything. |
| Ti84.Engine.PrepareExpression | ti84_engine.py:103-126 | The replacement loop computes `Prepared` with the current `Ans` text. |
| Ti84.Engine.EvaluateFunction | ti84_engine.py:128-131 | Evaluation with `x` bound. It reads the memory and the history and changes neither. |
| Ti84.Engine.AppendHistory | ti84_engine.py:97-101 | The new history is `Appended`, and it is within any positive limit afterwards. |
| Ti84.Engine.Evaluate | ti84_engine.py:79-95 | The result is `EvaluateSpec` of the current state. On success exactly one entry is appended. On failure the history is unchanged. The memory never changes. |
| Order.Less | graphing_engine.py:105 | Defines the order `sorted` uses on strings: lexicographic by code point, with a proper prefix first. |
| Order.LessTotal | graphing_engine.py:105 | The string order is total. |
| Order.LessTransitive | graphing_engine.py:105 | The string order is transitive. |
| Order.LessIrreflexive | graphing_engine.py:105 | No string is less than itself. |
| Order.SortedKeys | graphing_engine.py:72 | `sorted` yields each key exactly once, in strictly increasing order. |
| Order.StrictlySorted | graphing_engine.py:105 | Each element is less than every later one. |
| Graphing.WithEquation | graphing_engine.py:35-41 | A non-blank expression is stored stripped. A blank one clears the slot. Other slots are untouched, and stored equations stay non-empty and stripped. |
| Graphing.GraphWindow.AsTuple | graphing_engine.py:22-24 | Defines `as_tuple`: the bounds in the order `(xmin, xmax, ymin, ymax)`. |
| Graphing.CheckedWindow | graphing_engine.py:47-51 | `ERROR: WINDOW` exactly when `xmin >= xmax` or `ymin >= ymax`. Otherwise the window holds the four bounds and is valid. |
| Graphing.GeneratePoints | graphing_engine.py:84-87 | `count` points, or none for `count <= 0`. |
| Graphing.GeneratePointsSpan | graphing_engine.py:84-87 | The first point is `start`, consecutive points are `step` apart, and for `count > 1` the last point is `stop`. |
| Graphing.GeneratePointsOrdered | graphing_engine.py:84-87 | For `start < stop` the points increase strictly and lie within `[start, stop]`. |
| Graphing.At | graphing_engine.py:94 | Defines one call of `evaluate_function(expression, x_value=x)` on the calculator's current memory and history. |
| Graphing.Escapes | graphing_engine.py:93-96 | An outcome escapes the `except TI84Error` handler when it is any exception other than `TI84Error`. |
| Graphing.Series | graphing_engine.py:89-98 | Defines `_evaluate_series`: one value per point, in order, NaN for a `TI84Error`, and the first other exception ends it. Its properties are `SeriesOkIff`, `SeriesValues` and `SeriesFirstEscape`. |
| Graphing.SeriesOkIff | graphing_engine.py:89-98 | The series succeeds if and only if no point raises an exception other than `TI84Error`. |
| Graphing.SeriesValues | graphing_engine.py:89-98 | A successful series has one value per point. It is NaN where a `TI84Error` was raised and the evaluated value elsewhere. |
| Graphing.SeriesFirstEscape | graphing_engine.py:89-98 | A failing series raises the exception of its first escaping point. |
| Graphing.Proportion | graphing_engine.py:142 | The proportion lies in `[0, 1)`. At a sign change it is where the straight line between the two differences is zero. |
| Graphing.Interpolate | graphing_engine.py:141-145 | Both coordinates are interpolated at the same `Proportion`. The x lies between the two samples, short of the new one, and the y lies between the first expression's two values. |
| Graphing.Record | graphing_engine.py:138-148 | Defines one valid sample. A zero difference after a valid sample records `(x, y_a)`. A sign change records the interpolated point. The sample then becomes the last one. |
| Graphing.Visit | graphing_engine.py:130-148 | Defines the loop body. A `TI84Error` from either expression skips the point, another exception escapes, and a NaN or infinite difference skips the point. Otherwise it is `Record`. |
| Graphing.ScanFrom | graphing_engine.py:129-148 | Defines the loop over the remaining points, stopping at the first escaping exception. |
| Graphing.Intersections | graphing_engine.py:121-149 | Defines `_find_intersections`: the points recorded by the scan from the start state, or the escaping exception. |
| Graphing.NoEscapeAt | graphing_engine.py:130-134 | At `x`, `expr_a` raises nothing but `TI84Error`, and if it returns, so does `expr_b`. `expr_b` is only evaluated after `expr_a` returns. |
| Graphing.VisitOkIff | graphing_engine.py:130-134 | One loop step returns exactly when `NoEscapeAt` holds at its point. |
| Graphing.ScanFromOkIff | graphing_engine.py:129-148 | The scan returns exactly when `NoEscapeAt` holds at every point, from any start state. |
| Graphing.IntersectionsOkIff | graphing_engine.py:121-149 | `_find_intersections` returns exactly when, at every point, no exception other than `TI84Error` escapes either expression. |
| Graphing.RecordAtMostOne | graphing_engine.py:138-148 | A valid sample records at most one point, keeps earlier ones, and becomes the last sample. |
| Graphing.RecordFirstSample | graphing_engine.py:138-140 | Nothing is recorded at the first valid sample, even at a zero difference. |
| Graphing.RecordZero | graphing_engine.py:138-139 | An exact zero after a valid sample records `(x, y_a)`. |
| Graphing.RecordSignChange | graphing_engine.py:140-145 | A sign change records one interpolated point whose x is in `[last_x, x)`. |
| Graphing.ZeroThenPositive | graphing_engine.py:138-145 | A zero followed by a positive difference records the zero's sample twice. |
| Graphing.ZeroThenNegative | graphing_engine.py:138-145 | A zero followed by a negative difference records nothing more. |
| Graphing.VisitSkips | graphing_engine.py:130-137 | A `TI84Error` from either expression, or a NaN or infinite difference, leaves the loop state as it was. |
| Graphing.IntersectionsAtMostOnePerSample | graphing_engine.py:121-149 | The points found number at most one less than the samples at which both expressions are finite. |
| Graphing.IntersectionsWithin | graphing_engine.py:121-149 | Every point found lies, in x, within any interval holding all the samples. |
| Graphing.RowMarks | graphing_engine.py:107-110 | Defines the inner loop for row `i`: the intersections of labels `i` and `j`, then those of the later columns. The first escaping exception ends it. |
| Graphing.MarksFrom | graphing_engine.py:106-110 | Defines the outer loop: the row marks of row `i`, then those of the later rows. |
| Graphing.RowFromCount | graphing_engine.py:107 | The inner loop visits each `(i, j)` with `j0 <= j < n` exactly once. |
| Graphing.PairsFromCount | graphing_engine.py:106-107 | The nested loops visit each pair `a < b` with `i <= a` exactly once, and no other pair. |
| Graphing.MarksOfAppend | graphing_engine.py:106-110 | The marks of two runs of pairs are those of the first, then those of the second. |
| Graphing.Annotations | graphing_engine.py:102-103 | With fewer than two equations nothing is marked. |
| Graphing.AnnotationsVisitEachPairOnce | graphing_engine.py:100-110 | With two or more equations, the marks are those of the pairs `i < j` of sorted labels in loop order. Each such pair is visited exactly once. |
| Graphing.Curves | graphing_engine.py:72-74 | Defines the loop of `plot` over the sorted labels from position `k`: one `(label, series)` per label, ending at the first escaping exception. |
| Graphing.CurvesOkIff | graphing_engine.py:72-74 | The curves are produced exactly when every label's series succeeds. |
| Graphing.CurvesPerLabel | graphing_engine.py:72-74 | One curve per label, in label order, each holding that label's series. |
| Graphing.PlotCurves | graphing_engine.py:71-74 | The curves `plot` draws are the series of the sorted labels over the 400 points, in order. |
| Graphing.PlotSpec | graphing_engine.py:57-76 | `ERROR: NO FUNCTION` exactly when there is no equation. Otherwise the figure's window is the current one, and its x values are the 400 generated points. It holds one curve per sorted label, with that label's series, and the intersection marks are `Annotations`. With equations, every failure is an exception escaping from the evaluator. |
| Graphing.LabelsCover | graphing_engine.py:72 | Every sorted label's series returns exactly when every slot's series does. |
| Graphing.PlotOkIff | graphing_engine.py:57-76 | With at least one equation, `plot` returns exactly when every equation's series returns and the annotation returns. |
| Graphing.GraphingEngine.constructor | graphing_engine.py:31-33 | No equations and the default window `(-10, 10, -10, 10)`. |
| Graphing.GraphingEngine.SetEquation | graphing_engine.py:35-41 | The slots become `WithEquation` of the old ones. The window is unchanged. |
| Graphing.GraphingEngine.GetEquations | graphing_engine.py:43-45 | Returns the slots and changes nothing. |
| Graphing.GraphingEngine.SetWindow | graphing_engine.py:47-51 | It raises `ERROR: WINDOW` exactly when `CheckedWindow` fails, and then the window is unchanged. Otherwise the window holds the four bounds. |
| Graphing.GraphingEngine.AutoWindow | graphing_engine.py:53-55 | The window becomes the default window. |
| Graphing.GraphingEngine.EvaluateSeries | graphing_engine.py:89-98 | The loop computes `Series`. |
| Graphing.GraphingEngine.FindIntersections | graphing_engine.py:121-149 | The loop over `last_diff`, `last_x` and `last_y` computes `Intersections`. |
| Graphing.GraphingEngine.AnnotateIntersections | graphing_engine.py:100-110 | The nested loops compute `Annotations`: the marks of every pair, in order. |
| Graphing.GraphingEngine.Plot | graphing_engine.py:57-76 | Returns `PlotSpec`: one curve per sorted label, then the intersection marks. |

## Left out

- `ui.py` and `simple_calculator.py` are not part of this model.
- Drawing with matplotlib: `plot` returns the window, the x values, the curves and the marks it would draw. Axes, labels and the text of annotations are not modelled.
- Python's `eval` over the restricted namespace is a parameter (`Ti84.Host.eval`). The mathematical functions and constants of the namespace, and the `float(...)` conversion, lie inside it.
- `f"{value:.10g}"` on a finite float is a parameter (`Ti84.Host.sig10`).
- IEEE rounding and overflow: finite floats are exact reals, so `_generate_points` and the interpolation are exact.
- Graphing.GraphingEngine.SetWindow: like the rest of the model, it takes real bounds and does not model NaN bounds, which pass Python's comparison guard.
- Regex classes `\w` and `\d` are modelled on ASCII plus `π`. The wider Unicode classes Python uses are not modelled.
- The dataclass constructors' other arguments (an initial memory, history, equation map or window) are not modelled. A new engine starts from the defaults.
- Ti84.Engine.AddToMemory: memory is a real. Adding NaN or an infinity is not modelled.
