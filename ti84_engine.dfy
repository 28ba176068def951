/** `TI84Engine`: expression translation, the restricted evaluator boundary,
    error classification, result formatting, memory and the bounded history. */
module Ti84 {
  import opened Wrappers
  import opened Text
  import opened Factorial
  import opened Format

  const ErrSyntax: string := "ERROR: SYNTAX"
  const ErrDivideByZero: string := "ERROR: DIVIDE BY 0"
  const ErrMath: string := "ERROR: MATH"
  const ErrOverflow: string := "ERROR: OVERFLOW"

  const DefaultHistoryLimit: int := 20

  /** The exception classes the engine tells apart among those that Python's
      `eval` (or the `float(...)` conversion of its result) can raise. */
  datatype PyException = ZeroDivisionError | ValueError | OverflowError | NameError | OtherException

  /** What a failing call raises: a Python exception passing through, or a `TI84Error`. */
  datatype Failure = Raised(kind: PyException) | TI84Error(message: string)

  /** The live bindings of the restricted namespace: `M`, and `x` when graphing.
      The fixed functions and constants are part of the host evaluator. */
  datatype Env = Env(memory: real, x: Option<real>)

  /** What the host evaluator does with a translated expression. */
  datatype Outcome = Returned(value: Float) | Raise(kind: PyException)

  /** The foreign parts of the engine: `float(eval(expr, {"__builtins__": {}}, names))`
      over the whitelisted namespace, and the `.10g` rendering of a finite float. */
  datatype Host = Host(eval: (string, Env) -> Outcome, sig10: real -> string)

  datatype EvaluationResult = EvaluationResult(expression: string, value: string)

  // ---------------------------------------------------------------------------
  // prepare_expression

  const Glyphs: set<char> := {'^', '\U{00D7}', '\U{00F7}', '\U{221A}'}

  /** The text that replaces `Ans`: the last history value, or `0`. */
  function AnsText(history: seq<EvaluationResult>): string
  {
    if history == [] then "0" else history[|history| - 1].value
  }

  /** The textual replacements, in the order they are applied. */
  function Replacements(ans: string): (reps: seq<(string, string)>)
    ensures forall j :: 0 <= j < |reps| ==> reps[j].0 != []
  {
    [("Ans", ans), ("^", "**"), ("\U{00D7}", "*"), ("\U{00F7}", "/"), ("\U{221A}", "sqrt")]
  }

  /** `for pat, rep in reps: s = s.replace(pat, rep)`. */
  function ReplaceEach(s: string, reps: seq<(string, string)>): string
    requires forall i :: 0 <= i < |reps| ==> reps[i].0 != []
    decreases |reps|
  {
    if reps == [] then s else ReplaceEach(ReplaceAll(s, reps[0].0, reps[0].1), reps[1..])
  }

  /** `prepare_expression`, with the `Ans` text given. */
  function Prepared(expression: string, ans: string): (r: Result<string, string>)
    ensures r.Err? <==> IsBlank(expression)
    ensures r.Err? ==> r.error == ErrSyntax
  {
    var expr := Strip(expression);
    if expr == [] then Err(ErrSyntax)
    else Ok(RewriteFactorials(ReplaceEach(expr, Replacements(ans))))
  }

  /** Once some replacement removes the one-character pattern `[c]`, no later
      replacement text brings `c` back. */
  lemma {:induction false} ReplaceEachRemoves(s: string, reps: seq<(string, string)>, i: nat, c: char)
    requires forall j :: 0 <= j < |reps| ==> reps[j].0 != []
    requires i < |reps| && reps[i].0 == [c]
    requires forall j :: i <= j < |reps| ==> c !in reps[j].1
    ensures c !in ReplaceEach(s, reps)
    decreases |reps|
  {
    var t := ReplaceAll(s, reps[0].0, reps[0].1);
    if i == 0 {
      ReplaceAllRemoves(s, c, reps[0].1);
      ReplaceEachKeepsAbsent(t, reps[1..], c);
    } else {
      ReplaceEachRemoves(t, reps[1..], i - 1, c);
    }
  }

  lemma {:induction false} ReplaceEachKeepsAbsent(s: string, reps: seq<(string, string)>, c: char)
    requires forall j :: 0 <= j < |reps| ==> reps[j].0 != []
    requires c !in s && forall j :: 0 <= j < |reps| ==> c !in reps[j].1
    ensures c !in ReplaceEach(s, reps)
    decreases |reps|
  {
    if reps != [] {
      ReplaceAllKeepsAbsent(s, reps[0].0, reps[0].1, c);
      ReplaceEachKeepsAbsent(ReplaceAll(s, reps[0].0, reps[0].1), reps[1..], c);
    }
  }

  /** A translated expression contains none of `^`, `×`, `÷`, `√`. */
  lemma PreparedHasNoGlyphs(expression: string, ans: string, c: char)
    requires Prepared(expression, ans).Ok?
    requires c in Glyphs
    ensures c !in Prepared(expression, ans).value
  {
    var reps := Replacements(ans);
    var i := GlyphSlot(ans, c);
    ReplaceEachRemoves(Strip(expression), reps, i, c);
    GlyphsNotInWrapper(c);
    RewritePreservesAbsence(ReplaceEach(Strip(expression), reps), c);
  }

  /** The replacement that removes the glyph `c`; no later one brings it back. */
  lemma GlyphSlot(ans: string, c: char) returns (i: nat)
    requires c in Glyphs
    ensures forall j :: 0 <= j < |Replacements(ans)| ==> Replacements(ans)[j].0 != []
    ensures 1 <= i < |Replacements(ans)| && Replacements(ans)[i].0 == [c]
    ensures forall j :: i <= j < |Replacements(ans)| ==> c !in Replacements(ans)[j].1
  {
    var reps := Replacements(ans);
    assert reps[1] == ("^", "**") && reps[2] == ("\U{00D7}", "*");
    assert reps[3] == ("\U{00F7}", "/") && reps[4] == ("\U{221A}", "sqrt");
    i := if c == '^' then 1 else if c == '\U{00D7}' then 2 else if c == '\U{00F7}' then 3 else 4;
  }

  lemma GlyphsNotInWrapper(c: char)
    requires c in Glyphs
    ensures c !in Prefix + Suffix
  {
    assert Prefix + Suffix == "math.factorial(int(" + "))";
  }

  /** Replacements whose patterns are single characters absent from `s` leave it as it is. */
  lemma {:induction false} ReplaceEachAbsentChars(s: string, reps: seq<(string, string)>)
    requires forall j :: 0 <= j < |reps| ==> |reps[j].0| == 1 && reps[j].0[0] !in s
    ensures forall j :: 0 <= j < |reps| ==> reps[j].0 != []
    ensures ReplaceEach(s, reps) == s
    decreases |reps|
  {
    if reps != [] {
      var c := reps[0].0[0];
      assert reps[0].0 == [c];
      ReplaceAllAbsentChar(s, c, reps[0].1);
      ReplaceEachAbsentChars(s, reps[1..]);
    }
  }

  lemma ExampleAnsStep()
    ensures ReplaceAll("Ans^2", "Ans", "7") == "7^2"
  {
    assert ReplaceAll("^2", "Ans", "7") == "^2";
  }

  lemma ExamplePowerStep()
    ensures ReplaceAll("7^2", "^", "**") == "7**2"
  {
    ReplaceAllAbsentChar("2", '^', "**");
    assert ReplaceAll("^2", "^", "**") == "**2";
  }

  /** One step of `ReplaceEach`. */
  lemma ReplaceEachStep(s: string, reps: seq<(string, string)>, t: string)
    requires forall j :: 0 <= j < |reps| ==> reps[j].0 != []
    requires reps != [] && ReplaceAll(s, reps[0].0, reps[0].1) == t
    ensures ReplaceEach(s, reps) == ReplaceEach(t, reps[1..])
  {
  }

  lemma ExampleReplacements()
    ensures ReplaceEach("Ans^2", Replacements("7")) == "7**2"
  {
    var reps := Replacements("7");
    var tail := reps[1..];
    assert tail[0] == ("^", "**") && tail[1..] == reps[2..];
    ExampleAnsStep();
    ReplaceEachStep("Ans^2", reps, "7^2");
    ExamplePowerStep();
    ReplaceEachStep("7^2", tail, "7**2");
    ReplaceEachAbsentChars("7**2", reps[2..]);
  }

  /** `Ans` is replaced before the operators: `Ans^2` with last answer `7` becomes `7**2`. */
  lemma ExampleAnsPower()
    ensures Prepared(" Ans^2 ", "7") == Ok("7**2")
  {
    ExampleStrip();
    ExampleReplacements();
    RewriteFactorialsFixesPlainText("7**2");
  }

  lemma ExampleStrip()
    ensures Strip(" Ans^2 ") == "Ans^2"
  {
    var s := " Ans^2 ";
    assert LeadingSpaces(s) == 1;
    assert TrailingSpaces(s[1..]) == 1;
  }

  // ---------------------------------------------------------------------------
  // _safe_eval, evaluate_function and the error mapping of evaluate

  /** `_safe_eval`: a `NameError` from `eval` becomes `TI84Error("ERROR: SYNTAX")`;
      every other exception passes through. */
  function SafeEval(host: Host, expression: string, env: Env): (r: Result<Float, Failure>)
    ensures r == Err(TI84Error(ErrSyntax)) <==> host.eval(expression, env) == Raise(NameError)
    ensures r.Err? ==> r.error != Raised(NameError)
    ensures r.Ok? <==> host.eval(expression, env).Returned?
    ensures host.eval(expression, env).Returned? ==> r == Ok(host.eval(expression, env).value)
    ensures host.eval(expression, env).Raise? && host.eval(expression, env).kind != NameError ==>
      r == Err(Raised(host.eval(expression, env).kind))
  {
    match host.eval(expression, env)
    case Returned(v) => Ok(v)
    case Raise(NameError) => Err(TI84Error(ErrSyntax))
    case Raise(k) => Err(Raised(k))
  }

  /** `evaluate_function`: translate, then evaluate with `x` bound. */
  function EvaluateAt(host: Host, memory: real, history: seq<EvaluationResult>, expression: string, x: real): (r: Result<Float, Failure>)
    ensures IsBlank(expression) ==> r == Err(TI84Error(ErrSyntax))
    ensures r.Err? && r.error.TI84Error? ==> r.error.message == ErrSyntax
    ensures !IsBlank(expression) ==> r == SafeEval(host, Prepared(expression, AnsText(history)).value, Env(memory, Some(x)))
  {
    match Prepared(expression, AnsText(history))
    case Err(m) => Err(TI84Error(m))
    case Ok(t) => SafeEval(host, t, Env(memory, Some(x)))
  }

  /** The `except` chain of `evaluate`: the message of the `TI84Error` it raises. */
  function ErrorMessage(f: Failure): (m: string)
    ensures f == Raised(ZeroDivisionError) ==> m == ErrDivideByZero
    ensures f == Raised(ValueError) ==> m == ErrMath
    ensures f == Raised(OverflowError) ==> m == ErrOverflow
    ensures f.TI84Error? || f == Raised(NameError) || f == Raised(OtherException) ==> m == ErrSyntax
  {
    match f
    case Raised(ZeroDivisionError) => ErrDivideByZero
    case Raised(ValueError) => ErrMath
    case Raised(OverflowError) => ErrOverflow
    case _ => ErrSyntax
  }

  /** `evaluate`, as a function of the engine state: the recorded entry, or
      the message of the `TI84Error` raised. */
  function EvaluateSpec(host: Host, memory: real, history: seq<EvaluationResult>, expression: string): (r: Result<EvaluationResult, string>)
    ensures r.Err? ==> r.error in {ErrSyntax, ErrDivideByZero, ErrMath, ErrOverflow}
    ensures IsBlank(expression) ==> r == Err(ErrSyntax)
    ensures r.Ok? ==> r.value.expression == expression
    ensures r.Ok? <==> !IsBlank(expression) && host.eval(Prepared(expression, AnsText(history)).value, Env(memory, None)).Returned?
    ensures r.Ok? ==> r.value.value == FormatResult(host.eval(Prepared(expression, AnsText(history)).value, Env(memory, None)).value, host.sig10)
    ensures !IsBlank(expression) && host.eval(Prepared(expression, AnsText(history)).value, Env(memory, None)) == Raise(ZeroDivisionError) ==> r == Err(ErrDivideByZero)
    ensures !IsBlank(expression) && host.eval(Prepared(expression, AnsText(history)).value, Env(memory, None)) == Raise(ValueError) ==> r == Err(ErrMath)
    ensures !IsBlank(expression) && host.eval(Prepared(expression, AnsText(history)).value, Env(memory, None)) == Raise(OverflowError) ==> r == Err(ErrOverflow)
    ensures !IsBlank(expression) && host.eval(Prepared(expression, AnsText(history)).value, Env(memory, None)) in {Raise(NameError), Raise(OtherException)} ==> r == Err(ErrSyntax)
  {
    match Prepared(expression, AnsText(history))
    case Err(m) => Err(m)
    case Ok(t) =>
      match SafeEval(host, t, Env(memory, None))
      case Err(f) => Err(ErrorMessage(f))
      case Ok(v) => Ok(EvaluationResult(expression, FormatResult(v, host.sig10)))
  }

  // ---------------------------------------------------------------------------
  // _append_history

  /** Python's `s[start:]`. */
  function SliceFrom<T>(s: seq<T>, start: int): (r: seq<T>)
    ensures start >= 0 ==> r == s[if start <= |s| then start else |s|..]
    ensures start < 0 ==> r == s[if -start <= |s| then |s| + start else 0..]
  {
    var i := if start < 0 then (if start + |s| < 0 then 0 else start + |s|)
             else (if start > |s| then |s| else start);
    s[i..]
  }

  /** The history after `_append_history(entry)` with the given `history_limit`. */
  function Appended<T>(history: seq<T>, limit: int, entry: T): seq<T>
  {
    var h := history + [entry];
    if |h| > limit then SliceFrom(h, -limit) else h
  }

  /** For a positive limit, the newest `min(old + 1, limit)` entries are kept:
      the oldest are evicted first and the new entry comes last. */
  lemma AppendedKeepsNewest<T>(history: seq<T>, limit: int, entry: T)
    requires limit >= 1
    ensures var r := Appended(history, limit, entry);
      && |r| == (if |history| + 1 < limit then |history| + 1 else limit)
      && r[|r| - 1] == entry
      && r == (history + [entry])[|history| + 1 - |r|..]
  {
  }

  /** With `history_limit = 0` the slice `[-0:]` is the whole list: nothing is evicted. */
  lemma AppendedZeroLimitKeepsAll<T>(history: seq<T>, entry: T)
    ensures Appended(history, 0, entry) == history + [entry]
  {
  }

  /** With a negative limit `-k`, the slice `[k:]` drops the `k` oldest entries. */
  lemma AppendedNegativeLimit<T>(history: seq<T>, k: nat, entry: T)
    requires k >= 1
    ensures Appended(history, -(k as int), entry) == (history + [entry])[if k <= |history| + 1 then k else |history| + 1..]
  {
  }

  /** The history after appending `entries` one by one. */
  function AppendedAll<T>(history: seq<T>, limit: int, entries: seq<T>): seq<T>
    decreases |entries|
  {
    if entries == [] then history else AppendedAll(Appended(history, limit, entries[0]), limit, entries[1..])
  }

  /** The newest `n` elements of `s` (all of them if there are fewer). */
  function Newest<T>(s: seq<T>, n: nat): seq<T>
  {
    if |s| <= n then s else s[|s| - n..]
  }

  /** Keeping the newest `n`, then appending, then keeping the newest `n`
      again is appending, then keeping the newest `n`. */
  lemma NewestOfNewest<T>(s: seq<T>, t: seq<T>, n: nat)
    ensures Newest(Newest(s, n) + t, n) == Newest(s + t, n)
  {
    if |s| > n {
      var m := |s| - n;
      assert Newest(s, n) + t == (s + t)[m..];
    }
  }

  /** After any number of appends to a history within its positive limit, the
      history holds exactly the newest `limit` entries, in insertion order. */
  lemma {:induction false} AppendedAllKeepsNewest<T>(history: seq<T>, limit: int, entries: seq<T>)
    requires limit >= 1 && |history| <= limit
    ensures AppendedAll(history, limit, entries) == Newest(history + entries, limit)
    decreases |entries|
  {
    if entries == [] {
      assert history + entries == history;
    } else {
      var e, rest := entries[0], entries[1..];
      var h1 := Appended(history, limit, e);
      assert AppendedAll(history, limit, entries) == AppendedAll(h1, limit, rest);
      assert h1 == Newest(history + [e], limit) && |h1| <= limit by {
        AppendedIsNewest(history, limit, e);
      }
      assert AppendedAll(h1, limit, rest) == Newest(h1 + rest, limit) by {
        AppendedAllKeepsNewest(h1, limit, rest);
      }
      assert Newest(h1 + rest, limit) == Newest(history + entries, limit) by {
        NewestOfNewest(history + [e], rest, limit);
        assert (history + [e]) + rest == history + entries;
      }
    }
  }

  lemma AppendedIsNewest<T>(history: seq<T>, limit: int, entry: T)
    requires limit >= 1
    ensures Appended(history, limit, entry) == Newest(history + [entry], limit)
    ensures |Appended(history, limit, entry)| <= limit
  {
    AppendedKeepsNewest(history, limit, entry);
  }

  // ---------------------------------------------------------------------------
  // The engine object

  class Engine {
    const historyLimit: int
    const host: Host
    var memory: real
    var history: seq<EvaluationResult>

    /** The history never exceeds a positive limit. */
    ghost predicate Bounded()
      reads this
    {
      historyLimit >= 1 ==> |history| <= historyLimit
    }

    /** `TI84Engine(history_limit=..)`, by default 20. */
    constructor (host: Host, historyLimit: int := DefaultHistoryLimit)
      ensures this.historyLimit == historyLimit && this.host == host
      ensures memory == 0.0 && history == []
      ensures Bounded()
    {
      this.historyLimit := historyLimit;
      this.host := host;
      memory := 0.0;
      history := [];
    }

    method ClearMemory()
      modifies this`memory
      ensures memory == 0.0 && history == old(history)
    {
      memory := 0.0;
    }

    method AddToMemory(value: real)
      modifies this`memory
      ensures memory == old(memory) + value && history == old(history)
    {
      memory := memory + value;
    }

    method SubtractFromMemory(value: real)
      modifies this`memory
      ensures memory == old(memory) - value && history == old(history)
    {
      memory := memory - value;
    }

    /** Reads the memory; changes nothing. */
    method RecallMemory() returns (m: real)
      ensures m == memory
    {
      m := memory;
    }

    /** `prepare_expression`, replacing one pattern at a time. */
    method PrepareExpression(expression: string) returns (r: Result<string, string>)
      ensures r == Prepared(expression, AnsText(history))
    {
      var expr := Strip(expression);
      if expr == [] {
        return Err(ErrSyntax);
      }
      var reps := Replacements(AnsText(history));
      for i := 0 to |reps|
        invariant ReplaceEach(expr, reps[i..]) == ReplaceEach(Strip(expression), reps)
      {
        assert reps[i..][1..] == reps[i + 1..];
        expr := ReplaceAll(expr, reps[i].0, reps[i].1);
      }
      r := Ok(RewriteFactorials(expr));
    }

    /** `evaluate_function`: reads the memory and history; changes nothing. */
    method EvaluateFunction(expression: string, x: real) returns (r: Result<Float, Failure>)
      ensures r == EvaluateAt(host, memory, history, expression, x)
    {
      var cleaned := PrepareExpression(expression);
      match cleaned
      case Err(m) => r := Err(TI84Error(m));
      case Ok(t) => r := SafeEval(host, t, Env(memory, Some(x)));
    }

    /** `_append_history`: whatever the history held, it is within a positive limit afterwards. */
    method AppendHistory(expression: string, value: string)
      modifies this`history
      ensures history == Appended(old(history), historyLimit, EvaluationResult(expression, value))
      ensures Bounded()
    {
      history := history + [EvaluationResult(expression, value)];
      if |history| > historyLimit {
        history := SliceFrom(history, -historyLimit);
      }
    }

    /** `evaluate`: on success one entry holding the raw input is appended;
        on failure the history is left as it was. The memory never changes. */
    method Evaluate(expression: string) returns (r: Result<EvaluationResult, string>)
      modifies this`history
      ensures r == EvaluateSpec(host, memory, old(history), expression)
      ensures r.Ok? ==> history == Appended(old(history), historyLimit, r.value) && Bounded()
      ensures r.Err? ==> history == old(history)
    {
      var cleaned := PrepareExpression(expression);
      if cleaned.Err? {
        return Err(cleaned.error);
      }
      var result := SafeEval(host, cleaned.value, Env(memory, None));
      if result.Err? {
        return Err(ErrorMessage(result.error));
      }
      var text := FormatResult(result.value, host.sig10);
      AppendHistory(expression, text);
      r := Ok(EvaluationResult(expression, text));
    }
  }
}
