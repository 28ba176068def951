/** The postfix factorial rewrite of `prepare_expression`: the substitution
    `re.sub(r"(?P<target>(?:\([^()]*\)|\b[a-zA-Z_]\w*\b|\d+(?:\.\d+)?))!", ...)`
    written out as a left-to-right scanner that never rescans its own output. */
module Factorial {
  import opened Wrappers

  /** The text wrapped around every rewritten operand. */
  const Prefix: string := "math.factorial(int("
  const Suffix: string := "))"

  predicate IsAsciiLetter(c: char)
  {
    'a' <= c <= 'z' || 'A' <= c <= 'Z'
  }

  /** `\d`, on ASCII digits. */
  predicate IsDigit(c: char)
  {
    '0' <= c <= '9'
  }

  /** `\w`, on ASCII letters, digits and `_`, plus `π`, the one non-ASCII letter
      the calculator's namespace defines. */
  predicate IsWordChar(c: char)
  {
    IsAsciiLetter(c) || IsDigit(c) || c == '_' || c == '\U{03C0}'
  }

  predicate IsParen(c: char)
  {
    c == '(' || c == ')'
  }

  /** Index of the first parenthesis at or after `i`, or `|s|`. */
  function ParenFrom(s: string, i: nat): (q: nat)
    requires i <= |s|
    ensures i <= q <= |s|
    ensures forall k :: i <= k < q ==> !IsParen(s[k])
    ensures q < |s| ==> IsParen(s[q])
    decreases |s| - i
  {
    if i == |s| || IsParen(s[i]) then i else ParenFrom(s, i + 1)
  }

  /** End of the run of word characters that starts at `i`. */
  function WordFrom(s: string, i: nat): (q: nat)
    requires i <= |s|
    ensures i <= q <= |s|
    ensures forall k :: i <= k < q ==> IsWordChar(s[k])
    ensures q < |s| ==> !IsWordChar(s[q])
    decreases |s| - i
  {
    if i == |s| || !IsWordChar(s[i]) then i else WordFrom(s, i + 1)
  }

  /** End of the run of digits that starts at `i`. */
  function DigitsFrom(s: string, i: nat): (q: nat)
    requires i <= |s|
    ensures i <= q <= |s|
    ensures forall k :: i <= k < q ==> IsDigit(s[k])
    ensures q < |s| ==> !IsDigit(s[q])
    decreases |s| - i
  {
    if i == |s| || !IsDigit(s[i]) then i else DigitsFrom(s, i + 1)
  }

  /** `\([^()]*\)!` at `p`: the index of the `!`. */
  function ParenTarget(s: string, p: nat): (r: Option<nat>)
    requires p < |s|
    ensures r.Some? ==> p < r.value < |s| && s[r.value] == '!'
  {
    var q := ParenFrom(s, p + 1);
    if q + 1 < |s| && s[q] == ')' && s[q + 1] == '!' then Some(q + 1) else None
  }

  /** `[a-zA-Z_]\w*\b!` at `p` (the caller checks the leading `\b`). */
  function WordTarget(s: string, p: nat): (r: Option<nat>)
    requires p < |s|
    ensures r.Some? ==> p < r.value < |s| && s[r.value] == '!'
  {
    var q := WordFrom(s, p + 1);
    if q < |s| && s[q] == '!' then Some(q) else None
  }

  /** End of `\d+(?:\.\d+)?` starting at the digit at `p`. */
  function NumeralEnd(s: string, p: nat): (q: nat)
    requires p < |s|
    ensures p < q <= |s|
  {
    var q1 := DigitsFrom(s, p + 1);
    if q1 + 1 < |s| && s[q1] == '.' && IsDigit(s[q1 + 1]) then DigitsFrom(s, q1 + 2) else q1
  }

  function NumberTarget(s: string, p: nat): (r: Option<nat>)
    requires p < |s|
    ensures r.Some? ==> p < r.value < |s| && s[r.value] == '!'
  {
    var q := NumeralEnd(s, p);
    if q < |s| && s[q] == '!' then Some(q) else None
  }

  /** An identifier may only start at a word boundary. */
  predicate StartsWord(s: string, p: nat)
    requires p < |s|
  {
    (IsAsciiLetter(s[p]) || s[p] == '_') && (p == 0 || !IsWordChar(s[p - 1]))
  }

  /** Where the operand starting at `p` ends, if the pattern matches at `p`:
      the index of the `!` that follows it. The three alternatives begin with
      different characters, so at most one of them applies. */
  function TargetEnd(s: string, p: nat): (r: Option<nat>)
    requires p < |s|
    ensures r.Some? ==> p < r.value < |s| && s[r.value] == '!'
  {
    if s[p] == '(' then ParenTarget(s, p)
    else if StartsWord(s, p) then WordTarget(s, p)
    else if IsDigit(s[p]) then NumberTarget(s, p)
    else None
  }

  /** What the scanner emits at `p`: the wrapped operand when the pattern
      matches there, else the character itself. */
  function Emit(s: string, p: nat): string
    requires p < |s|
  {
    match TargetEnd(s, p)
    case Some(q) => Prefix + s[p..q] + Suffix
    case None => [s[p]]
  }

  /** Where the scanner resumes: after the `!` on a match, else one further on. */
  function Resume(s: string, p: nat): (r: nat)
    requires p < |s|
    ensures p < r <= |s|
  {
    match TargetEnd(s, p)
    case Some(q) => q + 1
    case None => p + 1
  }

  /** The rewrite of `s[p..]`, scanning from left to right. */
  function RewriteFrom(s: string, p: nat): string
    requires p <= |s|
    decreases |s| - p
  {
    if p == |s| then [] else Emit(s, p) + RewriteFrom(s, Resume(s, p))
  }

  function RewriteFactorials(s: string): string
  {
    RewriteFrom(s, 0)
  }

  // ---------------------------------------------------------------------------
  // An independent description of the operands the pattern accepts.

  /** `(...)` with no parenthesis inside. */
  predicate IsParenGroup(t: string)
  {
    |t| >= 2 && t[0] == '(' && t[|t| - 1] == ')' && forall k :: 0 < k < |t| - 1 ==> !IsParen(t[k])
  }

  /** An identifier: an ASCII letter or `_`, then word characters. */
  predicate IsIdentifier(t: string)
  {
    |t| >= 1 && (IsAsciiLetter(t[0]) || t[0] == '_') && forall k :: 0 < k < |t| ==> IsWordChar(t[k])
  }

  predicate AllDigits(t: string)
  {
    |t| >= 1 && forall k :: 0 <= k < |t| ==> IsDigit(t[k])
  }

  /** Digits, optionally followed by `.` and more digits. */
  predicate IsNumeral(t: string)
  {
    AllDigits(t) || exists d :: 0 < d < |t| - 1 && t[d] == '.' && AllDigits(t[..d]) && AllDigits(t[d + 1..])
  }

  /** `s[p..q]` is an operand the pattern accepts in front of a `!` at `q`;
      an identifier must also start at a word boundary. */
  predicate OperandBefore(s: string, p: nat, q: nat)
  {
    && p < q < |s| && s[q] == '!'
    && (|| IsParenGroup(s[p..q])
        || (IsIdentifier(s[p..q]) && (p == 0 || !IsWordChar(s[p - 1])))
        || IsNumeral(s[p..q]))
  }

  lemma DigitsFromStops(s: string, i: nat, q: nat)
    requires i <= q <= |s|
    requires forall k :: i <= k < q ==> IsDigit(s[k])
    requires q < |s| ==> !IsDigit(s[q])
    ensures DigitsFrom(s, i) == q
  {
  }

  lemma ParenTargetSound(s: string, p: nat)
    requires p < |s| && s[p] == '(' && ParenTarget(s, p).Some?
    ensures IsParenGroup(s[p..ParenTarget(s, p).value])
  {
  }

  lemma WordTargetSound(s: string, p: nat)
    requires p < |s| && StartsWord(s, p) && WordTarget(s, p).Some?
    ensures IsIdentifier(s[p..WordTarget(s, p).value])
  {
  }

  lemma NumeralEndSound(s: string, p: nat)
    requires p < |s| && IsDigit(s[p])
    ensures IsNumeral(s[p..NumeralEnd(s, p)])
  {
    var q := NumeralEnd(s, p);
    var t := s[p..q];
    var q1 := DigitsFrom(s, p + 1);
    if q1 + 1 < |s| && s[q1] == '.' && IsDigit(s[q1 + 1]) {
      var d := q1 - p;
      assert t[..d] == s[p..q1];
      assert t[d + 1..] == s[q1 + 1..q];
      var u := t[d + 1..];
      forall k | 0 <= k < |u| ensures IsDigit(u[k]) { assert u[k] == s[q1 + 1 + k]; }
      assert AllDigits(t[..d]) && AllDigits(t[d + 1..]);
    } else {
      assert AllDigits(t);
    }
  }

  /** What the scanner accepts is an operand followed by `!`. */
  lemma TargetEndSound(s: string, p: nat)
    requires p < |s|
    requires TargetEnd(s, p).Some?
    ensures OperandBefore(s, p, TargetEnd(s, p).value)
  {
    if s[p] == '(' {
      ParenTargetSound(s, p);
    } else if StartsWord(s, p) {
      WordTargetSound(s, p);
    } else {
      NumeralEndSound(s, p);
    }
  }

  lemma ParenGroupAccepted(s: string, p: nat, q: nat)
    requires p < q < |s| && s[q] == '!' && IsParenGroup(s[p..q])
    ensures TargetEnd(s, p) == Some(q)
  {
    var t := s[p..q];
    assert s[p] == t[0] && s[q - 1] == t[|t| - 1];
    forall k | p + 1 <= k < q - 1 ensures !IsParen(s[k]) { assert s[k] == t[k - p]; }
    assert ParenFrom(s, p + 1) == q - 1;
    assert ParenTarget(s, p) == Some(q);
  }

  lemma IdentifierAccepted(s: string, p: nat, q: nat)
    requires p < q < |s| && s[q] == '!' && IsIdentifier(s[p..q]) && (p == 0 || !IsWordChar(s[p - 1]))
    ensures TargetEnd(s, p) == Some(q)
  {
    var t := s[p..q];
    assert s[p] == t[0];
    forall k | p + 1 <= k < q ensures IsWordChar(s[k]) { assert s[k] == t[k - p]; }
    assert WordFrom(s, p + 1) == q;
    assert StartsWord(s, p) && WordTarget(s, p) == Some(q);
  }

  lemma DigitsAccepted(s: string, p: nat, q: nat)
    requires p < q < |s| && s[q] == '!' && AllDigits(s[p..q])
    ensures NumeralEnd(s, p) == q
  {
    var t := s[p..q];
    forall k | p + 1 <= k < q ensures IsDigit(s[k]) { assert s[k] == t[k - p]; }
    DigitsFromStops(s, p + 1, q);
  }

  lemma DecimalAccepted(s: string, p: nat, q: nat, d: nat)
    requires p < q < |s| && s[q] == '!'
    requires 0 < d < q - p - 1 && s[p + d] == '.' && AllDigits(s[p..p + d]) && AllDigits(s[p + d + 1..q])
    ensures NumeralEnd(s, p) == q
  {
    var a := s[p..p + d];
    var b := s[p + d + 1..q];
    forall k | p + 1 <= k < p + d ensures IsDigit(s[k]) { assert s[k] == a[k - p]; }
    DigitsFromStops(s, p + 1, p + d);
    assert s[p + d + 1] == b[0];
    forall k | p + d + 2 <= k < q ensures IsDigit(s[k]) { assert s[k] == b[k - p - d - 1]; }
    DigitsFromStops(s, p + d + 2, q);
  }

  lemma NumeralAccepted(s: string, p: nat, q: nat)
    requires p < q < |s| && s[q] == '!' && IsNumeral(s[p..q])
    ensures TargetEnd(s, p) == Some(q)
  {
    var t := s[p..q];
    assert s[p] == t[0];
    if AllDigits(t) {
      DigitsAccepted(s, p, q);
    } else {
      var d :| 0 < d < |t| - 1 && t[d] == '.' && AllDigits(t[..d]) && AllDigits(t[d + 1..]);
      assert t[..d] == s[p..p + d] && t[d + 1..] == s[p + d + 1..q];
      DecimalAccepted(s, p, q, d);
    }
    assert !StartsWord(s, p) && NumberTarget(s, p) == Some(q);
  }

  /** The pattern matches at `p` and stops at `q` exactly when `s[p..q]` is an
      operand followed by `!`. */
  lemma TargetEndIff(s: string, p: nat, q: nat)
    requires p < |s|
    ensures TargetEnd(s, p) == Some(q) <==> OperandBefore(s, p, q)
  {
    if TargetEnd(s, p) == Some(q) {
      TargetEndSound(s, p);
    }
    if OperandBefore(s, p, q) {
      if IsParenGroup(s[p..q]) {
        ParenGroupAccepted(s, p, q);
      } else if IsIdentifier(s[p..q]) && (p == 0 || !IsWordChar(s[p - 1])) {
        IdentifierAccepted(s, p, q);
      } else {
        NumeralAccepted(s, p, q);
      }
    }
  }

  lemma EmitAbsent(s: string, p: nat, c: char)
    requires p < |s|
    requires c !in s && c !in Prefix && c !in Suffix
    ensures c !in Emit(s, p)
  {
    if TargetEnd(s, p).Some? {
      var mid := s[p..TargetEnd(s, p).value];
      forall k | 0 <= k < |mid| ensures mid[k] != c {
        assert mid[k] == s[p + k];
      }
    }
  }

  /** A character that is in neither the input nor the wrapper text is not in
      the rewrite of any suffix. */
  lemma {:induction false} RewriteFromAbsent(s: string, p: nat, c: char)
    requires p <= |s|
    requires c !in s && c !in Prefix && c !in Suffix
    ensures c !in RewriteFrom(s, p)
    decreases |s| - p
  {
    if p < |s| {
      EmitAbsent(s, p, c);
      RewriteFromAbsent(s, Resume(s, p), c);
    }
  }

  /** A character that is in neither the input nor the wrapper text is not in the output. */
  lemma RewritePreservesAbsence(s: string, c: char)
    requires c !in s && c !in Prefix + Suffix
    ensures c !in RewriteFactorials(s)
  {
    RewriteFromAbsent(s, 0, c);
  }

  /** Text without `!` is left unchanged. */
  lemma {:induction false} RewriteWithoutBang(s: string, p: nat)
    requires p <= |s|
    requires '!' !in s
    ensures RewriteFrom(s, p) == s[p..]
    decreases |s| - p
  {
    if p < |s| {
      assert TargetEnd(s, p) == None;
      assert Emit(s, p) == [s[p]] && Resume(s, p) == p + 1;
      RewriteWithoutBang(s, p + 1);
      assert s[p..] == [s[p]] + s[p + 1..];
    }
  }

  /** Text without `!` is left as it is: the rewrite only acts at a `!`. */
  lemma RewriteFactorialsFixesPlainText(s: string)
    requires '!' !in s
    ensures RewriteFactorials(s) == s
  {
    RewriteWithoutBang(s, 0);
  }

  /** `5!` becomes `math.factorial(int(5))`. */
  lemma ExampleNumber()
    ensures RewriteFactorials("5!") == "math.factorial(int(5))"
  {
    var s := "5!";
    assert TargetEnd(s, 0) == Some(1);
    assert s[0..1] == "5";
    assert Emit(s, 0) == Prefix + "5" + Suffix && Resume(s, 0) == 2;
    assert RewriteFrom(s, 2) == [];
  }

  /** `(2+3)!` becomes `math.factorial(int((2+3)))`. */
  lemma ExampleGroup()
    ensures RewriteFactorials("(2+3)!") == "math.factorial(int((2+3)))"
  {
    var s := "(2+3)!";
    assert ParenFrom(s, 1) == 4 by {
      assert ParenFrom(s, 4) == 4;
      assert ParenFrom(s, 3) == 4;
      assert ParenFrom(s, 2) == 4;
    }
    assert TargetEnd(s, 0) == Some(5);
    assert s[0..5] == "(2+3)";
    assert Emit(s, 0) == Prefix + "(2+3)" + Suffix && Resume(s, 0) == 6;
    assert RewriteFrom(s, 6) == [];
  }

  /** How the scanner steps through `-1!`. */
  lemma NegativeSteps()
    ensures Emit("-1!", 0) == "-" && Resume("-1!", 0) == 1
    ensures Emit("-1!", 1) == Prefix + "1" + Suffix && Resume("-1!", 1) == 3
  {
    var s := "-1!";
    assert s[0] == '-' && s[1] == '1' && s[2] == '!';
    assert TargetEnd(s, 0) == None;
    assert DigitsFrom(s, 2) == 2;
    assert TargetEnd(s, 1) == Some(2);
    assert s[1..2] == "1";
  }

  /** The leading minus of `-1!` stays outside: the factorial applies to `1`. */
  lemma ExampleNegative()
    ensures RewriteFactorials("-1!") == "-math.factorial(int(1))"
  {
    var s := "-1!";
    NegativeSteps();
    assert RewriteFrom(s, 3) == [];
    assert RewriteFrom(s, 1) == Prefix + "1" + Suffix;
    assert RewriteFrom(s, 0) == "-" + RewriteFrom(s, 1);
  }

  /** In `2x!` the identifier does not start at a word boundary and the number
      is not followed by `!`, so nothing is rewritten. */
  lemma ExampleNoBoundary()
    ensures RewriteFactorials("2x!") == "2x!"
  {
    var s := "2x!";
    assert DigitsFrom(s, 1) == 1;
    assert TargetEnd(s, 0) == None;
    assert TargetEnd(s, 1) == None;
    assert TargetEnd(s, 2) == None;
    assert Emit(s, 0) == "2" && Resume(s, 0) == 1;
    assert Emit(s, 1) == "x" && Resume(s, 1) == 2;
    assert Emit(s, 2) == "!" && Resume(s, 2) == 3;
    assert RewriteFrom(s, 3) == [];
  }
}
