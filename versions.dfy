/** `window.compareWwebVersions(lOperand, operator, rOperand)`, the helper the
    client installs in the page: it validates the operator and the operand
    types, drops a trailing `-beta`, right-pads the shorter operand with '0'
    until both have the same length (dots counted), deletes the dots and
    compares the two digit strings as numbers. */
module WwebVersions {
  import opened Common

  /** A JavaScript value as far as `typeof v === 'string'` can tell. */
  datatype JsValue = JsString(s: string) | JsNonString

  datatype CompareError = CompareWwebVersionsError(message: string)

  const InvalidOperatorMessage := "Invalid comparison operator is provided"
  const NonStringMessage := "A non-string WWeb version type is provided"

  /** `['>', '>=', '<', '<=', '='].includes(operator)`. */
  predicate IsOperator(op: JsValue) {
    op.JsString? && op.s in {">", ">=", "<", "<=", "="}
  }

  predicate IsDigit(c: char) {
    '0' <= c <= '9'
  }

  /** Text made only of digits and dots: the shape of a WhatsApp Web version. */
  predicate IsVersionText(s: string) {
    forall i :: 0 <= i < |s| ==> IsDigit(s[i]) || s[i] == '.'
  }

  predicate IsDigits(s: string) {
    forall i :: 0 <= i < |s| ==> IsDigit(s[i])
  }

  /** The operands this model admits: any non-string (rejected by the helper),
      or a string that is version text once a trailing `-beta` is removed, so
      that `Number(...)` of the dot-free text is a natural number. */
  predicate IsVersionOperand(v: JsValue) {
    v.JsString? ==> IsVersionText(StripBeta(v.s))
  }

  /** `s.replace(/-beta$/, '')`. */
  function StripBeta(s: string): (r: string)
    ensures EndsWith(s, "-beta") ==> s == r + "-beta"
    ensures !EndsWith(s, "-beta") ==> r == s
  {
    if EndsWith(s, "-beta") then s[..|s| - 5] else s
  }

  function Zeros(n: nat): (z: string)
    ensures |z| == n && forall i :: 0 <= i < n ==> z[i] == '0'
  {
    seq(n, _ => '0')
  }

  /** `s` right-padded with '0' to length `n` (unchanged when already as long). */
  function Padded(s: string, n: nat): (r: string)
    ensures |r| == if n <= |s| then |s| else n
  {
    if n <= |s| then s else s + Zeros(n - |s|)
  }

  function Max(a: nat, b: nat): nat {
    if a < b then b else a
  }

  /** `s.replace(/\./g, '')`. */
  function DropDots(s: string): (r: string)
    ensures IsVersionText(s) ==> IsDigits(r)
    ensures |r| <= |s|
  {
    if s == [] then []
    else if s[0] == '.' then DropDots(s[1..])
    else [s[0]] + DropDots(s[1..])
  }

  /** `Number(s)` of a digit string, read left to right; the empty string is 0. */
  function DecimalValue(s: string): nat
    requires IsDigits(s)
  {
    if s == [] then 0
    else DecimalValue(s[..|s| - 1]) * 10 + (s[|s| - 1] as int - '0' as int)
  }

  /** The two numbers the helper compares. */
  function Operands(l: string, r: string): (p: (nat, nat))
    requires IsVersionText(l) && IsVersionText(r)
  {
    var n := Max(|l|, |r|);
    PaddedIsVersionText(l, n);
    PaddedIsVersionText(r, n);
    (DecimalValue(DropDots(Padded(l, n))), DecimalValue(DropDots(Padded(r, n))))
  }

  /** The final ternary chain on the two numbers. */
  function Apply(op: string, x: nat, y: nat): bool {
    if op == ">" then x > y
    else if op == ">=" then x >= y
    else if op == "<" then x < y
    else if op == "<=" then x <= y
    else if op == "=" then x == y
    else false
  }

  /** What `compareWwebVersions` returns or throws. */
  function Compare(l: JsValue, op: JsValue, r: JsValue): Result<bool, CompareError>
    requires IsVersionOperand(l) && IsVersionOperand(r)
  {
    if !IsOperator(op) then Err(CompareWwebVersionsError(InvalidOperatorMessage))
    else if !l.JsString? || !r.JsString? then Err(CompareWwebVersionsError(NonStringMessage))
    else
      var (x, y) := Operands(StripBeta(l.s), StripBeta(r.s));
      Ok(Apply(op.s, x, y))
  }

  lemma PaddedIsVersionText(s: string, n: nat)
    requires IsVersionText(s)
    ensures IsVersionText(Padded(s, n))
  {
  }

  /** The padding loop of the helper: while the lengths differ, append '0' to
      the shorter operand. */
  method PadToSameLength(l: string, r: string) returns (l': string, r': string)
    ensures |l'| == |r'| == Max(|l|, |r|)
    ensures l' == Padded(l, Max(|l|, |r|)) && r' == Padded(r, Max(|l|, |r|))
  {
    l', r' := l, r;
    while |l'| != |r'|
      invariant |l| <= |l'| <= Max(|l|, |r|) && |r| <= |r'| <= Max(|l|, |r|)
      invariant l' == Padded(l, |l'|) && r' == Padded(r, |r'|)
      decreases 2 * Max(|l|, |r|) - |l'| - |r'|
    {
      if |l'| > |r'| {
        r' := r' + "0";
      } else {
        l' := l' + "0";
      }
    }
  }

  /** `compareWwebVersions` step by step, as the page runs it. */
  method CompareWwebVersions(l: JsValue, op: JsValue, r: JsValue) returns (res: Result<bool, CompareError>)
    requires IsVersionOperand(l) && IsVersionOperand(r)
    ensures res == Compare(l, op, r)
  {
    if !IsOperator(op) {
      return Err(CompareWwebVersionsError(InvalidOperatorMessage));
    }
    if !l.JsString? || !r.JsString? {
      return Err(CompareWwebVersionsError(NonStringMessage));
    }
    var a := StripBeta(l.s);
    var b := StripBeta(r.s);
    a, b := PadToSameLength(a, b);
    PaddedIsVersionText(StripBeta(l.s), |a|);
    PaddedIsVersionText(StripBeta(r.s), |b|);
    var x := DecimalValue(DropDots(a));
    var y := DecimalValue(DropDots(b));
    res := Ok(Apply(op.s, x, y));
  }

  // ---- properties of the helper ----

  /** The helper throws exactly when the operator is not one of the five or an
      operand is not a string; the operator is checked first. */
  lemma CompareErrors(l: JsValue, op: JsValue, r: JsValue)
    requires IsVersionOperand(l) && IsVersionOperand(r)
    ensures Compare(l, op, r).Err? <==> !IsOperator(op) || !l.JsString? || !r.JsString?
    ensures !IsOperator(op) ==> Compare(l, op, r) == Err(CompareWwebVersionsError(InvalidOperatorMessage))
    ensures IsOperator(op) && (!l.JsString? || !r.JsString?) ==>
              Compare(l, op, r) == Err(CompareWwebVersionsError(NonStringMessage))
  {
  }

  /** Version text never ends with `-beta`, so stripping leaves it alone. */
  lemma StripBetaOfVersionText(s: string)
    requires IsVersionText(s)
    ensures StripBeta(s) == s && StripBeta(s + "-beta") == s
  {
    assert !EndsWith(s, "-beta") by {
      if |s| >= 5 {
        assert s[|s| - 5..][4] == s[|s| - 1];
      }
    }
    assert (s + "-beta")[..|s|] == s;
  }

  /** Appending `-beta` to either operand never changes the outcome. */
  lemma BetaSuffixIsIgnored(l: string, op: JsValue, r: string, betaL: bool, betaR: bool)
    requires IsVersionText(l) && IsVersionText(r)
    ensures
      var l1 := JsString(if betaL then l + "-beta" else l);
      var r1 := JsString(if betaR then r + "-beta" else r);
      IsVersionOperand(l1) && IsVersionOperand(r1) &&
      Compare(l1, op, r1) == Compare(JsString(l), op, JsString(r))
  {
    StripBetaOfVersionText(l);
    StripBetaOfVersionText(r);
  }

  /** `=` is reflexive. */
  lemma EqualIsReflexive(v: string)
    requires IsVersionOperand(JsString(v))
    ensures Compare(JsString(v), JsString("="), JsString(v)) == Ok(true)
  {
  }

  /** `a < b` iff `b > a`, and `a <= b` iff `b >= a`: padding treats the two
      operands alike. */
  lemma ConverseOperators(a: string, b: string)
    requires IsVersionOperand(JsString(a)) && IsVersionOperand(JsString(b))
    ensures Compare(JsString(a), JsString("<"), JsString(b)) == Compare(JsString(b), JsString(">"), JsString(a))
    ensures Compare(JsString(a), JsString("<="), JsString(b)) == Compare(JsString(b), JsString(">="), JsString(a))
  {
  }

  /** `<=` is the negation of `>`, `>=` the negation of `<`, and `=` holds iff both
      `<=` and `>=` do. */
  lemma OperatorsAreComplementary(a: string, b: string)
    requires IsVersionOperand(JsString(a)) && IsVersionOperand(JsString(b))
    ensures
      var A, B := JsString(a), JsString(b);
      Compare(A, JsString("<="), B).Ok? && Compare(A, JsString(">"), B).Ok? &&
      Compare(A, JsString("<="), B).value == !Compare(A, JsString(">"), B).value &&
      Compare(A, JsString(">="), B).value == !Compare(A, JsString("<"), B).value &&
      Compare(A, JsString("="), B).value ==
        (Compare(A, JsString("<="), B).value && Compare(A, JsString(">="), B).value)
  {
  }

  /** Two operands of the same length are compared as the numbers their digits
      spell, with no padding involved. */
  lemma SameLengthComparesDigits(a: string, b: string, op: string)
    requires IsVersionText(a) && IsVersionText(b) && |a| == |b|
    requires op in {">", ">=", "<", "<=", "="}
    ensures Compare(JsString(a), JsString(op), JsString(b)) ==
            Ok(Apply(op, DecimalValue(DropDots(a)), DecimalValue(DropDots(b))))
  {
    StripBetaOfVersionText(a);
    StripBetaOfVersionText(b);
  }

  /** Padding with zeros multiplies the digit value by ten per zero, so a shorter
      operand is compared as if it were a decimal fraction of the same width:
      "1.9" is read as 190 against "1.10" as 110. */
  lemma {:induction false} PaddingScalesByTen(s: string, k: nat)
    requires IsDigits(s)
    ensures IsDigits(s + Zeros(k))
    ensures DecimalValue(s + Zeros(k)) == DecimalValue(s) * Pow10(k)
  {
    if k == 0 {
      assert s + Zeros(k) == s;
    } else {
      PaddingScalesByTen(s, k - 1);
      var t := s + Zeros(k);
      assert t[..|t| - 1] == s + Zeros(k - 1);
      assert t[|t| - 1] == '0';
      calc {
        DecimalValue(t);
        DecimalValue(s + Zeros(k - 1)) * 10;
        DecimalValue(s) * Pow10(k - 1) * 10;
        DecimalValue(s) * Pow10(k);
      }
    }
  }

  function Pow10(k: nat): (p: nat)
    ensures p >= 1
  {
    if k == 0 then 1 else 10 * Pow10(k - 1)
  }

  /** Dots contribute nothing: deleting them from digits-then-zeros keeps the zeros. */
  lemma {:induction false} DropDotsAppend(s: string, t: string)
    ensures DropDots(s + t) == DropDots(s) + DropDots(t)
  {
    if s == [] {
      assert s + t == t;
    } else {
      assert (s + t)[0] == s[0];
      assert (s + t)[1..] == s[1..] + t;
      DropDotsAppend(s[1..], t);
    }
  }

  lemma {:induction false} DropDotsOfZeros(k: nat)
    ensures DropDots(Zeros(k)) == Zeros(k)
  {
    if k > 0 {
      assert Zeros(k)[1..] == Zeros(k - 1);
      DropDotsOfZeros(k - 1);
    }
  }

  /** The shorter operand's value is its digit value scaled by ten per
      padding zero. */
  lemma PaddedOperandValue(s: string, n: nat)
    requires IsVersionText(s) && |s| <= n
    ensures IsDigits(DropDots(Padded(s, n)))
    ensures DecimalValue(DropDots(Padded(s, n))) == DecimalValue(DropDots(s)) * Pow10(n - |s|)
  {
    PaddedIsVersionText(s, n);
    DropDotsAppend(s, Zeros(n - |s|));
    DropDotsOfZeros(n - |s|);
    PaddingScalesByTen(DropDots(s), n - |s|);
  }
}
