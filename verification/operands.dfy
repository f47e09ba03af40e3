/** Operand classification performed at issue time: every source operand of an
    instruction is a decimal literal, the name of a register in the register
    file, or any other name. */
module Operands {
  import opened Wrappers

  /** The register file: register name to committed integer value. */
  type Registers = map<string, int>

  /** The producer fields `Qj`/`Qk` of a reservation station. Python stores
      whatever `get_rs_or_register` returned: `None`, the register's value, or
      the operand string itself. */
  datatype Q = QNone | QValue(value: int) | QName(name: string)

  predicate IsDigit(c: char) {
    '0' <= c <= '9'
  }

  predicate AllDigits(s: string) {
    forall i :: 0 <= i < |s| ==> IsDigit(s[i])
  }

  /** `str.isdigit`, restricted to ASCII: non-empty and digits only. */
  predicate IsDigitString(s: string) {
    |s| > 0 && AllDigits(s)
  }

  function DigitValue(c: char): (d: nat)
    requires IsDigit(c)
    ensures d < 10
  {
    (c as int) - ('0' as int)
  }

  function DigitChar(d: nat): (c: char)
    requires d < 10
    ensures IsDigit(c) && DigitValue(c) == d
  {
    (('0' as int) + d) as char
  }

  function Pow10(n: nat): (p: nat)
    ensures p >= 1
  {
    if n == 0 then 1 else 10 * Pow10(n - 1)
  }

  /** `int(s)` on a digit string: a decimal fold, most significant digit first. */
  function DecimalValue(s: string): (n: nat)
    requires AllDigits(s)
    ensures n < Pow10(|s|)
    decreases |s|
  {
    if |s| == 0 then 0
    else DecimalValue(s[..|s| - 1]) * 10 + DigitValue(s[|s| - 1])
  }

  /** The canonical decimal spelling of a natural number (no leading zeros). */
  function Decimal(n: nat): (s: string)
    ensures IsDigitString(s)
    decreases n
  {
    if n < 10 then [DigitChar(n)] else Decimal(n / 10) + [DigitChar(n % 10)]
  }

  /** Reading back the canonical spelling of `n` gives `n`. */
  lemma {:induction false} DecimalRoundTrip(n: nat)
    ensures DecimalValue(Decimal(n)) == n
    decreases n
  {
    if n >= 10 {
      var s := Decimal(n);
      assert s[..|s| - 1] == Decimal(n / 10);
      DecimalRoundTrip(n / 10);
    }
  }

  /** Leading zeros do not change the value `int()` reads. */
  lemma {:induction false} LeadingZeroIgnored(s: string)
    requires AllDigits(s)
    ensures AllDigits("0" + s) && DecimalValue("0" + s) == DecimalValue(s)
    decreases |s|
  {
    if |s| > 0 {
      var t := "0" + s;
      assert t[..|t| - 1] == "0" + s[..|s| - 1];
      LeadingZeroIgnored(s[..|s| - 1]);
    }
  }

  /** `get_value`: the `V` field an operand resolves to at issue. */
  function GetValue(regs: Registers, operand: string): (v: Option<int>)
    ensures v.None? <==> !IsDigitString(operand) && operand !in regs
    ensures IsDigitString(operand) ==> v == Some(DecimalValue(operand))
    ensures !IsDigitString(operand) && operand in regs ==> v == Some(regs[operand])
  {
    if IsDigitString(operand) then Some(DecimalValue(operand))
    else if operand in regs then Some(regs[operand])
    else None
  }

  /** `get_rs_or_register`: the `Q` field an operand resolves to at issue. */
  function GetRsOrRegister(regs: Registers, operand: string): (q: Q)
    ensures q.QNone? <==> IsDigitString(operand)
    ensures q.QName? <==> !IsDigitString(operand) && operand !in regs
    ensures q.QName? ==> q.name == operand
    ensures q.QValue? ==> operand in regs && q.value == regs[operand]
  {
    if IsDigitString(operand) then QNone
    else if operand in regs then QValue(regs[operand])
    else QName(operand)
  }

  /** How the two fields agree: `V` is missing exactly when `Q` is a name,
      a register operand carries its value in both fields, and only a literal
      leaves `Q` empty. */
  lemma ResolutionAgrees(regs: Registers, operand: string)
    ensures GetValue(regs, operand).None? <==> GetRsOrRegister(regs, operand).QName?
    ensures GetRsOrRegister(regs, operand).QValue? ==>
              GetValue(regs, operand) == Some(GetRsOrRegister(regs, operand).value)
    ensures GetRsOrRegister(regs, operand).QNone? ==>
              GetValue(regs, operand) == Some(DecimalValue(operand))
  {
  }

  /** A literal shadows a register of the same spelling: its resolution does
      not depend on the register file at all. */
  lemma LiteralIgnoresRegisters(regs: Registers, regs': Registers, operand: string)
    requires IsDigitString(operand)
    ensures GetValue(regs, operand) == GetValue(regs', operand)
    ensures GetRsOrRegister(regs, operand) == GetRsOrRegister(regs', operand) == QNone
  {
  }

  /** The decimal spelling of any natural number resolves to that number. */
  lemma {:induction false} LiteralResolvesToItsValue(regs: Registers, n: nat)
    ensures GetValue(regs, Decimal(n)) == Some(n)
    ensures GetRsOrRegister(regs, Decimal(n)) == QNone
  {
    DecimalRoundTrip(n);
  }
}
