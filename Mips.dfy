/**
 * A small evaluator for the MIPS instructions the code generator uses to
 * lower operators.  Registers hold signed 32-bit words.  `add`, `sub` and
 * the negation through `sub $zero` trap on signed overflow, as on MIPS;
 * `div` leaves the quotient truncated toward zero in LO and the remainder
 * in HI, and is undefined for a zero divisor or an overflowing quotient.
 * An instruction the evaluator does not know, a trap or an undefined
 * result all give `None`.
 */
module Mips {
  import opened Optional

  const WORD_MIN: int := -0x8000_0000
  const WORD_MAX: int := 0x7FFF_FFFF

  predicate InWord(x: int)
  {
    WORD_MIN <= x <= WORD_MAX
  }

  /** Two's complement: the 32-bit word with the same low 32 bits as `x`. */
  function Wrap(x: int): (r: int)
    ensures InWord(r)
    ensures (r - x) % 0x1_0000_0000 == 0
    ensures InWord(x) ==> r == x
  {
    var m := x % 0x1_0000_0000;
    if m > WORD_MAX then m - 0x1_0000_0000 else m
  }

  function Abs(x: int): nat
  {
    if x < 0 then -x else x
  }

  /** Quotient rounded toward zero. */
  function Quot(a: int, b: int): int
    requires b != 0
  {
    var q := Abs(a) / Abs(b);
    if (a < 0) == (b < 0) then q else -q
  }

  /** Remainder with the sign of the dividend. */
  function Rem(a: int, b: int): (r: int)
    requires b != 0
    ensures a == b * Quot(a, b) + r
    ensures Abs(r) < Abs(b)
    ensures r != 0 ==> (r < 0 <==> a < 0)
  {
    var r := Abs(a) % Abs(b);
    if a < 0 then -r else r
  }

  function Bit(b: bool): int
  {
    if b then 1 else 0
  }

  datatype Regs = Regs(t0: int, v0: int, hi: int, lo: int)

  predicate WordRegs(r: Regs)
  {
    InWord(r.t0) && InWord(r.v0) && InWord(r.hi) && InWord(r.lo)
  }

  function Exec(instr: string, r: Regs): (q: Option<Regs>)
    requires WordRegs(r)
    ensures q.Some? ==> WordRegs(q.value)
  {
    if instr == "    add $v0, $t0, $v0" then
      (if InWord(r.t0 + r.v0) then Some(r.(v0 := r.t0 + r.v0)) else None)
    else if instr == "    sub $v0, $t0, $v0" then
      (if InWord(r.t0 - r.v0) then Some(r.(v0 := r.t0 - r.v0)) else None)
    else if instr == "    sub $v0, $zero, $v0" then
      (if InWord(0 - r.v0) then Some(r.(v0 := 0 - r.v0)) else None)
    else if instr == "    mul $v0, $t0, $v0" then
      Some(r.(v0 := Wrap(r.t0 * r.v0)))
    else if instr == "    div $t0, $v0" then
      (if r.v0 == 0 || !InWord(Quot(r.t0, r.v0)) then None
       else Some(r.(lo := Quot(r.t0, r.v0), hi := Rem(r.t0, r.v0))))
    else if instr == "    mflo $v0" then
      Some(r.(v0 := r.lo))
    else if instr == "    mfhi $v0" then
      Some(r.(v0 := r.hi))
    else if instr == "    slt $v0, $t0, $v0" then
      Some(r.(v0 := Bit(r.t0 < r.v0)))
    else if instr == "    slt $v0, $v0, $t0" then
      Some(r.(v0 := Bit(r.v0 < r.t0)))
    else if instr == "    xori $v0, $v0, 1" then
      // flips the lowest bit
      Some(r.(v0 := if r.v0 % 2 == 0 then r.v0 + 1 else r.v0 - 1))
    else if instr == "    sltiu $v0, $v0, 1" then
      // unsigned: only the zero word is below 1
      Some(r.(v0 := Bit(r.v0 == 0)))
    else if instr == "    sltu $v0, $zero, $v0" then
      // unsigned: every word but zero is above 0
      Some(r.(v0 := Bit(r.v0 != 0)))
    else None
  }

  /** Runs a straight-line sequence, stopping at the first trap. */
  function Run(code: seq<string>, r: Regs): (q: Option<Regs>)
    requires WordRegs(r)
    ensures q.Some? ==> WordRegs(q.value)
    decreases |code|
  {
    if code == [] then Some(r)
    else match Exec(code[0], r)
      case None => None
      case Some(r1) => Run(code[1..], r1)
  }
}
