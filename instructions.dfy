/** The opcode decoder of `src/vm/instructions.rs`. */
module Instructions {
  import opened Bits
  import opened Wrappers

  /** The sixteen LC-3 opcodes, in declaration order. */
  datatype OpCode =
    | Br | Add | Ld | St | Jsr | And | Ldr | Str
    | Rti | Not | Ldi | Sti | Jmp | Res | Lea | Trap
  {
    /** The implicit discriminant: the position in the declaration. */
    function Ordinal(): (n: nat)
      ensures n < 16
    {
      match this
      case Br => 0
      case Add => 1
      case Ld => 2
      case St => 3
      case Jsr => 4
      case And => 5
      case Ldr => 6
      case Str => 7
      case Rti => 8
      case Not => 9
      case Ldi => 10
      case Sti => 11
      case Jmp => 12
      case Res => 13
      case Lea => 14
      case Trap => 15
    }
  }

  /** `OpCodes::new`: `None` stands for the panic on a value above 15. */
  function DecodeOpCode(value: Word): (r: Option<OpCode>)
    ensures r.Some? <==> value <= 15
    ensures r.Some? ==> r.value.Ordinal() == value
  {
    match value
    case 0 => Some(Br)
    case 1 => Some(Add)
    case 2 => Some(Ld)
    case 3 => Some(St)
    case 4 => Some(Jsr)
    case 5 => Some(And)
    case 6 => Some(Ldr)
    case 7 => Some(Str)
    case 8 => Some(Rti)
    case 9 => Some(Not)
    case 10 => Some(Ldi)
    case 11 => Some(Sti)
    case 12 => Some(Jmp)
    case 13 => Some(Res)
    case 14 => Some(Lea)
    case 15 => Some(Trap)
    case _ => None
  }

  /** Every opcode is decoded from its own ordinal. */
  lemma DecodeOrdinal(op: OpCode)
    ensures DecodeOpCode(op.Ordinal()) == Some(op)
  {
  }

  /** Distinct values in 0..=15 decode to distinct opcodes. */
  lemma DecodeInjective(a: Word, b: Word)
    requires a <= 15 && b <= 15 && DecodeOpCode(a) == DecodeOpCode(b)
    ensures a == b
  {
  }

  /** The top four bits of any instruction word, `word >> 12`, are a valid
      opcode: decoding the opcode field never reaches the panic arm. */
  lemma OpCodeFieldDecodes(word: Word)
    ensures Shr(word, 12) <= 15
    ensures DecodeOpCode(Shr(word, 12)).Some?
  {
    Pow2Facts();
    Pow2Add(4, 12);
    HiBelow(word, 4, 12);
    assert Pow2(4) == 16;
  }

  /** The two opcodes the instruction set reserves sit at 8 and 13. */
  lemma ReservedOpCodes()
    ensures DecodeOpCode(8) == Some(Rti)
    ensures DecodeOpCode(13) == Some(Res)
  {
  }
}
