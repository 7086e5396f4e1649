/** The register file of `src/vm/registers.rs`: the ten register names, the
    fixed ten-cell `u16` store indexed by them, and the condition flags. */
module RegisterFile {
  import opened Bits
  import opened Wrappers

  /** `R_COUNT`: the number of registers. */
  const R_COUNT: nat := 10

  /** The registers in declaration order: eight general-purpose registers,
      the program counter and the condition register. */
  datatype Register = R0 | R1 | R2 | R3 | R4 | R5 | R6 | R7 | PC | Cond
  {
    /** The explicit discriminant `register as usize`. */
    function Index(): (i: nat)
      ensures i < R_COUNT
    {
      match this
      case R0 => 0
      case R1 => 1
      case R2 => 2
      case R3 => 3
      case R4 => 4
      case R5 => 5
      case R6 => 6
      case R7 => 7
      case PC => 8
      case Cond => 9
    }
  }

  /** `Register::new`: `None` stands for the panic on a value above 9. */
  function DecodeRegister(value: Word): (r: Option<Register>)
    ensures r.Some? <==> value < R_COUNT
    ensures r.Some? ==> r.value.Index() == value
  {
    match value
    case 0 => Some(R0)
    case 1 => Some(R1)
    case 2 => Some(R2)
    case 3 => Some(R3)
    case 4 => Some(R4)
    case 5 => Some(R5)
    case 6 => Some(R6)
    case 7 => Some(R7)
    case 8 => Some(PC)
    case 9 => Some(Cond)
    case _ => None
  }

  /** Two registers with the same index are the same register, so a write
      to one cell never touches another register. */
  lemma IndexInjective(r: Register, q: Register)
    requires r.Index() == q.Index()
    ensures r == q
  {
  }

  /** Decoding a register's own index gives that register back. */
  lemma DecodeIndex(r: Register)
    ensures DecodeRegister(r.Index()) == Some(r)
  {
  }

  /** `Registers`: the ten cells, read and written through register names. */
  class Registers {
    var cells: array<Word>

    ghost predicate Valid()
      reads this
    {
      cells.Length == R_COUNT
    }

    /** The value the register file holds for `r`. */
    function Get(r: Register): Word
      reads this, cells
      requires Valid()
    {
      cells[r.Index()]
    }

    /** `Registers::new`: every register holds 0. */
    constructor ()
      ensures Valid() && fresh(cells)
      ensures forall r: Register :: Get(r) == 0
    {
      cells := new Word[R_COUNT](_ => 0);
    }

    /** `read` returns the register's value and changes nothing. */
    method Read(r: Register) returns (value: Word)
      requires Valid()
      ensures value == Get(r)
    {
      value := cells[r.Index()];
    }

    /** `write` stores `value` in `r` and leaves every other register as it
        was. */
    method Write(r: Register, value: Word)
      requires Valid()
      modifies cells
      ensures Valid()
      ensures Get(r) == value
      ensures forall q: Register :: q != r ==> Get(q) == old(Get(q))
    {
      cells[r.Index()] := value;
    }
  }

  /** The condition flags, one bit each. */
  datatype Flag = Pos | Zro | Neg
  {
    /** `FL_POS = 1 << 0`, `FL_ZRO = 1 << 1`, `FL_NEG = 1 << 2`. */
    function Value(): (v: Word)
      ensures v == 1 || v == 2 || v == 4
    {
      assert Pow2(2) == 4;
      match this
      case Pos => Shl(1, 0)
      case Zro => Shl(1, 1)
      case Neg => Shl(1, 2)
    }
  }

  /** The flags are the values 1, 2 and 4. */
  lemma FlagValues()
    ensures Pos.Value() == 1 && Zro.Value() == 2 && Neg.Value() == 4
  {
    assert Pow2(2) == 4;
  }

  /** Each flag is a single bit: a power of two within the three low bits. */
  lemma FlagIsOneBit(f: Flag)
    ensures exists k: nat :: k < 3 && f.Value() == Pow2(k)
    ensures And(f.Value(), Ones(3)) == f.Value()
  {
    FlagValues();
    assert Pow2(2) == 4;
    assert Pow2(3) == 8;
    AndOnes(f.Value(), 3);
    assert f.Value() == Pow2(f.Value() / 2);
  }

  /** No two flags share a bit. */
  lemma FlagsDisjoint(f: Flag, g: Flag)
    requires f != g
    ensures And(f.Value(), g.Value()) == 0
  {
    FlagValues();
    assert And(0, 0) == 0 && And(0, 1) == 0 && And(1, 0) == 0;
    assert And(0, 2) == 0 && And(2, 0) == 0;
    assert And(1, 2) == 0 && And(2, 1) == 0;
  }
}
