/** The machine state of `src/vm.rs`: the whole 16-bit address space and
    the register cells, both zeroed on creation. */
module Machine {
  import opened Bits
  import RegisterFile

  /** `MEMORY_MAX`: one cell per 16-bit address. */
  const MEMORY_MAX: nat := 65536

  /** `MEMORY_MAX` is 2^16, so every `u16` address is a valid index. */
  lemma AddressInRange(address: Word)
    ensures MEMORY_MAX == Pow2(16)
    ensures address < MEMORY_MAX
  {
    Pow2Facts();
  }

  /** `Vm`: the memory and a raw register array of `R_COUNT` cells. */
  class Vm {
    var memory: array<Word>
    var registers: array<Word>

    ghost predicate Valid()
      reads this
    {
      memory.Length == MEMORY_MAX && registers.Length == RegisterFile.R_COUNT
      && memory != registers
    }

    /** `Vm::new`: all memory cells and all registers hold 0. */
    constructor ()
      ensures Valid() && fresh(memory) && fresh(registers)
      ensures forall a: Word :: memory[a] == 0
      ensures forall i | 0 <= i < registers.Length :: registers[i] == 0
    {
      memory := new Word[MEMORY_MAX](_ => 0);
      registers := new Word[RegisterFile.R_COUNT](_ => 0);
    }
  }
}
