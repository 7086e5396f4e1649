# vLC3 virtual-machine core in Dafny

vLC3 is an LC-3 virtual machine written in Rust. This project models the
machine's leaf layer:

- the word utilities `swap_endian` and `sign_extend`;
- the register names and the register file;
- the condition flags;
- the opcode and trap-vector decoders;
- the machine state (`MEMORY_MAX` cells of memory plus the register cells),
  zeroed when it is created.

Machine values are integers restricted by subset types: `Byte` is
`0..=0xFF` and `Word` is `0..=0xFFFF`. The Rust operators `<<`, `>>`, `&` and
`|` on `u16` are written out in module `Bits`:

- `Shl` is a multiply reduced modulo 2^16, which models the bits a
  `u16` shift drops.
- `Shr` is repeated halving.
- `And` and `Or` work bit by bit.

Also in `Bits`:

- `Hi(x, n)` and `Lo(x, n)` are the bits of `x` at and above position `n`
  and below it. They are proved to be the quotient and remainder by 2^n.
- `Bit(x, i)` is bit `i` of `x`.
- `Ones(k)` is the number whose `k` low bits are set.

The Rust code panics in three places:

- a decoder (`Register::new`, `OpCodes::new`, `TrapRoutine::new`) that meets
  a value outside its table;
- a `bit_count - 1` that underflows;
- a shift by 16 or more, as a debug build checks it.

Each decoder returns an `Option`, and `None` stands for the panic. For
`sign_extend`, the cases that panic are excluded by its precondition.

Modules, one file each:

- `Bits` (bits.dfy): machine words and bit operations.
- `Wrappers` (wrappers.dfy): `Option`.
- `Utils` (utils.dfy): `src/vm/utils.rs`.
- `RegisterFile` (registers.dfy): `src/vm/registers.rs`.
- `Instructions` (instructions.dfy): `src/vm/instructions.rs`.
- `TrapRoutines` (trap_routines.dfy): `src/vm/trap_routines.rs`.
- `Machine` (vm.dfy): `src/vm.rs`.

## Model

| member | source | states |
|---|---|---|
| Bits.Shl | src/vm/utils.rs:2-8 | `u16` `<<`, as used at lines 2 and 8: a shift by 16 or more is a debug-build panic and is excluded. A value of at most `16 - n` bits comes out multiplied by 2^n, with no bit lost. |
| Bits.Shr | src/vm/utils.rs:7 | `u16` `>>`: a shift by 16 or more is excluded. The result is `x / 2^n` rounded down: `r * 2^n <= x < (r + 1) * 2^n`. |
| Bits.And | src/vm/utils.rs:7 | `&`: the result is at most either operand. |
| Bits.Or | src/vm/utils.rs:8 | `\|`: the result is at least either operand. |
| Utils.SwapEndian | src/vm/utils.rs:1-3 | The word is the first byte times 256 plus the second byte (big-endian pair to `u16`). |
| Utils.SwapEndianNoOverflow | src/vm/utils.rs:2 | `(original[0] as u16) << 8` loses no bits. The `u16` addition of the low byte stays at most 0xFFFF, so it cannot overflow. |
| Utils.SwapEndianRoundTrip | src/vm/utils.rs:1-3 | Splitting the result back into high byte (`r >> 8`) and low byte (`r & 0xFF`) gives the original pair. |
| Utils.SplitWordRoundTrip | src/vm/utils.rs:1-3 | Every word is `swap_endian` of its own high and low byte, so the function is onto. |
| Utils.SwapEndianInjective | src/vm/utils.rs:1-3 | Two different byte pairs never give the same word. |
| Utils.SignExtend | src/vm/utils.rs:5-11 | The `bit_count` low bits are kept. With the sign bit `bit_count - 1` clear, the word is unchanged. With it set, every bit from `bit_count` up is 1. A 16-bit field is returned unchanged. |
| Utils.SignBitTest | src/vm/utils.rs:7 | The test `((y >> (bit_count - 1)) & 1) > 0` holds exactly when bit `bit_count - 1` of `x` is set. |
| Utils.FillHighBits | src/vm/utils.rs:8 | `y \| (0xFFFF << n)` is `16 - n` set bits above the `n` low bits of `y`. |
| Utils.ShlAllOnes | src/vm/utils.rs:8 | `0xFFFF << n` on a `u16` equals 2^16 - 2^n: the high `16 - n` bits are set and the rest are clear. |
| Utils.SignExtendFillsHighBits | src/vm/utils.rs:7-8 | For a negative field, each bit `i` with `bit_count <= i < 16` of the result is 1. |
| Utils.SignExtendKeepsBits | src/vm/utils.rs:5-11 | Sign extension never clears a bit: `sign_extend(x, n) & x == x`. |
| Utils.SignExtendIdempotent | src/vm/utils.rs:5-11 | Sign-extending an already extended word at the same width changes nothing. |
| Utils.SignExtendPreservesValue | src/vm/utils.rs:5-11 | For a field of `bit_count` bits, the result read as 16-bit two's complement equals the field read as `bit_count`-bit two's complement. |
| Utils.NegativeFieldValue | src/vm/utils.rs:8 | The negative case of that equality: the filled word is 2^16 - 2^n + x, and its 16-bit signed value is x - 2^n. |
| RegisterFile.Register.Index | src/vm/registers.rs:1-15 | Every register's discriminant (R0..R7 = 0..7, PC = 8, COND = 9) is below `R_COUNT`. |
| RegisterFile.DecodeRegister | src/vm/registers.rs:17-32 | `Register::new` accepts exactly 0..=9 and panics (None) on any other value. An accepted value decodes to the register whose discriminant it is. |
| RegisterFile.IndexInjective | src/vm/registers.rs:3-15 | Distinct registers have distinct discriminants, so they index distinct cells. |
| RegisterFile.DecodeIndex | src/vm/registers.rs:17-32 | Decoding a register's own discriminant gives that register back. |
| RegisterFile.Registers.constructor | src/vm/registers.rs:39-41 | `Registers::new`: a fresh array of `R_COUNT` cells in which every register reads 0. |
| RegisterFile.Registers.Read | src/vm/registers.rs:43-45 | `read` returns the value held for the register. |
| RegisterFile.Registers.Write | src/vm/registers.rs:47-49 | `write` stores the value in that register. Every other register keeps its old value. |
| RegisterFile.Flag.Value | src/vm/registers.rs:53-58 | `FL_POS = 1 << 0`, `FL_ZRO = 1 << 1`, `FL_NEG = 1 << 2`: each flag value is 1, 2 or 4. |
| RegisterFile.FlagValues | src/vm/registers.rs:53-58 | `FL_POS`, `FL_ZRO` and `FL_NEG` are 1, 2 and 4. |
| RegisterFile.FlagIsOneBit | src/vm/registers.rs:53-58 | Each flag is a power of two among the three low bits. |
| RegisterFile.FlagsDisjoint | src/vm/registers.rs:53-58 | Two different flags have no bit in common. |
| Instructions.OpCode.Ordinal | src/vm/instructions.rs:1-19 | Every opcode's discriminant fits the 4-bit opcode field. |
| Instructions.DecodeOpCode | src/vm/instructions.rs:22-42 | `OpCodes::new` accepts exactly 0..=15 and panics (None) on any other value. An accepted value decodes to the opcode with that discriminant. |
| Instructions.DecodeOrdinal | src/vm/instructions.rs:22-42 | Decoding an opcode's own discriminant gives that opcode back. |
| Instructions.DecodeInjective | src/vm/instructions.rs:22-42 | Two values that decode to the same opcode are equal. |
| Instructions.OpCodeFieldDecodes | src/vm/instructions.rs:22-42 | The top four bits of any instruction word (`instr >> 12`) always decode, so the panic arm is unreachable there. |
| Instructions.ReservedOpCodes | src/vm/instructions.rs:32-37 | 8 decodes to RTI and 13 to the reserved RES opcode. |
| TrapRoutines.TrapRoutine.Ordinal | src/vm/trap_routines.rs:1-9 | The six routines have discriminants 0..=5. |
| TrapRoutines.DecodeTrapRoutine | src/vm/trap_routines.rs:12-21 | `TrapRoutine::new` accepts exactly the vectors 0x20..=0x25 and panics (None) on any other value. The vector is 0x20 plus the routine's position. |
| TrapRoutines.DecodeVector | src/vm/trap_routines.rs:12-21 | Decoding 0x20 plus a routine's position gives that routine back. |
| TrapRoutines.DecodeInjective | src/vm/trap_routines.rs:12-21 | Two vectors that decode to the same routine are equal. |
| TrapRoutines.ExactlySixVectors | src/vm/trap_routines.rs:12-21 | The accepted vectors are exactly {0x20, ..., 0x25}, six of them. |
| Machine.AddressInRange | src/vm.rs:6 | `MEMORY_MAX` is 2^16, so every `u16` address indexes memory. |
| Machine.Vm.constructor | src/vm.rs:14-16 | `Vm::new`: `MEMORY_MAX` memory cells and `R_COUNT` register cells, in fresh, distinct arrays whose every cell is zero. |

## Left out

- `src/main.rs` is not part of this model. It only builds a program path from the first command-line argument, prints it with `println!`, and calls `vm.start`. No file of the repository defines `vm.start`.
- The fetch-decode-execute loop, the program-image loader, keyboard input, the bodies of the trap routines and the update of the condition flags are not in the repository's source. The trap routines and the flags appear there only as enums (with a decoder for the routines), so there is nothing further to model.
- Utils.SignExtend: the precondition excludes the inputs on which a debug build panics. These are `bit_count == 0`, `bit_count > 16`, and a set bit 15 with `bit_count == 16`. A release build would wrap those shifts instead, and that behaviour is not modelled.
- The decoders' panic messages are not modelled. The panic is modelled only as `None`.
- Bits.Shl: the contract speaks only of values that fit after the shift. For wider values, the dropping of the bits past bit 15 is stated by the definition (reduction modulo 2^16) and by Utils.ShlAllOnes for `0xFFFF << n`, not by the contract.
- Bits.And, Bits.Or: the contracts only bound the result by the operands. The bit-by-bit meaning is stated by lemmas in `Bits` (splitting at a bit position, masking with `Ones(k)`), which have no row of their own.
- RegisterFile.Registers.Read: its contract does not say that nothing changes. It needs no `modifies` clause, so that follows from the language.
- The `mod`/`use` wiring in `src/vm.rs` has no behaviour to model.
- Aliasing between the `Vm` fields is limited to the two arrays being distinct.
