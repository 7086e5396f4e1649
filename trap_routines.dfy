/** The trap-vector decoder of `src/vm/trap_routines.rs`. */
module TrapRoutines {
  import opened Bits
  import opened Wrappers

  /** The six trap routines, in declaration order. */
  datatype TrapRoutine = Getc | Out | Puts | In | Putsp | Halt
  {
    /** The implicit discriminant: the position in the declaration. */
    function Ordinal(): (n: nat)
      ensures n < 6
    {
      match this
      case Getc => 0
      case Out => 1
      case Puts => 2
      case In => 3
      case Putsp => 4
      case Halt => 5
    }
  }

  /** The first trap vector, that of GETC. */
  const FirstVector: Word := 0x20

  /** `TrapRoutine::new`: `None` stands for the panic on any value outside
      0x20..=0x25. */
  function DecodeTrapRoutine(value: Word): (r: Option<TrapRoutine>)
    ensures r.Some? <==> FirstVector <= value <= 0x25
    ensures r.Some? ==> r.value.Ordinal() == value - FirstVector
  {
    match value
    case 0x20 => Some(Getc)
    case 0x21 => Some(Out)
    case 0x22 => Some(Puts)
    case 0x23 => Some(In)
    case 0x24 => Some(Putsp)
    case 0x25 => Some(Halt)
    case _ => None
  }

  /** Every routine is decoded from its own vector. */
  lemma DecodeVector(t: TrapRoutine)
    ensures DecodeTrapRoutine(FirstVector + t.Ordinal()) == Some(t)
  {
  }

  /** Distinct accepted vectors select distinct routines. */
  lemma DecodeInjective(a: Word, b: Word)
    requires DecodeTrapRoutine(a).Some? && DecodeTrapRoutine(a) == DecodeTrapRoutine(b)
    ensures a == b
  {
  }

  /** The words the decoder accepts. */
  function AcceptedVectors(): set<Word>
  {
    set v: Word | 0 <= v < WordModulus && DecodeTrapRoutine(v).Some?
  }

  /** Exactly six vectors are accepted: 0x20 through 0x25. */
  lemma ExactlySixVectors()
    ensures AcceptedVectors() == {0x20, 0x21, 0x22, 0x23, 0x24, 0x25}
    ensures |AcceptedVectors()| == 6
  {
    var accepted := {0x20, 0x21, 0x22, 0x23, 0x24, 0x25};
    forall v: Word | v in AcceptedVectors()
      ensures v in accepted
    {
    }
    forall v: Word | v in accepted
      ensures v in AcceptedVectors()
    {
    }
  }
}
