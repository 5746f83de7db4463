/** The machine-level types of virtual registers, and the integers each of them holds. */
module IrTypes {

  datatype IrType = BOOL | U8 | U16 | U32 | I8 | I16 | I32 {

    /** Size in bytes. */
    function Size(): (s: nat)
      ensures s == 1 || s == 2 || s == 4
    {
      match this
      case BOOL | U8 | I8 => 1
      case U16 | I16 => 2
      case U32 | I32 => 4
    }

    predicate IsSigned() {
      I8? || I16? || I32?
    }

    /** The number of values that fit: 2^(8 * size). */
    function Modulus(): (m: nat)
      ensures m == 0x100 || m == 0x1_0000 || m == 0x1_0000_0000
    {
      match Size()
      case 1 => 0x100
      case 2 => 0x1_0000
      case _ => 0x1_0000_0000
    }

    /** The value of this type that is congruent to x: two's complement wrap-around. */
    function Wrap(x: int): (y: int)
      ensures InRange(y) && y % Modulus() == x % Modulus()
      ensures InRange(x) ==> y == x
    {
      var r := x % Modulus();
      if IsSigned() && r >= Modulus() / 2 then r - Modulus() else r
    }

    predicate InRange(x: int) {
      if IsSigned() then -(Modulus() / 2) <= x < Modulus() / 2 else 0 <= x < Modulus()
    }

    /** The low bits of w are those of x; the bits above them may be anything. */
    predicate Agrees(w: int, x: int) {
      w % Modulus() == x % Modulus()
    }
  }
}
