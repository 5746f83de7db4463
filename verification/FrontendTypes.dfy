/** Types as the source language sees them. */
module FrontendTypes {
  import opened Results
  import IrTypes

  datatype FrontendType =
    | Void | Bool | U8 | U16 | U32 | I8 | I16 | I32
    | Unresolved | UnresolvedInt | UnresolvedFloat | Unknown(name: string)
    | Function(returnType: FrontendType, paramTypes: seq<FrontendType>)
  {
    predicate IsInteger() {
      I8? || I16? || I32? || U8? || U16? || U32? || UnresolvedInt?
    }

    predicate IsUnsignedInteger() {
      U8? || U16? || U32? || UnresolvedInt?
    }

    predicate IsNumeric() {
      IsInteger() || UnresolvedFloat?
    }

    /** Conversion to a machine type, an internal error for types that have none. */
    function Resolve(): Result<IrTypes.IrType> {
      match this
      case Bool => Ok(IrTypes.IrType.BOOL)
      case I8 => Ok(IrTypes.IrType.I8)
      case I16 => Ok(IrTypes.IrType.I16)
      case I32 => Ok(IrTypes.IrType.I32)
      case U8 => Ok(IrTypes.IrType.U8)
      case U16 => Ok(IrTypes.IrType.U16)
      case U32 => Ok(IrTypes.IrType.U32)
      case _ => Err(InternalError)
    }
  }

  function FromString(s: string): FrontendType {
    if s == "" then Unresolved
    else if s == "void" then Void
    else if s == "bool" then Bool
    else if s == "u8" then U8
    else if s == "u16" then U16
    else if s == "u32" then U32
    else if s == "i8" then I8
    else if s == "i16" then I16
    else if s == "i32" then I32
    else Unknown("")
  }
}
