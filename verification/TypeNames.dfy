/** What the names of the types stand for, in plain numbers. */
module TypeNames {
  import opened Results
  import opened FrontendTypes
  import opened IrTypes
  import opened Words

  /** The names of types. Any other name stands for a type that is not known. */
  const TYPE_NAMES: map<string, FrontendType> :=
    map["void" := FrontendType.Void, "bool" := FrontendType.Bool,
        "u8" := FrontendType.U8, "u16" := FrontendType.U16, "u32" := FrontendType.U32,
        "i8" := FrontendType.I8, "i16" := FrontendType.I16, "i32" := FrontendType.I32,
        "" := FrontendType.Unresolved]

  function Named(name: string): FrontendType {
    if name in TYPE_NAMES then TYPE_NAMES[name] else FrontendType.Unknown("")
  }

  lemma NamedIs(name: string)
    ensures FromString(name) == Named(name)
  {
  }

  /** x is a value of the type with this name. */
  predicate Has(name: string, x: int) {
    FromString(name).Resolve().Ok? && FromString(name).Resolve().value.InRange(x)
  }

  /** The size in bytes of the type with this name, 0 if it has none. */
  function SizeOf(name: string): nat {
    if FromString(name).Resolve().Ok? then FromString(name).Resolve().value.Size() else 0
  }

  lemma NamedTypes()
    ensures FromString("u8").Resolve() == Ok(IrType.U8) && FromString("i8").Resolve() == Ok(IrType.I8)
    ensures FromString("u16").Resolve() == Ok(IrType.U16) && FromString("i16").Resolve() == Ok(IrType.I16)
    ensures FromString("u32").Resolve() == Ok(IrType.U32) && FromString("i32").Resolve() == Ok(IrType.I32)
    ensures FromString("bool").Resolve() == Ok(IrType.BOOL) && FromString("void").Resolve() == Err(InternalError)
  {
  }

  /** Each name stands for a type of its size and range; a boolean takes a byte. */
  lemma NamedRanges(x: int)
    ensures Has("u8", x) <==> 0 <= x <= 255
    ensures Has("u16", x) <==> 0 <= x <= 65535
    ensures Has("u32", x) <==> 0 <= x <= 4294967295
    ensures Has("i8", x) <==> -128 <= x <= 127
    ensures Has("i16", x) <==> -32768 <= x <= 32767
    ensures Has("i32", x) <==> -2147483648 <= x <= 2147483647
    ensures Has("bool", x) <==> 0 <= x <= 255
    ensures !Has("void", x)
    ensures SizeOf("u8") == 1 && SizeOf("u16") == 2 && SizeOf("u32") == 4 && SizeOf("bool") == 1
    ensures SizeOf("i8") == 1 && SizeOf("i16") == 2 && SizeOf("i32") == 4 && SizeOf("void") == 0
  {
    hide FromString;
    NamedTypes();
  }

  /** Wrap-around for the type with this name. */
  function WrapTo(name: string, x: int): int {
    if FromString(name).Resolve().Ok? then FromString(name).Resolve().value.Wrap(x) else x
  }

  /** Wrapping around adds or takes away multiples of 2^8, 2^16 or 2^32 until the value is in range. */
  lemma NamedWraps(x: int)
    ensures Has("u8", WrapTo("u8", x)) && (WrapTo("u8", x) - x) % 256 == 0
    ensures Has("u16", WrapTo("u16", x)) && (WrapTo("u16", x) - x) % 65536 == 0
    ensures Has("u32", WrapTo("u32", x)) && (WrapTo("u32", x) - x) % 4294967296 == 0
    ensures Has("i8", WrapTo("i8", x)) && (WrapTo("i8", x) - x) % 256 == 0
    ensures Has("i16", WrapTo("i16", x)) && (WrapTo("i16", x) - x) % 65536 == 0
    ensures Has("i32", WrapTo("i32", x)) && (WrapTo("i32", x) - x) % 4294967296 == 0
  {
    hide FromString, IrType.Wrap, IrType.InRange;
    NamedTypes();
    forall t: IrType
      ensures (t.Wrap(x) - x) % t.Modulus() == 0
    {
      CongruentAdd(t.Wrap(x), x, x, x, t.Modulus());
    }
  }
}
