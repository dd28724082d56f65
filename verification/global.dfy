/** A WebAssembly global variable as the runtime keeps it: a descriptor
    (mutability and value type) and a 64-bit storage cell that every clone
    of the global shares. */
module Globals {
  import opened Wrappers
  import opened Locations

  /** WebAssembly value types. */
  datatype Type = I32 | I64 | F32 | F64

  type I32Int = x: int | -0x8000_0000 <= x < 0x8000_0000
  type I64Int = x: int | -0x8000_0000_0000_0000 <= x < 0x8000_0000_0000_0000
  type U64Word = x: int | 0 <= x < 0x1_0000_0000_0000_0000

  /** A typed value. Floats are carried as their IEEE-754 bit patterns
      (`to_bits`), which is all the global ever stores of them. */
  datatype Value =
    | I32Value(i: I32Int)
    | I64Value(l: I64Int)
    | F32Value(bits32: U32Word)
    | F64Value(bits64: U64Word)

  /** `Value::ty`. */
  function TypeOf(v: Value): Type {
    match v
    case I32Value(_) => I32
    case I64Value(_) => I64
    case F32Value(_) => F32
    case F64Value(_) => F64
  }

  /** The descriptor: whether `set` is allowed, and the value type. */
  datatype GlobalDesc = GlobalDesc(mutable: bool, ty: Type)

  /** Rust `x as u64` on a signed integer: sign-extend to 64 bits and read
      the bits as unsigned, that is, `x` modulo 2^64. */
  function AsU64(x: int): U64Word {
    x % U64
  }

  /** Rust `x as i64` on a `u64`: the bits read as two's complement. */
  function AsI64(x: int): I64Int {
    var m := x % U64;
    if m < 0x8000_0000_0000_0000 then m else m - U64
  }

  /** The 64-bit word `_new` and `set` store for a value. */
  function Encode(v: Value): U64Word {
    match v
    case I32Value(x) => AsU64(x)
    case I64Value(x) => AsU64(x)
    case F32Value(b) => b
    case F64Value(b) => b
  }

  /** How `get` reads the stored word back at type `ty`: `data as i32`,
      `data as i64`, `f32::from_bits(data as u32)`, `f64::from_bits(data)`. */
  function Decode(ty: Type, data: U64Word): (v: Value)
    ensures TypeOf(v) == ty
  {
    match ty
    case I32 => I32Value(AsI32(data))
    case I64 => I64Value(AsI64(data))
    case F32 => F32Value(data % U32)
    case F64 => F64Value(data)
  }

  /** Storing a value and reading it back at its own type gives the value:
      integers survive the sign extension and the truncation, floats are
      bit-identical. */
  lemma DecodeEncode(v: Value)
    ensures Decode(TypeOf(v), Encode(v)) == v
  {
    match v
    case I32Value(x) =>
      if x < 0 {
        ModUnique(x, U64, -1, x + U64);
        ModUnique(x + U64, U32, U32 - 1, x + U32);
      } else {
        ModUnique(x, U64, 0, x);
        ModUnique(x, U32, 0, x);
      }
    case I64Value(x) =>
      if x < 0 {
        ModUnique(x, U64, -1, x + U64);
      } else {
        ModUnique(x, U64, 0, x);
      }
    case F32Value(b) =>
      ModUnique(b, U32, 0, b);
    case F64Value(b) =>
  }

  /** An `i32` is stored as its 64-bit sign extension: the low half holds its
      32-bit two's complement, the high half copies the sign bit. */
  lemma EncodeSignExtends(x: I32Int)
    ensures Encode(I32Value(x)) % U32 == x % U32
    ensures Encode(I32Value(x)) / U32 == if x < 0 then U32 - 1 else 0
  {
    if x < 0 {
      ModUnique(x, U64, -1, x + U64);
      ModUnique(x + U64, U32, U32 - 1, x + U32);
      ModUnique(x, U32, -1, x + U32);
    } else {
      ModUnique(x, U64, 0, x);
      ModUnique(x, U32, 0, x);
    }
  }

  /** Two values of one type are stored as the same word only if they are
      equal. */
  lemma EncodeInjective(v: Value, w: Value)
    requires TypeOf(v) == TypeOf(w) && Encode(v) == Encode(w)
    ensures v == w
  {
    DecodeEncode(v);
    DecodeEncode(w);
  }

  /** `vm::LocalGlobal`: the storage cell. */
  class LocalGlobal {
    var data: U64Word

    constructor (data: U64Word)
      ensures this.data == data
    {
      this.data := data;
    }
  }

  /** `Global`. Neither field is ever reassigned; `set` writes through the
      shared cell. */
  class Global {
    const desc: GlobalDesc
    const storage: LocalGlobal

    /** `Global::_new`: a fresh cell holding the encoded value. */
    constructor Init(value: Value, mutable: bool)
      ensures desc == GlobalDesc(mutable, TypeOf(value))
      ensures fresh(storage) && storage.data == Encode(value)
      ensures Get() == value
    {
      desc := GlobalDesc(mutable, TypeOf(value));
      storage := new LocalGlobal(Encode(value));
      DecodeEncode(value);
    }

    /** The handle `clone` makes: the same descriptor, the same cell. */
    constructor Share(desc: GlobalDesc, storage: LocalGlobal)
      ensures this.desc == desc && this.storage == storage
    {
      this.desc := desc;
      this.storage := storage;
    }

    /** `Global::new`: an immutable global. */
    static method New(value: Value) returns (g: Global)
      ensures fresh(g) && fresh(g.storage)
      ensures !g.desc.mutable && g.Description().ty == TypeOf(value)
      ensures g.Get() == value
    {
      g := new Global.Init(value, false);
    }

    /** `Global::new_mutable`: a mutable global. */
    static method NewMutable(value: Value) returns (g: Global)
      ensures fresh(g) && fresh(g.storage)
      ensures g.desc.mutable && g.Description().ty == TypeOf(value)
      ensures g.Get() == value
    {
      g := new Global.Init(value, true);
    }

    /** `description`. */
    function Description(): GlobalDesc
      reads this
    {
      desc
    }

    /** `set`: panics (and writes nothing) on an immutable global or a value
        of another type; otherwise overwrites the shared cell, so that every
        handle on it reads the new value. */
    method Set(value: Value) returns (o: Outcome)
      modifies storage
      ensures !desc.mutable ==> o == Abort(Immutable) && storage.data == old(storage.data)
      ensures desc.mutable && desc.ty != TypeOf(value) ==> o == Abort(WrongType) && storage.data == old(storage.data)
      ensures desc.mutable && desc.ty == TypeOf(value) ==>
                o == Done && storage.data == Encode(value) &&
                forall h: Global :: h.storage == storage && h.desc == desc ==> h.Get() == value
    {
      if desc.mutable {
        if desc.ty == TypeOf(value) {
          storage.data := Encode(value);
          DecodeEncode(value);
          return Done;
        } else {
          return Abort(WrongType);
        }
      } else {
        return Abort(Immutable);
      }
    }

    /** `get`: the stored word read back at the descriptor's type. */
    function Get(): (v: Value)
      reads this, storage
      ensures TypeOf(v) == desc.ty
    {
      Decode(desc.ty, storage.data)
    }

    /** `clone`: a second handle on the same cell. */
    method Clone() returns (c: Global)
      ensures fresh(c) && c.desc == desc && c.storage == storage
      ensures c.Get() == Get()
    {
      c := new Global.Share(desc, storage);
    }
  }
}
