/** The element-type trait table of the public header: which C++ element types
    a collective accepts, the datatype each maps to, its size, and whether it
    is a native arithmetic type or a 16-bit storage struct. */
module TypeTraits {

  /** The library's datatype enumeration (the built-in values only). */
  datatype Datatype =
    | Int8 | Uint8 | Int16 | Uint16 | Int32 | Uint32 | Int64 | Uint64
    | Float16 | Float32 | Float64 | Bfloat16
  {
    function Name(): string {
      match this
      case Int8 => "int8"
      case Uint8 => "uint8"
      case Int16 => "int16"
      case Uint16 => "uint16"
      case Int32 => "int32"
      case Uint32 => "uint32"
      case Int64 => "int64"
      case Uint64 => "uint64"
      case Float16 => "float16"
      case Float32 => "float32"
      case Float64 => "float64"
      case Bfloat16 => "bfloat16"
    }
  }

  /** A C++ element type a caller may instantiate the trait with. Every type
      that has no specialization is an `Unspecialized` one. */
  datatype CppType =
    | I8 | U8 | I16 | U16 | I32 | U32 | I64 | U64
    | Float | Double
    | Float16Struct | Bfloat16Struct
    | Unspecialized(name: string)
  {
    /** The name the type carries in the library's namespace. */
    function Name(): string {
      match this
      case I8 => "int8"
      case U8 => "uint8"
      case I16 => "int16"
      case U16 => "uint16"
      case I32 => "int32"
      case U32 => "uint32"
      case I64 => "int64"
      case U64 => "uint64"
      case Float => "float"
      case Double => "double"
      case Float16Struct => "float16"
      case Bfloat16Struct => "bfloat16"
      case Unspecialized(n) => n
    }

    predicate IsFixedWidthInteger() {
      I8? || U8? || I16? || U16? || I32? || U32? || I64? || U64?
    }

    predicate IsLowPrecisionStruct() {
      Float16Struct? || Bfloat16Struct?
    }

    /** The N of intN_t / uintN_t. */
    function BitWidth(): nat
      requires IsFixedWidthInteger()
    {
      if I8? || U8? then 8
      else if I16? || U16? then 16
      else if I32? || U32? then 32
      else 64
    }
  }

  /** `sizeof` on the platforms the library targets. The two 16-bit types are
      packed structs holding a single uint16_t. */
  function SizeOf(t: CppType): nat
    requires !t.Unspecialized?
  {
    match t
    case I8 => 1
    case U8 => 1
    case I16 => 2
    case U16 => 2
    case I32 => 4
    case U32 => 4
    case I64 => 8
    case U64 => 8
    case Float => 4
    case Double => 8
    case Float16Struct => 2
    case Bfloat16Struct => 2
  }

  /** The exported fields of one trait instance: size, datatype, whether the
      type is a class, whether it is supported. */
  datatype TypeInfo = TypeInfo(size: nat, dtype: Datatype, isClass: bool, isSupported: bool)

  /** type_info<T>: the base template for any other type, and one
      specialization per supported type. */
  function Info(t: CppType): (r: TypeInfo)
    ensures r.isSupported <==> !t.Unspecialized?
    ensures r.isClass ==> r.isSupported
  {
    match t
    case I8 => TypeInfo(SizeOf(t), Int8, false, true)
    case U8 => TypeInfo(SizeOf(t), Uint8, false, true)
    case I16 => TypeInfo(SizeOf(t), Int16, false, true)
    case U16 => TypeInfo(SizeOf(t), Uint16, false, true)
    case I32 => TypeInfo(SizeOf(t), Int32, false, true)
    case U32 => TypeInfo(SizeOf(t), Uint32, false, true)
    case I64 => TypeInfo(SizeOf(t), Int64, false, true)
    case U64 => TypeInfo(SizeOf(t), Uint64, false, true)
    case Float => TypeInfo(SizeOf(t), Float32, false, true)
    case Double => TypeInfo(SizeOf(t), Float64, false, true)
    case Float16Struct => TypeInfo(SizeOf(t), Float16, true, true)
    case Bfloat16Struct => TypeInfo(SizeOf(t), Bfloat16, true, true)
    case Unspecialized(_) => TypeInfo(0, Int8, false, false)
  }

  /** is_native_type_supported<T>(). */
  predicate IsNativeTypeSupported(t: CppType)
    ensures IsNativeTypeSupported(t) <==> t.IsFixedWidthInteger() || t == Float || t == Double
  {
    Info(t).isSupported && !Info(t).isClass
  }

  /** is_class_supported<T>(). */
  predicate IsClassSupported(t: CppType)
    ensures IsClassSupported(t) <==> t.IsLowPrecisionStruct()
  {
    Info(t).isSupported && Info(t).isClass
  }

  /** The element type that stores values of a datatype: the inverse of the
      datatype column of the table. */
  function StorageType(d: Datatype): (t: CppType)
    ensures Info(t).isSupported && Info(t).dtype == d
  {
    match d
    case Int8 => I8
    case Uint8 => U8
    case Int16 => I16
    case Uint16 => U16
    case Int32 => I32
    case Uint32 => U32
    case Int64 => I64
    case Uint64 => U64
    case Float16 => Float16Struct
    case Float32 => Float
    case Float64 => Double
    case Bfloat16 => Bfloat16Struct
  }

  /** Size in bytes of one element of a datatype, as the table records it. */
  function ElementSize(d: Datatype): (n: nat)
    ensures 1 <= n <= 8
    ensures n == Info(StorageType(d)).size
  {
    Info(StorageType(d)).size
  }

  /** A type without a specialization reports size 0, datatype int8, not a
      class and not supported. */
  lemma UnspecializedDefaults(name: string)
    ensures Info(Unspecialized(name)) == TypeInfo(0, Int8, false, false)
    ensures !IsNativeTypeSupported(Unspecialized(name)) && !IsClassSupported(Unspecialized(name))
  {
  }

  /** Each fixed-width integer type maps to the datatype of the same name, is
      as wide in bytes as its name says, and is a supported non-class type. */
  lemma FixedWidthIntegers(t: CppType)
    requires t.IsFixedWidthInteger()
    ensures Info(t).dtype.Name() == t.Name()
    ensures Info(t).size * 8 == t.BitWidth()
    ensures Info(t).isSupported && !Info(t).isClass
  {
  }

  /** float is float32 in 4 bytes, double is float64 in 8 bytes; both native. */
  lemma FloatingPointTypes()
    ensures Info(Float) == TypeInfo(4, Float32, false, true)
    ensures Info(Double) == TypeInfo(8, Float64, false, true)
    ensures IsNativeTypeSupported(Float) && IsNativeTypeSupported(Double)
  {
  }

  /** The two 16-bit structs map to their datatypes as supported classes and
      are as large as one uint16_t. */
  lemma LowPrecisionStructs(t: CppType)
    requires t.IsLowPrecisionStruct()
    ensures Info(t).dtype.Name() == t.Name()
    ensures Info(t).size == SizeOf(U16) == 2
    ensures Info(t).isSupported && Info(t).isClass
  {
  }

  /** The two support checkers never both hold; for a supported type exactly
      one does, for an unsupported type neither does. */
  lemma SupportCheckersExclusive(t: CppType)
    ensures !(IsNativeTypeSupported(t) && IsClassSupported(t))
    ensures Info(t).isSupported ==> (IsNativeTypeSupported(t) != IsClassSupported(t))
    ensures !Info(t).isSupported ==> !IsNativeTypeSupported(t) && !IsClassSupported(t)
  {
  }

  /** The datatype column is one-to-one on supported types, and the element
      size of a type's datatype is that type's size. */
  lemma DatatypeRoundTrip(t: CppType)
    requires Info(t).isSupported
    ensures StorageType(Info(t).dtype) == t
    ensures ElementSize(Info(t).dtype) == Info(t).size == SizeOf(t)
  {
  }
}
