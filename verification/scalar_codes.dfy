/**
  The integer codes the gamma_chess crate hands to libtorch when it wraps a buffer as a tensor:
  the scalar type codes of `c10::ScalarType` and the device codes, both as a C `int` (32 bits).
*/
module ScalarCodes {
  import opened Wrappers

  /** The scalar types of `tch::Kind` the crate can name. */
  datatype Kind =
    | Uint8 | Int8 | Int16 | Int | Int64 | Half | Float | Double
    | ComplexHalf | ComplexFloat | ComplexDouble | Bool | QInt8 | QUInt8 | QInt32 | BFloat16

  /** `kind_to_c_int`: the scalar type code of `ScalarType.h`. */
  function KindCode(k: Kind): (c: int)
    ensures 0 <= c < 16
  {
    match k
    case Uint8 => 0
    case Int8 => 1
    case Int16 => 2
    case Int => 3
    case Int64 => 4
    case Half => 5
    case Float => 6
    case Double => 7
    case ComplexHalf => 8
    case ComplexFloat => 9
    case ComplexDouble => 10
    case Bool => 11
    case QInt8 => 12
    case QUInt8 => 13
    case QInt32 => 14
    case BFloat16 => 15
  }

  /** The scalar type a code in 0..15 stands for. */
  function KindOfCode(c: int): (k: Option<Kind>)
    ensures k.Some? <==> 0 <= c < 16
  {
    if c == 0 then Some(Uint8)
    else if c == 1 then Some(Int8)
    else if c == 2 then Some(Int16)
    else if c == 3 then Some(Int)
    else if c == 4 then Some(Int64)
    else if c == 5 then Some(Half)
    else if c == 6 then Some(Float)
    else if c == 7 then Some(Double)
    else if c == 8 then Some(ComplexHalf)
    else if c == 9 then Some(ComplexFloat)
    else if c == 10 then Some(ComplexDouble)
    else if c == 11 then Some(Bool)
    else if c == 12 then Some(QInt8)
    else if c == 13 then Some(QUInt8)
    else if c == 14 then Some(QInt32)
    else if c == 15 then Some(BFloat16)
    else None
  }

  /**
    The code table is a bijection between the sixteen kinds and 0..15: every kind reads back
    from its code, and every code in range names the kind that has it.
  */
  lemma KindCodeBijective(k: Kind, c: int)
    ensures KindOfCode(KindCode(k)) == Some(k)
    ensures 0 <= c < 16 ==> KindCode(KindOfCode(c).value) == c
  {
  }

  /** Distinct kinds have distinct codes. */
  lemma KindCodeInjective(k: Kind, l: Kind)
    ensures KindCode(k) == KindCode(l) <==> k == l
  {
    KindCodeBijective(k, 0);
    KindCodeBijective(l, 0);
  }

  const I32Min: int := -0x8000_0000
  const I32Max: int := 0x7FFF_FFFF
  const UsizeLimit: int := 0x1_0000_0000_0000_0000

  type Usize = n: nat | n < UsizeLimit

  /** The devices of `tch::Device`; a CUDA device carries its `usize` ordinal. */
  datatype Device = Cpu | Cuda(index: Usize) | Mps | Vulkan

  /** `n as c_int` for an unsigned `n`: keep the low 32 bits, read them as two's complement. */
  function AsCInt(n: nat): (c: int)
    ensures I32Min <= c <= I32Max
    ensures (c - n) % 0x1_0000_0000 == 0
  {
    var low := n % 0x1_0000_0000;
    if low <= I32Max then low else low - 0x1_0000_0000
  }

  /** `device_to_c_int`: -1, -2 and -3 for the CPU, MPS and Vulkan, the ordinal for CUDA. */
  function DeviceCode(d: Device): (c: int)
    ensures I32Min <= c <= I32Max
    ensures d.Cuda? && d.index <= I32Max ==> c == d.index
  {
    match d
    case Cpu => -1
    case Cuda(i) => AsCInt(i)
    case Mps => -2
    case Vulkan => -3
  }

  /** The device a code stands for: the three special codes, or a non-negative CUDA ordinal. */
  function DeviceOfCode(c: int): (d: Option<Device>)
    ensures d.Some? <==> -3 <= c <= I32Max
  {
    if c == -1 then Some(Cpu)
    else if c == -2 then Some(Mps)
    else if c == -3 then Some(Vulkan)
    else if 0 <= c <= I32Max then Some(Cuda(c))
    else None
  }

  /** The devices whose code is faithful: any but a CUDA ordinal above `i32::MAX`. */
  predicate Representable(d: Device)
  {
    d.Cuda? ==> d.index <= I32Max
  }

  /**
    On representable devices the code table is a bijection onto -3..`i32::MAX`: each device reads
    back from its code, and each code in that range is the code of the device it names.
  */
  lemma DeviceCodeRoundTrip(d: Device, c: int)
    ensures Representable(d) ==> DeviceOfCode(DeviceCode(d)) == Some(d)
    ensures -3 <= c <= I32Max ==> Representable(DeviceOfCode(c).value) && DeviceCode(DeviceOfCode(c).value) == c
  {
  }

  /** Representable devices never share a code; in particular a CUDA ordinal never looks like a special device. */
  lemma DeviceCodeInjective(d: Device, e: Device)
    requires Representable(d) && Representable(e)
    ensures DeviceCode(d) == DeviceCode(e) <==> d == e
  {
    DeviceCodeRoundTrip(d, 0);
    DeviceCodeRoundTrip(e, 0);
  }

  /**
    Past `i32::MAX` the cast wraps: CUDA ordinal 2^32 - 1 gets the CPU's code, and ordinal 2^32
    the code of ordinal 0.
  */
  lemma CudaCodeWraps()
    ensures DeviceCode(Cuda(0xFFFF_FFFF)) == DeviceCode(Cpu)
    ensures DeviceCode(Cuda(0x1_0000_0000)) == DeviceCode(Cuda(0))
  {
  }

  /** The codes `ndarray_to_tensor_2` passes for its `f32` buffer on the CPU: scalar type 6 and device -1. */
  lemma FloatOnCpuCodes()
    ensures KindOfCode(6) == Some(Float) && DeviceOfCode(-1) == Some(Cpu)
    ensures KindCode(Float) == 6 && DeviceCode(Cpu) == -1
  {
  }
}
