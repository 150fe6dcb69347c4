/** The integer primitives of the tusl virtual machine (the `define1` and
    `define2` words of tusl.c). Each one pops its inputs, named `y` (next
    on the stack) and `z` (top), and pushes one 32-bit result; the only
    primitive error is division by zero. */
module TuslPrims {
  import opened Cells

  /** Success with a value, or an error carrying the message the C code
      formats for `ts_error`. */
  datatype Result<T> = Ok(value: T) | Err(message: string)

  /** The two-input words: `+ - * u* / mod u/ umod = < u< and or xor << >> u>>`. */
  datatype BinOp = Add | Sub | Mul | UMul | IDiv | IMod | UDiv | UMod
                 | Eq | Lt | ULt | And | Or | Xor | LShift | RShift | URShift

  /** The one-input words: `0< 0= 2+ 1+ 1- 2- 2* 4* 2/ 4/`. */
  datatype UnOp = IsNegative | IsZero | Add2 | Add1 | Sub1 | Sub2
                | Times2 | Times4 | Div2 | Div4

  /** The words that divide, and so check their divisor. */
  predicate Divides(op: BinOp) {
    op == IDiv || op == IMod || op == UDiv || op == UMod
  }

  /** The VM's truth values: a comparison pushes all ones for true and zero
      for false, so that `and`, `or` and `xor` combine them. */
  function Flag(b: bool): (r: i32)
    ensures r == -1 <==> b
    ensures r == 0 <==> !b
  {
    if b then -1 else 0
  }

  /** `y op z` as the C code computes it on 32-bit `int`s. Signed overflow,
      which C leaves undefined, wraps here. */
  function Binary(op: BinOp, y: i32, z: i32): (r: Result<i32>)
    ensures r.Err? <==> Divides(op) && z == 0
    ensures r.Err? ==> r.message == "Division by 0"
  {
    if Divides(op) && z == 0 then Err("Division by 0")
    else if op == And || op == Or || op == Xor then Ok(Bitwise(op, y, z))
    else if op == Eq || op == Lt || op == ULt then Ok(Compare(op, y, z))
    else Ok(Arithmetic(op, y, z))
  }

  function Arithmetic(op: BinOp, y: i32, z: i32): i32
    requires Divides(op) ==> z != 0
  {
    match op
    case Add => Wrap(y + z)
    case Sub => Wrap(y - z)
    case Mul => Product(y, z)
    case UMul => UnsignedProduct(y, z)
    case IDiv => Quotient(y, z)
    case IMod => Remainder(y, z)
    case UDiv => UnsignedQuotient(y, z)
    case UMod => UnsignedRemainder(y, z)
    case LShift => ShiftLeft(y, z)
    case RShift => ShiftRightSigned(y, z)
    case URShift => ShiftRightUnsigned(y, z)
    case _ => 0
  }

  function Product(y: i32, z: i32): i32 { Wrap(y * z) }
  function UnsignedProduct(y: i32, z: i32): i32 { Wrap(ToUnsigned(y) * ToUnsigned(z)) }
  function Quotient(y: i32, z: i32): i32 requires z != 0 { Wrap(TruncDiv(y, z)) }
  function Remainder(y: i32, z: i32): i32 requires z != 0 { Wrap(TruncMod(y, z)) }

  function Compare(op: BinOp, y: i32, z: i32): i32 {
    if op == Eq then Flag(y == z)
    else if op == Lt then Flag(y < z)
    else Flag(ToUnsigned(y) < ToUnsigned(z))
  }

  function Bitwise(op: BinOp, y: i32, z: i32): i32 {
    if op == And then Cells.And(y, z)
    else if op == Or then Cells.Or(y, z)
    else Cells.Xor(y, z)
  }

  /** `(unsigned)y / (unsigned)z`, read back as an `int`. */
  function UnsignedQuotient(y: i32, z: i32): i32
    requires z != 0
  {
    var u: int, v: int := ToUnsigned(y), ToUnsigned(z);
    QuotientBounds(u, v);
    ToSigned(u / v)
  }

  /** `(unsigned)y % (unsigned)z`, read back as an `int`. */
  function UnsignedRemainder(y: i32, z: i32): i32
    requires z != 0
  {
    var u: int, v: int := ToUnsigned(y), ToUnsigned(z);
    QuotientBounds(u, v);
    ToSigned(u % v)
  }

  lemma QuotientBounds(u: nat, v: int)
    requires v >= 1
    ensures 0 <= u / v <= u
    ensures 0 <= u % v < v
  {
  }

  /** The truncated quotient fits an `int` except for `MinInt / -1`. */
  lemma TruncDivFits(y: i32, z: i32)
    requires z != 0
    requires !(y == MinInt && z == -1)
    ensures MinInt <= TruncDiv(y, z) <= MaxInt
  {
    var a: int := if y < 0 then -(y as int) else y;
    var b: int := if z < 0 then -(z as int) else z;
    QuotientBounds(a, b);
    if b >= 2 {
      assert a / b <= a / 2 by { HalfBound(a, b); }
    }
  }

  lemma HalfBound(a: nat, b: int)
    requires b >= 2
    ensures a / b <= a / 2
  {
    assert a == b * (a / b) + a % b;
    assert b * (a / b) >= 2 * (a / b);
  }

  /** `op z` as the C code computes it; `2*` and `4*` are left shifts and
      `2/` and `4/` arithmetic right shifts. */
  function Unary(op: UnOp, z: i32): (r: i32)
  {
    match op
    case IsNegative => Flag(z < 0)
    case IsZero => Flag(z == 0)
    case Add2 => Wrap(z + 2)
    case Add1 => Wrap(z + 1)
    case Sub1 => Wrap(z - 1)
    case Sub2 => Wrap(z - 2)
    case Times2 => ShiftLeft(z, 1)
    case Times4 => ShiftLeft(z, 2)
    case Div2 => ShiftRightSigned(z, 1)
    case Div4 => ShiftRightSigned(z, 2)
  }

  /** The comparison words push -1 exactly when their relation holds and 0
      otherwise, as do `0<` and `0=`. */
  lemma ComparisonsAreFlags(y: i32, z: i32)
    ensures Binary(Eq, y, z) == Ok(-1) <==> y == z
    ensures Binary(Eq, y, z) == Ok(0) <==> y != z
    ensures Binary(Lt, y, z) == Ok(-1) <==> y < z
    ensures Binary(Lt, y, z) == Ok(0) <==> y >= z
    ensures Binary(ULt, y, z) == Ok(-1) <==> ToUnsigned(y) < ToUnsigned(z)
    ensures Binary(ULt, y, z) == Ok(0) <==> ToUnsigned(y) >= ToUnsigned(z)
    ensures Unary(IsNegative, z) == -1 <==> z < 0
    ensures Unary(IsZero, z) == -1 <==> z == 0
  {
  }

  /** `/` and `mod` are C's truncating pair: away from the one overflowing
      case the quotient and remainder rebuild the dividend, and the
      remainder is smaller than the divisor and has the dividend's sign. */
  lemma {:induction false} DivModPair(y: i32, z: i32)
    requires z != 0
    requires !(y == MinInt && z == -1)
    ensures Binary(IDiv, y, z).Ok? && Binary(IMod, y, z).Ok?
    ensures y == Binary(IDiv, y, z).value * z + Binary(IMod, y, z).value
    ensures y >= 0 ==> Binary(IMod, y, z).value >= 0
    ensures y <= 0 ==> Binary(IMod, y, z).value <= 0
  {
    TruncDivFits(y, z);
    assert Wrap(TruncDiv(y, z)) == TruncDiv(y, z);
    assert Wrap(TruncMod(y, z)) == TruncMod(y, z);
  }

  /** `u/` and `umod` divide the unsigned readings of the cells, and the
      remainder is below the unsigned divisor. */
  lemma {:induction false} UnsignedDivMod(y: i32, z: i32)
    requires z != 0
    ensures Binary(UDiv, y, z).Ok? && Binary(UMod, y, z).Ok?
    ensures ToUnsigned(Binary(UDiv, y, z).value) == ToUnsigned(y) / ToUnsigned(z)
    ensures ToUnsigned(Binary(UMod, y, z).value) == ToUnsigned(y) % ToUnsigned(z)
    ensures ToUnsigned(Binary(UMod, y, z).value) < ToUnsigned(z)
  {
    var u: int, v: int := ToUnsigned(y), ToUnsigned(z);
    QuotientBounds(u, v);
    assert Binary(UDiv, y, z) == Ok(ToSigned(u / v));
    assert Binary(UMod, y, z) == Ok(ToSigned(u % v));
    SignedUnsignedRoundTrip(ToSigned(u / v));
    SignedUnsignedRoundTrip(ToSigned(u % v));
  }

  /** `2/` and `4/` shift, so they round toward minus infinity, where `/`
      truncates toward zero: the two agree on non-negative and on even
      numbers, and on a negative odd number the shift is one below the
      quotient (on -3 the shift gives -2 and the division -1). */
  lemma HalvingRoundsDown(y: i32)
    ensures 2 * Unary(Div2, y) <= y < 2 * Unary(Div2, y) + 2
    ensures 4 * Unary(Div4, y) <= y < 4 * Unary(Div4, y) + 4
    ensures Binary(IDiv, y, 2).Ok?
    ensures Binary(IDiv, y, 2).value == if y < 0 && y % 2 == 1 then Unary(Div2, y) + 1 else Unary(Div2, y)
  {
    assert ShiftCount(1) == 1 && ShiftCount(2) == 2;
    assert Unary(Div2, y) == Halve(y / 2, 0) == y / 2;
    assert Unary(Div4, y) == Halve((y / 2) / 2, 0) == (y / 2) / 2;
    var t := TruncDiv(y, 2);
    if y < 0 {
      var a: int := -(y as int);
      assert t == -(a / 2);
      if y % 2 == 1 {
        assert a == 2 * (a / 2) + 1;
      } else {
        assert a == 2 * (a / 2);
      }
    }
    assert MinInt <= t <= MaxInt;
  }
}
