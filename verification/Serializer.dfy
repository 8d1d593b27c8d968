/**
 * The type-directed serializer. Go types become descriptors, Go values become trees, and an encoding
 * is a function of a type, the tags of the field it stands in, and a value of that type.
 */
module Serializer {
  import opened BlockTree
  import opened ChainTypes
  import opened BigEndian

  /** The sizes of unsigned integers. */
  type UintBytes = n: nat | n == 1 || n == 2 || n == 4 || n == 8 witness 1

  datatype Tags = Tags(nilOk: bool, width: int)

  datatype Type =
    | BigIntT
    | UintT(bytes: UintBytes)
    | VarUintT
    | BoolT
    | StringT
    | ByteSliceT
    | ByteArrayT(size: nat)
    | FixedT(length: nat)
    | SliceT(elem: Type)
    | ArrayT(size: nat, elem: Type)
    | StructT(fields: Fields)
    | PtrT(target: Type)

  datatype Fields = NoFields | Field(tags: Tags, typ: Type, rest: Fields)

  /** Integers, booleans, byte strings, fixed-size big integers that may be missing, sequences of values
      (of a slice, an array or a struct), and pointers that may be nil. */
  datatype Value =
    | BigInt(i: int)
    | Uint(n: nat)
    | Bool(b: bool)
    | Text(bytes: Bytes)
    | FixedInt(big: Option<int>)
    | Items(items: seq<Value>)
    | Ptr(value: Option<Value>)

  /** The tags elements of lists are treated with. */
  const PLAIN := Tags(false, 1)
  const UINT64: nat := 0x1_0000_0000_0000_0000

  function Abs(i: int): nat {
    if i < 0 then -i else i
  }

  /** The zero value of a type. */
  function Zero(t: Type): Value {
    match t
    case BigIntT => BigInt(0)
    case UintT(_) => Uint(0)
    case VarUintT => Uint(0)
    case BoolT => Bool(false)
    case StringT => Text([])
    case ByteSliceT => Text([])
    case ByteArrayT(size) => Text(Zeros(size))
    case FixedT(_) => FixedInt(None)
    case SliceT(_) => Items([])
    case ArrayT(size, elem) => var z := Zero(elem); Items(seq(size, _ => z))
    case StructT(fields) => Items(ZeroFields(fields))
    case PtrT(_) => Ptr(None)
  }

  function ZeroFields(fs: Fields): seq<Value> {
    if fs.NoFields? then [] else [Zero(fs.typ)] + ZeroFields(fs.rest)
  }

  // ---------- encoding ----------

  function Join(a: Option<Bytes>, b: Option<Bytes>): Option<Bytes> {
    if a.Some? && b.Some? then Some(a.value + b.value) else None
  }

  /** A length in `width` bytes; none if it does not fit. */
  function ListLen(n: nat, width: int): Option<Bytes> {
    if width < 0 || n >= Pow256(width) then None else Some(Fixed(n, width))
  }

  /** A length byte, whatever the length, and the bytes. */
  function VarBytes(b: Bytes): Bytes {
    [|b| % 256] + b
  }

  /**
   * The bytes of a value, or none where the serializer reports an error. `addr` says whether the value
   * can be addressed, which fixed-size integers need. None also stands where v is not of type t.
   */
  function Enc(t: Type, ts: Tags, addr: bool, v: Value): Option<Bytes>
    decreases t, 0
  {
    match (t, v)
    case (BigIntT, BigInt(i)) => if i < 0 then None else Some(VarBytes(Minimal(i)))
    case (UintT(n), Uint(x)) => if x < Pow256(n) then Some(Fixed(x, n)) else None
    case (VarUintT, Uint(x)) => if x < UINT64 then Some(VarBytes(Minimal(x))) else None
    case (BoolT, Bool(b)) => Some([if b then 1 else 0])
    case (StringT, Text(b)) => Some(Fixed(|b|, 4) + b)
    case (ByteSliceT, Text(b)) => Join(ListLen(|b|, ts.width), Some(b))
    case (ByteArrayT(n), Text(b)) => if |b| == n then Some(b) else None
    case (FixedT(n), FixedInt(big)) =>
      if !addr then None
      else if big.None? then Some(Zeros(n))
      else if |Minimal(Abs(big.value))| > n then None
      else Some(Zeros(n - |Minimal(Abs(big.value))|) + Minimal(Abs(big.value)))
    case (SliceT(elem), Items(vs)) => Join(ListLen(|vs|, ts.width), EncAll(elem, true, vs))
    case (ArrayT(n, elem), Items(vs)) => if |vs| == n then EncAll(elem, addr, vs) else None
    case (StructT(fields), Items(vs)) => EncFields(fields, addr, vs)
    case (PtrT(target), Ptr(p)) =>
      if p.None? && ts.nilOk then Some([0])
      else if p.None? then Enc(target, ts, target.FixedT?, Zero(target))
      else Join(Some(if ts.nilOk then [1] else []), Enc(target, ts, true, p.value))
    case _ => None
  }

  function EncAll(elem: Type, addr: bool, vs: seq<Value>): Option<Bytes>
    decreases elem, |vs| + 1
  {
    if vs == [] then Some([]) else Join(Enc(elem, PLAIN, addr, vs[0]), EncAll(elem, addr, vs[1..]))
  }

  function EncFields(fs: Fields, addr: bool, vs: seq<Value>): Option<Bytes>
    decreases fs, 0
  {
    if fs.NoFields? then if vs == [] then Some([]) else None
    else if vs == [] then None
    else Join(Enc(fs.typ, fs.tags, addr, vs[0]), EncFields(fs.rest, addr, vs[1..]))
  }

  // ---------- decoding ----------

  /** A parsed value and the bytes left. */
  datatype Parsed<+T> = Fail | Got(value: T, rest: Bytes)

  function Take(n: nat, b: Bytes): Parsed<Bytes> {
    if n > |b| then Fail else Got(b[..n], b[n..])
  }

  function GetLen(width: int, b: Bytes): Parsed<nat> {
    if width < 1 || width > 4 || width > |b| then Fail
    else if Nat(b[..width]) > |b| - width then Fail
    else Got(Nat(b[..width]), b[width..])
  }

  function GetVarBytes(width: int, b: Bytes): Parsed<Bytes> {
    var n := GetLen(width, b);
    if n.Fail? then Fail else Take(n.value, n.rest)
  }

  function Mapped<T, U>(p: Parsed<T>, f: T -> U): Parsed<U> {
    if p.Fail? then Fail else Got(f(p.value), p.rest)
  }

  function Dec(t: Type, ts: Tags, b: Bytes): Parsed<Value>
    decreases t, 0
  {
    match t
    case BigIntT => Mapped(GetVarBytes(1, b), x => BigInt(Nat(x)))
    case UintT(n) => Mapped(Take(n, b), x => Uint(Nat(x)))
    case VarUintT => Mapped(GetVarBytes(1, b), x => Uint(Nat(x) % UINT64))
    case BoolT => if b == [] || b[0] > 1 then Fail else Got(Bool(b[0] == 1), b[1..])
    case StringT => Mapped(GetVarBytes(4, b), x => Text(x))
    case ByteSliceT => Mapped(GetVarBytes(ts.width, b), x => Text(x))
    case ByteArrayT(n) => Mapped(Take(n, b), x => Text(x))
    case FixedT(n) => Mapped(Take(n, b), x => FixedInt(Some(Nat(x))))
    case SliceT(elem) =>
      var n := GetLen(ts.width, b);
      if n.Fail? then Fail else Mapped(DecAll(elem, n.value, n.rest), vs => Items(vs))
    case ArrayT(n, elem) => Mapped(DecAll(elem, n, b), vs => Items(vs))
    case StructT(fields) => Mapped(DecFields(fields, b), vs => Items(vs))
    case PtrT(target) =>
      if ts.nilOk && b == [] then Fail
      else if ts.nilOk && b[0] == 0 then Got(Ptr(None), b[1..])
      else Mapped(Dec(target, ts, if ts.nilOk then b[1..] else b), x => Ptr(Some(x)))
  }

  function DecAll(elem: Type, n: nat, b: Bytes): Parsed<seq<Value>>
    decreases elem, n + 1
  {
    if n == 0 then Got([], b)
    else
      var x := Dec(elem, PLAIN, b);
      if x.Fail? then Fail else Mapped(DecAll(elem, n - 1, x.rest), vs => [x.value] + vs)
  }

  function DecFields(fs: Fields, b: Bytes): Parsed<seq<Value>>
    decreases fs, 0
  {
    if fs.NoFields? then Got([], b)
    else
      var x := Dec(fs.typ, fs.tags, b);
      if x.Fail? then Fail else Mapped(DecFields(fs.rest, x.rest), vs => [x.value] + vs)
  }

  // ---------- what comes back ----------

  /** A value as it comes back: nil pointers that are not optional are zero values, and missing
      fixed-size integers are 0. */
  ghost function Norm(t: Type, ts: Tags, v: Value): Value
    decreases t, 0
  {
    match (t, v)
    case (FixedT(_), FixedInt(None)) => FixedInt(Some(0))
    case (SliceT(elem), Items(vs)) => Items(NormAll(elem, vs))
    case (ArrayT(_, elem), Items(vs)) => Items(NormAll(elem, vs))
    case (StructT(fields), Items(vs)) => Items(NormFields(fields, vs))
    case (PtrT(target), Ptr(p)) =>
      if p.None? && ts.nilOk then v
      else Ptr(Some(Norm(target, ts, if p.None? then Zero(target) else p.value)))
    case _ => v
  }

  ghost function NormAll(elem: Type, vs: seq<Value>): (r: seq<Value>)
    ensures |r| == |vs|
    decreases elem, |vs| + 1
  {
    if vs == [] then [] else [Norm(elem, PLAIN, vs[0])] + NormAll(elem, vs[1..])
  }

  ghost function NormFields(fs: Fields, vs: seq<Value>): (r: seq<Value>)
    ensures |r| == |vs|
    decreases fs, 0
  {
    if fs.NoFields? || vs == [] then vs
    else [Norm(fs.typ, fs.tags, vs[0])] + NormFields(fs.rest, vs[1..])
  }

  /** How many bytes a value takes. */
  ghost function Size(t: Type, ts: Tags, v: Value): nat
    decreases t, 0
  {
    match (t, v)
    case (BigIntT, BigInt(i)) => 1 + |Minimal(Abs(i))|
    case (UintT(n), Uint(_)) => n
    case (VarUintT, Uint(x)) => 1 + |Minimal(x)|
    case (BoolT, Bool(_)) => 1
    case (StringT, Text(b)) => 4 + |b|
    case (ByteSliceT, Text(b)) => Abs(ts.width) + |b|
    case (ByteArrayT(n), Text(_)) => n
    case (FixedT(n), FixedInt(_)) => n
    case (SliceT(elem), Items(vs)) => Abs(ts.width) + SizeAll(elem, vs)
    case (ArrayT(_, elem), Items(vs)) => SizeAll(elem, vs)
    case (StructT(fields), Items(vs)) => SizeFields(fields, vs)
    case (PtrT(target), Ptr(p)) =>
      if p.None? && ts.nilOk then 1
      else (if ts.nilOk then 1 else 0) + Size(target, ts, if p.None? then Zero(target) else p.value)
    case _ => 0
  }

  ghost function SizeAll(elem: Type, vs: seq<Value>): nat
    decreases elem, |vs| + 1
  {
    if vs == [] then 0 else Size(elem, PLAIN, vs[0]) + SizeAll(elem, vs[1..])
  }

  ghost function SizeFields(fs: Fields, vs: seq<Value>): nat
    decreases fs, 0
  {
    if fs.NoFields? || vs == [] then 0 else Size(fs.typ, fs.tags, vs[0]) + SizeFields(fs.rest, vs[1..])
  }

  /** A list length that is written in full and read back: width 1 to 4, and large enough for it. */
  ghost predicate FitsWidth(n: nat, width: int) {
    1 <= width <= 4 && n < Pow256(width)
  }

  /**
   * The values that survive, when `room` more bytes follow: big integers are not negative and have at
   * most 255 bytes, fixed-size integers can be addressed and are in range, strings are shorter than
   * 2^32, list lengths fit their width, and a list has no more elements than bytes follow its length.
   */
  ghost predicate WellFormed(t: Type, ts: Tags, addr: bool, v: Value, room: nat)
    decreases t, 0
  {
    match (t, v)
    case (BigIntT, BigInt(i)) => 0 <= i && |Minimal(i)| <= 255
    case (UintT(n), Uint(x)) => x < Pow256(n)
    case (VarUintT, Uint(x)) => x < UINT64
    case (BoolT, Bool(_)) => true
    case (StringT, Text(b)) => |b| < Pow256(4)
    case (ByteSliceT, Text(b)) => FitsWidth(|b|, ts.width)
    case (ByteArrayT(n), Text(b)) => |b| == n
    case (FixedT(n), FixedInt(big)) => addr && (big.None? || 0 <= big.value < Pow256(n))
    case (SliceT(elem), Items(vs)) =>
      FitsWidth(|vs|, ts.width) && |vs| <= SizeAll(elem, vs) + room && AllWellFormed(elem, true, vs, room)
    case (ArrayT(n, elem), Items(vs)) => |vs| == n && AllWellFormed(elem, addr, vs, room)
    case (StructT(fields), Items(vs)) => FieldsWellFormed(fields, addr, vs, room)
    case (PtrT(target), Ptr(p)) =>
      if p.None? && ts.nilOk then true
      else if p.None? then WellFormed(target, ts, target.FixedT?, Zero(target), room)
      else WellFormed(target, ts, true, p.value, room)
    case _ => false
  }

  ghost predicate AllWellFormed(elem: Type, addr: bool, vs: seq<Value>, room: nat)
    decreases elem, |vs| + 1
  {
    vs != [] ==>
      && WellFormed(elem, PLAIN, addr, vs[0], SizeAll(elem, vs[1..]) + room)
      && AllWellFormed(elem, addr, vs[1..], room)
  }

  ghost predicate FieldsWellFormed(fs: Fields, addr: bool, vs: seq<Value>, room: nat)
    decreases fs, 0
  {
    if fs.NoFields? then vs == []
    else
      && vs != []
      && WellFormed(fs.typ, fs.tags, addr, vs[0], SizeFields(fs.rest, vs[1..]) + room)
      && FieldsWellFormed(fs.rest, addr, vs[1..], room)
  }
}
