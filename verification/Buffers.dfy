/** The serializer at work: writing appends to a byte slice, reading moves along a byte buffer. */
module Buffers {
  import opened BlockTree
  import opened ChainTypes
  import opened BigEndian
  import opened Serializer

  /** Pads a number's bytes on the left to a given size; none if they are more. */
  method PrefillByteArray(size: nat, b: Bytes) returns (r: Option<Bytes>)
    ensures r == if |b| > size then None else Some(Zeros(size - |b|) + b)
  {
    if |b| > size {
      return None;
    }
    if |b| == size {
      assert Zeros(0) + b == b;
      return Some(b);
    }
    return Some(Zeros(size - |b|) + b);
  }

  lemma LastByte(n: nat, width: nat)
    requires width > 0
    ensures Fixed(n, width) == Fixed(n / 256, width - 1) + [n % 256]
    ensures n < Pow256(width) <==> n / 256 < Pow256(width - 1)
  {
  }

  lemma NothingLeft(width: nat)
    ensures Fixed(0, width) == Zeros(width) && Pow256(width) > 0 && Pow256(0) == 1
  {
    FixedOfZero(width);
  }

  /** The lowest bytes of a length, filled in from the right; none if some of it is left. */
  method ListLenBytes(n: nat, width: int) returns (r: Option<Bytes>)
    ensures r == ListLen(n, width)
  {
    hide Fixed, Pow256;
    if width < 0 {
      return None;
    }
    var size := new Byte[width](_ => 0);
    var i: int, len: nat := width - 1, n;
    while i >= 0 && len != 0
      invariant -1 <= i < width
      invariant forall k :: 0 <= k <= i ==> size[k] == 0
      invariant Fixed(n, width) == Fixed(len, i + 1) + size[i + 1..]
      invariant n < Pow256(width) <==> len < Pow256(i + 1)
      decreases i
    {
      LastByte(len, i + 1);
      ghost var after := size[i + 1..];
      size[i] := len % 256;
      assert size[i..] == [len % 256] + after;
      len := len / 256;
      i := i - 1;
    }
    NothingLeft(i + 1);
    if len > 0 {
      return None;
    }
    assert size[..] == Zeros(i + 1) + size[i + 1..];
    return Some(size[..]);
  }

  // ---------- writing ----------

  lemma BigIntEncoding(i: int)
    ensures Enc(BigIntT, PLAIN, true, BigInt(i)) == if i < 0 then None else Some(VarBytes(Minimal(i)))
    ensures Minimal(0) == []
  {
    hide VarBytes;
  }

  class Writer {
    var w: Bytes

    constructor ()
      ensures w == []
    {
      w := [];
    }

    /** Appends an encoding, if there is one. */
    ghost predicate Appended(before: Bytes, enc: Option<Bytes>, ok: bool)
      reads this
    {
      (ok <==> enc.Some?) && (ok ==> w == before + enc.value)
    }

    method WriteListLen(n: nat, width: int) returns (ok: bool)
      modifies this
      ensures Appended(old(w), ListLen(n, width), ok)
    {
      var size := ListLenBytes(n, width);
      ok := size.Some?;
      if ok {
        w := w + size.value;
      }
    }

    method SerializeFixSizeBigUint(big: Option<int>, size: nat) returns (ok: bool)
      modifies this
      ensures Appended(old(w), Enc(FixedT(size), PLAIN, true, FixedInt(big)), ok)
    {
      hide Minimal;
      if big.None? {
        w := w + Zeros(size);
        return true;
      }
      var b := PrefillByteArray(size, Minimal(Abs(big.value)));
      ok := b.Some?;
      if ok {
        w := w + b.value;
      }
    }

    method SerializeBigInt(i: int) returns (ok: bool)
      modifies this
      ensures Appended(old(w), Enc(BigIntT, PLAIN, true, BigInt(i)), ok)
    {
      BigIntEncoding(i);
      hide Minimal, Enc;
      var b := [];
      if i < 0 {
        return false;
      } else if i > 0 {
        b := Minimal(i);
      }
      w := w + [|b| % 256] + b;
      assert old(w) + [|b| % 256] + b == old(w) + VarBytes(b);
      return true;
    }

    /** Writes a value by its type. */
    method Serialize(t: Type, ts: Tags, addr: bool, v: Value) returns (ok: bool)
      modifies this
      ensures Appended(old(w), Enc(t, ts, addr, v), ok)
      decreases t, 0
    {
      hide Minimal, Fixed, Nat, Pow256;
      match (t, v)
      case (BigIntT, BigInt(i)) =>
        ok := SerializeBigInt(i);
      case (UintT(n), Uint(x)) =>
        ok := x < Pow256(n);
        w := w + Fixed(x, n);
      case (VarUintT, Uint(x)) =>
        var _ := SerializeBigInt(x);
        ok := x < UINT64;
      case (BoolT, Bool(b)) =>
        w := w + [if b then 1 else 0];
        ok := true;
      case (StringT, Text(b)) =>
        w := w + Fixed(|b|, 4);
        w := w + b;
        assert w == old(w) + (Fixed(|b|, 4) + b);
        ok := true;
      case (ByteSliceT, Text(b)) =>
        ok := WriteListLen(|b|, ts.width);
        if ok {
          w := w + b;
        }
      case (ByteArrayT(n), Text(b)) =>
        ok := |b| == n;
        w := w + b;
      case (FixedT(n), FixedInt(big)) =>
        if !addr {
          return false;
        }
        ok := SerializeFixSizeBigUint(big, n);
      case (SliceT(elem), Items(vs)) =>
        ok := WriteListLen(|vs|, ts.width);
        if ok {
          ok := SerializeList(elem, true, vs);
        }
      case (ArrayT(n, elem), Items(vs)) =>
        ok := SerializeList(elem, addr, vs);
        ok := ok && |vs| == n;
      case (StructT(fields), Items(vs)) =>
        ok := SerializeStruct(fields, addr, vs);
      case (PtrT(target), Ptr(p)) =>
        ok := SerializePtr(target, ts, p);
      case _ =>
        ok := false;
    }

    method SerializePtr(target: Type, ts: Tags, p: Option<Value>) returns (ok: bool)
      modifies this
      ensures Appended(old(w), Enc(PtrT(target), ts, true, Ptr(p)), ok)
      decreases target, 2
    {
      if p.None? && ts.nilOk {
        w := w + [0];
        ok := true;
      } else if p.None? {
        ok := Serialize(target, ts, target.FixedT?, Zero(target));
      } else {
        if ts.nilOk {
          w := w + [1];
        }
        ok := Serialize(target, ts, true, p.value);
      }
    }

    /** The elements of a slice or an array, one after the other. */
    method SerializeList(elem: Type, addr: bool, vs: seq<Value>) returns (ok: bool)
      modifies this
      ensures Appended(old(w), EncAll(elem, addr, vs), ok)
      decreases elem, 1
    {
      hide Enc;
      ghost var done: Bytes := [];
      assert vs[0..] == vs;
      FromStart(EncAll(elem, addr, vs));
      for i := 0 to |vs|
        invariant w == old(w) + done
        invariant EncAll(elem, addr, vs) == Join(Some(done), EncAll(elem, addr, vs[i..]))
      {
        assert vs[i..][1..] == vs[i + 1..];
        ghost var enc := Enc(elem, PLAIN, addr, vs[i]);
        ok := Serialize(elem, PLAIN, addr, vs[i]);
        if !ok {
          return;
        }
        NextPart(done, enc.value, EncAll(elem, addr, vs[i + 1..]), old(w));
        done := done + enc.value;
      }
      ToEnd(done);
      ok := true;
    }

    /** The fields of a struct, each by its own tags. */
    method SerializeStruct(fs: Fields, addr: bool, vs: seq<Value>) returns (ok: bool)
      modifies this
      ensures Appended(old(w), EncFields(fs, addr, vs), ok)
      decreases fs, 1
    {
      hide Enc;
      ghost var done: Bytes := [];
      assert vs[0..] == vs;
      FromStart(EncFields(fs, addr, vs));
      var rest, i := fs, 0;
      while rest.Field?
        invariant i <= |vs| && (fs nonincreases to rest)
        invariant w == old(w) + done
        invariant EncFields(fs, addr, vs) == Join(Some(done), EncFields(rest, addr, vs[i..]))
        decreases rest
      {
        if i == |vs| {
          return false;
        }
        assert vs[i..][1..] == vs[i + 1..];
        ghost var enc := Enc(rest.typ, rest.tags, addr, vs[i]);
        ok := Serialize(rest.typ, rest.tags, addr, vs[i]);
        if !ok {
          return;
        }
        NextPart(done, enc.value, EncFields(rest.rest, addr, vs[i + 1..]), old(w));
        done := done + enc.value;
        rest, i := rest.rest, i + 1;
      }
      ToEnd(done);
      ok := i == |vs|;
    }
  }

  lemma FromStart(enc: Option<Bytes>)
    ensures enc == Join(Some([]), enc)
  {
    if enc.Some? {
      assert [] + enc.value == enc.value;
    }
  }

  lemma NextPart(done: Bytes, enc: Bytes, rest: Option<Bytes>, before: Bytes)
    ensures Join(Some(done), Join(Some(enc), rest)) == Join(Some(done + enc), rest)
    ensures before + done + enc == before + (done + enc)
  {
    if rest.Some? {
      assert done + (enc + rest.value) == done + enc + rest.value;
    }
  }

  lemma ToEnd(done: Bytes)
    ensures done + [] == done
  {
  }

  // ---------- reading ----------

  /** Adds up bytes as the decoder of integers does, in 64 bits. */
  method FoldUint64(b: Bytes) returns (x: nat)
    ensures x == Nat(b) % UINT64
  {
    x := 0;
    for i := 0 to |b|
      invariant x == Nat(b[..i]) % UINT64
    {
      assert b[..i + 1][..i] == b[..i];
      Wraps(Nat(b[..i]), b[i]);
      x := (x * 256 + b[i]) % UINT64;
    }
    assert b[..|b|] == b;
  }

  lemma Wraps(n: nat, d: nat)
    ensures (n % UINT64 * 256 + d) % UINT64 == (n * 256 + d) % UINT64
  {
    var q := n / UINT64;
    assert n == q * UINT64 + n % UINT64;
    assert n * 256 + d == (n % UINT64 * 256 + d) + (q * 256) * UINT64;
    WholeTurns(n % UINT64 * 256 + d, q * 256);
  }

  lemma {:induction false} WholeTurns(x: nat, k: nat)
    ensures (x + k * UINT64) % UINT64 == x % UINT64
  {
    if k > 0 {
      WholeTurns(x, k - 1);
    }
  }

  class ByteBuffer {
    const data: Bytes
    var position: nat

    constructor (data: Bytes)
      ensures Valid() && this.data == data && Rest() == data
    {
      this.data, position := data, 0;
    }

    ghost predicate Valid()
      reads this
    {
      position <= |data|
    }

    /** What is still to be read. */
    ghost function Rest(): Bytes
      requires Valid()
      reads this
    {
      data[position..]
    }

    /** The buffer has moved past what was parsed, or the parse failed. */
    ghost predicate Moved<T>(p: Parsed<T>, r: Option<T>)
      requires Valid()
      reads this
    {
      if r.Some? then p == Got(r.value, Rest()) else p.Fail?
    }

    method GetBytes(size: nat) returns (r: Option<Bytes>)
      requires Valid()
      modifies this
      ensures Valid() && Moved(Take(size, old(Rest())), r)
      ensures r.None? ==> position == old(position)
    {
      if size > |data| - position {
        return None;
      }
      var b := data[position..position + size];
      assert b == Rest()[..size] && data[position + size..] == Rest()[size..];
      position := position + size;
      return Some(b);
    }

    method GetLen(width: int) returns (r: Option<nat>)
      requires Valid()
      modifies this
      ensures Valid() && Moved(Serializer.GetLen(width, old(Rest())), r)
    {
      if width < 1 {
        return None;
      }
      if width > 4 {
        return None;
      }
      var b := GetBytes(width);
      if b.None? {
        return None;
      }
      var size := 0;
      for i := 0 to width
        invariant size == Nat(b.value[..i])
      {
        assert b.value[..i + 1][..i] == b.value[..i];
        size := size * 256 + b.value[i];
      }
      assert b.value[..width] == b.value && |Rest()| == |old(Rest())| - width;
      if size > |data| - position {
        return None;
      }
      return Some(size);
    }

    method GetVarBytes(width: int) returns (r: Option<Bytes>)
      requires Valid()
      modifies this
      ensures Valid() && Moved(Serializer.GetVarBytes(width, old(Rest())), r)
    {
      hide Serializer.GetLen;
      var size := GetLen(width);
      if size.None? {
        return None;
      }
      r := GetBytes(size.value);
    }

    method DeserializeUint(b: Option<Bytes>) returns (r: Option<Value>)
      ensures r == if b.None? then None else Some(Uint(Nat(b.value) % UINT64))
    {
      if b.None? {
        return None;
      }
      var x := FoldUint64(b.value);
      return Some(Uint(x));
    }

    /** Reads a value by its type. */
    method Deserialize(t: Type, ts: Tags) returns (r: Option<Value>)
      requires Valid()
      modifies this
      ensures Valid() && Moved(Dec(t, ts, old(Rest())), r)
      decreases t, 0
    {
      hide Nat, Serializer.GetVarBytes, Serializer.GetLen;
      match t
      case BigIntT =>
        var b := GetVarBytes(1);
        r := if b.None? then None else Some(BigInt(Nat(b.value)));
      case UintT(n) =>
        var b := GetBytes(n);
        if b.Some? {
          NoWrap(b.value);
        }
        r := DeserializeUint(b);
      case VarUintT =>
        var b := GetVarBytes(1);
        r := DeserializeUint(b);
      case BoolT =>
        var b := GetBytes(1);
        if b.None? || b.value[0] > 1 {
          return None;
        }
        r := Some(Bool(b.value[0] == 1));
      case StringT =>
        var b := GetVarBytes(4);
        r := if b.None? then None else Some(Text(b.value));
      case ByteSliceT =>
        var b := GetVarBytes(ts.width);
        r := if b.None? then None else Some(Text(b.value));
      case ByteArrayT(n) =>
        var b := GetBytes(n);
        r := if b.None? then None else Some(Text(b.value));
      case FixedT(n) =>
        var b := GetBytes(n);
        r := if b.None? then None else Some(FixedInt(Some(Nat(b.value))));
      case SliceT(elem) =>
        var n := GetLen(ts.width);
        if n.None? {
          return None;
        }
        var vs := DeserializeList(elem, n.value);
        r := if vs.None? then None else Some(Items(vs.value));
      case ArrayT(n, elem) =>
        var vs := DeserializeList(elem, n);
        r := if vs.None? then None else Some(Items(vs.value));
      case StructT(fields) =>
        var vs := DeserializeStruct(fields);
        r := if vs.None? then None else Some(Items(vs.value));
      case PtrT(target) =>
        if ts.nilOk {
          var flag := GetBytes(1);
          if flag.None? {
            return None;
          }
          if flag.value[0] == 0 {
            return Some(Ptr(None));
          }
        }
        var x := Deserialize(target, ts);
        r := if x.None? then None else Some(Ptr(x));
    }

    method DeserializeList(elem: Type, n: nat) returns (r: Option<seq<Value>>)
      requires Valid()
      modifies this
      ensures Valid() && Moved(DecAll(elem, n, old(Rest())), r)
      decreases elem, 1
    {
      hide Dec;
      var vs: seq<Value> := [];
      NothingRead(DecAll(elem, n, Rest()));
      for i := 0 to n
        invariant Valid() && DecAll(elem, n, old(Rest())) == After(vs, DecAll(elem, n - i, Rest()))
      {
        ghost var b := Rest();
        var x := Deserialize(elem, PLAIN);
        if x.None? {
          return None;
        }
        ReadOn(vs, x.value, DecAll(elem, n - i - 1, Rest()));
        vs := vs + [x.value];
      }
      assert vs + [] == vs;
      return Some(vs);
    }

    method DeserializeStruct(fs: Fields) returns (r: Option<seq<Value>>)
      requires Valid()
      modifies this
      ensures Valid() && Moved(DecFields(fs, old(Rest())), r)
      decreases fs, 1
    {
      hide Dec;
      var vs: seq<Value> := [];
      NothingRead(DecFields(fs, Rest()));
      var rest := fs;
      while rest.Field?
        invariant Valid() && (fs nonincreases to rest)
        invariant DecFields(fs, old(Rest())) == After(vs, DecFields(rest, Rest()))
        decreases rest
      {
        var x := Deserialize(rest.typ, rest.tags);
        if x.None? {
          return None;
        }
        ReadOn(vs, x.value, DecFields(rest.rest, Rest()));
        vs := vs + [x.value];
        rest := rest.rest;
      }
      assert vs + [] == vs;
      return Some(vs);
    }
  }

  lemma NoWrap(b: Bytes)
    requires |b| == 1 || |b| == 2 || |b| == 4 || |b| == 8
    ensures Nat(b) % UINT64 == Nat(b)
  {
    hide Nat;
    NatBound(b);
    assert Pow256(1) == 0x100 && Pow256(2) == 0x1_0000;
    assert Pow256(4) == 0x1_0000_0000;
    assert Pow256(6) == 0x1_0000_0000_0000;
    assert Pow256(8) == UINT64;
  }

  /** Values read already, put in front of what is still parsed. */
  ghost function After(vs: seq<Value>, p: Parsed<seq<Value>>): Parsed<seq<Value>> {
    if p.Fail? then Fail else Got(vs + p.value, p.rest)
  }

  lemma NothingRead(p: Parsed<seq<Value>>)
    ensures p == After([], p)
  {
    if p.Got? {
      assert [] + p.value == p.value;
    }
  }

  lemma ReadOn(vs: seq<Value>, x: Value, p: Parsed<seq<Value>>)
    ensures After(vs, Mapped(p, ys => [x] + ys)) == After(vs + [x], p)
  {
    if p.Got? {
      assert vs + ([x] + p.value) == vs + [x] + p.value;
    }
  }
}
