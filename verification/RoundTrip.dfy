/** Decoding what was encoded: exactly the well-formed values come back, and nothing more is consumed. */
module RoundTrip {
  import opened BlockTree
  import opened ChainTypes
  import opened BigEndian
  import opened Serializer

  // ---------- sizes ----------

  lemma {:induction false} EncSize(t: Type, ts: Tags, addr: bool, v: Value)
    ensures Enc(t, ts, addr, v).Some? ==> |Enc(t, ts, addr, v).value| == Size(t, ts, v)
    decreases t, 0
  {
    match (t, v)
    case (SliceT(elem), Items(vs)) => EncAllSize(elem, true, vs);
    case (ArrayT(_, elem), Items(vs)) => EncAllSize(elem, addr, vs);
    case (StructT(fields), Items(vs)) => EncFieldsSize(fields, addr, vs);
    case (PtrT(target), Ptr(p)) =>
      if p.None? {
        EncSize(target, ts, target.FixedT?, Zero(target));
      } else {
        EncSize(target, ts, true, p.value);
      }
    case _ =>
  }

  lemma {:induction false} EncAllSize(elem: Type, addr: bool, vs: seq<Value>)
    ensures EncAll(elem, addr, vs).Some? ==> |EncAll(elem, addr, vs).value| == SizeAll(elem, vs)
    decreases elem, |vs| + 1
  {
    hide Enc, Size;
    if vs != [] {
      EncSize(elem, PLAIN, addr, vs[0]);
      EncAllSize(elem, addr, vs[1..]);
    }
  }

  lemma {:induction false} EncFieldsSize(fs: Fields, addr: bool, vs: seq<Value>)
    ensures EncFields(fs, addr, vs).Some? ==> |EncFields(fs, addr, vs).value| == SizeFields(fs, vs)
    decreases fs, 0
  {
    hide Enc, Size;
    if fs.Field? && vs != [] {
      EncSize(fs.typ, fs.tags, addr, vs[0]);
      EncFieldsSize(fs.rest, addr, vs[1..]);
    }
  }

  // ---------- lengths ----------

  lemma Widths()
    ensures Pow256(1) == 256 && Pow256(4) == 0x1_0000_0000 && Pow256(8) == UINT64
  {
    assert Pow256(2) == 0x1_0000 && Pow256(3) == 0x100_0000;
  }

  lemma GetLenOf(n: nat, width: int, body: Bytes)
    requires FitsWidth(n, width)
    ensures GetLen(width, Fixed(n, width) + body) == if n > |body| then Fail else Got(n, body)
  {
    var b := Fixed(n, width) + body;
    assert b[..width] == Fixed(n, width) && b[width..] == body;
    NatOfFixed(n, width);
  }

  lemma GetVarBytesOf(width: int, b: Bytes, suffix: Bytes)
    requires FitsWidth(|b|, width)
    ensures GetVarBytes(width, Fixed(|b|, width) + b + suffix) == Got(b, suffix)
  {
    hide GetLen;
    GetLenOf(|b|, width, b + suffix);
    assert Fixed(|b|, width) + b + suffix == Fixed(|b|, width) + (b + suffix);
    assert (b + suffix)[..|b|] == b && (b + suffix)[|b|..] == suffix;
  }

  lemma VarBytesIsFixed(b: Bytes)
    ensures VarBytes(b) == Fixed(|b|, 1) + b
  {
    hide Fixed;
    FixedOne(|b|);
  }

  /** Bytes read under a prefix too short for them are fewer. */
  lemma Truncated(width: int, b: Bytes, suffix: Bytes)
    requires 1 <= width <= 4 && |b| >= Pow256(width)
    ensures var r := GetVarBytes(width, Fixed(|b|, width) + b + suffix); r.Fail? || |r.value| < Pow256(width)
  {
    var all := Fixed(|b|, width) + b + suffix;
    NatBound(all[..width]);
  }

  // ---------- the theorem ----------

  /** With ok, exactly v and the suffix come back; without, an error does, or another value. */
  ghost predicate Returns<T>(ok: bool, enc: Option<Bytes>, d: Parsed<T>, v: T, suffix: Bytes) {
    if ok then enc.Some? && d == Got(v, suffix) else enc.Some? ==> d.Fail? || d.value != v
  }

  /** Decoding an encoding with something behind it. */
  ghost function Reread(t: Type, ts: Tags, enc: Option<Bytes>, suffix: Bytes): Parsed<Value> {
    if enc.None? then Fail else Dec(t, ts, enc.value + suffix)
  }

  ghost predicate Survives(t: Type, ts: Tags, addr: bool, v: Value, suffix: Bytes) {
    var enc := Enc(t, ts, addr, v);
    Returns(WellFormed(t, ts, addr, v, |suffix|), enc, Reread(t, ts, enc, suffix), Norm(t, ts, v), suffix)
  }

  lemma BigIntSurvives(ts: Tags, addr: bool, i: int, suffix: Bytes)
    ensures Survives(BigIntT, ts, addr, BigInt(i), suffix)
  {
    hide Fixed, Minimal, Nat, Pow256, GetVarBytes, VarBytes;
    if i >= 0 {
      var b := Minimal(i);
      VarBytesIsFixed(b);
      Widths();
      NatOfMinimal(i);
      if |b| <= 255 {
        GetVarBytesOf(1, b, suffix);
      } else {
        Truncated(1, b, suffix);
        var r := GetVarBytes(1, Fixed(|b|, 1) + b + suffix);
        if r.Got? {
          NatBound(r.value);
          MinimalLength(i, |r.value|);
        }
      }
    }
  }

  lemma VarUintSurvives(ts: Tags, addr: bool, x: nat, suffix: Bytes)
    ensures Survives(VarUintT, ts, addr, Uint(x), suffix)
  {
    hide Fixed, Minimal, Nat, Pow256, GetVarBytes, VarBytes;
    if x < UINT64 {
      var b := Minimal(x);
      VarBytesIsFixed(b);
      Widths();
      NatOfMinimal(x);
      MinimalLength(x, 8);
      GetVarBytesOf(1, b, suffix);
    }
  }

  lemma UintSurvives(n: UintBytes, ts: Tags, addr: bool, x: nat, suffix: Bytes)
    ensures Survives(UintT(n), ts, addr, Uint(x), suffix)
  {
    if x < Pow256(n) {
      NatOfFixed(x, n);
      var b := Fixed(x, n) + suffix;
      assert b[..n] == Fixed(x, n) && b[n..] == suffix;
    }
  }

  lemma StringSurvives(ts: Tags, addr: bool, b: Bytes, suffix: Bytes)
    ensures Survives(StringT, ts, addr, Text(b), suffix)
  {
    if |b| < Pow256(4) {
      GetVarBytesOf(4, b, suffix);
    } else {
      Truncated(4, b, suffix);
    }
  }

  lemma ByteSliceSurvives(ts: Tags, addr: bool, b: Bytes, suffix: Bytes)
    ensures Survives(ByteSliceT, ts, addr, Text(b), suffix)
  {
    if FitsWidth(|b|, ts.width) {
      GetVarBytesOf(ts.width, b, suffix);
    }
  }

  lemma ByteArraySurvives(n: nat, ts: Tags, addr: bool, b: Bytes, suffix: Bytes)
    ensures Survives(ByteArrayT(n), ts, addr, Text(b), suffix)
  {
    assert (b + suffix)[..|b|] == b && (b + suffix)[|b|..] == suffix;
  }

  lemma FixedSurvives(n: nat, ts: Tags, addr: bool, big: Option<int>, suffix: Bytes)
    ensures Survives(FixedT(n), ts, addr, FixedInt(big), suffix)
  {
    hide Fixed, Minimal, Nat, Pow256, Zeros;
    var x := if big.None? then 0 else Abs(big.value);
    MinimalLength(x, n);
    if addr && x < Pow256(n) {
      PadMinimal(x, n);
      FixedOfZero(n);
      NatOfFixed(x, n);
      var b := Fixed(x, n) + suffix;
      assert b[..n] == Fixed(x, n) && b[n..] == suffix;
    }
  }

  // One step of each function at a pointer.

  lemma EncPtr(target: Type, ts: Tags, addr: bool, p: Option<Value>)
    ensures Enc(PtrT(target), ts, addr, Ptr(p)) ==
            if p.None? && ts.nilOk then Some([0])
            else if p.None? then Enc(target, ts, target.FixedT?, Zero(target))
            else Join(Some(if ts.nilOk then [1] else []), Enc(target, ts, true, p.value))
  {
  }

  lemma DecPtr(target: Type, ts: Tags, b: Bytes)
    ensures ts.nilOk ==> Dec(PtrT(target), ts, [0] + b) == Got(Ptr(None), b)
    ensures ts.nilOk ==> Dec(PtrT(target), ts, [1] + b) == Mapped(Dec(target, ts, b), x => Ptr(Some(x)))
    ensures !ts.nilOk ==> Dec(PtrT(target), ts, b) == Mapped(Dec(target, ts, b), x => Ptr(Some(x)))
  {
    assert ([0] + b)[1..] == b && ([1] + b)[1..] == b;
  }

  lemma NormPtr(target: Type, ts: Tags, p: Option<Value>)
    ensures Norm(PtrT(target), ts, Ptr(p)) ==
            if p.None? && ts.nilOk then Ptr(None)
            else Ptr(Some(Norm(target, ts, if p.None? then Zero(target) else p.value)))
  {
  }

  lemma WellFormedPtr(target: Type, ts: Tags, addr: bool, p: Option<Value>, room: nat)
    ensures WellFormed(PtrT(target), ts, addr, Ptr(p), room) <==>
            if p.None? && ts.nilOk then true
            else if p.None? then WellFormed(target, ts, target.FixedT?, Zero(target), room)
            else WellFormed(target, ts, true, p.value, room)
  {
  }

  lemma PtrSurvives(target: Type, ts: Tags, addr: bool, p: Option<Value>, suffix: Bytes)
    requires p.Some? ==> Survives(target, ts, true, p.value, suffix)
    requires p.None? ==> Survives(target, ts, target.FixedT?, Zero(target), suffix)
    ensures Survives(PtrT(target), ts, addr, Ptr(p), suffix)
  {
    hide Enc, Dec, Norm, WellFormed, Zero;
    EncPtr(target, ts, addr, p);
    NormPtr(target, ts, p);
    WellFormedPtr(target, ts, addr, p, |suffix|);
    DecPtr(target, ts, suffix);
    var enc := if p.Some? then Enc(target, ts, true, p.value) else Enc(target, ts, target.FixedT?, Zero(target));
    if enc.Some? {
      DecPtr(target, ts, enc.value + suffix);
      assert [1] + enc.value + suffix == [1] + (enc.value + suffix);
      assert [] + enc.value == enc.value;
    }
  }

  ghost function RereadAll(elem: Type, n: nat, enc: Option<Bytes>, suffix: Bytes): Parsed<seq<Value>> {
    if enc.None? then Fail else DecAll(elem, n, enc.value + suffix)
  }

  ghost predicate AllSurvive(elem: Type, addr: bool, vs: seq<Value>, suffix: Bytes) {
    var enc := EncAll(elem, addr, vs);
    Returns(AllWellFormed(elem, addr, vs, |suffix|), enc, RereadAll(elem, |vs|, enc, suffix), NormAll(elem, vs), suffix)
  }

  ghost function RereadFields(fs: Fields, enc: Option<Bytes>, suffix: Bytes): Parsed<seq<Value>> {
    if enc.None? then Fail else DecFields(fs, enc.value + suffix)
  }

  ghost predicate FieldsSurvive(fs: Fields, addr: bool, vs: seq<Value>, suffix: Bytes) {
    var enc := EncFields(fs, addr, vs);
    Returns(FieldsWellFormed(fs, addr, vs, |suffix|), enc, RereadFields(fs, enc, suffix), NormFields(fs, vs), suffix)
  }

  lemma SliceSurvives(elem: Type, ts: Tags, addr: bool, vs: seq<Value>, suffix: Bytes)
    requires AllSurvive(elem, true, vs, suffix)
    ensures Survives(SliceT(elem), ts, addr, Items(vs), suffix)
  {
    hide EncAll, DecAll, NormAll, SizeAll, AllWellFormed, Fixed, Pow256, GetLen;
    var enc := EncAll(elem, true, vs);
    if FitsWidth(|vs|, ts.width) && enc.Some? {
      EncAllSize(elem, true, vs);
      GetLenOf(|vs|, ts.width, enc.value + suffix);
      assert Fixed(|vs|, ts.width) + enc.value + suffix == Fixed(|vs|, ts.width) + (enc.value + suffix);
    } else if !FitsWidth(|vs|, ts.width) {
      BadWidth(|vs|, ts.width);
    }
  }

  /** A list length that does not fit is not written, or not read back. */
  lemma BadWidth(n: nat, width: int)
    requires !FitsWidth(n, width)
    ensures ListLen(n, width).None? || forall b :: GetLen(width, b).Fail?
  {
  }

  lemma ArraySurvives(n: nat, elem: Type, ts: Tags, addr: bool, vs: seq<Value>, suffix: Bytes)
    requires AllSurvive(elem, addr, vs, suffix)
    ensures Survives(ArrayT(n, elem), ts, addr, Items(vs), suffix)
  {
    hide EncAll, DecAll, NormAll, SizeAll, AllWellFormed;
  }

  lemma StructSurvives(fields: Fields, ts: Tags, addr: bool, vs: seq<Value>, suffix: Bytes)
    requires FieldsSurvive(fields, addr, vs, suffix)
    ensures Survives(StructT(fields), ts, addr, Items(vs), suffix)
  {
    hide EncFields, DecFields, NormFields, SizeFields, FieldsWellFormed;
  }

  lemma SameCons<T>(x: T, xs: seq<T>, y: T, ys: seq<T>)
    ensures [x] + xs == [y] + ys <==> x == y && xs == ys
  {
    if [x] + xs == [y] + ys {
      assert ([x] + xs)[0] == ([y] + ys)[0];
      assert ([x] + xs)[1..] == ([y] + ys)[1..];
    }
  }

  /** If a value survives in front of others, and they survive, they do together; x and xs are what is
      read one after the other. */
  lemma ConsReturns(ok: bool, okRest: bool, first: Option<Bytes>, rest: Option<Bytes>,
                    x: Parsed<Value>, xs: Parsed<seq<Value>>, all: Parsed<seq<Value>>,
                    v: Value, vs: seq<Value>, suffix: Bytes)
    requires okRest ==> rest.Some?
    requires rest.Some? ==> Returns(ok, first, x, v, rest.value + suffix)
    requires first.Some? && rest.Some? ==>
               && all == (if x.Fail? then Fail else Mapped(xs, ys => [x.value] + ys))
               && (x == Got(v, rest.value + suffix) ==> Returns(okRest, rest, xs, vs, suffix))
    ensures Returns(ok && okRest, Join(first, rest), all, [v] + vs, suffix)
  {
    if x.Got? && xs.Got? {
      SameCons(x.value, xs.value, v, vs);
    }
  }

  /** The first value comes back from in front of the others, and then the others do. */
  lemma {:induction false} AllRoundTrip(elem: Type, addr: bool, vs: seq<Value>, suffix: Bytes)
    ensures AllSurvive(elem, addr, vs, suffix)
    decreases elem, |vs| + 1
  {
    hide Enc, Dec, Norm, Size, WellFormed;
    if vs == [] {
      assert [] + suffix == suffix;
    } else {
      AllRoundTrip(elem, addr, vs[1..], suffix);
      var rest := EncAll(elem, addr, vs[1..]);
      if rest.Some? {
        RoundTrip(elem, PLAIN, addr, vs[0], rest.value + suffix);
      }
      FirstAndRest(elem, addr, vs, suffix);
    }
  }

  /** What the functions on lists do with a first element. */
  lemma AllSteps(elem: Type, addr: bool, vs: seq<Value>, room: nat)
    requires vs != []
    ensures EncAll(elem, addr, vs) == Join(Enc(elem, PLAIN, addr, vs[0]), EncAll(elem, addr, vs[1..]))
    ensures NormAll(elem, vs) == [Norm(elem, PLAIN, vs[0])] + NormAll(elem, vs[1..])
    ensures AllWellFormed(elem, addr, vs, room) <==>
            WellFormed(elem, PLAIN, addr, vs[0], SizeAll(elem, vs[1..]) + room) && AllWellFormed(elem, addr, vs[1..], room)
  {
    hide Enc, Norm, WellFormed;
  }

  /** If the rest of a list survives and the first value survives in front of it, the list does. */
  lemma FirstAndRest(elem: Type, addr: bool, vs: seq<Value>, suffix: Bytes)
    requires vs != [] && AllSurvive(elem, addr, vs[1..], suffix)
    requires var rest := EncAll(elem, addr, vs[1..]); rest.Some? ==> Survives(elem, PLAIN, addr, vs[0], rest.value + suffix)
    ensures AllSurvive(elem, addr, vs, suffix)
  {
    hide Enc, Dec, Norm, Size, WellFormed, EncAll, NormAll, AllWellFormed, SizeAll;
    AllSteps(elem, addr, vs, |suffix|);
    EncAllSize(elem, addr, vs[1..]);
    var first, rest := Enc(elem, PLAIN, addr, vs[0]), EncAll(elem, addr, vs[1..]);
    if first.Some? && rest.Some? {
      var b := first.value + rest.value + suffix;
      assert b == first.value + (rest.value + suffix);
      var x := Dec(elem, PLAIN, b);
      var xs := if x.Fail? then Fail else DecAll(elem, |vs| - 1, x.rest);
      ConsReturns(WellFormed(elem, PLAIN, addr, vs[0], |rest.value + suffix|),
                  AllWellFormed(elem, addr, vs[1..], |suffix|), first, rest, x, xs, DecAll(elem, |vs|, b),
                  Norm(elem, PLAIN, vs[0]), NormAll(elem, vs[1..]), suffix);
    }
  }

  lemma {:induction false} FieldsRoundTrip(fs: Fields, addr: bool, vs: seq<Value>, suffix: Bytes)
    ensures FieldsSurvive(fs, addr, vs, suffix)
    decreases fs, 0
  {
    hide Enc, Dec, Norm, Size, WellFormed;
    if fs.NoFields? {
      assert [] + suffix == suffix;
    } else if vs != [] {
      FieldsRoundTrip(fs.rest, addr, vs[1..], suffix);
      var first, rest := Enc(fs.typ, fs.tags, addr, vs[0]), EncFields(fs.rest, addr, vs[1..]);
      if first.Some? && rest.Some? {
        EncFieldsSize(fs.rest, addr, vs[1..]);
        RoundTrip(fs.typ, fs.tags, addr, vs[0], rest.value + suffix);
        assert first.value + rest.value + suffix == first.value + (rest.value + suffix);
        var x := Dec(fs.typ, fs.tags, first.value + rest.value + suffix);
        var xs := if x.Fail? then Fail else DecFields(fs.rest, x.rest);
        ConsReturns(WellFormed(fs.typ, fs.tags, addr, vs[0], |rest.value + suffix|),
                    FieldsWellFormed(fs.rest, addr, vs[1..], |suffix|), first, rest, x, xs,
                    DecFields(fs, first.value + rest.value + suffix),
                    Norm(fs.typ, fs.tags, vs[0]), NormFields(fs.rest, vs[1..]), suffix);
      } else if rest.Some? {
        EncFieldsSize(fs.rest, addr, vs[1..]);
        RoundTrip(fs.typ, fs.tags, addr, vs[0], rest.value + suffix);
      }
    }
  }

  /**
   * Whatever follows the encoding of a value, decoding gives back the value, normalized, and leaves
   * exactly what follows, if the value is well-formed. If it is not, encoding or decoding fails, or
   * another value comes back.
   */
  lemma {:induction false} RoundTrip(t: Type, ts: Tags, addr: bool, v: Value, suffix: Bytes)
    ensures Survives(t, ts, addr, v, suffix)
    decreases t, 0
  {
    match (t, v)
    case (BigIntT, BigInt(i)) => BigIntSurvives(ts, addr, i, suffix);
    case (UintT(n), Uint(x)) => UintSurvives(n, ts, addr, x, suffix);
    case (VarUintT, Uint(x)) => VarUintSurvives(ts, addr, x, suffix);
    case (BoolT, Bool(_)) =>
    case (StringT, Text(b)) => StringSurvives(ts, addr, b, suffix);
    case (ByteSliceT, Text(b)) => ByteSliceSurvives(ts, addr, b, suffix);
    case (ByteArrayT(n), Text(b)) => ByteArraySurvives(n, ts, addr, b, suffix);
    case (FixedT(n), FixedInt(big)) => FixedSurvives(n, ts, addr, big, suffix);
    case (SliceT(elem), Items(vs)) =>
      AllRoundTrip(elem, true, vs, suffix);
      SliceSurvives(elem, ts, addr, vs, suffix);
    case (ArrayT(n, elem), Items(vs)) =>
      AllRoundTrip(elem, addr, vs, suffix);
      ArraySurvives(n, elem, ts, addr, vs, suffix);
    case (StructT(fields), Items(vs)) =>
      FieldsRoundTrip(fields, addr, vs, suffix);
      StructSurvives(fields, ts, addr, vs, suffix);
    case (PtrT(target), Ptr(p)) =>
      if p.Some? {
        RoundTrip(target, ts, true, p.value, suffix);
      } else {
        RoundTrip(target, ts, target.FixedT?, Zero(target), suffix);
      }
      PtrSurvives(target, ts, addr, p, suffix);
    case _ =>
  }

  /** A value comes back, normalized, with exactly the suffix left, if and only if it is well-formed. */
  lemma RoundTripExactly(t: Type, ts: Tags, addr: bool, v: Value, suffix: Bytes)
    ensures WellFormed(t, ts, addr, v, |suffix|) <==>
            && Enc(t, ts, addr, v).Some?
            && Dec(t, ts, Enc(t, ts, addr, v).value + suffix) == Got(Norm(t, ts, v), suffix)
  {
    hide Enc, Dec, Norm, WellFormed;
    RoundTrip(t, ts, addr, v, suffix);
  }

  /** Elements of at least one byte each keep the length of their list within the bytes that follow it. */
  lemma {:induction false} NonEmptyElements(elem: Type, vs: seq<Value>)
    requires forall v :: v in vs ==> Size(elem, PLAIN, v) >= 1
    ensures |vs| <= SizeAll(elem, vs)
  {
    hide Size;
    if vs != [] {
      NonEmptyElements(elem, vs[1..]);
    }
  }

  lemma EmptyStructs()
    ensures var t := SliceT(StructT(NoFields)); var v := Items([Items([])]);
            Enc(t, PLAIN, true, v) == Some([1]) && Dec(t, PLAIN, [1]) == Fail
  {
    var e := StructT(NoFields);
    Widths();
    assert EncAll(e, true, [Items([])][1..]) == Some([]);
    assert EncAll(e, true, [Items([])]) == Some([] + []);
    FixedOne(1);
    var none: Bytes := [];
    assert ListLen(1, 1) == Some([1]) && [1] + (none + none) == [1];
    assert Nat([1][..0]) == 0 && Nat([1]) == 1 && [1][..1] == [1];
  }

  lemma NegativeFixed()
    ensures Enc(FixedT(1), PLAIN, true, FixedInt(Some(-5))) == Some([5])
            && Dec(FixedT(1), PLAIN, [5]) == Got(FixedInt(Some(5)), [])
  {
    MinimalByte(5);
    hide Minimal, Nat;
    assert Zeros(0) + [5] == [5];
    assert [5][..1] == [5] && [5][1..] == [];
  }

  lemma MinimalByte(n: nat)
    requires 0 < n < 256
    ensures Minimal(n) == [n] && Nat([n]) == n
  {
    assert n / 256 == 0 && n % 256 == n;
    assert Minimal(0) == [] && [] + [n] == [n];
    assert [n][..0] == [] && Nat([]) == 0;
  }

  lemma NilToFixed()
    ensures Enc(PtrT(StructT(Field(PLAIN, FixedT(16), NoFields))), PLAIN, true, Ptr(None)) == None
  {
    var fs := Field(PLAIN, FixedT(16), NoFields);
    assert ZeroFields(fs) == [FixedInt(None)] + ZeroFields(NoFields);
    assert Zero(FixedT(16)) == FixedInt(None);
    assert EncFields(fs, false, ZeroFields(fs)) == None;
    EncPtr(StructT(fs), PLAIN, true, None);
  }

  /** Encodings that are not read back: a list of empty structs at the end of the input, a negative
      fixed-size integer, and a list without a length prefix. A nil pointer to a struct with a fixed-size
      integer is not even written. */
  lemma NotRead()
    ensures var t := SliceT(StructT(NoFields)); var v := Items([Items([])]);
            Enc(t, PLAIN, true, v) == Some([1]) && Dec(t, PLAIN, [1]) == Fail
    ensures Enc(FixedT(1), PLAIN, true, FixedInt(Some(-5))) == Some([5])
            && Dec(FixedT(1), PLAIN, [5]) == Got(FixedInt(Some(5)), [])
    ensures var ts := Tags(false, 0); Enc(ByteSliceT, ts, true, Text([])) == Some([]) && Dec(ByteSliceT, ts, []) == Fail
    ensures Enc(PtrT(StructT(Field(PLAIN, FixedT(16), NoFields))), PLAIN, true, Ptr(None)) == None
  {
    EmptyStructs();
    NegativeFixed();
    NilToFixed();
  }

  /** No encoding of a type is the beginning of another. */
  lemma PrefixFree(t: Type, ts: Tags, addr: bool, u: Value, v: Value)
    requires Enc(t, ts, addr, u).Some? && Enc(t, ts, addr, v).Some?
    requires Enc(t, ts, addr, u).value <= Enc(t, ts, addr, v).value
    requires WellFormed(t, ts, addr, v, 0)
    requires WellFormed(t, ts, addr, u, |Enc(t, ts, addr, v).value| - |Enc(t, ts, addr, u).value|)
    ensures Enc(t, ts, addr, u) == Enc(t, ts, addr, v) && Norm(t, ts, u) == Norm(t, ts, v)
  {
    hide Enc, Dec, Norm, WellFormed;
    var a, b := Enc(t, ts, addr, u).value, Enc(t, ts, addr, v).value;
    RoundTrip(t, ts, addr, u, b[|a|..]);
    RoundTrip(t, ts, addr, v, []);
    assert a + b[|a|..] == b && b + [] == b;
    assert b[|a|..] == [];
  }

  // ---------- encoding again ----------

  /** What comes back is encoded by the same bytes as what was sent. */
  lemma {:induction false} Stable(t: Type, ts: Tags, addr: bool, addr': bool, v: Value)
    requires Enc(t, ts, addr, v).Some? && (addr ==> addr')
    ensures Enc(t, ts, addr', Norm(t, ts, v)) == Enc(t, ts, addr, v)
    decreases t, 0
  {
    match (t, v)
    case (FixedT(n), FixedInt(big)) =>
      if big.None? {
        assert Minimal(Abs(0)) == [] && Zeros(n) + [] == Zeros(n);
      }
    case (SliceT(elem), Items(vs)) => StableAll(elem, true, true, vs);
    case (ArrayT(_, elem), Items(vs)) => StableAll(elem, addr, addr', vs);
    case (StructT(fields), Items(vs)) => StableFields(fields, addr, addr', vs);
    case (PtrT(target), Ptr(p)) =>
      if p.Some? {
        Stable(target, ts, true, true, p.value);
      } else if !ts.nilOk {
        Stable(target, ts, target.FixedT?, true, Zero(target));
        var b := Enc(target, ts, target.FixedT?, Zero(target)).value;
        assert [] + b == b;
      }
    case _ =>
  }

  lemma {:induction false} StableAll(elem: Type, addr: bool, addr': bool, vs: seq<Value>)
    requires EncAll(elem, addr, vs).Some? && (addr ==> addr')
    ensures EncAll(elem, addr', NormAll(elem, vs)) == EncAll(elem, addr, vs)
    decreases elem, |vs| + 1
  {
    hide Enc, Norm;
    if vs != [] {
      Stable(elem, PLAIN, addr, addr', vs[0]);
      StableAll(elem, addr, addr', vs[1..]);
      assert NormAll(elem, vs)[1..] == NormAll(elem, vs[1..]);
    }
  }

  lemma {:induction false} StableFields(fs: Fields, addr: bool, addr': bool, vs: seq<Value>)
    requires EncFields(fs, addr, vs).Some? && (addr ==> addr')
    ensures EncFields(fs, addr', NormFields(fs, vs)) == EncFields(fs, addr, vs)
    decreases fs, 0
  {
    hide Enc, Norm;
    if fs.Field? {
      Stable(fs.typ, fs.tags, addr, addr', vs[0]);
      StableFields(fs.rest, addr, addr', vs[1..]);
      assert NormFields(fs, vs)[1..] == NormFields(fs.rest, vs[1..]);
    }
  }
}
