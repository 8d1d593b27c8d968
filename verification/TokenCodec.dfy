/** Token names as numbers: strings over 0-9A-Z, ordered by length and then letter by letter. */
module TokenCodec {
  import opened BlockTree

  newtype uint64 = x: int | 0 <= x < 0x1_0000_0000_0000_0000

  const TOKEN_BASE: uint64 := 36
  const TOKEN_ID_MAX: uint64 := 4873763662273663091
  const MAX_LENGTH: nat := 12

  predicate ValidChar(c: char) {
    'A' <= c <= 'Z' || '0' <= c <= '9'
  }

  function TokenCharEncode(c: char): (r: Option<uint64>)
    ensures r.Some? <==> ValidChar(c)
    ensures r.Some? ==> r.value < TOKEN_BASE
  {
    if 'A' <= c <= 'Z' then Some(10 + (c as int - 'A' as int) as uint64)
    else if '0' <= c <= '9' then Some((c as int - '0' as int) as uint64)
    else None
  }

  function TokenCharDecode(id: uint64): (r: Option<char>)
    ensures r.Some? <==> id < TOKEN_BASE
    ensures r.Some? ==> ValidChar(r.value)
  {
    if id >= TOKEN_BASE then None
    else if id < 10 then Some(('0' as int + id as int) as char)
    else Some(('A' as int + id as int - 10) as char)
  }

  lemma CharRoundTrip(c: char, id: uint64)
    ensures ValidChar(c) ==> TokenCharDecode(TokenCharEncode(c).value) == Some(c)
    ensures id < TOKEN_BASE ==> TokenCharEncode(TokenCharDecode(id).value) == Some(id)
  {
  }

  /** A name the codec can take, of any length. */
  ghost predicate IsName(s: string) {
    s != "" && forall i :: 0 <= i < |s| ==> ValidChar(s[i])
  }

  ghost function Digit(c: char): (d: nat)
    requires ValidChar(c)
    ensures d < 36
  {
    TokenCharEncode(c).value as int
  }

  /** The number of a name: its place in the order of all names. */
  ghost function Value(s: string): nat
    requires IsName(s)
  {
    var n := |s| - 1;
    if n == 0 then Digit(s[0]) else (Value(s[..n]) + 1) * 36 + Digit(s[n])
  }

  /** The name with a given number. */
  ghost function Name(id: nat): (s: string)
    ensures IsName(s)
  {
    var last := [TokenCharDecode((id % 36) as uint64).value];
    if id < 36 then last else Name(id / 36 - 1) + last
  }

  ghost function Pow36(n: nat): nat {
    if n == 0 then 1 else 36 * Pow36(n - 1)
  }

  // ---------- the numeration ----------

  lemma {:induction false} NameOfValue(s: string)
    requires IsName(s)
    ensures Name(Value(s)) == s
  {
    hide TokenCharEncode, TokenCharDecode;
    var n := |s| - 1;
    if n > 0 {
      NameOfValue(s[..n]);
      LastDigit(Value(s[..n]) + 1, Digit(s[n]));
      CharRoundTrip(s[n], 0);
      assert s == s[..n] + [s[n]];
    } else {
      CharRoundTrip(s[0], 0);
    }
  }

  lemma LastDigit(q: nat, d: nat)
    requires d < 36
    ensures (q * 36 + d) / 36 == q && (q * 36 + d) % 36 == d
  {
  }

  lemma {:induction false} ValueOfName(id: nat)
    ensures Value(Name(id)) == id
  {
    if id >= 36 {
      ValueOfName(id / 36 - 1);
      var s := Name(id);
      assert s[..|s| - 1] == Name(id / 36 - 1);
    }
  }

  /** Shorter names come first; names of one length come letter by letter. */
  ghost predicate Before(a: string, b: string)
    requires IsName(a) && IsName(b)
  {
    |a| < |b| || (|a| == |b| && Lex(a, b))
  }

  /** The first letters that differ decide. */
  ghost predicate Lex(a: string, b: string)
    requires IsName(a) && IsName(b) && |a| == |b|
  {
    exists i :: 0 <= i < |a| && a[..i] == b[..i] && Digit(a[i]) < Digit(b[i])
  }

  /** Lexicographic order from the last letter: the letters before it decide unless they are equal. */
  lemma LexStep(a: string, b: string)
    requires IsName(a) && IsName(b) && |a| == |b| > 1
    ensures var n := |a| - 1;
            Lex(a, b) <==> Lex(a[..n], b[..n]) || (a[..n] == b[..n] && Digit(a[n]) < Digit(b[n]))
  {
    var n := |a| - 1;
    if Lex(a, b) {
      var i :| 0 <= i < |a| && a[..i] == b[..i] && Digit(a[i]) < Digit(b[i]);
      if i < n {
        assert a[..n][..i] == a[..i] && b[..n][..i] == b[..i] && a[..n][i] == a[i];
      }
    }
    if Lex(a[..n], b[..n]) {
      var i :| 0 <= i < n && a[..n][..i] == b[..n][..i] && Digit(a[..n][i]) < Digit(b[..n][i]);
      assert a[..i] == a[..n][..i] && b[..i] == b[..n][..i];
    }
  }

  lemma LexOne(a: string, b: string)
    requires IsName(a) && IsName(b) && |a| == |b| == 1
    ensures Lex(a, b) <==> Digit(a[0]) < Digit(b[0])
  {
    if Digit(a[0]) < Digit(b[0]) {
      assert a[..0] == b[..0];
    }
  }

  lemma CompareStep(v: nat, d: nat, w: nat, e: nat)
    requires d < 36 && e < 36
    ensures v * 36 + d < w * 36 + e <==> v < w || (v == w && d < e)
  {
  }

  /** Names are numbered in their order. */
  lemma {:induction false} OrderPreserved(a: string, b: string)
    requires IsName(a) && IsName(b)
    ensures Value(a) < Value(b) <==> Before(a, b)
    decreases |a| + |b|
  {
    hide TokenCharEncode, Lex, Digit;
    var m, n := |a| - 1, |b| - 1;
    if m == 0 && n == 0 {
      LexOne(a, b);
    } else if m > 0 && n > 0 {
      OrderPreserved(a[..m], b[..n]);
      SameValue(a[..m], b[..n]);
      CompareStep(Value(a[..m]) + 1, Digit(a[m]), Value(b[..n]) + 1, Digit(b[n]));
      if m == n {
        LexStep(a, b);
      }
    }
  }

  lemma SameValue(a: string, b: string)
    requires IsName(a) && IsName(b)
    ensures Value(a) == Value(b) <==> a == b
  {
    NameOfValue(a);
    NameOfValue(b);
  }

  /** Names of up to twelve letters are exactly those numbered up to TOKEN_ID_MAX. */
  lemma LengthLimit(s: string)
    requires IsName(s)
    ensures |s| <= MAX_LENGTH <==> Value(s) <= TOKEN_ID_MAX as int
  {
    hide Value, First, Pow36;
    ValueRange(s);
    PowersOf36();
    if |s| > MAX_LENGTH {
      FirstAtMost(MAX_LENGTH + 1, |s|);
    } else {
      FirstAtMost(|s| + 1, MAX_LENGTH + 1);
    }
  }

  /** The number of names shorter than n. */
  ghost function First(n: nat): nat {
    if n <= 1 then 0 else First(n - 1) + Pow36(n - 1)
  }

  lemma {:induction false} ValueRange(s: string)
    requires IsName(s)
    ensures First(|s|) <= Value(s) < First(|s| + 1)
  {
    var n := |s| - 1;
    if n > 0 {
      ValueRange(s[..n]);
      FirstStep(n);
      FirstStep(n + 1);
    } else {
      assert First(2) == First(1) + Pow36(1) && Pow36(1) == 36 * Pow36(0);
    }
  }

  lemma {:induction false} FirstStep(n: nat)
    requires n >= 1
    ensures First(n + 1) == 36 * (First(n) + 1)
  {
    if n > 1 {
      FirstStep(n - 1);
    } else {
      assert First(2) == First(1) + Pow36(1) && Pow36(1) == 36 * Pow36(0);
    }
  }

  lemma {:induction false} FirstAtMost(m: nat, n: nat)
    requires m <= n
    ensures First(m) <= First(n)
  {
    if m < n {
      FirstAtMost(m, n - 1);
    }
  }

  lemma PowersOf36()
    ensures First(MAX_LENGTH + 1) == TOKEN_ID_MAX as int + 1
  {
    FirstStep(1); FirstStep(2); FirstStep(3); FirstStep(4); FirstStep(5); FirstStep(6);
    FirstStep(7); FirstStep(8); FirstStep(9); FirstStep(10); FirstStep(11); FirstStep(12);
  }

  // ---------- the loops ----------

  /** A letter put in front counts once for every name of the rest's length, and for the shorter ones. */
  lemma {:induction false} ValuePrepend(c: char, s: string)
    requires ValidChar(c) && IsName(s)
    ensures IsName([c] + s) && Value([c] + s) == Value(s) + Pow36(|s|) * (Digit(c) + 1)
  {
    var t := [c] + s;
    var n := |s| - 1;
    if n == 0 {
      assert t[..1] == [c] && Value([c]) == Digit(c) && Pow36(1) == 36 * Pow36(0);
    } else {
      ValuePrepend(c, s[..n]);
      assert t[..|s|] == [c] + s[..n];
      Shift(Value(s[..n]), Pow36(n), Digit(c) + 1, Digit(s[n]));
    }
  }

  lemma Shift(v: nat, p: nat, d: nat, e: nat)
    ensures (v + p * d + 1) * 36 + e == (v + 1) * 36 + e + (36 * p) * d
  {
  }

  lemma OneLetter(c: char)
    requires ValidChar(c)
    ensures Value([c]) == Digit(c) && Pow36(1) == 36
  {
    assert Pow36(1) == 36 * Pow36(0);
  }

  /** The factor the loop keeps stays within 64 bits. */
  lemma {:induction false} PowerFits(n: nat)
    requires n < MAX_LENGTH
    ensures Pow36(n + 1) == 36 * Pow36(n) && Pow36(n + 1) <= 4738381338321616896
    decreases MAX_LENGTH - n
  {
    if n + 1 < MAX_LENGTH {
      PowerFits(n + 1);
    } else {
      assert Pow36(4) == 1679616;
      assert Pow36(8) == 1679616 * 1679616;
    }
  }

  /** One turn of the loop: neither the product, nor the sum, nor the next factor leaves 64 bits. */
  lemma NextFits(c: char, rest: string, id: int, base: int, d: int)
    requires ValidChar(c) && IsName(rest) && |rest| < MAX_LENGTH && id == Value(rest) && base == Pow36(|rest|) && d == Digit(c)
    ensures IsName([c] + rest) && Value([c] + rest) == id + base * (d + 1)
    ensures 0 <= base * (d + 1) <= id + base * (d + 1) <= TOKEN_ID_MAX as int
    ensures Pow36(|rest| + 1) == base * 36 <= 4738381338321616896
  {
    hide Value, Pow36, Digit, ValidChar;
    ValuePrepend(c, rest);
    LengthLimit([c] + rest);
    PowerFits(|rest|);
    assert base * (d + 1) >= 0 by { MulNotNegative(base, d + 1); }
  }

  lemma MulNotNegative(a: int, b: int)
    requires a >= 0 && b >= 0
    ensures a * b >= 0
  {
  }

  /** None stands for the panics: a name too long, empty, or with a letter outside 0-9A-Z. */
  method TokenIDEncode(str: string) returns (r: Option<uint64>)
    ensures r.Some? <==> IsName(str) && |str| <= MAX_LENGTH
    ensures r.Some? ==> r.value as int == Value(str) && r.value <= TOKEN_ID_MAX
  {
    hide Value, Pow36, TokenCharEncode;
    if |str| >= 13 || |str| == 0 {
      return None;
    }
    var n := |str|;
    var last := TokenCharEncode(str[n - 1]);
    if last.None? {
      return None;
    }
    var id, base := last.value, TOKEN_BASE;
    var index := n - 2;
    assert str[n - 1..] == [str[n - 1]];
    OneLetter(str[n - 1]);
    while index >= 0
      invariant -1 <= index <= n - 2
      invariant IsName(str[index + 1..]) && id as int == Value(str[index + 1..])
      invariant base as int == Pow36(n - 1 - index)
      decreases index + 1
    {
      var d := TokenCharEncode(str[index]);
      if d.None? {
        return None;
      }
      ghost var rest := str[index + 1..];
      assert str[index..] == [str[index]] + rest;
      NextFits(str[index], rest, id as int, base as int, d.value as int);
      id, base, index := id + base * (d.value + 1), base * TOKEN_BASE, index - 1;
    }
    assert str[0..] == str;
    LengthLimit(str);
    return Some(id);
  }

  ghost function Reversed(s: string): string {
    if s == "" then "" else [s[|s| - 1]] + Reversed(s[..|s| - 1])
  }

  method ReverseString(s: string) returns (result: string)
    ensures result == Reversed(s)
  {
    result := "";
    for i := 0 to |s|
      invariant result == Reversed(s[..i])
    {
      assert s[..i + 1][..i] == s[..i];
      result := [s[i]] + result;
    }
    assert s[..|s|] == s;
  }

  /** One step of decoding: the last letter, and the name in front of it if there is one. */
  lemma NameStep(id: nat, name: string, c: char)
    requires TokenCharDecode((id % 36) as uint64) == Some(c)
    ensures Reversed(name + [c]) == [c] + Reversed(name)
    ensures id < 36 ==> Name(id) == [c]
    ensures id >= 36 ==> Name(id) + Reversed(name) == Name(id / 36 - 1) + Reversed(name + [c])
  {
    assert (name + [c])[..|name|] == name;
  }

  method TokenIdDecode(number: uint64) returns (r: Option<string>)
    ensures r.Some? <==> number <= TOKEN_ID_MAX
    ensures r.Some? ==> r.value == Name(number as int) && IsName(r.value) && |r.value| <= MAX_LENGTH
  {
    hide Name, Value, Reversed, TokenCharDecode;
    if number > TOKEN_ID_MAX {
      return None;
    }
    ghost var want := Name(number as int);
    ValueOfName(number as int);
    LengthLimit(want);
    var t := TokenCharDecode(number % TOKEN_BASE);
    var name := [t.value];
    NameStep(number as int, "", t.value);
    NoLetters();
    assert "" + [t.value] == name && want + "" == want;
    if number / TOKEN_BASE < 1 {
      return Some(name);
    }
    var id := number / TOKEN_BASE - 1;
    while true
      invariant want == Name(id as int) + Reversed(name)
      decreases id
    {
      t := TokenCharDecode(id % TOKEN_BASE);
      NameStep(id as int, name, t.value);
      name := name + [t.value];
      if id / TOKEN_BASE < 1 {
        break;
      }
      id := id / TOKEN_BASE - 1;
    }
    var s := ReverseString(name);
    return Some(s);
  }

  lemma NoLetters()
    ensures Reversed("") == ""
  {
  }

  /** The names of one to twelve letters and the numbers up to TOKEN_ID_MAX correspond one to one. */
  lemma TokenBijection(s: string, id: nat)
    requires IsName(s)
    ensures Name(Value(s)) == s && (|s| <= MAX_LENGTH <==> Value(s) <= TOKEN_ID_MAX as int)
    ensures Value(Name(id)) == id && (|Name(id)| <= MAX_LENGTH <==> id <= TOKEN_ID_MAX as int)
  {
    NameOfValue(s);
    LengthLimit(s);
    ValueOfName(id);
    LengthLimit(Name(id));
  }
}
