/** Base58 and Base58Check (BRBase58.c), and the encoder of Base58.swift. */
module Base58 {
  import opened Hashing
  import opened Radix
  import opened Wrappers

  const CHARS: string := "123456789" + "ABCDEFGH" + "JKLMN" + "PQRSTUVWXYZ" + "abcdefghijk" + "mnopqrstuvwxyz"

  lemma CharsLength()
    ensures |CHARS| == 58
  {}

  /** The digit a character stands for. */
  function CharDigit(c: char): Option<nat> {
    if '1' <= c <= '9' then Some((c as int - '1' as int) as nat)
    else if 'A' <= c <= 'H' then Some((c as int + 9 - 'A' as int) as nat)
    else if 'J' <= c <= 'N' then Some((c as int + 17 - 'J' as int) as nat)
    else if 'P' <= c <= 'Z' then Some((c as int + 22 - 'P' as int) as nat)
    else if 'a' <= c <= 'k' then Some((c as int + 33 - 'a' as int) as nat)
    else if 'm' <= c <= 'z' then Some((c as int + 44 - 'm' as int) as nat)
    else None
  }

  function CharCode(d: nat): int {
    if d < 9 then '1' as int + d else if d < 17 then 'A' as int + d - 9 else if d < 22 then 'J' as int + d - 17
    else if d < 33 then 'P' as int + d - 22 else if d < 44 then 'a' as int + d - 33 else 'm' as int + d - 44
  }

  /** The alphabet in the pieces the decoder distinguishes. */
  lemma AlphabetRow(d: nat)
    requires d < 58
    ensures CHARS[d] as int == CharCode(d)
  {
    if d < 17 { DigitsAndA(d); } else if d < 33 { RestOfUpperCase(d); } else { LowerCase(d); }
  }

  lemma CharCodeInverse(c: char, d: nat)
    requires d < 58
    ensures CharDigit(c) == Some(d) <==> c as int == CharCode(d)
  {}

  /** The switch of the decoder and the alphabet of the encoder are inverse. */
  lemma CharDigitInverse(c: char, d: nat)
    requires d < 58
    ensures d < |CHARS| && (CharDigit(c) == Some(d) <==> CHARS[d] == c)
  {
    hide CharDigit, CharCode;
    CharsLength();
    AlphabetRow(d);
    CharCodeInverse(c, d);
  }

  lemma DigitsAndA(d: nat)
    requires d < 17
    ensures CHARS[d] as int == CharCode(d)
  {}

  lemma RestOfUpperCase(d: nat)
    requires 17 <= d < 33
    ensures CHARS[d] as int == CharCode(d)
  {}

  lemma LowerCase(d: nat)
    requires 33 <= d < 58
    ensures CHARS[d] as int == CharCode(d)
  {}

  lemma CharDigitBound(c: char)
    ensures CharDigit(c).Some? ==> CharDigit(c).value < 58
  {}

  /** The alphabet: digits and letters but for zero, capital o, capital i and small l, in the order of their codes. */
  lemma AlphabetIs(c: char)
    ensures CharDigit(c).Some? <==>
            ('0' <= c <= '9' || 'A' <= c <= 'Z' || 'a' <= c <= 'z') && c != '0' && c != 'O' && c != 'I' && c != 'l'
  {}

  lemma AlphabetOrder(c: char, d: char)
    requires CharDigit(c).Some? && CharDigit(d).Some?
    ensures c < d <==> CharDigit(c).value < CharDigit(d).value
  {}

  // ---------- What is computed ----------

  function LeadingZeroCount(data: seq<nat>): (z: nat)
    ensures z <= |data| && (forall i :: 0 <= i < z ==> data[i] == 0) && (z < |data| ==> data[z] != 0)
    decreases |data|
  {
    if data != [] && data[0] == 0 then 1 + LeadingZeroCount(data[1..]) else 0
  }

  lemma {:induction false} LeadingZeroCountIs(data: seq<nat>, z: nat)
    requires z <= |data| && (forall i :: 0 <= i < z ==> data[i] == 0) && (z < |data| ==> data[z] != 0)
    ensures LeadingZeroCount(data) == z
    decreases |data|
  {
    if data != [] && data[0] == 0 { LeadingZeroCountIs(data[1..], z - 1); }
  }

  function Chars(digits: seq<nat>): (s: string)
    requires AreDigits(58, digits)
    ensures |s| == |digits| && forall i :: 0 <= i < |s| ==> s[i] == CHARS[digits[i]]
  {
    CharsLength();
    seq(|digits|, i requires 0 <= i < |digits| => CHARS[digits[i]])
  }

  function Ones(n: nat): (s: string)
    ensures |s| == n && forall i :: 0 <= i < n ==> s[i] == '1'
  {
    seq(n, i => '1')
  }

  /** A one for every leading zero byte, and the digits of the number the bytes denote. */
  function Encoded(data: seq<nat>): string {
    ToDigitsSound(58, Value(256, data));
    Ones(LeadingZeroCount(data)) + Chars(ToDigits(58, Value(256, data)))
  }

  function LeadingOneCount(s: string): (z: nat)
    ensures z <= |s| && (forall i :: 0 <= i < z ==> s[i] == '1') && (z < |s| ==> s[z] != '1')
    decreases |s|
  {
    if s != "" && s[0] == '1' then 1 + LeadingOneCount(s[1..]) else 0
  }

  lemma {:induction false} LeadingOneCountIs(s: string, z: nat)
    requires z <= |s| && (forall i :: 0 <= i < z ==> s[i] == '1') && (z < |s| ==> s[z] != '1')
    ensures LeadingOneCount(s) == z
    decreases |s|
  {
    if s != "" && s[0] == '1' { LeadingOneCountIs(s[1..], z - 1); }
  }

  /** The digits up to the first character that is none. */
  function StringDigits(s: string): (digits: seq<nat>)
    ensures |digits| <= |s| && AreDigits(58, digits)
    decreases |s|
  {
    if s != "" && CharDigit(s[0]).Some? then [CharDigit(s[0]).value] + StringDigits(s[1..]) else []
  }

  predicate IsValid(s: string) {
    forall i :: 0 <= i < |s| ==> CharDigit(s[i]).Some?
  }

  function Decoded(s: string): seq<nat> {
    Zeros(LeadingOneCount(s)) + ToDigits(256, Value(58, StringDigits(s)))
  }

  // ---------- The buffers are large enough ----------

  lemma Exponents()
    ensures Pow(256, 8) <= Pow(58, 11)
    ensures Pow(58, 71) <= Pow(256, 52)
  {
    SmallPowers();
    PowAdd(58, 11, 11);
    PowAdd(58, 22, 11);
    PowAdd(58, 33, 33);
    PowAdd(58, 66, 5);
    PowAdd(256, 8, 5);
    PowAdd(256, 13, 13);
    PowAdd(256, 26, 26);
  }

  lemma SmallPowers()
    ensures Pow(58, 5) == 656356768 && Pow(58, 11) == 24986644000165537792
    ensures Pow(256, 5) == 1099511627776 && Pow(256, 8) == 18446744073709551616
  {
    PowTwice(58);
    PowTwice(256);
    PowAdd(58, 4, 1);
    PowAdd(58, 5, 5);
    PowAdd(58, 10, 1);
    PowAdd(256, 4, 1);
    PowAdd(256, 4, 4);
  }

  lemma PowTwice(base: nat)
    ensures Pow(base, 1) == base && Pow(base, 2) == base * base && Pow(base, 4) == base * base * (base * base)
  {
    assert Pow(base, 0) == 1;
    assert Pow(base, 1) == base * Pow(base, 0);
    PowAdd(base, 1, 1);
    PowAdd(base, 2, 2);
  }

  /** Base 58 digits enough for the bytes, though only 1.38 are reserved for each. */
  lemma EncodeBuffer(m: nat)
    ensures Pow(256, m) <= Pow(58, m * 138 / 100 + 1)
  {
    Exponents();
    Compare(256, 8, 58, 11, m, m * 138 / 100 + 1);
  }

  /** Bytes enough for up to `n` base 58 digits. */
  lemma DecodeBuffer(k: nat, n: nat)
    requires k <= n
    ensures Pow(58, k) <= Pow(256, n * 733 / 1000 + 1)
  {
    Exponents();
    Compare(58, 71, 256, 52, k, n * 733 / 1000 + 1);
  }

  // ---------- The loops ----------

  lemma DigitStep(v: nat, p: nat, carry: nat, w: nat, d: nat, mul: nat, digit: nat, base: nat)
    requires base > 0 && v + carry * p == w * mul + digit
    ensures var c := carry + d * mul;
      (c % base) * p + v + c / base * (base * p) == (d * p + w) * mul + digit
  {
    var c := carry + d * mul;
    var r, q := c % base, c / base;
    assert c == q * base + r;
    Distribute(r, q * base, p);
    Distribute(carry, d * mul, p);
    assert q * base * p == q * (base * p);
    assert d * mul * p == d * p * mul;
    Distribute(d * p, w, mul);
  }

  lemma Distribute(x: nat, y: nat, z: nat)
    ensures (x + y) * z == x * z + y * z
  {}

  lemma DigitBefore(base: nat, d: nat, digits: seq<nat>)
    ensures Value(base, [d] + digits) == d * Pow(base, |digits|) + Value(base, digits)
  {
    ValueConcat(base, [d], digits);
    ValueAppend(base, [], d);
  }

  /** One more digit, and what is carried over from it. */
  lemma OneDigit(base: nat, mul: nat, digit: nat, carry: nat, p: nat, d: nat, rest: seq<nat>, restWas: seq<nat>)
    requires base > 0 && carry < mul && d < base && |rest| == |restWas| && p == Pow(base, |rest|)
    requires Value(base, rest) + carry * p == Value(base, restWas) * mul + digit
    ensures var c := carry + d * mul;
      && 0 <= c && 0 <= c / base < mul && c % base < base && base * p == Pow(base, |rest| + 1)
      && Value(base, [c % base] + rest) + c / base * (base * p) == Value(base, [d] + restWas) * mul + digit
  {
    hide Value, Pow;
    var c := carry + d * mul;
    CarryBound(carry, d, mul, base);
    DigitStep(Value(base, rest), p, carry, Value(base, restWas), d, mul, digit, base);
    DigitBefore(base, c % base, rest);
    DigitBefore(base, d, restWas);
    OneMorePower(base, |rest|);
  }

  lemma NoCarry(v: nat, carry: nat, p: nat)
    requires v + carry * p < p
    ensures carry == 0
  {}

  /** Multiplies the number in the buffer and adds a digit, from the right and in place. */
  method MulAdd(buf: array<nat>, base: nat, mul: nat, digit: nat)
    requires base > 1 && digit < mul && AreDigits(base, buf[..])
    requires Value(base, buf[..]) * mul + digit < Pow(base, buf.Length)
    modifies buf
    ensures AreDigits(base, buf[..]) && Value(base, buf[..]) == Value(base, old(buf[..])) * mul + digit
  {
    hide Value, Pow;
    ghost var was := buf[..];
    var carry: nat, j: nat := digit, buf.Length;
    ghost var p: nat := 1;
    EmptyValue(base);
    assert was[j..] == [] && buf[j..] == [];
    while j > 0
      invariant 0 <= j <= buf.Length && p == Pow(base, buf.Length - j)
      invariant buf[..j] == was[..j] && AreDigits(base, buf[..]) && carry < mul
      invariant Value(base, buf[j..]) + carry * p == Value(base, was[j..]) * mul + digit
    {
      ghost var rest, restWas, d := buf[j..], was[j..], was[j - 1];
      assert buf[..j][j - 1] == was[..j][j - 1];
      OneDigit(base, mul, digit, carry, p, d, rest, restWas);
      assert buf[j - 1] == d;
      carry := carry + buf[j - 1] * mul;
      buf[j - 1] := carry % base;
      assert buf[j - 1..] == [carry % base] + rest && was[j - 1..] == [d] + restWas;
      carry := carry / base;
      j, p := j - 1, base * p;
    }
    assert buf[0..] == buf[..] && was[0..] == was;
    NoCarry(Value(base, buf[..]), carry, p);
  }

  lemma CarryBound(carry: nat, d: nat, mul: nat, base: nat)
    requires carry < mul && d < base
    ensures 0 <= carry + d * mul && 0 <= (carry + d * mul) / base < mul && (carry + d * mul) % base < base
  {
    MulGrows(d + 1, base, mul, mul);
    QuotientBound(carry + d * mul, base, mul);
  }

  lemma EmptyValue(base: nat)
    ensures Value(base, []) == 0 && Pow(base, 0) == 1
  {}

  lemma OneMorePower(base: nat, e: nat)
    ensures Pow(base, e + 1) == base * Pow(base, e)
  {}

  lemma EncodeStep(data: seq<nat>, z: nat, i: nat)
    requires AreBytes(data) && z <= i < |data|
    ensures Value(256, data[z..i + 1]) == Value(256, data[z..i]) * 256 + data[i]
    ensures Value(256, data[z..i + 1]) < Pow(58, (|data| - z) * 138 / 100 + 1)
  {
    assert data[z..i + 1] == data[z..i] + [data[i]];
    ValueAppend(256, data[z..i], data[i]);
    ValueBound(256, data[z..i + 1]);
    EncodeBuffer(|data| - z);
    PowGrows(256, i + 1 - z, |data| - z);
  }

  /** The digits of the number the bytes denote, behind zeros. */
  method Digits58(data: seq<nat>, z: nat) returns (buf: array<nat>)
    requires AreBytes(data) && z <= |data|
    ensures fresh(buf) && AreDigits(58, buf[..]) && Value(58, buf[..]) == Value(256, data[z..])
  {
    hide Value, Pow;
    buf := new nat[(|data| - z) * 138 / 100 + 1](i => 0);
    assert buf[..] == Zeros(buf.Length);
    ZerosAreZero(58, buf.Length);
    assert data[z..z] == [];
    EmptyValue(256);
    for i := z to |data|
      invariant AreDigits(58, buf[..]) && Value(58, buf[..]) == Value(256, data[z..i])
    {
      EncodeStep(data, z, i);
      MulAdd(buf, 58, 256, data[i]);
    }
    assert data[z..|data|] == data[z..];
  }

  method SkipZeros(buf: array<nat>) returns (i: nat)
    ensures i <= buf.Length && (forall k :: 0 <= k < i ==> buf[k] == 0) && (i < buf.Length ==> buf[i] != 0)
  {
    i := 0;
    while i < buf.Length && buf[i] == 0
      invariant i <= buf.Length && forall k :: 0 <= k < i ==> buf[k] == 0
    {
      i := i + 1;
    }
  }

  method Write(zcount0: nat, buf: array<nat>, i0: nat) returns (s: string)
    requires i0 <= buf.Length && AreDigits(58, buf[..])
    ensures s == Ones(zcount0) + Chars(buf[i0..])
  {
    CharsLength();
    var zcount: nat, i: nat := zcount0, i0;
    s := "";
    while zcount > 0
      invariant zcount <= zcount0 && s == Ones(zcount0 - zcount)
    {
      s := s + ['1'];
      zcount := zcount - 1;
    }
    assert Chars(buf[i0..i0]) == "" && Ones(zcount0) + "" == Ones(zcount0);
    while i < buf.Length
      invariant i0 <= i <= buf.Length && s == Ones(zcount0) + Chars(buf[i0..i])
    {
      assert buf[i0..i + 1] == buf[i0..i] + [buf[i]];
      s := s + [CHARS[buf[i]]];
      i := i + 1;
    }
    assert buf[i0..buf.Length] == buf[i0..];
  }

  /**
   `BRBase58Encode`: `room` is the size of the buffer the caller offers, if it offers one. The length counts the
   terminating NUL.
  */
  method Encode(data: seq<nat>, room: Option<nat>) returns (length: nat, str: Option<string>)
    requires AreBytes(data)
    ensures var s := Encoded(data);
      match room
      case None => length == |s| + 1 && str == None
      case Some(r) => if |s| + 1 <= r then length == |s| + 1 && str == Some(s) else length == 0 && str == None
  {
    hide Value, Pow, ToDigits;
    var zcount := 0;
    while zcount < |data| && data[zcount] == 0
      invariant zcount <= |data| && forall k :: 0 <= k < zcount ==> data[k] == 0
    {
      zcount := zcount + 1;
    }
    LeadingZeroCountIs(data, zcount);
    var buf := Digits58(data, zcount);
    var i := SkipZeros(buf);
    LeadingZeros(58, buf[..], i);
    LeadingZeros(256, data, zcount);
    assert buf[..][i..] == buf[i..];
    ToDigitsSound(58, Value(256, data));
    var len := zcount + buf.Length - i + 1;
    str := None;
    if room.Some? && len <= room.value {
      var s := Write(zcount, buf, i);
      str := Some(s);
    }
    length := if room.None? || len <= room.value then len else 0;
  }

  // ---------- Decoding ----------

  lemma DecodeStep(digits: seq<nat>, i: nat, n: nat)
    requires AreDigits(58, digits) && i < |digits| <= n
    ensures Value(58, digits[..i + 1]) == Value(58, digits[..i]) * 58 + digits[i]
    ensures Value(58, digits[..i + 1]) < Pow(256, n * 733 / 1000 + 1)
  {
    assert digits[..i + 1] == digits[..i] + [digits[i]];
    ValueAppend(58, digits[..i], digits[i]);
    ValueBound(58, digits[..i + 1]);
    DecodeBuffer(i + 1, n);
  }

  lemma {:induction false} StringDigitsAt(s: string, i: nat)
    requires i <= |s| && forall k :: 0 <= k < i ==> CharDigit(s[k]).Some?
    ensures i <= |StringDigits(s)|
    ensures if i < |s| && CharDigit(s[i]).Some? then i < |StringDigits(s)| && StringDigits(s)[i] == CharDigit(s[i]).value
            else i == |StringDigits(s)|
    decreases i
  {
    if i > 0 { StringDigitsAt(s[1..], i - 1); }
  }

  /** The bytes of the number the digits denote, behind zeros; an invalid character ends the digits. */
  method Bytes58(str: string) returns (buf: array<nat>)
    ensures fresh(buf) && AreDigits(256, buf[..]) && Value(256, buf[..]) == Value(58, StringDigits(str))
  {
    hide Value, Pow, CharDigit, StringDigits;
    buf := new nat[|str| * 733 / 1000 + 1](i => 0);
    assert buf[..] == Zeros(buf.Length);
    ZerosAreZero(256, buf.Length);
    EmptyValue(58);
    ghost var digits := StringDigits(str);
    assert digits[..0] == [];
    StringDigitsAt(str, 0);
    var i := 0;
    while i < |str|
      invariant i <= |str| && i <= |digits| && forall k :: 0 <= k < i ==> CharDigit(str[k]).Some?
      invariant AreDigits(256, buf[..]) && Value(256, buf[..]) == Value(58, digits[..i])
    {
      var carry := CharDigit(str[i]);
      CharDigitBound(str[i]);
      StringDigitsAt(str, i);
      if carry.None? { break; }
      DecodeStep(digits, i, |str|);
      MulAdd(buf, 256, 58, carry.value);
      i := i + 1;
    }
    StringDigitsAt(str, i);
    assert digits[..|digits|] == digits;
  }

  /** `BRBase58Decode`: the bytes are written if the caller offers enough room. */
  method Decode(str: string, room: Option<nat>) returns (length: nat, data: Option<seq<nat>>)
    ensures var d := Decoded(str);
      match room
      case None => length == |d| && data == None
      case Some(r) => if |d| <= r then length == |d| && data == Some(d) else length == 0 && data == None
  {
    hide Value, Pow, ToDigits, StringDigits, CharDigit;
    var zcount := 0;
    while zcount < |str| && str[zcount] == '1'
      invariant zcount <= |str| && forall k :: 0 <= k < zcount ==> str[k] == '1'
    {
      zcount := zcount + 1;
    }
    LeadingOneCountIs(str, zcount);
    OnesAreZeros(str, zcount);
    var buf := Bytes58(str[zcount..]);
    var i := SkipZeros(buf);
    LeadingZeros(256, buf[..], i);
    assert buf[..][i..] == buf[i..];
    var len := zcount + buf.Length - i;
    data := None;
    if room.Some? && len <= room.value {
      data := Some(Zeros(zcount) + buf[i..]);
    }
    length := if room.None? || len <= room.value then len else 0;
  }

  /** Leading ones are zero digits. */
  lemma OnesAreZeros(s: string, z: nat)
    requires z <= |s| && forall i :: 0 <= i < z ==> s[i] == '1'
    ensures StringDigits(s) == Zeros(z) + StringDigits(s[z..])
    ensures Value(58, StringDigits(s)) == Value(58, StringDigits(s[z..]))
  {
    ZeroDigits(s, z);
    ValueZeros(58, z, StringDigits(s[z..]));
  }

  lemma OneIsZero()
    ensures CharDigit('1') == Some(0)
  {}

  lemma {:induction false} ZeroDigits(s: string, z: nat)
    requires z <= |s| && forall i :: 0 <= i < z ==> s[i] == '1'
    ensures StringDigits(s) == Zeros(z) + StringDigits(s[z..])
    decreases z
  {
    hide CharDigit;
    if z == 0 {
      assert s[0..] == s && Zeros(0) + StringDigits(s) == StringDigits(s);
    } else {
      OneIsZero();
      var rest := StringDigits(s[z..]);
      ZeroDigits(s[1..], z - 1);
      assert s[1..][z - 1..] == s[z..];
      assert StringDigits(s) == [0] + (Zeros(z - 1) + rest);
    }
  }

  lemma DecodedBytes(s: string)
    ensures AreBytes(Decoded(s))
  {
    hide Value, ToDigits, StringDigits, CharDigit;
    ToDigitsSound(256, Value(58, StringDigits(s)));
  }

  // ---------- Round trips ----------

  lemma {:induction false} CharsDigits(digits: seq<nat>)
    requires AreDigits(58, digits)
    ensures StringDigits(Chars(digits)) == digits && IsValid(Chars(digits))
    ensures digits != [] ==> (Chars(digits)[0] == '1' <==> digits[0] == 0)
  {
    hide CharDigit;
    if digits != [] {
      var s := Chars(digits);
      CharDigitInverse(s[0], digits[0]);
      CharDigitInverse('1', 0);
      CharDigitInverse('1', digits[0]);
      CharsDigits(digits[1..]);
      assert s[1..] == Chars(digits[1..]);
    }
  }

  /** Decoding undoes encoding, for all byte strings. */
  lemma DecodeEncode(data: seq<nat>)
    requires AreBytes(data)
    ensures Decoded(Encoded(data)) == data && IsValid(Encoded(data))
  {
    hide CharDigit, Value, ToDigits, StringDigits, Chars;
    var z, v := LeadingZeroCount(data), Value(256, data);
    var digits, s := ToDigits(58, v), Encoded(data);
    ToDigitsSound(58, v);
    CharsDigits(digits);
    OneIsZero();
    assert s[z..] == Chars(digits);
    LeadingOneCountIs(s, z);
    OnesAreZeros(s, z);
    LeadingZeros(256, data, z);
  }

  lemma {:induction false} DigitsChars(s: string)
    requires IsValid(s)
    ensures Chars(StringDigits(s)) == s
  {
    hide CharDigit;
    if s != "" {
      CharDigitBound(s[0]);
      CharDigitInverse(s[0], CharDigit(s[0]).value);
      DigitsChars(s[1..]);
      assert s == [s[0]] + s[1..];
    }
  }

  /** Encoding undoes decoding, for all valid strings. */
  lemma EncodeDecode(s: string)
    requires IsValid(s)
    ensures AreBytes(Decoded(s)) && Encoded(Decoded(s)) == s
  {
    hide CharDigit, Value, ToDigits, StringDigits, Chars;
    var z := LeadingOneCount(s);
    var rest := s[z..];
    var digits := StringDigits(rest);
    var v := Value(58, digits);
    OnesAreZeros(s, z);
    DigitsChars(rest);
    CharsDigits(digits);
    assert NoLeadingZero(digits);
    DigitsUnique(58, digits);
    var data := Decoded(s);
    ToDigitsSound(256, v);
    ValueZeros(256, z, ToDigits(256, v));
    LeadingZeroCountIs(data, z);
    assert s == Ones(z) + rest;
  }

  // ---------- The encoder of Base58.swift ----------

  /** Leading zeros do not count. */
  lemma SkippedZeros(base: nat, digits: seq<nat>, n: nat)
    requires n <= |digits| && forall k :: 0 <= k < n ==> digits[k] == 0
    ensures Value(base, digits) == Value(base, digits[n..])
  {
    assert digits == Zeros(n) + digits[n..];
    ValueZeros(base, n, digits[n..]);
  }

  /**
   One byte of `base58FromBytes`: only the last `length` digits, which hold the whole number, and those the carry
   reaches are visited.
  */
  method MulAddShort(base58: array<nat>, length: nat, b: nat) returns (i: nat)
    requires b < 256 && AreDigits(58, base58[..]) && length <= base58.Length
    requires forall k :: 0 <= k < base58.Length - length ==> base58[k] == 0
    requires Value(58, base58[..]) * 256 + b < Pow(58, base58.Length)
    modifies base58
    ensures AreDigits(58, base58[..]) && Value(58, base58[..]) == Value(58, old(base58[..])) * 256 + b
    ensures i <= base58.Length && forall k :: 0 <= k < base58.Length - i ==> base58[k] == 0
  {
    hide Value, Pow;
    ghost var was := base58[..];
    var n := base58.Length;
    var carry: nat := b;
    ghost var p: nat := 1;
    i := 0;
    EmptyValue(58);
    assert was[n..] == [] && base58[n..] == [];
    for j := 0 to n
      invariant i <= j && p == Pow(58, i) && carry < 256
      invariant i < j ==> carry == 0 && i >= length
      invariant base58[..n - i] == was[..n - i] && AreDigits(58, base58[..])
      invariant Value(58, base58[n - i..]) + carry * p == Value(58, was[n - i..]) * 256 + b
    {
      if carry != 0 || i < length {
        ghost var rest, restWas, d := base58[n - i..], was[n - i..], was[n - j - 1];
        assert base58[..n - i][n - j - 1] == was[..n - i][n - j - 1];
        OneDigit(58, 256, b, carry, p, d, rest, restWas);
        assert base58[n - j - 1] == d;
        carry := carry + 256 * base58[n - j - 1];
        base58[n - j - 1] := carry % 58;
        assert base58[n - j - 1..] == [carry % 58] + rest && was[n - j - 1..] == [d] + restWas;
        carry := carry / 58;
        i, p := i + 1, 58 * p;
      }
    }
    ShortIsWhole(was, base58[..], n - i, carry, p, b);
    assert carry == 0;
    forall k | 0 <= k < n - i
      ensures base58[k] == 0
    {
      assert base58[..n - i][k] == was[..n - i][k];
    }
  }

  lemma ShortIsWhole(was: seq<nat>, now: seq<nat>, m: nat, carry: nat, p: nat, b: nat)
    requires |was| == |now| && m <= |was| && was[..m] == now[..m] && (m > 0 ==> carry == 0)
    requires forall k :: 0 <= k < m ==> was[k] == 0
    requires p == Pow(58, |was| - m) && Value(58, now[m..]) + carry * p == Value(58, was[m..]) * 256 + b
    requires Value(58, was) * 256 + b < Pow(58, |was|)
    ensures carry == 0 && Value(58, now) == Value(58, was) * 256 + b
  {
    hide Value, Pow;
    forall k | 0 <= k < m
      ensures now[k] == 0
    {
      assert now[..m][k] == was[..m][k];
    }
    SkippedZeros(58, was, m);
    SkippedZeros(58, now, m);
    if m == 0 {
      assert now[0..] == now && was[0..] == was;
      NoCarry(Value(58, now), carry, p);
    }
  }

  method ShortDigits58(bytes: seq<nat>, z: nat) returns (base58: array<nat>)
    requires AreBytes(bytes) && z <= |bytes|
    ensures fresh(base58) && AreDigits(58, base58[..]) && Value(58, base58[..]) == Value(256, bytes[z..])
  {
    hide Value, Pow;
    var length: nat := 0;
    base58 := new nat[(|bytes| - z) * 138 / 100 + 1](i => 0);
    assert base58[..] == Zeros(base58.Length);
    ZerosAreZero(58, base58.Length);
    assert bytes[z..z] == [];
    EmptyValue(256);
    for i := z to |bytes|
      invariant length <= base58.Length && forall k :: 0 <= k < base58.Length - length ==> base58[k] == 0
      invariant AreDigits(58, base58[..]) && Value(58, base58[..]) == Value(256, bytes[z..i])
    {
      EncodeStep(bytes, z, i);
      length := MulAddShort(base58, length, bytes[i]);
    }
    assert bytes[z..|bytes|] == bytes[z..];
  }

  /** `base58FromBytes` of Base58.swift gives the same string. */
  method FromBytes(bytes: seq<nat>) returns (str: string)
    requires AreBytes(bytes)
    ensures str == Encoded(bytes)
  {
    hide Value, Pow, ToDigits;
    var zerosCount := 0;
    while zerosCount < |bytes| && bytes[zerosCount] == 0
      invariant zerosCount <= |bytes| && forall k :: 0 <= k < zerosCount ==> bytes[k] == 0
    {
      zerosCount := zerosCount + 1;
    }
    LeadingZeroCountIs(bytes, zerosCount);
    LeadingZeros(256, bytes, zerosCount);
    var base58 := ShortDigits58(bytes, zerosCount);
    var zerosToRemove := SkipZeros(base58);
    LeadingZeros(58, base58[..], zerosToRemove);
    assert base58[..][zerosToRemove..] == base58[zerosToRemove..];
    ToDigitsSound(58, Value(256, bytes));
    str := Write(zerosCount, base58, zerosToRemove);
  }

  // ---------- Base58Check ----------

  /** `BRBase58CheckEncode`: the first four bytes of the hash follow the data. */
  method CheckEncode(data: seq<nat>, room: Option<nat>, hash: seq<nat> -> seq<nat>)
    returns (length: nat, str: Option<string>)
    requires IsHash(hash) && AreBytes(data)
    ensures var s := Encoded(Checked(hash, data));
      match room
      case None => length == |s| + 1 && str == None
      case Some(r) => if |s| + 1 <= r then length == |s| + 1 && str == Some(s) else length == 0 && str == None
  {
    hide AreDigits;
    CheckedBytes(hash, data);
    length, str := Encode(Checked(hash, data), room);
  }

  function Checked(hash: seq<nat> -> seq<nat>, data: seq<nat>): seq<nat> {
    data + if |hash(data)| >= 4 then hash(data)[..4] else hash(data)
  }

  lemma CheckedBytes(hash: seq<nat> -> seq<nat>, data: seq<nat>)
    requires IsHash(hash) && AreBytes(data)
    ensures AreBytes(Checked(hash, data)) && |Checked(hash, data)| == |data| + 4
  {
    assert AreBytes(hash(data));
  }

  /** The decoded bytes are no more than the characters. */
  lemma DecodedLength(s: string)
    ensures |Decoded(s)| <= |s|
  {
    hide Value, ToDigits, StringDigits, CharDigit, Pow;
    var z := LeadingOneCount(s);
    OnesAreZeros(s, z);
    var digits := StringDigits(s[z..]);
    ValueBound(58, digits);
    PowOfLarger(58, 256, |digits|);
    ToDigitsLength(256, Value(58, digits), |digits|);
  }

  /** What `BRBase58CheckDecode` accepts. */
  predicate Accepts(hash: seq<nat> -> seq<nat>, s: string) {
    var d := Decoded(s);
    |d| >= 4 && Checked(hash, d[..|d| - 4]) == d
  }

  /** `BRBase58CheckDecode`: nothing is decoded if the checksum does not match. */
  method CheckDecode(str: string, room: Option<nat>, hash: seq<nat> -> seq<nat>)
    returns (length: nat, data: Option<seq<nat>>)
    requires IsHash(hash)
    ensures var d := if Accepts(hash, str) then Decoded(str)[..|Decoded(str)| - 4] else [];
      match room
      case None => length == |d| && data == None
      case Some(r) => if |d| <= r then length == |d| && (data == Some(d) || d == []) else length == 0 && data == None
  {
    hide Decoded;
    DecodedLength(str);
    var len, buf := Decode(str, Some(|str|));
    data := None;
    if len >= 4 {
      len := len - 4;
      var md := hash(buf.value[..len]);
      assert buf.value == buf.value[..len] + buf.value[len..];
      assert |md| == 32;
      if buf.value[len..] != md[..4] { len := 0; }
      if room.Some? && len <= room.value { data := Some(buf.value[..len]); }
    } else {
      len := 0;
    }
    length := if room.None? || len <= room.value then len else 0;
  }

  /** Whatever was encoded with a checksum is accepted and decoded. */
  lemma CheckRoundTrip(hash: seq<nat> -> seq<nat>, data: seq<nat>)
    requires IsHash(hash) && AreBytes(data)
    ensures var s := Encoded(Checked(hash, data));
      Accepts(hash, s) && Decoded(s)[..|Decoded(s)| - 4] == data
  {
    hide Encoded, Decoded, AreDigits;
    CheckedBytes(hash, data);
    DecodeEncode(Checked(hash, data));
    assert Checked(hash, data)[..|data|] == data;
  }

  /** A valid string that is accepted is the encoding of what it decodes to. */
  lemma AcceptedIsEncoded(hash: seq<nat> -> seq<nat>, s: string)
    requires IsHash(hash) && IsValid(s) && Accepts(hash, s)
    ensures var d := Decoded(s);
      s == Encoded(Checked(hash, d[..|d| - 4]))
  {
    EncodeDecode(s);
  }
}
