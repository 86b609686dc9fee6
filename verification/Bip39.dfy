/** Mnemonic phrases (BRBIP39Mnemonic.c). */
module Bip39 {
  import opened BitWindows
  import opened Bits
  import opened Hashing
  import opened Radix
  import opened Wrappers

  const WORD_COUNT: nat := 2048

  lemma SmallPowers()
    ensures Pow2(8) == 256 && Pow2(11) == 2048
  {
    assert Pow2(4) == 16;
    Pow2Add(4, 4);
    Pow2Add(8, 3);
  }

  // ---------- Eleven bits out of bytes ----------

  /** The number of word i: four bytes are read and shifted. */
  function Index(buf: seq<nat>, i: nat): nat
    requires i * 11 / 8 + 4 <= |buf|
  {
    var x := Value(256, buf[i * 11 / 8..i * 11 / 8 + 4]);
    x / Pow2(32 - (11 + i * 11 % 8)) % WORD_COUNT
  }

  /** It is the i-th run of eleven bits of the bytes. */
  lemma IndexIs(buf: seq<nat>, i: nat)
    requires i * 11 / 8 + 4 <= |buf| && AreDigits(256, buf)
    ensures 8 * |buf| >= 11 * (i + 1) && Index(buf, i) == Window(Value(256, buf), 8 * |buf| - 11 * (i + 1), 11)
  {
    hide Pow2, Value;
    SmallPowers();
    var q, r := i * 11 / 8, i * 11 % 8;
    var x := Value(256, buf[q..q + 4]);
    DigitsWindow(8, buf, q, q + 4);
    WindowOfWindow(Value(256, buf), 8 * (|buf| - q - 4), 32, 21 - r, 11);
    assert Index(buf, i) == Window(x, 21 - r, 11);
  }

  // ---------- Bytes out of eleven bits ----------

  /** Byte i: two neighbouring words are put together and shifted; behind the last one there are zeros. */
  function ByteAt(idx: seq<nat>, i: nat): nat
    requires i * 8 / 11 < |idx|
  {
    var k := i * 8 / 11;
    var x, y := idx[k], if k + 1 < |idx| then idx[k + 1] else 0;
    (x * WORD_COUNT + y) / Pow2((k + 2) * 11 - (i + 1) * 8) % 256
  }

  /** It is the i-th run of eight bits of the words, with zeros behind. */
  lemma ByteAtIs(idx: seq<nat>, i: nat)
    requires i * 8 / 11 < |idx| && AreDigits(WORD_COUNT, idx)
    ensures 11 * |idx| + 11 >= 8 * (i + 1)
    ensures ByteAt(idx, i) == Window(Value(WORD_COUNT, idx) * Pow2(11), 11 * |idx| + 11 - 8 * (i + 1), 8)
  {
    hide Pow2, Value;
    SmallPowers();
    var k := i * 8 / 11;
    var idx0 := idx + [0];
    var s := (k + 2) * 11 - (i + 1) * 8;
    ValueAppend(WORD_COUNT, idx, 0);
    TwoDigits(WORD_COUNT, idx0[k], idx0[k + 1]);
    assert idx0[k..k + 2] == [idx0[k], idx0[k + 1]];
    DigitsWindow(11, idx0, k, k + 2);
    WindowOfWindow(Value(WORD_COUNT, idx0), 11 * (|idx| - k - 1), 22, s, 8);
    assert ByteAt(idx, i) == Window(Value(WORD_COUNT, idx0[k..k + 2]), s, 8);
  }

  lemma TwoDigits(base: nat, x: nat, y: nat)
    ensures Value(base, [x, y]) == x * base + y
  {
    ValueAppend(base, [], x);
    ValueAppend(base, [x], y);
    assert [] + [x] == [x] && [x] + [y] == [x, y];
  }

  // ---------- Data and checksum ----------

  /** Up to this length the four bytes read for the last word are data or hash. */
  const MAX_LENGTH: nat := 940

  /** The words for the data: three for every four bytes. */
  function Indices(data: seq<nat>, hash: seq<nat>): (idx: seq<nat>)
    requires |hash| == 32 && |data| <= MAX_LENGTH
    ensures |idx| == |data| * 3 / 4
  {
    seq(|data| * 3 / 4, i requires 0 <= i < |data| * 3 / 4 => Index(data + hash, i))
  }

  /** The bytes the words stand for, the last one holding the checksum. */
  function WordBytes(idx: seq<nat>): (bytes: seq<nat>)
    ensures |bytes| == (|idx| * 11 + 7) / 8
  {
    seq((|idx| * 11 + 7) / 8, i requires 0 <= i < (|idx| * 11 + 7) / 8 => ByteAt(idx, i))
  }

  /** The checksum is the first m bits of the hash, m being a quarter of the length. */
  function Checksum(b: nat, m: nat): nat
    requires m <= 8
  {
    hide Pow2;
    b / Pow2(8 - m)
  }

  lemma ChecksumPlace(m: nat)
    requires m <= 8
    ensures Pow2(m) * Pow2(8 - m) == 256
  {
    SmallPowers();
    Pow2Add(m, 8 - m);
  }

  lemma Drop(v: nat, h: nat, p: nat, q: nat)
    requires p * q == 256 && q > 0 && h < 256
    ensures (v * 256 + h) / q == v * p + h / q
  {
    Euclid(h, q);
    assert v * 256 == (v * p) * q;
    assert (v * p + h / q) * q == (v * p) * q + h / q * q;
    DivModUnique(v * 256 + h, q, v * p + h / q, h % q);
  }

  /** The words, as one number, are the data followed by the checksum. */
  lemma IndicesValue(data: seq<nat>, hash: seq<nat>, m: nat)
    requires |data| == 4 * m && m <= 8 && AreBytes(data) && |hash| == 32 && AreBytes(hash)
    ensures AreDigits(WORD_COUNT, Indices(data, hash))
    ensures Value(WORD_COUNT, Indices(data, hash)) == Value(256, data) * Pow2(m) + Checksum(hash[0], m)
  {
    hide Pow2, Value, Pow, Index, Window, Span;
    SmallPowers();
    var buf, idx := data + hash, Indices(data, hash);
    var n := Value(256, buf);
    var t := n / Pow2(256 - m);
    forall i | 0 <= i < |idx|
      ensures idx[i] == Window(t, Below(11, |idx|, i), 11)
    {
      IndexIs(buf, i);
      WindowOfQuotient(n, 256 - m, 11 * (3 * m - 1 - i), 11);
      BelowIs(11, |idx|, i);
    }
    ValueBound(256, buf);
    BytesArePow(|buf|);
    Pow2Add(256 - m, 33 * m);
    QuotientBound(n, Pow2(256 - m), Pow2(33 * m));
    SpanIs(11, 3 * m);
    FromWindows(11, idx, t);
    TopOfBuffer(data, hash, m);
  }

  lemma BelowIs(k: nat, n: nat, i: nat)
    requires i < n
    ensures Below(k, n, i) == k * (n - 1 - i)
  {}

  lemma SpanIs(k: nat, e: nat)
    ensures Span(k, e) == k * e
  {}

  lemma BytesArePow(n: nat)
    ensures Pow(256, n) == Pow2(8 * n)
  {
    SmallPowers();
    PowIsPow2(8, n);
  }

  /** The high bits of the buffer are the data and the checksum. */
  lemma TopOfBuffer(data: seq<nat>, hash: seq<nat>, m: nat)
    requires m <= 8 && |hash| == 32 && AreBytes(data) && AreBytes(hash)
    ensures Value(256, data + hash) / Pow2(256 - m) == Value(256, data) * Pow2(m) + Checksum(hash[0], m)
  {
    hide Pow2, Value, Pow;
    var first, rest := data + [hash[0]], hash[1..];
    assert data + hash == first + rest;
    ValueConcat(256, first, rest);
    ValueBound(256, rest);
    BytesArePow(31);
    DivModUnique(Value(256, data + hash), Pow2(248), Value(256, first), Value(256, rest));
    ValueAppend(256, data, hash[0]);
    Pow2Add(248, 8 - m);
    DivTwice(Value(256, data + hash), Pow2(248), Pow2(8 - m));
    ChecksumPlace(m);
    Drop(Value(256, data), hash[0], Pow2(m), Pow2(8 - m));
  }

  /** The bytes of the words, as one number, are the words followed by zeros. */
  lemma WordBytesValue(idx: seq<nat>, m: nat)
    requires |idx| == 3 * m && 1 <= m <= 8 && AreDigits(WORD_COUNT, idx)
    ensures |WordBytes(idx)| == 4 * m + 1 && AreBytes(WordBytes(idx))
    ensures Value(256, WordBytes(idx)) == Value(WORD_COUNT, idx) * Pow2(8 - m)
  {
    hide Pow2, Value, Pow, ByteAt, Window, Span;
    SmallPowers();
    var bytes, t := WordBytes(idx), Value(WORD_COUNT, idx);
    var v := t * Pow2(8 - m);
    forall i | 0 <= i < |bytes|
      ensures bytes[i] == Window(v, Below(8, |bytes|, i), 8)
    {
      ByteAtIs(idx, i);
      Pow2Add(8 - m, m + 3);
      AssociativeMul(t, Pow2(8 - m), Pow2(m + 3));
      WindowOfMultiple(v, m + 3, 8 * (4 * m - i), 8);
      BelowIs(8, |bytes|, i);
    }
    ValueBound(WORD_COUNT, idx);
    PowIsPow2(11, 3 * m);
    SpanIs(11, 3 * m);
    SpanIs(8, 4 * m + 1);
    Pow2Add(33 * m, 8 - m);
    StrictlyLess(t, Pow2(33 * m), Pow2(8 - m));
    FromWindows(8, bytes, v);
  }

  lemma AssociativeMul(a: nat, b: nat, c: nat)
    ensures a * b * c == a * (b * c)
  {}

  lemma StrictlyLess(a: nat, b: nat, c: nat)
    requires a < b && c > 0
    ensures a * c < b * c
  {}

  /** Data and checksum give words whose bytes are the data, with the checksum in the high bits of one more byte. */
  lemma BytesOfIndices(data: seq<nat>, hash: seq<nat>, m: nat)
    requires |data| == 4 * m && 1 <= m <= 8 && AreBytes(data) && |hash| == 32 && AreBytes(hash)
    ensures var last := Checksum(hash[0], m) * Pow2(8 - m);
      WordBytes(Indices(data, hash)) == data + [last] && Checksum(last, m) == Checksum(hash[0], m)
  {
    hide Pow2, Value, Indices, WordBytes;
    var idx := Indices(data, hash);
    var c, q := Checksum(hash[0], m), Pow2(8 - m);
    var last := c * q;
    IndicesValue(data, hash, m);
    WordBytesValue(idx, m);
    ChecksumPlace(m);
    Euclid(hash[0], q);
    DivModUnique(last, q, c, 0);
    ValueAppend(256, data, last);
    Distribute(Value(256, data), Pow2(m), q, c);
    SameDigits(256, WordBytes(idx), data + [last]);
  }

  lemma Distribute(v: nat, p: nat, q: nat, c: nat)
    ensures (v * p + c) * q == v * (p * q) + c * q
  {}

  /** Words whose checksum is right are the words of the data they hold. */
  lemma IndicesOfBytes(idx: seq<nat>, hash: seq<nat>, m: nat)
    requires |idx| == 3 * m && 1 <= m <= 8 && AreDigits(WORD_COUNT, idx) && |hash| == 32 && AreBytes(hash)
    requires |WordBytes(idx)| == 4 * m + 1 && Checksum(WordBytes(idx)[4 * m], m) == Checksum(hash[0], m)
    ensures AreBytes(WordBytes(idx)) && Indices(WordBytes(idx)[..4 * m], hash) == idx
  {
    hide Pow2, Value, Indices, WordBytes;
    var bytes, t, q := WordBytes(idx), Value(WORD_COUNT, idx), Pow2(8 - m);
    var data, b := bytes[..4 * m], bytes[4 * m];
    WordBytesValue(idx, m);
    IndicesValue(data, hash, m);
    assert bytes == data + [b];
    ValueAppend(256, data, b);
    ChecksumPlace(m);
    Undo(t, Value(256, data), b, Pow2(m), q);
    SameDigits(WORD_COUNT, idx, Indices(data, hash));
  }

  lemma Undo(t: nat, v: nat, b: nat, p: nat, q: nat)
    requires q > 0 && p * q == 256 && t * q == v * 256 + b && b < 256
    ensures t == v * p + b / q
  {
    Drop(v, b, p, q);
    DivModUnique(t * q, q, t, 0);
  }

  // ---------- Phrases ----------

  /** Distinct words, none empty and none with a space. */
  predicate WordList(words: seq<string>) {
    && |words| == WORD_COUNT
    && (forall i :: 0 <= i < |words| ==> words[i] != "" && ' ' !in words[i])
    && (forall i, j :: 0 <= i < j < |words| ==> words[i] != words[j])
  }

  /** The words with single spaces between them. */
  function Phrase(words: seq<string>, idx: seq<nat>): string
    requires forall i :: 0 <= i < |idx| ==> idx[i] < |words|
  {
    if idx == [] then "" else if |idx| == 1 then words[idx[0]] else words[idx[0]] + " " + Phrase(words, idx[1..])
  }

  lemma {:induction false} PhraseAppend(words: seq<string>, idx: seq<nat>, k: nat)
    requires (forall i :: 0 <= i < |idx| ==> idx[i] < |words|) && k < |words|
    ensures forall i :: 0 <= i < |idx + [k]| ==> (idx + [k])[i] < |words|
    ensures Phrase(words, idx + [k]) == if idx == [] then words[k] else Phrase(words, idx) + " " + words[k]
  {
    if idx == [] {
      assert [] + [k] == [k];
    } else {
      PhraseAppend(words, idx[1..], k);
      assert (idx + [k])[1..] == idx[1..] + [k];
      if |idx| > 1 {
        assert words[idx[0]] + " " + (Phrase(words, idx[1..]) + " " + words[k]) ==
               words[idx[0]] + " " + Phrase(words, idx[1..]) + " " + words[k];
      }
    }
  }

  /** The word stands at an offset of the phrase, and the phrase or a space ends it. */
  predicate StandsAt(phrase: string, off: nat, word: string) {
    var end := off + |word|;
    end <= |phrase| && phrase[off..end] == word && (end == |phrase| || phrase[end] == ' ')
  }

  /** Behind the next space, if there is one. */
  function AfterSpace(phrase: string, off: nat): Option<nat>
    decreases |phrase| - off
  {
    if off >= |phrase| then None else if phrase[off] == ' ' then Some(off + 1) else AfterSpace(phrase, off + 1)
  }

  /** The first word from number `k` on that stands at an offset. */
  function WordAt(words: seq<string>, phrase: string, off: nat, k: nat): Option<nat>
    decreases |words| - k
  {
    if k >= |words| then None else if StandsAt(phrase, off, words[k]) then Some(k) else WordAt(words, phrase, off, k + 1)
  }

  /** The words from an offset on, as long as they are known and at most `room`; and where that ends. */
  function Scan(words: seq<string>, phrase: string, off: Option<nat>, room: nat): (seq<nat>, Option<nat>)
    decreases room
  {
    if off.None? || off.value >= |phrase| || room == 0 then ([], off)
    else
      var k := WordAt(words, phrase, off.value, 0);
      if k.None? then ([], off)
      else Behind([k.value], Scan(words, phrase, AfterSpace(phrase, off.value), room - 1))
  }

  function Behind(idx: seq<nat>, scan: (seq<nat>, Option<nat>)): (seq<nat>, Option<nat>) {
    (idx + scan.0, scan.1)
  }

  lemma {:induction false} WordAtSound(words: seq<string>, phrase: string, off: nat, k: nat)
    ensures match WordAt(words, phrase, off, k)
      case Some(i) => k <= i < |words| && StandsAt(phrase, off, words[i])
      case None => forall j :: k <= j < |words| ==> !StandsAt(phrase, off, words[j])
    decreases |words| - k
  {
    hide StandsAt;
    if k < |words| && !StandsAt(phrase, off, words[k]) {
      WordAtSound(words, phrase, off, k + 1);
    }
  }

  lemma {:induction false} SkipWord(phrase: string, off: nat, end: nat)
    requires off <= end <= |phrase| && forall k :: off <= k < end ==> phrase[k] != ' '
    ensures AfterSpace(phrase, off) ==
      if end < |phrase| && phrase[end] == ' ' then Some(end + 1) else AfterSpace(phrase, end)
    decreases end - off
  {
    if off < end {
      SkipWord(phrase, off + 1, end);
    }
  }

  lemma WordHasNoSpace(words: seq<string>, phrase: string, off: nat, i: nat)
    requires WordList(words) && i < |words| && StandsAt(phrase, off, words[i])
    ensures forall k :: off <= k < off + |words[i]| ==> phrase[k] != ' '
    ensures AfterSpace(phrase, off) ==
      if off + |words[i]| < |phrase| then Some(off + |words[i]| + 1) else None
  {
    forall k | off <= k < off + |words[i]|
      ensures phrase[k] != ' '
    {
      assert phrase[k] == words[i][k - off];
    }
    SkipWord(phrase, off, off + |words[i]|);
  }

  /** At most one word stands at an offset. */
  lemma OneWord(words: seq<string>, phrase: string, off: nat, i: nat, j: nat)
    requires WordList(words) && i < |words| && j < |words|
    requires StandsAt(phrase, off, words[i]) && StandsAt(phrase, off, words[j])
    ensures i == j
  {
    WordHasNoSpace(words, phrase, off, i);
    WordHasNoSpace(words, phrase, off, j);
    assert |words[i]| == |words[j]|;
    assert words[i] == words[j];
  }

  /** A phrase starts with its first word, and the rest of it follows the space. */
  lemma FirstWord(words: seq<string>, phrase: string, off: nat, idx: seq<nat>)
    requires (forall i :: 0 <= i < |idx| ==> idx[i] < |words|) && idx != []
    requires off <= |phrase| && phrase[off..] == Phrase(words, idx)
    ensures StandsAt(phrase, off, words[idx[0]])
    ensures var next := off + |words[idx[0]]|;
      if |idx| == 1 then |phrase| == next else next < |phrase| && phrase[next + 1..] == Phrase(words, idx[1..])
  {
    var word := words[idx[0]];
    assert phrase[off..][..|word|] == phrase[off..off + |word|];
    if |idx| > 1 {
      assert phrase[off..][|word|] == ' ';
      assert phrase[off + |word| + 1..] == phrase[off..][|word| + 1..];
    }
  }

  lemma OnlyWord(words: seq<string>, phrase: string, off: nat, k: nat)
    requires WordList(words) && k < |words| && StandsAt(phrase, off, words[k])
    ensures WordAt(words, phrase, off, 0) == Some(k)
  {
    hide StandsAt, WordList, WordAt;
    WordAtSound(words, phrase, off, 0);
    OneWord(words, phrase, off, k, WordAt(words, phrase, off, 0).value);
  }

  /** The words of a phrase are found again. */
  lemma {:induction false} ScanPhrase(words: seq<string>, phrase: string, off: nat, room: nat, idx: seq<nat>)
    requires WordList(words) && (forall i :: 0 <= i < |idx| ==> idx[i] < |words|) && 0 < |idx| <= room
    requires off <= |phrase| && phrase[off..] == Phrase(words, idx)
    ensures Scan(words, phrase, Some(off), room) == (idx, None)
    decreases room
  {
    hide StandsAt, Phrase, AfterSpace, WordList, WordAt;
    var next := off + |words[idx[0]]|;
    FirstWord(words, phrase, off, idx);
    WordHasNoSpace(words, phrase, off, idx[0]);
    OnlyWord(words, phrase, off, idx[0]);
    NonEmpty(words, idx[0]);
    WordsStandInside(phrase, off, words[idx[0]]);
    assert idx == [idx[0]] + idx[1..];
    if |idx| > 1 {
      ScanPhrase(words, phrase, next + 1, room - 1, idx[1..]);
    } else {
      assert idx[1..] == [];
    }
  }

  lemma NonEmpty(words: seq<string>, i: nat)
    requires WordList(words) && i < |words|
    ensures |words[i]| > 0
  {}

  lemma WordsStandInside(phrase: string, off: nat, word: string)
    requires StandsAt(phrase, off, word)
    ensures off + |word| <= |phrase|
  {}

  /** A phrase that is read to its end and does not end with a space is the phrase of its words. */
  lemma {:induction false} PhraseOfScan(words: seq<string>, phrase: string, off: nat, room: nat)
    requires WordList(words) && off < |phrase| && phrase[|phrase| - 1] != ' '
    requires AtEnd(phrase, Scan(words, phrase, Some(off), room).1)
    ensures var idx := Scan(words, phrase, Some(off), room).0;
      idx != [] && |idx| <= room && (forall i :: 0 <= i < |idx| ==> idx[i] < |words|) && phrase[off..] == Phrase(words, idx)
    decreases room
  {
    hide StandsAt, AfterSpace, WordList, WordAt;
    WordAtSound(words, phrase, off, 0);
    var k := WordAt(words, phrase, off, 0).value;
    var word := words[k];
    WordHasNoSpace(words, phrase, off, k);
    WordsStandInside(phrase, off, word);
    var next := off + |word|;
    if next < |phrase| {
      SplitAtSpace(phrase, off, word);
      PhraseOfScan(words, phrase, next + 1, room - 1);
      var rest := Scan(words, phrase, Some(next + 1), room - 1).0;
      assert ([k] + rest)[1..] == rest;
    } else {
      assert Scan(words, phrase, None, room - 1) == ([], None);
      assert [k] + [] == [k];
      WordStands(phrase, off, word);
      assert phrase[off..] == phrase[off..next];
    }
  }

  predicate AtEnd(phrase: string, rest: Option<nat>) {
    rest.None? || rest.value >= |phrase|
  }

  lemma SplitAtSpace(phrase: string, off: nat, word: string)
    requires StandsAt(phrase, off, word) && off + |word| < |phrase|
    ensures phrase[off + |word|] == ' ' && phrase[off..] == word + " " + phrase[off + |word| + 1..]
  {}

  lemma WordStands(phrase: string, off: nat, word: string)
    requires StandsAt(phrase, off, word)
    ensures phrase[off..off + |word|] == word
  {}

  // ---------- Encoding and decoding ----------

  lemma IndicesInRange(data: seq<nat>, hash: seq<nat>)
    requires |hash| == 32 && |data| <= MAX_LENGTH
    ensures forall i :: 0 <= i < |Indices(data, hash)| ==> Indices(data, hash)[i] < WORD_COUNT
  {
    hide Value, Pow2;
  }

  /** The phrase for the data. */
  function PhraseFor(words: seq<string>, data: seq<nat>, hash: seq<nat>): string
    requires |words| == WORD_COUNT && |hash| == 32 && |data| <= MAX_LENGTH
  {
    IndicesInRange(data, hash);
    Phrase(words, Indices(data, hash))
  }

  /** `BRBIP39Encode`; the length counts the terminating NUL. */
  method Encode(words: seq<string>, data: seq<nat>, room: Option<nat>, hash: seq<nat> -> seq<nat>)
    returns (length: nat, phrase: Option<string>)
    requires |words| == WORD_COUNT && IsHash(hash) && |data| <= MAX_LENGTH
    ensures |data| % 4 != 0 ==> length == 0 && phrase == None
    ensures hide Indices; |data| % 4 == 0 ==>
      var s := PhraseFor(words, data, hash(data));
      match room
      case None => length == |s| + 1 && phrase == None
      case Some(r) => if |s| + 1 <= r then length == |s| + 1 && phrase == Some(s) else length == 0 && phrase == None
  {
    hide Value, Pow2;
    if |data| % 4 != 0 { return 0, None; }
    var buf := data + hash(data);
    ghost var idx := Indices(data, hash(data));
    IndicesInRange(data, hash(data));
    var s := "";
    for i := 0 to |data| * 3 / 4
      invariant s == Phrase(words, idx[..i])
    {
      var word := words[Index(buf, i)];
      assert idx[..i + 1] == idx[..i] + [idx[i]];
      PhraseAppend(words, idx[..i], idx[i]);
      if i > 0 { s := s + " "; }
      s := s + word;
    }
    assert idx[..|idx|] == idx;
    length := if room.None? || |s| + 1 <= room.value then |s| + 1 else 0;
    phrase := if room.Some? && |s| + 1 <= room.value then Some(s) else None;
  }

  /** What the words stand for, if their number is a multiple of three and their checksum is right. */
  function DataOf(idx: seq<nat>, hash: seq<nat> -> seq<nat>): seq<nat>
    requires |idx| <= 24
  {
    hide ByteAt, Checksum;
    var m := |idx| / 3;
    if |idx| % 3 != 0 || m == 0 then []
    else
      var data, last := WordBytes(idx)[..4 * m], WordBytes(idx)[4 * m];
      if hash(data) != [] && Checksum(last, m) == Checksum(hash(data)[0], m) then data else []
  }

  method FindWord(words: seq<string>, phrase: string, off: nat) returns (i: Option<nat>)
    requires |words| == WORD_COUNT
    ensures i == WordAt(words, phrase, off, 0)
  {
    hide StandsAt;
    var k := 0;
    while k < WORD_COUNT
      invariant 0 <= k <= WORD_COUNT && WordAt(words, phrase, off, 0) == WordAt(words, phrase, off, k)
    {
      if StandsAt(phrase, off, words[k]) { return Some(k); }
      k := k + 1;
    }
    return None;
  }

  method FindSpace(phrase: string, off: nat) returns (next: Option<nat>)
    ensures next == AfterSpace(phrase, off)
  {
    var k := off;
    while k < |phrase|
      invariant AfterSpace(phrase, off) == AfterSpace(phrase, k)
    {
      if phrase[k] == ' ' { return Some(k + 1); }
      k := k + 1;
    }
    return None;
  }

  lemma OneMoreScanned(words: seq<string>, phrase: string, room: nat, idx: seq<nat>, off: nat, k: nat)
    requires |idx| < room && off < |phrase| && WordAt(words, phrase, off, 0) == Some(k)
    ensures Behind(idx, Scan(words, phrase, Some(off), room - |idx|)) ==
            Behind(idx + [k], Scan(words, phrase, AfterSpace(phrase, off), room - |idx| - 1))
  {
    hide WordAt, AfterSpace;
    var rest := Scan(words, phrase, AfterSpace(phrase, off), room - |idx| - 1);
    assert idx + ([k] + rest.0) == idx + [k] + rest.0;
  }

  /** The numbers of the words of a phrase, at most `room`, and where the first word that is none of them stands. */
  method ScanWords(words: seq<string>, phrase: string, room: nat) returns (idx: seq<nat>, rest: Option<nat>)
    requires |words| == WORD_COUNT
    ensures (idx, rest) == Scan(words, phrase, Some(0), room) && |idx| <= room
  {
    hide StandsAt, AfterSpace, WordAt;
    idx, rest := [], Some(0);
    assert [] + Scan(words, phrase, Some(0), room).0 == Scan(words, phrase, Some(0), room).0;
    while rest.Some? && rest.value < |phrase| && |idx| < room
      invariant |idx| <= room
      invariant Scan(words, phrase, Some(0), room) == Behind(idx, Scan(words, phrase, rest, room - |idx|))
      decreases room - |idx|
    {
      var k := FindWord(words, phrase, rest.value);
      if k.None? { break; }
      OneMoreScanned(words, phrase, room, idx, rest.value, k.value);
      idx := idx + [k.value];
      rest := FindSpace(phrase, rest.value);
    }
    assert idx + [] == idx;
  }

  lemma {:induction false} ScanLength(words: seq<string>, phrase: string, off: Option<nat>, room: nat)
    ensures |Scan(words, phrase, off, room).0| <= room
    decreases room
  {
    hide WordAt, AfterSpace;
    if off.Some? && off.value < |phrase| && room > 0 {
      ScanLength(words, phrase, AfterSpace(phrase, off.value), room - 1);
    }
  }

  /** The data of a phrase: none if it is not accepted. */
  function DecodedData(words: seq<string>, phrase: string, hash: seq<nat> -> seq<nat>): seq<nat> {
    hide DataOf;
    ScanLength(words, phrase, Some(0), 24);
    var (idx, rest) := Scan(words, phrase, Some(0), 24);
    if AtEnd(phrase, rest) then DataOf(idx, hash) else []
  }

  /** `BRBIP39Decode` */
  method Decode(words: seq<string>, phrase: string, room: Option<nat>, hash: seq<nat> -> seq<nat>)
    returns (length: nat, data: Option<seq<nat>>)
    requires |words| == WORD_COUNT && IsHash(hash)
    ensures var d := DecodedData(words, phrase, hash);
      match room
      case None => length == |d| && data == None
      case Some(r) => if |d| <= r then length == |d| && (data == Some(d) || d == []) else length == 0 && data == None
  {
    hide Value, Pow2, ByteAt, Scan, Checksum;
    var idx, rest := ScanWords(words, phrase, 24);
    var count := |idx|;
    var r := 0;
    data := None;
    if count % 3 == 0 && (rest.None? || rest.value >= |phrase|) {
      var b := 0;
      var buf := [];
      for i := 0 to (count * 11 + 7) / 8
        invariant buf == WordBytes(idx)[..i] && b == if i == 0 then 0 else WordBytes(idx)[i - 1]
      {
        b := ByteAt(idx, i);
        buf := buf + [b];
      }
      assert buf == WordBytes(idx);
      var h := hash(buf[..count * 4 / 3])[0];
      if count > 0 && Checksum(b, count / 3) == Checksum(h, count / 3) {
        r := count * 4 / 3;
        if room.Some? && r <= room.value { data := Some(buf[..r]); }
      }
    }
    length := if room.None? || r <= room.value then r else 0;
  }

  // ---------- Round trips ----------

  /** Decoding the phrase for some data gives the data. */
  lemma DecodeEncode(words: seq<string>, data: seq<nat>, hash: seq<nat> -> seq<nat>)
    requires WordList(words) && IsHash(hash) && AreBytes(data) && 4 <= |data| <= 32 && |data| % 4 == 0
    ensures DecodedData(words, PhraseFor(words, data, hash(data)), hash) == data
  {
    hide Indices, WordBytes, Checksum, Pow2, WordList, Scan, AreDigits;
    var h, m := hash(data), |data| / 4;
    var idx := Indices(data, h);
    assert AreBytes(h);
    IndicesInRange(data, h);
    WordListLength(words);
    var phrase := PhraseFor(words, data, h);
    assert phrase[0..] == phrase;
    ScanPhrase(words, phrase, 0, 24, idx);
    BytesOfIndices(data, h, m);
    assert WordBytes(idx)[..4 * m] == data;
  }

  lemma WordListLength(words: seq<string>)
    requires WordList(words)
    ensures |words| == WORD_COUNT
  {}

  /** A phrase that is accepted, and does not end with a space, is the phrase for the data it gives. */
  lemma EncodeDecode(words: seq<string>, phrase: string, hash: seq<nat> -> seq<nat>)
    requires WordList(words) && IsHash(hash) && phrase != "" && phrase[|phrase| - 1] != ' '
    requires DecodedData(words, phrase, hash) != []
    ensures var data := DecodedData(words, phrase, hash);
      && AreBytes(data) && |data| % 4 == 0 && |data| <= 32 && PhraseFor(words, data, hash(data)) == phrase
  {
    hide Indices, WordBytes, Checksum, Pow2, WordList, Scan, AreDigits;
    ScanLength(words, phrase, Some(0), 24);
    var idx := Scan(words, phrase, Some(0), 24).0;
    var m := |idx| / 3;
    var data := DataOf(idx, hash);
    var h := hash(data);
    WordListLength(words);
    PhraseOfScan(words, phrase, 0, 24);
    assert phrase[0..] == phrase;
    assert AreBytes(h);
    InRange(idx);
    assert |WordBytes(idx)| == (|idx| * 11 + 7) / 8 == 4 * m + 1;
    IndicesOfBytes(idx, h, m);
    PrefixBytes(WordBytes(idx), 4 * m);
  }

  lemma InRange(idx: seq<nat>)
    requires forall i :: 0 <= i < |idx| ==> idx[i] < WORD_COUNT
    ensures AreDigits(WORD_COUNT, idx)
  {}

  lemma PrefixBytes(bytes: seq<nat>, n: nat)
    requires n <= |bytes| && AreBytes(bytes)
    ensures AreBytes(bytes[..n])
  {}
}
