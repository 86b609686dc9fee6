/** Private keys encrypted with a passphrase, without EC multiplication (BRBIP38Key.c). */
module Bip38 {
  import opened AesInPlace
  import Base58
  import opened Hashing
  import opened Wrappers

  datatype Key = Key(secret: seq<bv8>, compressed: bool)

  const NOEC_PREFIX: seq<bv8> := [0x01, 0x42]
  const EC_PREFIX: seq<bv8> := [0x01, 0x43]
  const NOEC_FLAG: bv8 := 0x80 | 0x40
  const COMPRESSED_FLAG: bv8 := 0x20
  const LOTSEQUENCE_FLAG: bv8 := 0x04
  const INVALID_FLAG: bv8 := 0x10 | 0x08 | 0x02 | 0x01

  lemma Convert(b: bv8)
    ensures 0 <= b as int < 256 && (b as int) as bv8 == b
  {}

  function ToNats(s: seq<bv8>): seq<nat> {
    seq(|s|, i requires 0 <= i < |s| => s[i] as nat)
  }

  function ToBytes(s: seq<nat>): seq<bv8>
    requires AreBytes(s)
  {
    seq(|s|, i requires 0 <= i < |s| => s[i] as bv8)
  }

  lemma BytesBack(s: seq<bv8>)
    ensures AreBytes(ToNats(s)) && ToBytes(ToNats(s)) == s
  {
    forall i | 0 <= i < |s|
      ensures 0 <= s[i] as int < 256 && (s[i] as int) as bv8 == s[i]
    {
      Convert(s[i]);
    }
  }

  function XorBytes(s: seq<bv8>, t: seq<bv8>): (r: seq<bv8>)
    requires |s| == |t|
    ensures |r| == |s|
  {
    seq(|s|, i requires 0 <= i < |s| => s[i] ^ t[i])
  }

  lemma XorBytesTwice(s: seq<bv8>, t: seq<bv8>)
    requires |s| == |t|
    ensures XorBytes(XorBytes(s, t), t) == s
  {}

  /** `ok` tells whether the passphrase was right. */
  datatype Outcome = InvalidLength | OtherPrefix | Decrypted(key: Key, ok: bool)

  /** What the program calls without this model looking inside. */
  datatype Primitives = Primitives(
    /** `BRScrypt` with the parameters of the format, on a passphrase and a salt of four bytes. */
    scrypt: (string, seq<bv8>) -> seq<bv8>,
    /** `BRKeyAddress`: the address of a private key, empty if there is none. */
    addressOf: (seq<bv8>, bool) -> string,
    /** The first four bytes of the double hash of an address. */
    addressHash: string -> seq<bv8>,
    /** The double hash of Base58Check. */
    hash: seq<nat> -> seq<nat>)
  {
    ghost predicate Valid() {
      && (forall p, s :: |scrypt(p, s)| == 64) && (forall a :: |addressHash(a)| == 4) && IsHash(hash)
    }

    /** The 39 bytes of an encrypted key: prefix, flag, address hash and two encrypted halves. */
    function Payload(key: Key, passphrase: string): (data: seq<bv8>)
      requires Valid() && |key.secret| == 32
      ensures |data| == 39
    {
      hide EncryptedBytes;
      var flag := if key.compressed then NOEC_FLAG | COMPRESSED_FLAG else NOEC_FLAG;
      var salt := addressHash(addressOf(key.secret, key.compressed));
      var derived := scrypt(passphrase, salt);
      NOEC_PREFIX + [flag] + salt
      + EncryptedBytes(derived[32..], XorBytes(key.secret[..16], derived[..16]))
      + EncryptedBytes(derived[32..], XorBytes(key.secret[16..], derived[16..32]))
    }

    /** The key that 39 bytes hold for a passphrase, whether or not it is the right one. */
    function KeyIn(data: seq<bv8>, passphrase: string): (key: Key)
      requires Valid() && |data| == 39
      ensures |key.secret| == 32
    {
      hide DecryptedBytes;
      var derived := scrypt(passphrase, data[3..7]);
      Key(XorBytes(DecryptedBytes(derived[32..], data[7..23]), derived[..16]) +
          XorBytes(DecryptedBytes(derived[32..], data[23..39]), derived[16..32]),
          data[2] & COMPRESSED_FLAG != 0)
    }

    /** Whether the address of the key is the one the bytes were made for. */
    predicate Matches(key: Key, data: seq<bv8>)
      requires Valid() && |data| == 39
    {
      var address := addressOf(key.secret, key.compressed);
      address != "" && addressHash(address) == data[3..7]
    }

    lemma Halves(key: Key, passphrase: string)
      requires Valid() && |key.secret| == 32
      ensures hide Payload, EncryptedBytes;
        var data, salt := Payload(key, passphrase), addressHash(addressOf(key.secret, key.compressed));
        var derived := scrypt(passphrase, salt);
        && data[..2] == NOEC_PREFIX && data[3..7] == salt
        && data[2] == (if key.compressed then NOEC_FLAG | COMPRESSED_FLAG else NOEC_FLAG)
        && data[7..23] == EncryptedBytes(derived[32..], XorBytes(key.secret[..16], derived[..16]))
        && data[23..39] == EncryptedBytes(derived[32..], XorBytes(key.secret[16..], derived[16..32]))
    {
      hide EncryptedBytes;
    }

    /** Decrypting with the same passphrase restores the secret and the compressed flag. */
    lemma KeyRestored(key: Key, passphrase: string)
      requires Valid() && |key.secret| == 32
      ensures hide Payload, KeyIn; var data := Payload(key, passphrase);
        && KeyIn(data, passphrase) == key
        && (addressOf(key.secret, key.compressed) != "" ==> Matches(key, data))
        && data[2] & NOEC_FLAG == NOEC_FLAG && data[2] & LOTSEQUENCE_FLAG == 0 && data[2] & INVALID_FLAG == 0
    {
      hide EncryptedBytes, DecryptedBytes, Payload, XorBytes;
      var data, derived := Payload(key, passphrase), scrypt(passphrase, addressHash(addressOf(key.secret, key.compressed)));
      Halves(key, passphrase);
      BytesRoundTrip(derived[32..], XorBytes(key.secret[..16], derived[..16]));
      BytesRoundTrip(derived[32..], XorBytes(key.secret[16..], derived[16..32]));
      XorBytesTwice(key.secret[..16], derived[..16]);
      XorBytesTwice(key.secret[16..], derived[16..32]);
      assert key.secret[..16] + key.secret[16..] == key.secret;
      assert KeyIn(data, passphrase).secret == key.secret;
    }

    /** `BRKeyBIP38Key`; without a buffer it returns an upper bound for the length. */
    method Encrypt(key: Key, room: Option<nat>, passphrase: string) returns (length: nat, str: Option<string>)
      requires Valid() && |key.secret| == 32
      ensures room.None? ==> length == 43 * 138 / 100 + 2 && str == None
      ensures hide Payload; room.Some? ==>
        var s := Base58.Encoded(Base58.Checked(hash, ToNats(Payload(key, passphrase))));
        if |s| + 1 <= room.value then length == |s| + 1 && str == Some(s) else length == 0 && str == None
    {
      hide EncryptedBytes;
      if room.None? { return 43 * 138 / 100 + 2, None; }
      var flag := NOEC_FLAG;
      if key.compressed { flag := flag | COMPRESSED_FLAG; }
      var salt := addressHash(addressOf(key.secret, key.compressed));
      var derived := scrypt(passphrase, salt);
      var encrypted1 := EncryptHalf(derived[32..], key.secret[..16], derived[..16]);
      var encrypted2 := EncryptHalf(derived[32..], key.secret[16..], derived[16..32]);
      var buf := NOEC_PREFIX + [flag] + salt + encrypted1 + encrypted2;
      assert buf == Payload(key, passphrase);
      BytesBack(buf);
      length, str := Base58.CheckEncode(ToNats(buf), room, hash);
    }

    /** The bytes a string holds, if its checksum is right. */
    function Data(str: string): (data: seq<bv8>)
      requires Valid()
    {
      hide Base58.Accepts, Base58.Decoded;
      if Base58.Accepts(hash, str) then
        AcceptedBytes(str);
        ToBytes(Base58.Decoded(str)[..|Base58.Decoded(str)| - 4])
      else []
    }

    lemma AcceptedBytes(str: string)
      requires Valid() && Base58.Accepts(hash, str)
      ensures |Base58.Decoded(str)| >= 4 && AreBytes(Base58.Decoded(str)[..|Base58.Decoded(str)| - 4])
    {
      Base58.DecodedBytes(str);
    }

    /** `BRKeySetBIP38Key`; what it does with an EC multiplied key is not modelled. */
    method Decrypt(str: string, passphrase: string) returns (outcome: Outcome)
      requires Valid()
      ensures hide Data, KeyIn, Matches; var data := Data(str);
        outcome ==
          if |data| != 39 then InvalidLength else if data[..2] != NOEC_PREFIX then OtherPrefix
          else Decrypted(KeyIn(data, passphrase), Matches(KeyIn(data, passphrase), data))
    {
      hide EncryptedBytes, DecryptedBytes, Base58.Accepts, Base58.Decoded;
      var length, decoded := Base58.CheckDecode(str, Some(39), hash);
      if Base58.Accepts(hash, str) { AcceptedBytes(str); }
      if length != 39 { return InvalidLength; }
      var data := ToBytes(decoded.value);
      if data[..2] != NOEC_PREFIX { return OtherPrefix; }
      var flag, addresshash := data[2], data[3..7];
      var derived := scrypt(passphrase, addresshash);
      var secret1 := DecryptHalf(derived[32..], data[7..23], derived[..16]);
      var secret2 := DecryptHalf(derived[32..], data[23..39], derived[16..32]);
      var key := Key(secret1 + secret2, flag & COMPRESSED_FLAG != 0);
      var address := addressOf(key.secret, key.compressed);
      var r := address != "" && addressHash(address) == addresshash;
      outcome := Decrypted(key, r);
    }

    /** `BRBIP38KeyIsValid` */
    predicate IsValid(str: string)
      requires Valid()
    {
      hide Data;
      var data := Data(str);
      && |data| == 39
      && var flag := data[2];
         if data[..2] == NOEC_PREFIX then
           flag & NOEC_FLAG == NOEC_FLAG && flag & LOTSEQUENCE_FLAG == 0 && flag & INVALID_FLAG == 0
         else data[..2] == EC_PREFIX && flag & NOEC_FLAG == 0 && flag & INVALID_FLAG == 0
    }

    /** The string an encrypted key is written as is valid and gives the key back to whoever knows the passphrase. */
    lemma StringRestored(key: Key, passphrase: string)
      requires Valid() && |key.secret| == 32
      ensures hide Payload, Data, KeyIn, Matches;
        var s := Base58.Encoded(Base58.Checked(hash, ToNats(Payload(key, passphrase))));
        && IsValid(s) && Data(s) == Payload(key, passphrase) && KeyIn(Data(s), passphrase) == key
        && (addressOf(key.secret, key.compressed) != "" ==> Matches(key, Data(s)))
    {
      hide Payload, KeyIn, Matches, Base58.Accepts, Base58.Decoded, Base58.Encoded, Base58.Checked, EncryptedBytes;
      var data := Payload(key, passphrase);
      BytesBack(data);
      Base58.CheckRoundTrip(hash, ToNats(data));
      KeyRestored(key, passphrase);
      Halves(key, passphrase);
    }
  }

  method EncryptHalf(key32: seq<bv8>, half: seq<bv8>, mask: seq<bv8>) returns (e: seq<bv8>)
    requires |key32| == 32 && |half| == |mask| == 16
    ensures e == EncryptedBytes(key32, XorBytes(half, mask))
  {
    var buf := Copied(XorBytes(half, mask));
    AesInPlace.Encrypt(key32, buf);
    BytesOfBlock(buf[..]);
    e := buf[..];
  }

  method DecryptHalf(key32: seq<bv8>, half: seq<bv8>, mask: seq<bv8>) returns (d: seq<bv8>)
    requires |key32| == 32 && |half| == |mask| == 16
    ensures d == XorBytes(DecryptedBytes(key32, half), mask)
  {
    var buf := Copied(half);
    AesInPlace.Decrypt(key32, buf);
    BytesOfBlock(buf[..]);
    d := XorBytes(buf[..], mask);
  }
}
