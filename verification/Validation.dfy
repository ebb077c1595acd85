/**
 Identifiers (`validation.py`): address and transaction id validation over an arbitrary hash, and the
 classification of search terms.
 */
module Validation {
  import opened Wrappers
  import opened Positional
  import opened Base32
  import Amounts

  const ADDRESS_LENGTH: nat := 58
  const TXID_LENGTH: nat := 52
  const MAX_UINT64: nat := 0xFFFF_FFFF_FFFF_FFFF

  datatype ValidationError =
    | Empty
    | WrongLength
    | OutsideAlphabet
    | NotDecodable(cause: DecodeError)
    | WrongByteCount
    | ChecksumMismatch
    | Negative
    | TooLarge

  /** `_BASE32_RE.match(s)`: the `$` of the pattern also matches before one newline at the end. */
  predicate MatchesAlphabet(s: string) {
    || (s != "" && AllBase32(s))
    || (|s| > 1 && s[|s| - 1] == '\n' && AllBase32(s[..|s| - 1]))
  }

  /** `_b32_decode` */
  function B32Decode(value: string, expectedBytes: nat): Result<Bytes, ValidationError> {
    match Decode(value + Equals(Padding(|value|)))
    case Failure(cause) => Failure(NotDecodable(cause))
    case Success(raw) => if |raw| != expectedBytes then Failure(WrongByteCount) else Success(raw)
  }

  /** SHA-512/256, of which only the shape of its digests is known. */
  type Hash = Bytes -> Bytes

  ghost predicate IsHash(hash: Hash) {
    forall key: Bytes :: |hash(key)| == 32 && AreDigits(256, hash(key))
  }

  /** `digest()[-4:]` */
  function Checksum(hash: Hash, key: Bytes): Bytes {
    var digest := hash(key);
    if |digest| < 4 then digest else digest[|digest| - 4..]
  }

  function ValidateAddress(hash: Hash, address: string): Result<string, ValidationError> {
    if address == "" then Failure(Empty)
    else if |address| != ADDRESS_LENGTH then Failure(WrongLength)
    else if !MatchesAlphabet(address) then Failure(OutsideAlphabet)
    else
      match B32Decode(address, 36)
      case Failure(e) => Failure(e)
      case Success(raw) =>
        if |raw| < 32 || raw[32..] != Checksum(hash, raw[..32]) then Failure(ChecksumMismatch) else Success(address)
  }

  function ValidateTxid(txid: string): Result<string, ValidationError> {
    if txid == "" then Failure(Empty)
    else if |txid| != TXID_LENGTH then Failure(WrongLength)
    else if !MatchesAlphabet(txid) then Failure(OutsideAlphabet)
    else
      match B32Decode(txid, 32)
      case Failure(e) => Failure(e)
      case Success(raw) => Success(txid)
  }

  function ValidateUint64(value: int): Result<int, ValidationError> {
    if value < 0 then Failure(Negative)
    else if value > MAX_UINT64 then Failure(TooLarge)
    else Success(value)
  }

  /******* Decoding identifiers *******/

  lemma Lengths()
    ensures WholeBytes(ADDRESS_LENGTH) && ByteCount(ADDRESS_LENGTH) == 36 && Spare(ADDRESS_LENGTH) == 2
    ensures WholeBytes(TXID_LENGTH) && ByteCount(TXID_LENGTH) == 32 && Spare(TXID_LENGTH) == 4
    ensures CharCount(36) == ADDRESS_LENGTH && CharCount(32) == TXID_LENGTH
  {}

  /** Text over the alphabet always decodes to the expected number of bytes: neither decoding error can occur. */
  lemma DecodeSucceeds(s: string)
    requires AllBase32(s) && (|s| == ADDRESS_LENGTH || |s| == TXID_LENGTH)
    ensures WholeBytes(|s|) && B32Decode(s, if |s| == ADDRESS_LENGTH then 36 else 32) == Success(Quanta(s))
  {
    hide Quanta, Decode, WholeBytes, ByteCount;
    Lengths();
    DecodePadded(s);
  }

  /** A newline at the end, which the pattern lets through, is caught by the decoder. */
  lemma NewlineIsNotDecodable(s: string, n: nat)
    requires s != "" && s[|s| - 1] == '\n'
    ensures B32Decode(s, n) == Failure(NotDecodable(NonBase32Digit))
  {
    hide Quanta;
    StripEquals(s, Padding(|s|));
    assert !IsBase32(s[|s| - 1]);
  }

  ghost predicate Accepted(hash: Hash, s: string) {
    ValidateAddress(hash, s) == Success(s)
  }

  /** The public key that a text carries, and its checksum. */
  function KeyOf(s: string): Bytes
    requires |s| == ADDRESS_LENGTH
  {
    Lengths();
    Quanta(s)[..32]
  }

  function ChecksumOf(s: string): Bytes
    requires |s| == ADDRESS_LENGTH
  {
    Lengths();
    Quanta(s)[32..]
  }

  /** A text is accepted exactly when it is 58 characters of the alphabet and its key's checksum follows its key. */
  lemma AcceptedIff(hash: Hash, s: string)
    ensures Accepted(hash, s) <==>
      |s| == ADDRESS_LENGTH && AllBase32(s) && WholeBytes(|s|) && Quanta(s) == KeyOf(s) + Checksum(hash, KeyOf(s))
  {
    hide Quanta, WholeBytes, ByteCount, Decode, Checksum, B32Decode;
    Lengths();
    if |s| == ADDRESS_LENGTH {
      if AllBase32(s) {
        DecodeSucceeds(s);
        assert Quanta(s) == Quanta(s)[..32] + Quanta(s)[32..];
      } else if MatchesAlphabet(s) {
        NewlineIsNotDecodable(s, 36);
      }
    }
  }

  /** A text is accepted exactly when its last four bytes are the last four of the digest of its first 32. */
  lemma AcceptedBytesIff(hash: Hash, s: string)
    requires IsHash(hash)
    ensures WholeBytes(58)
    ensures Accepted(hash, s) <==>
      && |s| == 58 && AllBase32(s)
      && forall i :: 32 <= i < 36 ==> Quanta(s)[i] == hash(Quanta(s)[..32])[i - 4]
  {
    hide Quanta, ByteCount, Accepted;
    Lengths();
    AcceptedIff(hash, s);
    if |s| == ADDRESS_LENGTH {
      var q, digest := Quanta(s), hash(Quanta(s)[..32]);
      assert |digest| == 32;
      assert q == q[..32] + q[32..];
      if q[32..] == digest[28..] {
        assert forall i :: 32 <= i < 36 ==> q[i] == q[32..][i - 32] && digest[i - 4] == digest[28..][i - 32];
      }
    }
  }

  /** Of the errors, only these occur for addresses; a text that the pattern lets through decodes or ends in a newline. */
  lemma AddressErrors(hash: Hash, s: string)
    ensures ValidateAddress(hash, s).Success? <==> Accepted(hash, s)
    ensures ValidateAddress(hash, s).Failure? ==>
      var e := ValidateAddress(hash, s).error;
      && (e == Empty <==> s == "")
      && (e == WrongLength <==> s != "" && |s| != 58)
      && (e.NotDecodable? ==> e.cause == NonBase32Digit)
      && (e.NotDecodable? <==> |s| == 58 && s[57] == '\n' && AllBase32(s[..57]))
      && (e == OutsideAlphabet <==> |s| == 58 && !AllBase32(s) && !(s[57] == '\n' && AllBase32(s[..57])))
      && (e == ChecksumMismatch <==> |s| == 58 && AllBase32(s))
      && e != WrongByteCount
  {
    hide Quanta, WholeBytes, ByteCount, Decode, Checksum, B32Decode;
    Lengths();
    if |s| == ADDRESS_LENGTH {
      if AllBase32(s) {
        DecodeSucceeds(s);
        assert IsBase32(s[|s| - 1]);
      } else if MatchesAlphabet(s) {
        NewlineIsNotDecodable(s, 36);
      }
    }
  }

  /** A transaction id is valid exactly when it is 52 characters of the alphabet; and which error it raises if not. */
  lemma TxidAcceptedIff(s: string)
    ensures ValidateTxid(s) == Success(s) <==> |s| == 52 && AllBase32(s)
    ensures ValidateTxid(s).Failure? <==> ValidateTxid(s) != Success(s)
    ensures ValidateTxid(s).Failure? ==>
      var e := ValidateTxid(s).error;
      && (e == Empty <==> s == "")
      && (e == WrongLength <==> s != "" && |s| != 52)
      && (e.NotDecodable? <==> |s| == 52 && s[51] == '\n' && AllBase32(s[..51]))
      && (e == OutsideAlphabet <==> |s| == 52 && !AllBase32(s) && !(s[51] == '\n' && AllBase32(s[..51])))
      && e != WrongByteCount && e != ChecksumMismatch
  {
    hide Quanta, WholeBytes, ByteCount, Decode, B32Decode;
    Lengths();
    if |s| == TXID_LENGTH {
      if AllBase32(s) {
        DecodeSucceeds(s);
        assert IsBase32(s[|s| - 1]);
      } else if MatchesAlphabet(s) {
        NewlineIsNotDecodable(s, 32);
      }
    }
  }

  /** Exactly the numbers that fit 64 bits pass the range check. */
  lemma Uint64Iff(value: int)
    ensures ValidateUint64(value) == Success(value) <==> 0 <= value < Pow(2, 64)
    ensures ValidateUint64(value) == Failure(Negative) <==> value < 0
    ensures ValidateUint64(value) == Failure(TooLarge) <==> value >= Pow(2, 64)
  {
    hide Pow;
    PowSmall();
    PowAdd(2, 8, 8);
    PowAdd(2, 16, 16);
    PowAdd(2, 32, 32);
  }

  /******* Which addresses are accepted *******/

  lemma TopOfAddress(c: char)
    ensures Top(CharVal(c), 2) == CharVal(c) / 4
  {
    PowSmall();
  }

  /** Texts of address length decode alike exactly when they agree on 57 characters and three bits. */
  lemma AddressesAlikeIff(s: string, t: string)
    requires |s| == |t| == ADDRESS_LENGTH && AllBase32(s) && AllBase32(t)
    ensures WholeBytes(ADDRESS_LENGTH)
    ensures Quanta(s) == Quanta(t) <==> s[..57] == t[..57] && CharVal(s[57]) / 4 == CharVal(t[57]) / 4
  {
    hide Quanta, WholeBytes, Spare, Top;
    Lengths();
    DecodeAlikeIff(s, t);
    TopOfAddress(s[57]);
    TopOfAddress(t[57]);
  }

  /** Texts of transaction id length, when they agree on 51 characters and one bit. */
  lemma TxidsAlikeIff(s: string, t: string)
    requires |s| == |t| == TXID_LENGTH && AllBase32(s) && AllBase32(t)
    ensures WholeBytes(TXID_LENGTH)
    ensures Quanta(s) == Quanta(t) <==> s[..51] == t[..51] && CharVal(s[51]) / 16 == CharVal(t[51]) / 16
  {
    hide Quanta, WholeBytes, Spare, Top;
    Lengths();
    DecodeAlikeIff(s, t);
    TopOfTxid(s[51]);
    TopOfTxid(t[51]);
  }

  lemma TopOfTxid(c: char)
    ensures Top(CharVal(c), 4) == CharVal(c) / 16
  {
    PowSmall();
  }

  ghost predicate IsKey(key: Bytes) {
    |key| == 32 && AreDigits(256, key)
  }

  /** The address of a key: the canonical encoding of the key and its checksum. */
  function AddressOf(hash: Hash, key: Bytes): string {
    Encode(key + Checksum(hash, key))
  }

  lemma AddressOfKey(hash: Hash, key: Bytes)
    requires IsHash(hash) && IsKey(key)
    ensures var s := AddressOf(hash, key);
      |s| == ADDRESS_LENGTH && AllBase32(s) && WholeBytes(|s|) && Quanta(s) == key + Checksum(hash, key) && KeyOf(s) == key
  {
    hide Quanta, WholeBytes, Encode, CharCount, ByteCount, Spare;
    Lengths();
    var raw := key + Checksum(hash, key);
    assert |raw| == 36 && AreDigits(256, raw);
    DecodeEncode(raw);
    assert raw[..32] == key;
  }

  /** Every key's address is accepted. */
  lemma CanonicalIsAccepted(hash: Hash, key: Bytes)
    requires IsHash(hash) && IsKey(key)
    ensures Accepted(hash, AddressOf(hash, key))
  {
    hide Quanta, WholeBytes, Accepted, AddressOf, Checksum, KeyOf;
    AddressOfKey(hash, key);
    AcceptedIff(hash, AddressOf(hash, key));
  }

  /** The address with its last character's two unused bits set to j. */
  function Variant(s: string, j: nat): string
    requires |s| == ADDRESS_LENGTH && j < 4
  {
    s[57 := ValChar(CharVal(s[57]) / 4 * 4 + j)]
  }

  /** The four texts that differ from an address in the last character's two unused bits at most. */
  function Variants(s: string): set<string>
    requires |s| == ADDRESS_LENGTH
  {
    {Variant(s, 0), Variant(s, 1), Variant(s, 2), Variant(s, 3)}
  }

  lemma VariantsIff(s: string, t: string)
    requires |s| == ADDRESS_LENGTH && AllBase32(s)
    ensures t in Variants(s) <==>
      |t| == ADDRESS_LENGTH && AllBase32(t) && t[..57] == s[..57] && CharVal(t[57]) / 4 == CharVal(s[57]) / 4
  {
    if |t| == ADDRESS_LENGTH && AllBase32(t) && t[..57] == s[..57] && CharVal(t[57]) / 4 == CharVal(s[57]) / 4 {
      var j := CharVal(t[57]) % 4;
      CharValInjective(t[57], ValChar(CharVal(s[57]) / 4 * 4 + j));
      assert t == t[..57] + [t[57]];
      assert Variant(s, j) == s[..57] + [t[57]];
      assert t == Variant(s, j);
    } else if t in Variants(s) {
      var j :| 0 <= j < 4 && t == Variant(s, j);
      assert t[..57] == s[..57];
      forall i | 0 <= i < |t| ensures IsBase32(t[i]) {
        assert i < 57 ==> t[i] == s[i];
      }
      assert false;
    }
  }

  lemma FourVariants(s: string)
    requires |s| == ADDRESS_LENGTH
    ensures |Variants(s)| == 4
  {
    forall i, j | 0 <= i < j < 4 ensures Variant(s, i) != Variant(s, j) {
      assert CharVal(Variant(s, i)[57]) == CharVal(s[57]) / 4 * 4 + i;
      assert CharVal(Variant(s, j)[57]) == CharVal(s[57]) / 4 * 4 + j;
    }
  }

  /** Exactly four texts are accepted for each key: its address and three others that differ in dropped bits only. */
  lemma ExactlyFourPerKey(hash: Hash, key: Bytes, t: string)
    requires IsHash(hash) && IsKey(key)
    ensures |AddressOf(hash, key)| == ADDRESS_LENGTH
    ensures |Variants(AddressOf(hash, key))| == 4
    ensures t in Variants(AddressOf(hash, key)) <==> |t| == ADDRESS_LENGTH && Accepted(hash, t) && KeyOf(t) == key
  {
    hide Quanta, WholeBytes, Accepted, AddressOf, Checksum, KeyOf, Variants;
    var s := AddressOf(hash, key);
    AddressOfKey(hash, key);
    FourVariants(s);
    VariantsIff(s, t);
    AcceptedIff(hash, t);
    if |t| == ADDRESS_LENGTH && AllBase32(t) {
      AddressesAlikeIff(s, t);
      SameBytesSameKey(s, t);
    }
  }

  lemma SameBytesSameKey(s: string, t: string)
    requires |s| == |t| == ADDRESS_LENGTH
    ensures WholeBytes(|s|) && (Quanta(s) == Quanta(t) ==> KeyOf(s) == KeyOf(t))
  {
    hide Quanta;
  }

  /******* Which typos are caught *******/

  /** Two texts carry the same key bits: 51 characters and the top bit of the next. */
  predicate KeyAlike(s: string, t: string)
    requires |s| == |t| == ADDRESS_LENGTH
  {
    s[..51] == t[..51] && CharVal(s[51]) / 16 == CharVal(t[51]) / 16
  }

  /** The key is made of the first 51 characters and one bit of the next. */
  lemma KeyFromPrefix(s: string, t: string)
    requires |s| == |t| == ADDRESS_LENGTH && AllBase32(s) && AllBase32(t)
    requires KeyAlike(s, t)
    ensures KeyOf(s) == KeyOf(t)
  {
    hide Quanta, WholeBytes, Num, Vals, Floor, ByteCount, Top, Spare;
    Lengths();
    PrefixNumber(s, 52, 32, 4);
    PrefixNumber(t, 52, 32, 4);
    TxidPrefix(s, t);
    var p, q := s[..52], t[..52];
    QuantaNumber(p);
    QuantaNumber(q);
    FloorUnique(Num(256, Quanta(s)[..32]), Num(256, Quanta(p)), Num(32, Vals(p)), Pow(2, 4));
    FloorUnique(Num(256, Quanta(t)[..32]), Num(256, Quanta(q)), Num(32, Vals(q)), Pow(2, 4));
    NumInjective(256, Quanta(s)[..32], Quanta(t)[..32]);
  }

  lemma TxidPrefix(s: string, t: string)
    requires |s| == |t| == ADDRESS_LENGTH && AllBase32(s) && AllBase32(t)
    requires KeyAlike(s, t)
    ensures WholeBytes(52) && Quanta(s[..52]) == Quanta(t[..52])
  {
    hide Quanta, WholeBytes;
    assert s[..52][..51] == s[..51] && t[..52][..51] == t[..51];
    TxidsAlikeIff(s[..52], t[..52]);
  }

  /**
   A change to an accepted address behind its key goes unnoticed exactly when it is confined to the two
   dropped bits of the last character; every other such change is rejected, whatever the hash.
   */
  lemma ChecksumTyposAreCaughtIff(hash: Hash, s: string, t: string)
    requires Accepted(hash, s)
    requires |s| == |t| == ADDRESS_LENGTH && AllBase32(t)
    requires KeyAlike(s, t)
    ensures Accepted(hash, t) <==> s[..57] == t[..57] && CharVal(s[57]) / 4 == CharVal(t[57]) / 4
  {
    hide Quanta, WholeBytes, Accepted, Checksum, KeyOf;
    AcceptedIff(hash, s);
    AcceptedIff(hash, t);
    KeyFromPrefix(s, t);
    AddressesAlikeIff(s, t);
  }

  /** What the last seven characters say of the checksum: four bits, five characters, three bits. */
  function ChecksumValue(s: string): nat
    requires |s| == ADDRESS_LENGTH
  {
    CharVal(s[51]) % 16 * 0x1000_0000 + Num(32, Vals(s[52..57])) * 8 + CharVal(s[57]) / 4
  }

  lemma FiveCharacters(s: string)
    requires |s| == ADDRESS_LENGTH
    ensures Num(32, Vals(s[52..57])) < 0x200_0000
    ensures ChecksumValue(s) < 0x1_0000_0000
  {
    hide Num, Vals, CharVal;
    NumBound(32, Vals(s[52..57]));
    Pow32();
  }

  /** The number before the last character, split at the byte boundary that separates key and checksum. */
  lemma SplitAtKey(s: string)
    requires |s| == ADDRESS_LENGTH
    ensures Num(32, Vals(s[..57]))
         == (Num(32, Vals(s[..51])) * 32 + CharVal(s[51])) * 0x200_0000 + Num(32, Vals(s[52..57]))
  {
    hide Num, Vals, CharVal, Pow;
    var u := s[..57];
    ValsSlice(u, 52);
    assert Vals(u) == Vals(u[..52]) + Vals(u[52..]);
    NumAppend(32, Vals(u[..52]), Vals(u[52..]));
    Pow32();
    assert u[..52] == s[..52] && u[52..] == s[52..57];
    SplitLast(s[..52]);
    assert s[..52][..51] == s[..51];
  }

  /** The decoded checksum as a number. */
  lemma ChecksumNumber(s: string)
    requires |s| == ADDRESS_LENGTH && AllBase32(s)
    ensures WholeBytes(ADDRESS_LENGTH) && |Quanta(s)| == 36
    ensures Num(256, Quanta(s)[32..]) == ChecksumValue(s)
  {
    hide Num, Vals, Pow, Quanta, WholeBytes, CharVal, Spare, Top;
    Lengths();
    BytesNumber(s);
    TopOfAddress(s[57]);
    PowSmall();
    SplitAtKey(s);
    FiveCharacters(s);
    var q := Quanta(s);
    assert q == q[..32] + q[32..];
    NumAppend(256, q[..32], q[32..]);
    NumBound(256, q[32..]);
    Pow256();
    var a, v, m := Num(32, Vals(s[..51])), CharVal(s[51]), Num(32, Vals(s[52..57]));
    assert Num(256, q) == (2 * a + v / 16) * 0x1_0000_0000 + ChecksumValue(s);
    DivModUnique(0x1_0000_0000, Num(256, q[..32]), Num(256, q[32..]), 2 * a + v / 16, ChecksumValue(s));
  }

  /** Two texts carry the same checksum bits: the rest, but for the last character's two dropped bits. */
  predicate ChecksumAlike(s: string, t: string)
    requires |s| == |t| == ADDRESS_LENGTH
  {
    && CharVal(s[51]) % 16 == CharVal(t[51]) % 16
    && s[52..57] == t[52..57]
    && CharVal(s[57]) / 4 == CharVal(t[57]) / 4
  }

  /** The decoded checksums are equal exactly when the texts carry the same checksum bits. */
  lemma ChecksumsAlikeIff(s: string, t: string)
    requires |s| == |t| == ADDRESS_LENGTH && AllBase32(s) && AllBase32(t)
    ensures WholeBytes(ADDRESS_LENGTH) && |Quanta(s)| == |Quanta(t)| == 36
    ensures Quanta(s)[32..] == Quanta(t)[32..] <==> ChecksumAlike(s, t)
  {
    hide Num, Vals, Quanta, WholeBytes, CharVal;
    ChecksumNumber(s);
    ChecksumNumber(t);
    if ChecksumValue(s) == ChecksumValue(t) {
      NumInjective(256, Quanta(s)[32..], Quanta(t)[32..]);
      FiveCharacters(s);
      FiveCharacters(t);
      NumInjective(32, Vals(s[52..57]), Vals(t[52..57]));
      ValsInjective(s[52..57], t[52..57]);
    }
  }

  /** Texts of one checksum with other key bits carry different keys. */
  lemma OtherKey(s: string, t: string)
    requires |s| == |t| == ADDRESS_LENGTH && AllBase32(s) && AllBase32(t)
    requires ChecksumAlike(s, t) && !KeyAlike(s, t)
    ensures KeyOf(s) != KeyOf(t)
  {
    hide Quanta, WholeBytes, CharVal;
    Lengths();
    ChecksumsAlikeIff(s, t);
    AddressesAlikeIff(s, t);
    assert Quanta(s) == KeyOf(s) + Quanta(s)[32..] && Quanta(t) == KeyOf(t) + Quanta(t)[32..];
    assert s[..57][..51] == s[..51] && t[..57][..51] == t[..51];
    assert s[..57][51] == s[51] && t[..57][51] == t[51];
  }

  /**
   A change to an accepted address that leaves its checksum alone goes unnoticed exactly when the checksums
   of the old key and of the new one, which is a different key, happen to collide under the hash.
   */
  lemma KeyTyposAreCaughtIff(hash: Hash, s: string, t: string)
    requires Accepted(hash, s)
    requires |s| == |t| == ADDRESS_LENGTH && AllBase32(t)
    requires ChecksumAlike(s, t)
    ensures Accepted(hash, t) <==> Checksum(hash, KeyOf(t)) == Checksum(hash, KeyOf(s))
    ensures KeyOf(s) == KeyOf(t) <==> KeyAlike(s, t)
  {
    hide Quanta, WholeBytes, Accepted, Checksum, CharVal;
    AcceptedIff(hash, s);
    AcceptedIff(hash, t);
    ChecksumsAlikeIff(s, t);
    assert Quanta(s) == KeyOf(s) + Quanta(s)[32..] && Quanta(t) == KeyOf(t) + Quanta(t)[32..];
    assert KeyOf(s) + Checksum(hash, KeyOf(s)) == KeyOf(s) + Quanta(s)[32..];
    if KeyAlike(s, t) {
      KeyFromPrefix(s, t);
    } else {
      OtherKey(s, t);
    }
  }

  lemma AcceptedByParts(hash: Hash, s: string)
    requires |s| == ADDRESS_LENGTH && AllBase32(s)
    ensures Accepted(hash, s) <==> Checksum(hash, KeyOf(s)) == ChecksumOf(s)
  {
    hide Quanta, WholeBytes, Accepted, Checksum;
    Lengths();
    AcceptedIff(hash, s);
    assert Quanta(s) == KeyOf(s) + ChecksumOf(s);
    assert (KeyOf(s) + Checksum(hash, KeyOf(s)))[32..] == Checksum(hash, KeyOf(s));
  }

  /** A typo of one character, position by position: before the checksum, in it, and in the last character. */
  lemma SingleTyposAreCaughtIff(hash: Hash, s: string, p: nat, c: char)
    requires Accepted(hash, s) && p < |s| == ADDRESS_LENGTH && IsBase32(c) && c != s[p]
    ensures var t := s[p := c];
      && (p <= 50 ==>
          && KeyOf(t) != KeyOf(s)
          && (Accepted(hash, t) <==> Checksum(hash, KeyOf(t)) == Checksum(hash, KeyOf(s))))
      && (52 <= p <= 56 ==> !Accepted(hash, t))
      && (p == 57 ==> (Accepted(hash, t) <==> CharVal(c) / 4 == CharVal(s[57]) / 4))
      && (p == 51 ==> (Accepted(hash, t) <==> Checksum(hash, KeyOf(t)) == ChecksumOf(t)))
      && (p == 51 && CharVal(c) / 16 == CharVal(s[51]) / 16 ==> !Accepted(hash, t))
      && (p == 51 && CharVal(c) % 16 == CharVal(s[51]) % 16 ==>
          (Accepted(hash, t) <==> Checksum(hash, KeyOf(t)) == Checksum(hash, KeyOf(s))))
  {
    hide Accepted, Checksum, ChecksumOf, KeyOf, CharVal, IsBase32;
    AcceptedIff(hash, s);
    var t := s[p := c];
    assert AllBase32(t);
    AcceptedByParts(hash, t);
    assert t[p] == c && forall i :: 0 <= i < |s| && i != p ==> t[i] == s[i];
    if p <= 50 {
      assert t[..51][p] != s[..51][p];
      KeyTyposAreCaughtIff(hash, s, t);
    } else {
      assert t[..51] == s[..51];
      if p == 51 && CharVal(c) % 16 == CharVal(s[51]) % 16 {
        KeyTyposAreCaughtIff(hash, s, t);
      }
      if p > 51 || CharVal(c) / 16 == CharVal(s[51]) / 16 {
        ChecksumTyposAreCaughtIff(hash, s, t);
        assert p < 57 ==> t[..57][p] != s[..57][p];
      }
    }
  }

  /**
   Transposed characters: two different ones swapped behind the key are always caught, and two swapped
   within it unless the checksums of the two keys collide.
   */
  lemma TranspositionsAreCaughtIff(hash: Hash, s: string, p: nat, q: nat)
    requires Accepted(hash, s) && p < q < |s| == ADDRESS_LENGTH && s[p] != s[q]
    ensures var t := s[p := s[q]][q := s[p]];
      && (52 <= p ==> !Accepted(hash, t))
      && (q <= 50 ==>
          && KeyOf(t) != KeyOf(s)
          && (Accepted(hash, t) <==> Checksum(hash, KeyOf(t)) == Checksum(hash, KeyOf(s))))
  {
    hide Accepted, Checksum, KeyOf, CharVal, IsBase32;
    AcceptedIff(hash, s);
    var t := s[p := s[q]][q := s[p]];
    assert AllBase32(t);
    assert t[p] == s[q] && t[q] == s[p] && forall i :: 0 <= i < |s| && i != p && i != q ==> t[i] == s[i];
    if q <= 50 {
      assert t[..51][p] != s[..51][p];
      KeyTyposAreCaughtIff(hash, s, t);
    } else if 52 <= p {
      assert t[..51] == s[..51];
      ChecksumTyposAreCaughtIff(hash, s, t);
      assert t[..57][p] != s[..57][p];
    }
  }

  /** Not every typo of one character is caught: each accepted address has three undetected ones in its last character. */
  lemma LastCharacterTyposPass(hash: Hash, s: string, j: nat)
    requires Accepted(hash, s) && j < 4
    ensures |s| == ADDRESS_LENGTH && Accepted(hash, Variant(s, j))
    ensures |Variants(s)| == 4
  {
    hide Accepted, Checksum, KeyOf, Quanta, Variant;
    AcceptedIff(hash, s);
    FourVariants(s);
    var t := Variant(s, j);
    assert t in Variants(s);
    VariantsIff(s, t);
    assert s[..57][..51] == s[..51] && t[..57][..51] == t[..51];
    assert s[..57][51] == s[51] && t[..57][51] == t[51];
    ChecksumTyposAreCaughtIff(hash, s, t);
  }

  /******* Search terms *******/

  /** What `str.strip` removes. */
  predicate IsSpace(c: char) {
    || '\t' <= c <= '\r'
    || '\U{1c}' <= c <= ' '
    || c == '\U{85}' || c == '\U{a0}' || c == '\U{1680}'
    || '\U{2000}' <= c <= '\U{200a}'
    || c == '\U{2028}' || c == '\U{2029}' || c == '\U{202f}' || c == '\U{205f}' || c == '\U{3000}'
  }

  /** The code points of Unicode's white space, one by one. */
  lemma SpacesAreExact(c: char)
    ensures IsSpace(c) <==> c as int in [9, 10, 11, 12, 13, 28, 29, 30, 31, 32, 133, 160, 5760, 8192, 8193, 8194, 8195, 8196,
                                         8197, 8198, 8199, 8200, 8201, 8202, 8232, 8233, 8239, 8287, 12288]
  {}

  function StripLeft(s: string): string {
    if s != "" && IsSpace(s[0]) then StripLeft(s[1..]) else s
  }

  function StripRight(s: string): string {
    if s != "" && IsSpace(s[|s| - 1]) then StripRight(s[..|s| - 1]) else s
  }

  function Strip(s: string): string {
    StripRight(StripLeft(s))
  }

  datatype Kind = Address | Transaction | Numeric | Name

  /** `classify_query`, on terms without digits other than 0-9. */
  function ClassifyQuery(query: string): Kind {
    var term := Strip(query);
    if term == "" then Name
    else if |term| == ADDRESS_LENGTH && MatchesAlphabet(term) then Address
    else if |term| == TXID_LENGTH && MatchesAlphabet(term) then Transaction
    else if Amounts.AllDigits(term) then Numeric
    else Name
  }

  lemma {:induction false} StripLeftShrinks(s: string)
    ensures |StripLeft(s)| <= |s|
    ensures s != "" && IsSpace(s[0]) ==> |StripLeft(s)| < |s|
  {
    if s != "" && IsSpace(s[0]) {
      StripLeftShrinks(s[1..]);
    }
  }

  lemma {:induction false} StripRightShrinks(s: string)
    ensures |StripRight(s)| <= |s|
    ensures StripRight(s) != "" ==> !IsSpace(StripRight(s)[|StripRight(s)| - 1])
    ensures StripRight(s) == s <==> s == "" || !IsSpace(s[|s| - 1])
  {
    if s != "" && IsSpace(s[|s| - 1]) {
      StripRightShrinks(s[..|s| - 1]);
    }
  }

  /** Stripping changes a string exactly when it begins or ends with white space, and leaves none at the end. */
  lemma StripFacts(s: string)
    ensures Strip(s) == s <==> s == "" || !(IsSpace(s[0]) || IsSpace(s[|s| - 1]))
    ensures Strip(s) != "" ==> !IsSpace(Strip(s)[|Strip(s)| - 1])
  {
    StripLeftShrinks(s);
    StripRightShrinks(StripLeft(s));
    StripRightShrinks(s);
  }

  /** Stripping takes off exactly the white space at both ends. */
  lemma StripIsTrim(s: string) returns (i: nat, j: nat)
    ensures i <= j <= |s| && Strip(s) == s[i..j]
    ensures forall k :: 0 <= k < i || j <= k < |s| ==> IsSpace(s[k])
    ensures i < j ==> !IsSpace(s[i]) && !IsSpace(s[j - 1])
  {
    hide IsSpace;
    i := StripLeftAt(s);
    var n := StripRightAt(s[i..]);
    j := i + n;
    assert s[i..][..n] == s[i..j];
    forall k | j <= k < |s| ensures IsSpace(s[k]) {
      assert s[i..][k - i] == s[k];
    }
  }

  lemma {:induction false} StripLeftAt(s: string) returns (i: nat)
    ensures i <= |s| && StripLeft(s) == s[i..]
    ensures forall k :: 0 <= k < i ==> IsSpace(s[k])
    ensures i < |s| ==> !IsSpace(s[i])
  {
    hide IsSpace;
    if s != "" && IsSpace(s[0]) {
      var n := StripLeftAt(s[1..]);
      i := n + 1;
      assert forall k :: 0 < k < i ==> s[k] == s[1..][k - 1];
    } else {
      i := 0;
    }
  }

  lemma {:induction false} StripRightAt(s: string) returns (j: nat)
    ensures j <= |s| && StripRight(s) == s[..j]
    ensures forall k :: j <= k < |s| ==> IsSpace(s[k])
    ensures j > 0 ==> !IsSpace(s[j - 1])
  {
    hide IsSpace;
    if s != "" && IsSpace(s[|s| - 1]) {
      j := StripRightAt(s[..|s| - 1]);
      assert forall k :: j <= k < |s| - 1 ==> s[k] == s[..|s| - 1][k];
    } else {
      j := |s|;
    }
  }

  lemma AlphabetIsNotSpace(c: char)
    ensures (IsBase32(c) || Amounts.IsDigit(c)) ==> !IsSpace(c)
    ensures IsSpace('\n')
  {}

  /** A stripped term that the pattern matches is over the alphabet. */
  lemma StrippedMatches(query: string)
    ensures MatchesAlphabet(Strip(query)) <==> Strip(query) != "" && AllBase32(Strip(query))
  {
    StripFacts(query);
    AlphabetIsNotSpace('\n');
  }

  lemma BareTerm(s: string)
    requires s != "" && forall i :: 0 <= i < |s| ==> IsBase32(s[i]) || Amounts.IsDigit(s[i])
    ensures Strip(s) == s
  {
    StripFacts(s);
    AlphabetIsNotSpace(s[0]);
    AlphabetIsNotSpace(s[|s| - 1]);
  }

  /** A transaction id is valid exactly when nothing needs stripping and the classifier says so. */
  lemma TxidIffClassified(s: string)
    ensures ValidateTxid(s).Success? <==> Strip(s) == s && ClassifyQuery(s) == Transaction
  {
    hide Strip, B32Decode;
    StrippedMatches(s);
    if |s| == TXID_LENGTH {
      if AllBase32(s) {
        DecodeSucceeds(s);
        BareTerm(s);
      } else if MatchesAlphabet(s) {
        NewlineIsNotDecodable(s, 32);
      }
    }
  }

  /** What each search term is taken for, from its text between white space: by length and alphabet, then by digits. */
  lemma ClassifiedIff(query: string)
    ensures var term, kind := Strip(query), ClassifyQuery(query);
      && (kind == Address <==> |term| == 58 && AllBase32(term))
      && (kind == Transaction <==> |term| == 52 && AllBase32(term))
      && (kind == Numeric <==>
          && term != "" && (forall i :: 0 <= i < |term| ==> '0' <= term[i] <= '9')
          && !((|term| == 58 || |term| == 52) && forall i :: 0 <= i < |term| ==> '2' <= term[i] <= '7'))
      && (kind == Name <==>
          && !((|term| == 58 || |term| == 52) && AllBase32(term))
          && (term == "" || exists i :: 0 <= i < |term| && !('0' <= term[i] <= '9')))
  {
    hide Strip;
    StrippedMatches(query);
  }

  /** Every valid address is looked up as an address. */
  lemma AddressIsClassified(hash: Hash, s: string)
    requires ValidateAddress(hash, s).Success?
    ensures ClassifyQuery(s) == Address
  {
    hide Strip, Quanta, WholeBytes, Checksum;
    AcceptedIff(hash, s);
    BareTerm(s);
  }

  lemma PowTen20()
    ensures Pow(10, 20) == 100_000_000_000_000_000_000
  {
    assert Pow(10, 4) == 10_000;
    PowAdd(10, 4, 4);
    PowAdd(10, 8, 8);
    PowAdd(10, 16, 4);
  }

  /** Digits that are also base32 characters and too many to be a 64-bit number. */
  predicate LooksEncoded(s: string) {
    (|s| == ADDRESS_LENGTH || |s| == TXID_LENGTH) && forall i :: 0 <= i < |s| ==> '2' <= s[i] <= '7'
  }

  /** A digit string is numeric unless all its digits are base32 characters and it has an identifier's length. */
  lemma DigitsAreNumericIff(s: string)
    requires s != "" && Amounts.AllDigits(s)
    ensures ClassifyQuery(s) == Numeric <==> !LooksEncoded(s)
  {
    hide Strip;
    BareTerm(s);
    StrippedMatches(s);
    assert LooksEncoded(s) <==> (|s| == ADDRESS_LENGTH || |s| == TXID_LENGTH) && AllBase32(s);
  }

  /** Every number below 2^64 is numeric, with any leading zeros, and passes the range check that follows. */
  lemma Uint64IsNumeric(s: string)
    requires s != "" && Amounts.AllDigits(s) && Amounts.NatOf(s) <= MAX_UINT64
    ensures ClassifyQuery(s) == Numeric
    ensures ValidateUint64(Amounts.NatOf(s)).Success?
  {
    hide ClassifyQuery;
    DigitsAreNumericIff(s);
    if LooksEncoded(s) {
      Amounts.LeadingDigit(s);
      PowTen20();
      PowAdd(10, 20, |s| - 21);
      assert false;
    }
  }
}
