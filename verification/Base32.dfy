/**
 Base32 without padding characters in the text (RFC 4648, section 6): the decoder as quanta of eight
 characters, left-over bits dropped unchecked (section 3.5 leaves that to the implementation), and the
 canonical encoder. Bytes are numbers below 256.
 */
module Base32 {
  import opened Wrappers
  import opened Positional

  type Bytes = seq<nat>

  /** The alphabet A-Z, 2-7. */
  predicate IsBase32(c: char) {
    'A' <= c <= 'Z' || '2' <= c <= '7'
  }

  predicate AllBase32(s: string) {
    forall i :: 0 <= i < |s| ==> IsBase32(s[i])
  }

  function CharVal(c: char): (v: nat)
    ensures v < 32
  {
    if 'A' <= c <= 'Z' then c as int - 'A' as int
    else if '2' <= c <= '7' then 26 + (c as int - '2' as int)
    else 0
  }

  function ValChar(v: nat): (c: char)
    requires v < 32
    ensures IsBase32(c) && CharVal(c) == v
  {
    if v < 26 then ('A' as int + v) as char else ('2' as int + (v - 26)) as char
  }

  /** Values are positions in the alphabet of RFC 4648, section 6. */
  lemma AlphabetIsExact(v: nat, c: char)
    requires v < 32
    ensures ValChar(v) == "ABCDEFGHIJKLMNOPQRSTUVWXYZ234567"[v] && CharVal("ABCDEFGHIJKLMNOPQRSTUVWXYZ234567"[v]) == v
    ensures IsBase32(c) <==> c in "ABCDEFGHIJKLMNOPQRSTUVWXYZ234567"
  {
    var s := "ABCDEFGHIJKLMNOPQRSTUVWXYZ234567";
    Letters(v);
    if IsBase32(c) {
      Letters(CharVal(c));
      assert s[CharVal(c)] == c;
    }
    forall i | 0 <= i < |s| ensures IsBase32(s[i]) {
      Letters(i);
    }
  }

  /** The letters, then the digits from 2 on. */
  lemma Letters(v: nat)
    requires v < 32
    ensures var c := "ABCDEFGHIJKLMNOPQRSTUVWXYZ234567"[v];
      c == if v < 26 then ('A' as int + v) as char else ('2' as int + v - 26) as char
  {}

  lemma CharValInjective(c: char, d: char)
    requires IsBase32(c) && IsBase32(d) && CharVal(c) == CharVal(d)
    ensures c == d
  {}

  function Vals(s: string): (ds: seq<nat>)
    ensures |ds| == |s|
    ensures AreDigits(32, ds)
  {
    seq(|s|, i requires 0 <= i < |s| => CharVal(s[i]))
  }

  function Chars(ds: seq<nat>): (s: string)
    requires AreDigits(32, ds)
    ensures |s| == |ds| && AllBase32(s)
  {
    seq(|ds|, i requires 0 <= i < |ds| => ValChar(ds[i]))
  }

  lemma ValsChars(ds: seq<nat>)
    requires AreDigits(32, ds)
    ensures Vals(Chars(ds)) == ds
  {}

  lemma ValsSlice(s: string, i: nat)
    requires i <= |s|
    ensures Vals(s)[..i] == Vals(s[..i]) && Vals(s)[i..] == Vals(s[i..])
  {}

  lemma ValsInjective(s: string, t: string)
    requires AllBase32(s) && AllBase32(t) && Vals(s) == Vals(t)
    ensures s == t
  {
    forall i | 0 <= i < |s| ensures s[i] == t[i] {
      assert Vals(s)[i] == Vals(t)[i];
      CharValInjective(s[i], t[i]);
    }
  }

  /******* The decoder of the standard library *******/

  datatype DecodeError = IncorrectPadding | NonBase32Digit

  /** `s.rstrip("=")` */
  function StripPadding(s: string): (r: string)
    ensures r <= s
  {
    if s != "" && s[|s| - 1] == '=' then StripPadding(s[..|s| - 1]) else s
  }

  /** Bytes kept of a final quantum that `pad` padding characters complete. */
  function Leftover(pad: nat): (n: nat)
    requires pad in {0, 1, 3, 4, 6}
    ensures n <= 5
  {
    (43 - 5 * pad) / 8
  }

  /** The padding that completes a text of length n. */
  function Padding(n: nat): (pad: nat)
    ensures pad < 8 && (n + pad) % 8 == 0
  {
    (8 - n % 8) % 8
  }

  /** A text of this length can be the encoding of whole bytes. */
  predicate WholeBytes(n: nat) {
    Padding(n) in {0, 1, 3, 4, 6}
  }

  /** Bytes that n characters make up, and the bits of them that reach no byte. */
  function ByteCount(n: nat): nat {
    5 * (n / 8) + 5 * (n % 8) / 8
  }

  function Spare(n: nat): nat {
    5 * (n % 8) % 8
  }

  lemma LengthStep(n: nat)
    requires n >= 8
    ensures Padding(n) == Padding(n - 8) && Spare(n) == Spare(n - 8) && ByteCount(n) == 5 + ByteCount(n - 8)
  {}

  lemma LastLength(n: nat)
    requires 0 < n <= 8 && WholeBytes(n)
    ensures Padding(n) == 8 - n && Leftover(8 - n) == ByteCount(n)
  {
    if n < 8 {
      assert n % 8 == n && n / 8 == 0;
    }
  }

  /** The quanta one after the other: the last one completed with zero bits and cut. */
  function Quanta(t: string): (bytes: Bytes)
    requires WholeBytes(|t|)
    ensures AreDigits(256, bytes)
    ensures |bytes| == ByteCount(|t|)
  {
    hide WholeBytes, Padding, Leftover, ByteCount;
    if t == "" then
      assert ByteCount(0) == 0 by { EmptyLength(); }
      []
    else if |t| <= 8 then
      LastLength(|t|);
      LastBytes(t)
    else
      LengthStep(|t|);
      StillWhole(|t|);
      ToDigits(256, Num(32, Vals(t[..8])), 5) + Quanta(t[8..])
  }

  lemma EmptyLength()
    ensures ByteCount(0) == 0
  {}

  lemma StillWhole(n: nat)
    requires n >= 8 && WholeBytes(n)
    ensures WholeBytes(n - 8)
  {}

  /** The bytes of the final quantum, of at most eight characters. */
  function LastBytes(t: string): (bytes: Bytes)
    requires 0 < |t| <= 8 && WholeBytes(|t|)
    ensures AreDigits(256, bytes)
    ensures |bytes| == Leftover(8 - |t|)
  {
    ToDigits(256, Num(32, Vals(t)) * Pow(32, 8 - |t|), 5)[..Leftover(8 - |t|)]
  }

  lemma StrippedIsWhole(padded: nat, n: nat)
    requires padded % 8 == 0 && n <= padded && padded - n in {0, 1, 3, 4, 6}
    ensures WholeBytes(n)
  {}

  /** `base64.b32decode` on a text already padded with "=". */
  function Decode(s: string): Result<Bytes, DecodeError> {
    if |s| % 8 != 0 then Failure(IncorrectPadding)
    else
      var t := StripPadding(s);
      if !AllBase32(t) then Failure(NonBase32Digit)
      else if |s| - |t| !in {0, 1, 3, 4, 6} then Failure(IncorrectPadding)
      else
        StrippedIsWhole(|s|, |t|);
        Success(Quanta(t))
  }

  /** `"=" * n` */
  function Equals(n: nat): (s: string)
    ensures |s| == n
  {
    if n == 0 then "" else Equals(n - 1) + "="
  }

  lemma {:induction false} StripEquals(s: string, n: nat)
    requires s != "" ==> s[|s| - 1] != '='
    ensures StripPadding(s + Equals(n)) == s
  {
    if n == 0 {
      assert s + "" == s;
    } else {
      StripEquals(s, n - 1);
      assert s + Equals(n) == s + Equals(n - 1) + "=";
      StripOne(s + Equals(n - 1));
    }
  }

  lemma StripOne(s: string)
    ensures StripPadding(s + "=") == StripPadding(s)
  {
    assert (s + "=")[..|s|] == s;
  }

  lemma DecodeStripped(padded: string, s: string)
    requires StripPadding(padded) == s && AllBase32(s)
    requires |padded| % 8 == 0 && |padded| - |s| in {0, 1, 3, 4, 6}
    ensures WholeBytes(|s|) && Decode(padded) == Success(Quanta(s))
  {
    hide Quanta, StripPadding, AllBase32;
    StrippedIsWhole(|padded|, |s|);
  }

  /** Padded text over the alphabet decodes to its quanta. */
  lemma DecodePadded(s: string)
    requires AllBase32(s) && WholeBytes(|s|)
    ensures Decode(s + Equals(Padding(|s|))) == Success(Quanta(s))
  {
    hide Quanta, StripPadding, Equals, Decode, Padding;
    StripEquals(s, Padding(|s|));
    PaddedLength(|s|);
    DecodeStripped(s + Equals(Padding(|s|)), s);
  }

  lemma PaddedLength(n: nat)
    requires WholeBytes(n)
    ensures (n + Padding(n)) % 8 == 0 && Padding(n) in {0, 1, 3, 4, 6}
  {}

  /******* Decoding as arithmetic *******/

  lemma PowSmall()
    ensures Pow(2, 1) == 2 && Pow(2, 2) == 4 && Pow(2, 3) == 8 && Pow(2, 4) == 16 && Pow(2, 5) == 32 && Pow(2, 8) == 256
  {
    assert Pow(2, 6) == 2 * Pow(2, 5);
    assert Pow(2, 7) == 2 * Pow(2, 6);
    assert Pow(2, 4) == 2 * Pow(2, 3);
    assert Pow(2, 2) == 2 * Pow(2, 1);
  }

  lemma Pow256()
    ensures Pow(256, 0) == 1 && Pow(256, 1) == 256 && Pow(256, 2) == 0x1_0000 && Pow(256, 3) == 0x100_0000
    ensures Pow(256, 4) == 0x1_0000_0000 && Pow(256, 5) == 0x100_0000_0000
  {
    assert Pow(256, 2) == 256 * Pow(256, 1);
    assert Pow(256, 4) == 256 * Pow(256, 3);
  }

  lemma Pow32()
    ensures Pow(32, 0) == 1 && Pow(32, 1) == 32 && Pow(32, 2) == 0x400 && Pow(32, 3) == 0x8000
    ensures Pow(32, 4) == 0x10_0000 && Pow(32, 5) == 0x200_0000 && Pow(32, 6) == 0x4000_0000
    ensures Pow(32, 7) == 0x8_0000_0000 && Pow(32, 8) == 0x100_0000_0000
  {
    assert Pow(32, 2) == 32 * Pow(32, 1);
    assert Pow(32, 4) == 32 * Pow(32, 3);
    assert Pow(32, 6) == 32 * Pow(32, 5);
    assert Pow(32, 8) == 32 * Pow(32, 7);
  }

  lemma {:induction false} PowPower(k: nat, n: nat)
    ensures Pow(Pow(2, k), n) == Pow(2, k * n)
  {
    if n == 0 {
      assert k * n == 0;
    } else {
      PowPower(k, n - 1);
      assert k * n == k + k * (n - 1);
      PowAdd(2, k, k * (n - 1));
    }
  }

  /** 32^n = 256^m * 2^spare for the bytes and spare bits of n characters. */
  lemma BitsOfText(n: nat)
    ensures Pow(32, n) == Pow(256, ByteCount(n)) * Pow(2, Spare(n))
  {
    hide Pow;
    PowSmall();
    PowPower(5, n);
    PowPower(8, ByteCount(n));
    PowAdd(2, 8 * ByteCount(n), Spare(n));
  }

  /** What is cut off a final quantum is its padding and its spare bits. */
  lemma CutTable(pad: nat)
    requires pad in {0, 1, 3, 4, 6}
    ensures Pow(256, 5 - Leftover(pad)) == Pow(2, Spare(8 - pad)) * Pow(32, pad)
  {
    hide Pow;
    Pow32();
    Pow256();
    PowSmall();
    assert Pow(2, 0) == 1 by { PowZero(2); }
  }

  lemma PowZero(b: nat)
    ensures Pow(b, 0) == 1
  {}

  /** m is n / s, rounded down. */
  ghost predicate Floor(m: nat, n: nat, s: nat) {
    m * s <= n < (m + 1) * s
  }

  lemma Cut(n: nat, a: nat, m: nat, rest: nat, s: nat)
    requires n * a == m * (s * a) + rest && rest < s * a
    ensures Floor(m, n, s)
  {
    MulAssoc(m, s, a);
    if n < m * s {
      MulMono(n + 1, m * s, a);
      assert false;
    } else if (m + 1) * s <= n {
      MulMono((m + 1) * s, n, a);
      Distribute(m, 1, s);
      Distribute(m * s, s, a);
      assert false;
    }
  }

  lemma AccumulatorFits(n: nat, len: nat)
    requires len <= 8 && n < Pow(32, len)
    ensures n * Pow(32, 8 - len) < Pow(256, 5)
  {
    hide Pow;
    PowAdd(32, len, 8 - len);
    MulMono(n + 1, Pow(32, len), Pow(32, 8 - len));
    Distribute(n, 1, Pow(32, 8 - len));
    Pow32();
    Pow256();
    assert 1 * Pow(32, 8 - len) > 0;
  }

  lemma LastQuantum(t: string)
    requires 0 < |t| <= 8 && WholeBytes(|t|)
    ensures Floor(Num(256, LastBytes(t)), Num(32, Vals(t)), Pow(2, Spare(|t|)))
  {
    hide Pow, Num, ToDigits, Spare, Leftover, Padding;
    LastLength(|t|);
    var n, pad := Num(32, Vals(t)), 8 - |t|;
    var acc, kept := n * Pow(32, pad), Leftover(pad);
    NumBound(32, Vals(t));
    AccumulatorFits(n, |t|);
    var bytes := ToDigits(256, acc, 5);
    NumToDigits(256, acc, 5);
    assert bytes == bytes[..kept] + bytes[kept..];
    NumAppend(256, bytes[..kept], bytes[kept..]);
    NumBound(256, bytes[kept..]);
    CutTable(pad);
    Cut(n, Pow(32, pad), Num(256, bytes[..kept]), Num(256, bytes[kept..]), Pow(2, Spare(|t|)));
  }

  /** The bytes as a number are the text as a number with its spare bits dropped. */
  lemma {:induction false} QuantaNumber(t: string)
    requires WholeBytes(|t|)
    ensures Floor(Num(256, Quanta(t)), Num(32, Vals(t)), Pow(2, Spare(|t|)))
  {
    if t == "" {
      assert Pow(2, Spare(0)) == 1;
    } else if |t| <= 8 {
      hide Pow, Num, Spare, Padding, LastBytes;
      LastQuantum(t);
    } else {
      hide Floor, Pow, Num, Spare;
      StillWhole(|t|);
      QuantaNumber(t[8..]);
      QuantaStep(t);
    }
  }

  lemma QuantaStep(t: string)
    requires |t| > 8 && WholeBytes(|t|) && WholeBytes(|t[8..]|)
    requires Floor(Num(256, Quanta(t[8..])), Num(32, Vals(t[8..])), Pow(2, Spare(|t[8..]|)))
    ensures Floor(Num(256, Quanta(t)), Num(32, Vals(t)), Pow(2, Spare(|t|)))
  {
    hide Floor, Pow, Num, Spare, Padding, WholeBytes, ToDigits, LastBytes, ByteCount, Vals;
    var q, rest := t[..8], t[8..];
    var h, n, m := Num(32, Vals(q)), Num(32, Vals(rest)), Num(256, Quanta(rest));
    var p, s := Pow(256, ByteCount(|rest|)), Pow(2, Spare(|rest|));
    LengthStep(|t|);
    FirstQuantum(q, Quanta(rest));
    assert Num(256, Quanta(t)) == h * p + m;
    JoinVals(t);
    BitsOfText(|rest|);
    assert Num(32, Vals(t)) == h * (p * s) + n;
    JoinQuantum(h, n, m, p, s);
  }

  lemma JoinVals(t: string)
    requires |t| >= 8
    ensures Num(32, Vals(t)) == Num(32, Vals(t[..8])) * Pow(32, |t[8..]|) + Num(32, Vals(t[8..]))
  {
    hide Pow, Num;
    ValsSlice(t, 8);
    assert Vals(t) == Vals(t[..8]) + Vals(t[8..]);
    NumAppend(32, Vals(t[..8]), Vals(t[8..]));
  }

  lemma FirstQuantum(q: string, more: Bytes)
    requires |q| == 8
    ensures Num(256, ToDigits(256, Num(32, Vals(q)), 5) + more) == Num(32, Vals(q)) * Pow(256, |more|) + Num(256, more)
  {
    hide Pow, Num, ToDigits;
    var h := Num(32, Vals(q));
    NumBound(32, Vals(q));
    Pow32();
    Pow256();
    NumToDigits(256, h, 5);
    NumAppend(256, ToDigits(256, h, 5), more);
  }

  lemma JoinQuantum(h: nat, n: nat, m: nat, p: nat, s: nat)
    requires Floor(m, n, s)
    ensures Floor(h * p + m, h * (p * s) + n, s)
  {
    MulAssoc(h, p, s);
    Distribute(h * p, m, s);
    Distribute(h * p, m + 1, s);
  }

  lemma Distribute(x: int, y: int, z: int)
    ensures (x + y) * z == x * z + y * z
  {}

  /******* Which texts decode alike *******/

  lemma FloorUnique(m1: nat, m2: nat, n: nat, s: nat)
    requires Floor(m1, n, s) && Floor(m2, n, s)
    ensures m1 == m2
  {
    if m1 < m2 {
      MulMono(m1 + 1, m2, s);
      assert false;
    } else if m2 < m1 {
      MulMono(m2 + 1, m1, s);
      assert false;
    }
  }

  lemma SplitLast(t: string)
    requires t != ""
    ensures Num(32, Vals(t)) == Num(32, Vals(t[..|t| - 1])) * 32 + CharVal(t[|t| - 1])
  {
    ValsSlice(t, |t| - 1);
  }

  /** The high bits of a value of five bits. */
  function Top(v: nat, spare: nat): (q: nat)
    requires spare <= 4
    ensures v == q * Pow(2, spare) + Remainder(v, Pow(2, spare))
  {
    Quotient(v, Pow(2, spare))
  }

  lemma TopBound(v: nat, spare: nat)
    requires v < 32 && spare <= 4
    ensures Top(v, spare) < Pow(2, 5 - spare)
  {
    hide Pow, Quotient;
    PowAdd(2, 5 - spare, spare);
    PowSmall();
    if Top(v, spare) >= Pow(2, 5 - spare) {
      MulMono(Pow(2, 5 - spare), Top(v, spare), Pow(2, spare));
      assert false;
    }
  }

  /** The bytes as a number, from all characters but the last and the high bits of that one. */
  lemma BytesNumber(t: string)
    requires t != "" && WholeBytes(|t|) && Spare(|t|) <= 4
    ensures Num(256, Quanta(t))
         == Num(32, Vals(t[..|t| - 1])) * Pow(2, 5 - Spare(|t|)) + Top(CharVal(t[|t| - 1]), Spare(|t|))
  {
    hide Pow, Num, Quanta, Spare, WholeBytes;
    QuantaNumber(t);
    SplitLast(t);
    var f, v, spare := Num(32, Vals(t[..|t| - 1])), CharVal(t[|t| - 1]), Spare(|t|);
    PowSmall();
    PowAdd(2, 5 - spare, spare);
    FloorOfSplit(f, v, Pow(2, 5 - spare), Pow(2, spare), Top(v, spare), Remainder(v, Pow(2, spare)));
    FloorUnique(Num(256, Quanta(t)), f * Pow(2, 5 - spare) + Top(v, spare), f * 32 + v, Pow(2, spare));
  }

  lemma FloorOfSplit(f: nat, v: nat, a: nat, s: nat, top: nat, low: nat)
    requires v == top * s + low && low < s && a * s == 32
    ensures Floor(f * a + top, f * 32 + v, s)
  {
    MulAssoc(f, a, s);
    Distribute(f * a, top, s);
    Distribute(f * a + top, 1, s);
  }

  /**
   Collision law: two texts over the alphabet decode to the same bytes exactly when they agree on all
   characters but the last and on the bits of the last one that reach a byte.
   */
  lemma DecodeAlikeIff(s: string, t: string)
    requires AllBase32(s) && AllBase32(t)
    requires |s| == |t| > 0 && WholeBytes(|s|) && Spare(|s|) <= 4
    ensures var n := |s| - 1;
      Quanta(s) == Quanta(t) <==>
        s[..n] == t[..n] && Top(CharVal(s[n]), Spare(|s|)) == Top(CharVal(t[n]), Spare(|s|))
  {
    hide Pow, Num, Quanta, Spare, WholeBytes, Top, Vals;
    var n, spare := |s| - 1, Spare(|s|);
    BytesNumber(s);
    BytesNumber(t);
    TopBound(CharVal(s[n]), spare);
    TopBound(CharVal(t[n]), spare);
    if Quanta(s) == Quanta(t) {
      DivModUnique(Pow(2, 5 - spare), Num(32, Vals(s[..n])), Top(CharVal(s[n]), spare),
                   Num(32, Vals(t[..n])), Top(CharVal(t[n]), spare));
      NumInjective(32, Vals(s[..n]), Vals(t[..n]));
      ValsInjective(s[..n], t[..n]);
    } else if s[..n] == t[..n] && Top(CharVal(s[n]), spare) == Top(CharVal(t[n]), spare) {
      NumInjective(256, Quanta(s), Quanta(t));
      assert false;
    }
  }

  /******* The canonical encoder *******/

  /** Characters needed for k bytes. */
  function CharCount(k: nat): nat {
    (8 * k + 4) / 5
  }

  lemma {:induction false} CharCountFits(k: nat)
    ensures WholeBytes(CharCount(k)) && ByteCount(CharCount(k)) == k && Spare(CharCount(k)) <= 4
  {
    if k >= 5 {
      CharCountFits(k - 5);
      assert CharCount(k) == CharCount(k - 5) + 8;
      LengthStep(CharCount(k));
    }
  }

  /** A number written with n characters. */
  function Numeral(x: nat, n: nat): (s: string)
    ensures |s| == n && AllBase32(s)
  {
    Chars(ToDigits(32, x, n))
  }

  lemma NumeralNumber(x: nat, n: nat)
    requires x < Pow(32, n)
    ensures Num(32, Vals(Numeral(x, n))) == x
  {
    hide Num, Pow, Vals, Chars;
    NumToDigits(32, x, n);
    ValsChars(ToDigits(32, x, n));
  }

  /** Room for the spare bits. */
  function Shifted(x: nat, spare: nat): nat {
    x * Pow(2, spare)
  }

  /** The bytes in base32, the unused bits of the last character zero. */
  function Encode(bytes: Bytes): (s: string)
    ensures |s| == CharCount(|bytes|) && AllBase32(s)
  {
    var n := CharCount(|bytes|);
    Numeral(Shifted(Num(256, bytes), Spare(n)), n)
  }

  lemma EncodeFits(bytes: Bytes)
    requires AreDigits(256, bytes)
    ensures Shifted(Num(256, bytes), Spare(CharCount(|bytes|))) < Pow(32, CharCount(|bytes|))
  {
    hide Pow, Num, Spare, CharCount, WholeBytes, ByteCount;
    var n := CharCount(|bytes|);
    CharCountFits(|bytes|);
    BitsOfText(n);
    NumBound(256, bytes);
    MulMono(Num(256, bytes) + 1, Pow(256, |bytes|), Pow(2, Spare(n)));
    Distribute(Num(256, bytes), 1, Pow(2, Spare(n)));
  }

  lemma EncodeNumber(bytes: Bytes)
    requires AreDigits(256, bytes)
    ensures Num(32, Vals(Encode(bytes))) == Shifted(Num(256, bytes), Spare(CharCount(|bytes|)))
  {
    hide Pow, Num, Spare, CharCount, Vals, Shifted, Numeral;
    EncodeFits(bytes);
    NumeralNumber(Shifted(Num(256, bytes), Spare(CharCount(|bytes|))), CharCount(|bytes|));
  }

  /** Decoding inverts encoding, on all byte strings. */
  lemma DecodeEncode(bytes: Bytes)
    requires AreDigits(256, bytes)
    ensures WholeBytes(CharCount(|bytes|)) && Quanta(Encode(bytes)) == bytes
  {
    hide Pow, Num, Spare, CharCount, Encode, WholeBytes, ByteCount, Quanta, Vals;
    CharCountFits(|bytes|);
    EncodeNumber(bytes);
    QuantaNumber(Encode(bytes));
    var p := Pow(2, Spare(CharCount(|bytes|)));
    Distribute(Num(256, bytes), 1, p);
    FloorUnique(Num(256, Quanta(Encode(bytes))), Num(256, bytes), Num(256, bytes) * p, p);
    NumInjective(256, Quanta(Encode(bytes)), bytes);
  }

  /******* A prefix of the bytes *******/

  /** The first bytes are determined by the first characters, if those cover them. */
  lemma PrefixNumber(t: string, chars: nat, bytes: nat, spare: nat)
    requires WholeBytes(|t|) && chars <= |t| && bytes <= |Quanta(t)| && 5 * chars == 8 * bytes + spare
    ensures Floor(Num(256, Quanta(t)[..bytes]), Num(32, Vals(t[..chars])), Pow(2, spare))
  {
    hide Pow, Num, WholeBytes, Quanta, Vals, Spare, ByteCount;
    var q := Quanta(t);
    assert q == q[..bytes] + q[bytes..];
    NumAppend(256, q[..bytes], q[bytes..]);
    NumBound(256, q[bytes..]);
    ValsSlice(t, chars);
    assert Vals(t) == Vals(t[..chars]) + Vals(t[chars..]);
    NumAppend(32, Vals(t[..chars]), Vals(t[chars..]));
    NumBound(32, Vals(t[chars..]));
    QuantaNumber(t);
    TailBits(|t|, chars, bytes, spare);
    FloorOfPrefix(Num(256, q[..bytes]), Num(256, q[bytes..]), Pow(256, |q| - bytes),
                  Num(32, Vals(t[..chars])), Num(32, Vals(t[chars..])), Pow(32, |t| - chars),
                  Pow(2, Spare(|t|)), Pow(2, spare));
  }

  /** 256^(bytes left) * 2^spare = 2^(spare cut) * 32^(characters left) */
  lemma TailBits(n: nat, chars: nat, bytes: nat, spare: nat)
    requires chars <= n && bytes <= ByteCount(n) && 5 * chars == 8 * bytes + spare
    ensures Pow(256, ByteCount(n) - bytes) * Pow(2, Spare(n)) == Pow(2, spare) * Pow(32, n - chars)
  {
    hide Pow;
    var k := ByteCount(n);
    assert 5 * n == 8 * k + Spare(n);
    PowSmall();
    PowPower(5, n - chars);
    PowPower(8, k - bytes);
    PowAdd(2, 8 * (k - bytes), Spare(n));
    PowAdd(2, spare, 5 * (n - chars));
    assert 8 * (k - bytes) + Spare(n) == spare + 5 * (n - chars);
  }

  /** Dropping low digits and spare bits in either order. */
  lemma FloorOfPrefix(m: nat, mLow: nat, a: nat, n: nat, nLow: nat, b: nat, s: nat, t: nat)
    requires mLow < a && nLow < b && a * s == t * b
    requires Floor(m * a + mLow, n * b + nLow, s)
    ensures Floor(m, n, t)
  {
    // m*t*b <= n*b + nLow < (m + 1)*t*b
    MulAssoc(m, a, s);
    MulAssoc(m, t, b);
    MulMono(m * a, m * a + mLow, s);
    MulMono(m * a + mLow + 1, (m + 1) * a, s);
    MulAssoc(m + 1, a, s);
    MulAssoc(m + 1, t, b);
    assert m * t * b <= n * b + nLow < (m + 1) * t * b;
    if n < m * t {
      MulMono(n + 1, m * t, b);
      Distribute(n, 1, b);
      assert false;
    } else if (m + 1) * t <= n {
      MulMono((m + 1) * t, n, b);
      assert false;
    }
  }
}
