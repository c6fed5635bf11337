/**
 Hexadecimal spellings of wallet addresses and nonces, as go-ethereum's `common` package
 reads and prints them, and the text users sign.
 */
module Hex {
  import opened Basics

  type Nibble = n: int | 0 <= n < 16

  function Pow16(k: nat): (r: nat)
    ensures r > 0
  {
    if k == 0 then 1 else 16 * Pow16(k - 1)
  }

  /** A 20-byte account address. */
  type Address = n: nat | n < 0x1_0000000000_0000000000_0000000000_0000000000
  /** A 32-byte nonce. */
  type Hash = n: nat | n < 0x1_00000000_00000000_00000000_00000000_00000000_00000000_00000000_00000000

  const ZERO_ADDRESS: Address := 0

  /** EIP-55 letters: the k-th hex nibble of Keccak-256 over the address's lower-case digits. */
  type Keccak = (Address, nat) -> Nibble

  // ---------- digits ----------

  const LOWER := "0123456789abcdef"
  const UPPER := "0123456789ABCDEF"

  function ParseDigit(c: char): Option<Nibble> {
    if '0' <= c <= '9' then Some(c as int - '0' as int)
    else if 'a' <= c <= 'f' then Some(c as int - 'a' as int + 10)
    else if 'A' <= c <= 'F' then Some(c as int - 'A' as int + 10)
    else None
  }

  function Value(ds: seq<Nibble>): (r: nat)
    ensures r < Pow16(|ds|)
  {
    if ds == [] then 0 else 16 * Value(ds[..|ds| - 1]) + ds[|ds| - 1]
  }

  function Digits(n: nat, k: nat): (ds: seq<Nibble>)
    ensures |ds| == k
  {
    if k == 0 then [] else Digits(n / 16, k - 1) + [n % 16]
  }

  lemma {:induction false} ValueOfDigits(n: nat, k: nat)
    requires n < Pow16(k)
    ensures Value(Digits(n, k)) == n
  {
    if k > 0 {
      ValueOfDigits(n / 16, k - 1);
      assert Digits(n, k)[..k - 1] == Digits(n / 16, k - 1);
    }
  }

  lemma {:induction false} DigitsOfValue(ds: seq<Nibble>)
    ensures Digits(Value(ds), |ds|) == ds
  {
    if ds != [] {
      DigitsOfValue(ds[..|ds| - 1]);
      assert ds == ds[..|ds| - 1] + [ds[|ds| - 1]];
    }
  }

  // ---------- reading ----------

  /** Digit pairs up to the first character that is not one, as `hex.DecodeString` returns them. */
  function DecodePairs(s: string): seq<Nibble> {
    if |s| < 2 then []
    else match (ParseDigit(s[0]), ParseDigit(s[1]))
      case (Some(a), Some(b)) => [a, b] + DecodePairs(s[2..])
      case _ => []
  }

  predicate HasPrefix(s: string) {
    |s| >= 2 && s[0] == '0' && (s[1] == 'x' || s[1] == 'X')
  }

  /** `common.FromHex`: the prefix is optional, an odd digit count is padded, errors truncate. */
  function FromHex(s: string): seq<Nibble> {
    var body := if HasPrefix(s) then s[2..] else s;
    DecodePairs(if |body| % 2 == 1 then "0" + body else body)
  }

  /** `SetBytes`: only the last `k` nibbles count, short input is padded on the left. */
  function LastNibbles(ds: seq<Nibble>, k: nat): (r: seq<Nibble>)
    ensures |r| <= k
  {
    if |ds| > k then ds[|ds| - k..] else ds
  }

  lemma Pow16Grows(j: nat, k: nat)
    requires j <= k
    ensures Pow16(j) <= Pow16(k)
  {
  }

  lemma {:induction false} Pow16Adds(j: nat, k: nat)
    ensures Pow16(j + k) == Pow16(j) * Pow16(k)
  {
    if k > 0 {
      Pow16Adds(j, k - 1);
      assert Pow16(j + k) == 16 * (Pow16(j) * Pow16(k - 1)) == Pow16(j) * (16 * Pow16(k - 1));
    }
  }

  lemma Pow16Of8()
    ensures Pow16(8) == 0x1_00000000
  {
    assert Pow16(4) == 0x1_0000;
  }

  lemma Pow16Of32()
    ensures Pow16(32) == 0x1_00000000_00000000_00000000_00000000
  {
    Pow16Of8();
    Pow16Adds(8, 8);
    Pow16Adds(16, 16);
  }

  /** The bound of `Address` is that of 40 hex digits. */
  lemma AddressWidth()
    ensures Pow16(40) == 0x1_0000000000_0000000000_0000000000_0000000000
  {
    Pow16Of8();
    Pow16Of32();
    Pow16Adds(32, 8);
  }

  /** The bound of `Hash` is that of 64 hex digits. */
  lemma HashWidth()
    ensures Pow16(64) == 0x1_00000000_00000000_00000000_00000000_00000000_00000000_00000000_00000000
  {
    Pow16Of32();
    Pow16Adds(32, 32);
  }

  function HexToAddress(s: string): Address {
    var ds := LastNibbles(FromHex(s), 40);
    Pow16Grows(|ds|, 40);
    AddressWidth();
    Value(ds)
  }

  function HexToHash(s: string): Hash {
    var ds := LastNibbles(FromHex(s), 64);
    Pow16Grows(|ds|, 64);
    HashWidth();
    Value(ds)
  }

  // ---------- printing ----------

  /** `Hash.Hex()` */
  function HashHex(h: Hash): string {
    var ds := Digits(h, 64);
    "0x" + seq(64, i requires 0 <= i < 64 => LOWER[ds[i]])
  }

  /** `Address.String()`: a letter is upper-cased when its hash nibble exceeds 7. */
  function Checksum(k: Keccak, a: Address): string {
    var ds := Digits(a, 40);
    "0x" + seq(40, i requires 0 <= i < 40 => if k(a, i) > 7 then UPPER[ds[i]] else LOWER[ds[i]])
  }

  /** The number without its last `j` hex digits. */
  function WithoutLast(n: nat, j: nat): nat {
    if j == 0 then n else WithoutLast(n / 16, j - 1)
  }

  lemma {:induction false} DigitAt(n: nat, k: nat, i: nat)
    requires i < k
    ensures Digits(n, k)[i] == WithoutLast(n, k - 1 - i) % 16
  {
    if i < k - 1 {
      DigitAt(n / 16, k - 1, i);
    }
  }

  /**
   EIP-55, character by character: a digit is printed as itself, and a letter is upper case exactly when the
   Keccak nibble at its place is 8 or more.
   */
  lemma ChecksumLetters(k: Keccak, a: Address, i: nat)
    requires i < 40
    ensures var d := WithoutLast(a, 39 - i) % 16; var c := Checksum(k, a)[i + 2];
      && (d < 10 ==> c as int == '0' as int + d)
      && (d >= 10 && k(a, i) >= 8 ==> c as int == 'A' as int + (d - 10))
      && (d >= 10 && k(a, i) < 8 ==> c as int == 'a' as int + (d - 10))
  {
    DigitAt(a, 40, i);
  }

  /** Nonces are printed in lower case, most significant digit first. */
  lemma HashLetters(h: Hash, i: nat)
    requires i < 64
    ensures var d := WithoutLast(h, 63 - i) % 16;
      HashHex(h)[i + 2] as int == (if d < 10 then '0' as int + d else 'a' as int + (d - 10))
  {
    DigitAt(h, 64, i);
  }

  // ---------- round trips ----------

  /** `s` spells the digits `ds` after "0x", with letters of either case. */
  predicate Spells(s: string, ds: seq<Nibble>) {
    && |s| == |ds| + 2
    && s[0] == '0' && s[1] == 'x'
    && forall i | 0 <= i < |ds| :: ParseDigit(s[i + 2]) == Some(ds[i])
  }

  lemma {:induction false} DecodeSpelled(s: string, ds: seq<Nibble>)
    requires |s| == |ds| && |s| % 2 == 0
    requires forall i | 0 <= i < |ds| :: ParseDigit(s[i]) == Some(ds[i])
    ensures DecodePairs(s) == ds
  {
    if |s| >= 2 {
      DecodeSpelled(s[2..], ds[2..]);
      assert ds == [ds[0], ds[1]] + ds[2..];
    }
  }

  lemma FromHexOfSpelling(s: string, ds: seq<Nibble>)
    requires Spells(s, ds) && |ds| % 2 == 0
    ensures FromHex(s) == ds
  {
    DecodeSpelled(s[2..], ds);
  }

  /** Every spelling of an address, whatever the case of its letters, is read as that address. */
  lemma AnySpellingIsRead(s: string, a: Address)
    requires Spells(s, Digits(a, 40))
    ensures HexToAddress(s) == a
  {
    FromHexOfSpelling(s, Digits(a, 40));
    AddressWidth();
    ValueOfDigits(a, 40);
  }

  lemma {:induction false} LeadingZero(ds: seq<Nibble>)
    ensures Value([0] + ds) == Value(ds)
  {
    if ds != [] {
      LeadingZero(ds[..|ds| - 1]);
      assert ([0] + ds)[..|ds|] == [0] + ds[..|ds| - 1];
    } else {
      assert ([0] + ds)[..0] == [];
    }
  }

  lemma FromHexOfAnyLength(s: string, ds: seq<Nibble>)
    requires Spells(s, ds)
    ensures FromHex(s) == if |ds| % 2 == 0 then ds else [0] + ds
  {
    if |ds| % 2 == 0 {
      FromHexOfSpelling(s, ds);
    } else {
      var padded, es := "0" + s[2..], [0] + ds;
      forall i | 0 <= i < |es| ensures ParseDigit(padded[i]) == Some(es[i]) {
        if i > 0 {
          assert padded[i] == s[i - 1 + 2] && es[i] == ds[i - 1];
        }
      }
      DecodeSpelled(padded, es);
    }
  }

  /** Digits missing on the left count as zeros, and of too many the last 40, or 64 for a nonce, are read. */
  lemma AnyLengthIsRead(s: string, ds: seq<Nibble>)
    requires Spells(s, ds)
    ensures HexToAddress(s) == Value(if |ds| > 40 then ds[|ds| - 40..] else ds)
    ensures HexToHash(s) == Value(if |ds| > 64 then ds[|ds| - 64..] else ds)
  {
    FromHexOfAnyLength(s, ds);
    LeadingZero(ds);
    var es := [0] + ds;
    assert |ds| >= 40 ==> es[|es| - 40..] == ds[|ds| - 40..];
    assert |ds| >= 64 ==> es[|es| - 64..] == ds[|ds| - 64..];
    assert ds[|ds| - |ds|..] == ds;
    hide Spells, FromHex, Value;
  }

  lemma ChecksumSpells(k: Keccak, a: Address)
    ensures Spells(Checksum(k, a), Digits(a, 40))
    ensures HexToAddress(Checksum(k, a)) == a
  {
    var ds := Digits(a, 40);
    forall i | 0 <= i < 40 ensures ParseDigit(Checksum(k, a)[i + 2]) == Some(ds[i]) {
      DigitIsRead(ds[i]);
    }
    AnySpellingIsRead(Checksum(k, a), a);
  }

  lemma DigitIsRead(d: Nibble)
    ensures ParseDigit(LOWER[d]) == Some(d) && ParseDigit(UPPER[d]) == Some(d)
  {
  }

  /** The shape the API demands of an address field: ^0x[a-fA-F0-9]{40}$. */
  predicate IsAddressPattern(s: string) {
    && |s| == 42 && s[0] == '0' && s[1] == 'x'
    && forall i | 2 <= i < 42 :: ParseDigit(s[i]).Some?
  }

  /**
   Parsing and printing sends all spellings of one address, and nothing else of that shape,
   to one string; so a lookup by any spelling uses the same key.
   */
  lemma OneCanonicalString(k: Keccak, s: string, t: string)
    requires IsAddressPattern(s) && IsAddressPattern(t)
    ensures Checksum(k, HexToAddress(s)) == Checksum(k, HexToAddress(t))
      <==> forall i | 2 <= i < 42 :: ParseDigit(s[i]) == ParseDigit(t[i])
  {
    var ds := SpelledDigits(s);
    var es := SpelledDigits(t);
    ReadDigits(s, ds);
    ReadDigits(t, es);
    ChecksumSpells(k, HexToAddress(s));
    ChecksumSpells(k, HexToAddress(t));
    hide Checksum, HexToAddress, Digits, Value, Spells, ParseDigit, IsAddressPattern;
    if Checksum(k, HexToAddress(s)) == Checksum(k, HexToAddress(t)) {
      OneReading(Checksum(k, HexToAddress(s)), ds, es);
      SpelledAlike(s, t, ds, es);
    }
    if forall i | 2 <= i < 42 :: ParseDigit(s[i]) == ParseDigit(t[i]) {
      SpelledAlike(s, t, ds, es);
    }
  }

  lemma SpelledAlike(s: string, t: string, ds: seq<Nibble>, es: seq<Nibble>)
    requires |ds| == |es| == 40 && Spells(s, ds) && Spells(t, es)
    ensures |s| == |t| == 42
    ensures ds == es <==> forall i | 2 <= i < 42 :: ParseDigit(s[i]) == ParseDigit(t[i])
  {
    forall i | 2 <= i < 42 ensures ParseDigit(s[i]) == Some(ds[i - 2]) && ParseDigit(t[i]) == Some(es[i - 2]) {
      assert ParseDigit(s[i - 2 + 2]) == Some(ds[i - 2]) && ParseDigit(t[i - 2 + 2]) == Some(es[i - 2]);
    }
    hide ParseDigit;
    if forall i | 2 <= i < 42 :: ParseDigit(s[i]) == ParseDigit(t[i]) {
      forall i | 0 <= i < 40 ensures ds[i] == es[i] {
        assert ParseDigit(s[i + 2]) == ParseDigit(t[i + 2]);
      }
    }
  }

  lemma OneReading(s: string, ds: seq<Nibble>, es: seq<Nibble>)
    requires Spells(s, ds) && Spells(s, es)
    ensures ds == es
  {
    forall i | 0 <= i < |ds| ensures ds[i] == es[i] {
      assert ParseDigit(s[i + 2]) == Some(ds[i]) && ParseDigit(s[i + 2]) == Some(es[i]);
    }
  }

  function SpelledDigits(s: string): (ds: seq<Nibble>)
    requires IsAddressPattern(s)
    ensures Spells(s, ds) && |ds| == 40
  {
    seq(40, i requires 0 <= i < 40 => ParseDigit(s[i + 2]).value)
  }

  lemma ReadDigits(s: string, ds: seq<Nibble>)
    requires Spells(s, ds) && |ds| == 40
    ensures HexToAddress(s) == Value(ds) && Digits(HexToAddress(s), 40) == ds
  {
    FromHexOfSpelling(s, ds);
    DigitsOfValue(ds);
  }

  /** Printing a nonce, storing the text and parsing it again gives the nonce back. */
  lemma NonceRoundTrip(h: Hash)
    ensures |HashHex(h)| == 66 && HexToHash(HashHex(h)) == h
  {
    var ds := Digits(h, 64);
    forall i | 0 <= i < 64 ensures ParseDigit(HashHex(h)[i + 2]) == Some(ds[i]) {
      DigitIsRead(ds[i]);
    }
    FromHexOfSpelling(HashHex(h), ds);
    HashWidth();
    ValueOfDigits(h, 64);
  }

  // ---------- the signed text ----------

  /** `GenerateSignData` of the server. */
  function SignData(message: string, nonce: Hash): string {
    message + "\n(nonce: " + HashHex(nonce) + ")"
  }

  /** `generateSignData` of the web client, which is given the stored text of the nonce. */
  function ClientSignData(message: string, nonceText: string): string {
    message + "\n(nonce: " + nonceText + ")"
  }

  /** Different messages or nonces never give the same text to sign. */
  lemma SignDataInjective(m1: string, n1: Hash, m2: string, n2: Hash)
    requires SignData(m1, n1) == SignData(m2, n2)
    ensures m1 == m2 && n1 == n2
  {
    NonceRoundTrip(n1);
    NonceRoundTrip(n2);
    var t1, t2 := SignData(m1, n1), SignData(m2, n2);
    assert |t1| == |m1| + 76 && |t2| == |m2| + 76;
    assert t1[..|m1|] == m1 && t2[..|m2|] == m2;
    assert t1[|m1| + 9..|m1| + 75] == HashHex(n1);
    assert t2[|m2| + 9..|m2| + 75] == HashHex(n2);
  }

  /** The client signs the stored text; the verifier rebuilds it from the parsed nonce. */
  lemma ClientAndServerAgree(message: string, nonce: Hash)
    ensures ClientSignData(message, HashHex(nonce)) == SignData(message, HexToHash(HashHex(nonce)))
  {
    NonceRoundTrip(nonce);
  }
}
