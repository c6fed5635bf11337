/**
 `VerifySignature`: who signed a text. Recovering a public key and hashing the text are taken as
 one unknown function of the text and the 65 signature bytes.
 */
module Signature {
  import opened Basics
  import opened Hex

  type Byte = n: int | 0 <= n < 256

  /** Everything the code gets from libraries whose inner workings are not modelled. */
  datatype Oracle = Oracle(
    keccak: Keccak,
    recover: (string, seq<Byte>) -> Option<Address>,
    stripTags: string -> string)

  const RECOVERY_ID_OFFSET := 64

  // ---------- decoding ----------

  /** `hexutil.Decode`: the prefix is required, the digits must be complete and all valid. */
  function DecodeSignature(s: string): Option<seq<Byte>> {
    if !HasPrefix(s) || |s| % 2 == 1 then None
    else if exists i | 2 <= i < |s| :: ParseDigit(s[i]).None? then None
    else Some(seq(|s| / 2 - 1, i requires 0 <= i < |s| / 2 - 1 =>
      ByteAt(ParseDigit(s[2 * i + 2]), ParseDigit(s[2 * i + 3]))))
  }

  function ByteAt(high: Option<Nibble>, low: Option<Nibble>): Byte
    requires high.Some? && low.Some?
  {
    16 * high.value + low.value
  }

  /** The hex digits of the bytes, high digit first. */
  function NibblesOf(bytes: seq<Byte>): (ds: seq<Nibble>)
    ensures |ds| == 2 * |bytes|
  {
    seq(2 * |bytes|, i requires 0 <= i < 2 * |bytes| => if i % 2 == 0 then bytes[i / 2] / 16 else bytes[i / 2] % 16)
  }

  /** The text of the bytes as wallets print it. */
  function Printed(bytes: seq<Byte>): string {
    var ds := NibblesOf(bytes);
    "0x" + seq(|ds|, i requires 0 <= i < |ds| => LOWER[ds[i]])
  }

  /** Exactly the texts that spell the bytes after the prefix, in letters of either case, are decoded to them. */
  lemma DecodesExactlySpellings(s: string, bytes: seq<Byte>)
    ensures DecodeSignature(s) == Some(bytes) <==> HasPrefix(s) && Spells("0x" + s[2..], NibblesOf(bytes))
  {
    if HasPrefix(s) && Spells("0x" + s[2..], NibblesOf(bytes)) {
      SpelledIsDecoded(s, bytes);
    }
    if DecodeSignature(s) == Some(bytes) {
      DecodedIsSpelled(s, bytes);
    }
  }

  lemma SpelledIsDecoded(s: string, bytes: seq<Byte>)
    requires HasPrefix(s) && Spells("0x" + s[2..], NibblesOf(bytes))
    ensures DecodeSignature(s) == Some(bytes)
  {
    DigitsInPlace(s, NibblesOf(bytes));
    assert |s| == 2 * |bytes| + 2;
    hide Spells, NibblesOf, ParseDigit;
    assert DecodeSignature(s).Some? && |DecodeSignature(s).value| == |bytes|;
    hide DecodeSignature;
    forall i | 0 <= i < |bytes| ensures DecodeSignature(s).value[i] == bytes[i] {
      PairInPlace(s, bytes, i);
      DecodedAt(s, i);
    }
    assert DecodeSignature(s).value == bytes;
  }

  lemma PairInPlace(s: string, bytes: seq<Byte>, i: nat)
    requires |s| >= 2 && Spells("0x" + s[2..], NibblesOf(bytes)) && i < |bytes|
    ensures |s| == 2 * |bytes| + 2
    ensures ParseDigit(s[2 * i + 2]) == Some(bytes[i] / 16) && ParseDigit(s[2 * i + 3]) == Some(bytes[i] % 16)
  {
    var ds := NibblesOf(bytes);
    assert ds[2 * i] == bytes[i] / 16 && ds[2 * i + 1] == bytes[i] % 16;
    hide NibblesOf;
    DigitsInPlace(s, ds);
  }

  lemma DigitsInPlace(s: string, ds: seq<Nibble>)
    requires |s| >= 2 && Spells("0x" + s[2..], ds)
    ensures |s| == |ds| + 2
    ensures forall i | 2 <= i < |s| :: ParseDigit(s[i]) == Some(ds[i - 2])
  {
    forall i | 2 <= i < |s| ensures ParseDigit(s[i]) == Some(ds[i - 2]) {
      assert ParseDigit(("0x" + s[2..])[i - 2 + 2]) == Some(ds[i - 2]);
    }
  }

  lemma DecodedIsSpelled(s: string, bytes: seq<Byte>)
    requires DecodeSignature(s) == Some(bytes)
    ensures HasPrefix(s) && Spells("0x" + s[2..], NibblesOf(bytes))
  {
    var t, ds := "0x" + s[2..], NibblesOf(bytes);
    assert |t| == |ds| + 2 && t[0] == '0' && t[1] == 'x';
    hide DecodeSignature, ParseDigit;
    forall i | 0 <= i < |ds| ensures ParseDigit(t[i + 2]) == Some(ds[i]) {
      DecodedPair(s, bytes, i / 2);
      assert t[i + 2] == s[i + 2];
    }
  }

  lemma DecodedPair(s: string, bytes: seq<Byte>, i: nat)
    requires DecodeSignature(s) == Some(bytes) && i < |bytes|
    ensures ParseDigit(s[2 * i + 2]) == Some(bytes[i] / 16) && ParseDigit(s[2 * i + 3]) == Some(bytes[i] % 16)
  {
    DecodedAt(s, i);
  }

  lemma DecodedAt(s: string, i: nat)
    requires DecodeSignature(s).Some? && i < |DecodeSignature(s).value|
    ensures var high, low := ParseDigit(s[2 * i + 2]), ParseDigit(s[2 * i + 3]);
      high.Some? && low.Some? && DecodeSignature(s).value[i] == 16 * high.value + low.value
  {
    assert ParseDigit(s[2 * i + 2]).Some? && ParseDigit(s[2 * i + 3]).Some?;
  }

  /** Decoding inverts printing. */
  lemma PrintedIsDecoded(bytes: seq<Byte>)
    ensures DecodeSignature(Printed(bytes)) == Some(bytes)
  {
    var s, ds := Printed(bytes), NibblesOf(bytes);
    assert "0x" + s[2..] == s;
    forall i | 0 <= i < |ds| ensures ParseDigit(s[i + 2]) == Some(ds[i]) {
      DigitIsRead(ds[i]);
    }
    DecodesExactlySpellings(s, bytes);
  }

  /** Legacy clients number the recovery byte from 27. */
  function Normalized(sig: seq<Byte>): seq<Byte>
    requires |sig| > RECOVERY_ID_OFFSET
  {
    if sig[RECOVERY_ID_OFFSET] >= 27
    then sig[RECOVERY_ID_OFFSET := sig[RECOVERY_ID_OFFSET] - 27]
    else sig
  }

  function SignedText(message: string, nonce: Option<Hash>): string {
    match nonce
    case Some(n) => SignData(message, n)
    case None => message
  }

  /** Text and signature lead to the account whose EIP-55 string is `addr`. */
  ghost predicate RecoversTo(o: Oracle, text: string, sig: seq<Byte>, addr: string) {
    exists signer: Address :: o.recover(text, sig) == Some(signer) && addr == Checksum(o.keccak, signer)
  }

  /** The address spelled `addr` in EIP-55 form signed the message under the nonce. */
  ghost predicate SignedBy(o: Oracle, addr: string, sign: string, message: string, nonce: Option<Hash>) {
    var sig := DecodeSignature(sign);
    && sig.Some?
    && |sig.value| > RECOVERY_ID_OFFSET
    && RecoversTo(o, SignedText(message, nonce), Normalized(sig.value), addr)
  }

  /**
   A wallet's 65 bytes reach the recovery as they are, but for a last byte of 27 or more, which is lowered by
   27; and the recovered account's EIP-55 string is what the address is compared with.
   */
  lemma WalletSignature(o: Oracle, addr: string, bytes: seq<Byte>, v: Byte, message: string, nonce: Option<Hash>)
    requires |bytes| == 64
    ensures var text := if nonce.Some? then message + "\n(nonce: " + HashHex(nonce.value) + ")" else message;
      SignedBy(o, addr, Printed(bytes + [v]), message, nonce) <==>
        exists signer: Address ::
          && o.recover(text, bytes + [if v >= 27 then v - 27 else v]) == Some(signer)
          && addr == Checksum(o.keccak, signer)
  {
    WalletRecovers(o, addr, bytes, v, message, nonce);
    hide SignedBy, Printed, HashHex, Checksum;
  }

  lemma WalletRecovers(o: Oracle, addr: string, bytes: seq<Byte>, v: Byte, message: string, nonce: Option<Hash>)
    requires |bytes| == 64
    ensures SignedBy(o, addr, Printed(bytes + [v]), message, nonce) <==>
      RecoversTo(o, if nonce.Some? then message + "\n(nonce: " + HashHex(nonce.value) + ")" else message,
                 bytes + [if v >= 27 then v - 27 else v], addr)
  {
    PrintedIsDecoded(bytes + [v]);
    LastByteLowered(bytes, v);
    hide Printed, DecodeSignature, Normalized, HashHex, RecoversTo;
  }

  lemma WalletSignatures(o: Oracle, addr: string, sign: string, message: string, nonce: Option<Hash>)
    ensures forall bytes: seq<Byte>, v: Byte | |bytes| == 64 && sign == Printed(bytes + [v]) ::
      (SignedBy(o, addr, sign, message, nonce) <==>
        RecoversTo(o, if nonce.Some? then message + "\n(nonce: " + HashHex(nonce.value) + ")" else message,
                   bytes + [if v >= 27 then v - 27 else v], addr))
  {
    hide SignedBy, RecoversTo, Printed, HashHex;
    forall bytes: seq<Byte>, v: Byte | |bytes| == 64 && sign == Printed(bytes + [v])
      ensures SignedBy(o, addr, sign, message, nonce) <==>
        RecoversTo(o, if nonce.Some? then message + "\n(nonce: " + HashHex(nonce.value) + ")" else message,
                   bytes + [if v >= 27 then v - 27 else v], addr)
    {
      WalletRecovers(o, addr, bytes, v, message, nonce);
    }
  }

  lemma LastByteLowered(bytes: seq<Byte>, v: Byte)
    requires |bytes| == 64
    ensures |bytes + [v]| > RECOVERY_ID_OFFSET
    ensures Normalized(bytes + [v]) == bytes + [if v >= 27 then v - 27 else v]
  {
  }

  // ---------- the check ----------

  /**
   `VerifySignature`. It accepts exactly the signatures of `SignedBy`; of a wallet's signature only the
   last byte is changed before recovery. A decoded signature shorter than 65 bytes makes the index
   expression panic instead of returning an error.
   */
  method VerifySignature(o: Oracle, addr: string, sign: string, message: string, nonce: Option<Hash>)
      returns (r: Result<()>)
    ensures r.Ok? <==> SignedBy(o, addr, sign, message, nonce)
    ensures r == Err(RuntimePanic) <==>
      DecodeSignature(sign).Some? && |DecodeSignature(sign).value| <= RECOVERY_ID_OFFSET
    ensures r == Err(MalformedSignature) <==> DecodeSignature(sign).None?
    ensures forall bytes: seq<Byte>, v: Byte | |bytes| == 64 && sign == Printed(bytes + [v]) ::
      (r.Ok? <==> RecoversTo(o, if nonce.Some? then message + "\n(nonce: " + HashHex(nonce.value) + ")" else message,
                             bytes + [if v >= 27 then v - 27 else v], addr))
  {
    WalletSignatures(o, addr, sign, message, nonce);
    hide Checksum, SignData, HashHex, Printed, DecodeSignature;

    var decoded := DecodeSignature(sign);
    if decoded.None? {
      return Err(MalformedSignature);
    }
    var sig := decoded.value;
    if |sig| <= RECOVERY_ID_OFFSET {
      return Err(RuntimePanic);
    }
    var buffer := new Byte[|sig|](i requires 0 <= i < |sig| => sig[i]);
    if buffer[RECOVERY_ID_OFFSET] >= 27 {
      buffer[RECOVERY_ID_OFFSET] := buffer[RECOVERY_ID_OFFSET] - 27;
    }
    assert buffer[..] == Normalized(sig);

    var signedData := match nonce { case Some(n) => SignData(message, n) case None => message };
    var signer := o.recover(signedData, buffer[..]);
    if signer.None? {
      return Err(BadSignature);
    }
    if addr != Checksum(o.keccak, signer.value) {
      return Err(BadSignature);
    }
    return Ok(());
  }

  /** A signature is accepted for at most one address string, which is in EIP-55 form. */
  lemma SignerIsCanonical(o: Oracle, a1: string, a2: string, sign: string, message: string, nonce: Option<Hash>)
    requires SignedBy(o, a1, sign, message, nonce) && SignedBy(o, a2, sign, message, nonce)
    ensures a1 == a2 == Checksum(o.keccak, HexToAddress(a1))
  {
    var sig := DecodeSignature(sign).value;
    var signer := o.recover(SignedText(message, nonce), Normalized(sig)).value;
    ChecksumSpells(o.keccak, signer);
  }

  /** Writing the recovery byte as v or as v + 27 gives the same verdict, for the two real values of v. */
  lemma LegacyRecoveryByte(o: Oracle, addr: string, s1: string, s2: string, message: string, nonce: Option<Hash>)
    requires DecodeSignature(s1).Some? && |DecodeSignature(s1).value| > RECOVERY_ID_OFFSET
    requires DecodeSignature(s1).value[RECOVERY_ID_OFFSET] < 27
    requires DecodeSignature(s2) == Some(DecodeSignature(s1).value[
      RECOVERY_ID_OFFSET := DecodeSignature(s1).value[RECOVERY_ID_OFFSET] + 27])
    ensures SignedBy(o, addr, s1, message, nonce) <==> SignedBy(o, addr, s2, message, nonce)
  {
    var sig1, sig2 := DecodeSignature(s1).value, DecodeSignature(s2).value;
    assert Normalized(sig2) == sig1 == Normalized(sig1);
  }
}
