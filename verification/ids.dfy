/**
 Identifier generation: GenID maps random bytes onto a 62-symbol alphabet;
 GenIDFromSeeed prints a hash of the seed in lower-case hexadecimal. The
 random bytes and the hash are inputs of the model.
 */
module Ids {
  import opened Common

  /** The dictionary GenID draws from: digits, upper case, lower case. */
  const Alphabet: string := Digits + Upper + Lower
  const Digits: string := "0123456789"
  const Upper: string := "ABCDEFGHIJKLMNOPQRSTUVWXYZ"
  const Lower: string := "abcdefghijklmnopqrstuvwxyz"

  /** Length of the name Put gives a record stored without one. */
  const GeneratedIdLength: nat := 64

  predicate IsAlphanumeric(c: char) {
    ('0' <= c <= '9') || ('A' <= c <= 'Z') || ('a' <= c <= 'z')
  }

  /** The symbol at position `j` of the dictionary, by arithmetic. */
  function Symbol(j: int): char
    requires 0 <= j < 62
  {
    if j < 10 then ('0' as int + j) as char
    else if j < 36 then ('A' as int + j - 10) as char
    else ('a' as int + j - 36) as char
  }

  lemma AlphabetSymbols()
    ensures |Alphabet| == 62
    ensures forall j :: 0 <= j < |Alphabet| ==> Alphabet[j] == Symbol(j)
    ensures forall j :: 0 <= j < |Alphabet| ==> IsAlphanumeric(Alphabet[j])
    ensures forall j, k :: 0 <= j < k < |Alphabet| ==> Alphabet[j] < Alphabet[k]
  {
    assert forall j :: 0 <= j < 10 ==> Digits[j] == Symbol(j);
    assert forall j :: 0 <= j < 26 ==> Upper[j] == Symbol(j + 10);
    assert forall j :: 0 <= j < 26 ==> Lower[j] == Symbol(j + 36);
    forall j | 0 <= j < 62
      ensures Alphabet[j] == Symbol(j)
    {
      if j < 10 {
        assert Alphabet[j] == Digits[j];
      } else if j < 36 {
        assert Alphabet[j] == Upper[j - 10];
      } else {
        assert Alphabet[j] == Lower[j - 36];
      }
    }
  }

  /** GenID(len(random)) with `random` the bytes crypto/rand filled in:
      byte `v` becomes dictionary[v % 62]. */
  function GenId(random: seq<byte>): (id: string)
    ensures |id| == |random|
    ensures forall i :: 0 <= i < |id| ==> IsAlphanumeric(id[i])
  {
    AlphabetSymbols();
    seq(|random|, i requires 0 <= i < |random| => Alphabet[random[i] as int % |Alphabet|])
  }

  /** The identifier records each byte modulo 62, and nothing more: two byte
      strings give the same identifier exactly when they agree modulo 62. */
  lemma GenIdResidues(a: seq<byte>, b: seq<byte>)
    requires |a| == |b|
    ensures GenId(a) == GenId(b) <==> forall i :: 0 <= i < |a| ==> a[i] as int % 62 == b[i] as int % 62
  {
    AlphabetSymbols();
    if GenId(a) == GenId(b) {
      forall i | 0 <= i < |a|
        ensures a[i] as int % 62 == b[i] as int % 62
      {
        assert GenId(a)[i] == GenId(b)[i];
      }
    }
  }

  /** The byte values that GenID turns into the symbol at `j`. */
  function Preimage(j: int): set<int> {
    set v | 0 <= v < 256 && v % 62 == j
  }

  /** 256 is not a multiple of 62: the first eight symbols ('0' to '7') each
      come from five byte values, the other 54 from four. */
  lemma PreimageSize(j: int)
    requires 0 <= j < 62
    ensures |Preimage(j)| == if j < 8 then 5 else 4
  {
    var four := {j, j + 62, j + 124, j + 186};
    if j < 8 {
      assert Preimage(j) == four + {j + 248};
    } else {
      assert Preimage(j) == four;
    }
  }

  /** The digits fmt's %x prints. */
  const HexDigits: string := "0123456789abcdef"

  predicate IsHexDigit(c: char) {
    ('0' <= c <= '9') || ('a' <= c <= 'f')
  }

  /** Text made of digit pairs. */
  predicate IsHexText(s: string) {
    |s| % 2 == 0 && forall i :: 0 <= i < |s| ==> IsHexDigit(s[i])
  }

  /** fmt.Sprintf("%x", b): two lower-case digits per byte, high nibble first. */
  function Hex(b: seq<byte>): (s: string)
    ensures |s| == 2 * |b|
    ensures IsHexText(s)
  {
    if |b| == 0 then ""
    else [HexDigits[b[0] as int / 16], HexDigits[b[0] as int % 16]] + Hex(b[1..])
  }

  function DigitValue(c: char): (v: int)
    requires IsHexDigit(c)
    ensures 0 <= v < 16 && HexDigits[v] == c
  {
    if c <= '9' then c as int - '0' as int else c as int - 'a' as int + 10
  }

  /** Reads back what Hex printed. */
  function Unhex(s: string): seq<byte>
    requires IsHexText(s)
  {
    if |s| == 0 then []
    else [(16 * DigitValue(s[0]) + DigitValue(s[1])) as byte] + Unhex(s[2..])
  }

  /** Each digit reads back as its own value. */
  lemma DigitRoundTrip(d: int)
    requires 0 <= d < 16
    ensures IsHexDigit(HexDigits[d])
    ensures DigitValue(HexDigits[d]) == d
  {
    if d < 10 {
      assert HexDigits[d] as int == '0' as int + d;
    } else {
      assert HexDigits[d] as int == 'a' as int + d - 10;
    }
  }

  /** A byte's two digits read back as the byte. */
  lemma ByteRoundTrip(v: int)
    requires 0 <= v < 256
    ensures IsHexDigit(HexDigits[v / 16]) && IsHexDigit(HexDigits[v % 16])
    ensures 16 * DigitValue(HexDigits[v / 16]) + DigitValue(HexDigits[v % 16]) == v
  {
    DigitRoundTrip(v / 16);
    DigitRoundTrip(v % 16);
  }

  /** Unhex reads two digits at a time from the front. */
  lemma UnhexCons(hi: char, lo: char, rest: string)
    requires IsHexDigit(hi) && IsHexDigit(lo)
    requires IsHexText(rest)
    ensures var s := [hi, lo] + rest;
            && IsHexText(s)
            && Unhex(s) == [(16 * DigitValue(hi) + DigitValue(lo)) as byte] + Unhex(rest)
  {
    var s := [hi, lo] + rest;
    assert s[2..] == rest;
    assert s[0] == hi && s[1] == lo;
    assert |s| % 2 == 0 by {
      assert |s| == |rest| + 2;
    }
    assert forall i :: 2 <= i < |s| ==> s[i] == rest[i - 2];
  }

  lemma {:induction false} UnhexHex(b: seq<byte>)
    ensures Unhex(Hex(b)) == b
  {
    if |b| > 0 {
      var v := b[0] as int;
      var hi, lo := HexDigits[v / 16], HexDigits[v % 16];
      assert Hex(b) == [hi, lo] + Hex(b[1..]);
      UnhexHex(b[1..]);
      ByteRoundTrip(v);
      UnhexCons(hi, lo, Hex(b[1..]));
      assert (16 * DigitValue(hi) + DigitValue(lo)) as byte == b[0];
      assert b == [b[0]] + b[1..];
    } else {
      assert Hex(b) == "";
    }
  }

  /** GenIDFromSeeed with `sum` the SHA-256 digest of the seed's bytes. */
  function GenIdFromSeed(seed: string, sha256: string -> seq<byte>): (id: string)
    ensures |id| == 2 * |sha256(seed)|
    ensures forall i :: 0 <= i < |id| ==> IsHexDigit(id[i])
  {
    Hex(sha256(seed))
  }

  /** Seeds with different digests get different identifiers: printing loses
      nothing. */
  lemma SeedIdsDistinct(s1: string, s2: string, sha256: string -> seq<byte>)
    requires sha256(s1) != sha256(s2)
    ensures GenIdFromSeed(s1, sha256) != GenIdFromSeed(s2, sha256)
  {
    UnhexHex(sha256(s1));
    UnhexHex(sha256(s2));
  }
}
