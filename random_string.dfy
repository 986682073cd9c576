/** The character encoder of `getRandomString`: every random byte becomes one
    character of the 94-character printable ASCII range '!' .. '~'.
    The bytes are a parameter; where they come from (the host's entropy
    source) is not part of this module. */
module RandomString {

  /** One element of the Uint8Array that the entropy source fills. */
  newtype Byte = b: int | 0 <= b < 256

  /** The alphabet: AlphabetSize code points starting at FirstCode ('!'). */
  const AlphabetSize: int := 94
  const FirstCode: int := 33

  predicate IsPrintable(c: char) {
    FirstCode <= c as int < FirstCode + AlphabetSize
  }

  predicate IsPrintableString(s: string) {
    forall i :: 0 <= i < |s| ==> IsPrintable(s[i])
  }

  /** The character one random byte stands for: code `(c % 94) + 33`. */
  function CharOf(c: Byte): (ch: char)
    ensures IsPrintable(ch)
    ensures ch as int - FirstCode == c as int % AlphabetSize
  {
    ((c as int % AlphabetSize) + FirstCode) as char
  }

  /** `getRandomString` once its random bytes are drawn: one character per
      byte, in order. */
  function GetRandomString(randomValues: seq<Byte>): (s: string)
    ensures |s| == |randomValues|
    ensures IsPrintableString(s)
    ensures forall i :: 0 <= i < |s| ==> s[i] == CharOf(randomValues[i])
  {
    if randomValues == [] then ""
    else [CharOf(randomValues[0])] + GetRandomString(randomValues[1..])
  }

  /** The smallest byte that encodes a printable character. */
  function ByteOf(ch: char): (b: Byte)
    requires IsPrintable(ch)
    ensures CharOf(b) == ch
    ensures (b as int) < AlphabetSize
  {
    (ch as int - FirstCode) as Byte
  }

  /** The smallest random bytes that encode a printable string. */
  function BytesOf(s: string): (bytes: seq<Byte>)
    requires IsPrintableString(s)
    ensures |bytes| == |s|
    ensures forall i :: 0 <= i < |bytes| ==> bytes[i] == ByteOf(s[i])
  {
    if s == "" then [] else [ByteOf(s[0])] + BytesOf(s[1..])
  }

  /** Two bytes give the same character exactly when they agree modulo 94. */
  lemma SameCharIffSameResidue(b1: Byte, b2: Byte)
    ensures CharOf(b1) == CharOf(b2) <==> b1 as int % AlphabetSize == b2 as int % AlphabetSize
  {
    var c1, c2 := CharOf(b1), CharOf(b2);
    if c1 == c2 {
      assert c1 as int == c2 as int;
    }
  }

  /** Every printable string is a possible output: the encoder reaches the
      whole alphabet at every position. */
  lemma {:induction false} EveryPrintableStringReachable(s: string)
    requires IsPrintableString(s)
    ensures GetRandomString(BytesOf(s)) == s
  {
    if s != "" {
      EveryPrintableStringReachable(s[1..]);
      assert BytesOf(s) == [ByteOf(s[0])] + BytesOf(s[1..]);
    }
  }

  /** Decoding an output recovers the random bytes modulo 94, and nothing
      more: the quotient `c / 94` of each byte is lost. */
  lemma DecodeRecoversResidues(randomValues: seq<Byte>)
    ensures var decoded := BytesOf(GetRandomString(randomValues));
      |decoded| == |randomValues| &&
      forall i :: 0 <= i < |decoded| ==> decoded[i] as int == randomValues[i] as int % AlphabetSize
  {
    var s := GetRandomString(randomValues);
    var decoded := BytesOf(s);
    forall i | 0 <= i < |decoded|
      ensures decoded[i] as int == randomValues[i] as int % AlphabetSize
    {
      assert CharOf(decoded[i]) == CharOf(randomValues[i]);
      SameCharIffSameResidue(decoded[i], randomValues[i]);
    }
  }
}
