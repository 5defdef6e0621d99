/** The copy loop of `base64ToUint8Array` (src/lib/gtfs/api.ts:15-23) after
    `atob`: each character code of the binary string is stored into a
    `Uint8Array`, which keeps it modulo 256. `atob` yields only codes below
    256, where a JavaScript UTF-16 code unit and a Dafny `char` agree. */
module ByteCopy {
  newtype uint8 = x: int | 0 <= x < 256

  /** What storing character code `c` into a Uint8Array element keeps. */
  function ToUint8(c: char): (b: uint8)
    ensures b as int == c as int % 256
    ensures c as int < 256 ==> b as int == c as int
  {
    (c as int % 256) as uint8
  }

  /** The bytes of a binary string. */
  function BinaryBytes(binary: string): (bytes: seq<uint8>)
    ensures |bytes| == |binary|
    ensures forall i :: 0 <= i < |binary| ==> bytes[i] == ToUint8(binary[i])
  {
    seq(|binary|, i requires 0 <= i < |binary| => ToUint8(binary[i]))
  }

  /** The binary string of a byte sequence, one character per byte, as
      `atob` produces it. */
  function BinaryString(bytes: seq<uint8>): (s: string)
    ensures |s| == |bytes|
    ensures forall i :: 0 <= i < |bytes| ==> s[i] as int == bytes[i] as int
  {
    seq(|bytes|, i requires 0 <= i < |bytes| => (bytes[i] as int) as char)
  }

  /** A binary string is one whose code units are all below 256. */
  predicate IsBinary(s: string)
  {
    forall i :: 0 <= i < |s| ==> s[i] as int < 256
  }

  /** The copy loses nothing on the strings `atob` returns: the bytes decode
      back to the same string, and every byte sequence survives the trip. */
  lemma BinaryRoundTrip(s: string, bytes: seq<uint8>)
    ensures IsBinary(s) ==> BinaryString(BinaryBytes(s)) == s
    ensures BinaryBytes(BinaryString(bytes)) == bytes
    ensures IsBinary(BinaryString(bytes))
  {
    if IsBinary(s) {
      var t := BinaryString(BinaryBytes(s));
      assert forall i :: 0 <= i < |s| ==> t[i] as int == s[i] as int;
    }
    var u := BinaryBytes(BinaryString(bytes));
    assert forall i :: 0 <= i < |bytes| ==> u[i] as int == bytes[i] as int;
  }

  /** `new Uint8Array(len)` filled by the for-loop. */
  method BinaryStringToBytes(binary: string) returns (bytes: array<uint8>)
    ensures fresh(bytes)
    ensures bytes[..] == BinaryBytes(binary)
  {
    bytes := new uint8[|binary|];
    for i := 0 to |binary|
      invariant forall j :: 0 <= j < i ==> bytes[j] == ToUint8(binary[j])
    {
      bytes[i] := ToUint8(binary[i]);
    }
  }
}
