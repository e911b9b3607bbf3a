/**
 The packing of 64-byte strings (`pack_array_string64` / `unpack_array_string64`).
 A stored string ends at its first zero byte; packing writes the bytes of the string
 and leaves the rest of the field as it was.
 */
module Pack {
  import opened Bytes

  const NAME_LEN := 64

  /** An `ArrayString64`, as its bytes. */
  type RawName = s: seq<byte> | |s| <= 64

  /** One that contains no zero byte. */
  type Name = s: RawName | 0 !in s

  /** A 32-byte address. */
  type Key = s: seq<byte> | |s| == 32 witness Zeros(32)

  /** `iter().position(|x| *x == 0)`, or the length when there is none. */
  function FirstZero(b: seq<byte>): (k: nat)
    ensures k <= |b|
    ensures forall i :: 0 <= i < k ==> b[i] != 0
    ensures k < |b| ==> b[k] == 0
  {
    if |b| == 0 || b[0] == 0 then 0 else 1 + FirstZero(b[1..])
  }

  function UnpackName(b: seq<byte>): Name
    requires |b| == NAME_LEN
  {
    b[..FirstZero(b)]
  }

  /** What `pack_array_string64` makes of a field that held `field`. */
  function NameOver(field: seq<byte>, s: RawName): (r: seq<byte>)
    requires |field| == NAME_LEN
    ensures |r| == NAME_LEN
  {
    if s == [] then Patch(field, 0, [0]) else Patch(field, 0, s)
  }

  /** A string followed by zero bytes only. */
  function Padded(s: RawName): (r: seq<byte>)
    ensures |r| == NAME_LEN
  {
    s + Zeros(NAME_LEN - |s|)
  }

  /** On a cleared field a string survives exactly when it has no zero byte in it. */
  lemma PaddedRoundTrip(s: RawName)
    ensures NameOver(Zeros(NAME_LEN), s) == Padded(s)
    ensures UnpackName(Padded(s)) == s <==> 0 !in s
  {
    if 0 !in s {
      var k := FirstZero(Padded(s));
      assert k < NAME_LEN ==> Padded(s)[k] == 0;
      assert |s| < NAME_LEN ==> Padded(s)[|s|] == 0;
      assert forall i :: 0 <= i < |s| ==> Padded(s)[i] == s[i] != 0;
    }
  }

  /** Two strings without zero bytes that are stored alike are equal. */
  lemma PaddedInjective(s: Name, t: Name)
    requires Padded(s) == Padded(t)
    ensures s == t
  {
    PaddedRoundTrip(s);
    PaddedRoundTrip(t);
  }

  /**
   On a field with old contents a string survives exactly when it is empty, fills the
   field, or happens to be followed by a zero byte already.
   */
  lemma NameOverRoundTrip(field: seq<byte>, s: Name)
    requires |field| == NAME_LEN
    ensures UnpackName(NameOver(field, s)) == s <==> s == [] || |s| == NAME_LEN || field[|s|] == 0
  {
    var r := NameOver(field, s);
    var k := FirstZero(r);
    if s == [] {
      assert r[0] == 0;
    } else {
      assert forall i :: 0 <= i < |s| ==> r[i] == r[0..|s|][i] == s[i] != 0;
      assert |s| < NAME_LEN ==> r[|s|] == field[|s|];
    }
  }

  /** Writing the same string again, or any string into a cleared field, leaves it padded. */
  lemma NameOverKeepsPadding(field: seq<byte>, s: Name)
    requires field == Padded(s) || field == Padded([])
    ensures NameOver(field, s) == Padded(s)
  {
    PaddedRoundTrip(s);
    assert Padded([]) == Zeros(NAME_LEN);
  }
}
