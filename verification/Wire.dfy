/** What travels through the relay: bytes, endpoints, datagrams, and the 64-bit session id
    that both kinds of datagram carry in their first eight bytes. */
module Wire {

  type byte = x: int | 0 <= x < 256

  datatype Option<+T> = None | Some(value: T)

  datatype Endpoint = Endpoint(address: nat, port: nat)

  /** A datagram as received: who sent it, and the bytes delivered. */
  datatype Datagram = Datagram(from: Endpoint, bytes: seq<byte>)

  /** A datagram to be sent: the registered client it goes to, and its bytes. */
  datatype Message = Message(to: Endpoint, bytes: seq<byte>)

  type SessionId = nat

  const ID_SIZE: nat := 8
  const TWO_TO_THE_64: nat := 0x1_0000_0000_0000_0000

  function Pow256(n: nat): (p: nat)
    ensures p >= 1
  {
    if n == 0 then 1 else 256 * Pow256(n - 1)
  }

  function LittleEndian(s: seq<byte>): nat {
    if s == [] then 0 else s[0] + 256 * LittleEndian(s[1..])
  }

  /** The id is the first eight bytes read as a little-endian integer. */
  function GetSessionId(data: seq<byte>): SessionId
    requires |data| >= ID_SIZE
  {
    LittleEndian(data[..ID_SIZE])
  }

  /** The `n` low bytes of `v`, least significant first. */
  function Encode(v: nat, n: nat): (s: seq<byte>)
    ensures |s| == n
  {
    if n == 0 then [] else [v % 256] + Encode(v / 256, n - 1)
  }

  lemma {:induction false} LittleEndianBound(s: seq<byte>)
    ensures LittleEndian(s) < Pow256(|s|)
  {
    if s == [] {
    } else {
      LittleEndianBound(s[1..]);
    }
  }

  /** Byte i weighs 256^i: the bytes are read least significant first. */
  lemma {:induction false} ByteWeights(s: seq<byte>, b: byte)
    ensures LittleEndian(s + [b]) == LittleEndian(s) + b * Pow256(|s|)
  {
    if s == [] {
      assert ([] + [b])[1..] == [];
    } else {
      assert (s + [b])[1..] == s[1..] + [b];
      ByteWeights(s[1..], b);
      Weight(b, Pow256(|s| - 1));
    }
  }

  lemma Weight(b: nat, p: nat)
    ensures 256 * (b * p) == b * (256 * p)
  {}

  lemma LowByte(low: nat, rest: nat)
    requires low < 256
    ensures (low + 256 * rest) % 256 == low && (low + 256 * rest) / 256 == rest
  {}

  lemma {:induction false} EncodeOfDecode(s: seq<byte>)
    ensures Encode(LittleEndian(s), |s|) == s
  {
    if s == [] {
    } else {
      var rest := LittleEndian(s[1..]);
      LowByte(s[0], rest);
      EncodeOfDecode(s[1..]);
      assert s == [s[0]] + s[1..];
    }
  }

  lemma {:induction false} DecodeOfEncode(v: nat, n: nat)
    requires v < Pow256(n)
    ensures LittleEndian(Encode(v, n)) == v
  {
    if n == 0 {
    } else {
      DecodeOfEncode(v / 256, n - 1);
      assert Encode(v, n)[1..] == Encode(v / 256, n - 1);
    }
  }

  /** Two datagrams name the same session exactly when their first eight bytes agree:
      reading an id loses nothing, so no datagram can be filed under a foreign session. */
  lemma SameIdIffSamePrefix(a: seq<byte>, b: seq<byte>)
    requires |a| >= ID_SIZE && |b| >= ID_SIZE
    ensures GetSessionId(a) == GetSessionId(b) <==> a[..ID_SIZE] == b[..ID_SIZE]
  {
    EncodeOfDecode(a[..ID_SIZE]);
    EncodeOfDecode(b[..ID_SIZE]);
  }

  /** The ids that can be read are exactly the 64-bit integers. */
  lemma IdsAreTheSixtyFourBitIntegers(id: nat)
    ensures id < TWO_TO_THE_64 <==> exists data: seq<byte> :: |data| == ID_SIZE && GetSessionId(data) == id
  {
    assert Pow256(8) == TWO_TO_THE_64 by {
      assert Pow256(4) == 256 * 256 * 256 * 256;
      assert Pow256(6) == 256 * 256 * Pow256(4);
      assert Pow256(8) == 256 * 256 * Pow256(6);
    }
    if id < TWO_TO_THE_64 {
      DecodeOfEncode(id, ID_SIZE);
      var data := Encode(id, ID_SIZE);
      assert data[..ID_SIZE] == data;
      assert GetSessionId(data) == id;
    }
    forall data: seq<byte> | |data| == ID_SIZE && GetSessionId(data) == id
      ensures id < TWO_TO_THE_64
    {
      LittleEndianBound(data[..ID_SIZE]);
    }
  }
}
