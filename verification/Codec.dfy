/** The wire format of bit votes: a 16-bit length followed by the big-endian bytes of the vector. */
module Codec {
  newtype Byte = x: int | 0 <= x < 256

  datatype Error = TooShort | BadBitVote

  datatype Result<+T> = Ok(value: T) | Err(error: Error)

  /** A bit vote as a number: bit `i` of `vector` is attestation `i`. */
  datatype CodedVote = CodedVote(length: nat, vector: nat)

  /** Big-endian bytes without leading zeros. */
  function Bytes(n: nat): seq<Byte>
  {
    if n == 0 then [] else Bytes(n / 256) + [(n % 256) as Byte]
  }

  function Number(bytes: seq<Byte>): nat
  {
    if bytes == [] then 0 else Number(bytes[..|bytes| - 1]) * 256 + bytes[|bytes| - 1] as nat
  }

  function BitLen(n: nat): nat { if n == 0 then 0 else 1 + BitLen(n / 2) }

  function Encode(b: CodedVote): seq<Byte>
    requires b.length < 65536
  {
    [(b.length / 256) as Byte, (b.length % 256) as Byte] + Bytes(b.vector)
  }

  function Decode(bytes: seq<Byte>): Result<CodedVote>
  {
    if |bytes| < 2 then Err(TooShort)
    else
      var length := bytes[0] as nat * 256 + bytes[1] as nat;
      var vector := Number(bytes[2..]);
      if BitLen(vector) > length then Err(BadBitVote) else Ok(CodedVote(length, vector))
  }

  lemma {:induction false} NumberOfBytes(n: nat)
    ensures Number(Bytes(n)) == n
  {
    if n > 0 {
      NumberOfBytes(n / 256);
      assert Bytes(n)[..|Bytes(n)| - 1] == Bytes(n / 256);
    }
  }

  /** Round trip: a vector that fits its length comes back unchanged, and only such a vector does. */
  lemma DecodeEncode(b: CodedVote)
    requires b.length < 65536
    ensures Decode(Encode(b)) == if BitLen(b.vector) <= b.length then Ok(b) else Err(BadBitVote)
  {
    NumberOfBytes(b.vector);
    assert Encode(b)[2..] == Bytes(b.vector);
  }

  function Pow256(k: nat): nat { if k == 0 then 1 else 256 * Pow256(k - 1) }

  /** A byte with `k` bytes behind it weighs 256 to the power of `k`. */
  lemma {:induction false} ByteWeighs(b: Byte, rest: seq<Byte>)
    ensures Number([b] + rest) == b as nat * Pow256(|rest|) + Number(rest)
  {
    if rest == [] {
      assert [b] + rest == [b] && [b][..0] == [];
    } else {
      var front, last := rest[..|rest| - 1], rest[|rest| - 1];
      assert ([b] + rest)[..|rest|] == [b] + front;
      ByteWeighs(b, front);
      assert b as nat * Pow256(|rest|) == b as nat * Pow256(|front|) * 256;
    }
  }

  /** On the wire: the length is a big-endian 16-bit number, the vector follows without leading zeros. */
  lemma EncodeLayout(b: CodedVote)
    requires b.length < 65536
    ensures var bytes := Encode(b);
            && |bytes| >= 2 && bytes[0] as nat * 256 + bytes[1] as nat == b.length
            && Number(bytes[2..]) == b.vector && (|bytes| > 2 ==> bytes[2] != 0)
  {
    NumberOfBytes(b.vector);
    assert Encode(b)[2..] == Bytes(b.vector);
    if b.vector > 0 {
      NoLeadingZero(b.vector);
      assert Encode(b)[2] == Bytes(b.vector)[0];
    }
  }

  lemma {:induction false} NoLeadingZero(n: nat)
    requires n > 0
    ensures |Bytes(n)| > 0 && Bytes(n)[0] != 0
  {
    if n >= 256 {
      NoLeadingZero(n / 256);
    } else {
      assert Bytes(n / 256) == [];
    }
  }

  /** What is accepted and as what: a header whose two bytes weigh 256 and 1, and a vector that fits the length they give. */
  lemma DecodeLayout(bytes: seq<Byte>, length: nat, vector: nat)
    ensures Decode(bytes) == Ok(CodedVote(length, vector))
            <==> && |bytes| >= 2 && length == 256 * (bytes[0] as nat) + bytes[1] as nat
                 && vector == Number(bytes[2..]) && forall i :: i in Bits(vector) ==> i < length
  {
    BitLenBounds(vector, length);
  }

  function StripZeros(bytes: seq<Byte>): seq<Byte>
  {
    if bytes != [] && bytes[0] == 0 then StripZeros(bytes[1..]) else bytes
  }

  lemma {:induction false} StripAppend(bytes: seq<Byte>, b: Byte)
    ensures StripZeros(bytes + [b])
            == if StripZeros(bytes) == [] then StripZeros([b]) else StripZeros(bytes) + [b]
  {
    if bytes == [] {
      assert bytes + [b] == [b];
    } else if bytes[0] == 0 {
      assert (bytes + [b])[1..] == bytes[1..] + [b];
      StripAppend(bytes[1..], b);
    }
  }

  lemma {:induction false} BytesOfNumber(bytes: seq<Byte>)
    ensures Bytes(Number(bytes)) == StripZeros(bytes)
  {
    if bytes != [] {
      var front, last := bytes[..|bytes| - 1], bytes[|bytes| - 1];
      assert bytes == front + [last];
      BytesOfNumber(front);
      StripAppend(front, last);
      var n := Number(bytes);
      assert n / 256 == Number(front) && n % 256 == last as nat;
      if Number(front) == 0 && last == 0 {
        assert Bytes(Number(front)) == [];
      }
    }
  }

  /** The other round trip: re-encoding an accepted message only removes leading zero bytes of its vector. */
  lemma EncodeDecode(bytes: seq<Byte>)
    requires Decode(bytes).Ok?
    ensures Decode(bytes).value.length < 65536
    ensures Encode(Decode(bytes).value) == bytes[..2] + StripZeros(bytes[2..])
  {
    BytesOfNumber(bytes[2..]);
    var b := Decode(bytes).value;
    assert b.length / 256 == bytes[0] as nat && b.length % 256 == bytes[1] as nat;
  }

  /** The positions of the ones. */
  function Bits(n: nat): set<nat>
  {
    if n == 0 then {} else (if n % 2 == 1 then {0} else {}) + (set i | i in Bits(n / 2) :: i + 1)
  }

  lemma {:induction false} BitsHalve(n: nat, i: nat)
    ensures i + 1 in Bits(n) <==> i in Bits(n / 2)
    ensures 0 in Bits(n) <==> n % 2 == 1
  {
    if n > 0 {
      var shifted := set k | k in Bits(n / 2) :: k + 1;
      assert i + 1 in shifted <==> i in Bits(n / 2);
    }
  }

  /** A number fits `length` bits exactly if all its ones are below `length`. */
  lemma {:induction false} BitLenBounds(n: nat, length: nat)
    ensures BitLen(n) <= length <==> forall i :: i in Bits(n) ==> i < length
    decreases n
  {
    if n == 0 {
    } else if length == 0 {
      var i := TopBit(n);
    } else {
      BitLenBounds(n / 2, length - 1);
      if BitLen(n) <= length {
        forall i | i in Bits(n) ensures i < length {
          if i > 0 { BitsHalve(n, i - 1); }
        }
      } else {
        var k :| k in Bits(n / 2) && k >= length - 1;
        BitsHalve(n, k);
        assert k + 1 in Bits(n);
      }
    }
  }

  lemma {:induction false} BitFits(n: nat, length: nat, i: nat)
    requires BitLen(n) <= length && i in Bits(n)
    ensures i < length
    decreases n
  {
    if i > 0 {
      BitsHalve(n, i - 1);
      BitFits(n / 2, length - 1, i - 1);
    }
  }

  lemma {:induction false} TopBit(n: nat) returns (i: nat)
    requires n > 0
    ensures i in Bits(n)
  {
    if n / 2 == 0 {
      i := 0;
      BitsHalve(n, 0);
    } else {
      var k := TopBit(n / 2);
      BitsHalve(n, k);
      i := k + 1;
    }
  }

  /** Numbers and their sets of ones determine each other. */
  lemma {:induction false} BitsInjective(m: nat, n: nat)
    requires Bits(m) == Bits(n)
    ensures m == n
    decreases m + n
  {
    if m > 0 || n > 0 {
      BitsHalve(m, 0);
      BitsHalve(n, 0);
      forall i ensures i in Bits(m / 2) <==> i in Bits(n / 2) {
        BitsHalve(m, i);
        BitsHalve(n, i);
      }
      BitsInjective(m / 2, n / 2);
    }
  }
}
