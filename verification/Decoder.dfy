/** The ERC-20 `Transfer` log decoder and the ABI encoding it inverts. */
module Decoder {
  import opened Types

  type Word = w: seq<Byte> | |w| == 32 witness seq(32, _ => 0)
  type Address = a: seq<Byte> | |a| == 20 witness seq(20, _ => 0)

  /** Topic 0 of the ERC-20 `Transfer(address,address,uint256)` event. */
  const TRANSFER_SIGNATURE: Word :=
    [0xdd, 0xf2, 0x52, 0xad, 0x1b, 0xe2, 0xc8, 0x9b, 0x69, 0xc2, 0xb0, 0x68, 0xfc, 0x37, 0x8d, 0xaa,
     0x95, 0x2b, 0xa7, 0xf1, 0x63, 0xc4, 0xa1, 0x16, 0x28, 0xf5, 0x5a, 0x4d, 0xf5, 0x23, 0xb3, 0xef]

  const PADDING: seq<Byte> := [0, 0, 0, 0, 0, 0, 0, 0, 0, 0, 0, 0]

  datatype LogData = LogData(address: Address, topics: seq<Word>, data: seq<Byte>)

  datatype Transfer = Transfer(from: Address, to: Address, value: nat)

  function FromBigEndian(bytes: seq<Byte>): nat {
    if bytes == [] then 0
    else FromBigEndian(bytes[..|bytes| - 1]) * 256 + bytes[|bytes| - 1]
  }

  function DecodeErc20Transfer(log: LogData): Option<Transfer> {
    if |log.topics| != 3 then None
    else if |log.data| != 32 then None
    else if log.topics[0] != TRANSFER_SIGNATURE then None
    else Some(Transfer(log.topics[1][12..], log.topics[2][12..], FromBigEndian(log.data)))
  }

  // ---------- the ABI encoding, as the reference ----------

  function Pow256(width: nat): (p: nat)
    ensures p > 0
  {
    if width == 0 then 1 else Pow256(width - 1) * 256
  }

  function ToBigEndian(value: nat, width: nat): (bytes: seq<Byte>)
    ensures |bytes| == width
  {
    if width == 0 then [] else ToBigEndian(value / 256, width - 1) + [value % 256]
  }

  function EncodeErc20Transfer(contract: Address, t: Transfer): LogData {
    LogData(contract, [TRANSFER_SIGNATURE, PADDING + t.from, PADDING + t.to], ToBigEndian(t.value, 32))
  }

  lemma {:induction false} BigEndianOfValue(value: nat, width: nat)
    requires value < Pow256(width)
    ensures FromBigEndian(ToBigEndian(value, width)) == value
  {
    if width > 0 {
      BigEndianOfValue(value / 256, width - 1);
      assert ToBigEndian(value, width)[..width - 1] == ToBigEndian(value / 256, width - 1);
    }
  }

  lemma SplitLowByte(high: nat, low: Byte)
    ensures (high * 256 + low) / 256 == high && (high * 256 + low) % 256 == low
  {
  }

  lemma {:induction false} BigEndianOfBytes(bytes: seq<Byte>)
    ensures FromBigEndian(bytes) < Pow256(|bytes|)
    ensures ToBigEndian(FromBigEndian(bytes), |bytes|) == bytes
  {
    if bytes != [] {
      var n: nat := |bytes| - 1;
      var high := FromBigEndian(bytes[..n]);
      BigEndianOfBytes(bytes[..n]);
      SplitLowByte(high, bytes[n]);
      assert FromBigEndian(bytes) == high * 256 + bytes[n];
      assert Pow256(n + 1) == Pow256(n) * 256;
      assert ToBigEndian(FromBigEndian(bytes), n + 1) == ToBigEndian(high, n) + [bytes[n]];
      assert bytes == bytes[..n] + [bytes[n]];
    }
  }

  lemma TimesByte(a: nat, b: nat)
    ensures a * b * 256 == a * (b * 256)
  {
  }

  /** Read from the other end: the first byte is the most significant one. */
  lemma {:induction false} FirstByteIsHighest(bytes: seq<Byte>)
    requires bytes != []
    ensures FromBigEndian(bytes) == bytes[0] * Pow256(|bytes| - 1) + FromBigEndian(bytes[1..])
  {
    var n: nat := |bytes| - 1;
    if n > 0 {
      FirstByteIsHighest(bytes[..n]);
      assert bytes[..n][1..] == bytes[1..][..n - 1];
      assert Pow256(n) == Pow256(n - 1) * 256;
      TimesByte(bytes[0], Pow256(n - 1));
    }
  }

  lemma {:induction false} Pow256Sum(a: nat, b: nat)
    ensures Pow256(a + b) == Pow256(a) * Pow256(b)
  {
    if b > 0 {
      var n: nat := b - 1;
      Pow256Sum(a, n);
      assert Pow256(a + b) == Pow256(a + n) * 256 && Pow256(b) == Pow256(n) * 256;
      TimesByte(Pow256(a), Pow256(n));
    }
  }

  /** A 32-byte word is below 2^256, and 2^256 is below 10^78: `NUMERIC(78,0)` holds every value. */
  lemma WordFitsNumeric78()
    ensures Pow256(32)
         <= 1_000_000_000_000_000_000_000_000_000_000_000_000_000_000_000_000_000_000_000_000_000_000_000_000_000_000
  {
    assert Pow256(4) == 0x1_0000_0000 by {
      assert Pow256(1) == 256;
      assert Pow256(2) == 65536;
      assert Pow256(3) == 16777216;
    }
    Pow256Sum(4, 4);
    Pow256Sum(8, 8);
    Pow256Sum(16, 16);
  }

  lemma DecodeInvertsEncode(contract: Address, t: Transfer)
    requires t.value < Pow256(32)
    ensures DecodeErc20Transfer(EncodeErc20Transfer(contract, t)) == Some(t)
  {
    BigEndianOfValue(t.value, 32);
    assert (PADDING + t.from)[12..] == t.from;
    assert (PADDING + t.to)[12..] == t.to;
  }

  /** Whatever decodes is an encoding, up to the twelve ignored bytes of each address topic. */
  lemma EncodeInvertsDecode(log: LogData)
    requires DecodeErc20Transfer(log).Some?
    ensures var t := DecodeErc20Transfer(log).value;
            && t.value < Pow256(32)
            && EncodeErc20Transfer(log.address, t)
               == log.(topics := [log.topics[0], Padded(log.topics[1]), Padded(log.topics[2])])
    ensures log.topics[1] == Padded(log.topics[1]) && log.topics[2] == Padded(log.topics[2]) ==>
              EncodeErc20Transfer(log.address, DecodeErc20Transfer(log).value) == log
  {
    BigEndianOfBytes(log.data);
    assert log.topics == [log.topics[0], log.topics[1], log.topics[2]];
  }

  /** What decodes, and where the fields come from: the last twenty bytes of two topics, and the data as a number. */
  lemma DecodesExactly(log: LogData)
    ensures DecodeErc20Transfer(log).Some?
       <==> |log.topics| == 3 && |log.data| == 32 && log.topics[0] == TRANSFER_SIGNATURE
    ensures DecodeErc20Transfer(log).Some? ==>
              var t := DecodeErc20Transfer(log).value;
              && (forall i :: 0 <= i < 20 ==> t.from[i] == log.topics[1][12 + i] && t.to[i] == log.topics[2][12 + i])
              && t.value == log.data[0] * Pow256(31) + FromBigEndian(log.data[1..])
  {
    if DecodeErc20Transfer(log).Some? {
      FirstByteIsHighest(log.data);
    }
  }

  /** An address topic with its twelve leading bytes cleared. */
  function Padded(topic: Word): Word {
    PADDING + topic[12..]
  }

  /** The decoder keeps every value inside the column type of the transfer tables. */
  lemma DecodedValueFits(log: LogData)
    requires DecodeErc20Transfer(log).Some?
    ensures DecodeErc20Transfer(log).value.value
            < 1_000_000_000_000_000_000_000_000_000_000_000_000_000_000_000_000_000_000_000_000_000_000_000_000_000_000
  {
    EncodeInvertsDecode(log);
    WordFitsNumeric78();
  }
}
