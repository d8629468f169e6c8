/** The bytes that occur in a block, numbered in ascending order. */
module InUse {
  import opened Bits

  type UseMap = s: seq<bool> | |s| == 256 witness seq(256, i => false)

  /** The used bytes below `n`. */
  function UsedBelow(inUse: UseMap, n: nat): (s: seq<byte>)
    requires n <= 256
    ensures |s| <= n
  {
    if n == 0 then [] else UsedBelow(inUse, n - 1) + (if inUse[n - 1] then [n - 1] else [])
  }

  /** The decoder's map from numbers to bytes. */
  function Used(inUse: UseMap): seq<byte> {
    UsedBelow(inUse, 256)
  }

  /** The encoder's map from bytes to numbers. */
  function Number(inUse: UseMap, b: byte): nat {
    |UsedBelow(inUse, b)|
  }

  lemma {:induction false} UsedPrefix(inUse: UseMap, m: nat, n: nat)
    requires m <= n <= 256
    ensures |UsedBelow(inUse, m)| <= |UsedBelow(inUse, n)|
    ensures UsedBelow(inUse, n)[..|UsedBelow(inUse, m)|] == UsedBelow(inUse, m)
  {
    if m < n { UsedPrefix(inUse, m, n - 1); }
  }

  /** The two maps are inverse to each other on used bytes. */
  lemma NumberOfUsed(inUse: UseMap, b: byte)
    requires inUse[b]
    ensures Number(inUse, b) < |Used(inUse)| && Used(inUse)[Number(inUse, b)] == b
  {
    UsedPrefix(inUse, b + 1, 256);
    var some := UsedBelow(inUse, b + 1);
    assert some[Number(inUse, b)] == b;
    assert Used(inUse)[..|some|][Number(inUse, b)] == b;
  }

  /** Numbers the used bytes for the encoder. */
  method MakeMapsE(inUse: UseMap, unseqToSeq: array<nat>) returns (nInUse: nat)
    requires unseqToSeq.Length == 256
    modifies unseqToSeq
    ensures nInUse == |Used(inUse)|
    ensures forall b :: 0 <= b < 256 && inUse[b] ==> unseqToSeq[b] == Number(inUse, b)
  {
    nInUse := 0;
    for i := 0 to 256
      invariant nInUse == |UsedBelow(inUse, i)|
      invariant forall b :: 0 <= b < i && inUse[b] ==> unseqToSeq[b] == Number(inUse, b)
    {
      if inUse[i] {
        unseqToSeq[i] := nInUse;
        nInUse := nInUse + 1;
      }
    }
  }

  /** Lists the used bytes for the decoder. */
  method MakeMapsD(inUse: UseMap) returns (seqToUnseq: seq<byte>)
    ensures seqToUnseq == Used(inUse)
  {
    seqToUnseq := [];
    for i := 0 to 256
      invariant seqToUnseq == UsedBelow(inUse, i)
    {
      if inUse[i] {
        seqToUnseq := seqToUnseq + [i];
      }
    }
  }
}
