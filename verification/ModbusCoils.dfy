/** Bit-packed coils: eight to a byte, the lowest address in the lowest bit. */
module ModbusCoils {
  import opened Bytes

  function PackedLength(n: nat): nat { (n + 7) / 8 }

  /** Bit k of the packed bytes is values[k]; what is left of the last byte is zero. */
  ghost predicate IsPacked(bytes: seq<byte>, values: seq<bool>) {
    && |bytes| == PackedLength(|values|)
    && forall k: nat :: k < 8 * |bytes| ==> (PackedBit(bytes, k) <==> (k < |values| && values[k]))
  }

  predicate PackedBit(bytes: seq<byte>, k: nat)
    requires k < 8 * |bytes|
  {
    Bit(bytes[k / 8], k % 8)
  }

  /** The packing in WriteMultipleCoils. */
  method PackCoils(values: seq<bool>) returns (bytes: seq<byte>)
    ensures IsPacked(bytes, values)
  {
    var packed := new byte[PackedLength(|values|)](_ => 0);
    forall k: nat | k < 8 * packed.Length ensures !PackedBit(packed[..], k) {
      NoBitsBeyondWidth(0, 0, k % 8);
    }
    for i := 0 to |values|
      invariant forall k: nat :: k < 8 * packed.Length ==> (PackedBit(packed[..], k) <==> (k < i && values[k]))
    {
      if values[i] {
        ghost var before := packed[..];
        assert packed[i / 8] < Pow2(8) by { Pow2Of8(); }
        SetBitWidth(packed[i / 8], i % 8, 8);
        Pow2Of8();
        packed[i / 8] := WithBit(packed[i / 8], i % 8);
        forall k: nat | k < 8 * packed.Length
          ensures PackedBit(packed[..], k) <==> (k == i || PackedBit(before, k))
        {
          SetBit(before[i / 8], i % 8, k % 8);
        }
      }
    }
    bytes := packed[..];
  }

  lemma Pow2Of8()
    ensures Pow2(8) == 256
  {
    assert Pow2(4) == 16;
  }

  /** The packing is unique, so packing and reading bits back are inverse to each other. */
  lemma PackingIsUnique(a: seq<byte>, b: seq<byte>, values: seq<bool>)
    requires IsPacked(a, values) && IsPacked(b, values)
    ensures a == b
  {
    forall i | 0 <= i < |a| ensures a[i] == b[i] {
      forall j | 0 <= j < 8 ensures Bit(a[i], j) == Bit(b[i], j) {
        var k := 8 * i + j;
        assert k / 8 == i && k % 8 == j;
        assert PackedBit(a, k) == PackedBit(b, k);
      }
      Pow2Of8();
      BitsDetermine(a[i], b[i], 8);
    }
  }

  lemma UnpackingIsUnique(bytes: seq<byte>, u: seq<bool>, v: seq<bool>)
    requires IsPacked(bytes, u) && IsPacked(bytes, v) && |u| == |v|
    ensures u == v
  {
    forall k: nat | k < |u| ensures u[k] == v[k] {
      assert PackedBit(bytes, k) == u[k];
    }
  }
}
