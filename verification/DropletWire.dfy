/** The binary form of a droplet: little-endian seed, degree and index count, the indices, the payload. */
module DropletWire {
  import opened Wrappers
  import opened Bytes
  import opened Fountain

  function Reverse<T>(s: seq<T>): (r: seq<T>)
    ensures |r| == |s|
  {
    seq(|s|, i requires 0 <= i < |s| => s[|s| - 1 - i])
  }

  /** Little-endian unsigned integers. */
  function PackLE(v: nat, n: nat): (b: Bytes)
    ensures |b| == n
  {
    Reverse(ToBytes(v, n))
  }

  function UnpackLE(b: Bytes): nat {
    FromBytes(Reverse(b))
  }

  lemma ReverseTwice<T>(s: seq<T>)
    ensures Reverse(Reverse(s)) == s
  {
  }

  lemma PackUnpackLE(b: Bytes)
    ensures UnpackLE(b) < Pow(256, |b|) && PackLE(UnpackLE(b), |b|) == b
  {
    hide Pow, ToBytes, FromBytes, Reverse;
    ToFromBytes(Reverse(b));
    ReverseTwice(b);
  }

  lemma UnpackPackLE(v: nat, n: nat)
    requires v < Pow(256, n)
    ensures UnpackLE(PackLE(v, n)) == v
  {
    hide Pow, ToBytes, FromBytes, Reverse;
    FromToBytes(v, n);
    ReverseTwice(ToBytes(v, n));
  }

  function PackIndices(indices: seq<nat>): (b: Bytes)
    ensures |b| == 2 * |indices|
  {
    if indices == [] then [] else PackIndices(indices[..|indices| - 1]) + PackLE(indices[|indices| - 1], 2)
  }

  function UnpackIndices(b: Bytes, n: nat): (indices: seq<nat>)
    requires |b| == 2 * n
    ensures |indices| == n
  {
    if n == 0 then [] else UnpackIndices(b[..2 * n - 2], n - 1) + [UnpackLE(b[2 * n - 2..])]
  }

  /** The droplets whose fields fit the format. */
  predicate Fits(d: Droplet) {
    && 0 <= d.seed < Pow(256, 4)
    && 0 <= d.degree < Pow(256, 4)
    && |d.indices| < Pow(256, 2)
    && forall i :: 0 <= i < |d.indices| ==> d.indices[i] < Pow(256, 2)
  }

  /** Packing a field that does not fit raises. */
  function Serialize(d: Droplet): Option<Bytes> {
    if !Fits(d) then None
    else Some(PackLE(d.seed, 4) + PackLE(d.degree, 4) + PackLE(|d.indices|, 2) + PackIndices(d.indices) + d.payload)
  }

  /** A buffer too short for its header or for its index list raises. */
  function Deserialize(data: Bytes): Option<Droplet> {
    if |data| < 10 then None
    else
      var n := UnpackLE(data[8..10]);
      if |data| < 10 + 2 * n then None
      else Some(Droplet(UnpackLE(data[..4]), UnpackLE(data[4..8]), UnpackIndices(data[10..10 + 2 * n], n),
                        data[10 + 2 * n..]))
  }

  lemma {:induction false} IndicesRoundTrip(indices: seq<nat>)
    requires forall i :: 0 <= i < |indices| ==> indices[i] < Pow(256, 2)
    ensures UnpackIndices(PackIndices(indices), |indices|) == indices
  {
    hide Pow, PackLE, UnpackLE;
    if indices != [] {
      var n := |indices|;
      IndicesRoundTrip(indices[..n - 1]);
      UnpackPackLE(indices[n - 1], 2);
      var b := PackIndices(indices);
      assert b[..2 * n - 2] == PackIndices(indices[..n - 1]);
      assert b[2 * n - 2..] == PackLE(indices[n - 1], 2);
    }
  }

  lemma {:induction false} BytesRoundTrip(b: Bytes, n: nat)
    requires |b| == 2 * n
    ensures PackIndices(UnpackIndices(b, n)) == b
    ensures forall i :: 0 <= i < n ==> UnpackIndices(b, n)[i] < Pow(256, 2)
  {
    hide Pow, PackLE, UnpackLE;
    if n > 0 {
      BytesRoundTrip(b[..2 * n - 2], n - 1);
      PackUnpackLE(b[2 * n - 2..]);
      var u := UnpackIndices(b, n);
      assert u[..n - 1] == UnpackIndices(b[..2 * n - 2], n - 1);
      assert b == b[..2 * n - 2] + b[2 * n - 2..];
    }
  }

  /** A droplet that serializes is read back unchanged. */
  lemma SerializeRoundTrip(d: Droplet)
    requires Serialize(d).Some?
    ensures Deserialize(Serialize(d).value) == Some(d)
  {
    hide Pow, PackLE, UnpackLE, PackIndices, UnpackIndices;
    var n := |d.indices|;
    var b := Serialize(d).value;
    UnpackPackLE(d.seed, 4);
    UnpackPackLE(d.degree, 4);
    UnpackPackLE(n, 2);
    IndicesRoundTrip(d.indices);
    assert b[..4] == PackLE(d.seed, 4);
    assert b[4..8] == PackLE(d.degree, 4);
    assert b[8..10] == PackLE(n, 2);
    assert b[10..10 + 2 * n] == PackIndices(d.indices);
    assert b[10 + 2 * n..] == d.payload;
  }

  /** A buffer that parses is the serialization of what it parses to. */
  lemma DeserializeRoundTrip(data: Bytes)
    requires Deserialize(data).Some?
    ensures Serialize(Deserialize(data).value) == Some(data)
  {
    hide Pow, PackLE, UnpackLE, PackIndices, UnpackIndices;
    var n := UnpackLE(data[8..10]);
    PackUnpackLE(data[..4]);
    PackUnpackLE(data[4..8]);
    PackUnpackLE(data[8..10]);
    BytesRoundTrip(data[10..10 + 2 * n], n);
    assert data == data[..4] + data[4..8] + data[8..10] + data[10..10 + 2 * n] + data[10 + 2 * n..];
  }

  // ---------------------------------------------------------------- the layout

  lemma ReverseFour(b: Bytes)
    requires |b| == 4
    ensures Reverse(b) == [b[3], b[2], b[1], b[0]]
  {
  }

  lemma ReverseTwo(b: Bytes)
    requires |b| == 2
    ensures Reverse(b) == [b[1], b[0]]
  {
  }

  lemma {:induction false} IndexPacked(indices: seq<nat>, i: nat)
    requires i < |indices|
    ensures PackIndices(indices)[2 * i..2 * i + 2] == PackLE(indices[i], 2)
  {
    hide PackLE;
    var n := |indices| - 1;
    if i < n {
      IndexPacked(indices[..n], i);
      assert PackIndices(indices)[2 * i..2 * i + 2] == PackIndices(indices[..n])[2 * i..2 * i + 2];
    }
  }

  lemma PackedWord(v: nat, n: nat)
    requires n == 2 || n == 4
    requires v < Pow(256, n)
    ensures n == 2 ==> WordAt(PackLE(v, n), 0, v)
    ensures n == 4 ==> DoubleWordAt(PackLE(v, n), 0, v)
  {
    var b := PackLE(v, n);
    UnpackPackLE(v, n);
    hide PackLE, FromBytes, Reverse, Pow;
    if n == 2 {
      ReverseTwo(b);
      WordOfTwo(Reverse(b));
    } else {
      ReverseFour(b);
      WordOfFour(Reverse(b));
    }
  }

  lemma Widths()
    ensures Pow(256, 2) == 0x1_0000 && Pow(256, 4) == 0x1_0000_0000
  {
    assert Pow(256, 2) == 0x1_0000;
    PowAdd(256, 2, 2);
  }

  /** The number at a position of the buffer, the less significant byte first. */
  predicate WordAt(b: Bytes, pos: nat, v: int)
    requires pos + 2 <= |b|
  {
    Word16([b[pos + 1], b[pos]]) == v
  }

  predicate DoubleWordAt(b: Bytes, pos: nat, v: int)
    requires pos + 4 <= |b|
  {
    Word32([b[pos + 3], b[pos + 2], b[pos + 1], b[pos]]) == v
  }

  /**
   The format: seed and degree in four bytes each, the number of indices and each index in two, all with the least
   significant byte first, and the payload. A droplet is packed exactly if these fields hold it.
   */
  lemma WireLayout(d: Droplet)
    ensures Serialize(d).Some? <==>
              && 0 <= d.seed < 0x1_0000_0000 && 0 <= d.degree < 0x1_0000_0000 && |d.indices| < 0x1_0000
              && forall i :: 0 <= i < |d.indices| ==> d.indices[i] < 0x1_0000
    ensures Serialize(d).Some? ==>
              var b, n := Serialize(d).value, |d.indices|;
              && |b| == 10 + 2 * n + |d.payload|
              && DoubleWordAt(b, 0, d.seed) && DoubleWordAt(b, 4, d.degree) && WordAt(b, 8, n)
              && (forall i :: 0 <= i < n ==> WordAt(b, 10 + 2 * i, d.indices[i]))
              && b[10 + 2 * n..] == d.payload
  {
    Widths();
    hide Pow, PackLE;
    if Serialize(d).Some? {
      var b, n := Serialize(d).value, |d.indices|;
      PackedWord(d.seed, 4);
      PackedWord(d.degree, 4);
      PackedWord(n, 2);
      assert b[..4] == PackLE(d.seed, 4) && b[4..8] == PackLE(d.degree, 4) && b[8..10] == PackLE(n, 2);
      assert b[10..10 + 2 * n] == PackIndices(d.indices);
      forall i | 0 <= i < n ensures WordAt(b, 10 + 2 * i, d.indices[i]) {
        IndexPacked(d.indices, i);
        PackedWord(d.indices[i], 2);
        assert b[10..10 + 2 * n][2 * i..2 * i + 2] == b[10 + 2 * i..12 + 2 * i];
      }
    }
  }
}
