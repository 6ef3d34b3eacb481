/** The self-describing compressor: one prefix byte names the algorithm. */
module Compression {
  import opened Prelude

  const NONE: byte := 0
  const ZSTD: byte := 1
  const LZ4: byte := 2
  const SNAPPY: byte := 3

  /** The codec libraries. */
  datatype Codecs = Codecs(
    zstdEncode: Bytes -> Bytes,
    zstdDecode: Bytes -> Option<Bytes>,
    lz4Encode: Bytes -> Bytes,
    lz4Decode: Bytes -> Option<Bytes>,
    snappyDecode: Bytes -> Option<Bytes>)

  ghost predicate Lawful(c: Codecs) {
    && (forall x: Bytes :: c.zstdDecode(c.zstdEncode(x)) == Some(x))
    && (forall x: Bytes :: c.lz4Decode(c.lz4Encode(x)) == Some(x))
  }

  /** Leading bytes of formats that are not compressed again. */
  const MAGICS: seq<Bytes> := [
    [0xFF, 0xD8, 0xFF],
    [0x89, 0x50, 0x4E, 0x47],
    [0x47, 0x49, 0x46],
    [0x52, 0x49, 0x46, 0x46],
    [0x00, 0x00, 0x00],
    [0x1A, 0x45, 0xDF, 0xA3],
    [0x4F, 0x67, 0x67, 0x53],
    [0xFF, 0xFB],
    [0x66, 0x4C, 0x61, 0x43],
    [0x50, 0x4B],
    [0x1F, 0x8B],
    [0x28, 0xB5, 0x2F, 0xFD]]

  predicate StartsWithAny(data: Bytes, magics: seq<Bytes>) {
    exists m :: m in magics && m <= data
  }

  method IsAlreadyCompressed(data: Bytes) returns (found: bool)
    ensures found <==> StartsWithAny(data, MAGICS)
  {
    for i := 0 to |MAGICS|
      invariant forall j :: 0 <= j < i ==> !(MAGICS[j] <= data)
    {
      var magic := MAGICS[i];
      if |data| >= |magic| && data[..|magic|] == magic {
        assert magic in MAGICS && magic <= data;
        return true;
      }
    }
    return false;
  }

  method PrependAlgo(algo: byte, data: Bytes) returns (bytes: Bytes)
    ensures bytes == [algo] + data
  {
    var out := new byte[1 + |data|];
    out[0] := algo;
    for i := 0 to |data|
      invariant out[..i + 1] == [algo] + data[..i]
    {
      out[i + 1] := data[i];
    }
    assert data[..|data|] == data && out[..|data| + 1] == out[..];
    bytes := out[..];
  }

  /** Both compressors: encode unless the data looks compressed or would not shrink. */
  function Packed(encode: Bytes -> Bytes, algo: byte, data: Bytes): Bytes {
    if StartsWithAny(data, MAGICS) || |encode(data)| >= |data| then [NONE] + data else [algo] + encode(data)
  }

  method Compress(c: Codecs, data: Bytes) returns (bytes: Bytes)
    ensures bytes == Packed(c.zstdEncode, ZSTD, data)
  {
    var already := IsAlreadyCompressed(data);
    if already {
      bytes := PrependAlgo(NONE, data);
      return;
    }
    var compressed := c.zstdEncode(data);
    if |compressed| >= |data| {
      bytes := PrependAlgo(NONE, data);
      return;
    }
    bytes := PrependAlgo(ZSTD, compressed);
  }

  method CompressFast(c: Codecs, data: Bytes) returns (bytes: Bytes)
    ensures bytes == Packed(c.lz4Encode, LZ4, data)
  {
    var already := IsAlreadyCompressed(data);
    if already {
      bytes := PrependAlgo(NONE, data);
      return;
    }
    var compressed := c.lz4Encode(data);
    if |compressed| >= |data| {
      bytes := PrependAlgo(NONE, data);
      return;
    }
    bytes := PrependAlgo(LZ4, compressed);
  }

  function OrError(decoded: Option<Bytes>): Result<Bytes> {
    match decoded
    case None => Err("corrupt data")
    case Some(x) => Ok(x)
  }

  function Decompress(c: Codecs, data: Bytes): Result<Bytes> {
    if |data| < 1 then Err("empty data")
    else
      var payload := data[1..];
      if data[0] == NONE then Ok(payload)
      else if data[0] == ZSTD then OrError(c.zstdDecode(payload))
      else if data[0] == LZ4 then OrError(c.lz4Decode(payload))
      else if data[0] == SNAPPY then OrError(c.snappyDecode(payload))
      else Err("unknown algorithm")
  }

  /** Either compressor is undone by Decompress, and neither ever costs more than the
      prefix byte, whatever the encoder does to the length. */
  lemma CompressionRestores(c: Codecs, data: Bytes)
    requires Lawful(c)
    ensures Decompress(c, Packed(c.zstdEncode, ZSTD, data)) == Ok(data)
    ensures Decompress(c, Packed(c.lz4Encode, LZ4, data)) == Ok(data)
    ensures |Packed(c.zstdEncode, ZSTD, data)| <= |data| + 1
    ensures |Packed(c.lz4Encode, LZ4, data)| <= |data| + 1
  {
    assert ([NONE] + data)[1..] == data;
    assert ([ZSTD] + c.zstdEncode(data))[1..] == c.zstdEncode(data);
    assert ([LZ4] + c.lz4Encode(data))[1..] == c.lz4Encode(data);
  }

  /** Data that is not compressed already takes the smaller of its own and its encoded
      length, and one byte; the prefix names the algorithm exactly if that is the encoded. */
  lemma PackedIsSmaller(encode: Bytes -> Bytes, algo: byte, data: Bytes)
    requires algo != NONE
    ensures var packed := Packed(encode, algo, data);
            && packed != []
            && (!StartsWithAny(data, MAGICS) ==> |packed| == 1 + Min(|data|, |encode(data)|))
            && (StartsWithAny(data, MAGICS) ==> packed == [0] + data)
            && (packed[0] == algo <==> !StartsWithAny(data, MAGICS) && |encode(data)| < |data|)
  {
  }

  /** Pictures, archives and compressed streams are recognised by their first bytes. */
  lemma KnownFormatsStayRaw(encode: Bytes -> Bytes, algo: byte, rest: Bytes)
    ensures forall magic <- MAGICS :: Packed(encode, algo, magic + rest) == [NONE] + (magic + rest)
  {
    forall magic <- MAGICS
      ensures StartsWithAny(magic + rest, MAGICS)
    {
      assert magic <= magic + rest;
    }
  }

  /** What the decoder refuses: nothing at all, an unknown algorithm, and what the library
      of the named algorithm refuses. */
  lemma DecompressFailsIff(c: Codecs, data: Bytes)
    ensures Decompress(c, data).Err? <==>
            || data == []
            || data[0] > 3
            || (data[0] == 1 && c.zstdDecode(data[1..]).None?)
            || (data[0] == 2 && c.lz4Decode(data[1..]).None?)
            || (data[0] == 3 && c.snappyDecode(data[1..]).None?)
  {
  }
}
