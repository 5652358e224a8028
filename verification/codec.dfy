/**
 * The array codec of data_utils/inject_to_database.py: `array_to_blob` writes the raw
 * little-endian bytes of a float64 array (no header, no length prefix) and `blob_to_array`
 * reinterprets such bytes as float64 elements and reshapes them. A float64 is carried as
 * its 64-bit pattern (`Word`); its IEEE-754 meaning is not modelled.
 */
module Codec {
  import opened Wrappers

  type Byte = x: int | 0 <= x < 256

  /** Number of bytes of one float64 element. */
  const ELEMENT_SIZE: nat := 8

  function Pow256(n: nat): (p: nat)
    ensures p >= 1
  {
    if n == 0 then 1 else 256 * Pow256(n - 1)
  }

  /** The bit pattern of one float64 element. */
  type Word = x: int | 0 <= x < 0x1_0000_0000_0000_0000

  /** The `n` least significant bytes of `x`, least significant first. */
  function LittleEndian(x: nat, n: nat): (bs: seq<Byte>)
    ensures |bs| == n
  {
    if n == 0 then [] else [x % 256] + LittleEndian(x / 256, n - 1)
  }

  /** The number whose little-endian bytes are `bs`. */
  function ValueOf(bs: seq<Byte>): (v: nat)
    ensures v < Pow256(|bs|)
  {
    if bs == [] then 0
    else
      var rest := ValueOf(bs[1..]);
      assert rest + 1 <= Pow256(|bs| - 1);
      bs[0] + 256 * rest
  }

  lemma {:induction false} ValueOfLittleEndian(x: nat, n: nat)
    requires x < Pow256(n)
    ensures ValueOf(LittleEndian(x, n)) == x
  {
    if n > 0 {
      var bs := LittleEndian(x, n);
      assert bs[1..] == LittleEndian(x / 256, n - 1);
      ValueOfLittleEndian(x / 256, n - 1);
    }
  }

  lemma {:induction false} LittleEndianOfValue(bs: seq<Byte>)
    ensures LittleEndian(ValueOf(bs), |bs|) == bs
  {
    if bs != [] {
      var rest := ValueOf(bs[1..]);
      var v := bs[0] + 256 * rest;
      assert v % 256 == bs[0] && v / 256 == rest;
      LittleEndianOfValue(bs[1..]);
    }
  }

  /** `array_to_blob` on a one-dimensional float64 array: 8 bytes per element, in order. */
  function ArrayToBlob(ws: seq<Word>): (blob: seq<Byte>)
    ensures |blob| == ELEMENT_SIZE * |ws| && |blob| % ELEMENT_SIZE == 0
  {
    if ws == [] then [] else LittleEndian(ws[0], ELEMENT_SIZE) + ArrayToBlob(ws[1..])
  }

  /** `np.frombuffer(blob, dtype=np.float64)` on a blob whose length is a multiple of 8. */
  function Elements(blob: seq<Byte>): (ws: seq<Word>)
    requires |blob| % ELEMENT_SIZE == 0
    ensures ELEMENT_SIZE * |ws| == |blob|
  {
    if blob == [] then []
    else
      var w := ValueOf(blob[..ELEMENT_SIZE]);
      assert w < 0x1_0000_0000_0000_0000 by { assert Pow256(ELEMENT_SIZE) == 0x1_0000_0000_0000_0000; }
      [w] + Elements(blob[ELEMENT_SIZE..])
  }

  /** The `shape` argument of `blob_to_array`: `Infer` is the default `(-1,)`. */
  datatype Shape = Infer | Dims(dims: seq<nat>)

  datatype CodecError =
    | BufferSizeNotMultiple(size: nat)   // frombuffer: buffer size not a multiple of element size
    | NoShape                                     // reshape with no argument, from the empty shape `()`
    | CannotReshape(count: nat, dims: seq<nat>)   // reshape: element count differs from the shape's

  function Product(dims: seq<nat>): nat
  {
    if dims == [] then 1 else dims[0] * Product(dims[1..])
  }

  /**
   * `blob_to_array(blob, np.float64, shape)`: a reshape keeps the row-major order of the
   * elements, so the array is carried flat together with the shape it was checked against.
   */
  function BlobToArray(blob: seq<Byte>, shape: Shape): (r: Result<seq<Word>, CodecError>)
    ensures r.Ok? <==>
              && |blob| % ELEMENT_SIZE == 0
              && (shape.Dims? ==> shape.dims != [] && Product(shape.dims) * ELEMENT_SIZE == |blob|)
    ensures r.Ok? ==> ELEMENT_SIZE * |r.value| == |blob|
    ensures r.Err? ==> (r.error.BufferSizeNotMultiple? <==> |blob| % ELEMENT_SIZE != 0)
    ensures r.Err? ==> (r.error.NoShape? <==> |blob| % ELEMENT_SIZE == 0 && shape == Dims([]))
  {
    if |blob| % ELEMENT_SIZE != 0 then Err(BufferSizeNotMultiple(|blob|))
    else
      var ws := Elements(blob);
      match shape
      case Infer => Ok(ws)
      case Dims(dims) =>
        if dims == [] then Err(NoShape)
        else if Product(dims) == |ws| then Ok(ws)
        else Err(CannotReshape(|ws|, dims))
  }

  lemma {:induction false} ElementsOfBlob(ws: seq<Word>)
    ensures Elements(ArrayToBlob(ws)) == ws
  {
    if ws != [] {
      var blob := ArrayToBlob(ws);
      assert blob[..ELEMENT_SIZE] == LittleEndian(ws[0], ELEMENT_SIZE);
      assert blob[ELEMENT_SIZE..] == ArrayToBlob(ws[1..]);
      assert Pow256(ELEMENT_SIZE) == 0x1_0000_0000_0000_0000;
      ValueOfLittleEndian(ws[0], ELEMENT_SIZE);
      ElementsOfBlob(ws[1..]);
    }
  }

  lemma {:induction false} BlobOfElements(blob: seq<Byte>)
    requires |blob| % ELEMENT_SIZE == 0
    ensures ArrayToBlob(Elements(blob)) == blob
  {
    if blob != [] {
      LittleEndianOfValue(blob[..ELEMENT_SIZE]);
      BlobOfElements(blob[ELEMENT_SIZE..]);
      assert blob == blob[..ELEMENT_SIZE] + blob[ELEMENT_SIZE..];
    }
  }

  /** Decoding the encoding of `ws` with a non-empty shape of exactly `|ws|` elements gives back `ws`. */
  lemma RoundTripShaped(ws: seq<Word>, dims: seq<nat>)
    requires dims != [] && Product(dims) == |ws|
    ensures BlobToArray(ArrayToBlob(ws), Dims(dims)) == Ok(ws)
  {
    ElementsOfBlob(ws);
  }

  /**
   * Decoding the encoding of `ws` gives back `ws`: with the default shape `(-1,)`, and with any
   * non-empty shape holding exactly `|ws|` elements (its own one-dimensional shape `(|ws|,)`, or
   * the 3×3 of a covariance of nine values).
   */
  lemma RoundTrip(ws: seq<Word>)
    ensures BlobToArray(ArrayToBlob(ws), Infer) == Ok(ws)
    ensures forall dims :: dims != [] && Product(dims) == |ws| ==> BlobToArray(ArrayToBlob(ws), Dims(dims)) == Ok(ws)
  {
    ElementsOfBlob(ws);
    forall dims | dims != [] && Product(dims) == |ws| ensures BlobToArray(ArrayToBlob(ws), Dims(dims)) == Ok(ws) {
      RoundTripShaped(ws, dims);
    }
  }

  /** Every blob that decodes is the encoding of what it decodes to: no byte is dropped or invented. */
  lemma DecodedBlobIsEncoding(blob: seq<Byte>, shape: Shape)
    requires BlobToArray(blob, shape).Ok?
    ensures ArrayToBlob(BlobToArray(blob, shape).value) == blob
  {
    BlobOfElements(blob);
  }
}
