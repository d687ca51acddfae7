/** Validation of an uploaded profile image: a size cap and a byte-signature sniff. */
module Images {
  import opened Http

  newtype byte = b: int | 0 <= b < 256

  datatype ImageType = Jpg | Png

  /** Largest accepted decoded image: 1 MiB. */
  const MaxImageBytes: nat := 1024 * 1024

  const JpegMagic: seq<byte> := [0xFF, 0xD8, 0xFF]
  const PngMagic: seq<byte> := [0x89, 0x50, 0x4E, 0x47, 0x0D, 0x0A, 0x1A, 0x0A]

  /** Python's `data[:n]`: the first `n` bytes, or all of them when there are fewer. */
  function Head(data: seq<byte>, n: nat): seq<byte> {
    if |data| < n then data else data[..n]
  }

  predicate StartsWith(data: seq<byte>, magic: seq<byte>) {
    |magic| <= |data| && data[..|magic|] == magic
  }

  /**
   * The checks of the upload path: over 1 MiB is refused, then a JPEG
   * prefix gives jpg, a PNG prefix gives png, anything else is refused.
   */
  function CheckImage(data: seq<byte>): (r: Result<ImageType>)
    ensures r.Ok? <==> |data| <= MaxImageBytes && (StartsWith(data, JpegMagic) || StartsWith(data, PngMagic))
    ensures r == Ok(Jpg) <==> |data| <= MaxImageBytes && StartsWith(data, JpegMagic)
    ensures r == Ok(Png) <==> |data| <= MaxImageBytes && StartsWith(data, PngMagic)
    ensures r.Err? ==> r.error == BadRequest
  {
    HeadIsPrefix(data, JpegMagic);
    HeadIsPrefix(data, PngMagic);
    SignaturesDisjoint(data);
    if |data| > MaxImageBytes then Err(BadRequest)
    else if Head(data, 3) == JpegMagic then Ok(Jpg)
    else if Head(data, 8) == PngMagic then Ok(Png)
    else Err(BadRequest)
  }

  /** Comparing a Python slice with a signature is the same as a prefix test. */
  lemma HeadIsPrefix(data: seq<byte>, magic: seq<byte>)
    ensures Head(data, |magic|) == magic <==> StartsWith(data, magic)
  {
  }

  /** No byte string carries both signatures, so the order of the two tests does not matter. */
  lemma SignaturesDisjoint(data: seq<byte>)
    ensures !(StartsWith(data, JpegMagic) && StartsWith(data, PngMagic))
  {
    if StartsWith(data, JpegMagic) && |data| >= |PngMagic| {
      assert data[..3][0] == data[0] == data[..8][0];
    }
  }

  /** A signed image of exactly 1 MiB is at the cap and is accepted. */
  lemma ExactlyOneMiBAccepted(padding: seq<byte>)
    requires |padding| == MaxImageBytes - |JpegMagic|
    ensures |JpegMagic + padding| == MaxImageBytes
    ensures CheckImage(JpegMagic + padding) == Ok(Jpg)
  {
    assert (JpegMagic + padding)[..|JpegMagic|] == JpegMagic;
  }

  /** Anything over 1 MiB is refused, whatever its signature. */
  lemma OversizeRejected(data: seq<byte>)
    requires |data| > MaxImageBytes
    ensures CheckImage(data) == Err(BadRequest)
  {
  }
}
