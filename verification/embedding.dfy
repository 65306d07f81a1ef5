/**
 * Embedding vectors, the right zero-padding that brings the text and image
 * embeddings to one dimension, and the embedding models seen from outside:
 * a text model and an optional CLIP image model, each a possibly failing
 * function with a fixed output dimension.
 */
module Embedding {
  import opened Wrappers

  type Vector = seq<real>

  function Zeros(n: nat): (z: Vector)
    ensures |z| == n
    ensures forall i :: 0 <= i < n ==> z[i] == 0.0
  {
    if n == 0 then [] else [0.0] + Zeros(n - 1)
  }

  /** `np.pad(v, (0, d - len(v)))` when `len(v) < d`; a longer vector is left
      alone, never truncated. */
  function PadTo(v: Vector, d: nat): Vector
  {
    if |v| < d then v + Zeros(d - |v|) else v
  }

  /** The padded vector has length `d` (or more, when it was longer already),
      keeps the original entries as its prefix and is zero after them; a vector
      of length at least `d` comes back unchanged. */
  lemma PadToSpec(v: Vector, d: nat)
    ensures |PadTo(v, d)| == if |v| < d then d else |v|
    ensures PadTo(v, d)[..|v|] == v
    ensures forall i :: |v| <= i < |PadTo(v, d)| ==> PadTo(v, d)[i] == 0.0
    ensures |v| >= d ==> PadTo(v, d) == v
  {
    if |v| < d {
      assert (v + Zeros(d - |v|))[..|v|] == v;
    }
  }

  /** The squared Euclidean norm. */
  function SumSq(v: Vector): real
  {
    if v == [] then 0.0 else v[0] * v[0] + SumSq(v[1..])
  }

  lemma {:induction false} SumSqAppend(a: Vector, b: Vector)
    ensures SumSq(a + b) == SumSq(a) + SumSq(b)
  {
    if a == [] {
      assert a + b == b;
    } else {
      assert (a + b)[1..] == a[1..] + b;
      SumSqAppend(a[1..], b);
    }
  }

  lemma {:induction false} SumSqZeros(n: nat)
    ensures SumSq(Zeros(n)) == 0.0
  {
    if n > 0 {
      assert Zeros(n)[1..] == Zeros(n - 1);
      SumSqZeros(n - 1);
    }
  }

  /** Zero-padding keeps the squared norm, so a unit vector stays a unit vector
      and inner products with padded vectors are those of the originals. */
  lemma PadKeepsNorm(v: Vector, d: nat)
    ensures SumSq(PadTo(v, d)) == SumSq(v)
    ensures SumSq(v) == 1.0 ==> SumSq(PadTo(v, d)) == 1.0
  {
    if |v| < d {
      SumSqAppend(v, Zeros(d - |v|));
      SumSqZeros(d - |v|);
    }
  }

  /** A sentence-embedding model: `encode` yields a `dim`-long normalised
      vector, or nothing when it raises. */
  datatype TextModel = TextModel(dim: nat, encode: string -> Option<Vector>)
  {
    ghost predicate Valid() {
      forall s :: encode(s).Some? ==> |encode(s).value| == dim
    }
  }

  /** CLIP: `features` stands for base64 decoding, opening the image,
      `get_image_features` and the division by the norm; it yields a
      `dim`-long vector, or nothing when any of these raises. */
  datatype ImageModel = ImageModel(dim: nat, features: string -> Option<Vector>)
  {
    ghost predicate Valid() {
      forall s :: features(s).Some? ==> |features(s).value| == dim
    }
  }

  /** `dim_img`: the CLIP projection size, or the text size when CLIP did not load. */
  function ImageDim(text: TextModel, clip: Option<ImageModel>): nat
  {
    if clip.Some? then clip.value.dim else text.dim
  }

  /** `DIM = max(dim_txt, dim_img)`. */
  function Dim(text: TextModel, clip: Option<ImageModel>): (d: nat)
    ensures d >= text.dim && d >= ImageDim(text, clip)
    ensures d == text.dim || d == ImageDim(text, clip)
    ensures clip.None? ==> d == text.dim
  {
    var dimImg := ImageDim(text, clip);
    if text.dim >= dimImg then text.dim else dimImg
  }
}
