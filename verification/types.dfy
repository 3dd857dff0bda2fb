/** The value types shared by the pipeline (src/core/types.ts). */
module Types {
  /** An embedding: a fixed-length vector of reals. */
  type Vector = seq<real>

  /**
   * The similarity score of a query vector against a chunk embedding. The
   * cosine computation itself is not modelled: every operation that scores
   * receives the scorer as a parameter and assumes nothing about it.
   */
  type Scorer = (Vector, Vector) -> real

  /** The fixed-precision rendering of a score used in context labels. */
  type Formatter = real -> string

  /** One chunk of a source document, with its precomputed embedding. */
  datatype Chunk = Chunk(
    id: string,
    pdfId: string,
    source: string,
    chunkIndex: nat,
    text: string,
    embedding: Vector)

  /** A chunk paired with its similarity to the current query. */
  datatype Retrieved = Retrieved(chunk: Chunk, score: real)

  /** The outcome of a collaborator call that may throw. */
  datatype Result<T> = Ok(value: T) | Err(error: string)

  /** The smaller of two counts: where `slice` stops when asked to go past the end. */
  function Min(a: nat, b: nat): nat
  {
    if a <= b then a else b
  }
}
