/** Configuration constants read by the answering pipeline (config/app.ts). */
module Config {
  /** Inclusive cosine-similarity cutoff a retrieved chunk must reach to count as grounding. */
  const SimThreshold: real := 0.4

  /** Number of ranked chunks kept by retrieval for each question. */
  const TopK: nat := 5
}
