/**
 The records the device produces: what the analysis observed (ScanContext),
 the sustainability assessment (SustainabilityScore) and the user's decision.
 Numbers the assessment carries are kept as reals; nothing here computes
 with them.
 */
module ScanTypes {
  import opened Wrappers

  /** The user's decision about a scanned product. */
  datatype Action = Consumed | Rejected

  /** The wire spelling of an action. */
  function ActionName(a: Action): string {
    match a
    case Consumed => "consumed"
    case Rejected => "rejected"
  }

  /** The four named components of an assessment. */
  datatype Breakdown = Breakdown(materials: real, packaging: real, certifications: real, category_baseline: real)

  datatype Impact = Positive | Negative

  /** One factor that pushed the score up or down. */
  datatype Factor = Factor(factor: string, explanation: string, impact: Impact)

  /** The assessment returned by the scoring service. */
  datatype SustainabilityScore = SustainabilityScore(
    score: real,
    breakdown: Breakdown,
    top_factors: seq<Factor>,
    suggestion: string,
    disposal: string)

  /** What the vision service observed, plus references to the images. */
  datatype ScanContext = ScanContext(
    detected_labels: seq<string>,
    packaging_type: string,
    material_hints: string,
    ocr_text: Option<string>,
    brand_text: Option<string>,
    image: Option<string>,
    image_thumb: Option<string>,
    user_note: Option<string>)
}
