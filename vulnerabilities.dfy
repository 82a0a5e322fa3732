/** One finding as the assessment API reports it, already parsed, and the
    severity classes the correlation distinguishes. */
module Vulnerabilities {

  /** A vulnerability finding: the nested `properties.additionalData` and
      `properties.status` records of the response are flattened into one. */
  datatype Vulnerability = Vulnerability(
    id: string,
    registryHost: string,
    repositoryName: string,
    imageDigest: string,
    severity: string)

  /** The severity string is exactly "High". */
  predicate IsHigh(v: Vulnerability) { v.severity == "High" }

  /** The severity string is exactly "Medium". */
  predicate IsMedium(v: Vulnerability) { v.severity == "Medium" }

  /** Every other severity string, including unknown ones such as
      "Critical", is reported as Low. */
  predicate IsLow(v: Vulnerability) { !IsHigh(v) && !IsMedium(v) }
}
