/** Value domains of the broker dashboard (the string-literal union types of
    src/types/index.ts) and the small failure-compatible wrappers used by the
    lookups that may miss. */
module Types {

  datatype Option<+T> = None | Some(value: T) {
    function GetOr(default: T): T {
      match this
      case Some(v) => v
      case None => default
    }
  }

  datatype Result<+R, +E> = Success(value: R) | Failure(error: E)

  datatype SubmissionStatus = Draft | Submitted | Quoted | Bound | Declined | Expired

  datatype RiskGrade = A | B | C | D | E | F

  datatype AppetiteLevel = Hot | Warm | Cold | Declined

  datatype Territory = UK | EU | US | APAC | MEA | LATAM

  datatype CoverageType =
    | AiContentIp
    | DeepfakeLiability
    | CopyrightInfringement
    | NilpProtection
    | Comprehensive

  /** The string each status carries in the source (it is also the key of the
      badge colour table). */
  function StatusName(s: SubmissionStatus): string {
    match s
    case Draft => "draft"
    case Submitted => "submitted"
    case Quoted => "quoted"
    case Bound => "bound"
    case Declined => "declined"
    case Expired => "expired"
  }

  /** The string each coverage type carries in the source. */
  function CoverageTypeName(c: CoverageType): string {
    match c
    case AiContentIp => "ai_content_ip"
    case DeepfakeLiability => "deepfake_liability"
    case CopyrightInfringement => "copyright_infringement"
    case NilpProtection => "nilp_protection"
    case Comprehensive => "comprehensive"
  }
}
