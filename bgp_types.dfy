/** The records the parser produces and the decision engine consumes and reports. */
module BgpTypes {
  import opened Wrappers

  /** The command-line dialects a caller may name; `Auto` asks for detection. */
  datatype Vendor = Auto | Cisco | Arista | Juniper | Fortigate

  /**
   * The origin code of a path. The three listed codes are the declared ones; the
   * parser's case-insensitive match can also store another spelling of them
   * (`igp`, `Egp`, ...), which the record keeps as it was written.
   */
  datatype Origin = IGP | EGP | Incomplete | Unlisted(spelling: string)

  /** The text a record displays for its origin code. */
  function OriginText(o: Origin): string {
    match o
    case IGP => "IGP"
    case EGP => "EGP"
    case Incomplete => "Incomplete"
    case Unlisted(s) => s
  }

  /** The origin code named by a captured word, kept verbatim when it is not one of the three declared spellings. */
  function ToOrigin(word: string): (o: Origin)
    ensures OriginText(o) == word
  {
    if word == "IGP" then IGP
    else if word == "EGP" then EGP
    else if word == "Incomplete" then Incomplete
    else Unlisted(word)
  }

  /**
   * One candidate path. Identifiers are natural numbers; the parser gives each
   * record its position, so identifiers are unique within one parse.
   */
  datatype BgpRoute = BgpRoute(
    id: nat,
    index: nat,
    prefix: string,
    nextHop: string,
    localPref: nat,
    weight: nat,
    med: nat,
    asPath: string,
    asPathLength: nat,
    origin: Origin,
    isIbgp: bool,
    igpMetric: nat,
    routerId: string,
    peerIp: string,
    rawLine: string,
    isValid: bool,
    isBest: bool)

  /** One entry of the decision trace: who survived a step, who it eliminated, and why. */
  datatype StepResult = StepResult(stepName: string, winnerIds: seq<nat>, loserIds: seq<nat>, reason: string)

  /** The outcome of one run of the decision process. */
  datatype AnalysisResult = AnalysisResult(winner: Option<BgpRoute>, steps: seq<StepResult>, error: Option<string>)
}
