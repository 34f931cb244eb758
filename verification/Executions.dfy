/** The executions of a run, as scoring and aggregation read them. */
module Executions {
  import opened Options

  /** The signals of one scored execution. */
  datatype Score = Score(
    brandMentioned: bool,
    ownedDomainCited: bool,
    qualifiedOwnedCited: bool,
    promptClass: string,
    queryTextAvailable: bool,
    queryCount: nat,
    brandInjected: bool,
    competitorsInjected: bool,
    searchUsed: bool,
    unintendedCited: bool,
    competitorsMentioned: seq<string>,
    competitorDomainsCited: seq<string>)

  datatype Usage = Usage(uncachedInput: int, cachedInput: int, output: int, total: int)

  /** A citation with its resolved domain; an empty string means none was resolved. */
  datatype Citation = Citation(domain: string, url: string)

  /** One execution; a missing score never counts. */
  datatype Execution = Execution(
    status: string,
    engine: string,
    cohort: string,
    promptIndex: int,
    score: Option<Score>,
    citations: seq<Citation>,
    usage: Usage)
}
