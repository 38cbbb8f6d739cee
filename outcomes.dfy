/** What parsing, translating and reporting produce: parser failures with
    their headlines, translation records, backend replies, and how the
    process ends. */
module Outcomes {
  import opened Languages

  /** One constructor per distinct headline the parsers report. */
  datatype Failure = Malformed | NotSeparated | UnknownLanguages

  /** A parse either succeeds, ends in a reported failure, or crashes on an
      `unwrap` of a missing character. */
  datatype Outcome<T> = Ok(value: T) | Fail(failure: Failure) | Panic

  function Headline(f: Failure): string {
    match f
    case Malformed => "Malformed language argument"
    case NotSeparated => "Malformed language argument: not separated by an ':'"
    case UnknownLanguages => "Unknown languages"
  }

  /** The detail every parser failure prints. */
  const PossibleValues: string :=
    "Possible values: [\"en\", \"ar\", \"zh\", \"fr\", \"de\", \"it\", \"pt\", \"ru\", \"es\", \"ja\"]"

  /** A finished translation as the service returns it. */
  datatype Translation = Translation(source: Language, target: Language, input: string, output: string)

  /** The service's answer: a translation, or an error message. */
  datatype Reply = Translated(data: Translation) | RequestError(message: string)

  /** How a run ends: the text written to standard output and standard
      error and the exit status, or a panic. */
  datatype Exit = Exited(stdout: string, stderr: string, status: int) | Panicked

  /** Distinct failures print distinct headlines. */
  lemma HeadlinesDistinct(f: Failure, g: Failure)
    requires f != g
    ensures Headline(f) != Headline(g)
  {
  }
}
