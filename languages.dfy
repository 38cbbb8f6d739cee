/** The closed set of languages both revisions of the command-line tool
    accept, their two-letter codes, and the two shapes of a language-pair
    specifier. */
module Languages {

  datatype Option<T> = None | Some(value: T)

  /** The ten supported languages, plus the sentinel asking the translation
      service to infer the source language. */
  datatype Language =
    | English | Arabic | Chinese | French | German
    | Italian | Portuguese | Russian | Spanish | Japanese
    | Detect

  /** The accepted codes, in the order both revisions list them. */
  const Codes: seq<string> := ["en", "ar", "zh", "fr", "de", "it", "pt", "ru", "es", "ja"]

  /** The code of a concrete language (ISO 639-1). */
  function CodeOf(l: Language): (code: string)
    requires l != Detect
    ensures code in Codes
  {
    match l
    case English => "en"
    case Arabic => "ar"
    case Chinese => "zh"
    case French => "fr"
    case German => "de"
    case Italian => "it"
    case Portuguese => "pt"
    case Russian => "ru"
    case Spanish => "es"
    case Japanese => "ja"
  }

  /** The language a code names: defined on exactly the listed codes, never
      `Detect`, and inverse to `CodeOf`. */
  function FromCode(code: string): (r: Option<Language>)
    ensures r.Some? <==> code in Codes
    ensures r.Some? ==> r.value != Detect && CodeOf(r.value) == code
  {
    if code == "en" then Some(English)
    else if code == "ar" then Some(Arabic)
    else if code == "zh" then Some(Chinese)
    else if code == "fr" then Some(French)
    else if code == "de" then Some(German)
    else if code == "it" then Some(Italian)
    else if code == "pt" then Some(Portuguese)
    else if code == "ru" then Some(Russian)
    else if code == "es" then Some(Spanish)
    else if code == "ja" then Some(Japanese)
    else None
  }

  /** Every concrete language survives the trip through its code. */
  lemma CodeRoundTrip(l: Language)
    requires l != Detect
    ensures FromCode(CodeOf(l)) == Some(l)
  {
  }

  /** Every listed code is two characters long and free of the separator. */
  lemma CodesShape(c: string)
    requires c in Codes
    ensures |c| == 2 && ':' !in c
  {
  }

  /** `xx:yy`: two listed codes around a colon. */
  predicate PairForm(s: string) {
    |s| == 5 && s[2] == ':' && s[..2] in Codes && s[3..] in Codes
  }

  /** `:yy`: a leading colon and one listed code. */
  predicate DetectForm(s: string) {
    |s| == 3 && s[0] == ':' && s[1..] in Codes
  }
}
