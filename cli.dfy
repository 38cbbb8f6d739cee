/** The earlier revision, where `main` parses the specifier inline (no
    length check, no `:yy` detect form), calls the translation service and
    renders its answer or reports its error. */
module Cli {
  import opened Strings
  import opened Languages
  import opened Outcomes
  import Tools

  /** Standard output for a finished translation: the same rendering the
      later revision keeps. */
  function PrintData(data: Translation, verbose: bool, pretty: Language -> string): (out: string)
    ensures out == Tools.PrintData(data, verbose, pretty)
  {
    if verbose then
      pretty(data.source) + ": \"" + data.input + "\"\n" + pretty(data.target) + ": \"" + data.output + "\"\n"
    else data.output + "\n"
  }

  /** The usage reminder as this revision writes it: the terse one lacks
      its closing line breaks. */
  function UsageAsWritten(verbose: bool): (u: string)
    ensures verbose ==> u == Tools.Usage(true)
    ensures !verbose ==> u + "\n\n" == Tools.Usage(false)
  {
    if verbose then Tools.UsageHead + Tools.VerboseUsageLine + "\n\n"
    else Tools.UsageHead + Tools.TerseUsageLine
  }

  /** The error report exactly as this revision writes it, then exit 1. */
  function TransErrorAsWritten(error: string, details: string, text: string, verbose: bool): (e: Exit)
    ensures e.Exited? && e.status == 1 && e.stdout == ""
    ensures "error: " + error + "\n" + Tools.Detail(details, text) <= e.stderr
    ensures EndsWith(e.stderr, UsageAsWritten(verbose) + Tools.HelpPointer)
  {
    var head := "error: " + error + "\n";
    var tail := UsageAsWritten(verbose) + Tools.HelpPointer;
    Concat3(head, Tools.Detail(details, text), tail);
    Exited("", head + Tools.Detail(details, text) + tail, 1)
  }

  /** Without `--verbose` the usage line and the help pointer run together
      on one line. */
  lemma AsWrittenJoinsHelpLine(error: string, details: string, text: string)
    ensures var e := TransErrorAsWritten(error, details, text, false);
      && EndsWith(e.stderr, Tools.TerseUsageLine + Tools.HelpPointer)
      && !EndsWith(e.stderr, "\n" + Tools.HelpPointer)
  {
    var e := TransErrorAsWritten(error, details, text, false);
    var head := "error: " + error + "\n" + Tools.Detail(details, text) + Tools.UsageHead;
    assert e.stderr == head + Tools.TerseUsageLine + Tools.HelpPointer by {
      assert UsageAsWritten(false) + Tools.HelpPointer == Tools.UsageHead + Tools.TerseUsageLine + Tools.HelpPointer;
      assert e.stderr == "error: " + error + "\n" + Tools.Detail(details, text) + (UsageAsWritten(false) + Tools.HelpPointer);
    }
    CharBeforeSuffix(head, Tools.TerseUsageLine, Tools.HelpPointer);
    assert Tools.TerseUsageLine[|Tools.TerseUsageLine| - 1] == '>';
  }

  /** The error report with the usage reminder closed by a blank line, as
      the later revision writes it, then exit 1. */
  function TransError(error: string, details: string, text: string, verbose: bool): (e: Exit)
    ensures e.Exited? && e.status == 1 && e.stdout == ""
    ensures e.stderr == Tools.TransError(error, details, text, verbose).stderr
  {
    var head := "error: " + error + "\n";
    Exited("", head + Tools.Detail(details, text) + Tools.Usage(verbose) + Tools.HelpPointer, 1)
  }

  /** In the corrected report the help pointer always stands on its own
      line after a blank one. */
  lemma HelpOnOwnLine(error: string, details: string, text: string, verbose: bool)
    ensures EndsWith(TransError(error, details, text, verbose).stderr, "\n\n" + Tools.HelpPointer)
  {
  }

  /** The two segments of the specifier (src/main.rs:44-65); a specifier shorter
      than three characters panics on the missing index 2. */
  function LanguageSegments(data: string): (r: Outcome<(string, string)>)
    ensures r.Panic? <==> |data| < 3
    ensures r.Ok? ==> r.value.0 in Codes && r.value.1 in Codes
  {
    if |data| < 3 then Panic
    else if data[2] != ':' then Fail(NotSeparated)
    else
      var split := Split(data, ':');
      if |split| != 2 then Fail(Malformed)
      else if !(forall x :: x in split ==> x in Codes) then Fail(UnknownLanguages)
      else Ok((split[0], split[1]))
  }

  /** The segments turned into languages (src/main.rs:44-71). */
  function ParseLanguages(data: string): (r: Outcome<(Language, Language)>)
    ensures r.Panic? <==> |data| < 3
    ensures r.Ok? ==> r.value.0 != Detect && r.value.1 != Detect
  {
    match LanguageSegments(data)
    case Panic => Panic
    case Fail(f) => Fail(f)
    case Ok((a, b)) =>
      match (FromCode(a), FromCode(b))
      case (Some(source), Some(target)) => Ok((source, target))
      case _ => Panic
  }

  /** The accepted specifiers are exactly `xx:yy` over listed codes, and
      the result is the two halves in order. */
  lemma SegmentsAcceptedExactly(data: string, a: string, b: string)
    ensures LanguageSegments(data) == Ok((a, b)) <==> PairForm(data) && a == data[..2] && b == data[3..]
  {
    if PairForm(data) {
      CodesShape(data[..2]);
      CodesShape(data[3..]);
      Tools.SplitHalves(data);
    }
    if LanguageSegments(data).Ok? {
      var split := Split(data, ':');
      CodesShape(split[0]);
      CodesShape(split[1]);
      SplitJoin(data, ':');
      assert split[1..] == [split[1]];
      assert data == split[0] + [':'] + split[1];
      assert |data| == 5 && data[..2] == split[0] && data[3..] == split[1];
    }
  }

  /** Any specifier of three or more characters without a colon at index 2
      is not separated; in particular every `:yy` is refused, so this
      revision has no detect form. */
  lemma RejectsUnseparated(data: string)
    requires |data| >= 3 && data[2] != ':'
    ensures ParseLanguages(data) == Fail(NotSeparated)
  {
  }

  /** Any specifier with a colon at index 2 and a colon count other than
      one is malformed. */
  lemma RejectsBadSplit(data: string)
    requires |data| >= 3 && data[2] == ':' && multiset(data)[':'] != 1
    ensures ParseLanguages(data) == Fail(Malformed)
  {
    SplitCount(data, ':');
  }

  /** A single colon at index 2 with an unlisted code on either side is
      unknown. */
  lemma RejectsUnknownCode(data: string)
    requires |data| >= 3 && data[2] == ':' && ':' !in data[..2] && ':' !in data[3..]
    requires data[..2] !in Codes || data[3..] !in Codes
    ensures ParseLanguages(data) == Fail(UnknownLanguages)
  {
    assert data == data[..2] + [':'] + data[3..];
    SplitAround(data[..2], data[3..], ':');
  }

  /** The two revisions agree on every five-character specifier, failures
      included; the earlier one accepts exactly what the later one accepts
      in pair form, with the same pair, and refuses every `:yy`. */
  lemma CrossRevision(data: string)
    ensures |data| == 5 ==> ParseLanguages(data) == Tools.GetLanguages(data)
    ensures ParseLanguages(data).Ok? <==> Tools.GetLanguages(data).Ok? && Tools.GetLanguages(data).value.0 != Detect
    ensures ParseLanguages(data).Ok? ==> ParseLanguages(data) == Tools.GetLanguages(data)
    ensures DetectForm(data) ==> ParseLanguages(data).Fail? && Tools.GetLanguages(data).Ok?
  {
    var r := ParseLanguages(data);
    if r.Ok? {
      SegmentsAcceptedExactly(data, data[..2], data[3..]);
      var (a, b) := LanguageSegments(data).value;
      SegmentsAcceptedExactly(data, a, b);
      assert |data| == 5;
    }
    if Tools.GetLanguages(data).Ok? && Tools.GetLanguages(data).value.0 != Detect {
      assert |data| == 5;
    }
    if DetectForm(data) {
      CodesShape(data[1..]);
      assert data[2] == data[1..][1];
      RejectsUnseparated(data);
      Tools.AcceptedExactly(data, Detect, FromCode(data[1..]).value);
    }
  }

  const MissingText: string := "The following required arguments were not provided:"
  const RequestFailed: string := "Translation request error"

  /** One invocation: refuse an empty text, parse the specifier, ask the
      service, then render the translation or report the service's error. */
  function Run(spec: string, text: string, verbose: bool,
               translate: (Language, Language, string) -> Reply,
               pretty: Language -> string): (e: Exit)
    ensures e.Panicked? <==> text != "" && |spec| < 3
    ensures e.Exited? ==> e.status == 0 || e.status == 1
    ensures e.Exited? && e.status == 1 ==>
      e.stdout == "" && EndsWith(e.stderr, UsageAsWritten(verbose) + Tools.HelpPointer)
    ensures e.Exited? && e.status == 0 <==>
      && text != ""
      && ParseLanguages(spec).Ok?
      && translate(ParseLanguages(spec).value.0, ParseLanguages(spec).value.1, text).Translated?
  {
    if text == "" then TransErrorAsWritten(MissingText, "<TEXT>", text, verbose)
    else
      match ParseLanguages(spec)
      case Panic => Panicked
      case Fail(f) => TransErrorAsWritten(Headline(f), PossibleValues, spec, verbose)
      case Ok((source, target)) =>
        match translate(source, target, text)
        case Translated(data) => Exited(PrintData(data, verbose, pretty), "", 0)
        case RequestError(message) => TransErrorAsWritten(RequestFailed, message, text, verbose)
  }

  /** An empty text is reported as a missing argument, with the indented
      `<TEXT>` detail and status 1, before the specifier or the service is
      looked at. */
  lemma EmptyTextReported(spec: string, verbose: bool,
                          translate: (Language, Language, string) -> Reply,
                          pretty: Language -> string,
                          otherSpec: string,
                          otherTranslate: (Language, Language, string) -> Reply,
                          otherPretty: Language -> string)
    ensures var e := Run(spec, "", verbose, translate, pretty);
      && e.Exited? && e.status == 1 && e.stdout == ""
      && "error: " + MissingText + "\n    <TEXT>\n\n" <= e.stderr
      && e == Run(otherSpec, "", verbose, otherTranslate, otherPretty)
  {
  }

  /** A parse failure is reported between blank lines without consulting
      the service. */
  lemma ParseFailureReported(spec: string, text: string, verbose: bool,
                             translate: (Language, Language, string) -> Reply,
                             pretty: Language -> string,
                             otherTranslate: (Language, Language, string) -> Reply,
                             otherPretty: Language -> string)
    requires text != "" && ParseLanguages(spec).Fail?
    ensures var e := Run(spec, text, verbose, translate, pretty);
      && e.Exited? && e.status == 1
      && "error: " + Headline(ParseLanguages(spec).failure) + "\n\n" + PossibleValues + "\n\n" <= e.stderr
      && e == Run(spec, text, verbose, otherTranslate, otherPretty)
  {
    var h := "error: " + Headline(ParseLanguages(spec).failure) + "\n";
    assert Tools.Detail(PossibleValues, spec) == "\n" + PossibleValues + "\n\n";
    assert h + ("\n" + PossibleValues + "\n\n") == "error: " + Headline(ParseLanguages(spec).failure) + "\n\n" + PossibleValues + "\n\n";
  }

  /** The service's error message is relayed unchanged, between blank
      lines, with status 1. */
  lemma RequestErrorRelayed(spec: string, text: string, verbose: bool,
                            translate: (Language, Language, string) -> Reply,
                            pretty: Language -> string)
    requires text != "" && ParseLanguages(spec).Ok?
    requires translate(ParseLanguages(spec).value.0, ParseLanguages(spec).value.1, text).RequestError?
    ensures var m := translate(ParseLanguages(spec).value.0, ParseLanguages(spec).value.1, text).message;
      var e := Run(spec, text, verbose, translate, pretty);
      && e.Exited? && e.status == 1
      && "error: " + RequestFailed + "\n\n" + m + "\n\n" <= e.stderr
  {
    var m := translate(ParseLanguages(spec).value.0, ParseLanguages(spec).value.1, text).message;
    assert Tools.Detail(m, text) == "\n" + m + "\n\n";
    assert "error: " + RequestFailed + "\n" + ("\n" + m + "\n\n") == "error: " + RequestFailed + "\n\n" + m + "\n\n";
  }

  /** The specifier `en-fr` without `--verbose`: the run fails with status 1
      and the `--help` pointer does not start a line of its own. */
  lemma UnseparatedRunJoinsHelpLine(text: string,
                                    translate: (Language, Language, string) -> Reply,
                                    pretty: Language -> string)
    requires text != ""
    ensures var e := Run("en-fr", text, false, translate, pretty);
      && e.Exited? && e.status == 1 && e.stdout == ""
      && EndsWith(e.stderr, Tools.TerseUsageLine + Tools.HelpPointer)
      && !EndsWith(e.stderr, "\n" + Tools.HelpPointer)
  {
    RejectsUnseparated("en-fr");
    AsWrittenJoinsHelpLine(Headline(NotSeparated), PossibleValues, "en-fr");
  }

  /** A translation is printed to standard output, nothing to standard
      error, and the run ends with status 0. */
  lemma TranslationPrinted(spec: string, text: string, verbose: bool,
                           translate: (Language, Language, string) -> Reply,
                           pretty: Language -> string)
    requires text != "" && ParseLanguages(spec).Ok?
    requires translate(ParseLanguages(spec).value.0, ParseLanguages(spec).value.1, text).Translated?
    ensures var d := translate(ParseLanguages(spec).value.0, ParseLanguages(spec).value.1, text).data;
      Run(spec, text, verbose, translate, pretty) == Exited(Tools.PrintData(d, verbose, pretty), "", 0)
  {
  }
}
