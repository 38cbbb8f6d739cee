/** The current revision's helpers: rendering a translation, reporting an
    error in the style of the argument parser's own messages, and parsing
    the language-pair specifier including its `:yy` detect form. */
module Tools {
  import opened Strings
  import opened Languages
  import opened Outcomes

  /** The hint printed to standard output with every error report. */
  const Tip: string :=
    "\nTip: You can format languages like \":<OUTPUT>\" to detect the input language.\n\n"

  /** The closing pointer to the help flag. */
  const HelpPointer: string := "For more information try --help\n"

  const UsageHead: string := "USAGE:\n"
  const VerboseUsageLine: string := "    libretrans <INPUT>:<OUTPUT> <TEXT> --verbose"
  const TerseUsageLine: string := "    libretrans [FLAGS] <INPUT>:<OUTPUT> <TEXT>"

  /** The usage reminder, chosen by the verbose flag alone, closed by a
      blank line. */
  function Usage(verbose: bool): (u: string)
    ensures EndsWith(u, "\n\n")
    ensures UsageHead <= u
    ensures verbose <==> EndsWith(u, "--verbose\n\n")
  {
    var line := if verbose then VerboseUsageLine else TerseUsageLine;
    var u := UsageHead + line + "\n\n";
    Concat3(UsageHead, line, "\n\n");
    assert verbose ==> EndsWith(line, "--verbose");
    assert !verbose ==> u[|u| - 3] == line[|line| - 1] == '>';
    u
  }

  /** Standard output for a finished translation, given the service's
      display name for each language. */
  function PrintData(data: Translation, verbose: bool, pretty: Language -> string): (out: string)
    ensures !verbose ==> out == data.output + "\n"
    ensures verbose ==> pretty(data.source) + ": \"" + data.input + "\"\n" <= out
    ensures verbose ==> EndsWith(out, pretty(data.target) + ": \"" + data.output + "\"\n")
  {
    if verbose then
      pretty(data.source) + ": \"" + data.input + "\"\n" + pretty(data.target) + ": \"" + data.output + "\"\n"
    else data.output + "\n"
  }

  /** An error report, then exit with status 1. `text` selects the layout:
      an indented detail when it is empty, a detail between blank lines
      otherwise. */
  function TransError(error: string, details: string, text: string, verbose: bool): (e: Exit)
    ensures e.Exited? && e.status == 1
    ensures e.stdout == Tip
    ensures "error: " + error + "\n" + Detail(details, text) <= e.stderr
    ensures EndsWith(e.stderr, Usage(verbose) + HelpPointer)
  {
    var head := "error: " + error + "\n";
    var tail := Usage(verbose) + HelpPointer;
    Concat3(head, Detail(details, text), tail);
    Exited(Tip, head + Detail(details, text) + tail, 1)
  }

  /** The detail block: indented when `text` is empty, otherwise between
      blank lines. */
  function Detail(details: string, text: string): (d: string)
    ensures text == "" <==> "    " <= d
    ensures EndsWith(d, details + "\n\n")
  {
    var d := if text == "" then "    " + details + "\n\n" else "\n" + details + "\n\n";
    assert d == d[..|d| - |details| - 2] + (details + "\n\n");
    assert text != "" ==> d[0] == '\n';
    d
  }

  /** The report opens with the headline line, followed by the indented
      detail exactly when `text` is empty. */
  lemma TransErrorLayout(error: string, details: string, text: string, verbose: bool)
    ensures var e := TransError(error, details, text, verbose);
      && "error: " + error + "\n" <= e.stderr
      && (("error: " + error + "\n    " <= e.stderr) <==> text == "")
  {
    var head := "error: " + error + "\n";
    var e := TransError(error, details, text, verbose);
    var d := Detail(details, text);
    assert head + d <= e.stderr;
    assert head <= head + d;
    assert "error: " + error + "\n    " == head + "    ";
    if text == "" {
      assert head + "    " <= head + d;
    } else {
      assert e.stderr[|head|] == (head + d)[|head|] == d[0] == '\n';
      assert (head + "    ")[|head|] == ' ';
    }
  }

  /** The language pair a specifier names; failures carry the headline
      they are reported with, and an empty specifier panics. */
  function GetLanguages(data: string): (r: Outcome<(Language, Language)>)
    ensures r.Panic? <==> data == []
    ensures r.Ok? ==> r.value.1 != Detect
    ensures r.Ok? ==> (r.value.0 == Detect <==> |data| == 3)
  {
    if |data| != 5 then
      if |data| == 0 then Panic
      else if data[0] != ':' || |data| != 3 then Fail(Malformed)
      else
        var lang := data[1..];
        if lang !in Codes then Fail(UnknownLanguages)
        else match FromCode(lang)
          case None => Panic
          case Some(l) => Ok((Detect, l))
    else if data[2] != ':' then Fail(NotSeparated)
    else
      var split := Split(data, ':');
      if |split| != 2 then Fail(Malformed)
      else if !(forall x :: x in split ==> x in Codes) then Fail(UnknownLanguages)
      else match (FromCode(split[0]), FromCode(split[1]))
        case (Some(source), Some(target)) => Ok((source, target))
        case _ => Panic
  }

  /** What the parser reports on a failure: the failure's headline with the
      possible values as detail, the specifier deciding the layout. */
  function Reject(data: string, f: Failure, verbose: bool): (e: Exit)
    ensures e.Exited? && e.status == 1 && e.stdout == Tip
    ensures "error: " + Headline(f) + "\n" <= e.stderr
    ensures data != "" ==> "error: " + Headline(f) + "\n\n" + PossibleValues + "\n\n" <= e.stderr
  {
    assert data != "" ==> Detail(PossibleValues, data) == "\n" + PossibleValues + "\n\n";
    BlankLineDetail("error: " + Headline(f), PossibleValues);
    TransError(Headline(f), PossibleValues, data, verbose)
  }

  /** The headline line followed by a detail between blank lines. */
  lemma BlankLineDetail(head: string, details: string)
    ensures head + "\n" + ("\n" + details + "\n\n") == head + "\n\n" + details + "\n\n"
  {
  }

  /** A five-character specifier with a colon only at index 2 splits into
      its two halves. */
  lemma SplitHalves(data: string)
    requires |data| == 5 && data[2] == ':'
    requires ':' !in data[..2] && ':' !in data[3..]
    ensures Split(data, ':') == [data[..2], data[3..]]
  {
    assert data == data[..2] + [':'] + data[3..];
    SplitAround(data[..2], data[3..], ':');
  }

  /** The accepted specifiers are exactly `xx:yy` and `:yy` over listed
      codes; the pair form yields the two named languages, the detect form
      `Detect` and the named target. */
  lemma AcceptedExactly(data: string, source: Language, target: Language)
    ensures GetLanguages(data) == Ok((source, target)) <==>
      || (PairForm(data) && FromCode(data[..2]) == Some(source) && FromCode(data[3..]) == Some(target))
      || (DetectForm(data) && source == Detect && FromCode(data[1..]) == Some(target))
  {
    if PairForm(data) {
      CodesShape(data[..2]);
      CodesShape(data[3..]);
      SplitHalves(data);
    }
    if GetLanguages(data).Ok? && |data| == 5 {
      var split := Split(data, ':');
      assert |split| == 2 && split[0] in Codes && split[1] in Codes;
      CodesShape(split[0]);
      CodesShape(split[1]);
      SplitJoin(data, ':');
      assert split[1..] == [split[1]];
      assert data == split[0] + [':'] + split[1];
      assert data[..2] == split[0] && data[3..] == split[1];
    }
  }

  /** A non-empty specifier of the wrong length, or a three-character one
      not led by a colon, is malformed before anything else is checked. */
  lemma RejectsWrongShape(data: string)
    requires data != []
    requires (|data| != 5 && |data| != 3) || (|data| == 3 && data[0] != ':')
    ensures GetLanguages(data) == Fail(Malformed)
  {
  }

  /** A five-character specifier without a colon at index 2 is not
      separated. */
  lemma RejectsUnseparated(data: string)
    requires |data| == 5 && data[2] != ':'
    ensures GetLanguages(data) == Fail(NotSeparated)
  {
  }

  /** A second colon makes more than two segments: malformed. */
  lemma RejectsExtraColon(data: string)
    requires |data| == 5 && data[2] == ':'
    requires ':' in data[..2] || ':' in data[3..]
    ensures GetLanguages(data) == Fail(Malformed)
  {
    assert data == data[..2] + data[2..];
    assert data[2..] == [':'] + data[3..];
    assert multiset(data)[':'] == multiset(data[..2])[':'] + 1 + multiset(data[3..])[':'];
    SplitCount(data, ':');
  }

  /** A well-shaped specifier naming an unlisted code is unknown, in both
      forms. */
  lemma RejectsUnknownCode(data: string)
    requires
      || (|data| == 5 && data[2] == ':' && ':' !in data[..2] && ':' !in data[3..]
          && (data[..2] !in Codes || data[3..] !in Codes))
      || (|data| == 3 && data[0] == ':' && data[1..] !in Codes)
    ensures GetLanguages(data) == Fail(UnknownLanguages)
  {
    if |data| == 5 {
      SplitHalves(data);
      var split := Split(data, ':');
      assert split[0] !in Codes || split[1] !in Codes;
    }
  }

  /** The terse output is one line holding exactly the translated text. */
  lemma TerseIsOneLine(data: Translation, pretty: Language -> string)
    requires '\n' !in data.output
    ensures Split(PrintData(data, false, pretty), '\n') == [data.output, ""]
  {
    assert PrintData(data, false, pretty) == data.output + ['\n'] + "";
    SplitAround(data.output, "", '\n');
  }

  /** The verbose output is exactly two lines, `<source name>: "<input>"`
      and `<target name>: "<output>"`, when no part holds a line break. */
  lemma VerboseIsTwoLines(data: Translation, pretty: Language -> string)
    requires '\n' !in pretty(data.source) && '\n' !in data.input
    requires '\n' !in pretty(data.target) && '\n' !in data.output
    ensures Split(PrintData(data, true, pretty), '\n') ==
      [pretty(data.source) + ": \"" + data.input + "\"", pretty(data.target) + ": \"" + data.output + "\"", ""]
  {
    var first := pretty(data.source) + ": \"" + data.input + "\"";
    var second := pretty(data.target) + ": \"" + data.output + "\"";
    var parts := [first, second, ""];
    assert parts[1..] == [second, ""] && parts[1..][1..] == [""];
    assert Join(parts[1..][1..], '\n') == "";
    assert Join(parts[1..], '\n') == second + ['\n'] + "";
    assert Join(parts, '\n') == first + ['\n'] + (second + ['\n'] + "");
    assert PrintData(data, true, pretty) == first + ['\n'] + (second + ['\n'] + "");
    assert forall i :: 0 <= i < |parts| ==> '\n' !in parts[i];
    JoinSplit(parts, '\n');
  }
}
