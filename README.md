# libretrans: language-pair parsing and reporting, modelled in Dafny

`libretrans` is a command-line tool that translates a text between two
languages through a LibreTranslate service. Its only decision logic is the
parser for the language-pair argument and the two output routines around
it. The repository holds two revisions of that logic, and this project
models both:

- the current revision, `src/tools.rs`. `get_languages` accepts `xx:yy`
  and the detect form `:yy`. `print_data` renders a translation.
  `trans_error` prints an error in clap's style and exits with status 1.
- the earlier revision, `src/main.rs`. Here `main` parses the specifier
  inline, with no length check and no detect form. It then asks the
  service and hands the answer to its own `print_data` or `trans_error`.

Every routine is pure, so each is modelled as a Dafny function:

- The parsers return an `Outcome`. It is `Ok` with the pair, or `Fail`
  with one constructor per distinct headline (`Malformed`, `NotSeparated`,
  `UnknownLanguages`), or `Panic` for the `unwrap` of a character that is
  not there.
- `PrintData` returns the exact text written to standard output (colours
  stripped). The error reporters and `Cli.Run` return an `Exit`. It holds
  the exact text written to standard output and to standard error and the
  exit status.
- The translation service is a function parameter `translate`. The
  service's display names (`pretty()` and `as_pretty()`) are a parameter
  `pretty`.

Modules:

- `Strings` (strings.dfy): Rust's single-character `split`, its inverse
  `Join`, and the round-trip lemmas that connect them.
- `Languages` (languages.dfy): the ten languages plus `Detect`, the code
  table, and the two specifier shapes.
- `Outcomes` (outcomes.dfy): failures and their headlines, translations,
  service replies and exits.
- `Tools` (tools.dfy): the current revision.
- `Cli` (cli.dfy): the earlier revision and its `main` flow.

An empty TEXT is not a silent success: `src/main.rs:40-42` reports "The
following required arguments were not provided:" with detail `<TEXT>` and
exits with status 1 (`Cli.Run`, `Cli.EmptyTextReported`).

## Model

| member | source | states |
|---|---|---|
| `Strings.Split` | src/tools.rs:69 | `split(':')` yields at least one segment, and no segment contains the separator |
| `Strings.SplitCount` | src/tools.rs:69-71 | a split has exactly one more segment than the string has separators, so `split.len() == 2` means exactly one colon |
| `Strings.SplitJoin` | src/tools.rs:69 | joining the segments of a split with the separator gives back the original specifier |
| `Strings.JoinSplit` | src/tools.rs:69 | splitting the join of separator-free segments gives back those segments |
| `Strings.SplitAround` | src/main.rs:53 | a string with a single separator splits into the text before it and the text after it |
| `Languages.CodeOf` | src/tools.rs:40 | every concrete language has a code in the ten-code list |
| `Languages.FromCode` | src/tools.rs:81-82 | a code names a language exactly when it is in the ten-code list; that language is never `Detect`, and its code is the one given, so the map is injective |
| `Languages.CodeRoundTrip` | src/main.rs:70-71 | every concrete language is recovered from its own code |
| `Languages.CodesShape` | src/tools.rs:40 | every listed code has two characters and no colon |
| `Outcomes.HeadlinesDistinct` | src/tools.rs:43-79 | distinct parser failures print distinct headlines |
| `Tools.Usage` | src/tools.rs:28-32 | the usage reminder starts with `USAGE:`, ends with a blank line, and names `--verbose` exactly in the verbose variant |
| `Tools.PrintData` | src/tools.rs:6-12 | terse output is exactly the translated text plus a line break; verbose output starts with `<source name>: "<input>"` and ends with `<target name>: "<output>"` |
| `Tools.TerseIsOneLine` | src/tools.rs:10 | the terse output is a single line holding the translated text |
| `Tools.VerboseIsTwoLines` | src/tools.rs:8 | the verbose output is exactly two lines, `<source name>: "<input>"` and `<target name>: "<output>"` |
| `Tools.Detail` | src/tools.rs:18-22 | the detail block is indented exactly when `text` is empty, and ends with the detail text and a blank line |
| `Tools.TransError` | src/tools.rs:15-35 | every report starts with `error: <headline>` and the chosen detail block, puts the Tip on standard output, ends with the usage line for the verbose flag and the `--help` pointer, and exits with status 1 |
| `Tools.TransErrorLayout` | src/tools.rs:16-22 | the line after the headline is the indented detail if and only if `text` is empty |
| `Tools.GetLanguages` | src/tools.rs:39-85 | an empty specifier panics and nothing else does; `Detect` is never the target; the source is `Detect` exactly for three-character specifiers |
| `Tools.SplitHalves` | src/tools.rs:65-73 | a five-character specifier whose only colon is at index 2 splits into its two halves |
| `Tools.AcceptedExactly` | src/tools.rs:39-85 | a specifier parses to `(s, t)` if and only if it is `xx:yy` with `s`, `t` the languages of the listed codes `xx`, `yy`, or `:yy` with `s = Detect` and `t` the language of the listed code `yy` |
| `Tools.RejectsWrongShape` | src/tools.rs:43-46 | a non-empty specifier of a length other than 5 or 3, or a three-character one without a leading colon, fails as malformed |
| `Tools.RejectsUnseparated` | src/tools.rs:65-67 | a five-character specifier without a colon at index 2 fails as not separated |
| `Tools.RejectsExtraColon` | src/tools.rs:69-73 | a five-character specifier with a colon at index 2 and another colon fails as malformed |
| `Tools.RejectsUnknownCode` | src/tools.rs:47-79 | a well-shaped specifier, in pair or detect form, with an unlisted segment fails with "Unknown languages" |
| `Tools.Reject` | src/tools.rs:45-77 | a parser failure is reported with its own headline and the possible values as detail, the Tip on standard output and status 1; for a non-empty specifier the detail stands between blank lines |
| `Cli.PrintData` | src/main.rs:79-85 | given the same display names, the earlier revision renders a translation exactly as the current one does |
| `Cli.UsageAsWritten` | src/main.rs:96-100 | the verbose usage matches the current revision's; the terse usage is the current revision's without its closing blank line |
| `Cli.TransErrorAsWritten` | src/main.rs:87-104 | the report as written: `error: <headline>` and the chosen detail block, then the usage as written and the `--help` pointer, nothing on standard output, status 1 |
| `Cli.AsWrittenJoinsHelpLine` | src/main.rs:99-102 | without `--verbose`, the `--help` pointer follows the usage text on the same line |
| `Cli.TransError` | src/main.rs:87-104 | the corrected report writes to standard error exactly what the current revision writes, nothing to standard output, and exits with status 1 |
| `Cli.HelpOnOwnLine` | src/main.rs:96-102 | in the corrected report the `--help` pointer stands on its own line after a blank line, for both values of the flag |
| `Cli.LanguageSegments` | src/main.rs:44-65 | a specifier shorter than three characters panics and nothing else does; an accepted specifier yields two listed codes |
| `Cli.ParseLanguages` | src/main.rs:44-71 | panics exactly below three characters; an accepted pair never involves `Detect` |
| `Cli.SegmentsAcceptedExactly` | src/main.rs:44-65 | the accepted specifiers are exactly `xx:yy` over listed codes, and the result is the two halves in order |
| `Cli.RejectsUnseparated` | src/main.rs:49-51 | every specifier of three or more characters without a colon at index 2 fails as not separated; this covers every `:yy`, so this revision has no detect form |
| `Cli.RejectsBadSplit` | src/main.rs:53-57 | a specifier with a colon at index 2 and a colon count other than one fails as malformed |
| `Cli.RejectsUnknownCode` | src/main.rs:59-63 | a specifier whose single colon is at index 2, with an unlisted code on either side, fails with "Unknown languages" |
| `Cli.CrossRevision` | src/main.rs:44-71 | both revisions give the same outcome on every five-character specifier; the earlier one accepts exactly what the current one accepts in pair form, with the same pair; it rejects every `:yy` that the current one accepts |
| `Cli.Run` | src/main.rs:35-76 | a run panics only on a non-empty text with a specifier under three characters; the exit status is 0 or 1, and 0 exactly when the text is non-empty, the specifier parses and the service translates; every error exit writes nothing to standard output and ends standard error with the usage as written and the `--help` pointer |
| `Cli.EmptyTextReported` | src/main.rs:40-42 | an empty text is reported with headline "The following required arguments were not provided:", the indented detail `<TEXT>` and status 1, whatever the specifier and the service |
| `Cli.ParseFailureReported` | src/main.rs:44-68 | a parse failure is reported with its headline and the possible values between blank lines, with status 1, and the service is not consulted |
| `Cli.RequestErrorRelayed` | src/main.rs:73-76 | the service's error message is reported unchanged under "Translation request error", with status 1 |
| `Cli.UnseparatedRunJoinsHelpLine` | src/main.rs:49-51 | a run with the specifier `en-fr` and no `--verbose` exits with status 1, nothing on standard output, and the `--help` pointer continuing the terse usage line |
| `Cli.TranslationPrinted` | src/main.rs:73-74 | a translation is printed to standard output, nothing goes to standard error, and the status is 0 |

## Findings

| source | as written | input that shows it | evidently intended | confidence | as-written member | corrected member |
|---|---|---|---|---|---|---|
| src/main.rs:99 | the terse usage text `USAGE:\n    libretrans [FLAGS] <INPUT>:<OUTPUT> <TEXT>` is printed without a line break, so the `--help` pointer printed next continues the same line | any error report without `--verbose`, e.g. the specifier `en-fr` | close the usage with a blank line, as the verbose variant and the later revision (src/tools.rs:31) do | high (not executed) | `Cli.AsWrittenJoinsHelpLine` | `Cli.HelpOnOwnLine` |

`Cli.Run` reports errors with `Cli.TransErrorAsWritten`, the text as
written. `Cli.TransError` is the corrected report.

## Left out

- Argument registration and matching with clap (src/main.rs:7-33). The two `panic!`s for a missing value (src/main.rs:37, 67) cannot happen, because clap marks both arguments as required. The flags reach the model as a `verbose` boolean.
- The HTTP call `Translator::translate` (src/main.rs:73). It is the parameter `translate` of `Cli.Run`. Its error text enters as the `RequestError` message, already converted to a string.
- Display names (`pretty()`, `as_pretty()`). They belong to the libretranslate crate, which is not part of this model, so they are the parameter `pretty`. The code-to-language map `FromCode` is total on the ten listed codes, which is all the parsers use. The `Err` arm and the `unwrap`s after the membership checks (src/tools.rs:56-59, 81-82; src/main.rs:70-71) are modelled as `Panic`, and the lemmas show that arm is never reached.
- ANSI colours from `colored`. The text is modelled without escape codes.
- The real `std::process::exit`. The exit status is returned in `Exit`.
- The panic message and exit status of a Rust panic. A panic is modelled only as `Panicked`.
- The caller of the current revision's `get_languages`, `print_data` and `trans_error`. That entry point is not part of this model, so the `Tools` functions are modelled on their own, without a `Run`.
- The endpoint override (`--url`). It appears in neither source file.
- Cli.TransError: the corrected report of `src/main.rs:87-104`, with the terse usage closed by a blank line, as recorded under Findings; `Cli.TransErrorAsWritten` is the text as written and is what `Cli.Run` uses.
