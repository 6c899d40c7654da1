# goconf resolution engine in Dafny

This project models how goconf fills configuration structs from the process
environment and the command line, and proves properties of that model.

- `Extract` takes an `ExtractorArgs` value. Its `Configs` list alternates
  pointers to target structs with name prefixes.
- `Extract` merges default options. If an env file is named, it loads that
  file first.
- It then walks every (record, prefix) pair in order. For each settable field
  it computes an environment name from the prefix and either the `env` tag or
  the field name.
- It asks the sources in the precedence list for a value. `OSEnv` is the
  process environment. `CMDArgs` is a small parser over `os.Args`.
- It coerces the first non-empty value to the field's kind and writes it into
  the struct in place.

Modules, one per source file plus three support modules:

| module | file | source |
|---|---|---|
| `Wrappers` | wrappers.dfy | `Option` and `Result`; `Fatal` is a Go panic, `Err` a returned `error` |
| `StrConv` | strconv.dfy | the parts of Go's `strconv.ParseInt(s, 10, 64)` and `strconv.ParseBool` that are used |
| `Fields` | fields.dfy | explicit field descriptors in place of reflection; `ConfigRecord` is a target struct |
| `StrCase` | str_case.dfy | str_case.go |
| `Args` | args.dfy | args.go |
| `EnvSources` | env_sources.dfy | env_sources.go |
| `ConfigExtractor` | config_extractor.dfy | config_extractor.go |

Form of the model:

- The option struct whose `mergeWithDefault` updates it through a pointer is
  the class `Args.ExtractorOptions`.
- A target struct is the class `Fields.ConfigRecord`. Its `fields` sequence is
  rewritten in place.
- The loops of `getEnvValFromCMDArgs`, `getEnvValuesFromSources`,
  `extractEnvByConfigIdx` and `Extract` are `while` loops. Each is proved
  equal to a specification function: `CmdArgsLookup`, `Resolve`, `BindFrom`
  and `ExtractSpec`. The properties are proved about those functions.
- `Extract` may be given the same record twice or a record in an odd slot.
  Its specification therefore works on a map from records to their contents,
  and proves what becomes of that map.

Outside inputs become parameters:

- The process environment, `os.Args` and the six strcase transforms form one
  `Process` value. The transforms are uninterpreted functions.
- The outcome of loading the env file is an `EnvFileLoad` value.

Strings are sequences of Unicode code points that stand for valid UTF-8 Go
strings. Several places index a Go string by byte:

- `rune(arg[0])` in `isArgStartValid` widens the first byte to a rune.
  `Utf8LeadByte` models that byte exactly.
- `cleanCMDArgName` compares `arg[0]` with `-`.
- `removeQuotes` compares `val[0]` and `val[len(val)-1]` with `'` and `"`,
  and slices by byte offsets.

The last two compare only with ASCII characters. UTF-8 never uses an ASCII
byte inside a multi-byte character, so for these tests a code point matches
exactly when the byte does, and a slice by code points matches the slice by
bytes.

Three behaviours of the code deserve a note:

- A token `name=` reaches `removeQuotes` with an empty value, and that
  panics because `val[0]` is out of range (`TrailingEqualsPanics`).
- With an odd-length `Configs` list the last record is still visited. When
  the binder reaches a settable field of that record, `args.Configs[idx+1]`
  panics (`PrefixAt`).
- config_extractor.go:56 calls `getEnvValuesFromSources` with two arguments,
  but the function takes three: prefix, name and options. The model calls it
  with prefix `""` and the already prefixed name. That applies the prefix
  exactly once in both sources, as getEnvName intends.

## Model

| member | source | states |
|---|---|---|
| StrCase.ChangeCaseUnknown | str_case.go:16-30 | a case style outside the six constants returns the name unchanged |
| StrCase.ChangeCase | str_case.go:16-30 | a style outside the six constants passes the name through; a known style applies the transform its table entry holds (which one is `ChangeCaseDispatch`) |
| StrCase.ChangeCaseDispatch | str_case.go:5-30 | each of the six case constants selects its own strcase transform, and the six constants are distinct |
| StrCase.CaseTable | str_case.go:17-24 | the dispatch table is defined on exactly the six case constants |
| StrCase.RemoveQuotes | str_case.go:32-44 | panics exactly on the empty value; otherwise returns a result at most two characters shorter, and never a returned error |
| StrCase.RemoveQuotesUnquoted | str_case.go:32-44 | a value with no quote at either end comes back unchanged |
| StrCase.RemoveQuotesQuoted | str_case.go:35-43 | one leading and one trailing quote are both removed, whether or not they match (`'abc"` gives `abc`) |
| StrCase.RemoveQuotesLeadingOnly | str_case.go:35-43 | a leading quote alone is dropped and the rest is kept |
| StrCase.RemoveQuotesTrailingOnly | str_case.go:38-43 | a trailing quote alone is dropped when the value is longer than one character |
| StrCase.RemoveQuotesLoneQuote | str_case.go:38-43 | a single quote character gives the empty string, because of the length guard |
| Args.Merged | args.go:43-53 | after the merge the options are normalised; EnvFile and both Omit flags are kept; each case style and the precedence list is replaced by its default only when empty |
| Args.MergedFixedPoints | args.go:43-53 | the merge leaves options unchanged exactly when nothing is empty |
| Args.MergedIdempotent | args.go:43-53 | merging twice is merging once |
| Args.ExtractorOptions.MergeWithDefault | args.go:43-53 | the in-place update leaves the struct equal to `Merged` of its old value |
| Args.ExtractorOptions.constructor | args.go:15-41 | a new options struct holds the given option values |
| EnvSources.Utf8LeadByte | env_sources.go:62 | the byte `rune(arg[0])` widens is below 0x100, equals an ASCII character and is at least 0xC0 for every other character |
| EnvSources.IsValidCMDArgStartName | env_sources.go:25-27 | on the byte values `rune(arg[0])` can produce: below 0x80 a valid start is exactly a letter, a digit or `_`; from 0xC0 every value but the Latin-1 signs × (0xD7) and ÷ (0xF7) is valid |
| EnvSources.IsArgStartValid | env_sources.go:60-66 | a token with a valid start is non-empty and starts with neither a dash nor `=` |
| EnvSources.ArgStartValidAscii | env_sources.go:25-27 | on an ASCII first character a token start is valid exactly for a letter, a digit or `_` |
| EnvSources.ArgStartValidNonAscii | env_sources.go:60-66 | on a non-ASCII first character the start is valid unless the character is in U+05C0..U+05FF (lead byte 0xD7) |
| EnvSources.ArgStartInvalidOnEmpty | env_sources.go:60-66 | the empty token has no valid start |
| EnvSources.CleanCMDArgName | env_sources.go:29-37 | panics exactly on the empty token; otherwise drops at most two leading characters, all of them dashes, and stops early only at a character that is not a dash |
| EnvSources.CleanKeepsThirdDash | env_sources.go:29-37 | `---x` cleans to `-x` |
| EnvSources.SplitFirst | env_sources.go:70 | splitting at the first `=` gives the text before it (free of `=`) and everything after it, which glue back to the token; without `=` the whole token is the key |
| EnvSources.SplitFirstAt | env_sources.go:70 | `key=value` with `=`-free key splits into exactly that key and value, even when the value contains `=` |
| EnvSources.CheckEnvNameInArg | env_sources.go:68-78 | never a returned error; a token whose key before the first `=` is not the name yields `""` |
| EnvSources.CheckOtherKey | env_sources.go:70-73 | `key=value` with an `=`-free key other than the name yields `""`, whatever the value |
| EnvSources.CheckAssignment | env_sources.go:68-76 | a token whose key is the name yields `removeQuotes` of everything after the first `=` |
| EnvSources.CheckWithoutEquals | env_sources.go:71-77 | a token without `=` yields the flag value exactly when it is the name, else `""` |
| EnvSources.CheckFallbackUnreachable | env_sources.go:44-77 | called from the scan, a valid cleaned token without `=` that is not the name yields `""`, so the flag-value return of checkEnvNameInArg is never what decides a lookup |
| EnvSources.TokenValue | env_sources.go:44-55 | one token panics exactly when it is empty or its value reaches `removeQuotes` empty; a cleaned token with an invalid first character yields `""` |
| EnvSources.CmdArgsLookup | env_sources.go:40-42 | fewer than two command-line tokens yield `""` |
| EnvSources.ScanTokens | env_sources.go:43-57 | the scan never returns an error value, and any result other than `""` is what some token contributes (which token is `ScanTokensFirstHit`) |
| EnvSources.ScanTokensFirstHit | env_sources.go:43-57 | the first token, in order, that gives a non-empty value or panics decides the scan |
| EnvSources.ScanTokensNoHit | env_sources.go:43-57 | the scan yields `""` exactly when no token gives anything |
| EnvSources.ScanTokensHitExists | env_sources.go:43-57 | any other result comes from a first such token |
| EnvSources.BooleanFlag | env_sources.go:43-51 | a bare `name`, `-name` or `--name` after silent tokens yields the flag value `true` |
| EnvSources.AssignmentToken | env_sources.go:43-76 | `name=v`, `-name=v` and `--name=v` yield `removeQuotes(v)` |
| EnvSources.Assignment | env_sources.go:43-57 | such a token after silent tokens decides the lookup with the unquoted value when that is non-empty |
| EnvSources.QuotedAndPlainAgree | env_sources.go:43-76 | `--name=v` and `--name="v"` both resolve to `v` |
| EnvSources.EmptyValueDoesNotStopScan | env_sources.go:52-57 | `--name=""` does not end the scan, and a later `--name=v` still supplies the value |
| EnvSources.TrailingEqualsPanics | env_sources.go:74-75 | `--name=` panics in `removeQuotes` instead of yielding a value |
| EnvSources.GetEnvValFromCMDArgs | env_sources.go:39-58 | the loop computes `CmdArgsLookup` |
| EnvSources.GetEnvValFromOSEnv | env_sources.go:80-86 | a present key `prefix+envName` gives exactly its stored value; an absent key gives `""` |
| EnvSources.SourceValue | env_sources.go:92-99 | a source never returns an error value; OSEnv never panics and looks the name up with the prefix under the environment case style; CMDArgs looks it up without the prefix under the command-line case style; any other entry gives `""` |
| EnvSources.Resolve | env_sources.go:88-107 | the value is `""` exactly when the source is the zero source; a winning source is in the precedence list and is `OSEnv` or `CMDArgs` |
| EnvSources.ResolveFirstSource | env_sources.go:91-105 | first match wins: the earliest entry with a value gives that value and itself as the source |
| EnvSources.ResolveNoSource | env_sources.go:89-106 | the result is `""` with the zero source exactly when no entry yields a value |
| EnvSources.PrecedenceDecides | env_sources.go:91-105 | when both sources have a value, the precedence order alone decides the winner |
| EnvSources.GetEnvValuesFromSources | env_sources.go:88-107 | the loop computes `Resolve` over the options' precedence list, using the environment case style for OSEnv and the command-line case style for CMDArgs |
| StrConv.ParseInt | config_extractor.go:105 | a string is accepted exactly when it is an optional sign followed by at least one digit and its signed value fits in 64 bits; the result is that signed value |
| StrConv.ParseIntPlusSign | config_extractor.go:105 | a leading `+` does not change the parse |
| StrConv.ParseIntLeadingZero | config_extractor.go:105 | a leading zero does not change the parse |
| StrConv.ParseIntFormatInt | config_extractor.go:105 | every 64-bit integer survives `FormatInt` then `ParseInt` |
| StrConv.ParseBool | config_extractor.go:113 | exactly the six true spellings give true and the six false spellings give false |
| StrConv.ParseBoolFormatBool | config_extractor.go:113 | `FormatBool` then `ParseBool` gives the boolean back |
| ConfigExtractor.NormalisedPrefix | config_extractor.go:77-87 | the empty prefix contributes nothing; a non-empty prefix ends in `_`, is unchanged when it already did, and otherwise gets exactly one `_` |
| ConfigExtractor.NormalisedPrefixIdempotent | config_extractor.go:84-86 | normalising a prefix twice changes nothing more |
| ConfigExtractor.PrefixAt | config_extractor.go:78-83 | a missing slot or a non-string slot panics; a returned error never happens; a string slot gives its normalised prefix |
| ConfigExtractor.GetEnvName | config_extractor.go:75-95 | panics exactly when the prefix slot does; errors exactly when the tag is absent and OmitNotTagged is set; otherwise prefix + tag, or prefix + field name without a tag |
| ConfigExtractor.PrefixComposition | config_extractor.go:84-94 | prefix `db` and prefix `db_` both name field `HOST` as `db_HOST` |
| ConfigExtractor.Coerce | config_extractor.go:102-122 | Int and Int64 take the 64-bit parse, a failed parse is a returned error and the only one; String is taken verbatim; Bool takes `ParseBool`; a bad boolean or any other kind panics; a written value always fits the field's kind |
| ConfigExtractor.CoerceIntRoundTrip | config_extractor.go:104-109 | a formatted 64-bit integer is written back as that integer |
| ConfigExtractor.FlagSetsBoolTrue | config_extractor.go:112-117 | the bare-flag value sets a boolean field to true |
| ConfigExtractor.SetConfigFieldValue | config_extractor.go:102-122 | on success only field `i` changes, to the coerced value; on failure the record is unchanged and the failure is passed on |
| ConfigExtractor.FieldStep | config_extractor.go:47-63 | a field that cannot be set is skipped; a returned error only comes from an Int or Int64 field; a value to write fits the field's kind |
| ConfigExtractor.FieldStepSkips | config_extractor.go:49-59 | a field is left alone exactly when it is not settable, its name is an error, or no source has a value |
| ConfigExtractor.OSEnvValueBinds | config_extractor.go:52-60 | with OSEnv first in the precedence list, a field whose converted name is set in the environment receives that value coerced to its kind |
| ConfigExtractor.CmdArgsFlagBinds | config_extractor.go:47-63 | with CMDArgs the only source, a bare `name`, `-name` or `--name` token for a boolean field, after silent tokens, sets the field to true |
| ConfigExtractor.FieldStepErrIsInteger | config_extractor.go:102-108 | the only returned error from a field is a failed integer parse of a non-empty resolved value |
| ConfigExtractor.BindFrom | config_extractor.go:46-65 | the binder keeps every field descriptor and the number of fields, and each field keeps its value or receives one that fits its kind; the rest is `BindFromOutcome` |
| ConfigExtractor.BindFromOutcome | config_extractor.go:46-65 | earlier fields are untouched. On success every field has had its step applied. On failure the first failing field decides, the fields before it are written and it and all later fields are unchanged (partial population) |
| ConfigExtractor.BindField | config_extractor.go:47-63 | one loop pass either leaves the record alone or writes the coerced value into field `i`; a failure leaves the record unchanged |
| ConfigExtractor.ExtractEnvByConfigIdx | config_extractor.go:39-66 | the loop leaves the record and result equal to `BindFrom` of its old fields; a non-pointer slot panics |
| ConfigExtractor.ConfigIdx | config_extractor.go:39-66 | one pair changes the store at its own record only, and a non-record slot changes nothing |
| ConfigExtractor.PairsFrom | config_extractor.go:22-28 | Extract's walk over the pairs keeps the set of records in the store; its outcome is `PairsFromOutcome`, its frame `PairsFromFrame` |
| ConfigExtractor.PairsFromRebinds | config_extractor.go:22-28 | however often a record is named, the walk keeps every field descriptor and only writes values that fit their fields' kinds |
| ConfigExtractor.PairsFromOutcome | config_extractor.go:22-27 | on success every pair succeeded, in order, on the state the earlier pairs left; on failure the first failing pair gives the outcome, the records written before and by it stay written, and records named by no pair up to it keep their contents |
| ConfigExtractor.PairsFromFrame | config_extractor.go:22-27 | a record named in no even slot is never changed |
| ConfigExtractor.ExtractIgnoresLoaderWithoutEnvFile | config_extractor.go:16-21 | without an env file the loader's outcome makes no difference |
| ConfigExtractor.ExtractLoadFailure | config_extractor.go:16-21 | a failed load returns its error before any record is touched |
| ConfigExtractor.ExtractUsesLoadedEnv | config_extractor.go:16-28 | after a successful load of a named env file, the pairs are bound against the loaded environment |
| ConfigExtractor.ExtractMergedOptions | config_extractor.go:15 | options that were already merged give the same outcome as the originals |
| ConfigExtractor.ExtractSpec | config_extractor.go:14-29 | the records of the store are kept and only rebound as `PairsFromRebinds` states; a failed load of a named env file returns its error with the store untouched |
| ConfigExtractor.Extract | config_extractor.go:14-29 | the outcome and the new contents of every target record are those of `ExtractSpec` on the old contents, so `PairsFromOutcome` and `BindFromOutcome` describe what a call returns and writes |

## Left out

- loadAllEnvValFromEnvFile, pathExist and godotenv.Load: file-system access. Their outcome, including the OmitEnvFileIfNotExist case, is the `EnvFileLoad` parameter.
- os.LookupEnv and os.Args are the `environ` and `args` fields of the `Process` parameter. Reading the live process is I/O.
- The strcase library's transforms are foreign code. They are uninterpreted function parameters, so nothing is proved about the shapes of the names they produce.
- Reflection is replaced by explicit `Field` descriptors. `IsValid() && CanSet()` is the one flag `settable`. The pointer-to-pointer branch at config_extractor.go:43-45 is not modelled.
- SetConfigFieldValue: does not model the truncation a 32-bit platform would apply when `SetInt` writes a 64-bit value into an `int` field, because `Int` stands for the 64-bit `int` of a 64-bit platform.
- GetEnvName: the error message does not include the formatted struct value, because `%v` of a reflected struct has no counterpart in the model.
- IsValidCMDArgStartName: defined only on runes below 0x100, because its one caller passes `rune(arg[0])`, a widened byte; `unicode.IsLetter` above Latin-1 is not modelled.
- Invalid UTF-8 in Go strings: model strings are code-point sequences, so only well-formed input is covered.
- Concurrent use of the process environment is not modelled.
- The source definitions of `defaultEnvCase`, `defaultCMDArgCase`, `defaultCMDArgValue` and `envTagName` are not part of this model. The values used are ScreamingSnake and Snake, as args.go documents, `"true"`, and `"env"`.
