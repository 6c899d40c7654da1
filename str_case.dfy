/** Case-style dispatch and quote stripping (str_case.go). */
module StrCase {
  import opened Wrappers

  /** A case style is a plain string in the source; the six names below are
      the recognised ones, anything else is passed through unchanged. */
  type CaseType = string

  const ScreamingSnake: CaseType := "ANY_KIND_OF_STRING"
  const Snake: CaseType := "any_kind_of_string"
  const Kebab: CaseType := "any-kind-of-string"
  const ScreamingKebab: CaseType := "ANY-KIND-OF-STRING"
  const Camel: CaseType := "AnyKindOfString"
  const LowerCamel: CaseType := "anyKindOfString"

  const KnownCases: set<CaseType> :=
    {ScreamingSnake, Snake, Kebab, ScreamingKebab, Camel, LowerCamel}

  /** The six transforms of the strcase library. They are foreign code, so
      the model takes them as parameters and assumes nothing about them. */
  datatype Transforms = Transforms(
    toScreamingSnake: string -> string,
    toSnake: string -> string,
    toKebab: string -> string,
    toScreamingKebab: string -> string,
    toCamel: string -> string,
    toLowerCamel: string -> string)

  /** The dispatch table built inside changeCase. */
  function CaseTable(t: Transforms): (m: map<CaseType, string -> string>)
    ensures m.Keys == KnownCases
  {
    map[ScreamingSnake := t.toScreamingSnake,
        Snake := t.toSnake,
        Kebab := t.toKebab,
        ScreamingKebab := t.toScreamingKebab,
        Camel := t.toCamel,
        LowerCamel := t.toLowerCamel]
  }

  /** changeCase: look the style up in the table and apply its transform;
      a style outside the table passes the name through. */
  function ChangeCase(t: Transforms, caseTypeVal: CaseType, envName: string): (r: string)
    ensures caseTypeVal !in KnownCases ==> r == envName
    ensures caseTypeVal in KnownCases ==> r == CaseTable(t)[caseTypeVal](envName)
  {
    var m := CaseTable(t);
    if caseTypeVal in m then m[caseTypeVal](envName) else envName
  }

  /** An unrecognised case style leaves the name as it is. */
  lemma ChangeCaseUnknown(t: Transforms, caseTypeVal: CaseType, envName: string)
    requires caseTypeVal !in KnownCases
    ensures ChangeCase(t, caseTypeVal, envName) == envName
  {
  }

  /** Each of the six constants selects its own transform: the constants are
      pairwise distinct, so no entry of the table shadows another. */
  lemma ChangeCaseDispatch(t: Transforms, envName: string)
    ensures ChangeCase(t, ScreamingSnake, envName) == t.toScreamingSnake(envName)
    ensures ChangeCase(t, Snake, envName) == t.toSnake(envName)
    ensures ChangeCase(t, Kebab, envName) == t.toKebab(envName)
    ensures ChangeCase(t, ScreamingKebab, envName) == t.toScreamingKebab(envName)
    ensures ChangeCase(t, Camel, envName) == t.toCamel(envName)
    ensures ChangeCase(t, LowerCamel, envName) == t.toLowerCamel(envName)
    ensures |KnownCases| == 6
  {
  }

  predicate IsQuote(c: char)
  {
    c == '\'' || c == '"'
  }

  /** removeQuotes: drop a leading quote if there is one, and, independently,
      a trailing quote if the value is longer than one character. Go indexes
      `val[0]`, so the empty value panics. */
  function RemoveQuotes(val: string): (r: Result<string>)
    ensures r.Fatal? <==> val == ""
    ensures !r.Err?
    ensures r.Ok? ==> |r.value| <= |val| <= |r.value| + 2
  {
    if val == "" then Fatal(IndexOutOfRange)
    else
      var startIdx := if IsQuote(val[0]) then 1 else 0;
      var endIdx := if IsQuote(val[|val| - 1]) && |val| > 1 then |val| - 1 else |val|;
      Ok(val[startIdx..endIdx])
  }

  /** A value with no quote at either end comes back unchanged. */
  lemma RemoveQuotesUnquoted(val: string)
    requires val != "" && !IsQuote(val[0]) && !IsQuote(val[|val| - 1])
    ensures RemoveQuotes(val) == Ok(val)
  {
    assert val[0..|val|] == val;
  }

  /** Quoting then unquoting gives the value back; the two quote characters
      need not match (`'abc"` loses both). */
  lemma RemoveQuotesQuoted(open: char, s: string, close: char)
    requires IsQuote(open) && IsQuote(close)
    ensures RemoveQuotes([open] + s + [close]) == Ok(s)
  {
    var val := [open] + s + [close];
    assert val[0] == open && val[|val| - 1] == close;
    assert val[1..|val| - 1] == s;
  }

  /** Only a leading quote: just that one is dropped. */
  lemma RemoveQuotesLeadingOnly(open: char, s: string)
    requires IsQuote(open) && s != "" && !IsQuote(s[|s| - 1])
    ensures RemoveQuotes([open] + s) == Ok(s)
  {
    var val := [open] + s;
    assert val[|val| - 1] == s[|s| - 1];
    assert val[1..|val|] == s;
  }

  /** Only a trailing quote: just that one is dropped. */
  lemma RemoveQuotesTrailingOnly(s: string, close: char)
    requires IsQuote(close) && s != "" && !IsQuote(s[0])
    ensures RemoveQuotes(s + [close]) == Ok(s)
  {
    var val := s + [close];
    assert val[0] == s[0] && val[|val| - 1] == close;
    assert val[..|val| - 1] == s;
  }

  /** A lone quote character is both leading and trailing, but the length
      guard keeps only the leading strip: the result is empty. */
  lemma RemoveQuotesLoneQuote(q: char)
    requires IsQuote(q)
    ensures RemoveQuotes([q]) == Ok("")
  {
  }
}
