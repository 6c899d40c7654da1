/** The command-line micro-parser and the source-chain resolver
    (env_sources.go). */
module EnvSources {
  import opened Wrappers
  import opened StrCase
  import opened Args

  /** The value a bare flag such as `-active` stands for. */
  const DefaultCMDArgValue: string := "true"

  /** What the process looks like to the extractor: its environment, its
      `os.Args`, and the strcase transforms. */
  datatype Process = Process(environ: map<string, string>, args: seq<string>, caseFns: Transforms)

  /** The outcome of loadAllEnvValFromEnvFile, which is not modelled: the
      environment after the file was loaded into it, or the error it returned. */
  datatype EnvFileLoad = Loaded(environ: map<string, string>) | LoadFailed(msg: string)

  // ---------------------------------------------------------------------
  // Start of a command-line token

  /** Go strings are UTF-8 bytes and `rune(arg[0])` widens the first BYTE.
      A model string is a sequence of code points, so this is the first byte
      of the UTF-8 encoding of its first code point. */
  function Utf8LeadByte(c: char): (b: nat)
    ensures b < 0x100
    ensures c as int < 0x80 ==> b == c as int
    ensures c as int >= 0x80 ==> b >= 0xC0
  {
    var n := c as int;
    if n < 0x80 then n
    else if n < 0x800 then 0xC0 + n / 0x40
    else if n < 0x1_0000 then 0xE0 + n / 0x1000
    else 0xF0 + n / 0x4_0000
  }

  predicate IsAsciiLetter(b: nat)
  {
    ('A' as nat <= b <= 'Z' as nat) || ('a' as nat <= b <= 'z' as nat)
  }

  predicate IsAsciiDigit(b: nat)
  {
    '0' as nat <= b <= '9' as nat
  }

  /** unicode.IsLetter on a rune below 0x100: the ASCII letters and the
      Latin-1 letters ª, µ, º, À..Ö, Ø..ö and ø..ÿ. */
  predicate IsLatin1Letter(r: nat)
  {
    IsAsciiLetter(r) || r == 0xAA || r == 0xB5 || r == 0xBA
    || (0xC0 <= r <= 0xD6) || (0xD8 <= r <= 0xF6) || (0xF8 <= r <= 0xFF)
  }

  /** isValidCMDArgStartName on the runes its one caller can pass: a byte
      widened to a rune, so below 0x100. There it is a Latin-1 letter, a
      digit or `_`; unicode.IsDigit is only 0..9 below 0x100. */
  predicate IsValidCMDArgStartName(r: nat): (b: bool)
    requires r < 0x100
    ensures r < 0x80 ==> (b <==> IsAsciiLetter(r) || IsAsciiDigit(r) || r == '_' as nat)
    ensures r == 0xD7 || r == 0xF7 ==> !b
    ensures 0xC0 <= r && r != 0xD7 && r != 0xF7 ==> b
  {
    IsLatin1Letter(r) || IsAsciiDigit(r) || r == '_' as nat
  }

  /** isArgStartValid: a non-empty token whose first byte, widened to a
      rune, is a valid start. A dash or `=` is never a valid start. */
  predicate IsArgStartValid(arg: string): (b: bool)
    ensures b ==> arg != "" && arg[0] != '-' && arg[0] != '='
  {
    |arg| > 0 && IsValidCMDArgStartName(Utf8LeadByte(arg[0]))
  }

  /** On an ASCII first character the test is: a letter, a digit or `_`. */
  lemma ArgStartValidAscii(arg: string)
    requires arg != "" && arg[0] as int < 0x80
    ensures IsArgStartValid(arg) <==>
              (IsAsciiLetter(arg[0] as nat) || IsAsciiDigit(arg[0] as nat) || arg[0] == '_')
  {
  }

  /** On a non-ASCII first character the lead byte decides, and the only
      lead byte that is not a Latin-1 letter is 0xD7 (×), the lead byte of
      U+05C0..U+05FF. */
  lemma ArgStartValidNonAscii(arg: string)
    requires arg != "" && arg[0] as int >= 0x80
    ensures IsArgStartValid(arg) <==> !(0x5C0 <= arg[0] as int < 0x600)
  {
    var n := arg[0] as int;
    var b := Utf8LeadByte(arg[0]);
    if n < 0x800 {
      assert b == 0xC0 + n / 0x40;
      assert 0xC2 <= b <= 0xDF;
      assert b == 0xD7 <==> 0x5C0 <= n < 0x600;
    } else if n < 0x1_0000 {
      assert 0xE0 <= b <= 0xEF;
    } else {
      assert n <= 0x10_FFFF;
      assert 0xF0 <= b <= 0xF4;
    }
  }

  lemma ArgStartInvalidOnEmpty()
    ensures !IsArgStartValid("")
  {
  }

  // ---------------------------------------------------------------------
  // One token

  function TrimDash(s: string): string
  {
    if s != "" && s[0] == '-' then s[1..] else s
  }

  /** cleanCMDArgName: strip at most two leading dashes. Go indexes
      `arg[0]`, so an empty token panics. */
  function CleanCMDArgName(arg: string): (r: Result<string>)
    ensures r.Fatal? <==> arg == ""
    ensures !r.Err?
    ensures r.Ok? ==> |arg| - 2 <= |r.value| <= |arg| && r.value == arg[|arg| - |r.value|..]
    ensures r.Ok? ==> forall k :: 0 <= k < |arg| - |r.value| ==> arg[k] == '-'
    ensures r.Ok? && |arg| - |r.value| < 2 && r.value != "" ==> r.value[0] != '-'
  {
    if arg == "" then Fatal(IndexOutOfRange)
    else if arg[0] == '-' then Ok(TrimDash(TrimDash(arg)))
    else Ok(arg)
  }

  /** A third dash survives: `---x` cleans to `-x`. */
  lemma CleanKeepsThirdDash(x: string)
    ensures CleanCMDArgName("---" + x) == Ok("-" + x)
  {
    assert ("---" + x)[1..][1..] == "-" + x;
  }

  /** strings.SplitN(s, "=", 2): the text before the first `=` and, when there
      is one, everything after it. */
  function SplitFirst(s: string): (r: (string, Option<string>))
    ensures r.1.None? ==> r.0 == s && '=' !in s
    ensures r.1.Some? ==> s == r.0 + "=" + r.1.value && '=' !in r.0
    decreases |s|
  {
    if s == "" then ("", None)
    else if s[0] == '=' then ("", Some(s[1..]))
    else
      var rest := SplitFirst(s[1..]);
      ([s[0]] + rest.0, rest.1)
  }

  /** Splitting at a key without `=` gives the key and the whole rest, even
      when the rest holds further `=` characters. */
  lemma {:induction false} SplitFirstAt(key: string, value: string)
    requires '=' !in key
    ensures SplitFirst(key + "=" + value) == (key, Some(value))
    decreases |key|
  {
    if key != "" {
      assert (key + "=" + value)[1..] == key[1..] + "=" + value;
      assert '=' !in key[1..] by {
        forall k | 0 <= k < |key[1..]| ensures key[1..][k] != '=' {
          assert key[1..][k] == key[k + 1];
        }
      }
      SplitFirstAt(key[1..], value);
      assert [key[0]] + key[1..] == key;
    }
  }

  /** checkEnvNameInArg: "" when the key before the first `=` is not the
      name, the unquoted value after it when it is, and the flag value when
      there is no `=` at all. */
  function CheckEnvNameInArg(arg: string, envName: string): (r: Result<string>)
    ensures !r.Err?
    ensures SplitFirst(arg).0 != envName ==> r == Ok("")
  {
    var sp := SplitFirst(arg);
    if sp.0 != envName then Ok("")
    else if sp.1.Some? then RemoveQuotes(sp.1.value)
    else Ok(DefaultCMDArgValue)
  }

  /** A `key=value` token whose key is the name yields the unquoted value,
      which may itself contain `=`. */
  lemma CheckAssignment(envName: string, value: string)
    requires '=' !in envName
    ensures CheckEnvNameInArg(envName + "=" + value, envName) == RemoveQuotes(value)
  {
    SplitFirstAt(envName, value);
  }

  /** A `key=value` token whose key is another name yields nothing, whatever
      the value. */
  lemma CheckOtherKey(key: string, value: string, envName: string)
    requires '=' !in key && key != envName
    ensures CheckEnvNameInArg(key + "=" + value, envName) == Ok("")
  {
    SplitFirstAt(key, value);
  }

  /** Without `=` the token yields the flag value exactly when it IS the name.
      getEnvValFromCMDArgs has already returned that case before calling, so
      from there this branch only ever yields "" (CheckFallbackUnreachable). */
  lemma CheckWithoutEquals(arg: string, envName: string)
    requires '=' !in arg
    ensures CheckEnvNameInArg(arg, envName) == if arg == envName then Ok(DefaultCMDArgValue) else Ok("")
  {
  }

  /** Called from getEnvValFromCMDArgs, the flag-value fallback of
      checkEnvNameInArg is never reached: a valid cleaned token without `=`
      that is not the name yields "". */
  lemma CheckFallbackUnreachable(envName: string, tok: string)
    requires CleanCMDArgName(tok).Ok?
    requires var c := CleanCMDArgName(tok).value; IsArgStartValid(c) && c != envName && '=' !in c
    ensures CheckEnvNameInArg(CleanCMDArgName(tok).value, envName) == Ok("")
    ensures TokenValue(envName, tok) == Ok("")
  {
    CheckWithoutEquals(CleanCMDArgName(tok).value, envName);
  }

  /** What one token of os.Args contributes: "" for no match. */
  function TokenValue(envName: string, tok: string): (r: Result<string>)
    ensures !r.Err?
    ensures r.Fatal? <==> tok == "" || (CleanCMDArgName(tok).Ok? && IsArgStartValid(CleanCMDArgName(tok).value)
                                         && CheckEnvNameInArg(CleanCMDArgName(tok).value, envName).Fatal?)
    ensures CleanCMDArgName(tok).Ok? && !IsArgStartValid(CleanCMDArgName(tok).value) ==> r == Ok("")
  {
    var cleaned := CleanCMDArgName(tok);
    if !cleaned.Ok? then cleaned
    else if !IsArgStartValid(cleaned.value) then Ok("")
    else if cleaned.value == envName then Ok(DefaultCMDArgValue)
    else CheckEnvNameInArg(cleaned.value, envName)
  }

  /** The scan of getEnvValFromCMDArgs: the first token, in order, that
      gives a non-empty value (or panics) decides. */
  function ScanTokens(envName: string, toks: seq<string>): (r: Result<string>)
    ensures !r.Err?
    ensures r != Ok("") ==> exists j :: 0 <= j < |toks| && TokenValue(envName, toks[j]) == r
    decreases |toks|
  {
    if toks == [] then Ok("")
    else
      var t := TokenValue(envName, toks[0]);
      if !t.Ok? || t.value != "" then t else ScanTokens(envName, toks[1..])
  }

  /** getEnvValFromCMDArgs as a specification. */
  function CmdArgsLookup(envName: string, args: seq<string>): (r: Result<string>)
    ensures !r.Err?
    ensures |args| < 2 ==> r == Ok("")
  {
    if |args| < 2 then Ok("") else ScanTokens(envName, args)
  }

  predicate NoHitBefore(envName: string, toks: seq<string>, i: int)
    requires i <= |toks|
  {
    forall j :: 0 <= j < i ==> TokenValue(envName, toks[j]) == Ok("")
  }

  /** Token `i` is the first one that says anything. */
  predicate FirstHit(envName: string, toks: seq<string>, i: int)
  {
    0 <= i < |toks| && TokenValue(envName, toks[i]) != Ok("") && NoHitBefore(envName, toks, i)
  }

  lemma {:induction false} ScanTokensFirstHit(envName: string, toks: seq<string>, i: int)
    requires FirstHit(envName, toks, i)
    ensures ScanTokens(envName, toks) == TokenValue(envName, toks[i])
    decreases i
  {
    if i > 0 {
      assert TokenValue(envName, toks[0]) == Ok("");
      var rest := toks[1..];
      forall j | 0 <= j < i - 1 ensures TokenValue(envName, rest[j]) == Ok("") {
        assert rest[j] == toks[j + 1];
      }
      assert rest[i - 1] == toks[i];
      ScanTokensFirstHit(envName, rest, i - 1);
    }
  }

  /** No token of a non-empty list says anything exactly when the first
      does not and none of the rest does. */
  lemma NoHitBeforeCons(envName: string, toks: seq<string>)
    requires toks != []
    ensures NoHitBefore(envName, toks, |toks|)
            <==> TokenValue(envName, toks[0]) == Ok("") && NoHitBefore(envName, toks[1..], |toks| - 1)
  {
    var rest := toks[1..];
    if NoHitBefore(envName, toks, |toks|) {
      forall j | 0 <= j < |rest| ensures TokenValue(envName, rest[j]) == Ok("") {
        assert rest[j] == toks[j + 1];
      }
    }
    if TokenValue(envName, toks[0]) == Ok("") && NoHitBefore(envName, rest, |rest|) {
      forall j | 0 <= j < |toks| ensures TokenValue(envName, toks[j]) == Ok("") {
        if j > 0 { assert toks[j] == rest[j - 1]; }
      }
    }
  }

  lemma {:induction false} ScanTokensNoHit(envName: string, toks: seq<string>)
    ensures ScanTokens(envName, toks) == Ok("") <==> NoHitBefore(envName, toks, |toks|)
    decreases |toks|
  {
    if toks != [] {
      ScanTokensNoHit(envName, toks[1..]);
      NoHitBeforeCons(envName, toks);
    }
  }

  /** One step of the scan, at token `i`. */
  lemma ScanTokensAt(envName: string, toks: seq<string>, i: nat)
    requires i < |toks|
    ensures var t := TokenValue(envName, toks[i]);
            ScanTokens(envName, toks[i..]) == if !t.Ok? || t.value != "" then t else ScanTokens(envName, toks[i + 1..])
  {
    assert toks[i..][1..] == toks[i + 1..];
  }

  /** A result other than "" always comes from a first hit. */
  lemma {:induction false} ScanTokensHitExists(envName: string, toks: seq<string>)
    requires ScanTokens(envName, toks) != Ok("")
    ensures exists i :: FirstHit(envName, toks, i)
    decreases |toks|
  {
    if TokenValue(envName, toks[0]) != Ok("") {
      assert FirstHit(envName, toks, 0);
    } else {
      var rest := toks[1..];
      ScanTokensHitExists(envName, rest);
      var i :| FirstHit(envName, rest, i);
      forall j | 0 <= j < i + 1 ensures TokenValue(envName, toks[j]) == Ok("") {
        if j > 0 { assert toks[j] == rest[j - 1]; }
      }
      assert toks[i + 1] == rest[i];
      assert FirstHit(envName, toks, i + 1);
    }
  }

  /** A bare `-name`, `--name` or `name` token is the boolean-flag shorthand. */
  lemma BooleanFlag(envName: string, args: seq<string>, i: int, dashes: string)
    requires |args| >= 2 && 0 <= i < |args| && NoHitBefore(envName, args, i)
    requires IsArgStartValid(envName)
    requires dashes in {"", "-", "--"} && args[i] == dashes + envName
    ensures CmdArgsLookup(envName, args) == Ok(DefaultCMDArgValue)
  {
    assert CleanCMDArgName(args[i]) == Ok(envName) by {
      assert envName[0] != '-';
      if dashes == "-" {
        assert args[i][0] == '-' && args[i][1..] == envName;
        assert TrimDash(args[i]) == envName;
        assert TrimDash(envName) == envName;
      } else if dashes == "--" {
        assert args[i][1..] == "-" + envName;
        assert TrimDash(TrimDash(args[i])) == envName;
      } else {
        assert args[i] == envName;
      }
    }
    ScanTokensFirstHit(envName, args, i);
  }

  /** A `-name=v`, `--name=v` or `name=v` token yields v without its quotes
      (or the panic of removeQuotes on an empty v). */
  lemma AssignmentToken(envName: string, dashes: string, value: string)
    requires IsArgStartValid(envName) && '=' !in envName
    requires dashes in {"", "-", "--"}
    ensures TokenValue(envName, dashes + envName + "=" + value) == RemoveQuotes(value)
  {
    var tok := dashes + envName + "=" + value;
    var kv := envName + "=" + value;
    assert kv[0] == envName[0] && kv[0] != '-';
    assert CleanCMDArgName(tok) == Ok(kv) by {
      if dashes == "" {
        assert tok == kv;
      } else if dashes == "-" {
        assert tok[1..] == kv;
      } else if dashes == "--" {
        assert tok[1..][1..] == kv;
      }
    }
    assert kv[0] == envName[0];
    CheckAssignment(envName, value);
    assert kv != envName;
  }

  /** `-name=v`, `--name=v` or `name=v` yields v without its quotes, when
      that is not empty. */
  lemma Assignment(envName: string, args: seq<string>, i: int, dashes: string, value: string, unquoted: string)
    requires |args| >= 2 && 0 <= i < |args| && NoHitBefore(envName, args, i)
    requires IsArgStartValid(envName) && '=' !in envName
    requires dashes in {"", "-", "--"} && args[i] == dashes + envName + "=" + value
    requires RemoveQuotes(value) == Ok(unquoted) && unquoted != ""
    ensures CmdArgsLookup(envName, args) == Ok(unquoted)
  {
    AssignmentToken(envName, dashes, value);
    ScanTokensFirstHit(envName, args, i);
  }

  /** `--name=v` and `--name="v"` both resolve to v. */
  lemma QuotedAndPlainAgree(envName: string, program: string, v: string)
    requires IsArgStartValid(envName) && '=' !in envName
    requires TokenValue(envName, program) == Ok("")
    requires v != "" && !IsQuote(v[0]) && !IsQuote(v[|v| - 1])
    ensures CmdArgsLookup(envName, [program, "--" + envName + "=" + v]) == Ok(v)
    ensures CmdArgsLookup(envName, [program, "--" + envName + "=" + ("\"" + v + "\"")]) == Ok(v)
  {
    RemoveQuotesUnquoted(v);
    RemoveQuotesQuoted('"', v, '"');
    assert "\"" + v + "\"" == ['"'] + v + ['"'];
    Assignment(envName, [program, "--" + envName + "=" + v], 1, "--", v, v);
    Assignment(envName, [program, "--" + envName + "=" + ("\"" + v + "\"")], 1, "--", "\"" + v + "\"", v);
  }

  /** A matching token whose unquoted value is empty does not end the scan:
      a later token still supplies the value. */
  lemma EmptyValueDoesNotStopScan(envName: string, program: string, value: string, unquoted: string)
    requires IsArgStartValid(envName) && '=' !in envName
    requires TokenValue(envName, program) == Ok("")
    requires RemoveQuotes(value) == Ok(unquoted) && unquoted != ""
    ensures CmdArgsLookup(envName, [program, "--" + envName + "=" + "\"\"", "--" + envName + "=" + value]) == Ok(unquoted)
  {
    var args := [program, "--" + envName + "=" + "\"\"", "--" + envName + "=" + value];
    AssignmentToken(envName, "--", "\"\"");
    RemoveQuotesQuoted('"', "", '"');
    assert "\"\"" == ['"'] + "" + ['"'];
    assert NoHitBefore(envName, args, 2);
    Assignment(envName, args, 2, "--", value, unquoted);
  }

  /** `--name=` reaches removeQuotes with an empty value, which panics. */
  lemma TrailingEqualsPanics(envName: string, program: string)
    requires IsArgStartValid(envName) && '=' !in envName
    requires TokenValue(envName, program) == Ok("")
    ensures CmdArgsLookup(envName, [program, "--" + envName + "="]).Fatal?
  {
    var args := [program, "--" + envName + "="];
    AssignmentToken(envName, "--", "");
    assert args[1] == "--" + envName + "=" + "";
    ScanTokensFirstHit(envName, args, 1);
  }

  /** getEnvValFromCMDArgs. */
  method GetEnvValFromCMDArgs(envName: string, args: seq<string>) returns (r: Result<string>)
    ensures r == CmdArgsLookup(envName, args)
  {
    if |args| < 2 {
      return Ok("");
    }
    var i := 0;
    while i < |args|
      invariant 0 <= i <= |args|
      invariant ScanTokens(envName, args) == ScanTokens(envName, args[i..])
    {
      ScanTokensAt(envName, args, i);
      var cleaned := CleanCMDArgName(args[i]);
      if !cleaned.Ok? {
        return cleaned;
      }
      var arg := cleaned.value;
      if !IsArgStartValid(arg) {
        i := i + 1;
        continue;
      }
      // the bare name is a flag that stands for true
      if arg == envName {
        return Ok(DefaultCMDArgValue);
      }
      var value := CheckEnvNameInArg(arg, envName);
      if !value.Ok? || value.value != "" {
        return value;
      }
      i := i + 1;
    }
    return Ok("");
  }

  // ---------------------------------------------------------------------
  // The source chain

  /** getEnvValFromOSEnv: an absent key reads as "". */
  function GetEnvValFromOSEnv(environ: map<string, string>, prefix: string, envName: string): (r: string)
    ensures prefix + envName in environ ==> r == environ[prefix + envName]
    ensures r != "" ==> prefix + envName in environ && environ[prefix + envName] == r
    ensures prefix + envName !in environ ==> r == ""
  {
    var key := prefix + envName;
    if key in environ then environ[key] else ""
  }

  /** What one entry of the precedence list yields. OSEnv looks the name up
      under the environment case style and with the prefix; CMDArgs looks
      it up under the command-line case style and without the prefix; any
      other entry matches no case of the switch and yields "". */
  function SourceValue(source: EnvSource, prefix: string, envName: string, opts: Options, p: Process): (r: Result<string>)
    ensures !r.Err?
    ensures source == OSEnv ==> r.Ok?
    ensures source != OSEnv && source != CMDArgs ==> r == Ok("")
    ensures source == OSEnv ==> r == Ok(GetEnvValFromOSEnv(p.environ, prefix, ChangeCase(p.caseFns, opts.envNameCaseType, envName)))
    ensures source == CMDArgs ==> r == CmdArgsLookup(ChangeCase(p.caseFns, opts.cmdArgsNameCaseType, envName), p.args)
  {
    if source == OSEnv then
      Ok(GetEnvValFromOSEnv(p.environ, prefix, ChangeCase(p.caseFns, opts.envNameCaseType, envName)))
    else if source == CMDArgs then
      CmdArgsLookup(ChangeCase(p.caseFns, opts.cmdArgsNameCaseType, envName), p.args)
    else Ok("")
  }

  /** getEnvValuesFromSources as a specification, over a suffix of the
      precedence list. The value is "" exactly when the source is the zero
      source "", and a winning source is one of the two known ones. */
  function Resolve(prec: seq<EnvSource>, prefix: string, envName: string, opts: Options, p: Process): (r: Result<(string, EnvSource)>)
    ensures !r.Err?
    ensures r.Ok? ==> (r.value.0 == "" <==> r.value.1 == "")
    ensures r.Ok? && r.value.1 != "" ==> r.value.1 in prec && r.value.1 in {OSEnv, CMDArgs}
    decreases |prec|
  {
    if prec == [] then Ok(("", ""))
    else
      var v := SourceValue(prec[0], prefix, envName, opts, p);
      if !v.Ok? then Fatal(v.msg)
      else if v.value != "" then Ok((v.value, prec[0]))
      else Resolve(prec[1..], prefix, envName, opts, p)
  }

  predicate NoSourceBefore(prec: seq<EnvSource>, prefix: string, envName: string, opts: Options, p: Process, i: int)
    requires i <= |prec|
  {
    forall j :: 0 <= j < i ==> SourceValue(prec[j], prefix, envName, opts, p) == Ok("")
  }

  /** Entry `i` is the earliest one that yields a value (or panics). */
  predicate FirstSource(prec: seq<EnvSource>, prefix: string, envName: string, opts: Options, p: Process, i: int)
  {
    0 <= i < |prec| && SourceValue(prec[i], prefix, envName, opts, p) != Ok("")
    && NoSourceBefore(prec, prefix, envName, opts, p, i)
  }

  /** First match wins: the earliest entry with a value decides, with that
      value and that entry as the source; later entries are never looked at. */
  lemma {:induction false} ResolveFirstSource(prec: seq<EnvSource>, prefix: string, envName: string, opts: Options, p: Process, i: int)
    requires FirstSource(prec, prefix, envName, opts, p, i)
    ensures var v := SourceValue(prec[i], prefix, envName, opts, p);
            Resolve(prec, prefix, envName, opts, p) == if v.Ok? then Ok((v.value, prec[i])) else Fatal(v.msg)
    decreases i
  {
    if i > 0 {
      assert SourceValue(prec[0], prefix, envName, opts, p) == Ok("");
      var rest := prec[1..];
      forall j | 0 <= j < i - 1 ensures SourceValue(rest[j], prefix, envName, opts, p) == Ok("") {
        assert rest[j] == prec[j + 1];
      }
      assert rest[i - 1] == prec[i];
      ResolveFirstSource(rest, prefix, envName, opts, p, i - 1);
    }
  }

  /** No entry of a non-empty list yields a value exactly when the first
      one does not and none of the rest does. */
  lemma NoSourceBeforeCons(prec: seq<EnvSource>, prefix: string, envName: string, opts: Options, p: Process)
    requires prec != []
    ensures NoSourceBefore(prec, prefix, envName, opts, p, |prec|)
            <==> SourceValue(prec[0], prefix, envName, opts, p) == Ok("")
                 && NoSourceBefore(prec[1..], prefix, envName, opts, p, |prec| - 1)
  {
    var rest := prec[1..];
    if NoSourceBefore(prec, prefix, envName, opts, p, |prec|) {
      forall j | 0 <= j < |rest| ensures SourceValue(rest[j], prefix, envName, opts, p) == Ok("") {
        assert rest[j] == prec[j + 1];
      }
    }
    if SourceValue(prec[0], prefix, envName, opts, p) == Ok("") && NoSourceBefore(rest, prefix, envName, opts, p, |rest|) {
      forall j | 0 <= j < |prec| ensures SourceValue(prec[j], prefix, envName, opts, p) == Ok("") {
        if j > 0 { assert prec[j] == rest[j - 1]; }
      }
    }
  }

  /** Nothing found anywhere: the empty value and the zero source. */
  lemma {:induction false} ResolveNoSource(prec: seq<EnvSource>, prefix: string, envName: string, opts: Options, p: Process)
    ensures Resolve(prec, prefix, envName, opts, p) == Ok(("", "")) <==> NoSourceBefore(prec, prefix, envName, opts, p, |prec|)
    decreases |prec|
  {
    if prec != [] {
      ResolveNoSource(prec[1..], prefix, envName, opts, p);
      NoSourceBeforeCons(prec, prefix, envName, opts, p);
    }
  }

  /** One step of the resolver, at entry `i` of the list. */
  lemma ResolveAt(prec: seq<EnvSource>, i: nat, prefix: string, envName: string, opts: Options, p: Process)
    requires i < |prec|
    ensures var v := SourceValue(prec[i], prefix, envName, opts, p);
            Resolve(prec[i..], prefix, envName, opts, p)
            == if !v.Ok? then Fatal(v.msg)
               else if v.value != "" then Ok((v.value, prec[i]))
               else Resolve(prec[i + 1..], prefix, envName, opts, p)
  {
    assert prec[i..][1..] == prec[i + 1..];
  }

  /** When both sources have a value, the order of the precedence list alone
      picks the winner, in either order. */
  lemma PrecedenceDecides(prefix: string, envName: string, opts: Options, p: Process, fromEnv: string, fromArgs: string)
    requires SourceValue(OSEnv, prefix, envName, opts, p) == Ok(fromEnv) && fromEnv != ""
    requires SourceValue(CMDArgs, prefix, envName, opts, p) == Ok(fromArgs) && fromArgs != ""
    ensures Resolve([OSEnv, CMDArgs], prefix, envName, opts, p) == Ok((fromEnv, OSEnv))
    ensures Resolve([CMDArgs, OSEnv], prefix, envName, opts, p) == Ok((fromArgs, CMDArgs))
  {
  }

  /** getEnvValuesFromSources. */
  method GetEnvValuesFromSources(prefix: string, envName: string, opts: Options, p: Process)
    returns (r: Result<(string, EnvSource)>)
    ensures r == Resolve(opts.envSourcePrecedence, prefix, envName, opts, p)
  {
    var prec := opts.envSourcePrecedence;
    var val := "";
    var finalSource: EnvSource := "";
    var i := 0;
    while i < |prec|
      invariant 0 <= i <= |prec|
      invariant val == "" && finalSource == ""
      invariant Resolve(prec, prefix, envName, opts, p) == Resolve(prec[i..], prefix, envName, opts, p)
    {
      ResolveAt(prec, i, prefix, envName, opts, p);
      var source := prec[i];
      if source == OSEnv {
        var envNameKey := ChangeCase(p.caseFns, opts.envNameCaseType, envName);
        val := GetEnvValFromOSEnv(p.environ, prefix, envNameKey);
      } else if source == CMDArgs {
        var envNameKey := ChangeCase(p.caseFns, opts.cmdArgsNameCaseType, envName);
        var fromArgs := GetEnvValFromCMDArgs(envNameKey, p.args);
        if !fromArgs.Ok? {
          return Fatal(fromArgs.msg);
        }
        val := fromArgs.value;
      }
      assert SourceValue(source, prefix, envName, opts, p) == Ok(val);
      if val == "" {
        i := i + 1;
        continue;
      }
      finalSource := source;
      break;
    }
    return Ok((val, finalSource));
  }
}
