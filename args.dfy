/** Sources, extractor options and their defaults (args.go). */
module Args {
  import opened StrCase
  import opened Fields

  /** A source kind is a plain string in the source; only the two names below
      are consulted by the resolver. The zero source is "". */
  type EnvSource = string

  const OSEnv: EnvSource := "OSEnv"
  const CMDArgs: EnvSource := "CMDArgs"

  const DefaultSourcePrecedence: seq<EnvSource> := [OSEnv, CMDArgs]

  /** Defaults documented at args.go:31 and args.go:34. */
  const DefaultEnvCase: CaseType := ScreamingSnake
  const DefaultCMDArgCase: CaseType := Snake

  /** The value of an ExtractorOptions struct. A nil precedence slice and an
      empty one are both the empty sequence. */
  datatype Options = Options(
    envFile: string,
    omitEnvFileIfNotExist: bool,
    omitNotTagged: bool,
    envNameCaseType: CaseType,
    cmdArgsNameCaseType: CaseType,
    envSourcePrecedence: seq<EnvSource>)

  /** Options that need no default filled in. */
  predicate IsNormalised(o: Options)
  {
    o.envNameCaseType != "" && o.cmdArgsNameCaseType != "" && o.envSourcePrecedence != []
  }

  /** The options after mergeWithDefault. */
  function Merged(o: Options): (m: Options)
    ensures IsNormalised(m)
    ensures m.envFile == o.envFile
    ensures m.omitEnvFileIfNotExist == o.omitEnvFileIfNotExist
    ensures m.omitNotTagged == o.omitNotTagged
    ensures m.envNameCaseType == if o.envNameCaseType == "" then DefaultEnvCase else o.envNameCaseType
    ensures m.cmdArgsNameCaseType == if o.cmdArgsNameCaseType == "" then DefaultCMDArgCase else o.cmdArgsNameCaseType
    ensures m.envSourcePrecedence == if o.envSourcePrecedence == [] then DefaultSourcePrecedence else o.envSourcePrecedence
  {
    o.(envNameCaseType := if o.envNameCaseType == "" then DefaultEnvCase else o.envNameCaseType,
       cmdArgsNameCaseType := if o.cmdArgsNameCaseType == "" then DefaultCMDArgCase else o.cmdArgsNameCaseType,
       envSourcePrecedence := if o.envSourcePrecedence == [] then DefaultSourcePrecedence else o.envSourcePrecedence)
  }

  /** The options mergeWithDefault leaves alone are exactly the normalised
      ones: it only ever fills in what is empty. */
  lemma MergedFixedPoints(o: Options)
    ensures Merged(o) == o <==> IsNormalised(o)
  {
    if Merged(o) == o {
      assert IsNormalised(Merged(o));
    }
  }

  /** Merging twice is merging once. */
  lemma MergedIdempotent(o: Options)
    ensures Merged(Merged(o)) == Merged(o)
  {
    MergedFixedPoints(Merged(o));
  }

  /** The ExtractorOptions struct, whose mergeWithDefault updates its fields
      in place through the pointer receiver. */
  class ExtractorOptions {
    var envFile: string
    var omitEnvFileIfNotExist: bool
    var omitNotTagged: bool
    var envNameCaseType: CaseType
    var cmdArgsNameCaseType: CaseType
    var envSourcePrecedence: seq<EnvSource>

    function Value(): Options
      reads this
    {
      Options(envFile, omitEnvFileIfNotExist, omitNotTagged,
              envNameCaseType, cmdArgsNameCaseType, envSourcePrecedence)
    }

    constructor (o: Options)
      ensures Value() == o
    {
      envFile := o.envFile;
      omitEnvFileIfNotExist := o.omitEnvFileIfNotExist;
      omitNotTagged := o.omitNotTagged;
      envNameCaseType := o.envNameCaseType;
      cmdArgsNameCaseType := o.cmdArgsNameCaseType;
      envSourcePrecedence := o.envSourcePrecedence;
    }

    method MergeWithDefault()
      modifies this
      ensures Value() == Merged(old(Value()))
    {
      if envNameCaseType == "" {
        envNameCaseType := DefaultEnvCase;
      }
      if cmdArgsNameCaseType == "" {
        cmdArgsNameCaseType := DefaultCMDArgCase;
      }
      if envSourcePrecedence == [] {
        envSourcePrecedence := DefaultSourcePrecedence;
      }
    }
  }

  /** One element of the Configs slice (an `interface{}`): a pointer to a
      target struct, a string, or any other value. */
  datatype ConfigItem = RecordRef(rec: ConfigRecord) | Text(s: string) | OtherItem

  /** ExtractorArgs. Configs is meant to alternate record pointers and
      prefixes; nothing enforces it, so the model admits any sequence. */
  datatype ExtractorArgs = ExtractorArgs(options: Options, configs: seq<ConfigItem>)

  /** The records the even slots of Configs point to. */
  function RecordsOf(configs: seq<ConfigItem>): set<ConfigRecord>
  {
    set i | 0 <= i < |configs| && i % 2 == 0 && configs[i].RecordRef? :: configs[i].rec
  }
}
