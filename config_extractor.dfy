/** The field binder: names, coercion, the per-record loop and Extract
    (config_extractor.go). */
module ConfigExtractor {
  import opened Wrappers
  import opened StrConv
  import opened Fields
  import opened Args
  import opened EnvSources
  import opened StrCase

  /** The struct-tag key that carries a field's explicit name. */
  const EnvTagName: string := "env"

  const InvalidConfiguration: string := "ERROR: Invalid configuration. Expected string"
  const UnhandledKind: string := "unhandled default case"
  /** A stand-in for the panic message of `reflect.Value.Elem` on a value
      that is not a pointer; Go's own message names the actual kind. */
  const ElemOfNonPointer: string := "reflect: call of reflect.Value.Elem on non-pointer Value"

  // ---------------------------------------------------------------------
  // Names

  /** A non-empty prefix is made to end in exactly one added `_`, unless it
      already ends in `_`; the empty prefix contributes nothing. */
  function NormalisedPrefix(prefix: string): (r: string)
    ensures prefix == "" ==> r == ""
    ensures prefix != "" ==> r != "" && r[|r| - 1] == '_' && (r == prefix || r == prefix + "_")
    ensures prefix != "" && prefix[|prefix| - 1] == '_' ==> r == prefix
  {
    if prefix == "" then ""
    else if prefix[|prefix| - 1] == '_' then prefix
    else prefix + "_"
  }

  lemma NormalisedPrefixIdempotent(prefix: string)
    ensures NormalisedPrefix(NormalisedPrefix(prefix)) == NormalisedPrefix(prefix)
  {
  }

  /** The prefix slot after record `idx`: a missing slot is an index panic, a
      slot that is not a string is the explicit panic. */
  function PrefixAt(configs: seq<ConfigItem>, idx: nat): (r: Result<string>)
    ensures !r.Err?
    ensures r.Fatal? <==> idx + 1 >= |configs| || !configs[idx + 1].Text?
    ensures r.Ok? ==> r.value == NormalisedPrefix(configs[idx + 1].s)
  {
    if idx + 1 >= |configs| then Fatal(IndexOutOfRange)
    else match configs[idx + 1]
      case Text(s) => Ok(NormalisedPrefix(s))
      case _ => Fatal(InvalidConfiguration)
  }

  /** getEnvName. The prefix is looked at before the tag, so a bad prefix
      slot panics even for a field that would have been skipped. */
  function GetEnvName(configs: seq<ConfigItem>, idx: nat, f: Field, omitNotTagged: bool): (r: Result<string>)
    ensures r.Fatal? <==> PrefixAt(configs, idx).Fatal?
    ensures r.Fatal? ==> r.msg == PrefixAt(configs, idx).msg
    ensures r.Err? <==> PrefixAt(configs, idx).Ok? && EnvTagName !in f.tags && omitNotTagged
    ensures r.Ok? && EnvTagName in f.tags ==> r.value == PrefixAt(configs, idx).value + f.tags[EnvTagName]
    ensures r.Ok? && EnvTagName !in f.tags ==> r.value == PrefixAt(configs, idx).value + f.name
  {
    var prefix := PrefixAt(configs, idx);
    if !prefix.Ok? then prefix
    else if EnvTagName !in f.tags then
      if omitNotTagged then Err("unable to get the value name")
      else Ok(prefix.value + f.name)
    else Ok(prefix.value + f.tags[EnvTagName])
  }

  /** Prefix `db` and field `HOST` give `db_HOST`; `db_` is not doubled. */
  lemma PrefixComposition(rec: ConfigRecord, f: Field, omitNotTagged: bool)
    requires EnvTagName !in f.tags && !omitNotTagged && f.name == "HOST"
    ensures GetEnvName([RecordRef(rec), Text("db")], 0, f, omitNotTagged) == Ok("db_HOST")
    ensures GetEnvName([RecordRef(rec), Text("db_")], 0, f, omitNotTagged) == Ok("db_HOST")
  {
    assert NormalisedPrefix("db") == "db_";
    assert "db_" + "HOST" == "db_HOST";
  }

  // ---------------------------------------------------------------------
  // Coercion

  /** A value a field of kind `k` can hold after setConfigFieldValue: a
      64-bit integer for Int and Int64, a string, a boolean; nothing is
      ever written into a field of another kind. */
  predicate Fits(k: Kind, v: Value)
  {
    match k
    case Int | Int64 => v.IntValue? && MinInt64 <= v.i <= MaxInt64
    case String => v.StringValue?
    case Bool => v.BoolValue?
    case Unsupported(_) => false
  }

  /** `after` is `before` with some values written: the field descriptors
      are kept, and each field either keeps its value or holds one that
      fits its kind. */
  predicate Rebound(before: seq<Field>, after: seq<Field>)
  {
    |after| == |before|
    && forall j :: 0 <= j < |before| ==>
         after[j].(value := before[j].value) == before[j]
         && (after[j].value == before[j].value || Fits(before[j].kind, after[j].value))
  }

  lemma ReboundRefl(a: seq<Field>)
    ensures Rebound(a, a)
  {
  }

  lemma ReboundTrans(a: seq<Field>, b: seq<Field>, c: seq<Field>)
    requires Rebound(a, b) && Rebound(b, c)
    ensures Rebound(a, c)
  {
    forall j | 0 <= j < |a|
      ensures c[j].(value := a[j].value) == a[j]
      ensures c[j].value == a[j].value || Fits(a[j].kind, c[j].value)
    {
      assert b[j].(value := a[j].value) == a[j];
      assert c[j].(value := b[j].value) == b[j];
    }
  }

  /** The value setConfigFieldValue writes for a field of that kind, or the
      failure it reports: an integer that does not parse is a returned
      error, a boolean that does not parse and any other kind panic. */
  function Coerce(f: Field, value: string): (r: Result<Value>)
    ensures r.Err? ==> f.kind == Int || f.kind == Int64
    ensures (f.kind == Int || f.kind == Int64) && ParseInt(value).None? ==> r.Err?
    ensures (f.kind == Int || f.kind == Int64) ==>
              (r.Ok? <==> ParseInt(value).Some?) && (r.Ok? ==> r.value == IntValue(ParseInt(value).value))
    ensures f.kind == String ==> r == Ok(StringValue(value))
    ensures f.kind == Bool ==>
              (r.Ok? <==> ParseBool(value).Some?) && (r.Ok? ==> r.value == BoolValue(ParseBool(value).value))
    ensures f.kind.Unsupported? ==> r.Fatal?
    ensures r.Ok? ==> Fits(f.kind, r.value)
  {
    match f.kind
    case Int | Int64 =>
      var n := ParseInt(value);
      if n.Some? then Ok(IntValue(n.value))
      else Err("invalid integer: " + value + " of type string")
    case String => Ok(StringValue(value))
    case Bool =>
      var b := ParseBool(value);
      if b.Some? then Ok(BoolValue(b.value)) else Fatal("invalid boolean value " + value)
    case Unsupported(_) => Fatal(UnhandledKind)
  }

  /** Any 64-bit integer written by strconv.FormatInt lands in an integer
      field unchanged. */
  lemma CoerceIntRoundTrip(f: Field, n: int)
    requires f.kind == Int || f.kind == Int64
    requires MinInt64 <= n <= MaxInt64
    ensures Coerce(f, FormatInt(n)) == Ok(IntValue(n))
  {
    ParseIntFormatInt(n);
  }

  /** The bare-flag value sets a boolean field to true. */
  lemma FlagSetsBoolTrue(f: Field)
    requires f.kind == Bool
    ensures Coerce(f, DefaultCMDArgValue) == Ok(BoolValue(true))
  {
  }

  /** setConfigFieldValue on field `i` of a record, written in place. */
  method SetConfigFieldValue(rec: ConfigRecord, i: nat, value: string) returns (res: Result<()>)
    requires i < |rec.fields|
    modifies rec
    ensures var c := Coerce(old(rec.fields[i]), value);
            if c.Ok? then res == Ok(()) && rec.fields == old(rec.fields)[i := old(rec.fields[i]).(value := c.value)]
            else res == c.Propagate() && rec.fields == old(rec.fields)
  {
    var field := rec.fields[i];
    match field.kind {
      case Int | Int64 =>
        var valueInt := ParseInt(value);
        if valueInt.None? {
          return Err("invalid integer: " + value + " of type string");
        }
        rec.fields := rec.fields[i := field.(value := IntValue(valueInt.value))];
      case String =>
        rec.fields := rec.fields[i := field.(value := StringValue(value))];
      case Bool =>
        var val := ParseBool(value);
        if val.None? {
          return Fatal("invalid boolean value " + value);
        }
        rec.fields := rec.fields[i := field.(value := BoolValue(val.value))];
      case Unsupported(_) =>
        return Fatal(UnhandledKind);
    }
    return Ok(());
  }

  // ---------------------------------------------------------------------
  // One record

  /** What the loop of extractEnvByConfigIdx does with one field: skip it
      (`None`), write a value into it, or stop with a failure. The resolver is
      called with prefix "" and the already prefixed name. */
  function FieldStep(configs: seq<ConfigItem>, idx: nat, f: Field, opts: Options, p: Process): (r: Result<Option<Value>>)
    ensures !f.settable ==> r == Ok(None)
    ensures r.Err? ==> f.kind == Int || f.kind == Int64
    ensures r.Ok? && r.value.Some? ==> Fits(f.kind, r.value.value)
  {
    if !f.settable then Ok(None)
    else
      var envName := GetEnvName(configs, idx, f, opts.omitNotTagged);
      if envName.Fatal? then envName.Propagate()
      else if envName.Err? then Ok(None)
      else
        var found := Resolve(opts.envSourcePrecedence, "", envName.value, opts, p);
        if !found.Ok? then found.Propagate()
        else if found.value.0 == "" then Ok(None)
        else
          var c := Coerce(f, found.value.0);
          if c.Ok? then Ok(Some(c.value)) else c.Propagate()
  }

  /** Sparse overlay: a field is skipped, and so keeps its value, exactly
      when it is not settable, has no name, or no source has a value for it. */
  lemma FieldStepSkips(configs: seq<ConfigItem>, idx: nat, f: Field, opts: Options, p: Process)
    ensures FieldStep(configs, idx, f, opts, p) == Ok(None) <==>
              !f.settable
              || GetEnvName(configs, idx, f, opts.omitNotTagged).Err?
              || (GetEnvName(configs, idx, f, opts.omitNotTagged).Ok?
                  && Resolve(opts.envSourcePrecedence, "", GetEnvName(configs, idx, f, opts.omitNotTagged).value, opts, p) == Ok(("", "")))
  {
  }

  /** With OSEnv first in the precedence list, a field whose (case-converted)
      name is set in the environment receives that value, coerced to its kind:
      `PORT=8080` on an int field `Port` gives 8080. */
  lemma OSEnvValueBinds(configs: seq<ConfigItem>, idx: nat, f: Field, opts: Options, p: Process, v: string)
    requires f.settable && GetEnvName(configs, idx, f, opts.omitNotTagged).Ok?
    requires opts.envSourcePrecedence != [] && opts.envSourcePrecedence[0] == OSEnv
    requires var key := ChangeCase(p.caseFns, opts.envNameCaseType, GetEnvName(configs, idx, f, opts.omitNotTagged).value);
             key in p.environ && p.environ[key] == v
    requires v != "" && Coerce(f, v).Ok?
    ensures FieldStep(configs, idx, f, opts, p) == Ok(Some(Coerce(f, v).value))
  {
    var key := ChangeCase(p.caseFns, opts.envNameCaseType, GetEnvName(configs, idx, f, opts.omitNotTagged).value);
    assert "" + key == key;
  }

  /** With CMDArgs as the only source, a bare flag naming an untagged or
      tagged boolean field (after the command-line case style) sets it to
      true: `--verbose` on a field `Verbose` gives true. */
  lemma CmdArgsFlagBinds(configs: seq<ConfigItem>, idx: nat, f: Field, opts: Options, p: Process, i: nat, dashes: string)
    requires f.settable && f.kind == Bool && GetEnvName(configs, idx, f, opts.omitNotTagged).Ok?
    requires opts.envSourcePrecedence == [CMDArgs]
    requires var key := ChangeCase(p.caseFns, opts.cmdArgsNameCaseType, GetEnvName(configs, idx, f, opts.omitNotTagged).value);
             IsArgStartValid(key) && |p.args| >= 2 && i < |p.args| && NoHitBefore(key, p.args, i)
             && dashes in {"", "-", "--"} && p.args[i] == dashes + key
    ensures FieldStep(configs, idx, f, opts, p) == Ok(Some(BoolValue(true)))
  {
    var key := ChangeCase(p.caseFns, opts.cmdArgsNameCaseType, GetEnvName(configs, idx, f, opts.omitNotTagged).value);
    BooleanFlag(key, p.args, i, dashes);
    FlagSetsBoolTrue(f);
  }

  /** The only reported error of a field is a failed integer parse; every
      other failure is a panic. */
  lemma FieldStepErrIsInteger(configs: seq<ConfigItem>, idx: nat, f: Field, opts: Options, p: Process)
    requires FieldStep(configs, idx, f, opts, p).Err?
    ensures f.kind == Int || f.kind == Int64
    ensures exists v :: Resolve(opts.envSourcePrecedence, "", GetEnvName(configs, idx, f, opts.omitNotTagged).value, opts, p) == Ok(v)
                        && v.0 != "" && ParseInt(v.0).None?
  {
    var name := GetEnvName(configs, idx, f, opts.omitNotTagged).value;
    var found := Resolve(opts.envSourcePrecedence, "", name, opts, p);
    assert found.Ok?;
  }

  /** A field after the step. */
  function Applied(f: Field, step: Result<Option<Value>>): Field
  {
    if step.Ok? && step.value.Some? then f.(value := step.value.value) else f
  }

  /** Field `k` is the first field from `i` on whose step fails. */
  predicate FailsFirstAt(configs: seq<ConfigItem>, idx: nat, fields: seq<Field>, i: nat, k: int, opts: Options, p: Process)
  {
    i <= k < |fields| && !FieldStep(configs, idx, fields[k], opts, p).Ok?
    && forall j :: i <= j < k ==> FieldStep(configs, idx, fields[j], opts, p).Ok?
  }

  /** Fields `i` to `k` of `out` are those of `fields` with their steps applied. */
  predicate AppliedBetween(configs: seq<ConfigItem>, idx: nat, fields: seq<Field>, out: seq<Field>, i: nat, k: nat, opts: Options, p: Process)
    requires k <= |fields| == |out|
  {
    forall j :: i <= j < k ==>
      FieldStep(configs, idx, fields[j], opts, p).Ok?
      && out[j] == Applied(fields[j], FieldStep(configs, idx, fields[j], opts, p))
  }

  /** The binder stopped at field `k` with that field's failure: the fields
      before it have had their steps applied, it and all after it are as
      they were. */
  predicate StopsAt(configs: seq<ConfigItem>, idx: nat, fields: seq<Field>, outcome: Result<()>, out: seq<Field>,
                    i: nat, k: int, opts: Options, p: Process)
    requires |fields| == |out|
  {
    FailsFirstAt(configs, idx, fields, i, k, opts, p)
    && outcome == FieldStep(configs, idx, fields[k], opts, p).Propagate()
    && AppliedBetween(configs, idx, fields, out, i, k, opts, p)
    && forall j :: k <= j < |fields| ==> out[j] == fields[j]
  }

  /** The loop of extractEnvByConfigIdx from field `i` on, as a function of
      the fields: the outcome and the fields afterwards. */
  function BindFrom(configs: seq<ConfigItem>, idx: nat, fields: seq<Field>, i: nat, opts: Options, p: Process)
    : (r: (Result<()>, seq<Field>))
    requires i <= |fields|
    ensures |r.1| == |fields|
    ensures Rebound(fields, r.1)
    decreases |fields| - i
  {
    if i == |fields| then (Ok(()), fields)
    else
      var step := FieldStep(configs, idx, fields[i], opts, p);
      if !step.Ok? then (step.Propagate(), fields)
      else
        var next := fields[i := Applied(fields[i], step)];
        var r := BindFrom(configs, idx, next, i + 1, opts, p);
        ReboundTrans(fields, next, r.1);
        r
  }

  /** What the binder does to a record. Fields before `i` are not touched. On
      success every field has had its step applied; on a failure the first
      failing field decides the outcome, the fields before it have had their
      steps applied, and it and all fields after it keep their values
      (partial population). */
  lemma {:induction false} BindFromOutcome(configs: seq<ConfigItem>, idx: nat, fields: seq<Field>, i: nat, opts: Options, p: Process)
    requires i <= |fields|
    ensures var r := BindFrom(configs, idx, fields, i, opts, p);
            (forall j :: 0 <= j < i ==> r.1[j] == fields[j])
            && (r.0.Ok? ==> AppliedBetween(configs, idx, fields, r.1, i, |fields|, opts, p))
            && (!r.0.Ok? ==> exists k :: StopsAt(configs, idx, fields, r.0, r.1, i, k, opts, p))
    decreases |fields| - i
  {
    var r := BindFrom(configs, idx, fields, i, opts, p);
    if i < |fields| {
      var step := FieldStep(configs, idx, fields[i], opts, p);
      if !step.Ok? {
        assert StopsAt(configs, idx, fields, r.0, r.1, i, i, opts, p);
      } else {
        var next := fields[i := Applied(fields[i], step)];
        BindFromOutcome(configs, idx, next, i + 1, opts, p);
        assert r == BindFrom(configs, idx, next, i + 1, opts, p);
        assert r.1[i] == Applied(fields[i], step);
        forall j | 0 <= j < i ensures r.1[j] == fields[j] {
          assert next[j] == fields[j];
        }
        if r.0.Ok? {
          forall j | i <= j < |fields|
            ensures FieldStep(configs, idx, fields[j], opts, p).Ok?
            ensures r.1[j] == Applied(fields[j], FieldStep(configs, idx, fields[j], opts, p))
          {
            if j > i {
              assert next[j] == fields[j];
            }
          }
        } else {
          var k :| StopsAt(configs, idx, next, r.0, r.1, i + 1, k, opts, p);
          assert next[k] == fields[k];
          forall j | i <= j < k
            ensures FieldStep(configs, idx, fields[j], opts, p).Ok?
            ensures r.1[j] == Applied(fields[j], FieldStep(configs, idx, fields[j], opts, p))
          {
            if j > i {
              assert next[j] == fields[j];
            }
          }
          forall j | k <= j < |fields| ensures r.1[j] == fields[j] {
            assert next[j] == fields[j];
          }
          assert StopsAt(configs, idx, fields, r.0, r.1, i, k, opts, p);
        }
      }
    }
  }

  lemma BindFromUnfold(configs: seq<ConfigItem>, idx: nat, fields: seq<Field>, i: nat, opts: Options, p: Process)
    requires i < |fields|
    ensures var step := FieldStep(configs, idx, fields[i], opts, p);
            BindFrom(configs, idx, fields, i, opts, p)
            == if !step.Ok? then (step.Propagate(), fields)
               else BindFrom(configs, idx, fields[i := Applied(fields[i], step)], i + 1, opts, p)
  {
  }

  /** One pass of the loop of extractEnvByConfigIdx, on field `i` of the
      record: the three `continue` exits leave the field alone, a failure
      stops the loop, otherwise the coerced value is written in place. */
  method BindField(rec: ConfigRecord, i: nat, idx: nat, args: ExtractorArgs, p: Process) returns (res: Result<()>)
    requires i < |rec.fields|
    modifies rec
    ensures var step := FieldStep(args.configs, idx, old(rec.fields[i]), args.options, p);
            if step.Ok? then res == Ok(()) && rec.fields == old(rec.fields)[i := Applied(old(rec.fields[i]), step)]
            else res == step.Propagate() && rec.fields == old(rec.fields)
  {
    var f := rec.fields[i];
    var opts := args.options;
    // an invalid or unassignable field is skipped
    if !f.settable {
      assert rec.fields[i := f] == rec.fields;
      return Ok(());
    }
    var envName := GetEnvName(args.configs, idx, f, opts.omitNotTagged);
    if envName.Fatal? {
      return Fatal(envName.msg);
    }
    if envName.Err? {
      assert rec.fields[i := f] == rec.fields;
      return Ok(());
    }
    var found := GetEnvValuesFromSources("", envName.value, opts, p);
    if !found.Ok? {
      return Fatal(found.msg);
    }
    var envVal := found.value.0;
    if envVal == "" {
      assert rec.fields[i := f] == rec.fields;
      return Ok(());
    }
    res := SetConfigFieldValue(rec, i, envVal);
  }

  /** extractEnvByConfigIdx: walk the fields of record `idx` and write each
      resolved value into it in place. */
  method ExtractEnvByConfigIdx(idx: nat, args: ExtractorArgs, p: Process) returns (res: Result<()>)
    requires idx < |args.configs|
    modifies if args.configs[idx].RecordRef? then {args.configs[idx].rec} else {}
    ensures args.configs[idx].RecordRef? ==>
              (res, args.configs[idx].rec.fields)
              == BindFrom(args.configs, idx, old(args.configs[idx].rec.fields), 0, args.options, p)
    ensures !args.configs[idx].RecordRef? ==> res == Fatal(ElemOfNonPointer)
  {
    if !args.configs[idx].RecordRef? {
      return Fatal(ElemOfNonPointer);
    }
    var rec := args.configs[idx].rec;
    var i := 0;
    while i < |rec.fields|
      invariant 0 <= i <= |rec.fields| == |old(rec.fields)|
      invariant BindFrom(args.configs, idx, old(rec.fields), 0, args.options, p)
                == BindFrom(args.configs, idx, rec.fields, i, args.options, p)
    {
      BindFromUnfold(args.configs, idx, rec.fields, i, args.options, p);
      var err := BindField(rec, i, idx, args, p);
      if !err.Ok? {
        return err;
      }
      i := i + 1;
    }
    return Ok(());
  }

  // ---------------------------------------------------------------------
  // All records

  /** The contents of a set of records. */
  function StoreOf(rs: set<ConfigRecord>): (store: map<ConfigRecord, seq<Field>>)
    reads rs
    ensures store.Keys == rs
  {
    map r | r in rs :: r.fields
  }

  /** One (record, prefix) pair, on a store of record contents. */
  function ConfigIdx(configs: seq<ConfigItem>, idx: nat, opts: Options, p: Process, store: map<ConfigRecord, seq<Field>>)
    : (r: (Result<()>, map<ConfigRecord, seq<Field>>))
    requires idx < |configs| && idx % 2 == 0 && RecordsOf(configs) <= store.Keys
    ensures r.1.Keys == store.Keys
    ensures !configs[idx].RecordRef? ==> r.1 == store
    ensures configs[idx].RecordRef? ==> r.1 == store[configs[idx].rec := r.1[configs[idx].rec]]
  {
    if configs[idx].RecordRef? then
      var rec := configs[idx].rec;
      assert rec in RecordsOf(configs);
      var b := BindFrom(configs, idx, store[rec], 0, opts, p);
      (b.0, store[rec := b.1])
    else (Fatal(ElemOfNonPointer), store)
  }

  /** The loop of Extract from pair `i` on: the pairs in order, stopping at
      the first failure. */
  function PairsFrom(configs: seq<ConfigItem>, i: nat, opts: Options, p: Process, store: map<ConfigRecord, seq<Field>>)
    : (r: (Result<()>, map<ConfigRecord, seq<Field>>))
    requires i % 2 == 0 && RecordsOf(configs) <= store.Keys
    ensures r.1.Keys == store.Keys
    decreases |configs| - i
  {
    if i >= |configs| then (Ok(()), store)
    else
      var c := ConfigIdx(configs, i, opts, p, store);
      if !c.0.Ok? then c else PairsFrom(configs, i + 2, opts, p, c.1)
  }

  /** Every record of `after` is its record of `before` with some values
      written (Rebound). */
  predicate StoreRebound(before: map<ConfigRecord, seq<Field>>, after: map<ConfigRecord, seq<Field>>)
  {
    forall rec :: rec in before ==> rec in after && Rebound(before[rec], after[rec])
  }

  lemma ReboundStoreRefl(store: map<ConfigRecord, seq<Field>>)
    ensures StoreRebound(store, store)
  {
    forall rec | rec in store ensures Rebound(store[rec], store[rec]) {
      ReboundRefl(store[rec]);
    }
  }

  /** One pair only writes values that fit their fields. */
  lemma ConfigIdxRebinds(configs: seq<ConfigItem>, idx: nat, opts: Options, p: Process, store: map<ConfigRecord, seq<Field>>)
    requires idx < |configs| && idx % 2 == 0 && RecordsOf(configs) <= store.Keys
    ensures StoreRebound(store, ConfigIdx(configs, idx, opts, p, store).1)
  {
    var r := ConfigIdx(configs, idx, opts, p, store);
    forall rec | rec in store ensures rec in r.1 && Rebound(store[rec], r.1[rec]) {
      if configs[idx].RecordRef? && rec == configs[idx].rec {
        assert r.1[rec] == BindFrom(configs, idx, store[rec], 0, opts, p).1;
      }
    }
  }

  /** Extract's walk over the pairs never changes a field descriptor, and
      every value it writes fits the kind of its field, however often a
      record is named. */
  lemma {:induction false} PairsFromRebinds(configs: seq<ConfigItem>, i: nat, opts: Options, p: Process,
                                            store: map<ConfigRecord, seq<Field>>)
    requires i % 2 == 0 && RecordsOf(configs) <= store.Keys
    ensures StoreRebound(store, PairsFrom(configs, i, opts, p, store).1)
    decreases |configs| - i
  {
    var r := PairsFrom(configs, i, opts, p, store);
    if i >= |configs| {
      forall rec | rec in store ensures rec in r.1 && Rebound(store[rec], r.1[rec]) {
        ReboundRefl(store[rec]);
      }
    } else {
      var c := ConfigIdx(configs, i, opts, p, store);
      ConfigIdxRebinds(configs, i, opts, p, store);
      if c.0.Ok? {
        PairsFromRebinds(configs, i + 2, opts, p, c.1);
        forall rec | rec in store ensures rec in r.1 && Rebound(store[rec], r.1[rec]) {
          ReboundTrans(store[rec], c.1[rec], r.1[rec]);
        }
      }
    }
  }

  /** Records not named in an even slot of Configs are never touched. */
  lemma {:induction false} PairsFromFrame(configs: seq<ConfigItem>, i: nat, opts: Options, p: Process,
                                          store: map<ConfigRecord, seq<Field>>, rec: ConfigRecord)
    requires i % 2 == 0 && RecordsOf(configs) <= store.Keys
    requires rec in store && rec !in RecordsOf(configs)
    ensures PairsFrom(configs, i, opts, p, store).1[rec] == store[rec]
    decreases |configs| - i
  {
    if i < |configs| {
      var c := ConfigIdx(configs, i, opts, p, store);
      if configs[i].RecordRef? {
        assert configs[i].rec in RecordsOf(configs);
      }
      if c.0.Ok? {
        PairsFromFrame(configs, i + 2, opts, p, c.1, rec);
      }
    }
  }

  /** The pairs from `i` up to (not including) slot `k`, stopping at the
      first failure: the state Extract reaches just before pair `k`. */
  function PairsUntil(configs: seq<ConfigItem>, i: nat, k: nat, opts: Options, p: Process, store: map<ConfigRecord, seq<Field>>)
    : (r: (Result<()>, map<ConfigRecord, seq<Field>>))
    requires i % 2 == 0 && RecordsOf(configs) <= store.Keys
    ensures r.1.Keys == store.Keys
    decreases k - i
  {
    if i >= k || i >= |configs| then (Ok(()), store)
    else
      var c := ConfigIdx(configs, i, opts, p, store);
      if !c.0.Ok? then c else PairsUntil(configs, i + 2, k, opts, p, c.1)
  }

  /** No even slot from `i` to `k` (inclusive) names `rec`. */
  predicate NotNamedThrough(configs: seq<ConfigItem>, i: nat, k: nat, rec: ConfigRecord)
  {
    forall j :: i <= j <= k && j < |configs| && j % 2 == 0 && configs[j].RecordRef? ==> configs[j].rec != rec
  }

  /** Pair `k` is the first pair from `i` on that fails: every pair before it
      succeeded, the outcome and the store are that pair's, so the records it
      and the earlier pairs wrote stay written, and a record named by none of
      them keeps its old contents. */
  predicate FirstFailingPair(configs: seq<ConfigItem>, i: nat, k: nat, opts: Options, p: Process,
                             store: map<ConfigRecord, seq<Field>>, r: (Result<()>, map<ConfigRecord, seq<Field>>))
    requires i % 2 == 0 && RecordsOf(configs) <= store.Keys
  {
    var before := PairsUntil(configs, i, k, opts, p, store);
    i <= k < |configs| && k % 2 == 0 && before.0.Ok?
    && r == ConfigIdx(configs, k, opts, p, before.1) && !r.0.Ok?
    && forall rec :: rec in store && NotNamedThrough(configs, i, k, rec) ==> r.1[rec] == store[rec]
  }

  /** Extract's walk over the pairs returns the first error: on success every
      pair, in order, succeeded on the state the earlier pairs left; on a
      failure there is a first failing pair, whose failure is the outcome. */
  lemma {:induction false} PairsFromOutcome(configs: seq<ConfigItem>, i: nat, opts: Options, p: Process,
                                            store: map<ConfigRecord, seq<Field>>)
    requires i % 2 == 0 && RecordsOf(configs) <= store.Keys
    ensures var r := PairsFrom(configs, i, opts, p, store);
            (r.0.Ok? ==> forall k :: i <= k < |configs| && k % 2 == 0 ==>
                           PairsUntil(configs, i, k, opts, p, store).0.Ok?
                           && ConfigIdx(configs, k, opts, p, PairsUntil(configs, i, k, opts, p, store).1).0.Ok?)
            && (!r.0.Ok? ==> exists k :: FirstFailingPair(configs, i, k, opts, p, store, r))
    decreases |configs| - i
  {
    var r := PairsFrom(configs, i, opts, p, store);
    if i < |configs| {
      var c := ConfigIdx(configs, i, opts, p, store);
      assert PairsUntil(configs, i, i, opts, p, store) == (Ok(()), store);
      if !c.0.Ok? {
        assert r == c;
        forall rec | rec in store && NotNamedThrough(configs, i, i, rec) ensures r.1[rec] == store[rec] {
          if configs[i].RecordRef? {
            assert configs[i].rec != rec;
          }
        }
        assert FirstFailingPair(configs, i, i, opts, p, store, r);
      } else {
        assert r == PairsFrom(configs, i + 2, opts, p, c.1);
        PairsFromOutcome(configs, i + 2, opts, p, c.1);
        if r.0.Ok? {
          forall k | i <= k < |configs| && k % 2 == 0
            ensures PairsUntil(configs, i, k, opts, p, store).0.Ok?
            ensures ConfigIdx(configs, k, opts, p, PairsUntil(configs, i, k, opts, p, store).1).0.Ok?
          {
            if k > i {
              assert PairsUntil(configs, i, k, opts, p, store) == PairsUntil(configs, i + 2, k, opts, p, c.1);
            }
          }
        } else {
          var k :| FirstFailingPair(configs, i + 2, k, opts, p, c.1, r);
          assert PairsUntil(configs, i, k, opts, p, store) == PairsUntil(configs, i + 2, k, opts, p, c.1);
          forall rec | rec in store && NotNamedThrough(configs, i, k, rec) ensures r.1[rec] == store[rec] {
            assert NotNamedThrough(configs, i + 2, k, rec);
            if configs[i].RecordRef? {
              assert configs[i].rec != rec;
            }
            assert c.1[rec] == store[rec];
          }
          assert FirstFailingPair(configs, i, k, opts, p, store, r);
        }
      }
    }
  }

  /** Extract as a function of the record contents: merge the defaults, load
      the env file only when one is named (a load error returns before any
      record is touched), then bind every pair. */
  function ExtractSpec(args: ExtractorArgs, p: Process, load: EnvFileLoad, store: map<ConfigRecord, seq<Field>>)
    : (r: (Result<()>, map<ConfigRecord, seq<Field>>))
    requires RecordsOf(args.configs) <= store.Keys
    ensures r.1.Keys == store.Keys
    ensures StoreRebound(store, r.1)
    ensures |Merged(args.options).envFile| > 0 && load.LoadFailed? ==> r == (Err(load.msg), store)
  {
    var opts := Merged(args.options);
    if |opts.envFile| > 0 && load.LoadFailed? then
      ReboundStoreRefl(store);
      (Err(load.msg), store)
    else
      var proc := if |opts.envFile| > 0 then p.(environ := load.environ) else p;
      PairsFromRebinds(args.configs, 0, opts, proc, store);
      PairsFrom(args.configs, 0, opts, proc, store)
  }

  /** Without an env file the loader's outcome is never consulted. */
  lemma ExtractIgnoresLoaderWithoutEnvFile(args: ExtractorArgs, p: Process, l1: EnvFileLoad, l2: EnvFileLoad, store: map<ConfigRecord, seq<Field>>)
    requires RecordsOf(args.configs) <= store.Keys
    requires args.options.envFile == ""
    ensures ExtractSpec(args, p, l1, store) == ExtractSpec(args, p, l2, store)
  {
  }

  /** A failed env-file load is returned before any record is touched. */
  lemma ExtractLoadFailure(args: ExtractorArgs, p: Process, msg: string, store: map<ConfigRecord, seq<Field>>)
    requires RecordsOf(args.configs) <= store.Keys
    requires args.options.envFile != ""
    ensures ExtractSpec(args, p, LoadFailed(msg), store) == (Err(msg), store)
  {
  }

  /** A successful load of a named env file is what the resolver reads: the
      outcome is that of Extract run on the loaded environment. */
  lemma ExtractUsesLoadedEnv(args: ExtractorArgs, p: Process, e: map<string, string>, store: map<ConfigRecord, seq<Field>>)
    requires RecordsOf(args.configs) <= store.Keys && args.options.envFile != ""
    ensures ExtractSpec(args, p, Loaded(e), store) == ExtractSpec(args, p.(environ := e), Loaded(e), store)
    ensures ExtractSpec(args, p, Loaded(e), store) == PairsFrom(args.configs, 0, Merged(args.options), p.(environ := e), store)
  {
  }

  /** Options that were already merged behave exactly like the originals. */
  lemma ExtractMergedOptions(args: ExtractorArgs, p: Process, load: EnvFileLoad, store: map<ConfigRecord, seq<Field>>)
    requires RecordsOf(args.configs) <= store.Keys
    ensures ExtractSpec(args.(options := Merged(args.options)), p, load, store) == ExtractSpec(args, p, load, store)
  {
    MergedIdempotent(args.options);
  }

  /** Two stores over the same records that agree everywhere except at `rec`. */
  lemma StoreDiffersAt(before: map<ConfigRecord, seq<Field>>, after: map<ConfigRecord, seq<Field>>, rec: ConfigRecord)
    requires before.Keys == after.Keys && rec in after
    requires forall r :: r in after && r != rec ==> after[r] == before[r]
    ensures after == before[rec := after[rec]]
  {
  }

  lemma PairsFromUnfold(configs: seq<ConfigItem>, i: nat, opts: Options, p: Process, store: map<ConfigRecord, seq<Field>>)
    requires i < |configs| && i % 2 == 0 && RecordsOf(configs) <= store.Keys
    ensures var c := ConfigIdx(configs, i, opts, p, store);
            PairsFrom(configs, i, opts, p, store) == if !c.0.Ok? then c else PairsFrom(configs, i + 2, opts, p, c.1)
  {
  }

  /** Extract. */
  method Extract(args: ExtractorArgs, p: Process, load: EnvFileLoad) returns (res: Result<()>)
    modifies RecordsOf(args.configs)
    ensures (res, StoreOf(RecordsOf(args.configs)))
            == ExtractSpec(args, p, load, old(StoreOf(RecordsOf(args.configs))))
  {
    var rs := RecordsOf(args.configs);
    ghost var store0 := StoreOf(rs);
    var options := new ExtractorOptions(args.options);
    options.MergeWithDefault();
    var margs := args.(options := options.Value());
    var proc := p;
    if |margs.options.envFile| > 0 {
      match load {
        case LoadFailed(msg) =>
          return Err(msg);
        case Loaded(environ) =>
          proc := p.(environ := environ);
      }
    }
    assert StoreOf(rs) == store0;
    var i := 0;
    while i < |margs.configs|
      invariant i % 2 == 0
      invariant ExtractSpec(args, p, load, store0) == PairsFrom(margs.configs, i, margs.options, proc, StoreOf(rs))
    {
      ghost var before := StoreOf(rs);
      var err := ExtractEnvByConfigIdx(i, margs, proc);
      ghost var after := StoreOf(rs);
      if margs.configs[i].RecordRef? {
        var rec := margs.configs[i].rec;
        assert rec in rs;
        forall r | r in rs && r != rec
          ensures after[r] == before[r]
        {
        }
        StoreDiffersAt(before, after, rec);
      } else {
        forall r | r in rs
          ensures after[r] == before[r]
        {
        }
        assert after == before;
      }
      assert (err, after) == ConfigIdx(margs.configs, i, margs.options, proc, before);
      PairsFromUnfold(margs.configs, i, margs.options, proc, before);
      if !err.Ok? {
        return err;
      }
      i := i + 2;
    }
    return Ok(());
  }
}
