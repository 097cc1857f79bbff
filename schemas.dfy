/**
 * Schema validation: the checks of the string, boolean and number field
 * types, the `string()` field builder, `validateSchema`, which runs every
 * field's checks and gathers one error per failing field, and the registry of
 * schemas by id.
 *
 * A `SchemaError` thrown by a check or a callback is modelled as an error
 * value the check returns; the first one declared ends that field's checks.
 * The callbacks a schema carries (`normalize`, `validator`, `validate`) may
 * rewrite the data object: each returns the object as it left it together
 * with the error it declared, if any.
 */
module Schemas {
  import opened Wrappers
  import opened Text
  import opened JsValues

  /** What `declareError(message, errorCode)` throws. */
  datatype SchemaError = SchemaError(errorMessage: Option<string>, errorCode: Option<string>)

  /** The data object as a callback left it, and the error it declared. */
  datatype Outcome = Outcome(data: Object, error: Option<SchemaError>)

  // ----- Fields -----

  datatype StringInfo = StringInfo(minLength: Option<int>, errorMessageMinLength: Option<string>,
                                   maxLength: Option<int>, errorMessageMaxLength: Option<string>)

  datatype BooleanInfo = BooleanInfo(requireTrue: Option<bool>, errorMessageRequireTrue: Option<string>,
                                     requireFalse: Option<bool>, errorMessageRequireFalse: Option<string>)

  datatype NumberInfo = NumberInfo(minValue: Option<int>, errorMessageMinValue: Option<string>,
                                   maxValue: Option<int>, errorMessageMaxValue: Option<string>)

  /**
   * The `type` of a field with the settings its check reads. `OtherType`
   * stands for any type name other than "string", "boolean" and "number":
   * no check is registered for it.
   */
  datatype TypeInfo =
    | StringType(str: StringInfo)
    | BooleanType(boolean: BooleanInfo)
    | NumberType(num: NumberInfo)
    | OtherType(name: string)

  /** The settings every field type shares. */
  datatype FieldOptions = FieldOptions(
    errorMessageIsRequired: Option<string>,
    errorMessageTheValueIsInvalid: Option<string>,
    normalize: Option<(Value, Object) -> Outcome>,
    validator: Option<(Value, Object) -> Outcome>)

  /** A field; `optional` absent is `false`. */
  datatype Field = Field(title: string, optional: bool, options: FieldOptions, info: TypeInfo)

  /** A schema: its fields in the order `for ... in` visits them, and its whole-object callbacks. */
  datatype Schema = Schema(desc: seq<(string, Field)>,
                           normalize: Option<Object -> Outcome>,
                           validate: Option<Object -> Outcome>)

  datatype FieldError = FieldError(fieldName: string, message: string, code: string)

  datatype ValidationErrors = ValidationErrors(globalError: Option<string>, globalErrorCode: Option<string>,
                                               fields: Option<map<string, FieldError>>)

  /** A JavaScript boolean option that is set to `true`. */
  predicate IsSet(b: Option<bool>) {
    b == Some(true)
  }

  // ----- The type checks -----

  /** The check registered for "string": the type, then the minimum length, then the maximum. */
  function StringCheck(v: Value, errorMessageTheValueIsInvalid: Option<string>, info: StringInfo): (e: Option<SchemaError>)
    ensures e.None? <==>
              && v.Str?
              && (info.minLength.Some? ==> |v.s| >= info.minLength.value)
              && (info.maxLength.Some? ==> |v.s| <= info.maxLength.value)
    ensures e.Some? ==> e.value.errorCode == Some(if v.Str? then "INVALID_LENGTH" else "INVALID_TYPE")
    ensures e.Some? ==> Truthy(e.value.errorMessage)
    ensures !v.Str? ==> e == Some(SchemaError(Some(Or(errorMessageTheValueIsInvalid, "Value must be a string")), Some("INVALID_TYPE")))
    ensures v.Str? && info.minLength.Some? && |v.s| < info.minLength.value ==>
              e.value.errorMessage == OrElse(info.errorMessageMinLength, Some(MinLengthMessage(info.minLength.value)))
  {
    if !v.Str? then
      Some(SchemaError(Some(Or(errorMessageTheValueIsInvalid, "Value must be a string")), Some("INVALID_TYPE")))
    else if info.minLength.Some? && |v.s| < info.minLength.value then
      Some(SchemaError(Some(Or(info.errorMessageMinLength, MinLengthMessage(info.minLength.value))), Some("INVALID_LENGTH")))
    else if info.maxLength.Some? && |v.s| > info.maxLength.value then
      Some(SchemaError(Some(Or(info.errorMessageMaxLength,
                               "Value must be less than " + IntToString(info.maxLength.value) + " characters long")),
                       Some("INVALID_LENGTH")))
    else
      None
  }

  function MinLengthMessage(n: int): string {
    "Value must be at least " + IntToString(n) + " characters long"
  }

  /** The check registered for "boolean": the type, then `requireTrue`, or else `requireFalse`. */
  function BooleanCheck(v: Value, errorMessageTheValueIsInvalid: Option<string>, info: BooleanInfo): (e: Option<SchemaError>)
    ensures e.None? <==>
              && v.Bool?
              && (IsSet(info.requireTrue) ==> v.b)
              && (!IsSet(info.requireTrue) && IsSet(info.requireFalse) ==> !v.b)
    ensures e.Some? ==> e.value.errorCode == Some(if v.Bool? then "INVALID_VALUE" else "INVALID_TYPE")
    ensures e.Some? ==> Truthy(e.value.errorMessage)
  {
    if !v.Bool? then
      Some(SchemaError(Some(Or(errorMessageTheValueIsInvalid, "Value must be a boolean")), Some("INVALID_TYPE")))
    else if IsSet(info.requireTrue) then
      if !v.b then Some(SchemaError(Some(Or(info.errorMessageRequireTrue, "Value must be true")), Some("INVALID_VALUE")))
      else None
    else if IsSet(info.requireFalse) then
      if v.b then Some(SchemaError(Some(Or(info.errorMessageRequireFalse, "Value must be false")), Some("INVALID_VALUE")))
      else None
    else
      None
  }

  /** The check registered for "number": the type, then `minValue`, then `maxValue`. */
  function NumberCheck(v: Value, errorMessageTheValueIsInvalid: Option<string>, info: NumberInfo): (e: Option<SchemaError>)
    ensures e.None? <==>
              && v.Num?
              && (info.minValue.Some? ==> v.n >= info.minValue.value)
              && (info.maxValue.Some? ==> v.n <= info.maxValue.value)
    ensures e.Some? ==> e.value.errorCode == Some(if v.Num? then "INVALID_LENGTH" else "INVALID_TYPE")
    ensures e.Some? ==> Truthy(e.value.errorMessage)
  {
    if !v.Num? then
      Some(SchemaError(Some(Or(errorMessageTheValueIsInvalid, "Value must be a number")), Some("INVALID_TYPE")))
    else if info.minValue.Some? && v.n < info.minValue.value then
      Some(SchemaError(Some(Or(info.errorMessageMinValue, "Value must be at least " + IntToString(info.minValue.value))),
                       Some("INVALID_LENGTH")))
    else if info.maxValue.Some? && v.n > info.maxValue.value then
      Some(SchemaError(Some(Or(info.errorMessageMaxValue, "Value must be less than " + IntToString(info.maxValue.value))),
                       Some("INVALID_LENGTH")))
    else
      None
  }

  /** `byTypeValidator[field.type]` applied to the value, when there is one. */
  function TypeCheck(v: Value, f: Field): Option<SchemaError> {
    match f.info
    case StringType(info) => StringCheck(v, f.options.errorMessageTheValueIsInvalid, info)
    case BooleanType(info) => BooleanCheck(v, f.options.errorMessageTheValueIsInvalid, info)
    case NumberType(info) => NumberCheck(v, f.options.errorMessageTheValueIsInvalid, info)
    case OtherType(_) => None
  }

  // ----- The `string()` builder -----

  /** The settings `string(title, optional, infos)` takes besides the title and `optional`. */
  datatype StringInfos = StringInfos(options: FieldOptions, str: StringInfo)

  const NoStringInfo := StringInfo(None, None, None, None)

  /** `string(title, optional, infos)`: a required string is given a minimum length of 1 unless one is set. */
  function StringField(title: string, optional: bool, infos: Option<StringInfos>): (f: Field)
    ensures f.title == title && f.optional == optional && f.info.StringType?
    ensures infos.Some? ==> f.options == infos.value.options
    ensures var given := if infos.Some? then infos.value.str else NoStringInfo;
            && f.info.str.maxLength == given.maxLength
            && f.info.str.errorMessageMinLength == given.errorMessageMinLength
            && f.info.str.errorMessageMaxLength == given.errorMessageMaxLength
            && (optional || given.minLength.Some? ==> f.info.str.minLength == given.minLength)
            && (!optional && given.minLength.None? ==> f.info.str.minLength == Some(1))
  {
    var given := if infos.Some? then infos.value.str else NoStringInfo;
    var options := if infos.Some? then infos.value.options else FieldOptions(None, None, None, None);
    var str := if !optional && given.minLength.None? then given.(minLength := Some(1)) else given;
    Field(title, optional, options, StringType(str))
  }

  /**
   * A required string field built without a minimum length accepts exactly the
   * strings that are not empty and respect the maximum length.
   */
  lemma RequiredStringRejectsEmpty(title: string, infos: Option<StringInfos>, v: Value)
    requires infos.None? || infos.value.str.minLength.None?
    ensures var f := StringField(title, false, infos);
            TypeCheck(v, f).None? <==>
              v.Str? && v.s != "" && (f.info.str.maxLength.Some? ==> |v.s| <= f.info.str.maxLength.value)
    ensures TypeCheck(Str(""), StringField(title, false, infos)).value.errorCode == Some("INVALID_LENGTH")
  {
  }

  // ----- One field -----

  /** The message of a missing required field. */
  function RequiredMessage(name: string, f: Field): string {
    if Truthy(f.options.errorMessageIsRequired) then f.options.errorMessageIsRequired.value
    else if Truthy(f.options.errorMessageTheValueIsInvalid) then f.options.errorMessageTheValueIsInvalid.value
    else "Field " + name + " is required"
  }

  /** The checks between the normalizer and the validator: required, then the type check. */
  function PresenceAndType(name: string, f: Field, value: Value): Option<SchemaError> {
    if !f.optional && value == Undefined then
      Some(SchemaError(Some(RequiredMessage(name, f)), Some("VALUE_REQUIRED")))
    else
      TypeCheck(value, f)
  }

  /** The error recorded for field `name` when `e` was declared while `dflt` was the default message. */
  function Caught(name: string, e: SchemaError, dflt: Option<string>): FieldError {
    FieldError(name, Or(e.errorMessage, Or(dflt, "Field " + name + " is invalid")), Or(e.errorCode, "FIELD_VALIDATION_FAILED"))
  }

  datatype StepResult = StepResult(error: Option<FieldError>, data: Object)

  /**
   * The body of the field loop for field `name`: the value is read once, then
   * the normalizer, the required check, the type check and the validator run
   * in turn until one declares an error.
   */
  function FieldStep(name: string, f: Field, data: Object): (r: StepResult)
    ensures r.error.Some? ==>
              && r.error.value.fieldName == name
              && r.error.value.message != ""
              && r.error.value.code != ""
    ensures f.options.normalize.None? && f.options.validator.None? ==> r.data == data
    ensures f.options.normalize.None? && f.options.validator.None? ==>
              (r.error.None? <==> PresenceAndType(name, f, Get(data, name)).None?)
  {
    var value := Get(data, name);
    var normalized := if f.options.normalize.Some? then f.options.normalize.value(value, data) else Outcome(data, None);
    var dflt := if f.options.normalize.Some? then f.options.errorMessageTheValueIsInvalid else None;
    if normalized.error.Some? then
      StepResult(Some(Caught(name, normalized.error.value, dflt)), normalized.data)
    else
      var e := PresenceAndType(name, f, value);
      if e.Some? then
        StepResult(Some(Caught(name, e.value, dflt)), normalized.data)
      else if f.options.validator.Some? then
        var checked := f.options.validator.value(value, normalized.data);
        var error := if checked.error.Some?
                     then Some(Caught(name, checked.error.value, f.options.errorMessageTheValueIsInvalid))
                     else None;
        StepResult(error, checked.data)
      else
        StepResult(None, normalized.data)
  }

  /** When the normalizer passes, a required field whose value is undefined gets VALUE_REQUIRED and its validator never runs. */
  lemma RequiredFieldMissing(name: string, f: Field, data: Object)
    requires !f.optional && Get(data, name) == Undefined
    requires f.options.normalize.Some? ==> f.options.normalize.value(Undefined, data).error.None?
    ensures var r := FieldStep(name, f, data);
            && r.error == Some(FieldError(name, RequiredMessage(name, f), "VALUE_REQUIRED"))
            && r.data == (if f.options.normalize.Some? then f.options.normalize.value(Undefined, data).data else data)
    ensures RequiredMessage(name, f) ==
              Or(f.options.errorMessageIsRequired, Or(f.options.errorMessageTheValueIsInvalid, "Field " + name + " is required"))
  {
  }

  /**
   * The type check runs for optional fields too: an optional string field
   * left undefined is rejected as not being a string.
   */
  lemma OptionalStringUndefinedRejected(name: string, f: Field, data: Object)
    requires f.optional && f.info.StringType? && f.options.normalize.None?
    requires name !in data
    ensures FieldStep(name, f, data).error ==
              Some(FieldError(name, Or(f.options.errorMessageTheValueIsInvalid, "Value must be a string"), "INVALID_TYPE"))
  {
  }

  /**
   * The checks see the value read before the normalizer ran: a normalizer that
   * fills in a missing required value does not save it from VALUE_REQUIRED.
   */
  lemma NormalizerDoesNotChangeCheckedValue(name: string, f: Field, data: Object, filled: Value)
    requires !f.optional && name !in data && filled != Undefined
    requires f.options.normalize == Some((v: Value, d: Object) => Outcome(d[name := filled], None))
    ensures var r := FieldStep(name, f, data);
            && r.data == data[name := filled]
            && r.error.Some? && r.error.value.code == "VALUE_REQUIRED"
  {
  }

  /**
   * An error a field's validator declares is recorded with the fallbacks of
   * the catch block: its own message, else `errorMessage_theValueIsInvalid`,
   * else "Field <name> is invalid"; its own code, else FIELD_VALIDATION_FAILED.
   * The data is what the validator left.
   */
  lemma ValidatorErrorFallback(name: string, f: Field, data: Object, e: SchemaError)
    requires f.options.normalize.None? && f.options.validator.Some?
    requires PresenceAndType(name, f, Get(data, name)).None?
    requires f.options.validator.value(Get(data, name), data).error == Some(e)
    ensures var r := FieldStep(name, f, data);
            && r.error == Some(FieldError(name, Or(e.errorMessage, Or(f.options.errorMessageTheValueIsInvalid,
                                                                       "Field " + name + " is invalid")),
                                          Or(e.errorCode, "FIELD_VALIDATION_FAILED")))
            && r.data == f.options.validator.value(Get(data, name), data).data
  {
  }

  /**
   * An error a field's normalizer declares is recorded with the same
   * fallbacks, and stops the field's other checks: the data is what the
   * normalizer left.
   */
  lemma NormalizerErrorFallback(name: string, f: Field, data: Object, e: SchemaError)
    requires f.options.normalize.Some?
    requires f.options.normalize.value(Get(data, name), data).error == Some(e)
    ensures var r := FieldStep(name, f, data);
            && r.error == Some(FieldError(name, Or(e.errorMessage, Or(f.options.errorMessageTheValueIsInvalid,
                                                                       "Field " + name + " is invalid")),
                                          Or(e.errorCode, "FIELD_VALIDATION_FAILED")))
            && r.data == f.options.normalize.value(Get(data, name), data).data
  {
  }

  // ----- The field loop and the whole validation -----

  /** The field loop over `desc`, from the data `data` and the errors `acc` gathered so far. */
  function FieldsRun(desc: seq<(string, Field)>, data: Object, acc: Option<map<string, FieldError>>): (r: Run)
    decreases |desc|
  {
    if desc == [] then Run(acc, data)
    else
      var step := FieldStep(desc[0].0, desc[0].1, data);
      FieldsRun(desc[1..], step.data, Record(acc, desc[0].0, step.error))
  }

  datatype Run = Run(errors: Option<map<string, FieldError>>, data: Object)

  /** `fieldErrors[name] = error`, creating the record on the first error. */
  function Record(acc: Option<map<string, FieldError>>, name: string, error: Option<FieldError>): Option<map<string, FieldError>> {
    if error.None? then acc
    else Some((if acc.Some? then acc.value else map[])[name := error.value])
  }

  /** No field of `desc` declares an error, each run on the data the previous ones left. */
  ghost predicate FieldsPass(desc: seq<(string, Field)>, data: Object)
    decreases |desc|
  {
    desc == [] ||
      var step := FieldStep(desc[0].0, desc[0].1, data);
      step.error.None? && FieldsPass(desc[1..], step.data)
  }

  /** The loop ends without errors exactly when it started without any and no field declared one. */
  lemma {:induction false} FieldsRunClean(desc: seq<(string, Field)>, data: Object, acc: Option<map<string, FieldError>>)
    ensures FieldsRun(desc, data, acc).errors.None? <==> acc.None? && FieldsPass(desc, data)
    decreases |desc|
  {
    if desc != [] {
      var step := FieldStep(desc[0].0, desc[0].1, data);
      FieldsRunClean(desc[1..], step.data, Record(acc, desc[0].0, step.error));
    }
  }

  /** The names of the fields of `desc`. */
  function Names(desc: seq<(string, Field)>): set<string> {
    set i | 0 <= i < |desc| :: desc[i].0
  }

  /** Every error gathered sits under the name of the field that declared it. */
  ghost predicate ErrorsKeyed(errors: Option<map<string, FieldError>>, names: set<string>) {
    errors.Some? ==> forall k | k in errors.value :: k in names && errors.value[k].fieldName == k
  }

  /** The loop keeps every error under its field's name, and records no name that is not a field. */
  lemma {:induction false} FieldsRunKeyed(desc: seq<(string, Field)>, data: Object, acc: Option<map<string, FieldError>>,
                                          names: set<string>)
    requires ErrorsKeyed(acc, names)
    ensures ErrorsKeyed(FieldsRun(desc, data, acc).errors, names + Names(desc))
    decreases |desc|
  {
    if desc != [] {
      var step := FieldStep(desc[0].0, desc[0].1, data);
      var next := Record(acc, desc[0].0, step.error);
      assert ErrorsKeyed(next, names + {desc[0].0});
      FieldsRunKeyed(desc[1..], step.data, next, names + {desc[0].0});
      assert names + {desc[0].0} + Names(desc[1..]) == names + Names(desc) by {
        assert desc[0].0 in Names(desc);
        forall k | k in Names(desc)
          ensures k == desc[0].0 || k in Names(desc[1..])
        {
          var i :| 0 <= i < |desc| && desc[i].0 == k;
          if i > 0 {
            assert desc[1..][i - 1].0 == k;
          }
        }
        forall k | k in Names(desc[1..])
          ensures k in Names(desc)
        {
          var i :| 0 <= i < |desc[1..]| && desc[1..][i].0 == k;
          assert desc[i + 1].0 == k;
        }
      }
    }
  }

  /** The global error for a declared `e`. */
  function Global(e: SchemaError, fields: Option<map<string, FieldError>>): ValidationErrors {
    ValidationErrors(Some(Or(e.errorMessage, "Schema validation failed")),
                     Some(Or(e.errorCode, "SCHEMA_VALIDATION_FAILED")), fields)
  }

  datatype Validated = Validated(errors: Option<ValidationErrors>, data: Object)

  /**
   * What `validateSchema(data, schema)` returns, with the data as the
   * callbacks left it: the schema normalizer, the field loop, the schema
   * validator, then the verdict.
   */
  ghost function ValidationOf(data: Object, s: Schema): Validated {
    var normalized := if s.normalize.Some? then s.normalize.value(data) else Outcome(data, None);
    if normalized.error.Some? then
      Validated(Some(Global(normalized.error.value, None)), normalized.data)
    else
      var run := FieldsRun(s.desc, normalized.data, None);
      var checked := if s.validate.Some? then s.validate.value(run.data) else Outcome(run.data, None);
      if checked.error.Some? then
        Validated(Some(Global(checked.error.value, run.errors)), checked.data)
      else if run.errors.None? then
        Validated(None, checked.data)
      else
        Validated(Some(ValidationErrors(None, None, run.errors)), checked.data)
  }

  /** One turn of the field loop, from position `i`. */
  lemma FieldsRunUnfold(desc: seq<(string, Field)>, i: nat, data: Object, acc: Option<map<string, FieldError>>)
    requires i < |desc|
    ensures var step := FieldStep(desc[i].0, desc[i].1, data);
            FieldsRun(desc[i..], data, acc) == FieldsRun(desc[i + 1..], step.data, Record(acc, desc[i].0, step.error))
  {
    assert desc[i..][1..] == desc[i + 1..];
  }

  /** The field loop of `validateSchema`: each field's checks in turn, on the data the previous ones left. */
  method CheckFields(desc: seq<(string, Field)>, data: Object) returns (run: Run)
    ensures run == FieldsRun(desc, data, None)
  {
    var current := data;
    var fieldErrors: Option<map<string, FieldError>> := None;
    var i := 0;
    while i < |desc|
      invariant 0 <= i <= |desc|
      invariant FieldsRun(desc[i..], current, fieldErrors) == FieldsRun(desc, data, None)
    {
      var name := desc[i].0;
      var step := FieldStep(name, desc[i].1, current);
      FieldsRunUnfold(desc, i, current, fieldErrors);
      if step.error.Some? {
        fieldErrors := Some((if fieldErrors.Some? then fieldErrors.value else map[])[name := step.error.value]);
      }
      current := step.data;
      i := i + 1;
    }
    assert desc[i..] == [];
    return Run(fieldErrors, current);
  }

  /** `validateSchema(data, schema)`, returning the errors and the data as the callbacks left it. */
  method ValidateSchema(data: Object, s: Schema) returns (errors: Option<ValidationErrors>, after: Object)
    ensures Validated(errors, after) == ValidationOf(data, s)
  {
    var current := data;
    if s.normalize.Some? {
      var normalized := s.normalize.value(current);
      if normalized.error.Some? {
        return Some(Global(normalized.error.value, None)), normalized.data;
      }
      current := normalized.data;
    }
    var run := CheckFields(s.desc, current);
    current := run.data;
    if s.validate.Some? {
      var checked := s.validate.value(current);
      current := checked.data;
      if checked.error.Some? {
        return Some(Global(checked.error.value, run.errors)), current;
      }
    }
    if run.errors.None? {
      return None, current;
    }
    return Some(ValidationErrors(None, None, run.errors)), current;
  }

  /** The schema normalizer's own checks passed, with the data it left. */
  ghost predicate NormalizerPasses(data: Object, s: Schema) {
    s.normalize.None? || s.normalize.value(data).error.None?
  }

  function NormalizedData(data: Object, s: Schema): Object {
    if s.normalize.Some? then s.normalize.value(data).data else data
  }

  /**
   * `validateSchema` returns `undefined` exactly when the schema normalizer,
   * every field and the schema validator all pass.
   */
  lemma ValidationPassesIff(data: Object, s: Schema)
    ensures ValidationOf(data, s).errors.None? <==>
              && NormalizerPasses(data, s)
              && FieldsPass(s.desc, NormalizedData(data, s))
              && (s.validate.None? ||
                  s.validate.value(FieldsRun(s.desc, NormalizedData(data, s), None).data).error.None?)
  {
    FieldsRunClean(s.desc, NormalizedData(data, s), None);
  }

  /**
   * A failing schema normalizer gives a global error only, with its default
   * message and code, and no field is checked; otherwise every field error
   * sits under its field's name.
   */
  lemma ValidationErrorsShape(data: Object, s: Schema)
    ensures !NormalizerPasses(data, s) ==>
              var e := s.normalize.value(data).error.value;
              ValidationOf(data, s).errors ==
                Some(ValidationErrors(Some(Or(e.errorMessage, "Schema validation failed")),
                                      Some(Or(e.errorCode, "SCHEMA_VALIDATION_FAILED")), None))
    ensures ValidationOf(data, s).errors.Some? ==> ErrorsKeyed(ValidationOf(data, s).errors.value.fields, Names(s.desc))
    ensures var e := ValidationOf(data, s).errors;
            e.Some? ==>
              && (e.value.globalError.Some? <==> e.value.globalErrorCode.Some?)
              && (e.value.globalError.None? ==> e.value.fields.Some?)
  {
    FieldsRunKeyed(s.desc, NormalizedData(data, s), None, {});
  }

  /**
   * After the field loop, a failing schema validator gives its global error,
   * with the default message and code, together with the field errors the
   * loop gathered; a passing one leaves the field errors as the verdict.
   */
  lemma SchemaValidatorVerdict(data: Object, s: Schema)
    requires NormalizerPasses(data, s)
    ensures var run := FieldsRun(s.desc, NormalizedData(data, s), None);
            var errors := ValidationOf(data, s).errors;
            && (s.validate.Some? && s.validate.value(run.data).error.Some? ==>
                  var e := s.validate.value(run.data).error.value;
                  errors == Some(ValidationErrors(Some(Or(e.errorMessage, "Schema validation failed")),
                                                  Some(Or(e.errorCode, "SCHEMA_VALIDATION_FAILED")), run.errors)))
            && (s.validate.None? || s.validate.value(run.data).error.None? ==>
                  errors == if run.errors.None? then None else Some(ValidationErrors(None, None, run.errors)))
  {
  }

  // ----- The registry -----

  datatype RegistryEntry = RegistryEntry(schema: Schema, meta: Option<Value>)

  /** `gRegistry`: the schemas registered so far, by id. */
  class SchemaRegistry {
    var entries: map<string, RegistryEntry>

    constructor ()
      ensures entries == map[]
    {
      entries := map[];
    }

    /** `getSchema(schemaId)`. */
    function GetSchema(schemaId: string): (r: Option<Schema>)
      reads this
      ensures r.Some? <==> schemaId in entries
    {
      if schemaId in entries then Some(entries[schemaId].schema) else None
    }

    /**
     * `registerSchema(schemaId, schema, meta)`: an empty or missing id is
     * refused with an error; otherwise the entry replaces any earlier one.
     */
    method RegisterSchema(schemaId: Option<string>, schema: Schema, meta: Option<Value>) returns (r: Result<()>)
      modifies this
      ensures !Truthy(schemaId) ==> r == Failure("jk_schemas - Schema id required") && entries == old(entries)
      ensures Truthy(schemaId) ==> r.Success? && entries == old(entries)[schemaId.value := RegistryEntry(schema, meta)]
      ensures Truthy(schemaId) ==> GetSchema(schemaId.value) == Some(schema)
      ensures forall id | !Truthy(schemaId) || id != schemaId.value :: GetSchema(id) == old(GetSchema(id))
    {
      if !Truthy(schemaId) {
        return Failure("jk_schemas - Schema id required");
      }
      entries := entries[schemaId.value := RegistryEntry(schema, meta)];
      return Success(());
    }

    /** `requireSchema(schemaId)`: the registered schema, or an error naming the id. */
    method RequireSchema(schemaId: string) returns (r: Result<Schema>)
      ensures r.Failure? <==> GetSchema(schemaId).None?
      ensures r.Success? ==> Some(r.value) == GetSchema(schemaId)
      ensures r.Failure? ==> r.error == "jk_schemas - Schema " + schemaId + " not found"
    {
      var s := GetSchema(schemaId);
      if s.None? {
        return Failure("jk_schemas - Schema " + schemaId + " not found");
      }
      return Success(s.value);
    }
  }
}
