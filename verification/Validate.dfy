/**
 The mutually recursive validators (src/validator.rs).  Leaf checks and transforms are functions
 carried by the validator; the collector is the fail-fast one, so the first fault ends validation.
 */
module Validate {
  import opened Prelude
  import opened FieldPath
  import opened Resolve

  datatype Type = TextType | NumberType | BoolType | ListType | ObjectType

  datatype ConditionKind = Exists | Absent | Equals | NotEquals

  datatype Condition = Condition(path: string, kind: ConditionKind, expected: Option<Value>)

  datatype Rule = Rule(required: bool, check: Value -> bool)

  datatype Validator = Validator(
    path: string,
    valueType: Type,
    transforms: seq<Value -> Option<Value>>,
    conditions: seq<Condition>,
    objectFields: seq<Validator>,
    eachFields: seq<Validator>,
    rule: Rule)

  datatype Status = Skipped | Applied

  predicate TypeMatches(valueType: Type, value: Value) {
    match valueType
    case TextType => value.Text?
    case NumberType => value.Number?
    case BoolType => value.Bool?
    case ListType => value.List?
    case ObjectType => value.Object?
  }

  function Display(path: string): string {
    if path == "" then "$" else path
  }

  // ---------- Conditions ----------

  function ResolveScoped(scope: string, value: Value, child: string): Result<seq<Resolved>, Fault> {
    if child == "" then Ok([Resolved(Display(scope), Some(value))]) else ResolveNested(scope, value, child)
  }

  function PresentValues(results: seq<Resolved>): seq<Value> {
    if results == [] then []
    else (if results[0].value.Some? && !results[0].value.value.Null? then [results[0].value.value] else [])
         + PresentValues(results[1..])
  }

  function ConditionMatches(scope: string, value: Value, condition: Condition): Result<bool, Fault> {
    var results := ResolveScoped(scope, value, condition.path);
    if results.Err? then Err(results.error)
    else
      var present := PresentValues(results.value);
      match condition.kind
      case Exists => Ok(present != [])
      case Absent => Ok(present == [])
      case Equals =>
        if condition.expected.None? then Err(NoComparisonValue(condition.path))
        else Ok(condition.expected.value in present)
      case NotEquals =>
        if condition.expected.None? then Err(NoComparisonValue(condition.path))
        else Ok(present != [] && condition.expected.value !in present)
  }

  function ConditionsMatch(scope: string, value: Value, conditions: seq<Condition>): Result<bool, Fault> {
    if conditions == [] then Ok(true)
    else
      var first := ConditionMatches(scope, value, conditions[0]);
      if first.Err? || !first.value then first else ConditionsMatch(scope, value, conditions[1..])
  }

  function ApplyTransforms(field: string, value: Value, transforms: seq<Value -> Option<Value>>): Result<Value, Fault>
    decreases |transforms|
  {
    if transforms == [] then Ok(value)
    else
      var next := transforms[0](value);
      if next.None? then Err(TransformFailed(field)) else ApplyTransforms(field, next.value, transforms[1..])
  }

  // ---------- Validation ----------

  function Then(first: Result<Status, Fault>, rest: Result<Status, Fault>): Result<Status, Fault> {
    if first.Err? then first
    else if rest.Err? then rest
    else if first.value.Applied? then first
    else rest
  }

  function ValidateField(validator: Validator, scope: string, scopeValue: Value, results: seq<Resolved>)
    : Result<Status, Fault>
    decreases validator, 3
  {
    var matches := ConditionsMatch(scope, scopeValue, validator.conditions);
    if matches.Err? then Err(matches.error)
    else if !matches.value then Ok(Skipped)
    else if results == [] then
      if validator.rule.required then Err(MissingValue(validator.path)) else Ok(Skipped)
    else ValidateResults(validator, results)
  }

  function ValidateResults(validator: Validator, results: seq<Resolved>): Result<Status, Fault>
    decreases validator, 2, |results|
  {
    if results == [] then Ok(Skipped)
    else
      Then(ValidateResolved(validator, results[0].field, results[0].value), ValidateResults(validator, results[1..]))
  }

  function ValidateResolved(validator: Validator, field: string, value: Option<Value>): Result<Status, Fault>
    decreases validator, 1
  {
    if value.None? || value.value.Null? then
      if validator.rule.required then Err(MissingValue(field)) else Ok(Skipped)
    else
      var transformed := ApplyTransforms(field, value.value, validator.transforms);
      if transformed.Err? then Err(transformed.error)
      else if !TypeMatches(validator.valueType, transformed.value) then Err(WrongType(Display(field)))
      else if !validator.rule.check(transformed.value) then Err(RuleFailed(field))
      else
        var nested := ValidateNested(validator, field, transformed.value);
        if nested.Err? then nested else Ok(Applied)
  }

  function ValidateNested(validator: Validator, field: string, value: Value): Result<Status, Fault>
    decreases validator, 0
  {
    Then(if validator.objectFields == [] then Ok(Skipped) else ValidateScoped(field, value, validator.objectFields),
         if validator.eachFields == [] then Ok(Skipped) else ValidateEach(field, value, validator.eachFields))
  }

  function ValidateScoped(scope: string, value: Value, validators: seq<Validator>): Result<Status, Fault>
    decreases validators, 1
  {
    if !value.Object? then Err(NotAnObject(Display(scope))) else ValidateMembers(scope, value, validators)
  }

  function ValidateMembers(scope: string, value: Value, validators: seq<Validator>): Result<Status, Fault>
    decreases validators, 0
  {
    if validators == [] then Ok(Skipped)
    else
      var results := ResolveScoped(scope, value, validators[0].path);
      Then(if results.Err? then Err(results.error) else ValidateField(validators[0], scope, value, results.value),
           ValidateMembers(scope, value, validators[1..]))
  }

  function ValidateEach(field: string, value: Value, validators: seq<Validator>): Result<Status, Fault>
    decreases validators, 2
  {
    if !value.List? then Err(NotAList(field)) else ValidateItems(field, value.items, 0, validators)
  }

  function ValidateItems(field: string, items: seq<Value>, index: nat, validators: seq<Validator>)
    : Result<Status, Fault>
    requires index <= |items|
    decreases validators, 1, |items| - index
  {
    if index == |items| then Ok(Skipped)
    else
      Then(ValidateItem(AppendStep(field, Index(index)), items[index], validators),
           ValidateItems(field, items, index + 1, validators))
  }

  function ValidateItem(field: string, item: Value, validators: seq<Validator>): Result<Status, Fault>
    decreases validators, 0
  {
    if validators == [] then Ok(Skipped)
    else
      var results := ResolveNested(field, item, validators[0].path);
      Then(if results.Err? then Err(results.error) else ValidateField(validators[0], field, item, results.value),
           ValidateItem(field, item, validators[1..]))
  }

  function ValidateFields(fields: map<string, Value>, validators: seq<Validator>): Result<Status, Fault> {
    if validators == [] then Ok(Skipped)
    else
      var results := if validators[0].path == "" then Ok([Resolved(Display(""), Some(Object(fields)))])
                     else ResolveFields(fields, validators[0].path);
      Then(if results.Err? then Err(results.error) else ValidateField(validators[0], "", Object(fields), results.value),
           ValidateFields(fields, validators[1..]))
  }

  // ---------- The loops of the source ----------

  lemma ThenAssoc(a: Result<Status, Fault>, b: Result<Status, Fault>, c: Result<Status, Fault>)
    ensures Then(a, Then(b, c)) == Then(Then(a, b), c)
  {
  }

  method RunField(validator: Validator, scope: string, scopeValue: Value, results: seq<Resolved>)
    returns (outcome: Result<Status, Fault>)
    ensures outcome == ValidateField(validator, scope, scopeValue, results)
    decreases validator, 1
  {
    for k := 0 to |validator.conditions|
      invariant ConditionsMatch(scope, scopeValue, validator.conditions)
             == ConditionsMatch(scope, scopeValue, validator.conditions[k..])
    {
      assert validator.conditions[k..][1..] == validator.conditions[k + 1..];
      var matches := ConditionMatches(scope, scopeValue, validator.conditions[k]);
      if matches.Err? {
        return Err(matches.error);
      }
      if !matches.value {
        return Ok(Skipped);
      }
    }
    if results == [] {
      return if validator.rule.required then Err(MissingValue(validator.path)) else Ok(Skipped);
    }
    var status := Skipped;
    for k := 0 to |results|
      invariant ValidateResults(validator, results) == Then(Ok(status), ValidateResults(validator, results[k..]))
    {
      assert results[k..][1..] == results[k + 1..];
      var next := RunResolved(validator, results[k].field, results[k].value);
      ThenAssoc(Ok(status), next, ValidateResults(validator, results[k + 1..]));
      if next.Err? {
        return next;
      }
      if next.value == Applied {
        status := Applied;
      }
    }
    return Ok(status);
  }

  method RunResolved(validator: Validator, field: string, value: Option<Value>) returns (outcome: Result<Status, Fault>)
    ensures outcome == ValidateResolved(validator, field, value)
    decreases validator, 0
  {
    if value.None? || value.value.Null? {
      return if validator.rule.required then Err(MissingValue(field)) else Ok(Skipped);
    }
    var current := value.value;
    for k := 0 to |validator.transforms|
      invariant ApplyTransforms(field, value.value, validator.transforms)
             == ApplyTransforms(field, current, validator.transforms[k..])
    {
      assert validator.transforms[k..][1..] == validator.transforms[k + 1..];
      var next := validator.transforms[k](current);
      if next.None? {
        return Err(TransformFailed(field));
      }
      current := next.value;
    }
    if !TypeMatches(validator.valueType, current) {
      return Err(WrongType(Display(field)));
    }
    if !validator.rule.check(current) {
      return Err(RuleFailed(field));
    }
    if validator.objectFields != [] {
      var nested := RunScoped(field, current, validator.objectFields);
      if nested.Err? {
        return nested;
      }
    }
    if validator.eachFields != [] {
      var nested := RunEach(field, current, validator.eachFields);
      if nested.Err? {
        return nested;
      }
    }
    return Ok(Applied);
  }

  method RunScoped(scope: string, value: Value, validators: seq<Validator>) returns (outcome: Result<Status, Fault>)
    ensures outcome == ValidateScoped(scope, value, validators)
    decreases validators
  {
    if !value.Object? {
      return Err(NotAnObject(Display(scope)));
    }
    outcome := Ok(Skipped);
    for k := 0 to |validators|
      invariant outcome.Ok?
      invariant ValidateMembers(scope, value, validators)
                == Then(outcome, ValidateMembers(scope, value, validators[k..]))
    {
      assert validators[k..][1..] == validators[k + 1..];
      var results := ResolveScoped(scope, value, validators[k].path);
      if results.Err? {
        return Err(results.error);
      }
      var next := RunField(validators[k], scope, value, results.value);
      ThenAssoc(outcome, next, ValidateMembers(scope, value, validators[k + 1..]));
      if next.Err? {
        return next;
      }
      outcome := Then(outcome, next);
    }
  }

  method RunEach(field: string, value: Value, validators: seq<Validator>) returns (outcome: Result<Status, Fault>)
    ensures outcome == ValidateEach(field, value, validators)
    decreases validators, 1
  {
    if !value.List? {
      return Err(NotAList(field));
    }
    outcome := Ok(Skipped);
    for index := 0 to |value.items|
      invariant outcome.Ok?
      invariant ValidateItems(field, value.items, 0, validators)
             == Then(outcome, ValidateItems(field, value.items, index, validators))
    {
      var next := RunItem(AppendStep(field, Index(index)), value.items[index], validators);
      ThenAssoc(outcome, next, ValidateItems(field, value.items, index + 1, validators));
      if next.Err? {
        return next;
      }
      outcome := Then(outcome, next);
    }
  }

  method RunItem(field: string, item: Value, validators: seq<Validator>) returns (outcome: Result<Status, Fault>)
    ensures outcome == ValidateItem(field, item, validators)
    decreases validators, 0
  {
    outcome := Ok(Skipped);
    for k := 0 to |validators|
      invariant outcome.Ok?
      invariant ValidateItem(field, item, validators) == Then(outcome, ValidateItem(field, item, validators[k..]))
    {
      assert validators[k..][1..] == validators[k + 1..];
      var results := ResolveNested(field, item, validators[k].path);
      if results.Err? {
        return Err(results.error);
      }
      var next := RunField(validators[k], field, item, results.value);
      ThenAssoc(outcome, next, ValidateItem(field, item, validators[k + 1..]));
      if next.Err? {
        return next;
      }
      outcome := Then(outcome, next);
    }
  }

  method RunFields(fields: map<string, Value>, validators: seq<Validator>) returns (outcome: Result<Status, Fault>)
    ensures outcome == ValidateFields(fields, validators)
  {
    outcome := Ok(Skipped);
    for k := 0 to |validators|
      invariant outcome.Ok?
      invariant ValidateFields(fields, validators) == Then(outcome, ValidateFields(fields, validators[k..]))
    {
      assert validators[k..][1..] == validators[k + 1..];
      var results := Ok([Resolved(Display(""), Some(Object(fields)))]);
      if validators[k].path != "" {
        results := ResolveFieldValues(fields, validators[k].path);
      }
      if results.Err? {
        return Err(results.error);
      }
      var next := RunField(validators[k], "", Object(fields), results.value);
      ThenAssoc(outcome, next, ValidateFields(fields, validators[k + 1..]));
      if next.Err? {
        return next;
      }
      outcome := Then(outcome, next);
    }
  }
}
