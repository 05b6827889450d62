/**
 When an item is accepted: the meaning of validators (src/validator.rs) read off the tree of values, without
 cursors, labels, faults or an order of evaluation, and that validation accepts exactly those items.
 */
module Acceptance {
  import opened Prelude
  import opened FieldPath
  import opened Resolve
  import opened Validate
  import opened TreePaths

  // ---------- What a path finds below a value ----------

  // The empty path is the value itself; any other path is followed from an object without obstruction.
  ghost predicate Readable(scope: Value, path: string) {
    path == ""
    || (scope.Object? && ParsePath(path).Ok? && !Obstructed(Some(scope), ParsePath(path).value))
  }

  ghost predicate Finds(scope: Value, path: string, found: Option<Value>) {
    if path == "" then found == Some(scope)
    else ParsePath(path).Ok? && exists trail :: LeadsFrom(scope, path, trail, found)
  }

  ghost predicate LeadsFrom(scope: Value, path: string, trail: seq<Step>, found: Option<Value>)
    requires ParsePath(path).Ok?
  {
    Trail(Some(scope), ParsePath(path).value, trail) && found == ValueAt(Some(scope), trail)
  }

  ghost predicate FindsPresent(scope: Value, path: string, value: Value) {
    value != Null && Finds(scope, path, Some(value))
  }

  ghost predicate FindsSome(scope: Value, path: string) {
    exists v :: FindsPresent(scope, path, v)
  }

  // ---------- What a validator asks for ----------

  ghost predicate Decidable(scope: Value, c: Condition) {
    Readable(scope, c.path) && (c.kind.Equals? || c.kind.NotEquals? ==> c.expected.Some?)
  }

  ghost predicate Holds(scope: Value, c: Condition)
    requires Decidable(scope, c)
  {
    match c.kind
    case Exists => FindsSome(scope, c.path)
    case Absent => !FindsSome(scope, c.path)
    case Equals => FindsPresent(scope, c.path, c.expected.value)
    case NotEquals => FindsSome(scope, c.path) && !FindsPresent(scope, c.path, c.expected.value)
  }

  ghost predicate AllHold(scope: Value, conditions: seq<Condition>) {
    forall k :: 0 <= k < |conditions| ==> Decidable(scope, conditions[k]) && Holds(scope, conditions[k])
  }

  // The first condition that does not hold can be decided.
  ghost predicate SomeFails(scope: Value, conditions: seq<Condition>) {
    exists k :: 0 <= k < |conditions| && FailsFirst(scope, conditions, k)
  }

  ghost predicate FailsFirst(scope: Value, conditions: seq<Condition>, k: nat)
    requires k < |conditions|
  {
    AllHold(scope, conditions[..k]) && Decidable(scope, conditions[k]) && !Holds(scope, conditions[k])
  }

  // A value sent through the transforms; None when one of them refuses it.
  function Through(value: Value, transforms: seq<Value -> Option<Value>>): Option<Value> {
    if transforms == [] then Some(value)
    else
      var before := Through(value, transforms[..|transforms| - 1]);
      if before.None? then None else transforms[|transforms| - 1](before.value)
  }

  predicate HasType(valueType: Type, value: Value) {
    match (valueType, value)
    case (TextType, Text(_)) => true
    case (NumberType, Number(_)) => true
    case (BoolType, Bool(_)) => true
    case (ListType, List(_)) => true
    case (ObjectType, Object(_)) => true
    case _ => false
  }

  // One value meets a validator: it may be absent unless it is required, and a present one has the type, passes the
  // check and satisfies the validators of members and items.
  ghost predicate Meets(v: Validator, found: Option<Value>)
    decreases v, 0
  {
    if found.None? || found.value == Null then !v.rule.required
    else
      var value := Through(found.value, v.transforms);
      && value.Some? && HasType(v.valueType, value.value) && v.rule.check(value.value)
      && (v.objectFields != [] ==> value.value.Object? && SatisfiesAll(v.objectFields, value.value))
      && (v.eachFields != [] ==>
            && value.value.List?
            && forall i :: 0 <= i < |value.value.items| ==> SatisfiesAll(v.eachFields, value.value.items[i]))
  }

  ghost predicate SatisfiesAll(validators: seq<Validator>, scope: Value)
    decreases validators, 0
  {
    forall k :: 0 <= k < |validators| ==> Satisfies(validators[k], scope)
  }

  // A scope satisfies a validator: its path can be followed, and unless a condition fails everything found meets it
  // and something is found if it is required.
  ghost predicate Satisfies(v: Validator, scope: Value)
    decreases v, 1
  {
    && Readable(scope, v.path)
    && (SomeFails(scope, v.conditions)
        || (AllHold(scope, v.conditions)
            && (v.rule.required ==> exists found :: Finds(scope, v.path, found))
            && forall found :: Finds(scope, v.path, found) ==> Meets(v, found)))
  }

  // ---------- The resolver finds what the tree holds ----------

  ghost predicate Shows(results: seq<Resolved>, found: Option<Value>) {
    exists k :: 0 <= k < |results| && results[k].value == found
  }

  lemma FieldsFind(fields: map<string, Value>, path: string, found: Option<Value>)
    requires path != ""
    ensures ResolveFields(fields, path).Ok? <==> Readable(Object(fields), path)
    ensures ResolveFields(fields, path).Ok? ==>
              (Shows(ResolveFields(fields, path).value, found) <==> Finds(Object(fields), path, found))
  {
    ResolutionFailsExactlyWhen(fields, path);
    if ResolveFields(fields, path).Ok? {
      var trails := ResultsAreTheTrails(fields, path);
      var results := ResolveFields(fields, path).value;
      if k :| 0 <= k < |results| && results[k].value == found {
        assert LeadsTo(fields, path, trails[k], results[k]);
        assert LeadsFrom(Object(fields), path, trails[k], found);
      }
      if Finds(Object(fields), path, found) {
        var trail :| LeadsFrom(Object(fields), path, trail, found);
        var k :| 0 <= k < |trails| && trails[k] == trail;
        assert LeadsTo(fields, path, trails[k], results[k]);
      }
    }
  }

  lemma NestedFinds(at: string, scope: Value, path: string, found: Option<Value>)
    ensures ResolveNested(at, scope, path).Ok? <==> Readable(scope, path)
    ensures ResolveNested(at, scope, path).Ok? ==>
              (Shows(ResolveNested(at, scope, path).value, found) <==> Finds(scope, path, found))
    ensures path != "" ==> ResolveScoped(at, scope, path) == ResolveNested(at, scope, path)
    ensures path == "" ==> ResolveScoped(at, scope, path) == Ok([Resolved(Display(at), Some(scope))])
  {
    if path == "" {
      assert [Resolved(at, Some(scope))][0].value == Some(scope);
    } else if scope.Object? {
      FieldsFind(scope.fields, path, found);
      if ResolveFields(scope.fields, path).Ok? {
        var inner, outer := ResolveFields(scope.fields, path).value, ResolveNested(at, scope, path).value;
        assert forall k :: 0 <= k < |inner| ==> outer[k].value == inner[k].value;
      }
    }
  }

  lemma ScopedFinds(at: string, scope: Value, path: string, found: Option<Value>)
    ensures ResolveScoped(at, scope, path).Ok? <==> Readable(scope, path)
    ensures ResolveScoped(at, scope, path).Ok? ==>
              (Shows(ResolveScoped(at, scope, path).value, found) <==> Finds(scope, path, found))
  {
    NestedFinds(at, scope, path, found);
    if path == "" {
      assert ResolveScoped(at, scope, path).value[0].value == Some(scope);
    }
  }

  // ---------- Conditions ----------

  lemma {:induction false} PresentValuesAre(results: seq<Resolved>, value: Value)
    ensures value in PresentValues(results) <==> value != Null && Shows(results, Some(value))
  {
    if results != [] {
      PresentValuesAre(results[1..], value);
      assert results == [results[0]] + results[1..];
    }
  }

  lemma PresentIsFound(at: string, scope: Value, path: string, value: Value)
    requires ResolveScoped(at, scope, path).Ok?
    ensures value in PresentValues(ResolveScoped(at, scope, path).value) <==> FindsPresent(scope, path, value)
  {
    PresentValuesAre(ResolveScoped(at, scope, path).value, value);
    ScopedFinds(at, scope, path, Some(value));
  }

  lemma PresentValuesAreFound(at: string, scope: Value, path: string)
    requires ResolveScoped(at, scope, path).Ok?
    ensures var present := PresentValues(ResolveScoped(at, scope, path).value);
            && (forall v :: v in present <==> FindsPresent(scope, path, v))
            && (present != [] <==> FindsSome(scope, path))
  {
    var present := PresentValues(ResolveScoped(at, scope, path).value);
    forall v
      ensures v in present <==> FindsPresent(scope, path, v)
    {
      PresentIsFound(at, scope, path, v);
    }
    assert present != [] ==> present[0] in present;
  }

  lemma ConditionMeans(at: string, scope: Value, c: Condition)
    ensures var matches := ConditionMatches(at, scope, c);
            (matches.Ok? <==> Decidable(scope, c)) && (matches.Ok? ==> (matches.value <==> Holds(scope, c)))
  {
    ScopedFinds(at, scope, c.path, None);
    if Readable(scope, c.path) {
      PresentValuesAreFound(at, scope, c.path);
    }
  }

  lemma {:induction false} ConditionsMean(at: string, scope: Value, conditions: seq<Condition>)
    ensures var match' := ConditionsMatch(at, scope, conditions);
            && (match' == Ok(true) <==> AllHold(scope, conditions))
            && (match' == Ok(false) <==> SomeFails(scope, conditions))
  {
    if conditions != [] {
      var first, rest := conditions[0], conditions[1..];
      ConditionMeans(at, scope, first);
      ConditionsMean(at, scope, rest);
      AllHoldCons(scope, first, rest);
      SomeFailsCons(scope, first, rest);
      assert conditions == [first] + rest;
    }
  }

  lemma AllHoldCons(scope: Value, first: Condition, rest: seq<Condition>)
    ensures AllHold(scope, [first] + rest) <==> Decidable(scope, first) && Holds(scope, first) && AllHold(scope, rest)
  {
    var all := [first] + rest;
    assert all[0] == first && forall k :: 0 <= k < |rest| ==> all[k + 1] == rest[k];
  }

  lemma FailsFirstCons(scope: Value, first: Condition, rest: seq<Condition>, k: nat)
    requires k <= |rest|
    ensures FailsFirst(scope, [first] + rest, k)
       <==> && Decidable(scope, first)
            && if k == 0 then !Holds(scope, first) else Holds(scope, first) && FailsFirst(scope, rest, k - 1)
  {
    var all := [first] + rest;
    if k > 0 {
      AllHoldCons(scope, first, rest[..k - 1]);
      assert all[..k] == [first] + rest[..k - 1];
    }
  }

  lemma SomeFailsCons(scope: Value, first: Condition, rest: seq<Condition>)
    ensures SomeFails(scope, [first] + rest)
       <==> Decidable(scope, first) && (Holds(scope, first) ==> SomeFails(scope, rest))
  {
    FailsFirstCons(scope, first, rest, 0);
    if k :| 0 <= k < |[first] + rest| && FailsFirst(scope, [first] + rest, k) {
      FailsFirstCons(scope, first, rest, k);
    }
    if k :| 0 <= k < |rest| && FailsFirst(scope, rest, k) {
      FailsFirstCons(scope, first, rest, k + 1);
    }
  }

  // ---------- Values ----------

  lemma {:induction false} TransformsMean(field: string, value: Value, transforms: seq<Value -> Option<Value>>)
    ensures var result := ApplyTransforms(field, value, transforms);
            Through(value, transforms) == if result.Ok? then Some(result.value) else None
    decreases |transforms|
  {
    if transforms != [] {
      var next := transforms[0](value);
      ThroughCons(value, transforms);
      if next.Some? {
        TransformsMean(field, next.value, transforms[1..]);
      }
    }
  }

  lemma {:induction false} ThroughCons(value: Value, transforms: seq<Value -> Option<Value>>)
    requires transforms != []
    ensures var next := transforms[0](value);
            Through(value, transforms) == if next.None? then None else Through(next.value, transforms[1..])
    decreases |transforms|
  {
    var n := |transforms|;
    if n > 1 {
      var front := transforms[..n - 1];
      ThroughCons(value, front);
      assert transforms[1..][..n - 2] == front[1..];
    }
  }

  // ---------- Validators ----------

  lemma {:induction false} ResolvedMeets(v: Validator, field: string, found: Option<Value>)
    ensures ValidateResolved(v, field, found).Ok? <==> Meets(v, found)
    decreases v, 1
  {
    if found.Some? && found.value != Null {
      TransformsMean(field, found.value, v.transforms);
      var value := Through(found.value, v.transforms);
      if value.Some? {
        if v.objectFields != [] {
          MembersMeet(v, field, value.value);
        }
        if v.eachFields != [] {
          ItemsMeet(v, field, value.value);
        }
      }
    }
  }

  lemma {:induction false} MembersMeet(v: Validator, field: string, value: Value)
    requires v.objectFields != []
    ensures ValidateScoped(field, value, v.objectFields).Ok?
       <==> value.Object? && SatisfiesAll(v.objectFields, value)
    decreases v, 0
  {
    MembersSatisfy(field, value, v.objectFields);
  }

  lemma {:induction false} ItemsMeet(v: Validator, field: string, value: Value)
    requires v.eachFields != []
    ensures ValidateEach(field, value, v.eachFields).Ok?
       <==> value.List? && forall i :: 0 <= i < |value.items| ==> SatisfiesAll(v.eachFields, value.items[i])
    decreases v, 0
  {
    if value.List? {
      ItemsSatisfy(field, value.items, 0, v.eachFields);
      assert forall i :: 0 <= i < |value.items| ==>
          (ItemFits(v.eachFields, value.items, i) <==> SatisfiesAll(v.eachFields, value.items[i]));
    }
  }

  lemma {:induction false} ResultsMeet(v: Validator, results: seq<Resolved>)
    ensures ValidateResults(v, results).Ok? <==> forall k :: 0 <= k < |results| ==> Meets(v, results[k].value)
    decreases v, 2, |results|
  {
    if results != [] {
      ResolvedMeets(v, results[0].field, results[0].value);
      ResultsMeet(v, results[1..]);
      assert forall k :: 0 < k < |results| ==> results[k] == results[1..][k - 1];
    }
  }

  lemma {:induction false} FieldSatisfies(v: Validator, at: string, scope: Value, results: Result<seq<Resolved>, Fault>)
    requires results.Ok? <==> Readable(scope, v.path)
    requires results.Ok? ==> forall found :: Shows(results.value, found) <==> Finds(scope, v.path, found)
    ensures results.Ok? && ValidateField(v, at, scope, results.value).Ok? <==> Satisfies(v, scope)
    decreases v, 3
  {
    ConditionsMean(at, scope, v.conditions);
    if results.Ok? {
      ResultsMeet(v, results.value);
      forall found | Finds(scope, v.path, found)
        ensures Shows(results.value, found)
      {
      }
      forall k | 0 <= k < |results.value|
        ensures Finds(scope, v.path, results.value[k].value)
      {
        assert Shows(results.value, results.value[k].value);
      }
    }
  }

  lemma {:induction false} MembersSatisfy(at: string, scope: Value, validators: seq<Validator>)
    ensures ValidateMembers(at, scope, validators).Ok? <==> SatisfiesAll(validators, scope)
    decreases validators, 0
  {
    if validators != [] {
      var v, results := validators[0], ResolveScoped(at, scope, validators[0].path);
      ScopedFinds(at, scope, v.path, None);
      forall found
        ensures results.Ok? ==> (Shows(results.value, found) <==> Finds(scope, v.path, found))
      {
        ScopedFinds(at, scope, v.path, found);
      }
      FieldSatisfies(v, at, scope, results);
      MembersSatisfy(at, scope, validators[1..]);
      assert validators == [v] + validators[1..];
    }
  }

  lemma {:induction false} ItemSatisfies(at: string, item: Value, validators: seq<Validator>)
    ensures ValidateItem(at, item, validators).Ok? <==> SatisfiesAll(validators, item)
    decreases validators, 0
  {
    if validators != [] {
      var v, results := validators[0], ResolveNested(at, item, validators[0].path);
      NestedFinds(at, item, v.path, None);
      forall found
        ensures results.Ok? ==> (Shows(results.value, found) <==> Finds(item, v.path, found))
      {
        NestedFinds(at, item, v.path, found);
      }
      FieldSatisfies(v, at, item, results);
      ItemSatisfies(at, item, validators[1..]);
      assert validators == [v] + validators[1..];
    }
  }

  ghost predicate ItemFits(validators: seq<Validator>, items: seq<Value>, i: nat)
    requires i < |items|
  {
    SatisfiesAll(validators, items[i])
  }

  ghost predicate ItemsFitFrom(validators: seq<Validator>, items: seq<Value>, index: nat) {
    forall i :: index <= i < |items| ==> ItemFits(validators, items, i)
  }

  lemma FitFromHere(validators: seq<Validator>, items: seq<Value>, index: nat)
    requires index < |items|
    ensures ItemsFitFrom(validators, items, index)
       <==> ItemFits(validators, items, index) && ItemsFitFrom(validators, items, index + 1)
  {
    if ItemFits(validators, items, index) && ItemsFitFrom(validators, items, index + 1) {
      forall i | index <= i < |items|
        ensures ItemFits(validators, items, i)
      {
        assert i > index ==> index + 1 <= i;
      }
    }
  }

  lemma {:induction false} FirstItemThenRest(field: string, items: seq<Value>, index: nat, validators: seq<Validator>)
    requires index < |items|
    ensures ValidateItems(field, items, index, validators).Ok?
       <==> ItemFits(validators, items, index) && ValidateItems(field, items, index + 1, validators).Ok?
    decreases validators, 1
  {
    ItemSatisfies(AppendStep(field, Index(index)), items[index], validators);
  }

  lemma {:induction false} ItemsSatisfy(field: string, items: seq<Value>, index: nat, validators: seq<Validator>)
    requires index <= |items|
    ensures ValidateItems(field, items, index, validators).Ok? <==> ItemsFitFrom(validators, items, index)
    decreases validators, 2, |items| - index
  {
    if index < |items| {
      FirstItemThenRest(field, items, index, validators);
      ItemsSatisfy(field, items, index + 1, validators);
      FitFromHere(validators, items, index);
    }
  }

  // An item is accepted if and only if it satisfies every validator.
  lemma {:induction false} AcceptedExactlyWhen(fields: map<string, Value>, validators: seq<Validator>)
    ensures ValidateFields(fields, validators).Ok? <==> SatisfiesAll(validators, Object(fields))
  {
    if validators != [] {
      var v, item := validators[0], Object(fields);
      var results := if v.path == "" then Ok([Resolved(Display(""), Some(item))]) else ResolveFields(fields, v.path);
      if v.path != "" {
        FieldsFind(fields, v.path, None);
      }
      forall found
        ensures results.Ok? ==> (Shows(results.value, found) <==> Finds(item, v.path, found))
      {
        if v.path == "" {
          assert results.value[0].value == Some(item);
        } else {
          FieldsFind(fields, v.path, found);
        }
      }
      FieldSatisfies(v, "", item, results);
      AcceptedExactlyWhen(fields, validators[1..]);
      assert validators == [v] + validators[1..];
    }
  }

  // A rejected item is rejected with the fault of the first validator it does not satisfy.
  lemma {:induction false} FirstUnsatisfiedDecides(fields: map<string, Value>, validators: seq<Validator>, k: nat)
    requires k < |validators| && !Satisfies(validators[k], Object(fields))
    requires SatisfiesAll(validators[..k], Object(fields))
    ensures ValidateFields(fields, validators).Err?
    ensures ValidateFields(fields, validators) == ValidateFields(fields, [validators[k]])
    decreases k
  {
    AcceptedExactlyWhen(fields, [validators[k]]);
    assert [validators[k]][1..] == [];
    if k > 0 {
      assert validators[..k][0] == validators[0] && validators[1..][..k - 1] == validators[..k][1..];
      AcceptedExactlyWhen(fields, [validators[0]]);
      assert [validators[0]][1..] == [];
      FirstUnsatisfiedDecides(fields, validators[1..], k - 1);
    }
  }
}
