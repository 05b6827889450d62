/**
 Validating the members of lists and objects through nested validators agrees with validating them
 through one longer path (src/validator.rs).
 */
module ListPaths {
  import opened Prelude
  import opened FieldPath
  import opened Resolve
  import opened Validate

  function PlainRule(): Rule {
    Rule(false, (_: Value) => true)
  }

  // A list validator that only hands its items to one child, and the object counterpart.
  function EachOf(p: string, child: Validator): Validator {
    Validator(p, ListType, [], [], [], [child], PlainRule())
  }

  function MemberOf(p: string, child: Validator): Validator {
    Validator(p, ObjectType, [], [], [child], [], PlainRule())
  }

  function AtPath(child: Validator, path: string): Validator {
    child.(path := path)
  }

  ghost predicate Accepts(fields: map<string, Value>, validator: Validator) {
    ValidateFields(fields, [validator]).Ok?
  }

  ghost predicate Unconditional(child: Validator) {
    child.conditions == [] && child.path != "" && ParsePath(child.path).Ok?
  }

  ghost predicate SingleValued(path: string) {
    ParsePath(path).Ok? && Each !in ParsePath(path).value
  }

  // A required child must find exactly one value per item, so its path holds no `[]`.
  ghost predicate Flattens(child: Validator) {
    SingleValued(child.path) || !child.rule.required
  }

  // ---------- Paths without `[]` yield one result ----------

  lemma {:induction false} SingleCursor(path: string, cursor: Cursor, steps: seq<Step>)
    requires Each !in steps
    ensures var next := ApplySteps(path, [cursor], steps); next.Ok? ==> |next.value| == 1
    decreases |steps|
  {
    if steps != [] {
      ApplyStepOne(path, cursor, steps[0]);
      var next := Expand(path, cursor, steps[0]);
      if next.Ok? {
        assert next.value == [next.value[0]];
        SingleCursor(path, next.value[0], steps[1..]);
      }
    }
  }

  lemma SingleNested(parent: string, value: Value, child: string)
    requires child != "" && SingleValued(child)
    ensures ResolveNested(parent, value, child).Ok? ==> |ResolveNested(parent, value, child).value| == 1
  {
    if value.Object? {
      SingleCursor(child, RootCursor(value.fields), ParsePath(child).value);
    }
  }

  // ---------- What acceptance of a validator means, result by result ----------

  ghost predicate AllPass(validator: Validator, results: seq<Resolved>) {
    forall k :: 0 <= k < |results| ==> ValidateResolved(validator, results[k].field, results[k].value).Ok?
  }

  lemma {:induction false} ResultsPass(validator: Validator, results: seq<Resolved>)
    ensures ValidateResults(validator, results).Ok? <==> AllPass(validator, results)
  {
    if results != [] {
      ResultsPass(validator, results[1..]);
      if AllPass(validator, results[1..]) && ValidateResolved(validator, results[0].field, results[0].value).Ok? {
        forall k | 0 <= k < |results|
          ensures ValidateResolved(validator, results[k].field, results[k].value).Ok?
        {
          if k > 0 {
            assert results[k] == results[1..][k - 1];
          }
        }
      }
    }
  }

  lemma AcceptsMeans(fields: map<string, Value>, validator: Validator)
    requires Unconditional(validator)
    ensures Accepts(fields, validator)
       <==> var results := ResolveFields(fields, validator.path);
            results.Ok? && AllPass(validator, results.value) && !(results.value == [] && validator.rule.required)
  {
    assert [validator][1..] == [];
    assert ValidateFields(fields, [validator][1..]) == Ok(Skipped);
    var results := ResolveFields(fields, validator.path);
    if results.Ok? {
      ResultsPass(validator, results.value);
    }
  }

  // The path of a validator plays no part once its values are resolved.
  lemma PathIsForgotten(child: Validator, path: string, field: string, value: Option<Value>)
    ensures ValidateResolved(AtPath(child, path), field, value) == ValidateResolved(child, field, value)
  {
    var flat := AtPath(child, path);
    if value.Some? && !value.value.Null? {
      var transformed := ApplyTransforms(field, value.value, child.transforms);
      if transformed.Ok? {
        assert ValidateNested(flat, field, transformed.value) == ValidateNested(child, field, transformed.value);
      }
    }
  }

  // One object handed to one child.
  ghost predicate ChildPasses(child: Validator, holder: Resolved)
    requires holder.value.Some?
  {
    var results := ResolveNested(holder.field, holder.value.value, child.path);
    results.Ok? && AllPass(child, results.value) && !(results.value == [] && child.rule.required)
  }

  lemma ItemMeans(field: string, item: Value, child: Validator)
    requires Unconditional(child)
    ensures ValidateItem(field, item, [child]).Ok? <==> ChildPasses(child, Resolved(field, Some(item)))
  {
    assert [child][1..] == [];
    assert ValidateItem(field, item, [child][1..]) == Ok(Skipped);
    var results := ResolveNested(field, item, child.path);
    if results.Ok? {
      ResultsPass(child, results.value);
    }
  }

  lemma MemberMeans(field: string, value: Value, child: Validator)
    requires Unconditional(child)
    ensures ValidateMembers(field, value, [child]).Ok? <==> ChildPasses(child, Resolved(field, Some(value)))
  {
    assert [child][1..] == [];
    assert ValidateMembers(field, value, [child][1..]) == Ok(Skipped);
    var results := ResolveNested(field, value, child.path);
    if results.Ok? {
      ResultsPass(child, results.value);
    }
  }

  // ---------- The longer path, result by result ----------

  lemma AllPassAppend(validator: Validator, a: seq<Resolved>, b: seq<Resolved>)
    ensures AllPass(validator, a + b) <==> AllPass(validator, a) && AllPass(validator, b)
  {
    assert forall k :: 0 <= k < |a| ==> (a + b)[k] == a[k];
    assert forall k :: 0 <= k < |b| ==> (a + b)[|a| + k] == b[k];
  }

  ghost predicate FlatPasses(child: Validator, result: Resolved)
    requires ParsePath(child.path).Ok?
  {
    var behind := Behind(result, child.path);
    behind.Ok? && AllPass(child, behind.value)
  }

  // A present value behind which the child's path finds nothing at all.
  ghost predicate Hollow(child: Validator, result: Resolved)
    requires ParsePath(child.path).Ok?
  {
    !IsAbsent(result) && Behind(result, child.path) == Ok([])
  }

  ghost predicate NothingBehind(child: Validator, results: seq<Resolved>)
    requires ParsePath(child.path).Ok?
  {
    forall k :: 0 <= k < |results| ==> Behind(results[k], child.path) == Ok([])
  }

  ghost predicate FlatPassesAll(child: Validator, results: seq<Resolved>)
    requires ParsePath(child.path).Ok?
  {
    forall k :: 0 <= k < |results| ==> FlatPasses(child, results[k])
  }

  lemma {:induction false} BehindAllPasses(results: seq<Resolved>, child: Validator)
    requires ParsePath(child.path).Ok?
    ensures var behind := BehindAll(results, child.path);
            && (behind.Ok? && AllPass(child, behind.value) <==> FlatPassesAll(child, results))
            && (behind == Ok([]) <==> NothingBehind(child, results))
  {
    if results != [] {
      var first, rest := results[0], results[1..];
      assert results == [first] + rest;
      BehindAllPasses(rest, child);
      var here, below := Behind(first, child.path), BehindAll(rest, child.path);
      if here.Ok? && below.Ok? {
        AllPassAppend(child, here.value, below.value);
      }
      assert forall k :: 0 <= k < |rest| ==> rest[k] == results[k + 1];
      assert FlatPassesAll(child, results) <==> FlatPasses(child, first) && FlatPassesAll(child, rest) by {
        assert forall k :: 0 < k < |results| ==> results[k] == rest[k - 1];
      }
      assert NothingBehind(child, results) <==> here == Ok([]) && NothingBehind(child, rest) by {
        assert forall k :: 0 < k < |results| ==> results[k] == rest[k - 1];
      }
    }
  }

  lemma FlatMeans(fields: map<string, Value>, p: string, child: Validator)
    requires p != "" && ParsePath(p).Ok? && Unconditional(child)
    ensures Accepts(fields, AtPath(child, p + "." + child.path))
       <==> var results := ResolveFields(fields, p);
            results.Ok? && FlatPassesAll(child, results.value)
                && !(NothingBehind(child, results.value) && child.rule.required)
  {
    var path := p + "." + child.path;
    var flat := AtPath(child, path);
    JoinedPathParses(p, ParsePath(p).value, [], child.path, ParsePath(child.path).value);
    JoinWithNothing(ParsePath(p).value, ParsePath(child.path).value, p, child.path);
    ResolutionComposes(fields, p, child.path);
    AcceptsMeans(fields, flat);
    var results, found := ResolveFields(fields, p), ResolveFields(fields, path);
    if results.Ok? {
      BehindAllPasses(results.value, child);
      if found.Ok? {
        forall k | 0 <= k < |found.value|
          ensures ValidateResolved(flat, found.value[k].field, found.value[k].value)
               == ValidateResolved(child, found.value[k].field, found.value[k].value)
        {
          PathIsForgotten(child, path, found.value[k].field, found.value[k].value);
        }
        assert AllPass(flat, found.value) <==> AllPass(child, found.value);
      }
    }
  }

  // What the longer path and the child make of one holder.
  lemma HolderMeans(child: Validator, result: Resolved)
    requires Unconditional(child)
    ensures IsAbsent(result) ==> (FlatPasses(child, result) <==> !child.rule.required)
    ensures !IsAbsent(result) ==>
              (ChildPasses(child, result) <==>
                 FlatPasses(child, result) && !(Hollow(child, result) && child.rule.required))
    ensures !IsAbsent(result) && !result.value.value.Object? ==> !FlatPasses(child, result)
  {
    if IsAbsent(result) {
      var behind := Behind(result, child.path).value;
      assert AllPass(child, behind) <==> ValidateResolved(child, behind[0].field, behind[0].value).Ok?;
    }
  }

  ghost predicate AllPresent(results: seq<Resolved>) {
    forall k :: 0 <= k < |results| ==> !IsAbsent(results[k])
  }

  ghost predicate NoneHollow(child: Validator, results: seq<Resolved>)
    requires ParsePath(child.path).Ok?
  {
    forall k :: 0 <= k < |results| ==> !Hollow(child, results[k])
  }

  // ---------- Objects ----------

  lemma MemberResolvedMeans(p: string, child: Validator, holder: Resolved)
    requires Unconditional(child)
    ensures ValidateResolved(MemberOf(p, child), holder.field, holder.value).Ok?
       <==> IsAbsent(holder) || (holder.value.value.Object? && ChildPasses(child, holder))
  {
    if !IsAbsent(holder) {
      var validator, value := MemberOf(p, child), holder.value.value;
      MemberMeans(holder.field, value, child);
      if value.Object? {
        assert ValidateNested(validator, holder.field, value)
            == Then(ValidateScoped(holder.field, value, [child]), Ok(Skipped));
      }
    }
  }

  /**
   An object validator with one child against the child at the longer path, for any data.  When the first
   accepts, so does the second unless a required child has no object, or a missing or null one, to be found in.
   When the second accepts, so does the first unless the path of a required child finds nothing in an object.
   */
  lemma ObjectValidatorAgainstPath(fields: map<string, Value>, p: string, child: Validator)
    requires p != "" && ParsePath(p).Ok? && Unconditional(child)
    ensures var results := ResolveFields(fields, p);
            var nested, flat := Accepts(fields, MemberOf(p, child)),
                Accepts(fields, AtPath(child, p + "." + child.path));
            && (nested || flat ==> results.Ok?)
            && (nested ==> (flat <==> (child.rule.required ==> results.value != [] && AllPresent(results.value))))
            && (flat ==> (nested <==> (child.rule.required ==> NoneHollow(child, results.value))))
  {
    FlatMeans(fields, p, child);
    AcceptsMeans(fields, MemberOf(p, child));
    var results := ResolveFields(fields, p);
    if results.Ok? {
      forall k | 0 <= k < |results.value|
        ensures ValidateResolved(MemberOf(p, child), results.value[k].field, results.value[k].value).Ok?
           <==> IsAbsent(results.value[k]) || (FlatPasses(child, results.value[k])
                                             && !(Hollow(child, results.value[k]) && child.rule.required))
        ensures IsAbsent(results.value[k]) ==> (FlatPasses(child, results.value[k]) <==> !child.rule.required)
        ensures IsAbsent(results.value[k]) ==> Behind(results.value[k], child.path) != Ok([])
      {
        MemberResolvedMeans(p, child, results.value[k]);
        HolderMeans(child, results.value[k]);
      }
      if results.value != [] && NothingBehind(child, results.value) {
        assert Behind(results.value[0], child.path) == Ok([]);
      }
    }
  }

  // On objects, with a child that finds exactly one value in each or is not required, the two agree unless
  // there is no object at all and the child is required.
  lemma ObjectValidatorAgreesWithPath(fields: map<string, Value>, p: string, child: Validator)
    requires p != "" && ParsePath(p).Ok? && Unconditional(child) && Flattens(child)
    requires ResolveFields(fields, p).Ok? ==> AllObjects(ResolveFields(fields, p).value)
    ensures (Accepts(fields, MemberOf(p, child)) <==> Accepts(fields, AtPath(child, p + "." + child.path)))
       <==> !(ResolveFields(fields, p) == Ok([]) && child.rule.required)
  {
    ObjectValidatorAgainstPath(fields, p, child);
    AcceptsMeans(fields, MemberOf(p, child));
    var results := ResolveFields(fields, p);
    if results.Ok? && child.rule.required {
      forall k | 0 <= k < |results.value|
        ensures !Hollow(child, results.value[k])
      {
        SingleNested(results.value[k].field, results.value[k].value.value, child.path);
      }
    }
  }

  // ---------- Lists ----------

  function ItemResults(list: Resolved): seq<Resolved>
    requires list.value.Some? && list.value.value.List?
  {
    var items := list.value.value.items;
    seq(|items|, i requires 0 <= i < |items| => Resolved(AppendStep(list.field, Index(i)), Some(items[i])))
  }

  // What `[]` finds behind one result.
  function EachBehind(path: string, result: Resolved): Result<seq<Resolved>, Fault> {
    if IsAbsent(result) then Ok([Resolved(AppendStep(result.field, Each), None)])
    else if result.value.value.List? then Ok(ItemResults(result))
    else Err(CannotNavigate(path, result.field, StepText(Each), KindName(result.value.value)))
  }

  function EachBehindAll(path: string, results: seq<Resolved>): Result<seq<Resolved>, Fault> {
    if results == [] then Ok([]) else Join(EachBehind(path, results[0]), EachBehindAll(path, results[1..]))
  }

  lemma EachPathParses(p: string)
    requires p != "" && ParsePath(p).Ok?
    ensures ParsePath(p + "[]") == Ok(ParsePath(p).value + [Each])
  {
    var steps := ParsePath(p).value;
    var zeros := ParsePathIsSound(p);
    PiecesAppend(steps, zeros, [Each], [0]);
    assert Pieces([Each], [0]) == "[]" + "";
    Associate(".", p, "[]");
    SpellingParses(p + "[]", steps + [Each], zeros + [0]);
  }

  lemma FirstItems(path: string, p: string, cursor: Cursor)
    requires cursor.field != "" && cursor.node.At? && cursor.node.value.List?
    ensures FinishAll(path, ItemCursors(cursor.field, cursor.node.value.items)) == ItemResults(Finish(p, cursor))
  {
    forall i | 0 <= i < |cursor.node.value.items|
      ensures AppendStep(cursor.field, Index(i)) != ""
    {
      AppendIsPiece(cursor.field, Index(i));
    }
  }

  lemma EachCursor(path: string, p: string, cursor: Cursor)
    requires cursor.field != "" && !cursor.node.Root?
    ensures SameOutcome(Finished(path, Expand(path, cursor, Each)), EachBehind(path, Finish(p, cursor)))
  {
    if cursor.node.At? && cursor.node.value.List? {
      FirstItems(path, p, cursor);
    } else if IsAbsent(Finish(p, cursor)) {
      var missing := Cursor(AppendStep(cursor.field, Each), Missing);
      AppendIsPiece(cursor.field, Each);
      assert FinishAll(path, [missing]) == [Finish(path, missing)];
    }
  }

  lemma {:induction false} EachCursors(path: string, p: string, cursors: seq<Cursor>)
    requires Labelled(cursors)
    ensures SameOutcome(Finished(path, ApplyStep(path, cursors, Each)), EachBehindAll(path, FinishAll(p, cursors)))
  {
    if cursors != [] {
      var first, rest := cursors[0], cursors[1..];
      assert cursors == [first] + rest;
      FinishCons(p, first, rest);
      EachCursor(path, p, first);
      EachCursors(path, p, rest);
      FinishedJoin(path, Expand(path, first, Each), ApplyStep(path, rest, Each));
    }
  }

  // `p[]` resolves to the items of the lists that `p` resolves to, and to one missing item for each missing
  // or null list; anything else is a fault.
  lemma EachPathIsItems(fields: map<string, Value>, p: string)
    requires p != "" && ParsePath(p).Ok?
    ensures SameOutcome(ResolveFields(fields, p + "[]"),
                        if ResolveFields(fields, p).Ok? then EachBehindAll(p + "[]", ResolveFields(fields, p).value)
                        else ResolveFields(fields, p))
  {
    var path, steps, root := p + "[]", ParsePath(p).value, [RootCursor(fields)];
    EachPathParses(p);
    StepsInTwoRuns(path, root, steps, [Each]);
    StepsIgnoreQuotedPath(path, p, root, steps);
    var reached := ApplySteps(p, root, steps);
    if reached.Ok? {
      ReachedAreLabelled(fields, p);
      EachCursors(path, p, reached.value);
      var next := ApplyStep(path, reached.value, Each);
      assert [Each][1..] == [];
      assert next.Ok? ==> ApplySteps(path, reached.value, [Each]) == ApplySteps(path, next.value, [Each][1..]);
    }
  }

  ghost predicate ItemPasses(child: Validator, field: string, items: seq<Value>, k: nat)
    requires k < |items|
  {
    ChildPasses(child, Resolved(AppendStep(field, Index(k)), Some(items[k])))
  }

  ghost predicate ItemsPassFrom(child: Validator, field: string, items: seq<Value>, index: nat) {
    forall k :: index <= k < |items| ==> ItemPasses(child, field, items, k)
  }

  lemma PassFromHere(child: Validator, field: string, items: seq<Value>, index: nat)
    requires index < |items|
    ensures ItemsPassFrom(child, field, items, index)
       <==> ItemPasses(child, field, items, index) && ItemsPassFrom(child, field, items, index + 1)
  {
    if ItemPasses(child, field, items, index) && ItemsPassFrom(child, field, items, index + 1) {
      forall k | index <= k < |items|
        ensures ItemPasses(child, field, items, k)
      {
        if k > index {
          assert index + 1 <= k;
        }
      }
    }
  }

  lemma FirstItemThenRest(field: string, items: seq<Value>, index: nat, child: Validator)
    requires Unconditional(child) && index < |items|
    ensures ValidateItems(field, items, index, [child]).Ok?
            <==> ItemPasses(child, field, items, index) && ValidateItems(field, items, index + 1, [child]).Ok?
  {
    ItemMeans(AppendStep(field, Index(index)), items[index], child);
  }

  lemma {:induction false} ItemsMean(field: string, items: seq<Value>, index: nat, child: Validator)
    requires Unconditional(child) && index <= |items|
    ensures ValidateItems(field, items, index, [child]).Ok? <==> ItemsPassFrom(child, field, items, index)
    decreases |items| - index
  {
    if index < |items| {
      FirstItemThenRest(field, items, index, child);
      ItemsMean(field, items, index + 1, child);
      PassFromHere(child, field, items, index);
    }
  }

  lemma ListResolvedMeans(p: string, child: Validator, list: Resolved)
    requires Unconditional(child)
    ensures ValidateResolved(EachOf(p, child), list.field, list.value).Ok?
       <==> || IsAbsent(list)
            || (list.value.value.List?
                && forall k :: 0 <= k < |ItemResults(list)| ==> ChildPasses(child, ItemResults(list)[k]))
  {
    if !IsAbsent(list) && list.value.value.List? {
      var validator, value := EachOf(p, child), list.value.value;
      ItemsMean(list.field, value.items, 0, child);
      forall k | 0 <= k < |value.items|
        ensures ItemPasses(child, list.field, value.items, k) <==> ChildPasses(child, ItemResults(list)[k])
      {
      }
      assert ValidateNested(validator, list.field, value)
          == Then(Ok(Skipped), ValidateEach(list.field, value, [child]));
    }
  }

  // An item the longer path accepts and, when strict, the list validator too.
  ghost predicate ItemOk(child: Validator, strict: bool, item: Resolved)
    requires ParsePath(child.path).Ok?
  {
    && FlatPasses(child, item)
    && (strict ==> if child.rule.required then !Hollow(child, item) else item.value != Some(Null))
  }

  ghost predicate ItemsOk(child: Validator, strict: bool, items: seq<Resolved>)
    requires ParsePath(child.path).Ok?
  {
    forall k :: 0 <= k < |items| ==> ItemOk(child, strict, items[k])
  }

  ghost predicate ListOk(path: string, child: Validator, strict: bool, list: Resolved)
    requires ParsePath(child.path).Ok?
  {
    var items := EachBehind(path, list);
    items.Ok? && ItemsOk(child, strict, items.value)
  }

  lemma ItemsOkAppend(child: Validator, strict: bool, a: seq<Resolved>, b: seq<Resolved>)
    requires ParsePath(child.path).Ok?
    ensures ItemsOk(child, strict, a + b) <==> ItemsOk(child, strict, a) && ItemsOk(child, strict, b)
  {
    assert forall k :: 0 <= k < |a| ==> (a + b)[k] == a[k];
    assert forall k :: 0 <= k < |b| ==> (a + b)[|a| + k] == b[k];
  }

  lemma {:induction false} ListsOk(path: string, child: Validator, strict: bool, lists: seq<Resolved>)
    requires ParsePath(child.path).Ok?
    ensures var items := EachBehindAll(path, lists);
            items.Ok? && ItemsOk(child, strict, items.value)
            <==> forall k :: 0 <= k < |lists| ==> ListOk(path, child, strict, lists[k])
  {
    if lists != [] {
      var first, rest := lists[0], lists[1..];
      ListsOk(path, child, strict, rest);
      var here, below := EachBehind(path, first), EachBehindAll(path, rest);
      if here.Ok? && below.Ok? {
        ItemsOkAppend(child, strict, here.value, below.value);
      }
      assert forall k :: 0 <= k < |rest| ==> rest[k] == lists[k + 1];
      assert forall k :: 0 < k < |lists| ==> lists[k] == rest[k - 1];
    }
  }

  // One list, to the list validator and to the path.
  lemma ListMeans(path: string, p: string, child: Validator, list: Resolved)
    requires Unconditional(child)
    ensures ValidateResolved(EachOf(p, child), list.field, list.value).Ok? && (child.rule.required ==> !IsAbsent(list))
       <==> ListOk(path, child, true, list)
    ensures ListOk(path, child, false, list) && child.rule.required ==> !IsAbsent(list)
  {
    ListResolvedMeans(p, child, list);
    if IsAbsent(list) {
      var item := Resolved(AppendStep(list.field, Each), None);
      HolderMeans(child, item);
      assert EachBehind(path, list).value[0] == item;
    } else if list.value.value.List? {
      forall k | 0 <= k < |ItemResults(list)|
        ensures ChildPasses(child, ItemResults(list)[k]) <==> ItemOk(child, true, ItemResults(list)[k])
      {
        HolderMeans(child, ItemResults(list)[k]);
      }
    }
  }

  lemma AllListsMean(path: string, p: string, child: Validator, lists: seq<Resolved>)
    requires Unconditional(child)
    ensures var items := EachBehindAll(path, lists);
            && (AllPass(EachOf(p, child), lists) && (child.rule.required ==> AllPresent(lists))
                <==> items.Ok? && ItemsOk(child, true, items.value))
            && (items.Ok? && ItemsOk(child, false, items.value) && child.rule.required ==> AllPresent(lists))
  {
    forall k | 0 <= k < |lists|
      ensures ValidateResolved(EachOf(p, child), lists[k].field, lists[k].value).Ok?
              && (child.rule.required ==> !IsAbsent(lists[k]))
         <==> ListOk(path, child, true, lists[k])
      ensures ListOk(path, child, false, lists[k]) && child.rule.required ==> !IsAbsent(lists[k])
    {
      ListMeans(path, p, child, lists[k]);
    }
    ListsOk(path, child, true, lists);
    ListsOk(path, child, false, lists);
  }

  ghost predicate NoneNull(items: seq<Resolved>) {
    forall k :: 0 <= k < |items| ==> items[k].value != Some(Null)
  }

  lemma NotNothing(child: Validator, items: seq<Resolved>)
    requires ParsePath(child.path).Ok? && ItemsOk(child, true, items) && child.rule.required
    ensures NothingBehind(child, items) <==> items == []
  {
    if items != [] {
      assert ItemOk(child, true, items[0]);
    }
  }

  /**
   A list validator with one child against the child at `p[].child`, for any data and whatever is nested in the
   child.  When the first accepts, so does the second unless a required child has no item, or a missing or null
   list, to be found in.  When the second accepts, so does the first unless some item is null, or, for a
   required child, the child's path finds nothing in some item.
   */
  lemma ListValidatorAgainstPath(fields: map<string, Value>, p: string, child: Validator)
    requires p != "" && ParsePath(p).Ok? && Unconditional(child)
    ensures var lists, items := ResolveFields(fields, p), ResolveFields(fields, p + "[]");
            var nested, flat := Accepts(fields, EachOf(p, child)),
                Accepts(fields, AtPath(child, p + "[]" + "." + child.path));
            && (nested || flat ==> lists.Ok?)
            && (flat || (nested && (child.rule.required ==> AllPresent(lists.value))) ==> items.Ok?)
            && (nested ==> (flat <==> (child.rule.required ==> AllPresent(lists.value) && items.value != [])))
            && (flat ==>
                  (nested <==> if child.rule.required then NoneHollow(child, items.value) else NoneNull(items.value)))
  {
    EachPathParses(p);
    EachPathIsItems(fields, p);
    FlatMeans(fields, p + "[]", child);
    AcceptsMeans(fields, EachOf(p, child));
    var lists, items := ResolveFields(fields, p), ResolveFields(fields, p + "[]");
    if lists.Ok? {
      AllListsMean(p + "[]", p, child, lists.value);
      if items.Ok? {
        if ItemsOk(child, true, items.value) && child.rule.required {
          NotNothing(child, items.value);
        }
      }
    }
  }

  // On lists of objects, with a child that finds exactly one value in each or is not required, the two agree
  // unless there is no item at all and the child is required.
  lemma ListValidatorAgreesWithPath(fields: map<string, Value>, p: string, child: Validator)
    requires p != "" && ParsePath(p).Ok? && Unconditional(child) && Flattens(child)
    requires ResolveFields(fields, p).Ok? ==> AllPresent(ResolveFields(fields, p).value)
    requires ResolveFields(fields, p + "[]").Ok? ==> AllObjects(ResolveFields(fields, p + "[]").value)
    ensures (Accepts(fields, EachOf(p, child)) <==> Accepts(fields, AtPath(child, p + "[]" + "." + child.path)))
       <==> !(ResolveFields(fields, p + "[]") == Ok([]) && child.rule.required)
  {
    ListValidatorAgainstPath(fields, p, child);
    var lists, items := ResolveFields(fields, p), ResolveFields(fields, p + "[]");
    if items.Ok? {
      forall k | 0 <= k < |items.value|
        ensures !(child.rule.required && Hollow(child, items.value[k]))
      {
        if child.rule.required {
          SingleNested(items.value[k].field, items.value[k].value.value, child.path);
        }
      }
      if items.value == [] {
        EmptyListsPass(fields, p, child);
      }
    }
  }

  // Lists without items pass whatever the child.
  lemma EmptyListsPass(fields: map<string, Value>, p: string, child: Validator)
    requires p != "" && ParsePath(p).Ok? && Unconditional(child) && ResolveFields(fields, p + "[]") == Ok([])
    ensures Accepts(fields, EachOf(p, child))
  {
    EachPathIsItems(fields, p);
    AcceptsMeans(fields, EachOf(p, child));
    AllListsMean(p + "[]", p, child, ResolveFields(fields, p).value);
  }
}
