/**
 Resolution of field paths over JSON-like values (src/validator.rs): all cursors advance one step
 at a time and each result carries the concrete path, its label, by which it was reached.
 */
module Resolve {
  import opened Prelude
  import opened FieldPath

  datatype Value =
    | Null
    | Bool(flag: bool)
    | Number(number: real)
    | Text(text: string)
    | List(items: seq<Value>)
    | Object(fields: map<string, Value>)

  datatype Node = Root(members: map<string, Value>) | At(value: Value) | Missing

  datatype Cursor = Cursor(field: string, node: Node)

  datatype Resolved = Resolved(field: string, value: Option<Value>)

  // The faults of resolution and of validation, with the paths their messages name.
  datatype Fault =
    | InvalidPath(path: string, detail: PathError)
    | SelectorAtRoot(path: string)
    | CannotNavigate(path: string, field: string, next: string, kind: string)
    | MissingValue(field: string)
    | WrongType(field: string)
    | RuleFailed(field: string)
    | TransformFailed(field: string)
    | NotAList(field: string)
    | NotAnObject(field: string)
    | NoComparisonValue(path: string)

  function KindName(value: Value): string {
    match value
    case Null => "null"
    case Bool(_) => "bool"
    case Number(_) => "number"
    case Text(_) => "text"
    case List(_) => "list"
    case Object(_) => "object"
  }

  function StepText(step: Step): string {
    match step
    case Field(name) => "field `" + name + "`"
    case Index(index) => "index [" + Decimal(index) + "]"
    case Each => "items `[]`"
  }

  function Lookup(fields: map<string, Value>, name: string): Node {
    if name in fields then At(fields[name]) else Missing
  }

  // ---------- One cursor, one step ----------

  function Expand(path: string, cursor: Cursor, step: Step): Result<seq<Cursor>, Fault> {
    var field := AppendStep(cursor.field, step);
    match (step, cursor.node)
    case (Field(name), Root(fields)) => Ok([Cursor(field, Lookup(fields, name))])
    case (_, Root(_)) => Err(SelectorAtRoot(path))
    case (_, Missing) => Ok([Cursor(field, Missing)])
    case (_, At(Null)) => Ok([Cursor(field, Missing)])
    case (Field(name), At(Object(fields))) => Ok([Cursor(field, Lookup(fields, name))])
    case (Index(index), At(List(items))) => Ok([Cursor(field, if index < |items| then At(items[index]) else Missing)])
    case (Each, At(List(items))) => Ok(ItemCursors(cursor.field, items))
    case (_, At(value)) => Err(CannotNavigate(path, cursor.field, StepText(step), KindName(value)))
  }

  function ItemCursors(field: string, items: seq<Value>): seq<Cursor> {
    seq(|items|, i requires 0 <= i < |items| => Cursor(AppendStep(field, Index(i)), At(items[i])))
  }

  function Join<T>(left: Result<seq<T>, Fault>, right: Result<seq<T>, Fault>): Result<seq<T>, Fault> {
    if left.Err? then left else if right.Err? then right else Ok(left.value + right.value)
  }

  // ---------- All cursors, one step; then all steps ----------

  function ApplyStep(path: string, cursors: seq<Cursor>, step: Step): Result<seq<Cursor>, Fault> {
    if cursors == [] then Ok([])
    else Join(Expand(path, cursors[0], step), ApplyStep(path, cursors[1..], step))
  }

  function ApplySteps(path: string, cursors: seq<Cursor>, steps: seq<Step>): Result<seq<Cursor>, Fault>
    decreases |steps|
  {
    if steps == [] then Ok(cursors)
    else
      var next := ApplyStep(path, cursors, steps[0]);
      if next.Err? then next else ApplySteps(path, next.value, steps[1..])
  }

  function RootCursor(fields: map<string, Value>): Cursor {
    Cursor("", Root(fields))
  }

  function Finish(path: string, cursor: Cursor): Resolved {
    Resolved(if cursor.field == "" then path else cursor.field,
             if cursor.node.At? then Some(cursor.node.value) else None)
  }

  function FinishAll(path: string, cursors: seq<Cursor>): seq<Resolved> {
    seq(|cursors|, k requires 0 <= k < |cursors| => Finish(path, cursors[k]))
  }

  function Finished(path: string, cursors: Result<seq<Cursor>, Fault>): Result<seq<Resolved>, Fault> {
    if cursors.Err? then Err(cursors.error) else Ok(FinishAll(path, cursors.value))
  }

  function ResolveFields(fields: map<string, Value>, path: string): Result<seq<Resolved>, Fault> {
    var steps := ParsePath(path);
    if steps.Err? then Err(InvalidPath(path, steps.error))
    else Finished(path, ApplySteps(path, [RootCursor(fields)], steps.value))
  }

  function FirstSegment(path: string): string {
    path[..NameLength(path)]
  }

  function PrefixAll(parent: string, results: seq<Resolved>): seq<Resolved> {
    seq(|results|, k requires 0 <= k < |results| =>
      Resolved(PrefixNested(parent, results[k].field), results[k].value))
  }

  function ResolveNested(parent: string, value: Value, child: string): Result<seq<Resolved>, Fault> {
    if child == "" then Ok([Resolved(parent, Some(value))])
    else if !value.Object? then
      var segment := FirstSegment(child);
      Err(CannotNavigate(PrefixNested(parent, child), parent,
                         if segment == "" then "field" else "field `" + segment + "`", KindName(value)))
    else
      var inner := ResolveFields(value.fields, child);
      if inner.Err? then inner else Ok(PrefixAll(parent, inner.value))
  }

  // ---------- The loops of the source ----------

  method ApplyFieldPathStep(path: string, cursors: seq<Cursor>, step: Step) returns (result: Result<seq<Cursor>, Fault>)
    ensures result == ApplyStep(path, cursors, step)
  {
    var next: seq<Cursor> := [];
    assert cursors[0..] == cursors;
    JoinNothing(ApplyStep(path, cursors, step));
    for k := 0 to |cursors|
      invariant ApplyStep(path, cursors, step) == Join(Ok(next), ApplyStep(path, cursors[k..], step))
    {
      var cursor := cursors[k];
      assert cursors[k..][1..] == cursors[k + 1..];
      ghost var before := next;
      if step.Each? && cursor.node.At? && cursor.node.value.List? {
        var items := cursor.node.value.items;
        ghost var expanded := ItemCursors(cursor.field, items);
        for i := 0 to |items|
          invariant next == before + expanded[..i]
        {
          assert expanded[..i + 1] == expanded[..i] + [expanded[i]];
          next := next + [Cursor(AppendStep(cursor.field, Index(i)), At(items[i]))];
        }
        assert next == before + expanded;
      } else {
        var expanded := Expand(path, cursor, step);
        if expanded.Err? {
          return expanded;
        }
        next := next + expanded.value;
      }
      JoinOk(before, Expand(path, cursor, step), ApplyStep(path, cursors[k + 1..], step));
    }
    assert cursors[|cursors|..] == [] && next + [] == next;
    return Ok(next);
  }

  lemma JoinOk<T>(before: seq<T>, first: Result<seq<T>, Fault>, rest: Result<seq<T>, Fault>)
    ensures Join(Ok(before), Join(first, rest)) == if first.Err? then first else Join(Ok(before + first.value), rest)
  {
    if first.Ok? && rest.Ok? {
      assert before + (first.value + rest.value) == (before + first.value) + rest.value;
    }
  }

  method ResolveFieldValues(fields: map<string, Value>, path: string) returns (result: Result<seq<Resolved>, Fault>)
    ensures result == ResolveFields(fields, path)
  {
    var steps := ParseFieldPath(path);
    if steps.Err? {
      return Err(InvalidPath(path, steps.error));
    }
    var cursors := [RootCursor(fields)];
    assert steps.value[0..] == steps.value;
    for k := 0 to |steps.value|
      invariant ApplySteps(path, [RootCursor(fields)], steps.value) == ApplySteps(path, cursors, steps.value[k..])
    {
      assert steps.value[k..][1..] == steps.value[k + 1..];
      var next := ApplyFieldPathStep(path, cursors, steps.value[k]);
      if next.Err? {
        return Err(next.error);
      }
      cursors := next.value;
    }
    return Ok(FinishAll(path, cursors));
  }

  // ---------- Breadth first is depth first ----------

  ghost predicate SameOutcome<T>(a: Result<seq<T>, Fault>, b: Result<seq<T>, Fault>) {
    (a.Ok? <==> b.Ok?) && (a.Ok? ==> a.value == b.value)
  }

  // Each branch followed to its end before the next one is looked at.
  function Walk(path: string, cursor: Cursor, steps: seq<Step>): Result<seq<Cursor>, Fault>
    decreases |steps|, 0
  {
    if steps == [] then Ok([cursor])
    else
      var next := Expand(path, cursor, steps[0]);
      if next.Err? then next else WalkAll(path, next.value, steps[1..])
  }

  function WalkAll(path: string, cursors: seq<Cursor>, steps: seq<Step>): Result<seq<Cursor>, Fault>
    decreases |steps|, 1, |cursors|
  {
    if cursors == [] then Ok([])
    else Join(Walk(path, cursors[0], steps), WalkAll(path, cursors[1..], steps))
  }

  lemma JoinAssoc<T>(a: Result<seq<T>, Fault>, b: Result<seq<T>, Fault>, c: Result<seq<T>, Fault>)
    ensures Join(Join(a, b), c) == Join(a, Join(b, c))
  {
    if a.Ok? && b.Ok? && c.Ok? {
      assert (a.value + b.value) + c.value == a.value + (b.value + c.value);
    }
  }

  lemma JoinNothing<T>(a: Result<seq<T>, Fault>)
    ensures Join(a, Ok([])) == a && Join(Ok([]), a) == a
  {
    if a.Ok? {
      assert a.value + [] == a.value && [] + a.value == a.value;
    }
  }

  lemma {:induction false} ApplyStepAppend(path: string, a: seq<Cursor>, b: seq<Cursor>, step: Step)
    ensures ApplyStep(path, a + b, step) == Join(ApplyStep(path, a, step), ApplyStep(path, b, step))
  {
    if a == [] {
      assert a + b == b;
      JoinNothing(ApplyStep(path, b, step));
    } else {
      assert (a + b)[1..] == a[1..] + b;
      ApplyStepAppend(path, a[1..], b, step);
      JoinAssoc(Expand(path, a[0], step), ApplyStep(path, a[1..], step), ApplyStep(path, b, step));
    }
  }

  lemma {:induction false} ApplyStepsAppend(path: string, a: seq<Cursor>, b: seq<Cursor>, steps: seq<Step>)
    ensures SameOutcome(ApplySteps(path, a + b, steps), Join(ApplySteps(path, a, steps), ApplySteps(path, b, steps)))
    decreases |steps|
  {
    if steps != [] {
      ApplyStepAppend(path, a, b, steps[0]);
      var na, nb := ApplyStep(path, a, steps[0]), ApplyStep(path, b, steps[0]);
      if na.Ok? && nb.Ok? {
        ApplyStepsAppend(path, na.value, nb.value, steps[1..]);
      }
    }
  }

  // Stepping all cursors together gives, in the same order, what resolving branch by branch gives,
  // and fails exactly when some branch fails.
  lemma {:induction false} BreadthFirstIsDepthFirst(path: string, cursors: seq<Cursor>, steps: seq<Step>)
    ensures SameOutcome(ApplySteps(path, cursors, steps), WalkAll(path, cursors, steps))
    decreases |steps|, |cursors|
  {
    if cursors == [] {
      ApplyNothing(path, steps);
    } else {
      var first, rest := cursors[0], cursors[1..];
      assert cursors == [first] + rest;
      ApplyStepsAppend(path, [first], rest, steps);
      BreadthFirstIsDepthFirst(path, rest, steps);
      if steps != [] {
        ApplyStepOne(path, first, steps[0]);
        var next := Expand(path, first, steps[0]);
        if next.Ok? {
          BreadthFirstIsDepthFirst(path, next.value, steps[1..]);
        }
      }
    }
  }

  lemma ApplyStepOne(path: string, cursor: Cursor, step: Step)
    ensures ApplyStep(path, [cursor], step) == Expand(path, cursor, step)
  {
    assert [cursor][1..] == [];
    JoinNothing(Expand(path, cursor, step));
  }

  lemma {:induction false} ApplyNothing(path: string, steps: seq<Step>)
    ensures ApplySteps(path, [], steps) == Ok([])
    decreases |steps|
  {
    if steps != [] {
      ApplyNothing(path, steps[1..]);
    }
  }

  // ---------- Selectors never meet the root ----------

  ghost predicate NoRoots(cursors: seq<Cursor>) {
    forall k :: 0 <= k < |cursors| ==> !cursors[k].node.Root?
  }

  lemma {:induction false} StepKeepsOffRoot(path: string, cursors: seq<Cursor>, step: Step)
    requires NoRoots(cursors)
    ensures var next := ApplyStep(path, cursors, step);
            if next.Ok? then NoRoots(next.value) else !next.error.SelectorAtRoot?
  {
    if cursors != [] {
      StepKeepsOffRoot(path, cursors[1..], step);
    }
  }

  lemma {:induction false} StepsKeepOffRoot(path: string, cursors: seq<Cursor>, steps: seq<Step>)
    requires NoRoots(cursors)
    ensures var next := ApplySteps(path, cursors, steps);
            if next.Ok? then NoRoots(next.value) else !next.error.SelectorAtRoot?
    decreases |steps|
  {
    if steps != [] {
      StepKeepsOffRoot(path, cursors, steps[0]);
      var next := ApplyStep(path, cursors, steps[0]);
      if next.Ok? {
        StepsKeepOffRoot(path, next.value, steps[1..]);
      }
    }
  }

  // The two branches that report an array selector at the root cannot be taken.
  lemma SelectorAtRootIsUnreachable(fields: map<string, Value>, path: string)
    ensures var result := ResolveFields(fields, path); result.Err? ==> !result.error.SelectorAtRoot?
  {
    if path != "" && ParsePath(path).Ok? {
      AcceptedPathBeginsWithField(path);
      var steps := ParsePath(path).value;
      ApplyStepOne(path, RootCursor(fields), steps[0]);
      StepsKeepOffRoot(path, ApplyStep(path, [RootCursor(fields)], steps[0]).value, steps[1..]);
    }
  }

  // ---------- Labels ----------

  // Every list fits in memory, so its indices are machine words.
  ghost predicate Sized(value: Value) {
    match value
    case List(items) => |items| <= USIZE_MAX && forall i :: 0 <= i < |items| ==> Sized(items[i])
    case Object(fields) => forall name :: name in fields ==> Sized(fields[name])
    case _ => true
  }

  ghost predicate SizedFields(fields: map<string, Value>) {
    forall name :: name in fields ==> Sized(fields[name])
  }

  ghost predicate SizedNode(node: Node) {
    match node
    case Root(fields) => SizedFields(fields)
    case At(value) => Sized(value)
    case Missing => true
  }

  // One concrete step leads from a cursor to each cursor it expands to.
  lemma ExpandHasStep(path: string, other: string, cursor: Cursor, step: Step, k: nat) returns (concrete: Step)
    requires StepOk(step) && SizedNode(cursor.node)
    requires Expand(path, cursor, step).Ok? && k < |Expand(path, cursor, step).value|
    ensures StepOk(concrete) && (step.Field? ==> concrete == step)
    ensures var next := Expand(path, cursor, step).value[k];
            && Expand(other, cursor, concrete) == Ok([next])
            && next.field == AppendStep(cursor.field, concrete) && SizedNode(next.node)
  {
    concrete := if step.Each? && cursor.node.At? && cursor.node.value.List? then Index(k) else step;
    if cursor.node.At? {
      match cursor.node.value
      case List(items) => assert Sized(List(items));
      case Object(fields) => assert SizedFields(fields);
      case _ =>
    }
  }

  lemma {:induction false} StepOrigin(path: string, cursors: seq<Cursor>, step: Step, k: nat) returns (i: nat, j: nat)
    requires ApplyStep(path, cursors, step).Ok? && k < |ApplyStep(path, cursors, step).value|
    ensures i < |cursors|
    ensures Expand(path, cursors[i], step).Ok? && j < |Expand(path, cursors[i], step).value|
    ensures Expand(path, cursors[i], step).value[j] == ApplyStep(path, cursors, step).value[k]
    decreases |cursors|
  {
    var first := Expand(path, cursors[0], step).value;
    if k < |first| {
      i, j := 0, k;
    } else {
      i, j := StepOrigin(path, cursors[1..], step, k - |first|);
      i := i + 1;
    }
  }

  lemma {:induction false} TrailTo(path: string, other: string, cursors: seq<Cursor>, steps: seq<Step>, k: nat)
    returns (start: nat, trail: seq<Step>)
    requires StepsOk(steps) && forall c :: c in cursors ==> SizedNode(c.node)
    requires ApplySteps(path, cursors, steps).Ok? && k < |ApplySteps(path, cursors, steps).value|
    ensures start < |cursors| && StepsOk(trail) && |trail| == |steps|
    ensures steps != [] && steps[0].Field? ==> trail[0] == steps[0]
    ensures var reached := ApplySteps(path, cursors, steps).value[k];
            && ApplySteps(other, [cursors[start]], trail) == Ok([reached])
            && reached.field == AppendSteps(cursors[start].field, trail)
    decreases |steps|
  {
    if steps == [] {
      start, trail := k, [];
    } else {
      var step, next := steps[0], ApplyStep(path, cursors, steps[0]).value;
      forall c | c in next
        ensures SizedNode(c.node)
      {
        var n :| 0 <= n < |next| && next[n] == c;
        var i, j := StepOrigin(path, cursors, step, n);
        var _ := ExpandHasStep(path, other, cursors[i], step, j);
      }
      var n, rest := TrailTo(path, other, next, steps[1..], k);
      var i, j := StepOrigin(path, cursors, step, n);
      var concrete := ExpandHasStep(path, other, cursors[i], step, j);
      start, trail := i, [concrete] + rest;
      assert trail[1..] == rest;
      ApplyStepOne(other, cursors[i], concrete);
    }
  }

  // The label of a result resolves, from the same root, to exactly that result.
  lemma LabelsResolveToThemselves(fields: map<string, Value>, path: string, k: nat)
    requires SizedFields(fields)
    requires ResolveFields(fields, path).Ok? && k < |ResolveFields(fields, path).value|
    ensures var result := ResolveFields(fields, path).value[k];
            ResolveFields(fields, result.field) == Ok([result])
  {
    var result := ResolveFields(fields, path).value[k];
    var root := RootCursor(fields);
    if path == "" {
      assert FinishAll("", [root]) == [Finish("", root)] == [result];
    } else {
      AcceptedPathBeginsWithField(path);
      ParseThenPrint(path);
      var steps := ParsePath(path).value;
      var reached := ApplySteps(path, [root], steps).value[k];
      var _, anyTrail := TrailTo(path, path, [root], steps, k);
      RenderNonEmpty(anyTrail);
      assert result == Finish(path, reached) && result.field == reached.field;
      var start, trail := TrailTo(path, result.field, [root], steps, k);
      PrintThenParse(trail);
      assert ParsePath(result.field) == Ok(trail);
      assert FinishAll(result.field, [reached]) == [result];
    }
  }

  lemma RenderNonEmpty(steps: seq<Step>)
    requires WellFormed(steps) && steps != []
    ensures Render(steps) != ""
  {
    AppendStepsIsPieces(steps[0].name, steps[1..]);
  }

  // ---------- Composition ----------

  // Successful resolution does not depend on the path quoted in error messages.
  lemma {:induction false} StepIgnoresQuotedPath(path: string, other: string, cursors: seq<Cursor>, step: Step)
    ensures SameOutcome(ApplyStep(path, cursors, step), ApplyStep(other, cursors, step))
  {
    if cursors != [] {
      StepIgnoresQuotedPath(path, other, cursors[1..], step);
    }
  }

  lemma {:induction false} StepsIgnoreQuotedPath(path: string, other: string, cursors: seq<Cursor>, steps: seq<Step>)
    ensures SameOutcome(ApplySteps(path, cursors, steps), ApplySteps(other, cursors, steps))
    decreases |steps|
  {
    if steps != [] {
      StepIgnoresQuotedPath(path, other, cursors, steps[0]);
      var next := ApplyStep(path, cursors, steps[0]);
      if next.Ok? {
        StepsIgnoreQuotedPath(path, other, next.value, steps[1..]);
      }
    }
  }

  lemma {:induction false} StepsInTwoRuns(path: string, cursors: seq<Cursor>, a: seq<Step>, b: seq<Step>)
    ensures var mid := ApplySteps(path, cursors, a);
            ApplySteps(path, cursors, a + b) == if mid.Err? then mid else ApplySteps(path, mid.value, b)
    decreases |a|
  {
    if a == [] {
      assert a + b == b;
    } else {
      assert (a + b)[1..] == a[1..] + b;
      var next := ApplyStep(path, cursors, a[0]);
      if next.Ok? {
        StepsInTwoRuns(path, next.value, a[1..], b);
      }
    }
  }

  function Under(parent: string, cursor: Cursor): Cursor {
    Cursor(parent + "." + cursor.field, cursor.node)
  }

  function AllUnder(parent: string, cursors: seq<Cursor>): seq<Cursor> {
    seq(|cursors|, k requires 0 <= k < |cursors| => Under(parent, cursors[k]))
  }

  function ResultUnder(parent: string, result: Result<seq<Cursor>, Fault>): Result<seq<Cursor>, Fault> {
    if result.Err? then result else Ok(AllUnder(parent, result.value))
  }

  ghost predicate Labelled(cursors: seq<Cursor>) {
    forall k :: 0 <= k < |cursors| ==> cursors[k].field != "" && !cursors[k].node.Root?
  }

  lemma AppendUnder(parent: string, field: string, step: Step)
    requires field != ""
    ensures AppendStep(parent + "." + field, step) == parent + "." + AppendStep(field, step)
    ensures AppendStep(field, step) != ""
  {
    AppendIsPiece(field, step);
    AppendIsPiece(parent + "." + field, step);
    Associate(parent + ".", field, Piece(step, 0));
  }

  lemma ExpandUnder(path: string, parent: string, cursor: Cursor, step: Step)
    requires cursor.field != "" && !cursor.node.Root?
    ensures SameOutcome(Expand(path, Under(parent, cursor), step), ResultUnder(parent, Expand(path, cursor, step)))
    ensures Expand(path, cursor, step).Ok? ==> Labelled(Expand(path, cursor, step).value)
  {
    AppendUnder(parent, cursor.field, step);
    if step.Each? && cursor.node.At? && cursor.node.value.List? {
      var items := cursor.node.value.items;
      forall i | 0 <= i < |items|
        ensures ItemCursors(Under(parent, cursor).field, items)[i] == Under(parent, ItemCursors(cursor.field, items)[i])
        ensures ItemCursors(cursor.field, items)[i].field != ""
      {
        AppendUnder(parent, cursor.field, Index(i));
      }
      assert ItemCursors(Under(parent, cursor).field, items) == AllUnder(parent, ItemCursors(cursor.field, items));
    }
  }

  lemma {:induction false} StepUnder(path: string, parent: string, cursors: seq<Cursor>, step: Step)
    requires Labelled(cursors)
    ensures SameOutcome(ApplyStep(path, AllUnder(parent, cursors), step),
            ResultUnder(parent, ApplyStep(path, cursors, step)))
    ensures ApplyStep(path, cursors, step).Ok? ==> Labelled(ApplyStep(path, cursors, step).value)
  {
    if cursors != [] {
      assert AllUnder(parent, cursors)[1..] == AllUnder(parent, cursors[1..]);
      ExpandUnder(path, parent, cursors[0], step);
      StepUnder(path, parent, cursors[1..], step);
      var first, rest := Expand(path, cursors[0], step), ApplyStep(path, cursors[1..], step);
      if first.Ok? && rest.Ok? {
        assert AllUnder(parent, first.value + rest.value)
            == AllUnder(parent, first.value) + AllUnder(parent, rest.value);
      }
    }
  }

  lemma {:induction false} StepsUnder(path: string, parent: string, cursors: seq<Cursor>, steps: seq<Step>)
    requires Labelled(cursors)
    ensures SameOutcome(ApplySteps(path, AllUnder(parent, cursors), steps),
            ResultUnder(parent, ApplySteps(path, cursors, steps)))
    ensures ApplySteps(path, cursors, steps).Ok? ==> Labelled(ApplySteps(path, cursors, steps).value)
    decreases |steps|
  {
    if steps != [] {
      StepUnder(path, parent, cursors, steps[0]);
      var next := ApplyStep(path, cursors, steps[0]);
      if next.Ok? {
        StepsUnder(path, parent, next.value, steps[1..]);
      }
    }
  }

  // Resolving below an object, seen from the object's own root.
  lemma BelowObject(path: string, field: string, fields: map<string, Value>, q: string)
    requires field != "" && q != "" && ParsePath(q).Ok?
    ensures SameOutcome(Finished(path, ApplySteps(path, [Cursor(field, At(Object(fields)))], ParsePath(q).value)),
                        ResolveNested(field, Object(fields), q))
  {
    AcceptedPathBeginsWithField(q);
    ParseThenPrint(q);
    var steps := ParsePath(q).value;
    var name := steps[0].name;
    var here, root := Cursor(field, At(Object(fields))), RootCursor(fields);
    var first := Cursor(name, Lookup(fields, name));
    ApplyStepOne(path, here, steps[0]);
    ApplyStepOne(q, root, steps[0]);
    assert AllUnder(field, [first]) == [Under(field, first)];
    StepsUnder(path, field, [first], steps[1..]);
    StepsIgnoreQuotedPath(path, q, [first], steps[1..]);
    StepsUnder(q, field, [first], steps[1..]);
    var inner := ApplySteps(q, [first], steps[1..]);
    if inner.Ok? {
      assert FinishAll(path, AllUnder(field, inner.value)) == PrefixAll(field, FinishAll(q, inner.value));
    }
  }

  function NestedAll(results: seq<Resolved>, q: string): Result<seq<Resolved>, Fault>
    requires forall k :: 0 <= k < |results| ==> results[k].value.Some?
  {
    if results == [] then Ok([])
    else Join(ResolveNested(results[0].field, results[0].value.value, q), NestedAll(results[1..], q))
  }

  ghost predicate AllObjects(results: seq<Resolved>) {
    forall k :: 0 <= k < |results| ==> results[k].value.Some? && results[k].value.value.Object?
  }

  predicate IsAbsent(result: Resolved) {
    result.value.None? || result.value.value.Null?
  }

  // What a further path finds behind one result: the label of a missing value behind a null or a missing
  // value, and a fault behind anything else that is no object.
  function Behind(result: Resolved, q: string): Result<seq<Resolved>, Fault>
    requires ParsePath(q).Ok?
  {
    if IsAbsent(result) then Ok([Resolved(AppendSteps(result.field, ParsePath(q).value), None)])
    else ResolveNested(result.field, result.value.value, q)
  }

  function BehindAll(results: seq<Resolved>, q: string): Result<seq<Resolved>, Fault>
    requires ParsePath(q).Ok?
  {
    if results == [] then Ok([]) else Join(Behind(results[0], q), BehindAll(results[1..], q))
  }

  lemma {:induction false} MissingStaysMissing(path: string, field: string, steps: seq<Step>)
    ensures ApplySteps(path, [Cursor(field, Missing)], steps) == Ok([Cursor(AppendSteps(field, steps), Missing)])
    decreases |steps|
  {
    if steps != [] {
      ApplyStepOne(path, Cursor(field, Missing), steps[0]);
      MissingStaysMissing(path, AppendStep(field, steps[0]), steps[1..]);
    }
  }

  lemma NullBecomesMissing(path: string, field: string, steps: seq<Step>)
    requires steps != []
    ensures ApplySteps(path, [Cursor(field, At(Null))], steps) == Ok([Cursor(AppendSteps(field, steps), Missing)])
  {
    ApplyStepOne(path, Cursor(field, At(Null)), steps[0]);
    MissingStaysMissing(path, AppendStep(field, steps[0]), steps[1..]);
  }

  // Resolving behind one cursor is resolving behind the result it stands for.
  lemma BehindCursor(path: string, p: string, cursor: Cursor, q: string)
    requires q != "" && ParsePath(q).Ok? && cursor.field != "" && !cursor.node.Root?
    ensures SameOutcome(Finished(path, ApplySteps(path, [cursor], ParsePath(q).value)), Behind(Finish(p, cursor), q))
  {
    var steps := ParsePath(q).value;
    AcceptedPathBeginsWithField(q);
    if IsAbsent(Finish(p, cursor)) {
      if cursor.node.Missing? {
        MissingStaysMissing(path, cursor.field, steps);
      } else {
        NullBecomesMissing(path, cursor.field, steps);
      }
      AppendStepsIsPieces(cursor.field, steps);
      var missing := Cursor(AppendSteps(cursor.field, steps), Missing);
      assert FinishAll(path, [missing]) == [Finish(path, missing)];
    } else if cursor.node.value.Object? {
      BelowObject(path, cursor.field, cursor.node.value.fields, q);
    } else {
      ApplyStepOne(path, cursor, steps[0]);
    }
  }

  lemma FinishCons(p: string, first: Cursor, rest: seq<Cursor>)
    ensures FinishAll(p, [first] + rest) == [Finish(p, first)] + FinishAll(p, rest)
  {
    assert ([first] + rest)[1..] == rest;
  }

  lemma {:induction false} BehindCursors(path: string, p: string, cursors: seq<Cursor>, q: string)
    requires q != "" && ParsePath(q).Ok? && Labelled(cursors)
    ensures SameOutcome(Finished(path, ApplySteps(path, cursors, ParsePath(q).value)),
            BehindAll(FinishAll(p, cursors), q))
    decreases |cursors|
  {
    var steps := ParsePath(q).value;
    if cursors == [] {
      ApplyNothing(path, steps);
    } else {
      var first, rest := cursors[0], cursors[1..];
      assert cursors == [first] + rest;
      FinishCons(p, first, rest);
      ApplyStepsAppend(path, [first], rest, steps);
      BehindCursor(path, p, first, q);
      BehindCursors(path, p, rest, q);
      FinishedJoin(path, ApplySteps(path, [first], steps), ApplySteps(path, rest, steps));
    }
  }

  lemma {:induction false} BehindObjects(results: seq<Resolved>, q: string)
    requires ParsePath(q).Ok? && AllObjects(results)
    ensures BehindAll(results, q) == NestedAll(results, q)
  {
    if results != [] {
      assert forall k :: 0 <= k < |results[1..]| ==> results[1..][k] == results[k + 1];
      BehindObjects(results[1..], q);
    }
  }

  lemma FinishedJoin(path: string, a: Result<seq<Cursor>, Fault>, b: Result<seq<Cursor>, Fault>)
    ensures SameOutcome(Finished(path, Join(a, b)), Join(Finished(path, a), Finished(path, b)))
  {
    if a.Ok? && b.Ok? {
      assert FinishAll(path, a.value + b.value) == FinishAll(path, a.value) + FinishAll(path, b.value);
    }
  }

  // The cursors an accepted non-empty path leads to carry labels.
  lemma ReachedAreLabelled(fields: map<string, Value>, path: string)
    requires path != "" && ParsePath(path).Ok?
    requires ApplySteps(path, [RootCursor(fields)], ParsePath(path).value).Ok?
    ensures Labelled(ApplySteps(path, [RootCursor(fields)], ParsePath(path).value).value)
  {
    AcceptedPathBeginsWithField(path);
    ParseThenPrint(path);
    var steps := ParsePath(path).value;
    ApplyStepOne(path, RootCursor(fields), steps[0]);
    StepsUnder(path, "", ApplyStep(path, [RootCursor(fields)], steps[0]).value, steps[1..]);
  }

  lemma JoinWithNothing(sp: seq<Step>, sq: seq<Step>, p: string, q: string)
    ensures sp + [] + sq == sp + sq && p + Pieces([], NoZeros(0)) + "." + q == p + "." + q
  {
    assert p + "" == p;
  }

  // Resolving `p.q` is resolving `q` behind each result of `p`, labels included, whatever `p` yields.
  lemma ResolutionComposes(fields: map<string, Value>, p: string, q: string)
    requires p != "" && q != "" && ParsePath(p).Ok? && ParsePath(q).Ok?
    ensures SameOutcome(ResolveFields(fields, p + "." + q),
                        if ResolveFields(fields, p).Ok? then BehindAll(ResolveFields(fields, p).value, q)
                        else ResolveFields(fields, p))
  {
    var path := p + "." + q;
    var sp, sq, root := ParsePath(p).value, ParsePath(q).value, [RootCursor(fields)];
    JoinedPathParses(p, sp, [], q, sq);
    JoinWithNothing(sp, sq, p, q);
    StepsInTwoRuns(path, root, sp, sq);
    StepsIgnoreQuotedPath(path, p, root, sp);
    var reached := ApplySteps(p, root, sp);
    if reached.Ok? {
      ReachedAreLabelled(fields, p);
      BehindCursors(path, p, reached.value, q);
    }
  }

  // When `p` yields objects, `p.q` is `q` resolved under each of them.
  lemma ObjectResolutionComposes(fields: map<string, Value>, p: string, q: string)
    requires p != "" && q != "" && ParsePath(p).Ok? && ParsePath(q).Ok?
    requires ResolveFields(fields, p).Ok? ==> AllObjects(ResolveFields(fields, p).value)
    ensures SameOutcome(ResolveFields(fields, p + "." + q),
                        if ResolveFields(fields, p).Ok? then NestedAll(ResolveFields(fields, p).value, q)
                        else ResolveFields(fields, p))
  {
    ResolutionComposes(fields, p, q);
    if ResolveFields(fields, p).Ok? {
      BehindObjects(ResolveFields(fields, p).value, q);
    }
  }
}
