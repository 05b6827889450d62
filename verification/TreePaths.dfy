/**
 What a field path means, read off the tree of values alone, and that the resolver of src/validator.rs finds
 exactly that: no cursor and no step of the resolver occurs in the definitions.
 */
module TreePaths {
  import opened Prelude
  import opened FieldPath
  import opened Resolve

  // ---------- Places in a tree ----------

  // What stands one member or one item below a value.
  function Below(here: Option<Value>, step: Step): Option<Value> {
    match step
    case Field(name) =>
      if here.Some? && here.value.Object? && name in here.value.fields then Some(here.value.fields[name]) else None
    case Index(index) =>
      if here.Some? && here.value.List? && index < |here.value.items| then Some(here.value.items[index]) else None
    case Each => None
  }

  function ValueAt(tree: Option<Value>, trail: seq<Step>): Option<Value>
    decreases |trail|
  {
    if trail == [] then tree else ValueAt(Below(tree, trail[0]), trail[1..])
  }

  // On a list `[]` stands for any of its items; every other step stands for itself.
  predicate Instance(here: Option<Value>, step: Step, concrete: Step) {
    if step.Each? && here.Some? && here.value.List?
    then concrete.Index? && concrete.index < |here.value.items|
    else concrete == step
  }

  // One way to follow the steps.
  predicate Trail(tree: Option<Value>, steps: seq<Step>, trail: seq<Step>)
    decreases |steps|
  {
    if steps == [] then trail == []
    else trail != [] && Instance(tree, steps[0], trail[0]) && Trail(Below(tree, trail[0]), steps[1..], trail[1..])
  }

  // Fields are found in objects and selectors apply to lists; nothing is below a null or a missing value, but
  // looking there is no fault.
  predicate Blocks(here: Option<Value>, step: Step) {
    here.Some? && !here.value.Null? && if step.Field? then !here.value.Object? else !here.value.List?
  }

  // Some way to follow the steps meets a value that blocks the next one.
  ghost predicate Obstructed(tree: Option<Value>, steps: seq<Step>)
    decreases |steps|
  {
    steps != [] &&
    (Blocks(tree, steps[0])
     || exists c :: Instance(tree, steps[0], c) && Obstructed(Below(tree, c), steps[1..]))
  }

  // The first difference is a smaller index.
  ghost predicate Earlier(a: seq<Step>, b: seq<Step>) {
    exists n :: 0 <= n < |a| && n < |b| && EarlierAt(a, b, n)
  }

  predicate EarlierAt(a: seq<Step>, b: seq<Step>, n: nat)
    requires n < |a| && n < |b|
  {
    a[..n] == b[..n] && a[n].Index? && b[n].Index? && a[n].index < b[n].index
  }

  // ---------- All trails, in order ----------

  function Instances(here: Option<Value>, step: Step): seq<Step> {
    if step.Each? && here.Some? && here.value.List?
    then seq(|here.value.items|, i requires i >= 0 => Index(i))
    else [step]
  }

  function Behind(first: Step, trails: seq<seq<Step>>): seq<seq<Step>> {
    seq(|trails|, k requires 0 <= k < |trails| => [first] + trails[k])
  }

  function Trails(tree: Option<Value>, steps: seq<Step>): seq<seq<Step>>
    decreases |steps|, 0
  {
    if steps == [] then [[]] else TrailsBehind(tree, Instances(tree, steps[0]), steps[1..])
  }

  function TrailsBehind(tree: Option<Value>, firsts: seq<Step>, rest: seq<Step>): seq<seq<Step>>
    decreases |rest|, 1, |firsts|
  {
    if firsts == [] then []
    else Behind(firsts[0], Trails(Below(tree, firsts[0]), rest)) + TrailsBehind(tree, firsts[1..], rest)
  }

  lemma InstancesAre(here: Option<Value>, step: Step)
    ensures forall c :: c in Instances(here, step) <==> Instance(here, step, c)
  {
    if step.Each? && here.Some? && here.value.List? {
      forall c | Instance(here, step, c)
        ensures c in Instances(here, step)
      {
        assert Instances(here, step)[c.index] == c;
      }
    }
  }

  lemma BehindHas(first: Step, trails: seq<seq<Step>>, trail: seq<Step>)
    ensures trail in Behind(first, trails) <==> trail != [] && trail[0] == first && trail[1..] in trails
  {
    if trail != [] && trail[0] == first && trail[1..] in trails {
      var k :| 0 <= k < |trails| && trails[k] == trail[1..];
      assert Behind(first, trails)[k] == trail;
    }
  }

  lemma {:induction false} TrailsBehindHas(tree: Option<Value>, firsts: seq<Step>, rest: seq<Step>, trail: seq<Step>)
    ensures trail in TrailsBehind(tree, firsts, rest)
       <==> trail != [] && trail[0] in firsts && trail[1..] in Trails(Below(tree, trail[0]), rest)
    decreases |firsts|
  {
    if firsts != [] {
      BehindHas(firsts[0], Trails(Below(tree, firsts[0]), rest), trail);
      TrailsBehindHas(tree, firsts[1..], rest, trail);
    }
  }

  lemma {:induction false} TrailsAre(tree: Option<Value>, steps: seq<Step>, trail: seq<Step>)
    ensures trail in Trails(tree, steps) <==> Trail(tree, steps, trail)
    decreases |steps|
  {
    if steps != [] {
      TrailsBehindHas(tree, Instances(tree, steps[0]), steps[1..], trail);
      InstancesAre(tree, steps[0]);
      if trail != [] {
        TrailsAre(Below(tree, trail[0]), steps[1..], trail[1..]);
      }
    }
  }

  // ---------- Their order ----------

  ghost predicate InOrder(trails: seq<seq<Step>>) {
    forall i, j :: 0 <= i < j < |trails| ==> Earlier(trails[i], trails[j])
  }

  lemma EarlierBehind(first: Step, a: seq<Step>, b: seq<Step>)
    requires Earlier(a, b)
    ensures Earlier([first] + a, [first] + b)
  {
    var n :| 0 <= n < |a| && n < |b| && EarlierAt(a, b, n);
    assert ([first] + a)[..n + 1] == [first] + a[..n] && ([first] + b)[..n + 1] == [first] + b[..n];
    assert EarlierAt([first] + a, [first] + b, n + 1);
  }

  lemma BehindInOrder(first: Step, trails: seq<seq<Step>>)
    requires InOrder(trails)
    ensures InOrder(Behind(first, trails))
  {
    forall i, j | 0 <= i < j < |trails|
      ensures Earlier(Behind(first, trails)[i], Behind(first, trails)[j])
    {
      EarlierBehind(first, trails[i], trails[j]);
    }
  }

  lemma InOrderAppend(a: seq<seq<Step>>, b: seq<seq<Step>>)
    requires InOrder(a) && InOrder(b) && forall s, t :: s in a && t in b ==> Earlier(s, t)
    ensures InOrder(a + b)
  {
    forall i, j | 0 <= i < j < |a + b|
      ensures Earlier((a + b)[i], (a + b)[j])
    {
      if i < |a| <= j {
        assert a[i] in a && b[j - |a|] in b;
      }
    }
  }

  ghost predicate Rising(firsts: seq<Step>) {
    |firsts| > 1 ==> forall i, j :: 0 <= i < j < |firsts| ==>
      firsts[i].Index? && firsts[j].Index? && firsts[i].index < firsts[j].index
  }

  lemma {:induction false} TrailsBehindInOrder(tree: Option<Value>, firsts: seq<Step>, rest: seq<Step>)
    requires Rising(firsts)
    ensures InOrder(TrailsBehind(tree, firsts, rest))
    decreases |rest|, 1, |firsts|
  {
    if firsts != [] {
      var first, more := firsts[0], firsts[1..];
      var here, behind := Behind(first, Trails(Below(tree, first), rest)), TrailsBehind(tree, more, rest);
      TrailsInOrder(Below(tree, first), rest);
      BehindInOrder(first, Trails(Below(tree, first), rest));
      TrailsBehindInOrder(tree, more, rest);
      forall s, t | s in here && t in behind
        ensures Earlier(s, t)
      {
        TrailsBehindHas(tree, more, rest, t);
        var j :| 0 <= j < |more| && more[j] == t[0];
        assert firsts[0].index < firsts[j + 1].index;
        assert EarlierAt(s, t, 0);
      }
      InOrderAppend(here, behind);
    }
  }

  lemma {:induction false} TrailsInOrder(tree: Option<Value>, steps: seq<Step>)
    ensures InOrder(Trails(tree, steps))
    decreases |steps|, 0
  {
    if steps != [] {
      TrailsBehindInOrder(tree, Instances(tree, steps[0]), steps[1..]);
    }
  }

  // ---------- The resolver against the tree ----------

  function TreeOf(node: Node): Option<Value> {
    match node
    case Root(members) => Some(Object(members))
    case At(value) => Some(value)
    case Missing => None
  }

  // The cursors stand one step below a value, each labelled by its step.
  ghost predicate OneBelow(field: string, here: Option<Value>, cursors: seq<Cursor>, firsts: seq<Step>) {
    && |cursors| == |firsts|
    && forall k :: 0 <= k < |cursors| ==>
         cursors[k].field == AppendStep(field, firsts[k]) && TreeOf(cursors[k].node) == Below(here, firsts[k])
  }

  lemma ExpandIs(path: string, cursor: Cursor, step: Step)
    ensures Expand(path, cursor, step).Err? <==> Blocks(TreeOf(cursor.node), step)
    ensures Expand(path, cursor, step).Ok? ==>
              OneBelow(cursor.field, TreeOf(cursor.node), Expand(path, cursor, step).value,
                       Instances(TreeOf(cursor.node), step))
  {
  }

  // Each cursor stands at the end of its trail and is labelled by it.
  ghost predicate StandAt(field: string, tree: Option<Value>, cursors: seq<Cursor>, trails: seq<seq<Step>>) {
    && |cursors| == |trails|
    && forall k :: 0 <= k < |cursors| ==>
         cursors[k].field == AppendSteps(field, trails[k]) && TreeOf(cursors[k].node) == ValueAt(tree, trails[k])
  }

  lemma {:induction false} WalkReadsTheTree(path: string, cursor: Cursor, steps: seq<Step>)
    ensures Walk(path, cursor, steps).Err? <==> Obstructed(TreeOf(cursor.node), steps)
    ensures Walk(path, cursor, steps).Ok? ==>
              StandAt(cursor.field, TreeOf(cursor.node), Walk(path, cursor, steps).value,
                      Trails(TreeOf(cursor.node), steps))
    decreases |steps|, 0
  {
    var tree := TreeOf(cursor.node);
    if steps != [] {
      ExpandIs(path, cursor, steps[0]);
      InstancesAre(tree, steps[0]);
      var next, firsts := Expand(path, cursor, steps[0]), Instances(tree, steps[0]);
      if next.Ok? {
        WalkAllReadsTheTree(path, cursor.field, tree, next.value, firsts, steps[1..]);
      }
    }
  }

  lemma {:induction false} WalkAllReadsTheTree(path: string, field: string, tree: Option<Value>, cursors: seq<Cursor>,
      firsts: seq<Step>, rest: seq<Step>)
    requires OneBelow(field, tree, cursors, firsts)
    ensures WalkAll(path, cursors, rest).Err? <==> exists c :: c in firsts && Obstructed(Below(tree, c), rest)
    ensures WalkAll(path, cursors, rest).Ok? ==>
              StandAt(field, tree, WalkAll(path, cursors, rest).value, TrailsBehind(tree, firsts, rest))
    decreases |rest|, 1, |cursors|
  {
    if cursors != [] {
      var first, more := firsts[0], firsts[1..];
      WalkReadsTheTree(path, cursors[0], rest);
      WalkAllReadsTheTree(path, field, tree, cursors[1..], more, rest);
      assert forall c :: c in firsts <==> c == first || c in more;
      var here, behind := Walk(path, cursors[0], rest), WalkAll(path, cursors[1..], rest);
      if here.Ok? && behind.Ok? {
        var trails := Behind(first, Trails(Below(tree, first), rest));
        StandBehind(field, tree, first, here.value, Trails(Below(tree, first), rest));
        StandTogether(field, tree, here.value, trails, behind.value, TrailsBehind(tree, more, rest));
      }
    }
  }

  lemma StandTogether(field: string, tree: Option<Value>, a: seq<Cursor>, s: seq<seq<Step>>, b: seq<Cursor>,
      t: seq<seq<Step>>)
    requires StandAt(field, tree, a, s) && StandAt(field, tree, b, t)
    ensures StandAt(field, tree, a + b, s + t)
  {
  }

  lemma StandBehind(field: string, tree: Option<Value>, first: Step, cursors: seq<Cursor>, trails: seq<seq<Step>>)
    requires StandAt(AppendStep(field, first), Below(tree, first), cursors, trails)
    ensures StandAt(field, tree, cursors, Behind(first, trails))
  {
    forall k | 0 <= k < |trails|
      ensures AppendSteps(field, [first] + trails[k]) == AppendSteps(AppendStep(field, first), trails[k])
      ensures ValueAt(tree, [first] + trails[k]) == ValueAt(Below(tree, first), trails[k])
    {
      assert ([first] + trails[k])[1..] == trails[k];
    }
  }

  // ---------- What resolution finds ----------

  ghost predicate LeadsTo(fields: map<string, Value>, path: string, trail: seq<Step>, result: Resolved) {
    && ParsePath(path).Ok? && Trail(Some(Object(fields)), ParsePath(path).value, trail)
    && result == Resolved(Render(trail), ValueAt(Some(Object(fields)), trail))
  }

  // The results are what stands at the ends of the trails, each labelled by its trail: one result for every trail,
  // in the order of the items.
  lemma ResultsAreTheTrails(fields: map<string, Value>, path: string) returns (trails: seq<seq<Step>>)
    requires path != "" && ResolveFields(fields, path).Ok?
    ensures var results := ResolveFields(fields, path).value;
            && |trails| == |results| && InOrder(trails)
            && (forall k :: 0 <= k < |trails| ==> LeadsTo(fields, path, trails[k], results[k]))
            && (forall t :: Trail(Some(Object(fields)), ParsePath(path).value, t) ==> t in trails)
  {
    var root, tree, steps := RootCursor(fields), Some(Object(fields)), ParsePath(path).value;
    trails := Trails(tree, steps);
    RootWalk(fields, path);
    WalkReadsTheTree(path, root, steps);
    ReachedAreLabelled(fields, path);
    TrailsInOrder(tree, steps);
    forall t
      ensures t in trails <==> Trail(tree, steps, t)
    {
      TrailsAre(tree, steps, t);
    }
    var results := ResolveFields(fields, path).value;
    forall k | 0 <= k < |trails|
      ensures LeadsTo(fields, path, trails[k], results[k])
    {
      assert trails[k] in trails;
      assert results[k] == Finish(path, ApplySteps(path, [root], steps).value[k]);
    }
  }

  lemma RootWalk(fields: map<string, Value>, path: string)
    requires ParsePath(path).Ok?
    ensures var root, steps := RootCursor(fields), ParsePath(path).value;
            SameOutcome(ApplySteps(path, [root], steps), Walk(path, root, steps))
  {
    var root, steps := RootCursor(fields), ParsePath(path).value;
    BreadthFirstIsDepthFirst(path, [root], steps);
    assert WalkAll(path, [root][1..], steps) == Ok([]);
    JoinNothing(Walk(path, root, steps));
  }

  // A pair of label and value is a result if and only if some way to follow the path is spelled by the label and
  // leads to the value, or to nothing.
  lemma ResultsAreWhatTheTreeHolds(fields: map<string, Value>, path: string, result: Resolved)
    requires path != "" && ResolveFields(fields, path).Ok?
    ensures result in ResolveFields(fields, path).value <==> exists trail :: LeadsTo(fields, path, trail, result)
  {
    var trails := ResultsAreTheTrails(fields, path);
    var results := ResolveFields(fields, path).value;
    if result in results {
      var k :| 0 <= k < |results| && results[k] == result;
      assert LeadsTo(fields, path, trails[k], result);
    }
    if trail :| LeadsTo(fields, path, trail, result) {
      var k :| 0 <= k < |trails| && trails[k] == trail;
      assert LeadsTo(fields, path, trails[k], results[k]);
      assert results[k] == result;
    }
  }

  // Resolution fails if and only if the path does not parse or some way to follow it meets a value that blocks it.
  lemma ResolutionFailsExactlyWhen(fields: map<string, Value>, path: string)
    ensures ResolveFields(fields, path).Err?
       <==> ParsePath(path).Err? || Obstructed(Some(Object(fields)), ParsePath(path).value)
    ensures path == "" ==> ResolveFields(fields, path) == Ok([Resolved("", None)])
  {
    if ParsePath(path).Ok? {
      RootWalk(fields, path);
      WalkReadsTheTree(path, RootCursor(fields), ParsePath(path).value);
    }
    if path == "" {
      assert FinishAll("", [RootCursor(fields)]) == [Finish("", RootCursor(fields))];
    }
  }

  // ---------- What a fault names ----------

  // The fault of a path blocked behind a trail: it names the place, the step that could not be taken there and the
  // kind of value that stands there.
  predicate NamesBlock(tree: Option<Value>, path: string, trail: seq<Step>, step: Step, fault: Fault) {
    && Blocks(ValueAt(tree, trail), step)
    && fault == CannotNavigate(path, Render(trail), StepText(step), KindName(ValueAt(tree, trail).value))
  }

  ghost predicate NamesSomeBlock(tree: Option<Value>, path: string, steps: seq<Step>, fault: Fault) {
    exists k, trail ::
      0 <= k < |steps| && Trail(tree, steps[..k], trail) && NamesBlock(tree, path, trail, steps[k], fault)
  }

  predicate Stands(tree: Option<Value>, steps: seq<Step>, cursor: Cursor, trail: seq<Step>) {
    Trail(tree, steps, trail) && cursor.field == Render(trail) && TreeOf(cursor.node) == ValueAt(tree, trail)
  }

  ghost predicate AllStand(tree: Option<Value>, steps: seq<Step>, cursors: seq<Cursor>) {
    forall c :: c in cursors ==> exists trail :: Stands(tree, steps, c, trail)
  }

  lemma {:induction false} OneStepFurther(tree: Option<Value>, steps: seq<Step>, trail: seq<Step>, base: string,
      step: Step, concrete: Step)
    requires Trail(tree, steps, trail) && Instance(ValueAt(tree, trail), step, concrete)
    ensures Trail(tree, steps + [step], trail + [concrete])
    ensures ValueAt(tree, trail + [concrete]) == Below(ValueAt(tree, trail), concrete)
    ensures AppendSteps(base, trail + [concrete]) == AppendStep(AppendSteps(base, trail), concrete)
    decreases |steps|
  {
    if steps == [] {
      assert trail + [concrete] == [concrete] && steps + [step] == [step];
      assert [concrete][1..] == [] && [step][1..] == [];
    } else {
      assert (steps + [step])[1..] == steps[1..] + [step] && (trail + [concrete])[1..] == trail[1..] + [concrete];
      OneStepFurther(Below(tree, trail[0]), steps[1..], trail[1..], AppendStep(base, trail[0]), step, concrete);
    }
  }

  lemma {:induction false} StepFault(path: string, cursors: seq<Cursor>, step: Step) returns (i: nat)
    requires ApplyStep(path, cursors, step).Err?
    ensures i < |cursors| && Expand(path, cursors[i], step) == Err(ApplyStep(path, cursors, step).error)
    decreases |cursors|
  {
    if Expand(path, cursors[0], step).Err? {
      i := 0;
    } else {
      i := StepFault(path, cursors[1..], step);
      i := i + 1;
    }
  }

  lemma NextStand(path: string, tree: Option<Value>, steps: seq<Step>, cursors: seq<Cursor>, step: Step)
    requires AllStand(tree, steps, cursors) && ApplyStep(path, cursors, step).Ok?
    ensures AllStand(tree, steps + [step], ApplyStep(path, cursors, step).value)
  {
    var next := ApplyStep(path, cursors, step).value;
    forall c | c in next
      ensures exists trail :: Stands(tree, steps + [step], c, trail)
    {
      var n :| 0 <= n < |next| && next[n] == c;
      var i, j := StepOrigin(path, cursors, step, n);
      assert cursors[i] in cursors;
      var trail :| Stands(tree, steps, cursors[i], trail);
      var here := TreeOf(cursors[i].node);
      ExpandIs(path, cursors[i], step);
      InstancesAre(here, step);
      var concrete := Instances(here, step)[j];
      assert concrete in Instances(here, step);
      OneStepFurther(tree, steps, trail, "", step, concrete);
      assert Stands(tree, steps + [step], c, trail + [concrete]);
    }
  }

  lemma {:induction false} FaultBehind(path: string, tree: Option<Value>, steps: seq<Step>, n: nat,
      cursors: seq<Cursor>)
    requires n <= |steps| && AllStand(tree, steps[..n], cursors)
    requires ApplySteps(path, cursors, steps[n..]).Err? && !ApplySteps(path, cursors, steps[n..]).error.SelectorAtRoot?
    ensures NamesSomeBlock(tree, path, steps, ApplySteps(path, cursors, steps[n..]).error)
    decreases |steps| - n
  {
    var step, next := steps[n], ApplyStep(path, cursors, steps[n]);
    assert steps[n..][1..] == steps[n + 1..];
    if next.Err? {
      var i := StepFault(path, cursors, step);
      assert cursors[i] in cursors;
      var trail :| Stands(tree, steps[..n], cursors[i], trail);
      assert NamesBlock(tree, path, trail, step, next.error);
    } else {
      NextStand(path, tree, steps[..n], cursors, step);
      assert steps[..n + 1] == steps[..n] + [step];
      FaultBehind(path, tree, steps, n + 1, next.value);
    }
  }

  // The fault of a resolution names a place where the path is blocked.
  lemma FaultsNameTheBlock(fields: map<string, Value>, path: string)
    requires ParsePath(path).Ok? && ResolveFields(fields, path).Err?
    ensures NamesSomeBlock(Some(Object(fields)), path, ParsePath(path).value, ResolveFields(fields, path).error)
  {
    var steps, root := ParsePath(path).value, RootCursor(fields);
    SelectorAtRootIsUnreachable(fields, path);
    assert steps[..0] == [] && steps[0..] == steps;
    assert Stands(Some(Object(fields)), [], root, []);
    FaultBehind(path, Some(Object(fields)), steps, 0, [root]);
  }
}
