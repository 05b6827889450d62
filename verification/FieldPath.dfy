/**
 The field path language of validators, `a.b[3].c[]` (src/validator.rs): the hand-written parser,
 the label printers, and the proof that they are inverse to each other.  Delimiters are ASCII, so
 paths are sequences of characters here although the parser walks over bytes.
 */
module FieldPath {
  import opened Prelude

  const USIZE_MAX: nat := U64_MAX

  datatype Step = Field(name: string) | Index(index: nat) | Each

  datatype PathError =
    | EmptySegment
    | SelectorWithoutField
    | BadSelector
    | UnclosedSelector
    | IndexOverflow
    | UnsupportedSyntax
    | TrailingDot

  // ---------- Numbers in decimal ----------

  predicate IsDigit(c: char) {
    '0' <= c <= '9'
  }

  predicate AllDigits(s: string) {
    forall i :: 0 <= i < |s| ==> IsDigit(s[i])
  }

  function DigitChar(d: nat): char
    requires d < 10
  {
    (d + '0' as int) as char
  }

  function Decimal(n: nat): string {
    if n < 10 then [DigitChar(n)] else Decimal(n / 10) + [DigitChar(n % 10)]
  }

  function DigitsValue(s: string): nat
    requires AllDigits(s)
  {
    if s == "" then 0 else 10 * DigitsValue(s[..|s| - 1]) + (s[|s| - 1] as int - '0' as int)
  }

  function Zeros(z: nat): string {
    seq(z, _ => '0')
  }

  lemma {:induction false} DecimalIsDigits(n: nat)
    ensures AllDigits(Decimal(n)) && Decimal(n) != ""
  {
    if n >= 10 {
      DecimalIsDigits(n / 10);
    }
  }

  lemma {:induction false} PaddedDecimalValue(z: nat, n: nat)
    ensures AllDigits(Zeros(z) + Decimal(n)) && DigitsValue(Zeros(z) + Decimal(n)) == n
    decreases n, z
  {
    DecimalIsDigits(n);
    var s := Zeros(z) + Decimal(n);
    if n >= 10 {
      PaddedDecimalValue(z, n / 10);
      assert s[..|s| - 1] == Zeros(z) + Decimal(n / 10);
    } else {
      assert s[..|s| - 1] == Zeros(z);
      if z > 0 {
        PaddedDecimalValue(z - 1, 0);
        assert Zeros(z) == Zeros(z - 1) + Decimal(0);
      }
    }
  }

  // One more digit behind a padded number.
  lemma PadStep(z: nat, v: nat, d: nat)
    requires d < 10
    ensures Zeros(z) + Decimal(v) + [DigitChar(d)] == Zeros(if v == 0 then z + 1 else z) + Decimal(10 * v + d)
  {
    if v == 0 {
      assert Zeros(z + 1) == Zeros(z) + Decimal(0);
    } else {
      assert (10 * v + d) / 10 == v && (10 * v + d) % 10 == d;
      Associate(Zeros(z), Decimal(v), [DigitChar(d)]);
    }
  }

  // A digit string is the printed form of its value behind some zeros.
  lemma {:induction false} DigitsArePaddedDecimal(s: string) returns (z: nat)
    requires s != "" && AllDigits(s)
    ensures s == Zeros(z) + Decimal(DigitsValue(s))
  {
    var front, last := s[..|s| - 1], s[|s| - 1];
    assert IsDigit(last) && s == front + [last];
    if front == "" {
      z := 0;
    } else {
      var padding := DigitsArePaddedDecimal(front);
      PadStep(padding, DigitsValue(front), last as int - '0' as int);
      z := if DigitsValue(front) == 0 then padding + 1 else padding;
    }
  }

  // ---------- The parser ----------

  function NameLength(s: string): (n: nat)
    ensures n <= |s|
    ensures forall i :: 0 <= i < n ==> s[i] != '.' && s[i] != '['
    ensures n < |s| ==> s[n] == '.' || s[n] == '['
  {
    if s == "" || s[0] == '.' || s[0] == '[' then 0 else 1 + NameLength(s[1..])
  }

  function DigitsLength(s: string): (n: nat)
    ensures n <= |s| && AllDigits(s[..n])
    ensures n < |s| ==> !IsDigit(s[n])
  {
    if s == "" || !IsDigit(s[0]) then 0
    else
      var n := DigitsLength(s[1..]);
      assert s[..n + 1] == [s[0]] + s[1..][..n];
      n + 1
  }

  function Cons(step: Step, rest: Result<seq<Step>, PathError>): Result<seq<Step>, PathError> {
    if rest.Ok? then Ok([step] + rest.value) else rest
  }

  // A path, from the start or after a dot.
  function ParsePath(s: string): Result<seq<Step>, PathError>
    decreases |s|
  {
    if s == "" then Ok([])
    else if s[0] == '.' then Err(EmptySegment)
    else
      var n := NameLength(s);
      if n == 0 then Err(SelectorWithoutField) else Cons(Field(s[..n]), ParseAfter(s[n..]))
  }

  // What may follow a field name or an array selector.
  function ParseAfter(s: string): Result<seq<Step>, PathError>
    decreases |s|
  {
    if s == "" then Ok([])
    else if s[0] == '[' then
      if |s| >= 2 && s[1] == ']' then Cons(Each, ParseAfter(s[2..]))
      else
        var n := DigitsLength(s[1..]);
        if n == 0 then Err(BadSelector)
        else if n + 1 >= |s| || s[n + 1] != ']' then Err(UnclosedSelector)
        else if DigitsValue(s[1..][..n]) > USIZE_MAX then Err(IndexOverflow)
        else Cons(Index(DigitsValue(s[1..][..n])), ParseAfter(s[n + 2..]))
    else if s[0] != '.' then Err(UnsupportedSyntax)
    else if |s| == 1 then Err(TrailingDot)
    else ParsePath(s[1..])
  }

  function Onto(steps: seq<Step>, rest: Result<seq<Step>, PathError>): Result<seq<Step>, PathError> {
    if rest.Ok? then Ok(steps + rest.value) else rest
  }

  lemma OntoCons(steps: seq<Step>, step: Step, rest: Result<seq<Step>, PathError>)
    ensures Onto(steps, Cons(step, rest)) == Onto(steps + [step], rest)
  {
    if rest.Ok? {
      assert steps + ([step] + rest.value) == (steps + [step]) + rest.value;
    }
  }

  method ScanName(field: string, start: nat) returns (index: nat)
    requires start <= |field|
    ensures index == start + NameLength(field[start..])
  {
    index := start;
    while index < |field| && field[index] != '.' && field[index] != '['
      invariant start <= index <= |field|
      invariant NameLength(field[start..]) == index - start + NameLength(field[index..])
    {
      assert field[index..][1..] == field[index + 1..];
      index := index + 1;
    }
  }

  method ScanDigits(field: string, start: nat) returns (index: nat)
    requires start <= |field|
    ensures index == start + DigitsLength(field[start..])
  {
    index := start;
    while index < |field| && IsDigit(field[index])
      invariant start <= index <= |field|
      invariant DigitsLength(field[start..]) == index - start + DigitsLength(field[index..])
    {
      assert field[index..][1..] == field[index + 1..];
      index := index + 1;
    }
  }

  // One array selector, with `index` just behind its bracket.
  method ParseSelector(field: string, start: nat) returns (selector: Result<Step, PathError>, index: nat)
    requires start <= |field|
    ensures selector.Ok? ==> start < index <= |field|
    ensures var after := ParseAfter("[" + field[start..]);
            if selector.Ok? then after == Cons(selector.value, ParseAfter(field[index..]))
            else after == Err(selector.error)
  {
    index := start;
    ghost var rest := "[" + field[start..];
    assert rest[1..] == field[start..];
    if index < |field| && field[index] == ']' {
      assert rest[2..] == field[index + 1..];
      return Ok(Each), index + 1;
    }
    index := ScanDigits(field, start);
    if start == index {
      return Err(BadSelector), index;
    }
    assert rest[1..][..index - start] == field[start..index];
    if index >= |field| || field[index] != ']' {
      return Err(UnclosedSelector), index;
    }
    var arrayIndex := DigitsValue(field[start..index]);
    if arrayIndex > USIZE_MAX {
      return Err(IndexOverflow), index;
    }
    assert rest[index - start + 2..] == field[index + 1..];
    return Ok(Index(arrayIndex)), index + 1;
  }

  // The run of selectors behind a field name.
  method ParseSelectors(field: string, start: nat, prefix: seq<Step>)
    returns (steps: Result<seq<Step>, PathError>, index: nat)
    requires start <= |field|
    ensures steps.Ok? ==> start <= index <= |field| && (index < |field| ==> field[index] != '[')
    ensures Onto(prefix, ParseAfter(field[start..]))
         == if steps.Ok? then Onto(steps.value, ParseAfter(field[index..])) else steps
  {
    index := start;
    var found := prefix;
    ghost var goal := Onto(prefix, ParseAfter(field[start..]));
    while index < |field| && field[index] == '['
      invariant start <= index <= |field|
      invariant goal == Onto(found, ParseAfter(field[index..]))
    {
      assert field[index..] == "[" + field[index + 1..];
      var selector, next := ParseSelector(field, index + 1);
      if selector.Err? {
        return Err(selector.error), next;
      }
      OntoCons(found, selector.value, ParseAfter(field[next..]));
      found := found + [selector.value];
      index := next;
    }
    steps := Ok(found);
  }

  lemma PathStepsByName(field: string, start: nat, index: nat, steps: seq<Step>)
    requires start < index <= |field| && field[start] != '.' && index == start + NameLength(field[start..])
    ensures Onto(steps, ParsePath(field[start..]))
            == Onto(steps + [Field(field[start..index])], ParseAfter(field[index..]))
  {
    assert field[start..][..index - start] == field[start..index];
    assert field[start..][index - start..] == field[index..];
    OntoCons(steps, Field(field[start..index]), ParseAfter(field[index..]));
  }

  // One dotted segment: a name, its selectors and the dot behind it.
  method ParseSegment(field: string, start: nat, prefix: seq<Step>)
    returns (steps: Result<seq<Step>, PathError>, index: nat)
    requires start < |field|
    ensures steps.Ok? ==> start < index <= |field|
    ensures Onto(prefix, ParsePath(field[start..]))
         == if steps.Ok? then Onto(steps.value, ParsePath(field[index..])) else steps
  {
    if field[start] == '.' {
      return Err(EmptySegment), start;
    }
    var name := ScanName(field, start);
    if start == name {
      return Err(SelectorWithoutField), start;
    }
    PathStepsByName(field, start, name, prefix);
    steps, index := ParseSelectors(field, name, prefix + [Field(field[start..name])]);
    if steps.Err? || index == |field| {
      return;
    }
    if field[index] != '.' {
      return Err(UnsupportedSyntax), index;
    }
    assert field[index..][1..] == field[index + 1..];
    index := index + 1;
    if index == |field| {
      return Err(TrailingDot), index;
    }
  }

  method ParseFieldPath(field: string) returns (result: Result<seq<Step>, PathError>)
    ensures result == ParsePath(field)
  {
    var index := 0;
    var steps: seq<Step> := [];
    assert field[0..] == field;
    assert ParsePath(field).Ok? ==> [] + ParsePath(field).value == ParsePath(field).value;
    while index < |field|
      invariant 0 <= index <= |field|
      invariant ParsePath(field) == Onto(steps, ParsePath(field[index..]))
    {
      var segment, next := ParseSegment(field, index, steps);
      if segment.Err? {
        return segment;
      }
      steps, index := segment.value, next;
    }
    assert field[index..] == "" && steps + [] == steps;
    return Ok(steps);
  }

  // ---------- The label printers ----------

  // `append_field_path`, `append_index_path` and `append_each_path`.
  function AppendStep(base: string, step: Step): string {
    match step
    case Field(name) => if base == "" then name else base + "." + name
    case Index(index) => base + "[" + Decimal(index) + "]"
    case Each => base + "[]"
  }

  function AppendSteps(base: string, steps: seq<Step>): string
    decreases |steps|
  {
    if steps == [] then base else AppendSteps(AppendStep(base, steps[0]), steps[1..])
  }

  function Render(steps: seq<Step>): string {
    AppendSteps("", steps)
  }

  // `prefix_nested_field`.
  function PrefixNested(parent: string, child: string): string {
    if parent == "" then child else if child == "" then parent else parent + "." + child
  }

  // ---------- Well-formed paths and their spellings ----------

  predicate StepOk(step: Step) {
    match step
    case Field(name) => name != "" && '.' !in name && '[' !in name
    case Index(index) => index <= USIZE_MAX
    case Each => true
  }

  predicate StepsOk(steps: seq<Step>) {
    forall k :: 0 <= k < |steps| ==> StepOk(steps[k])
  }

  // A well-formed path is empty or begins with a field.
  predicate WellFormed(steps: seq<Step>) {
    StepsOk(steps) && (steps != [] ==> steps[0].Field?)
  }

  // One step written out behind a path, with `zeros` zeros in front of an index.
  function Piece(step: Step, zeros: nat): string {
    match step
    case Field(name) => "." + name
    case Index(index) => "[" + (Zeros(zeros) + Decimal(index)) + "]"
    case Each => "[]"
  }

  function Pieces(steps: seq<Step>, zeros: seq<nat>): string
    requires |steps| == |zeros|
  {
    if steps == [] then "" else Piece(steps[0], zeros[0]) + Pieces(steps[1..], zeros[1..])
  }

  // The path with the given number of zeros in front of each index.
  function Spell(steps: seq<Step>, zeros: seq<nat>): string
    requires |steps| == |zeros|
  {
    var text := Pieces(steps, zeros);
    if text == "" then "" else text[1..]
  }

  function NoZeros(n: nat): seq<nat> {
    seq(n, _ => 0)
  }

  lemma {:induction false} PiecesAppend(a: seq<Step>, za: seq<nat>, b: seq<Step>, zb: seq<nat>)
    requires |a| == |za| && |b| == |zb|
    ensures Pieces(a + b, za + zb) == Pieces(a, za) + Pieces(b, zb)
  {
    if a == [] {
      assert a + b == b && za + zb == zb;
    } else {
      assert (a + b)[1..] == a[1..] + b && (za + zb)[1..] == za[1..] + zb;
      PiecesAppend(a[1..], za[1..], b, zb);
    }
  }

  lemma AppendIsPiece(base: string, step: Step)
    requires base != ""
    ensures AppendStep(base, step) == base + Piece(step, 0)
  {
    match step
    case Field(name) => Associate(base, ".", name);
    case Index(index) => Brackets(base, Zeros(0), Decimal(index));
    case Each =>
  }

  lemma Brackets(base: string, none: string, digits: string)
    requires none == ""
    ensures base + "[" + digits + "]" == base + ("[" + (none + digits) + "]")
  {
    assert none + digits == digits;
  }

  lemma {:induction false} AppendStepsIsPieces(base: string, steps: seq<Step>)
    requires base != ""
    ensures AppendSteps(base, steps) == base + Pieces(steps, NoZeros(|steps|))
    decreases |steps|
  {
    if steps != [] {
      var next, rest := AppendStep(base, steps[0]), Pieces(steps[1..], NoZeros(|steps[1..]|));
      AppendIsPiece(base, steps[0]);
      AppendStepsIsPieces(next, steps[1..]);
      assert NoZeros(|steps|)[1..] == NoZeros(|steps[1..]|);
      Associate(base, Piece(steps[0], 0), rest);
    }
  }

  lemma RenderIsSpell(steps: seq<Step>)
    requires WellFormed(steps)
    ensures Render(steps) == Spell(steps, NoZeros(|steps|))
  {
    if steps != [] {
      var name := steps[0].name;
      AppendStepsIsPieces(name, steps[1..]);
      assert NoZeros(|steps|)[1..] == NoZeros(|steps[1..]|);
    }
  }

  // ---------- Parsing accepts exactly the spellings ----------

  lemma SelectorText(s: string, n: nat, digits: string)
    requires n + 1 < |s| && s[0] == '[' && s[1..][..n] == digits && s[n + 1] == ']'
    ensures s == ("[" + digits + "]") + s[n + 2..]
  {
    assert s[1..] == digits + s[n + 1..] && s[n + 1..] == "]" + s[n + 2..];
  }

  lemma {:induction false} ParseAfterIsSound(s: string) returns (zeros: seq<nat>)
    requires ParseAfter(s).Ok?
    ensures |zeros| == |ParseAfter(s).value|
    ensures StepsOk(ParseAfter(s).value) && s == Pieces(ParseAfter(s).value, zeros)
    decreases |s|
  {
    if s == "" {
      zeros := [];
    } else if s[0] == '[' {
      if |s| >= 2 && s[1] == ']' {
        var rest := ParseAfterIsSound(s[2..]);
        zeros := [0] + rest;
        assert s == "[]" + s[2..];
      } else {
        var n := DigitsLength(s[1..]);
        var digits := s[1..][..n];
        var z := DigitsArePaddedDecimal(digits);
        var rest := ParseAfterIsSound(s[n + 2..]);
        zeros := [z] + rest;
        SelectorText(s, n, Zeros(z) + Decimal(DigitsValue(digits)));
      }
    } else {
      zeros := ParsePathIsSound(s[1..]);
      assert s == "." + s[1..];
    }
  }

  lemma {:induction false} ParsePathIsSound(s: string) returns (zeros: seq<nat>)
    requires s != "" && ParsePath(s).Ok?
    ensures |zeros| == |ParsePath(s).value| > 0
    ensures WellFormed(ParsePath(s).value) && "." + s == Pieces(ParsePath(s).value, zeros)
    decreases |s|
  {
    var n := NameLength(s);
    var rest := ParseAfterIsSound(s[n..]);
    zeros := [0] + rest;
    var steps := ParseAfter(s[n..]).value;
    assert ParsePath(s).value == [Field(s[..n])] + steps && ([Field(s[..n])] + steps)[1..] == steps;
    assert zeros[1..] == rest;
    assert s == s[..n] + s[n..];
    assert "." + s == ("." + s[..n]) + s[n..];
  }

  lemma {:induction false} NameLengthOf(name: string, tail: string)
    requires '.' !in name && '[' !in name
    requires tail == "" || tail[0] == '.' || tail[0] == '['
    ensures NameLength(name + tail) == |name|
  {
    if name == "" {
      assert name + tail == tail;
    } else {
      assert (name + tail)[1..] == name[1..] + tail;
      NameLengthOf(name[1..], tail);
    }
  }

  lemma {:induction false} DigitsLengthOf(digits: string, tail: string)
    requires AllDigits(digits) && tail != "" && !IsDigit(tail[0])
    ensures DigitsLength(digits + tail) == |digits|
  {
    if digits == "" {
      assert digits + tail == tail;
    } else {
      assert (digits + tail)[1..] == digits[1..] + tail;
      DigitsLengthOf(digits[1..], tail);
    }
  }

  lemma ParseFieldPiece(name: string, tail: string)
    requires StepOk(Field(name)) && (tail == "" || tail[0] == '.' || tail[0] == '[')
    ensures ParseAfter("." + name + tail) == Cons(Field(name), ParseAfter(tail))
  {
    var s := "." + name + tail;
    assert s[1..] == name + tail;
    NameLengthOf(name, tail);
    assert (name + tail)[0] == name[0];
    assert (name + tail)[..|name|] == name && (name + tail)[|name|..] == tail;
  }

  lemma ParseIndexPiece(digits: string, tail: string)
    requires digits != "" && AllDigits(digits) && DigitsValue(digits) <= USIZE_MAX
    ensures ParseAfter("[" + digits + "]" + tail) == Cons(Index(DigitsValue(digits)), ParseAfter(tail))
  {
    var s := "[" + digits + "]" + tail;
    assert s[1..] == digits + ("]" + tail);
    DigitsLengthOf(digits, "]" + tail);
    assert IsDigit(digits[0]) && s[1] == digits[0];
    assert s[1..][..|digits|] == digits && s[|digits| + 1] == ']' && s[|digits| + 2..] == tail;
  }

  lemma {:induction false} ParseAfterIsComplete(steps: seq<Step>, zeros: seq<nat>)
    requires |steps| == |zeros| && StepsOk(steps)
    ensures ParseAfter(Pieces(steps, zeros)) == Ok(steps)
  {
    if steps != [] {
      var tail := Pieces(steps[1..], zeros[1..]);
      ParseAfterIsComplete(steps[1..], zeros[1..]);
      assert [steps[0]] + steps[1..] == steps;
      match steps[0] {
        case Field(name) =>
          ParseFieldPiece(name, tail);
        case Index(index) =>
          PaddedDecimalValue(zeros[0], index);
          DecimalIsDigits(index);
          ParseIndexPiece(Zeros(zeros[0]) + Decimal(index), tail);
        case Each =>
          assert ("[]" + tail)[2..] == tail;
      }
    }
  }

  // A text whose dotted form spells well-formed steps parses to them.
  lemma SpellingParses(s: string, steps: seq<Step>, zeros: seq<nat>)
    requires |steps| == |zeros| > 0 && WellFormed(steps) && "." + s == Pieces(steps, zeros)
    ensures ParsePath(s) == Ok(steps)
  {
    ParseAfterIsComplete(steps, zeros);
    assert ("." + s)[1..] == s;
  }

  // The language of the parser and what each sentence means, in both directions.
  lemma ParserAcceptsSpellings(s: string, steps: seq<Step>)
    ensures ParsePath(s) == Ok(steps)
       <==> WellFormed(steps) && exists zeros: seq<nat> :: |zeros| == |steps| && s == Spell(steps, zeros)
  {
    if ParsePath(s) == Ok(steps) {
      if s == "" {
        assert s == Spell(steps, []);
      } else {
        var zeros := ParsePathIsSound(s);
        assert s == Spell(steps, zeros);
      }
    }
    if WellFormed(steps) {
      forall zeros: seq<nat> | |zeros| == |steps| && s == Spell(steps, zeros)
        ensures ParsePath(s) == Ok(steps)
      {
        if steps != [] {
          var text := Pieces(steps, zeros);
          assert text == "." + s;
          SpellingParses(s, steps, zeros);
        }
      }
    }
  }

  // Printing then parsing is the identity on well-formed paths.
  lemma PrintThenParse(steps: seq<Step>)
    requires WellFormed(steps)
    ensures ParsePath(Render(steps)) == Ok(steps)
  {
    RenderIsSpell(steps);
    ParserAcceptsSpellings(Render(steps), steps);
  }

  // Parsing then printing drops zeros in front of indices and nothing else.
  lemma ParseThenPrint(s: string)
    requires ParsePath(s).Ok?
    ensures WellFormed(ParsePath(s).value)
    ensures exists zeros: seq<nat> :: |zeros| == |ParsePath(s).value| && s == Spell(ParsePath(s).value, zeros)
    ensures Render(ParsePath(s).value) == Spell(ParsePath(s).value, NoZeros(|ParsePath(s).value|))
  {
    ParserAcceptsSpellings(s, ParsePath(s).value);
    RenderIsSpell(ParsePath(s).value);
  }

  lemma AcceptedPathBeginsWithField(s: string)
    requires s != "" && ParsePath(s).Ok?
    ensures ParsePath(s).value != [] && ParsePath(s).value[0].Field?
  {
    var zeros := ParsePathIsSound(s);
  }

  lemma DottedJoin(p: string, middle: string, q: string)
    ensures ("." + p) + middle + ("." + q) == "." + (p + middle + "." + q)
  {
  }

  lemma PiecesJoin(a: seq<Step>, za: seq<nat>, b: seq<Step>, zb: seq<nat>, c: seq<Step>, zc: seq<nat>)
    requires |a| == |za| && |b| == |zb| && |c| == |zc|
    ensures Pieces(a + b + c, za + zb + zc) == Pieces(a, za) + Pieces(b, zb) + Pieces(c, zc)
  {
    PiecesAppend(a, za, b, zb);
    PiecesAppend(a + b, za + zb, c, zc);
  }

  lemma JoinedSpelling(p: string, sp: seq<Step>, zp: seq<nat>, middle: seq<Step>, q: string, sq: seq<Step>,
      zq: seq<nat>)
    requires |sp| == |zp| > 0 && WellFormed(sp) && "." + p == Pieces(sp, zp)
    requires |sq| == |zq| && WellFormed(sq) && "." + q == Pieces(sq, zq)
    requires StepsOk(middle)
    ensures ParsePath(p + Pieces(middle, NoZeros(|middle|)) + "." + q) == Ok(sp + middle + sq)
  {
    var zm := NoZeros(|middle|);
    PiecesJoin(sp, zp, middle, zm, sq, zq);
    DottedJoin(p, Pieces(middle, zm), q);
    SpellingParses(p + Pieces(middle, zm) + "." + q, sp + middle + sq, zp + zm + zq);
  }

  // Joining two paths, the first one extended by selectors, joins their steps.
  lemma JoinedPathParses(p: string, sp: seq<Step>, middle: seq<Step>, q: string, sq: seq<Step>)
    requires p != "" && q != "" && ParsePath(p) == Ok(sp) && ParsePath(q) == Ok(sq)
    requires StepsOk(middle)
    ensures ParsePath(p + Pieces(middle, NoZeros(|middle|)) + "." + q) == Ok(sp + middle + sq)
  {
    var zp := ParsePathIsSound(p);
    var zq := ParsePathIsSound(q);
    JoinedSpelling(p, sp, zp, middle, q, sq, zq);
  }

  // ---------- What each error complains of ----------

  // Digits, at least one, fill the text between a bracket and `hi`.
  predicate DigitRun(s: string, bracket: nat, hi: nat) {
    bracket + 1 < hi <= |s| && s[bracket] == '[' && AllDigits(s[bracket + 1..hi])
  }

  // No bracket closes them, or one does but their value is too large.
  predicate Unclosed(s: string, bracket: nat, hi: nat) {
    DigitRun(s, bracket, hi) && (hi == |s| || !(s[hi] == ']' || IsDigit(s[hi])))
  }

  predicate Overflows(s: string, bracket: nat, hi: nat) {
    DigitRun(s, bracket, hi) && hi < |s| && s[hi] == ']' && DigitsValue(s[bracket + 1..hi]) > USIZE_MAX
  }

  // What is wrong at a position of a rejected path.
  ghost predicate WrongAt(s: string, i: nat, error: PathError)
    requires i < |s|
  {
    match error
    case EmptySegment => s[i] == '.' && (i == 0 || s[i - 1] == '.')
    case SelectorWithoutField => s[i] == '[' && (i == 0 || s[i - 1] == '.')
    case BadSelector => s[i] == '[' && (i + 1 == |s| || !(s[i + 1] == ']' || IsDigit(s[i + 1])))
    case UnclosedSelector => exists j :: Unclosed(s, i, j)
    case IndexOverflow => exists j :: Overflows(s, i, j)
    case UnsupportedSyntax => i > 0 && s[i - 1] == ']' && s[i] != '.' && s[i] != '['
    case TrailingDot => i == |s| - 1 && s[i] == '.'
  }

  ghost predicate Wrong(s: string, error: PathError) {
    exists i :: 0 <= i < |s| && WrongAt(s, i, error)
  }

  lemma {:induction false} PathErrs(s: string, k: nat)
    requires k <= |s| && (k == 0 || s[k - 1] == '.')
    ensures ParsePath(s[k..]).Err? ==> Wrong(s, ParsePath(s[k..]).error)
    decreases |s| - k
  {
    var rest := s[k..];
    if rest != "" && ParsePath(rest).Err? {
      var n := NameLength(rest);
      if rest[0] == '.' || n == 0 {
        assert WrongAt(s, k, ParsePath(rest).error);
      } else {
        assert rest[n..] == s[k + n..] && (n < |rest| ==> rest[n] == s[k + n]);
        AfterErrs(s, k + n);
      }
    }
  }

  lemma {:induction false} AfterErrs(s: string, k: nat)
    requires 0 < k <= |s| && (s[k - 1] == ']' || k == |s| || s[k] == '.' || s[k] == '[')
    ensures ParseAfter(s[k..]).Err? ==> Wrong(s, ParseAfter(s[k..]).error)
    decreases |s| - k
  {
    var rest := s[k..];
    if rest != "" && ParseAfter(rest).Err? {
      if rest[0] == '[' {
        SelectorErrs(s, k);
      } else if rest[0] == '.' && |rest| > 1 {
        assert rest[1..] == s[k + 1..];
        PathErrs(s, k + 1);
      } else {
        assert WrongAt(s, k, ParseAfter(rest).error);
      }
    }
  }

  lemma {:induction false} SelectorErrs(s: string, k: nat)
    requires 0 < k < |s| && s[k] == '[' && ParseAfter(s[k..]).Err?
    ensures Wrong(s, ParseAfter(s[k..]).error)
    decreases |s| - k, 0
  {
    var rest := s[k..];
    if |rest| >= 2 && rest[1] == ']' {
      assert rest[2..] == s[k + 2..];
      AfterErrs(s, k + 2);
    } else {
      var n := DigitsLength(rest[1..]);
      assert rest[1..][..n] == s[k + 1..k + 1 + n];
      assert n + 1 < |rest| ==> rest[1..][n] == s[k + 1 + n] == rest[n + 1];
      if n > 0 && n + 1 < |rest| && rest[n + 1] == ']' && DigitsValue(rest[1..][..n]) <= USIZE_MAX {
        assert rest[n + 2..] == s[k + n + 2..];
        AfterErrs(s, k + n + 2);
      } else {
        var j := k + 1 + n;
        if n > 0 && n + 1 < |rest| && rest[n + 1] == ']' {
          assert Overflows(s, k, j);
        } else if n > 0 {
          assert Unclosed(s, k, j);
        }
        assert WrongAt(s, k, ParseAfter(rest).error);
      }
    }
  }

  // A rejected path holds the mistake its error names.
  lemma ErrorsNameTheMistake(s: string)
    requires ParsePath(s).Err?
    ensures Wrong(s, ParsePath(s).error)
  {
    PathErrs(s, 0);
    assert s[0..] == s;
  }
}
