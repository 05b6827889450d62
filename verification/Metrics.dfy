/**
 Prometheus text rendering and the telemetry window (src/telemetry.rs), with a reader for the text
 format against which the renderer is proved.
 */
module Metrics {
  import opened Prelude
  import opened FieldPath

  // ---------- Escaping ----------

  // `str::replace` of one character.
  function Replace(s: string, c: char, to: string): string {
    if s == "" then "" else (if s[0] == c then to else [s[0]]) + Replace(s[1..], c, to)
  }

  // The three passes of the source, in order.
  function EscapeLabelValue(value: string): string {
    Replace(Replace(Replace(value, '\\', "\\\\"), '\n', "\\n"), '"', "\\\"")
  }

  function EscapeChar(c: char): string {
    if c == '\\' then "\\\\" else if c == '\n' then "\\n" else if c == '"' then "\\\"" else [c]
  }

  function Escape(s: string): string {
    if s == "" then "" else EscapeChar(s[0]) + Escape(s[1..])
  }

  lemma {:induction false} ReplaceAppend(a: string, b: string, c: char, to: string)
    ensures Replace(a + b, c, to) == Replace(a, c, to) + Replace(b, c, to)
  {
    if a == "" {
      assert a + b == b;
    } else {
      assert (a + b)[1..] == a[1..] + b;
      ReplaceAppend(a[1..], b, c, to);
    }
  }

  lemma ReplaceOne(x: char, c: char, to: string)
    ensures Replace([x], c, to) == if x == c then to else [x]
  {
    assert [x][1..] == "";
    assert to + "" == to;
  }

  lemma ReplaceTwo(x: char, y: char, c: char, to: string)
    requires x != c && y != c
    ensures Replace([x, y], c, to) == [x, y]
  {
    assert [x, y] == [x] + [y];
    ReplaceAppend([x], [y], c, to);
    ReplaceOne(x, c, to);
    ReplaceOne(y, c, to);
  }

  lemma EscapeOne(c: char)
    ensures EscapeLabelValue([c]) == EscapeChar(c)
  {
    ReplaceOne(c, '\\', "\\\\");
    if c == '\\' {
      ReplaceTwo('\\', '\\', '\n', "\\n");
      ReplaceTwo('\\', '\\', '"', "\\\"");
    } else {
      ReplaceOne(c, '\n', "\\n");
      if c == '\n' {
        ReplaceTwo('\\', 'n', '"', "\\\"");
      } else {
        ReplaceOne(c, '"', "\\\"");
      }
    }
  }

  // The three replacement passes are one character-wise escape.
  lemma {:induction false} EscapeIsCharacterwise(value: string)
    ensures EscapeLabelValue(value) == Escape(value)
  {
    if value != "" {
      var head, tail := [value[0]], value[1..];
      assert value == head + tail;
      ReplaceAppend(head, tail, '\\', "\\\\");
      ReplaceAppend(Replace(head, '\\', "\\\\"), Replace(tail, '\\', "\\\\"), '\n', "\\n");
      ReplaceAppend(Replace(Replace(head, '\\', "\\\\"), '\n', "\\n"),
                    Replace(Replace(tail, '\\', "\\\\"), '\n', "\\n"), '"', "\\\"");
      EscapeOne(value[0]);
      EscapeIsCharacterwise(tail);
    }
  }

  // ---------- Rendering a sample ----------

  datatype Label = Label(key: string, value: string)

  datatype Sample = Sample(name: string, labels: seq<Label>, value: nat)

  function LabelText(l: Label): string {
    l.key + "=\"" + EscapeLabelValue(l.value) + "\""
  }

  function JoinLabels(labels: seq<Label>): string {
    if labels == [] then ""
    else if |labels| == 1 then LabelText(labels[0])
    else LabelText(labels[0]) + "," + JoinLabels(labels[1..])
  }

  function SampleLine(sample: Sample): string {
    if sample.labels == [] then sample.name + " " + Decimal(sample.value) + "\n"
    else sample.name + "{" + JoinLabels(sample.labels) + "} " + Decimal(sample.value) + "\n"
  }

  method WriteMetricSample(output: string, name: string, labels: seq<Label>, value: nat) returns (written: string)
    ensures written == output + SampleLine(Sample(name, labels, value))
  {
    if labels == [] {
      return output + (name + " " + Decimal(value) + "\n");
    }
    written := output + (name + "{" + JoinLabels(labels) + "} " + Decimal(value) + "\n");
  }

  // ---------- Reading a sample ----------

  predicate IsNameChar(c: char) {
    'a' <= c <= 'z' || 'A' <= c <= 'Z' || '0' <= c <= '9' || c == '_' || c == ':'
  }

  predicate AllNameChars(s: string) {
    forall i :: 0 <= i < |s| ==> IsNameChar(s[i])
  }

  predicate IsName(s: string) {
    s != "" && AllNameChars(s)
  }

  function NameEnd(s: string): (n: nat)
    ensures n <= |s|
  {
    if s == "" || !IsNameChar(s[0]) then 0 else 1 + NameEnd(s[1..])
  }

  // A quoted value up to its closing quote, and the rest of the line.
  function ReadValue(s: string): Option<(string, string)>
    decreases |s|
  {
    if s == "" || s[0] == '\n' then None
    else if s[0] == '"' then Some(("", s[1..]))
    else if s[0] == '\\' then
      if |s| < 2 then None
      else if s[1] == 'n' then PrependTo('\n', ReadValue(s[2..]))
      else if s[1] == '\\' || s[1] == '"' then PrependTo(s[1], ReadValue(s[2..]))
      else None
    else PrependTo(s[0], ReadValue(s[1..]))
  }

  function PrependTo(c: char, rest: Option<(string, string)>): Option<(string, string)> {
    if rest.None? then None else Some(([c] + rest.value.0, rest.value.1))
  }

  // The first key="value" pair and what follows it.
  function ReadLabel(s: string): Option<(Label, string)> {
    var n := NameEnd(s);
    if n == 0 || n + 2 > |s| || s[n..n + 2] != "=\"" then None
    else
      var value := ReadValue(s[n + 2..]);
      if value.None? then None else Some((Label(s[..n], value.value.0), value.value.1))
  }

  // key="value" pairs separated by commas, up to the closing brace.
  function ReadLabels(s: string): Option<(seq<Label>, string)>
    decreases |s|
  {
    var first := ReadLabel(s);
    if first.None? then None
    else
      var rest := first.value.1;
      if rest == "" || |rest| >= |s| then None
      else if rest[0] == '}' then Some(([first.value.0], rest[1..]))
      else if rest[0] == ',' then
        var more := ReadLabels(rest[1..]);
        if more.None? then None else Some(([first.value.0] + more.value.0, more.value.1))
      else None
  }

  // A space, a decimal number and the end of the line.
  function ReadNumber(s: string): Option<nat> {
    if |s| < 3 || s[0] != ' ' || s[|s| - 1] != '\n' then None
    else
      var digits := s[1..|s| - 1];
      if AllDigits(digits) then Some(DigitsValue(digits)) else None
  }

  function ParseSample(line: string): Option<Sample> {
    var n := NameEnd(line);
    if n == 0 || n == |line| then None
    else if line[n] == '{' then
      var labels := ReadLabels(line[n + 1..]);
      if labels.None? then None
      else
        var value := ReadNumber(labels.value.1);
        if value.None? then None else Some(Sample(line[..n], labels.value.0, value.value))
    else
      var value := ReadNumber(line[n..]);
      if value.None? then None else Some(Sample(line[..n], [], value.value))
  }

  // ---------- Rendering then reading ----------

  lemma {:induction false} NameEndOf(name: string, tail: string)
    requires AllNameChars(name) && (tail == "" || !IsNameChar(tail[0]))
    ensures NameEnd(name + tail) == |name|
  {
    if name == "" {
      assert name + tail == tail;
    } else {
      assert (name + tail)[1..] == name[1..] + tail;
      NameEndOf(name[1..], tail);
    }
  }

  // Reading inverts escaping, whatever the value holds.
  lemma {:induction false} ReadEscaped(value: string, rest: string)
    ensures ReadValue(Escape(value) + "\"" + rest) == Some((value, rest))
  {
    if value == "" {
      assert (Escape(value) + "\"" + rest)[1..] == rest;
    } else {
      var tail := Escape(value[1..]) + "\"" + rest;
      ReadEscaped(value[1..], rest);
      assert Escape(value) + "\"" + rest == EscapeChar(value[0]) + tail;
      assert [value[0]] + value[1..] == value;
    }
  }

  ghost predicate KeysOk(labels: seq<Label>) {
    forall k :: 0 <= k < |labels| ==> IsName(labels[k].key)
  }

  lemma LabelTextIs(l: Label, after: string)
    ensures LabelText(l) + after == l.key + ("=\"" + (Escape(l.value) + "\"" + after))
  {
    EscapeIsCharacterwise(l.value);
  }

  lemma CutBehind(key: string, mark: string, tail: string)
    ensures var s := key + (mark + tail);
            s[..|key|] == key && s[|key|..|key| + |mark|] == mark && s[|key| + |mark|..] == tail
  {
  }

  // One label, read from the front of a line.
  lemma ReadOneLabel(l: Label, after: string)
    requires IsName(l.key)
    ensures ReadLabel(LabelText(l) + after) == Some((l, after)) && |after| < |LabelText(l) + after|
  {
    var s, tail := LabelText(l) + after, Escape(l.value) + "\"" + after;
    LabelTextIs(l, after);
    NameEndOf(l.key, "=\"" + tail);
    ReadEscaped(l.value, after);
    CutBehind(l.key, "=\"", tail);
  }

  lemma ReadLastLabel(l: Label, rest: string)
    requires IsName(l.key)
    ensures ReadLabels(LabelText(l) + ("}" + rest)) == Some(([l], rest))
  {
    ReadOneLabel(l, "}" + rest);
    assert ("}" + rest)[1..] == rest;
  }

  lemma ReadLabelBefore(l: Label, after: string, more: seq<Label>, rest: string)
    requires IsName(l.key) && ReadLabels(after) == Some((more, rest))
    ensures ReadLabels(LabelText(l) + ("," + after)) == Some(([l] + more, rest))
  {
    ReadOneLabel(l, "," + after);
    assert ("," + after)[1..] == after;
  }

  lemma {:induction false} ReadJoinedLabels(labels: seq<Label>, rest: string)
    requires labels != [] && KeysOk(labels)
    ensures ReadLabels(JoinLabels(labels) + "}" + rest) == Some((labels, rest))
  {
    var first, more := labels[0], labels[1..];
    assert labels == [first] + more;
    if more == [] {
      assert labels == [first];
      ReadLastLabel(first, rest);
      Associate(LabelText(first), "}", rest);
    } else {
      ReadJoinedLabels(more, rest);
      ReadLabelBefore(first, JoinLabels(more) + "}" + rest, more, rest);
      JoinedText(LabelText(first), JoinLabels(more), rest);
    }
  }

  lemma JoinedText(first: string, more: string, rest: string)
    ensures (first + "," + more) + "}" + rest == first + ("," + (more + "}" + rest))
  {
  }

  lemma ReadDecimal(value: nat)
    ensures ReadNumber(" " + Decimal(value) + "\n") == Some(value)
  {
    var s := " " + Decimal(value) + "\n";
    DecimalIsDigits(value);
    PaddedDecimalValue(0, value);
    assert Zeros(0) + Decimal(value) == Decimal(value);
    assert s[1..|s| - 1] == Decimal(value);
  }

  lemma PlainSampleReadsBack(sample: Sample)
    requires IsName(sample.name) && sample.labels == []
    ensures ParseSample(SampleLine(sample)) == Some(sample)
  {
    var number := " " + Decimal(sample.value) + "\n";
    ReadDecimal(sample.value);
    assert SampleLine(sample) == sample.name + number;
    NameEndOf(sample.name, number);
    NameAndRest(sample.name, number);
  }

  lemma LabelledSampleReadsBack(sample: Sample)
    requires IsName(sample.name) && KeysOk(sample.labels) && sample.labels != []
    ensures ParseSample(SampleLine(sample)) == Some(sample)
  {
    var number := " " + Decimal(sample.value) + "\n";
    var inner := JoinLabels(sample.labels) + "}" + number;
    ReadDecimal(sample.value);
    BracedLine(sample.name, JoinLabels(sample.labels), Decimal(sample.value));
    NameEndOf(sample.name, "{" + inner);
    NameAndRest(sample.name, "{" + inner);
    ReadJoinedLabels(sample.labels, number);
    assert ("{" + inner)[1..] == inner;
  }

  // A rendered sample reads back to the same name, labels and value.
  lemma SampleReadsBack(sample: Sample)
    requires IsName(sample.name) && KeysOk(sample.labels)
    ensures ParseSample(SampleLine(sample)) == Some(sample)
  {
    if sample.labels == [] {
      PlainSampleReadsBack(sample);
    } else {
      LabelledSampleReadsBack(sample);
    }
  }

  lemma NameAndRest(name: string, rest: string)
    ensures (name + rest)[..|name|] == name && (name + rest)[|name|..] == rest
    ensures rest != "" ==> (name + rest)[|name| + 1..] == rest[1..]
  {
  }

  lemma BracedLine(name: string, labels: string, number: string)
    ensures name + "{" + labels + "} " + number + "\n" == name + ("{" + (labels + "}" + (" " + number + "\n")))
  {
    assert "} " == "}" + " ";
  }

  // ---------- One sample is one line ----------

  predicate OneLine(s: string) {
    '\n' !in s
  }

  lemma {:induction false} EscapeIsOneLine(value: string)
    ensures OneLine(Escape(value))
  {
    if value != "" {
      EscapeIsOneLine(value[1..]);
    }
  }

  lemma {:induction false} JoinIsOneLine(labels: seq<Label>)
    requires KeysOk(labels)
    ensures OneLine(JoinLabels(labels))
  {
    if labels != [] {
      EscapeIsCharacterwise(labels[0].value);
      EscapeIsOneLine(labels[0].value);
      NamesAreOneLine(labels[0].key);
      JoinIsOneLine(labels[1..]);
    }
  }

  lemma NamesAreOneLine(name: string)
    requires AllNameChars(name)
    ensures OneLine(name)
  {
  }

  // The text of a sample holds a single newline, at its end.
  lemma SampleIsOneLine(sample: Sample)
    requires IsName(sample.name) && KeysOk(sample.labels)
    ensures var text := SampleLine(sample); text != "" && text[|text| - 1] == '\n' && OneLine(text[..|text| - 1])
  {
    JoinIsOneLine(sample.labels);
    NamesAreOneLine(sample.name);
    DecimalIsDigits(sample.value);
    var front := if sample.labels == [] then sample.name + " " + Decimal(sample.value)
                 else sample.name + "{" + JoinLabels(sample.labels) + "} " + Decimal(sample.value);
    assert SampleLine(sample) == front + "\n";
    assert SampleLine(sample)[..|front|] == front;
  }

  // ---------- A whole exposition ----------

  // A counter family: its name, its help text and its samples' labels and values.
  datatype Family = Family(name: string, help: string, samples: seq<(seq<Label>, nat)>)

  function SamplesOf(family: Family): seq<Sample> {
    seq(|family.samples|, k requires 0 <= k < |family.samples| =>
      Sample(family.name, family.samples[k].0, family.samples[k].1))
  }

  function SampleLines(samples: seq<Sample>): string {
    if samples == [] then "" else SampleLine(samples[0]) + SampleLines(samples[1..])
  }

  function HelpLine(family: Family): string {
    "# HELP " + family.name + " " + family.help
  }

  function TypeLine(family: Family): string {
    "# TYPE " + family.name + " counter"
  }

  function HeaderLines(family: Family): string {
    HelpLine(family) + "\n" + (TypeLine(family) + "\n")
  }

  function FamilyText(family: Family): string {
    HeaderLines(family) + SampleLines(SamplesOf(family))
  }

  function Exposition(families: seq<Family>): string {
    if families == [] then "" else FamilyText(families[0]) + Exposition(families[1..])
  }

  function LineEnd(s: string): (n: nat)
    ensures n <= |s|
    ensures forall i :: 0 <= i < n ==> s[i] != '\n'
    ensures n < |s| ==> s[n] == '\n'
  {
    if s == "" || s[0] == '\n' then 0 else 1 + LineEnd(s[1..])
  }

  // What an exposition says: its comment lines and its samples, each in order.
  datatype Page = Page(comments: seq<string>, samples: seq<Sample>)

  function Commented(line: string, page: Option<Page>): Option<Page> {
    if page.None? then None else Some(Page([line] + page.value.comments, page.value.samples))
  }

  function Sampled(sample: Option<Sample>, page: Option<Page>): Option<Page> {
    if sample.None? || page.None? then None
    else Some(Page(page.value.comments, [sample.value] + page.value.samples))
  }

  // Read an exposition line by line; None when a line is neither a comment nor a sample.
  function ReadExposition(text: string): Option<Page>
    decreases |text|
  {
    var n := LineEnd(text);
    if text == "" then Some(Page([], []))
    else if n == |text| then None
    else
      var rest := ReadExposition(text[n + 1..]);
      if text[0] == '#' then Commented(text[..n], rest) else Sampled(ParseSample(text[..n + 1]), rest)
  }

  lemma {:induction false} LineEndOf(line: string, rest: string)
    requires OneLine(line)
    ensures LineEnd(line + "\n" + rest) == |line|
  {
    if line == "" {
      assert line + "\n" + rest == "\n" + rest;
    } else {
      assert (line + "\n" + rest)[1..] == line[1..] + "\n" + rest;
      LineEndOf(line[1..], rest);
    }
  }

  lemma ReadCommentLine(line: string, rest: string)
    requires line != "" && line[0] == '#' && OneLine(line)
    ensures ReadExposition(line + "\n" + rest) == Commented(line, ReadExposition(rest))
  {
    LineEndOf(line, rest);
    assert (line + "\n" + rest)[|line| + 1..] == rest && (line + "\n" + rest)[..|line|] == line;
  }

  lemma ReadSampleLine(sample: Sample, rest: string)
    requires IsName(sample.name) && KeysOk(sample.labels)
    ensures ReadExposition(SampleLine(sample) + rest) == Sampled(Some(sample), ReadExposition(rest))
  {
    var text := SampleLine(sample);
    SampleIsOneLine(sample);
    SampleReadsBack(sample);
    var line := text[..|text| - 1];
    assert text == line + "\n";
    LineEndOf(line, rest);
    var whole := text + rest;
    assert whole == line + "\n" + rest;
    assert whole[..|line| + 1] == text && whole[|line| + 1..] == rest;
    assert whole[0] == sample.name[0];
  }

  lemma SampledThen(first: Sample, more: seq<Sample>, page: Page)
    ensures Sampled(Some(first), Some(Page(page.comments, more + page.samples)))
         == Some(Page(page.comments, [first] + more + page.samples))
  {
    Associate([first], more, page.samples);
  }

  lemma {:induction false} ReadSampleLines(samples: seq<Sample>, rest: string, after: Page)
    requires forall k :: 0 <= k < |samples| ==> IsName(samples[k].name) && KeysOk(samples[k].labels)
    requires ReadExposition(rest) == Some(after)
    ensures ReadExposition(SampleLines(samples) + rest) == Some(Page(after.comments, samples + after.samples))
  {
    if samples == [] {
      assert SampleLines(samples) + rest == rest && samples + after.samples == after.samples;
    } else {
      var first, more := samples[0], samples[1..];
      ReadSampleLines(more, rest, after);
      Associate(SampleLine(first), SampleLines(more), rest);
      ReadSampleLine(first, SampleLines(more) + rest);
      SampledThen(first, more, after);
      assert samples == [first] + more;
    }
  }

  ghost predicate FamilyOk(family: Family) {
    && IsName(family.name) && OneLine(family.help)
    && forall k :: 0 <= k < |family.samples| ==> KeysOk(family.samples[k].0)
  }

  lemma ReadHeader(family: Family, rest: string)
    requires FamilyOk(family)
    ensures ReadExposition(HeaderLines(family) + rest)
         == Commented(HelpLine(family), Commented(TypeLine(family), ReadExposition(rest)))
  {
    NamesAreOneLine(family.name);
    var help, kind := HelpLine(family), TypeLine(family);
    assert OneLine(help) && OneLine(kind);
    HeaderText(help, kind, rest);
    ReadCommentLine(help, kind + "\n" + rest);
    ReadCommentLine(kind, rest);
  }

  lemma HeaderText(help: string, kind: string, rest: string)
    ensures help + "\n" + (kind + "\n") + rest == help + "\n" + (kind + "\n" + rest)
  {
  }

  function AllComments(families: seq<Family>): seq<string> {
    if families == [] then [] else [HelpLine(families[0]), TypeLine(families[0])] + AllComments(families[1..])
  }

  function AllSamples(families: seq<Family>): seq<Sample> {
    if families == [] then [] else SamplesOf(families[0]) + AllSamples(families[1..])
  }

  lemma CommentedTwice(a: string, b: string, page: Page)
    ensures Commented(a, Commented(b, Some(page))) == Some(Page([a, b] + page.comments, page.samples))
  {
    assert [a, b] + page.comments == [a] + ([b] + page.comments);
  }

  lemma FamilyReadsBack(family: Family, rest: string, after: Page)
    requires FamilyOk(family) && ReadExposition(rest) == Some(after)
    ensures ReadExposition(FamilyText(family) + rest)
         == Some(Page([HelpLine(family), TypeLine(family)] + after.comments, SamplesOf(family) + after.samples))
  {
    var header, lines := HeaderLines(family), SampleLines(SamplesOf(family));
    var page := Page(after.comments, SamplesOf(family) + after.samples);
    assert ReadExposition(lines + rest) == Some(page) by {
      ReadSampleLines(SamplesOf(family), rest, after);
    }
    assert FamilyText(family) + rest == header + (lines + rest) by {
      Associate(header, lines, rest);
    }
    ReadHeader(family, lines + rest);
    CommentedTwice(HelpLine(family), TypeLine(family), page);
  }

  // An exposition reads back to exactly the headers and the samples of its families, in order.
  lemma {:induction false} ExpositionReadsBack(families: seq<Family>)
    requires forall f :: 0 <= f < |families| ==> FamilyOk(families[f])
    ensures ReadExposition(Exposition(families)) == Some(Page(AllComments(families), AllSamples(families)))
  {
    if families != [] {
      var more := families[1..];
      ExpositionReadsBack(more);
      FamilyReadsBack(families[0], Exposition(more), Page(AllComments(more), AllSamples(more)));
    }
  }

  // ---------- Metric prefixes ----------

  function NormalizeChar(c: char): char {
    if IsNameChar(c) then c else '_'
  }

  function NormalizeMetricPrefix(prefix: string): string {
    var normalized := seq(|prefix|, i requires 0 <= i < |prefix| => NormalizeChar(prefix[i]));
    if normalized == "" then "halo_spider"
    else if IsDigit(normalized[0]) then "_" + normalized
    else normalized
  }

  // A metric name of the text format: name characters, not beginning with a digit.
  predicate IsMetricName(s: string) {
    IsName(s) && !IsDigit(s[0])
  }

  // The prefix is always a metric name, and it is left alone exactly when it was one already.
  lemma NormalizedPrefixIsName(prefix: string)
    ensures IsMetricName(NormalizeMetricPrefix(prefix))
    ensures NormalizeMetricPrefix(prefix) == prefix <==> IsMetricName(prefix)
    ensures NormalizeMetricPrefix(NormalizeMetricPrefix(prefix)) == NormalizeMetricPrefix(prefix)
    ensures var name := NormalizeMetricPrefix(prefix);
            if prefix == "" then name == "halo_spider"
            else
              && |name| == |prefix| + (if IsDigit(prefix[0]) then 1 else 0)
              && forall i :: 0 <= i < |prefix| ==>
                   name[|name| - |prefix| + i] == if IsNameChar(prefix[i]) then prefix[i] else '_'
  {
    NameIsNormal(NormalizeMetricPrefix(prefix));
    if IsMetricName(prefix) {
      NameIsNormal(prefix);
    }
  }

  lemma NameIsNormal(prefix: string)
    requires IsMetricName(prefix)
    ensures NormalizeMetricPrefix(prefix) == prefix
  {
    var normalized := seq(|prefix|, i requires 0 <= i < |prefix| => NormalizeChar(prefix[i]));
    assert normalized == prefix;
  }

  // ---------- The scheduler metrics ----------

  datatype Counts = Counts(
    claimed: nat,
    completed: nat,
    requeued: nat,
    heartbeat: nat,
    leaseLost: nat,
    reclaimed: nat,
    released: nat,
    closed: nat)

  datatype Worker = Worker(scope: Option<string>, id: string, counts: Counts)

  datatype Snapshot = Snapshot(totals: Counts, scopes: seq<(string, Counts)>, workers: seq<Worker>)

  datatype Metric = Claim | Complete | Requeue | Heartbeat | LeaseLost | Reclaimed | Released | Closed

  const METRICS: seq<Metric> := [Claim, Complete, Requeue, Heartbeat, LeaseLost, Reclaimed, Released, Closed]

  function Word(metric: Metric): string {
    match metric
    case Claim => "claim"
    case Complete => "complete"
    case Requeue => "requeue"
    case Heartbeat => "heartbeat"
    case LeaseLost => "lease_lost"
    case Reclaimed => "reclaimed"
    case Released => "released"
    case Closed => "closed"
  }

  function HelpWord(metric: Metric): string {
    if metric.LeaseLost? then "lease-lost" else Word(metric)
  }

  function Help(metric: Metric): string {
    "Total scheduler " + HelpWord(metric) + " runtime events."
  }

  function Select(metric: Metric, counts: Counts): nat {
    match metric
    case Claim => counts.claimed
    case Complete => counts.completed
    case Requeue => counts.requeued
    case Heartbeat => counts.heartbeat
    case LeaseLost => counts.leaseLost
    case Reclaimed => counts.reclaimed
    case Released => counts.released
    case Closed => counts.closed
  }

  // Zero counts of scopes and workers are left out.
  function ScopeSamples(metric: Metric, scopes: seq<(string, Counts)>): seq<(seq<Label>, nat)> {
    if scopes == [] then []
    else
      var value := Select(metric, scopes[0].1);
      (if value == 0 then [] else [([Label("scope", scopes[0].0)], value)]) + ScopeSamples(metric, scopes[1..])
  }

  function WorkerLabels(worker: Worker): seq<Label> {
    (if worker.scope.Some? then [Label("scope", worker.scope.value)] else []) + [Label("worker_id", worker.id)]
  }

  function WorkerSamples(metric: Metric, workers: seq<Worker>): seq<(seq<Label>, nat)> {
    if workers == [] then []
    else
      var value := Select(metric, workers[0].counts);
      (if value == 0 then [] else [(WorkerLabels(workers[0]), value)]) + WorkerSamples(metric, workers[1..])
  }

  function MetricFamily(prefix: string, snapshot: Snapshot, metric: Metric): Family {
    Family(prefix + "_scheduler_runtime_" + Word(metric) + "_total", Help(metric),
           [([], Select(metric, snapshot.totals))]
           + ScopeSamples(metric, snapshot.scopes) + WorkerSamples(metric, snapshot.workers))
  }

  function SchedulerFamilies(prefix: string, snapshot: Snapshot): seq<Family> {
    seq(|METRICS|, k requires 0 <= k < |METRICS| => MetricFamily(prefix, snapshot, METRICS[k]))
  }

  ghost predicate RowsOk(rows: seq<(seq<Label>, nat)>) {
    forall k :: 0 <= k < |rows| ==> KeysOk(rows[k].0)
  }

  lemma {:induction false} ScopeSamplesOk(metric: Metric, scopes: seq<(string, Counts)>)
    ensures RowsOk(ScopeSamples(metric, scopes))
  {
    if scopes != [] {
      ScopeSamplesOk(metric, scopes[1..]);
      assert IsName("scope");
    }
  }

  lemma {:induction false} WorkerSamplesOk(metric: Metric, workers: seq<Worker>)
    ensures RowsOk(WorkerSamples(metric, workers))
  {
    if workers != [] {
      WorkerSamplesOk(metric, workers[1..]);
      assert IsName("scope") && IsName("worker_id");
    }
  }

  lemma {:induction false} ScopeSamplesAre(metric: Metric, scopes: seq<(string, Counts)>, row: (seq<Label>, nat))
    ensures row in ScopeSamples(metric, scopes)
       <==> row.1 > 0 && exists s :: s in scopes && row == ([Label("scope", s.0)], Select(metric, s.1))
  {
    if scopes != [] {
      ScopeSamplesAre(metric, scopes[1..], row);
      assert forall s :: s in scopes <==> s == scopes[0] || s in scopes[1..];
    }
  }

  lemma {:induction false} WorkerSamplesAre(metric: Metric, workers: seq<Worker>, row: (seq<Label>, nat))
    ensures row in WorkerSamples(metric, workers)
       <==> row.1 > 0 && exists w :: w in workers && row == (WorkerLabels(w), Select(metric, w.counts))
  {
    if workers != [] {
      WorkerSamplesAre(metric, workers[1..], row);
      assert forall w :: w in workers <==> w == workers[0] || w in workers[1..];
    }
  }

  // A metric shows its total, and every non-zero count of a scope or a worker, and nothing else.
  lemma FamilyRowsAre(prefix: string, snapshot: Snapshot, metric: Metric, row: (seq<Label>, nat))
    ensures row in MetricFamily(prefix, snapshot, metric).samples
       <==> || row == ([], Select(metric, snapshot.totals))
            || (row.1 > 0 && exists s :: s in snapshot.scopes && row == ([Label("scope", s.0)], Select(metric, s.1)))
            || (row.1 > 0 && exists w :: w in snapshot.workers && row == (WorkerLabels(w), Select(metric, w.counts)))
  {
    ScopeSamplesAre(metric, snapshot.scopes, row);
    WorkerSamplesAre(metric, snapshot.workers, row);
  }

  lemma HelpIsOneLine(metric: Metric)
    ensures OneLine(Help(metric))
  {
    NamesAreOneLine(Word(metric));
    assert OneLine("lease-lost");
    assert OneLine("Total scheduler ") && OneLine(" runtime events.");
  }

  lemma MetricNameIsName(prefix: string, metric: Metric)
    requires IsName(prefix)
    ensures IsName(prefix + "_scheduler_runtime_" + Word(metric) + "_total")
  {
    assert AllNameChars("_scheduler_runtime_") && AllNameChars("_total");
  }

  lemma MetricFamilyOk(prefix: string, snapshot: Snapshot, metric: Metric)
    requires IsName(prefix)
    ensures FamilyOk(MetricFamily(prefix, snapshot, metric))
  {
    MetricNameIsName(prefix, metric);
    HelpIsOneLine(metric);
    ScopeSamplesOk(metric, snapshot.scopes);
    WorkerSamplesOk(metric, snapshot.workers);
  }

  // ---------- The rendering loops ----------

  function RowLines(name: string, rows: seq<(seq<Label>, nat)>): string {
    if rows == [] then "" else SampleLine(Sample(name, rows[0].0, rows[0].1)) + RowLines(name, rows[1..])
  }

  lemma {:induction false} RowLinesAppend(name: string, a: seq<(seq<Label>, nat)>, b: seq<(seq<Label>, nat)>)
    ensures RowLines(name, a + b) == RowLines(name, a) + RowLines(name, b)
  {
    if a == [] {
      assert a + b == b;
    } else {
      assert (a + b)[1..] == a[1..] + b;
      RowLinesAppend(name, a[1..], b);
      Associate(SampleLine(Sample(name, a[0].0, a[0].1)), RowLines(name, a[1..]), RowLines(name, b));
    }
  }

  lemma {:induction false} RowLinesAreSamples(family: Family)
    ensures RowLines(family.name, family.samples) == SampleLines(SamplesOf(family))
    decreases |family.samples|
  {
    if family.samples != [] {
      var rest := family.(samples := family.samples[1..]);
      RowLinesAreSamples(rest);
      assert SamplesOf(family)[1..] == SamplesOf(rest);
    }
  }

  // One step of a loop over rows that are left out when their count is zero.
  lemma NextRow(written: string, name: string, labels: seq<Label>, value: nat, rest: seq<(seq<Label>, nat)>)
    ensures var rows := (if value == 0 then [] else [(labels, value)]) + rest;
            var next := if value == 0 then written else written + SampleLine(Sample(name, labels, value));
            next + RowLines(name, rest) == written + RowLines(name, rows)
  {
    if value == 0 {
      assert [] + rest == rest;
    } else {
      Associate(written, SampleLine(Sample(name, labels, value)), RowLines(name, rest));
    }
  }

  method RenderScopes(output: string, name: string, metric: Metric, scopes: seq<(string, Counts)>)
    returns (written: string)
    ensures written == output + RowLines(name, ScopeSamples(metric, scopes))
  {
    written := output;
    assert scopes[0..] == scopes;
    for k := 0 to |scopes|
      invariant written + RowLines(name, ScopeSamples(metric, scopes[k..]))
                == output + RowLines(name, ScopeSamples(metric, scopes))
    {
      assert scopes[k..][1..] == scopes[k + 1..];
      var (scope, counts) := scopes[k];
      var value := Select(metric, counts);
      NextRow(written, name, [Label("scope", scope)], value, ScopeSamples(metric, scopes[k + 1..]));
      if value == 0 {
        continue;
      }
      written := WriteMetricSample(written, name, [Label("scope", scope)], value);
    }
    assert written + "" == written;
  }

  method CollectLabels(worker: Worker) returns (labels: seq<Label>)
    ensures labels == WorkerLabels(worker)
  {
    labels := [];
    if worker.scope.Some? {
      labels := labels + [Label("scope", worker.scope.value)];
    }
    labels := labels + [Label("worker_id", worker.id)];
  }

  method RenderWorkers(output: string, name: string, metric: Metric, workers: seq<Worker>) returns (written: string)
    ensures written == output + RowLines(name, WorkerSamples(metric, workers))
  {
    written := output;
    assert workers[0..] == workers;
    for k := 0 to |workers|
      invariant written + RowLines(name, WorkerSamples(metric, workers[k..]))
             == output + RowLines(name, WorkerSamples(metric, workers))
    {
      assert workers[k..][1..] == workers[k + 1..];
      var worker := workers[k];
      var value := Select(metric, worker.counts);
      NextRow(written, name, WorkerLabels(worker), value, WorkerSamples(metric, workers[k + 1..]));
      if value == 0 {
        continue;
      }
      var labels := CollectLabels(worker);
      written := WriteMetricSample(written, name, labels, value);
    }
    assert written + "" == written;
  }

  lemma FamilyTextIs(output: string, prefix: string, snapshot: Snapshot, metric: Metric)
    ensures var family := MetricFamily(prefix, snapshot, metric);
            output + FamilyText(family)
            == output + HeaderLines(family) + SampleLine(Sample(family.name, [], Select(metric, snapshot.totals)))
               + RowLines(family.name, ScopeSamples(metric, snapshot.scopes))
               + RowLines(family.name, WorkerSamples(metric, snapshot.workers))
  {
    var family := MetricFamily(prefix, snapshot, metric);
    var total := Select(metric, snapshot.totals);
    var scopes, workers := ScopeSamples(metric, snapshot.scopes), WorkerSamples(metric, snapshot.workers);
    RowLinesAreSamples(family);
    RowLinesAppend(family.name, [([], total)] + scopes, workers);
    FourTexts(output, HeaderLines(family), SampleLine(Sample(family.name, [], total)),
              RowLines(family.name, scopes), RowLines(family.name, workers));
  }

  lemma FourTexts(output: string, a: string, b: string, c: string, d: string)
    ensures output + (a + ((b + c) + d)) == output + a + b + c + d
  {
  }

  method RenderMetric(output: string, prefix: string, snapshot: Snapshot, metric: Metric) returns (written: string)
    ensures written == output + FamilyText(MetricFamily(prefix, snapshot, metric))
  {
    var name := prefix + "_scheduler_runtime_" + Word(metric) + "_total";
    written := output + ("# HELP " + name + " " + Help(metric) + "\n" + ("# TYPE " + name + " counter" + "\n"));
    written := WriteMetricSample(written, name, [], Select(metric, snapshot.totals));
    written := RenderScopes(written, name, metric, snapshot.scopes);
    written := RenderWorkers(written, name, metric, snapshot.workers);
    FamilyTextIs(output, prefix, snapshot, metric);
  }

  method RenderSchedulerMetrics(output: string, prefix: string, snapshot: Snapshot) returns (written: string)
    ensures written == output + Exposition(SchedulerFamilies(prefix, snapshot))
  {
    ghost var families := SchedulerFamilies(prefix, snapshot);
    written := output;
    assert families[0..] == families;
    for m := 0 to |METRICS|
      invariant written + Exposition(families[m..]) == output + Exposition(families)
    {
      assert families[m..][1..] == families[m + 1..];
      Associate(written, FamilyText(families[m]), Exposition(families[m + 1..]));
      written := RenderMetric(written, prefix, snapshot, METRICS[m]);
    }
    assert written + "" == written;
  }

  // The scheduler metrics, rendered under any prefix and for any scopes and worker names, read back to the
  // total and every non-zero count of every metric.
  lemma SchedulerMetricsReadBack(prefix: string, snapshot: Snapshot)
    ensures var families := SchedulerFamilies(NormalizeMetricPrefix(prefix), snapshot);
            ReadExposition(Exposition(families)) == Some(Page(AllComments(families), AllSamples(families)))
  {
    var families := SchedulerFamilies(NormalizeMetricPrefix(prefix), snapshot);
    NormalizedPrefixIsName(prefix);
    forall f | 0 <= f < |families|
      ensures FamilyOk(families[f])
    {
      MetricFamilyOk(NormalizeMetricPrefix(prefix), snapshot, METRICS[f]);
    }
    ExpositionReadsBack(families);
  }

  // ---------- Which count stands under which name ----------

  // The word in the name of each metric, the one in its help text, and the count it is about.
  const COUNTS: seq<(string, string, Counts -> nat)> := [
    ("claim", "claim", (c: Counts) => c.claimed),
    ("complete", "complete", (c: Counts) => c.completed),
    ("requeue", "requeue", (c: Counts) => c.requeued),
    ("heartbeat", "heartbeat", (c: Counts) => c.heartbeat),
    ("lease_lost", "lease-lost", (c: Counts) => c.leaseLost),
    ("reclaimed", "reclaimed", (c: Counts) => c.reclaimed),
    ("released", "released", (c: Counts) => c.released),
    ("closed", "closed", (c: Counts) => c.closed)]

  predicate NamesWorker(labels: seq<Label>, worker: Worker) {
    if worker.scope.None? then labels == [Label("worker_id", worker.id)]
    else labels == [Label("scope", worker.scope.value), Label("worker_id", worker.id)]
  }

  // The total stands without labels, a non-zero count of a scope under the scope, and one of a worker under its
  // scope, if it has one, and its name.
  ghost predicate Shown(snapshot: Snapshot, pick: Counts -> nat, labels: seq<Label>, value: nat) {
    || (labels == [] && value == pick(snapshot.totals))
    || (value > 0 && exists s :: s in snapshot.scopes && value == pick(s.1) && labels == [Label("scope", s.0)])
    || (value > 0 && exists w :: w in snapshot.workers && value == pick(w.counts) && NamesWorker(labels, w))
  }

  lemma CountsAreSelected(k: nat)
    requires k < |METRICS|
    ensures COUNTS[k].0 == Word(METRICS[k]) && COUNTS[k].1 == HelpWord(METRICS[k])
    ensures forall c :: COUNTS[k].2(c) == Select(METRICS[k], c)
  {
  }

  lemma WordsDiffer(a: Metric, b: Metric)
    requires Word(a) == Word(b)
    ensures a == b
  {
    assert |Word(a)| == |Word(b)| && Word(a)[0] == Word(b)[0];
  }

  function MetricName(prefix: string, word: string): string {
    prefix + "_scheduler_runtime_" + word + "_total"
  }

  lemma NamesDiffer(prefix: string, a: string, b: string)
    requires MetricName(prefix, a) == MetricName(prefix, b)
    ensures a == b
  {
    var n := |prefix + "_scheduler_runtime_"|;
    assert MetricName(prefix, a)[n..n + |a|] == a && MetricName(prefix, b)[n..n + |b|] == b;
  }

  lemma {:induction false} AllSamplesHas(families: seq<Family>, sample: Sample)
    ensures sample in AllSamples(families) <==> exists f :: f in families && sample in SamplesOf(f)
  {
    if families != [] {
      AllSamplesHas(families[1..], sample);
      assert forall f :: f in families <==> f == families[0] || f in families[1..];
    }
  }

  lemma SamplesOfHas(family: Family, name: string, labels: seq<Label>, value: nat)
    ensures Sample(name, labels, value) in SamplesOf(family)
       <==> name == family.name && (labels, value) in family.samples
  {
    if name == family.name && (labels, value) in family.samples {
      var k :| 0 <= k < |family.samples| && family.samples[k] == (labels, value);
      assert SamplesOf(family)[k] == Sample(name, labels, value);
    }
  }

  lemma OnlyFamilyOfItsName(families: seq<Family>, k: nat, labels: seq<Label>, value: nat)
    requires k < |families| && forall m :: 0 <= m < |families| && families[m].name == families[k].name ==> m == k
    ensures Sample(families[k].name, labels, value) in AllSamples(families)
       <==> (labels, value) in families[k].samples
  {
    var sample := Sample(families[k].name, labels, value);
    AllSamplesHas(families, sample);
    forall m | 0 <= m < |families|
      ensures sample in SamplesOf(families[m]) <==> m == k && (labels, value) in families[k].samples
    {
      SamplesOfHas(families[m], sample.name, labels, value);
    }
    assert families[k] in families;
  }

  lemma SamplesUnderName(prefix: string, snapshot: Snapshot, k: nat, labels: seq<Label>, value: nat)
    requires k < |METRICS|
    ensures Sample(MetricName(prefix, Word(METRICS[k])), labels, value)
              in AllSamples(SchedulerFamilies(prefix, snapshot))
       <==> (labels, value) in MetricFamily(prefix, snapshot, METRICS[k]).samples
  {
    var families := SchedulerFamilies(prefix, snapshot);
    forall m | 0 <= m < |families| && families[m].name == families[k].name
      ensures m == k
    {
      NamesDiffer(prefix, Word(METRICS[m]), Word(METRICS[k]));
      WordsDiffer(METRICS[m], METRICS[k]);
    }
    OnlyFamilyOfItsName(families, k, labels, value);
  }

  lemma RowsAreShown(prefix: string, snapshot: Snapshot, k: nat, labels: seq<Label>, value: nat)
    requires k < |METRICS|
    ensures (labels, value) in MetricFamily(prefix, snapshot, METRICS[k]).samples
       <==> Shown(snapshot, COUNTS[k].2, labels, value)
  {
    CountsAreSelected(k);
    FamilyRowsAre(prefix, snapshot, METRICS[k], (labels, value));
    forall w: Worker
      ensures labels == WorkerLabels(w) <==> NamesWorker(labels, w)
    {
    }
  }

  lemma {:induction false} CommentsAre(families: seq<Family>, k: nat)
    requires k < |families|
    ensures |AllComments(families)| == 2 * |families|
    ensures AllComments(families)[2 * k..2 * k + 2] == [HelpLine(families[k]), TypeLine(families[k])]
  {
    if |families| > 1 {
      CommentsAre(families[1..], if k == 0 then 0 else k - 1);
    }
  }

  // Under the name of each metric the rendered text, read back, shows the counts that metric is about, and no other
  // sample.
  lemma NamesShowTheirCounts(prefix: string, snapshot: Snapshot, k: nat, labels: seq<Label>, value: nat)
    requires k < |COUNTS|
    ensures var name := NormalizeMetricPrefix(prefix) + "_scheduler_runtime_" + COUNTS[k].0 + "_total";
            var page := ReadExposition(Exposition(SchedulerFamilies(NormalizeMetricPrefix(prefix), snapshot)));
            && page.Some?
            && (Sample(name, labels, value) in page.value.samples <==> Shown(snapshot, COUNTS[k].2, labels, value))
  {
    SchedulerMetricsReadBack(prefix, snapshot);
    CountsAreSelected(k);
    SamplesUnderName(NormalizeMetricPrefix(prefix), snapshot, k, labels, value);
    RowsAreShown(NormalizeMetricPrefix(prefix), snapshot, k, labels, value);
  }

  lemma HeaderOfMetric(prefix: string, snapshot: Snapshot, k: nat)
    requires k < |METRICS|
    ensures var family := MetricFamily(prefix, snapshot, METRICS[k]);
            var name := prefix + "_scheduler_runtime_" + COUNTS[k].0 + "_total";
            && HelpLine(family) == "# HELP " + name + " " + ("Total scheduler " + COUNTS[k].1 + " runtime events.")
            && TypeLine(family) == "# TYPE " + name + " counter"
  {
    CountsAreSelected(k);
  }

  // Its comments name each metric, say what it counts and declare it a counter, and nothing else.
  lemma HeadersNameTheMetrics(prefix: string, snapshot: Snapshot, k: nat)
    requires k < |COUNTS|
    ensures var name := NormalizeMetricPrefix(prefix) + "_scheduler_runtime_" + COUNTS[k].0 + "_total";
            var page := ReadExposition(Exposition(SchedulerFamilies(NormalizeMetricPrefix(prefix), snapshot)));
            && page.Some? && |page.value.comments| == 2 * |COUNTS|
            && page.value.comments[2 * k..2 * k + 2]
               == ["# HELP " + name + " " + ("Total scheduler " + COUNTS[k].1 + " runtime events."),
                   "# TYPE " + name + " counter"]
  {
    SchedulerMetricsReadBack(prefix, snapshot);
    CommentsAre(SchedulerFamilies(NormalizeMetricPrefix(prefix), snapshot), k);
    HeaderOfMetric(NormalizeMetricPrefix(prefix), snapshot, k);
  }

  // ---------- The telemetry window ----------

  datatype Event<S, R> = Stats(snapshot: S) | Scheduler(event: R)

  function LastOf<T>(s: seq<T>, n: nat): seq<T> {
    if |s| <= n then s else s[|s| - n..]
  }

  class Collector<S, R> {
    const limit: nat
    var stats: S
    var recent: seq<Event<S, R>>

    constructor (limit: nat, stats: S)
      ensures this.limit == limit && this.stats == stats && recent == []
    {
      this.limit := limit;
      this.stats := stats;
      recent := [];
    }

    method Export(event: Event<S, R>)
      modifies this
      ensures stats == if event.Stats? then event.snapshot else old(stats)
      ensures recent == if limit == 0 then old(recent) else LastOf(old(recent) + [event], limit)
    {
      if event.Stats? {
        stats := event.snapshot;
      }
      if limit > 0 {
        while |recent| >= limit
          invariant |recent| <= |old(recent)| && recent == old(recent)[|old(recent)| - |recent|..]
          invariant |old(recent)| < limit ==> recent == old(recent)
          invariant |old(recent)| >= limit ==> |recent| >= limit - 1
          invariant stats == if event.Stats? then event.snapshot else old(stats)
        {
          recent := recent[1..];
        }
        recent := recent + [event];
      }
    }
  }

  // The window and the statistics after a run of exports.
  function WindowAfter<S, R>(limit: nat, events: seq<Event<S, R>>): seq<Event<S, R>> {
    if events == [] || limit == 0 then []
    else LastOf(WindowAfter(limit, events[..|events| - 1]) + [events[|events| - 1]], limit)
  }

  lemma LastOfMore<T>(front: seq<T>, last: T, limit: nat)
    requires limit > 0
    ensures var before, all := front[|front| - Min(limit, |front|)..], front + [last];
            LastOf(before + [last], limit) == all[|all| - Min(limit, |all|)..]
  {
    var before := front[|front| - Min(limit, |front|)..];
    if |front| >= limit {
      assert (before + [last])[1..] == before[1..] + [last];
    } else {
      assert before == front;
    }
  }

  // After any run the window holds exactly the last `limit` events.
  lemma {:induction false} WindowIsSuffix<S, R>(limit: nat, events: seq<Event<S, R>>)
    ensures WindowAfter(limit, events) == events[|events| - Min(limit, |events|)..]
  {
    if limit > 0 && events != [] {
      var front, last := events[..|events| - 1], events[|events| - 1];
      WindowIsSuffix(limit, front);
      LastOfMore(front, last, limit);
      assert events == front + [last];
    }
  }
}
