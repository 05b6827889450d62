/**
 The text of robots.txt against the lines the parser reads from it (src/robots.rs): every layout of a
 directive is read as that directive, nothing else is, and a printed file reads back.
 */
module RobotsText {
  import opened Prelude
  import opened RuleRegex
  import opened RobotsParse

  // ---------- Trimming ----------

  predicate AllSpace(s: string) {
    forall i :: 0 <= i < |s| ==> IsSpace(s[i])
  }

  predicate Trimmed(s: string) {
    s == "" || (!IsSpace(s[0]) && !IsSpace(s[|s| - 1]))
  }

  lemma {:induction false} TrimEndSplits(s: string) returns (q: string)
    ensures AllSpace(q) && s == TrimEnd(s) + q
    ensures TrimEnd(s) != "" ==> !IsSpace(TrimEnd(s)[|TrimEnd(s)| - 1])
  {
    if s != "" && IsSpace(s[|s| - 1]) {
      var more := TrimEndSplits(s[..|s| - 1]);
      q := more + [s[|s| - 1]];
    } else {
      q := "";
    }
  }

  lemma {:induction false} TrimStartSplits(s: string) returns (p: string)
    ensures AllSpace(p) && s == p + TrimStart(s)
    ensures TrimStart(s) != "" ==> !IsSpace(TrimStart(s)[0])
  {
    if s != "" && IsSpace(s[0]) {
      var more := TrimStartSplits(s[1..]);
      p := [s[0]] + more;
    } else {
      p := "";
    }
  }

  lemma TrimSplits(s: string) returns (p: string, q: string)
    ensures AllSpace(p) && AllSpace(q) && Trimmed(Trim(s)) && s == p + Trim(s) + q
  {
    q := TrimEndSplits(s);
    p := TrimStartSplits(TrimEnd(s));
    var kept, t := TrimEnd(s), Trim(s);
    assert t != "" ==> t[|t| - 1] == kept[|kept| - 1];
  }

  // The trimmed core of a padded text is unique.
  lemma CoreIsUnique(p: string, t: string, q: string, a: string, u: string, b: string)
    requires AllSpace(p) && AllSpace(q) && Trimmed(t) && AllSpace(a) && AllSpace(b) && Trimmed(u)
    requires p + t + q == a + u + b
    ensures t == u
  {
    var s := p + t + q;
    assert forall i :: 0 <= i < |p| ==> s[i] == p[i];
    assert forall i :: 0 <= i < |a| ==> s[i] == a[i];
    assert forall i :: 0 <= i < |q| ==> s[|p| + |t| + i] == q[i];
    assert forall i :: 0 <= i < |b| ==> s[|a| + |u| + i] == b[i];
    assert forall i :: 0 <= i < |t| ==> s[|p| + i] == t[i];
    assert forall i :: 0 <= i < |u| ==> s[|a| + i] == u[i];
    assert t == "" || u == "" ==> AllSpace(s);
    if t != "" && u != "" {
      assert s[|p|] == t[0] && s[|a|] == u[0];
      assert s[|p| + |t| - 1] == t[|t| - 1] && s[|a| + |u| - 1] == u[|u| - 1];
      assert |p| == |a| && |t| == |u|;
    }
  }

  lemma TrimOfPadded(p: string, s: string, q: string)
    requires AllSpace(p) && AllSpace(q)
    ensures Trim(p + s + q) == Trim(s)
  {
    var a, b := TrimSplits(p + s + q);
    var u, v := TrimSplits(s);
    assert p + s + q == (p + u) + Trim(s) + (v + q);
    CoreIsUnique(a, Trim(p + s + q), b, p + u, Trim(s), v + q);
  }

  lemma TrimOfTrimmed(s: string)
    requires Trimmed(s)
    ensures Trim(s) == s
  {
    var p, q := TrimSplits(s);
    assert s == "" + s + "";
    CoreIsUnique(p, Trim(s), q, "", s, "");
  }

  // ---------- Layouts of a directive ----------

  const BOM: string := ['\U{FEFF}']

  datatype Layout = Layout(
    bom: string,
    indent: string,
    beforeColon: string,
    behindColon: string,
    behind: string,
    comment: string)

  function Spell(layout: Layout, name: string, value: string): string {
    layout.bom
    + (layout.indent + name + layout.beforeColon + ":" + (layout.behindColon + value + layout.behind))
    + layout.comment
  }

  predicate LayoutOk(layout: Layout, name: string) {
    && (layout.bom == "" || layout.bom == BOM)
    && AllSpace(layout.indent) && AllSpace(layout.beforeColon) && AllSpace(layout.behindColon)
        && AllSpace(layout.behind)
    && (layout.comment == "" || layout.comment[0] == '#')
    && (layout.bom == "" && layout.indent == "" && name != "" ==> name[0] != BOM[0])
  }

  predicate NameOk(name: string) {
    Trimmed(name) && ':' !in name && '#' !in name
  }

  predicate ValueOk(value: string) {
    Trimmed(value) && '#' !in value
  }

  ghost predicate Spelled(raw: string, name: string, value: string) {
    NameOk(name) && ValueOk(value) && exists layout :: LayoutOk(layout, name) && raw == Spell(layout, name, value)
  }

  lemma SpacesHoldNoMarks(s: string)
    requires AllSpace(s)
    ensures '#' !in s && ':' !in s && (s != "" ==> s[0] != BOM[0])
  {
  }

  // The first colon of a padded text lies in its core.
  lemma ColonInside(x: string, y: string, a: string, line: string, b: string)
    requires x + ":" + y == a + line + b && AllSpace(a) && AllSpace(b)
    ensures |a| <= |x| < |a| + |line|
  {
    var core := x + ":" + y;
    assert core[|x|] == ':' && !IsSpace(':');
    assert forall i :: 0 <= i < |a| ==> core[i] == a[i];
    assert forall i :: |a| + |line| <= i < |core| ==> core[i] == b[i - |a| - |line|];
  }

  lemma CutAtColon(x: string, y: string, a: string, line: string, b: string, n: nat)
    requires x + ":" + y == a + line + b && n < |line| && |x| == |a| + n
    ensures x == a + line[..n] && line[n] == ':' && y == line[n + 1..] + b
  {
    var core := x + ":" + y;
    assert core[..|x|] == x && core[|x|] == ':' && core[|x| + 1..] == y;
    assert (a + line + b)[..|x|] == a + line[..n] && (a + line + b)[|x| + 1..] == line[n + 1..] + b;
  }

  lemma FirstColon(line: string, n: nat, x: string, a: string)
    requires n < |line| && line[n] == ':' && ':' !in x && x == a + line[..n]
    ensures Find(line, ':') == n
  {
    forall i | 0 <= i < n
      ensures line[i] != ':'
    {
      assert x[|a| + i] == line[i];
    }
    FindIs(line, ':', n);
  }

  lemma TrimOfHalves(x: string, y: string, a: string, left: string, right: string, b: string)
    requires AllSpace(a) && AllSpace(b) && x == a + left && y == right + b
    ensures Trim(left) == Trim(x) && Trim(right) == Trim(y)
  {
    assert x == a + left + "" && y == "" + right + b;
    TrimOfPadded(a, left, "");
    TrimOfPadded("", right, b);
  }

  // A line with a colon, whatever was trimmed off both ends.
  lemma ColonSplits(x: string, y: string)
    requires ':' !in x
    ensures var line := Trim(x + ":" + y); var n := Find(line, ':');
            n < |line| && Trim(line[..n]) == Trim(x) && Trim(line[n + 1..]) == Trim(y)
  {
    var a, b := TrimSplits(x + ":" + y);
    var line := Trim(x + ":" + y);
    ColonInside(x, y, a, line, b);
    var n := |x| - |a|;
    CutAtColon(x, y, a, line, b, n);
    FirstColon(line, n, x, a);
    TrimOfHalves(x, y, a, line[..n], line[n + 1..], b);
  }

  lemma StripsToCore(layout: Layout, core: string)
    requires layout.bom == "" || layout.bom == BOM
    requires layout.comment == "" || layout.comment[0] == '#'
    requires '#' !in core && (layout.bom == "" && core != "" ==> core[0] != BOM[0])
    ensures StripBom(StripComment(layout.bom + core + layout.comment)) == core
  {
    var raw, n := layout.bom + core + layout.comment, |layout.bom| + |core|;
    assert forall i :: 0 <= i < n ==> raw[i] == (layout.bom + core)[i];
    FindIs(raw, '#', n);
    assert raw[..n] == layout.bom + core;
  }

  lemma CoreIsClean(layout: Layout, name: string, value: string)
    requires LayoutOk(layout, name) && NameOk(name) && ValueOk(value)
    ensures var x, y := layout.indent + name + layout.beforeColon, layout.behindColon + value + layout.behind;
            ':' !in x && '#' !in x + ":" + y && (layout.bom == "" ==> (x + ":" + y)[0] != BOM[0])
  {
    SpacesHoldNoMarks(layout.indent);
    SpacesHoldNoMarks(layout.beforeColon);
    SpacesHoldNoMarks(layout.behindColon);
    SpacesHoldNoMarks(layout.behind);
    var x, y := layout.indent + name + layout.beforeColon, layout.behindColon + value + layout.behind;
    var core := x + ":" + y;
    if layout.indent != "" {
      assert core[0] == layout.indent[0];
    } else if name != "" {
      assert core[0] == name[0];
    } else if layout.beforeColon != "" {
      assert core[0] == layout.beforeColon[0];
    } else {
      assert core[0] == ':';
    }
  }

  lemma ReadLineSplits(raw: string, x: string, y: string)
    requires StripBom(StripComment(raw)) == x + ":" + y && ':' !in x
    ensures ReadLine(raw) == Directive(Lower(Trim(x)), Trim(y))
  {
    ColonSplits(x, y);
  }

  // Any byte-order mark, indentation, spaces around the colon, trailing space and comment.
  lemma SpelledLineReads(layout: Layout, name: string, value: string)
    requires LayoutOk(layout, name) && NameOk(name) && ValueOk(value)
    ensures ReadLine(Spell(layout, name, value)) == Directive(Lower(name), value)
  {
    var x, y := layout.indent + name + layout.beforeColon, layout.behindColon + value + layout.behind;
    CoreIsClean(layout, name, value);
    StripsToCore(layout, x + ":" + y);
    ReadLineSplits(Spell(layout, name, value), x, y);
    TrimOfPadded(layout.indent, name, layout.beforeColon);
    TrimOfPadded(layout.behindColon, value, layout.behind);
    TrimOfTrimmed(name);
    TrimOfTrimmed(value);
  }

  lemma DirectiveIsNotBlank(name: string, value: string)
    ensures Directive(name, value) != Blank
  {
  }

  // What stands in front of a comment, behind a byte-order mark, and in the comment.
  lemma CommentSplits(raw: string) returns (bom: string, comment: string)
    ensures bom == "" || bom == BOM
    ensures comment == "" || comment[0] == '#'
    ensures raw == bom + StripBom(StripComment(raw)) + comment && '#' !in StripComment(raw)
    ensures StripComment(raw) == bom + StripBom(StripComment(raw))
    ensures bom == "" && StripComment(raw) != "" ==> StripComment(raw)[0] != BOM[0]
  {
    var kept := StripComment(raw);
    bom, comment := kept[..|kept| - |StripBom(kept)|], raw[|kept|..];
  }

  lemma CutAt(s: string, n: nat)
    requires n < |s|
    ensures s == s[..n] + [s[n]] + s[n + 1..]
  {
  }

  lemma CutAtFirstColon(line: string)
    requires ':' in line
    ensures var n := Find(line, ':');
            n < |line| && ':' !in line[..n] && line == line[..n] + ":" + line[n + 1..]
  {
    var n := Find(line, ':');
    assert n < |line|;
    CutAt(line, n);
    assert [line[n]] == ":";
  }

  lemma TrimHoldsNo(s: string, c: char)
    requires c !in s
    ensures c !in Trim(s)
  {
    var p, q := TrimSplits(s);
    assert forall i :: 0 <= i < |Trim(s)| ==> Trim(s)[i] == s[|p| + i];
  }

  // A text with a colon, cut at the first one and trimmed on both sides of it.
  lemma CoreSplits(core: string)
    returns (indent: string, name: string, beforeColon: string, behindColon: string, value: string, behind: string)
    requires ':' in Trim(core)
    ensures AllSpace(indent) && AllSpace(beforeColon) && AllSpace(behindColon) && AllSpace(behind)
    ensures Trimmed(name) && ':' !in name && Trimmed(value)
    ensures core == indent + name + beforeColon + ":" + (behindColon + value + behind)
  {
    var line := Trim(core);
    var n := Find(line, ':');
    CutAtFirstColon(line);
    var left, right := line[..n], line[n + 1..];
    TrimHoldsNo(left, ':');
    var a, b := TrimSplits(core);
    var u, v := TrimSplits(left);
    var w, z := TrimSplits(right);
    indent, name, beforeColon, behindColon, value, behind := a + u, Trim(left), v, w, Trim(right), z + b;
    Regroup(a, b, u, name, v, w, value, z);
  }

  // The layout of a line with a colon.
  lemma LayoutOf(raw: string) returns (layout: Layout, name: string, value: string)
    requires ':' in Trim(StripBom(StripComment(raw)))
    ensures NameOk(name) && ValueOk(value) && LayoutOk(layout, name) && raw == Spell(layout, name, value)
  {
    var core := StripBom(StripComment(raw));
    var bom, comment := CommentSplits(raw);
    var indent, name', beforeColon, behindColon, value', behind := CoreSplits(core);
    name, value := name', value';
    layout := Layout(bom, indent, beforeColon, behindColon, behind, comment);
    PiecesHoldNo(core, indent, name, beforeColon, behindColon, value, behind);
    assert forall c :: c in core ==> c in StripComment(raw);
    assert indent == "" && name != "" ==> core[0] == name[0];
  }

  lemma Regroup(a: string, b: string, u: string, name: string, v: string, w: string, value: string, z: string)
    ensures a + (u + name + v + ":" + (w + value + z)) + b == (a + u) + name + v + ":" + (w + value + (z + b))
  {
  }

  lemma PiecesHoldNo(core: string, a: string, name: string, b: string, c: string, value: string, d: string)
    requires core == a + name + b + ":" + (c + value + d)
    ensures forall x :: x in name || x in value ==> x in core
  {
  }

  /**
   A line is read as a directive exactly when it spells one: in any layout and any case of the name, and
   in no other way.  Lines without a colon are blank or noise.
   */
  lemma LinesAreSpellings(raw: string, line: Line)
    requires line != Blank && line != Noise
    ensures ReadLine(raw) == line
            <==> exists name, value :: Spelled(raw, name, value) && Directive(Lower(name), value) == line
  {
    if ReadLine(raw) == line {
      var text := Trim(StripBom(StripComment(raw)));
      assert text[Find(text, ':')] == ':';
      var layout, name, value := LayoutOf(raw);
      SpelledLineReads(layout, name, value);
      assert Spelled(raw, name, value);
    }
    if name, value :| Spelled(raw, name, value) && Directive(Lower(name), value) == line {
      var layout :| LayoutOk(layout, name) && raw == Spell(layout, name, value);
      SpelledLineReads(layout, name, value);
    }
  }

  // A line ends a group exactly when it holds nothing but space in front of its comment.
  lemma BlankLinesAre(raw: string)
    ensures ReadLine(raw) == Blank <==> AllSpace(StripBom(StripComment(raw)))
  {
    var text := StripBom(StripComment(raw));
    var p, q := TrimSplits(text);
    var line := Trim(text);
    if line == "" {
      assert text == p + q;
    } else {
      assert text[|p|] == line[0];
      if Find(line, ':') < |line| {
        DirectiveIsNotBlank(Lower(Trim(line[..Find(line, ':')])), Trim(line[Find(line, ':') + 1..]));
      }
    }
  }

  // ---------- Printing a file ----------

  function NameOf(line: Line): string {
    match line
    case UserAgent(_) => "user-agent"
    case Access(kind, _) => if kind == Allow then "allow" else "disallow"
    case CrawlDelay(_) => "crawl-delay"
    case RequestRate(_) => "request-rate"
    case Sitemap(_) => "sitemap"
    case _ => ""
  }

  predicate Printable(line: Line) {
    line != Noise && (line != Blank ==> ValueOk(line.value) && '\n' !in line.value)
  }

  function PrintLine(line: Line): string {
    if line == Blank || line == Noise then "" else NameOf(line) + ": " + line.value
  }

  function Print(lines: seq<Line>): string {
    if lines == [] then "" else PrintLine(lines[0]) + "\n" + Print(lines[1..])
  }

  predicate IsDirectiveChar(c: char) {
    'a' <= c <= 'z' || c == '-'
  }

  lemma NameOfIsPlain(line: Line)
    ensures forall i :: 0 <= i < |NameOf(line)| ==> IsDirectiveChar(NameOf(line)[i])
  {
  }

  lemma NameOfReads(line: Line)
    requires line != Blank && line != Noise
    ensures Directive(NameOf(line), line.value) == line && NameOf(line) != ""
  {
  }

  lemma PlainName(name: string)
    requires forall i :: 0 <= i < |name| ==> IsDirectiveChar(name[i])
    ensures NameOk(name) && Lower(name) == name && '\n' !in name && (name != "" ==> name[0] != BOM[0])
  {
  }

  lemma PrintedLineReads(line: Line)
    requires Printable(line)
    ensures ReadLine(PrintLine(line)) == line && '\n' !in PrintLine(line)
  {
    if line == Blank {
      EmptyLineIsBlank();
    } else {
      var name, layout := NameOf(line), Layout("", "", "", " ", "", "");
      NameOfIsPlain(line);
      PlainName(name);
      NameOfReads(line);
      SpelledLineReads(layout, name, line.value);
      PrintedIsSpelled(name, line.value);
    }
  }

  lemma PrintedIsSpelled(name: string, value: string)
    ensures Spell(Layout("", "", "", " ", "", ""), name, value) == name + ": " + value
  {
    assert ": " == ":" + " ";
  }

  lemma {:induction false} PrintedLinesRead(lines: seq<Line>)
    requires forall k :: 0 <= k < |lines| ==> Printable(lines[k])
    ensures ReadLines(Lines(Print(lines))) == lines
  {
    if lines != [] {
      var first, rest := PrintLine(lines[0]), Print(lines[1..]);
      PrintedLineReads(lines[0]);
      PrintedLinesRead(lines[1..]);
      FirstLine(Print(lines), first, rest);
      ReadLineIgnoresCr(first);
      ReadLinesAppend([StripCr(first)], Lines(rest));
      assert ReadLines([StripCr(first)]) == [lines[0]];
    }
  }

  // A printed file parses as the lines it was printed from.
  lemma PrintedFileParses(values: Values, lines: seq<Line>)
    requires forall k :: 0 <= k < |lines| ==> Printable(lines[k])
    ensures ParseRules(values, Print(lines)) == ParseLines(values, lines)
  {
    PrintedLinesRead(lines);
  }
}
