/**
 The text exposition format: label escaping (`_esc`), sample lines as `render` writes them, and a reader
 of such lines that undoes the escapes.
 */
module Exposition {
  import opened Wrappers

  /******* Escaping *******/

  /** `s.replace(c, sub)` for a pattern of one character. */
  function Replace(s: string, c: char, sub: string): string {
    if s == "" then "" else (if s[0] == c then sub else [s[0]]) + Replace(s[1..], c, sub)
  }

  /** `_esc`: backslashes, then quotes, then newlines. */
  function Esc(value: string): string {
    Replace(Replace(Replace(value, '\\', "\\\\"), '"', "\\\""), '\n', "")
  }

  function EscChar(c: char): string {
    if c == '\\' then "\\\\" else if c == '"' then "\\\"" else if c == '\n' then "" else [c]
  }

  function EscOnePass(value: string): string {
    if value == "" then "" else EscChar(value[0]) + EscOnePass(value[1..])
  }

  function NoNewlines(s: string): string {
    Replace(s, '\n', "")
  }

  lemma {:induction false} ReplaceAppend(s: string, t: string, c: char, sub: string)
    ensures Replace(s + t, c, sub) == Replace(s, c, sub) + Replace(t, c, sub)
  {
    if s == "" {
      assert s + t == t;
    } else {
      assert (s + t)[1..] == s[1..] + t;
      ReplaceAppend(s[1..], t, c, sub);
    }
  }

  lemma ReplaceOne(x: char, c: char, sub: string)
    ensures Replace([x], c, sub) == if x == c then sub else [x]
  {
    assert Replace([x], c, sub) == (if x == c then sub else [x]) + Replace([x][1..], c, sub);
  }

  lemma ReplaceTwo(x: char, y: char, c: char, sub: string)
    requires x != c && y != c
    ensures Replace([x, y], c, sub) == [x, y]
  {
    assert [x, y] == [x] + [y];
    ReplaceAppend([x], [y], c, sub);
    ReplaceOne(x, c, sub);
    ReplaceOne(y, c, sub);
  }

  lemma EscOne(c: char)
    ensures Esc([c]) == EscChar(c)
  {
    hide Replace;
    ReplaceOne(c, '\\', "\\\\");
    if c == '\\' {
      ReplaceTwo('\\', '\\', '"', "\\\"");
      ReplaceTwo('\\', '\\', '\n', "");
    } else if c == '"' {
      ReplaceOne(c, '"', "\\\"");
      ReplaceTwo('\\', '"', '\n', "");
    } else {
      ReplaceOne(c, '"', "\\\"");
      ReplaceOne(c, '\n', "");
    }
  }

  lemma EscAppend(s: string, t: string)
    ensures Esc(s + t) == Esc(s) + Esc(t)
  {
    hide Replace;
    ReplaceAppend(s, t, '\\', "\\\\");
    ReplaceAppend(Replace(s, '\\', "\\\\"), Replace(t, '\\', "\\\\"), '"', "\\\"");
    ReplaceAppend(Replace(Replace(s, '\\', "\\\\"), '"', "\\\""), Replace(Replace(t, '\\', "\\\\"), '"', "\\\""), '\n', "");
  }

  /** The three successive replacements equal one pass that treats each character on its own. */
  lemma {:induction false} EscIsOnePass(value: string)
    ensures Esc(value) == EscOnePass(value)
  {
    if value != "" {
      hide Esc;
      EscIsOnePass(value[1..]);
      EscAppend([value[0]], value[1..]);
      EscOne(value[0]);
      assert value == [value[0]] + value[1..];
    }
  }

  /** Reads to the closing quote, undoing escapes: the value, and what follows the quote. */
  function ReadQuoted(s: string): (r: Option<(string, string)>)
    ensures r.Some? ==> |r.value.1| < |s|
  {
    if s == "" then None
    else if s[0] == '"' then Some(("", s[1..]))
    else if s[0] == '\\' then
      if |s| < 2 || (s[1] != '\\' && s[1] != '"') then None
      else
        match ReadQuoted(s[2..])
        case None => None
        case Some((value, rest)) => Some(([s[1]] + value, rest))
    else
      match ReadQuoted(s[1..])
      case None => None
      case Some((value, rest)) => Some(([s[0]] + value, rest))
  }

  /** An escaped value reads back, without its newlines, up to the quote that closes it: no quote inside is bare. */
  lemma {:induction false} ReadQuotedEsc(value: string, rest: string)
    ensures ReadQuoted(EscOnePass(value) + "\"" + rest) == Some((NoNewlines(value), rest))
  {
    if value == "" {
      assert "" + "\"" + rest == "\"" + rest;
      assert ("\"" + rest)[1..] == rest;
    } else {
      var c, tail := value[0], EscOnePass(value[1..]) + "\"" + rest;
      ReadQuotedEsc(value[1..], rest);
      assert EscOnePass(value) + "\"" + rest == EscChar(c) + tail;
      if c == '\n' {
        assert EscChar(c) + tail == tail;
        assert NoNewlines(value) == NoNewlines(value[1..]);
      } else if c == '\\' || c == '"' {
        assert (EscChar(c) + tail)[2..] == tail;
      } else {
        assert (EscChar(c) + tail)[1..] == tail;
      }
    }
  }

  lemma {:induction false} EscHasNoNewline(value: string)
    ensures '\n' !in EscOnePass(value)
  {
    if value != "" {
      EscHasNoNewline(value[1..]);
    }
  }

  lemma {:induction false} NoNewlinesShrinks(value: string)
    ensures |NoNewlines(value)| <= |value|
    ensures NoNewlines(value) == value <==> '\n' !in value
  {
    if value != "" {
      NoNewlinesShrinks(value[1..]);
      assert value == [value[0]] + value[1..];
    }
  }

  /** A label value is recovered exactly when it has no newline. */
  lemma LabelRecoveredIff(value: string, rest: string)
    ensures ReadQuoted(Esc(value) + "\"" + rest) == Some((value, rest)) <==> '\n' !in value
  {
    hide Esc, ReadQuoted, EscOnePass, NoNewlines;
    EscIsOnePass(value);
    ReadQuotedEsc(value, rest);
    NoNewlinesShrinks(value);
  }

  lemma {:induction false} EscDropsNewlines(value: string)
    ensures EscOnePass(NoNewlines(value)) == EscOnePass(value)
  {
    if value != "" {
      EscDropsNewlines(value[1..]);
      if value[0] == '\n' {
        assert NoNewlines(value) == NoNewlines(value[1..]);
      } else {
        assert NoNewlines(value) == [value[0]] + NoNewlines(value[1..]);
      }
    }
  }

  /** Labels are written alike exactly when they differ in newlines only: then their series cannot be told apart. */
  lemma EscAlikeIff(s: string, t: string)
    ensures Esc(s) == Esc(t) <==> NoNewlines(s) == NoNewlines(t)
  {
    hide Esc, ReadQuoted, EscOnePass, NoNewlines;
    EscIsOnePass(s);
    EscIsOnePass(t);
    ReadQuotedEsc(s, "");
    ReadQuotedEsc(t, "");
    EscDropsNewlines(s);
    EscDropsNewlines(t);
  }

  /******* Sample lines *******/

  /** A sample of a scrape: its value is kept as the text written. */
  datatype Sample = Sample(name: string, labels: seq<(string, string)>, value: string)

  /** `key="text"`, the text already escaped. */
  function Pair(key: string, text: string): string {
    key + "=\"" + text + "\""
  }

  function ShowLabel(pair: (string, string)): string {
    Pair(pair.0, Esc(pair.1))
  }

  function ShowLabels(labels: seq<(string, string)>): string {
    if labels == [] then "" else
      ShowLabel(labels[0]) + (if |labels| == 1 then "" else "," + ShowLabels(labels[1..]))
  }

  function Show(s: Sample): string {
    if s.labels == [] then s.name + " " + s.value else s.name + "{" + ShowLabels(s.labels) + "} " + s.value
  }

  /** What stands before the first `c`, and after it. */
  function Until(s: string, c: char): (r: Option<(string, string)>)
    ensures r.Some? ==> |r.value.1| < |s|
  {
    if s == "" then None
    else if s[0] == c then Some(("", s[1..]))
    else
      match Until(s[1..], c)
      case None => None
      case Some((before, after)) => Some(([s[0]] + before, after))
  }

  /** Labels up to the closing brace, and what follows it. */
  function ReadLabels(s: string): Option<(seq<(string, string)>, string)>
    decreases |s|
  {
    match Until(s, '=')
    case None => None
    case Some((key, quoted)) =>
      if quoted == "" || quoted[0] != '"' then None else
        match ReadQuoted(quoted[1..])
        case None => None
        case Some((value, rest)) =>
          if rest != "" && rest[0] == '}' then Some(([(key, value)], rest[1..]))
          else if rest != "" && rest[0] == ',' then
            match ReadLabels(rest[1..])
            case None => None
            case Some((labels, after)) => Some(([(key, value)] + labels, after))
          else None
  }

  /** A sample line without labels. */
  function ReadBare(line: string): Option<Sample> {
    match Until(line, ' ')
    case None => None
    case Some((name, value)) => if value == "" then None else Some(Sample(name, [], value))
  }

  /** A sample line, or None for comments and anything else. */
  function ReadLine(line: string): Option<Sample> {
    if line == "" || line[0] == '#' then None else
      match Until(line, '{')
      case None => ReadBare(line)
      case Some((name, tail)) =>
        match ReadLabels(tail)
        case None => None
        case Some((labels, value)) =>
          if |value| > 1 && value[0] == ' ' then Some(Sample(name, labels, value[1..])) else None
  }

  /** A metric name: no character that ends it in a line. */
  ghost predicate IsName(s: string) {
    s != "" && s[0] != '#' && '{' !in s && ' ' !in s && '\n' !in s
  }

  /** The text of a value. */
  ghost predicate IsValue(s: string) {
    s != "" && '{' !in s && '\n' !in s
  }

  /** The samples that `render` writes. */
  ghost predicate WellNamed(s: Sample) {
    && IsName(s.name) && IsValue(s.value)
    && forall i :: 0 <= i < |s.labels| ==> '=' !in s.labels[i].0 && '\n' !in s.labels[i].0
  }

  function StripLabels(labels: seq<(string, string)>): (r: seq<(string, string)>)
    ensures |r| == |labels|
  {
    if labels == [] then [] else [(labels[0].0, NoNewlines(labels[0].1))] + StripLabels(labels[1..])
  }

  /** The sample without newlines in its label values. */
  function Stripped(s: Sample): Sample {
    s.(labels := StripLabels(s.labels))
  }

  lemma {:induction false} UntilFound(before: string, c: char, after: string)
    requires c !in before
    ensures Until(before + [c] + after, c) == Some((before, after))
  {
    var s := before + [c] + after;
    if before == "" {
      assert s[1..] == after;
    } else {
      assert s[1..] == before[1..] + [c] + after;
      UntilFound(before[1..], c, after);
      assert before == [before[0]] + before[1..];
    }
  }

  lemma ReadOneLabel(key: string, value: string, rest: string)
    requires '=' !in key
    ensures var r := Until(ShowLabel((key, value)) + rest, '=');
      && r.Some? && r.value.0 == key && r.value.1 != "" && r.value.1[0] == '"'
      && ReadQuoted(r.value.1[1..]) == Some((NoNewlines(value), rest))
  {
    hide Esc, ReadQuoted, Until, NoNewlines;
    var quoted := "\"" + (Esc(value) + "\"" + rest);
    assert ShowLabel((key, value)) + rest == key + ['='] + quoted;
    UntilFound(key, '=', quoted);
    EscIsOnePass(value);
    ReadQuotedEsc(value, rest);
    assert quoted[1..] == Esc(value) + "\"" + rest;
  }

  lemma {:induction false} ReadLabelsShow(labels: seq<(string, string)>, rest: string)
    requires labels != [] && forall i :: 0 <= i < |labels| ==> '=' !in labels[i].0
    ensures ReadLabels(ShowLabels(labels) + "}" + rest) == Some((StripLabels(labels), rest))
    decreases |labels|
  {
    hide ShowLabel, Until, ReadQuoted, NoNewlines;
    var (key, value) := labels[0];
    var s := ShowLabels(labels) + "}" + rest;
    if |labels| == 1 {
      assert s == ShowLabel(labels[0]) + ("}" + rest);
      ReadOneLabel(key, value, "}" + rest);
      assert ("}" + rest)[1..] == rest;
      assert StripLabels(labels) == [(key, NoNewlines(value))];
    } else {
      var more := ShowLabels(labels[1..]) + "}" + rest;
      assert s == ShowLabel(labels[0]) + ("," + more);
      ReadOneLabel(key, value, "," + more);
      assert ("," + more)[1..] == more;
      ReadLabelsShow(labels[1..], rest);
    }
  }

  lemma {:induction false} UntilNone(s: string, c: char)
    requires c !in s
    ensures Until(s, c) == None
  {
    if s != "" {
      UntilNone(s[1..], c);
    }
  }

  /** A written sample line reads back as the sample, up to newlines in label values. */
  lemma ReadShow(s: Sample)
    requires WellNamed(s)
    ensures ReadLine(Show(s)) == Some(Stripped(s))
  {
    if s.labels == [] {
      ReadBareShow(s);
    } else {
      ReadLabelledShow(s);
    }
  }

  lemma ReadBareShow(s: Sample)
    requires WellNamed(s) && s.labels == []
    ensures ReadLine(Show(s)) == Some(Stripped(s))
  {
    hide ReadLabels, Until;
    assert Show(s) == s.name + [' '] + s.value;
    assert Show(s)[0] == s.name[0];
    UntilNone(Show(s), '{');
    UntilFound(s.name, ' ', s.value);
  }

  lemma ReadLabelledShow(s: Sample)
    requires WellNamed(s) && s.labels != []
    ensures ReadLine(Show(s)) == Some(Stripped(s))
  {
    hide ShowLabels, ReadLabels, Until, StripLabels, ReadBare;
    var value := " " + s.value;
    var tail := ShowLabels(s.labels) + "}" + value;
    assert Show(s) == s.name + ['{'] + tail;
    assert Show(s)[0] == s.name[0];
    UntilFound(s.name, '{', tail);
    ReadLabelsShow(s.labels, value);
    assert value[1..] == s.value;
  }

  lemma {:induction false} LabelsHaveNoNewline(labels: seq<(string, string)>)
    requires forall i :: 0 <= i < |labels| ==> '\n' !in labels[i].0
    ensures '\n' !in ShowLabels(labels)
  {
    hide Esc;
    if labels != [] {
      EscIsOnePass(labels[0].1);
      EscHasNoNewline(labels[0].1);
      LabelsHaveNoNewline(labels[1..]);
    }
  }

  lemma LineHasNoNewline(s: Sample)
    requires WellNamed(s)
    ensures '\n' !in Show(s)
  {
    hide ShowLabels;
    LabelsHaveNoNewline(s.labels);
  }

  /******* Whole texts *******/

  /** `"\n".join(lines) + "\n"` */
  function Text(lines: seq<string>): string {
    if lines == [] then "" else lines[0] + "\n" + Text(lines[1..])
  }

  /** The lines of a text that ends in a newline. */
  function Lines(text: string): seq<string>
    decreases |text|
  {
    match Until(text, '\n')
    case None => []
    case Some((line, rest)) => [line] + Lines(rest)
  }

  lemma {:induction false} LinesText(lines: seq<string>)
    requires forall i :: 0 <= i < |lines| ==> '\n' !in lines[i]
    ensures Lines(Text(lines)) == lines
  {
    hide Until;
    if lines == [] {
      UntilEmpty();
    } else {
      UntilFound(lines[0], '\n', Text(lines[1..]));
      assert lines[0] + "\n" + Text(lines[1..]) == lines[0] + ['\n'] + Text(lines[1..]);
      LinesText(lines[1..]);
    }
  }

  lemma UntilEmpty()
    ensures Until("", '\n') == None
  {}

  /** The samples among some lines, in order. */
  function ReadLines(lines: seq<string>): seq<Sample> {
    if lines == [] then [] else
      (match ReadLine(lines[0])
       case None => []
       case Some(s) => [s])
      + ReadLines(lines[1..])
  }

  lemma {:induction false} ReadLinesAppend(xs: seq<string>, ys: seq<string>)
    ensures ReadLines(xs + ys) == ReadLines(xs) + ReadLines(ys)
  {
    hide ReadLine;
    if xs == [] {
      assert xs + ys == ys;
    } else {
      assert (xs + ys)[1..] == xs[1..] + ys;
      ReadLinesAppend(xs[1..], ys);
    }
  }

  /** One more sample line, one more sample. */
  lemma ReadLinesSnoc(lines: seq<string>, s: Sample)
    requires WellNamed(s)
    ensures ReadLines(lines + [Show(s)]) == ReadLines(lines) + [Stripped(s)]
  {
    hide Show, ReadLine, Stripped;
    ReadLinesAppend(lines, [Show(s)]);
    ReadShow(s);
    assert ReadLines([Show(s)][1..]) == [];
  }

  /** A comment line is no sample. */
  lemma ReadLinesComment(lines: seq<string>, comment: string)
    requires comment != "" && comment[0] == '#'
    ensures ReadLines(lines + [comment]) == ReadLines(lines)
  {
    ReadLinesAppend(lines, [comment]);
    assert ReadLines([comment][1..]) == [];
  }
}
