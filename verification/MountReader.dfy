// What the reader makes of texts the kernel would not print: any lines, ended or not, with
// any fields.
module MountReader {
  import opened Wrappers
  import opened Text
  import opened MountTable

  // ---------------------------------------------------------------- lines

  // The lines of a text: what stands between newlines, and after the last one if anything does.
  function Lines(text: string): seq<string> {
    WithoutEmptyEnd(Split(text, '\n'))
  }

  function WithoutEmptyEnd(parts: seq<string>): seq<string> {
    if parts != [] && parts[|parts| - 1] == "" then parts[..|parts| - 1] else parts
  }

  lemma WithoutEmptyEndCons(part: string, parts: seq<string>)
    requires parts != []
    ensures WithoutEmptyEnd([part] + parts) == [part] + WithoutEmptyEnd(parts)
  {
    assert ([part] + parts)[|parts|] == parts[|parts| - 1];
    assert ([part] + parts)[..|parts|] == [part] + parts[..|parts| - 1];
  }

  // The lines as the scanner passes them on, up to the first of 64 KiB or more.
  function Tokens(lines: seq<string>): seq<string> {
    if lines == [] || ByteLength(lines[0]) >= 64 * 1024 then []
    else [DropCarriageReturn(lines[0])] + Tokens(lines[1..])
  }

  lemma DropsOneReturn(line: string)
    ensures var token := DropCarriageReturn(line);
      if line != "" && line[|line| - 1] == '\r' then line == token + "\r" else line == token
  {
  }

  lemma EndedLine(line: string, rest: string)
    requires '\n' !in line
    ensures Lines(line + ['\n'] + rest) == [line] + Lines(rest)
  {
    SplitAtFirst(line, rest, '\n');
    WithoutEmptyEndCons(line, Split(rest, '\n'));
  }

  lemma LastLine(line: string)
    requires '\n' !in line
    ensures Lines(line) == if line == "" then [] else [line]
  {
    SplitSingle(line, '\n');
  }

  // For every text, whether or not its last line is ended.
  lemma {:induction false} ScannedLinesExact(text: string)
    ensures ScannedLines(text) == Tokens(Lines(text))
    decreases |text|
  {
    LastLine("");
    if text != "" {
      var n, rest := LineLength(text), AfterLine(text);
      if n < |text| {
        assert text == text[..n] + ['\n'] + rest;
        EndedLine(text[..n], rest);
      } else {
        assert text[..n] == text;
        LastLine(text);
      }
      ScannedLinesExact(rest);
      TokensCons(text[..n], Lines(rest));
    }
  }

  lemma TokensCons(line: string, lines: seq<string>)
    ensures Tokens([line] + lines) == if TooLong(line) then [] else [DropCarriageReturn(line)] + Tokens(lines)
    ensures [line] + [] == [line]
  {
    assert ([line] + lines)[1..] == lines;
  }

  lemma EndingTheLastLine(text: string)
    requires text != "" && text[|text| - 1] != '\n'
    ensures Lines(text + "\n") == Lines(text)
  {
    SplitLast(text, '\n');
    SplitAtSeparator(text, "", '\n');
    assert text + ['\n'] + "" == text + "\n" && Split("", '\n') == [""];
  }

  // An unended last line is read like an ended one.
  lemma FinalNewlineDoesNotMatter(prefix: string, text: string)
    requires text != "" && text[|text| - 1] != '\n'
    ensures ParseTable(prefix, text) == ParseTable(prefix, text + "\n")
  {
    ScannedLinesExact(text);
    ScannedLinesExact(text + "\n");
    EndingTheLastLine(text);
  }

  lemma PrintedTableShape(table: seq<Mount>)
    requires table != []
    ensures EndsOneLine(PrintTable(table))
  {
    PrintedLineShape(table[0]);
    if |table| > 1 {
      PrintedTableShape(table[1..]);
      EndsLater(PrintEntry(table[0]) + "\n", PrintTable(table[1..]));
    } else {
      assert PrintTable(table[1..]) == "" && PrintEntry(table[0]) + "\n" + "" == PrintEntry(table[0]) + "\n";
    }
  }

  predicate EndsOneLine(text: string) {
    |text| >= 2 && text[|text| - 1] == '\n' && text[|text| - 2] != '\n'
  }

  lemma EndsLater(head: string, text: string)
    requires EndsOneLine(text)
    ensures EndsOneLine(head + text)
  {
  }

  // All but the newline at the end.
  function Unended(text: string): string {
    if text == "" then "" else text[..|text| - 1]
  }

  lemma LastNewlineDropped(prefix: string, text: string)
    requires EndsOneLine(text)
    ensures ParseTable(prefix, Unended(text)) == ParseTable(prefix, text)
  {
    FinalNewlineDoesNotMatter(prefix, text[..|text| - 1]);
    assert text[..|text| - 1] + "\n" == text;
  }

  // For every table, its printed form without the last newline is read just as well.
  lemma UnendedTableIsRead(prefix: string, table: seq<Mount>)
    requires table != []
    ensures ParseTable(prefix, Unended(PrintTable(table))) == Visible(prefix, table)
  {
    PrintedTableShape(table);
    LastNewlineDropped(prefix, PrintTable(table));
    ParsePrintedTable(prefix, table);
  }

  // ---------------------------------------------------------------- fields

  // A line that is no comment is malformed exactly if it has fewer than three spaces.
  lemma MalformedIff(line: string)
    ensures ParseMountEntry(line) == Malformed <==> !HasPrefix(line, "#") && Count(line, ' ') < 3
  {
    SplitCount(line, ' ');
  }

  lemma LastField(field: string, more: string)
    requires ' ' !in field && (more == "" || more[0] == ' ')
    ensures Split(field + more, ' ')[0] == field
  {
    if more == "" {
      assert field + more == field;
      SplitSingle(field, ' ');
    } else {
      assert field + more == field + [' '] + more[1..];
      SplitAtFirst(field, more[1..], ' ');
    }
  }

  lemma SplitFields(f1: string, f2: string, f3: string, rest: string)
    requires ' ' !in f1 && ' ' !in f2 && ' ' !in f3
    ensures Split(f1 + [' '] + (f2 + [' '] + (f3 + [' '] + rest)), ' ') == [f1] + ([f2] + ([f3] + Split(rest, ' ')))
  {
    SplitAtFirst(f3, rest, ' ');
    SplitAtFirst(f2, f3 + [' '] + rest, ' ');
    SplitAtFirst(f1, f2 + [' '] + (f3 + [' '] + rest), ' ');
  }

  // The first four fields make the entry, whatever follows after another space.
  lemma FirstFourFields(f1: string, f2: string, f3: string, f4: string, more: string)
    requires ' ' !in f1 && ' ' !in f2 && ' ' !in f3 && ' ' !in f4
    requires more == "" || more[0] == ' '
    ensures var line := f1 + [' '] + (f2 + [' '] + (f3 + [' '] + (f4 + more)));
      !HasPrefix(line, "#") ==>
        ParseMountEntry(line) == Entry(Mount(Unescape(f1), Unescape(f2), Unescape(f3), Unescape(f4)))
  {
    SplitFields(f1, f2, f3, f4 + more);
    LastField(f4, more);
    FieldsAt(f1, f2, f3, Split(f4 + more, ' '));
  }

  lemma FieldsAt(f1: string, f2: string, f3: string, rest: seq<string>)
    requires rest != []
    ensures var parts := [f1] + ([f2] + ([f3] + rest));
      |parts| >= 4 && parts[0] == f1 && parts[1] == f2 && parts[2] == f3 && parts[3] == rest[0]
  {
  }

  // ---------------------------------------------------------------- escapes

  function OctalDigit(n: nat): char
    requires n < 8
  {
    ('0' as int + n) as char
  }

  // A backslash and the three octal digits of the character's code.
  function OctalEscape(c: char): string
    requires c as int < 0x80
  {
    var n := c as int;
    ['\\', OctalDigit(n / 64), OctalDigit(n / 8 % 8), OctalDigit(n % 8)]
  }

  // Space, tab, newline and backslash are escaped by their code, and nothing else is.
  lemma EscapesAreOctal(c: char)
    ensures Special(c) <==> c in " \t\n\\"
    ensures EscapeChar(c) == if c in " \t\n\\" then OctalEscape(c) else [c]
  {
  }

  // Exactly these four escapes are undone.
  lemma UndoesOctalEscapes(t: string, c: char)
    requires c as int < 0x80
    ensures DecodeHead(t) == Some(c) <==> c in " \t\n\\" && OctalEscape(c) <= t
  {
    var e := OctalEscape(c);
    EscapesAreOctal(c);
    if |t| >= 4 {
      assert e <= t <==> t[0] == e[0] && t[1] == e[1] && t[2] == e[2] && t[3] == e[3];
    }
  }
}
