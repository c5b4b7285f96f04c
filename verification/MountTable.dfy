// The text form of the kernel's mount table, /proc/mounts, described in proc(5)
// and fstab(5) of section 5 of the Linux manual: konlet's reader for it, the
// printer that reader must undo, and the exact relation between the two.
module MountTable {
  import opened Wrappers
  import opened Text

  datatype Mount = Mount(device: string, mountPoint: string, fsType: string, options: string)

  // ---------------------------------------------------------------- escapes

  predicate Special(c: char) {
    c == ' ' || c == '\t' || c == '\n' || c == '\\'
  }

  function EscapeChar(c: char): string {
    if c == ' ' then "\\040"
    else if c == '\t' then "\\011"
    else if c == '\n' then "\\012"
    else if c == '\\' then "\\134"
    else [c]
  }

  function Escape(s: string): string {
    if s == "" then "" else EscapeChar(s[0]) + Escape(s[1..])
  }

  predicate StartsWithOctal(t: string, a: char, b: char, c: char) {
    |t| >= 4 && t[0] == '\\' && t[1] == a && t[2] == b && t[3] == c
  }

  // The pattern of the replacer that matches at the head of the text, if any.
  function DecodeHead(t: string): (c: Option<char>)
    ensures c.Some? ==> |t| >= 4 && t[0] == '\\' && Special(c.value)
  {
    if StartsWithOctal(t, '0', '4', '0') then Some(' ')
    else if StartsWithOctal(t, '0', '1', '1') then Some('\t')
    else if StartsWithOctal(t, '0', '1', '2') then Some('\n')
    else if StartsWithOctal(t, '1', '3', '4') then Some('\\')
    else None
  }

  // One pass from left to right; text already replaced is not looked at again.
  function Unescape(t: string): string {
    if t == "" then ""
    else match DecodeHead(t)
      case Some(c) => [c] + Unescape(t[4..])
      case None => [t[0]] + Unescape(t[1..])
  }

  // Text in which every special character appears only inside one of the four escapes.
  ghost predicate WellEscaped(t: string) {
    if t == "" then true
    else match DecodeHead(t)
      case Some(_) => WellEscaped(t[4..])
      case None => !Special(t[0]) && WellEscaped(t[1..])
  }

  lemma {:induction false} UnescapeUndoesEscape(s: string)
    ensures Unescape(Escape(s)) == s
    ensures WellEscaped(Escape(s))
  {
    if s != "" {
      UnescapeUndoesEscape(s[1..]);
      var head, rest := EscapeChar(s[0]), Escape(s[1..]);
      assert Escape(s) == head + rest;
      if Special(s[0]) {
        assert forall i :: 0 <= i < 4 ==> (head + rest)[i] == head[i];
        assert DecodeHead(head + rest) == Some(s[0]);
        assert (head + rest)[4..] == rest;
      } else {
        assert (head + rest)[0] == s[0] && (head + rest)[1..] == rest;
      }
      assert s == [s[0]] + s[1..];
    }
  }

  lemma {:induction false} EscapeUndoesUnescapeIfWellEscaped(t: string)
    requires WellEscaped(t)
    ensures Escape(Unescape(t)) == t
  {
    if t != "" {
      match DecodeHead(t)
      case Some(c) =>
        EscapeUndoesUnescapeIfWellEscaped(t[4..]);
        assert Unescape(t)[1..] == Unescape(t[4..]);
        assert EscapeChar(c) == t[..4];
        assert t == t[..4] + t[4..];
      case None =>
        EscapeUndoesUnescapeIfWellEscaped(t[1..]);
        assert Unescape(t)[1..] == Unescape(t[1..]);
        assert t == [t[0]] + t[1..];
    }
  }

  // Escaping restores a text exactly when that text is well escaped.
  lemma {:induction false} EscapeUndoesUnescape(t: string)
    ensures Escape(Unescape(t)) == t <==> WellEscaped(t)
  {
    if WellEscaped(t) {
      EscapeUndoesUnescapeIfWellEscaped(t);
    }
    UnescapeUndoesEscape(Unescape(t));
  }

  // A directory named backslash-040 stays that; a second pass would turn it into a space.
  lemma SinglePassMatters()
    ensures Unescape("\\134040") == "\\040"
    ensures Unescape(Unescape("\\134040")) == " "
  {
    assert "\\134040"[4..] == "040";
    assert DecodeHead("\\134040") == Some('\\');
    assert Unescape("040") == "040" by {
      assert "040"[1..] == "40" && "40"[1..] == "0" && "0"[1..] == "";
    }
    assert Unescape("\\134040") == "\\040";
    assert DecodeHead("\\040") == Some(' ');
    assert "\\040"[4..] == "";
  }

  lemma {:induction false} EscapedHasNoSeparator(s: string)
    ensures ' ' !in Escape(s) && '\n' !in Escape(s)
  {
    if s != "" {
      EscapedHasNoSeparator(s[1..]);
    }
  }

  lemma EscapedCharLength(c: char)
    ensures ByteLength(EscapeChar(c)) <= 4 * ByteLength([c])
  {
    if Special(c) {
      var e := EscapeChar(c);
      assert ByteLength(e[3..]) == 1 by { assert e[3..][1..] == ""; }
      assert ByteLength(e[2..]) == 2 by { assert e[2..][1..] == e[3..]; }
      assert ByteLength(e[1..]) == 3 by { assert e[1..][1..] == e[2..]; }
    } else {
      assert EscapeChar(c) == [c];
    }
  }

  lemma {:induction false} EscapeGrowsAtMostFourfold(s: string)
    ensures ByteLength(Escape(s)) <= 4 * ByteLength(s)
  {
    if s != "" {
      EscapeGrowsAtMostFourfold(s[1..]);
      EscapedCharLength(s[0]);
      ByteLengthConcat(EscapeChar(s[0]), Escape(s[1..]));
      ByteLengthConcat([s[0]], s[1..]);
      assert s == [s[0]] + s[1..];
    }
  }

  // ---------------------------------------------------------------- one line

  datatype Parsed = Comment | Malformed | Entry(mount: Mount)

  function ParseMountEntry(line: string): Parsed {
    if HasPrefix(line, "#") then Comment
    else
      var parts := Split(line, ' ');
      if |parts| < 4 then Malformed
      else Entry(Mount(Unescape(parts[0]), Unescape(parts[1]), Unescape(parts[2]), Unescape(parts[3])))
  }

  // One line as the kernel prints it: four escaped fields and the two constant zeros.
  function PrintEntry(m: Mount): string {
    Escape(m.device) + [' '] + (Escape(m.mountPoint) + [' '] +
      (Escape(m.fsType) + [' '] + (Escape(m.options) + [' '] + "0 0")))
  }

  // The reader takes a line whose device starts with '#' for a comment.
  predicate ReadAsComment(m: Mount) {
    HasPrefix(m.device, "#")
  }

  lemma NoNewlineAcrossSpace(s: string, t: string)
    requires '\n' !in s && '\n' !in t && t != ""
    ensures var line := s + [' '] + t; '\n' !in line && line[|line| - 1] == t[|t| - 1]
  {
  }

  lemma PrintedLineShape(m: Mount)
    ensures var line := PrintEntry(m);
      && '\n' !in line && line != "" && line[|line| - 1] != '\r'
      && (HasPrefix(line, "#") <==> ReadAsComment(m))
  {
    EscapedHasNoSeparator(m.device);
    EscapedHasNoSeparator(m.mountPoint);
    EscapedHasNoSeparator(m.fsType);
    EscapedHasNoSeparator(m.options);
    var tail1 := Escape(m.options) + [' '] + "0 0";
    var tail2 := Escape(m.fsType) + [' '] + tail1;
    var tail3 := Escape(m.mountPoint) + [' '] + tail2;
    NoNewlineAcrossSpace(Escape(m.options), "0 0");
    NoNewlineAcrossSpace(Escape(m.fsType), tail1);
    NoNewlineAcrossSpace(Escape(m.mountPoint), tail2);
    NoNewlineAcrossSpace(Escape(m.device), tail3);
    FirstCharacter(m.device, tail3);
  }

  lemma FirstCharacter(device: string, tail: string)
    ensures HasPrefix(Escape(device) + [' '] + tail, "#") <==> HasPrefix(device, "#")
  {
    var line := Escape(device) + [' '] + tail;
    assert line[0] == if device == "" then ' ' else EscapeChar(device[0])[0];
  }

  lemma ParsePrintedEntry(m: Mount)
    ensures ParseMountEntry(PrintEntry(m)) == if ReadAsComment(m) then Comment else Entry(m)
  {
    PrintedLineShape(m);
    EscapedHasNoSeparator(m.device);
    EscapedHasNoSeparator(m.mountPoint);
    EscapedHasNoSeparator(m.fsType);
    EscapedHasNoSeparator(m.options);
    var tail1 := Escape(m.options) + [' '] + "0 0";
    var tail2 := Escape(m.fsType) + [' '] + tail1;
    var tail3 := Escape(m.mountPoint) + [' '] + tail2;
    SplitAtFirst(Escape(m.device), tail3, ' ');
    SplitAtFirst(Escape(m.mountPoint), tail2, ' ');
    SplitAtFirst(Escape(m.fsType), tail1, ' ');
    SplitAtFirst(Escape(m.options), "0 0", ' ');
    UnescapeUndoesEscape(m.device);
    UnescapeUndoesEscape(m.mountPoint);
    UnescapeUndoesEscape(m.fsType);
    UnescapeUndoesEscape(m.options);
  }

  // ---------------------------------------------------------------- lines of a text

  // bufio.MaxScanTokenSize leaves room for this many bytes before the newline.
  const MAX_LINE_BYTES: nat := 65535

  predicate TooLong(line: string) {
    ByteLength(line) > MAX_LINE_BYTES
  }

  // Length of the text up to the first newline, or of all of it.
  function LineLength(text: string): (n: nat)
    ensures n <= |text|
    ensures '\n' !in text[..n]
    ensures n < |text| ==> text[n] == '\n'
  {
    if text == "" || text[0] == '\n' then 0
    else
      var n := 1 + LineLength(text[1..]);
      assert text[..n] == [text[0]] + text[1..][..n - 1];
      n
  }

  function DropCarriageReturn(line: string): string {
    if line != "" && line[|line| - 1] == '\r' then line[..|line| - 1] else line
  }

  // What is left of the text after its first line.
  function AfterLine(text: string): (rest: string)
    ensures text != "" ==> |rest| < |text|
  {
    var n := LineLength(text);
    if n < |text| then text[n + 1..] else ""
  }

  // The tokens bufio.Scanner yields. It stops for good at the first over-long line.
  function ScannedLines(text: string): seq<string>
    decreases |text|
  {
    if text == "" || TooLong(text[..LineLength(text)]) then []
    else [DropCarriageReturn(text[..LineLength(text)])] + ScannedLines(AfterLine(text))
  }

  // bufio.Scanner over a string, with its default split function and buffer limit.
  class LineScanner {
    var rest: string
    var token: string

    constructor (text: string)
      ensures rest == text
    {
      rest, token := text, "";
    }

    // Advances to the next line; false at the end and at an over-long line.
    method Scan() returns (more: bool)
      modifies this
      ensures more == (ScannedLines(old(rest)) != [])
      ensures more ==> ScannedLines(old(rest)) == [token] + ScannedLines(rest)
      ensures more ==> |rest| < |old(rest)|
    {
      var n := LineLength(rest);
      more := rest != "" && !TooLong(rest[..n]);
      if more {
        token, rest := DropCarriageReturn(rest[..n]), AfterLine(rest);
      }
    }
  }

  // ---------------------------------------------------------------- the table

  predicate Managed(prefix: string, m: Mount) {
    HasPrefix(m.mountPoint, prefix)
  }

  // The managed directory itself or something inside it. The code's test, Managed, also
  // takes in siblings whose name extends the prefix.
  predicate Under(prefix: string, path: string) {
    path == prefix || HasPrefix(path, prefix + "/")
  }

  function PrintTable(table: seq<Mount>): string {
    if table == [] then "" else PrintEntry(table[0]) + "\n" + PrintTable(table[1..])
  }

  // What existingMounts makes of the text of /proc/mounts.
  function ParseTable(prefix: string, text: string): seq<Mount> {
    KeepParsed(prefix, ScannedLines(text))
  }

  // The mounts under the managed prefix, and the others, in table order.
  function OnlyManaged(prefix: string, table: seq<Mount>): seq<Mount> {
    if table == [] then []
    else if Managed(prefix, table[0]) then [table[0]] + OnlyManaged(prefix, table[1..])
    else OnlyManaged(prefix, table[1..])
  }

  function Unmanaged(prefix: string, table: seq<Mount>): seq<Mount> {
    if table == [] then []
    else if Managed(prefix, table[0]) then Unmanaged(prefix, table[1..])
    else [table[0]] + Unmanaged(prefix, table[1..])
  }

  // The managed mounts the reader can see: those before the first over-long line
  // whose device does not make the line look like a comment.
  function Visible(prefix: string, table: seq<Mount>): seq<Mount> {
    if table == [] || TooLong(PrintEntry(table[0])) then []
    else if Managed(prefix, table[0]) && !ReadAsComment(table[0]) then [table[0]] + Visible(prefix, table[1..])
    else Visible(prefix, table[1..])
  }

  lemma {:induction false} FirstLineLength(line: string, rest: string)
    requires '\n' !in line
    ensures LineLength(line + "\n" + rest) == |line|
  {
    if line != "" {
      assert (line + "\n" + rest)[1..] == line[1..] + "\n" + rest;
      FirstLineLength(line[1..], rest);
    }
  }

  lemma ScanPrintedLine(line: string, rest: string)
    requires '\n' !in line && line != "" && line[|line| - 1] != '\r'
    ensures ScannedLines(line + "\n" + rest) == if TooLong(line) then [] else [line] + ScannedLines(rest)
  {
    FirstLineLength(line, rest);
    var text := line + "\n" + rest;
    assert text[..|line|] == line && text[|line| + 1..] == rest;
  }

  lemma KeepPrintedLine(prefix: string, m: Mount, lines: seq<string>)
    ensures KeepParsed(prefix, [PrintEntry(m)] + lines) ==
      (if Managed(prefix, m) && !ReadAsComment(m) then [m] else []) + KeepParsed(prefix, lines)
  {
    ParsePrintedEntry(m);
    assert ([PrintEntry(m)] + lines)[1..] == lines;
  }

  // For every table, reading back its printed form gives exactly the visible managed mounts.
  lemma {:induction false} ParsePrintedTable(prefix: string, table: seq<Mount>)
    ensures ParseTable(prefix, PrintTable(table)) == Visible(prefix, table)
  {
    if table != [] {
      PrintedLineShape(table[0]);
      ScanPrintedLine(PrintEntry(table[0]), PrintTable(table[1..]));
      KeepPrintedLine(prefix, table[0], ScannedLines(PrintTable(table[1..])));
      ParsePrintedTable(prefix, table[1..]);
    }
  }

  // The mount at this place, if managed, does not look like a comment and does not stand at
  // or behind an over-long line.
  ghost predicate ReadableAt(prefix: string, table: seq<Mount>, i: nat)
    requires i < |table|
  {
    Managed(prefix, table[i]) ==>
      !ReadAsComment(table[i]) && forall j :: 0 <= j <= i ==> !TooLong(PrintEntry(table[j]))
  }

  ghost predicate Readable(prefix: string, table: seq<Mount>) {
    forall i :: 0 <= i < |table| ==> ReadableAt(prefix, table, i)
  }

  lemma {:induction false} VisibleBounds(prefix: string, table: seq<Mount>)
    ensures |Visible(prefix, table)| <= |OnlyManaged(prefix, table)|
    ensures OnlyManaged(prefix, table) == [] <==> forall i :: 0 <= i < |table| ==> !Managed(prefix, table[i])
  {
    if table != [] {
      VisibleBounds(prefix, table[1..]);
      assert table == [table[0]] + table[1..];
    }
  }

  lemma ReadableAtCons(prefix: string, head: Mount, rest: seq<Mount>, i: nat)
    requires i < |rest|
    ensures ReadableAt(prefix, [head] + rest, i + 1) <==>
      ReadableAt(prefix, rest, i) && (Managed(prefix, rest[i]) ==> !TooLong(PrintEntry(head)))
  {
    var table := [head] + rest;
    assert table[0] == head && table[i + 1] == rest[i];
    assert forall j :: 0 < j <= i + 1 ==> table[j] == rest[j - 1];
    assert forall j :: 0 <= j <= i ==> rest[j] == table[j + 1];
  }

  lemma ReadableTail(prefix: string, head: Mount, rest: seq<Mount>)
    requires Readable(prefix, [head] + rest)
    ensures Readable(prefix, rest) && ReadableAt(prefix, [head] + rest, 0)
    ensures TooLong(PrintEntry(head)) ==> OnlyManaged(prefix, rest) == []
  {
    VisibleBounds(prefix, rest);
    forall i | 0 <= i < |rest|
      ensures ReadableAt(prefix, rest, i) && (Managed(prefix, rest[i]) ==> !TooLong(PrintEntry(head)))
    {
      ReadableAtCons(prefix, head, rest, i);
    }
  }

  lemma ReadableExtended(prefix: string, head: Mount, rest: seq<Mount>)
    requires Readable(prefix, rest) && ReadableAt(prefix, [head] + rest, 0)
    requires TooLong(PrintEntry(head)) ==> OnlyManaged(prefix, rest) == []
    ensures Readable(prefix, [head] + rest)
  {
    VisibleBounds(prefix, rest);
    forall i | 0 <= i < |[head] + rest|
      ensures ReadableAt(prefix, [head] + rest, i)
    {
      if i > 0 {
        ReadableAtCons(prefix, head, rest, i - 1);
      }
    }
  }

  lemma ReadableCons(prefix: string, head: Mount, rest: seq<Mount>)
    ensures Readable(prefix, [head] + rest) <==>
      if TooLong(PrintEntry(head)) then
        !Managed(prefix, head) && OnlyManaged(prefix, rest) == []
      else
        (Managed(prefix, head) ==> !ReadAsComment(head)) && Readable(prefix, rest)
  {
    assert ReadableAt(prefix, [head] + rest, 0) <==>
      (Managed(prefix, head) ==> !ReadAsComment(head) && !TooLong(PrintEntry(head)));
    VisibleBounds(prefix, rest);
    if Readable(prefix, [head] + rest) {
      ReadableTail(prefix, head, rest);
    } else if Readable(prefix, rest) && (TooLong(PrintEntry(head)) ==> OnlyManaged(prefix, rest) == []) {
      if ReadableAt(prefix, [head] + rest, 0) {
        ReadableExtended(prefix, head, rest);
      }
    }
  }

  // Where nothing is managed, nothing is missed.
  lemma NothingToRead(prefix: string, table: seq<Mount>)
    requires OnlyManaged(prefix, table) == []
    ensures Readable(prefix, table) && Visible(prefix, table) == []
  {
    VisibleBounds(prefix, table);
  }

  // The reader sees every managed mount exactly when the table is readable.
  lemma {:induction false} VisibleIffReadable(prefix: string, table: seq<Mount>)
    ensures Visible(prefix, table) == OnlyManaged(prefix, table) <==> Readable(prefix, table)
  {
    if table != [] {
      var head, rest := table[0], table[1..];
      assert table == [head] + rest;
      VisibleIffReadable(prefix, rest);
      VisibleBounds(prefix, rest);
      ReadableCons(prefix, head, rest);
      if Managed(prefix, head) && !TooLong(PrintEntry(head)) {
        assert OnlyManaged(prefix, table)[1..] == OnlyManaged(prefix, rest);
        assert !ReadAsComment(head) ==> Visible(prefix, table)[1..] == Visible(prefix, rest);
        assert ReadAsComment(head) ==> |Visible(prefix, table)| < |OnlyManaged(prefix, table)|;
      }
    }
  }

  lemma {:induction false} VisibleByCount(prefix: string, table: seq<Mount>)
    requires |Visible(prefix, table)| >= |OnlyManaged(prefix, table)|
    ensures Visible(prefix, table) == OnlyManaged(prefix, table)
  {
    if table != [] {
      VisibleBounds(prefix, table[1..]);
      if !TooLong(PrintEntry(table[0])) {
        VisibleByCount(prefix, table[1..]);
      }
    }
  }

  function KeepEntry(prefix: string, line: string): seq<Mount> {
    match ParseMountEntry(line)
    case Entry(m) => if Managed(prefix, m) then [m] else []
    case _ => []
  }

  function KeepParsed(prefix: string, lines: seq<string>): seq<Mount> {
    if lines == [] then [] else KeepEntry(prefix, lines[0]) + KeepParsed(prefix, lines[1..])
  }

  lemma KeepParsedStep(prefix: string, mounts: seq<Mount>, lines: seq<string>)
    requires lines != []
    ensures mounts + KeepParsed(prefix, lines) == mounts + KeepEntry(prefix, lines[0]) + KeepParsed(prefix, lines[1..])
  {
  }

  // The reader's loop over the scanner.
  method ReadTable(prefix: string, text: string) returns (mounts: seq<Mount>)
    ensures mounts == ParseTable(prefix, text)
  {
    mounts := [];
    var scanner := new LineScanner(text);
    ghost var unread := ScannedLines(text);
    while true
      invariant unread == ScannedLines(scanner.rest)
      invariant mounts + KeepParsed(prefix, unread) == ParseTable(prefix, text)
      decreases |scanner.rest|
    {
      var more := scanner.Scan();
      if !more {
        break;
      }
      KeepParsedStep(prefix, mounts, unread);
      assert unread[0] == scanner.token && unread[1..] == ScannedLines(scanner.rest);
      mounts := mounts + KeepEntry(prefix, scanner.token);
      unread := unread[1..];
    }
  }

  // A table with a managed mount whose device starts with '#' is not read back in full.
  lemma CommentDeviceIsLost(prefix: string)
    ensures var m := Mount("#0", prefix, "tmpfs", "rw");
      ParseTable(prefix, PrintTable([m])) == [] && OnlyManaged(prefix, [m]) == [m]
  {
    var m := Mount("#0", prefix, "tmpfs", "rw");
    ParsePrintedTable(prefix, [m]);
    assert [m][1..] == [];
  }
}
