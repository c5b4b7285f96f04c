// The string operations of Go's standard library that konlet relies on, and the
// facts about them that the other modules need. A string is a sequence of code points.
module Text {

  predicate HasPrefix(s: string, prefix: string) {
    prefix <= s
  }

  // unicode.IsSpace
  predicate IsSpace(c: char) {
    var n := c as int;
    || 0x09 <= n <= 0x0D || n == 0x20 || n == 0x85 || n == 0xA0 || n == 0x1680
    || 0x2000 <= n <= 0x200A || n == 0x2028 || n == 0x2029 || n == 0x202F || n == 0x205F || n == 0x3000
  }

  ghost predicate Blank(s: string) {
    forall i :: 0 <= i < |s| ==> IsSpace(s[i])
  }

  function TrimRight(s: string): string {
    if s != "" && IsSpace(s[|s| - 1]) then TrimRight(s[..|s| - 1]) else s
  }

  function TrimLeft(s: string): string {
    if s != "" && IsSpace(s[0]) then TrimLeft(s[1..]) else s
  }

  // strings.TrimSpace
  function TrimSpace(s: string): string {
    TrimLeft(TrimRight(s))
  }

  lemma {:induction false} TrimRightEmpty(s: string)
    ensures TrimRight(s) == "" <==> Blank(s)
  {
    if s != "" && IsSpace(s[|s| - 1]) {
      TrimRightEmpty(s[..|s| - 1]);
    }
  }

  lemma {:induction false} TrimLeftEmpty(s: string)
    ensures TrimLeft(s) == "" <==> Blank(s)
  {
    if s != "" && IsSpace(s[0]) {
      TrimLeftEmpty(s[1..]);
      assert forall i :: 1 <= i < |s| ==> s[i] == s[1..][i - 1];
    }
  }

  lemma {:induction false} TrimRightSplits(s: string) returns (tail: string)
    ensures s == TrimRight(s) + tail && Blank(tail)
  {
    if s != "" && IsSpace(s[|s| - 1]) {
      tail := TrimRightSplits(s[..|s| - 1]);
      tail := tail + [s[|s| - 1]];
    } else {
      tail := "";
    }
  }

  // Trimming leaves nothing exactly when there was nothing but whitespace.
  lemma TrimSpaceEmpty(s: string)
    ensures TrimSpace(s) == "" <==> Blank(s)
  {
    TrimLeftEmpty(TrimRight(s));
    var tail := TrimRightSplits(s);
    if Blank(TrimRight(s)) {
      assert forall i :: 0 <= i < |s| ==>
        s[i] == if i < |TrimRight(s)| then TrimRight(s)[i] else tail[i - |TrimRight(s)|];
    } else {
      assert forall i :: 0 <= i < |TrimRight(s)| ==> TrimRight(s)[i] == s[i];
    }
  }

  lemma {:induction false} TrimRightEnds(s: string)
    ensures TrimRight(s) <= s
    ensures TrimRight(s) == "" || !IsSpace(TrimRight(s)[|TrimRight(s)| - 1])
  {
    if s != "" && IsSpace(s[|s| - 1]) {
      TrimRightEnds(s[..|s| - 1]);
    }
  }

  lemma {:induction false} TrimLeftStarts(s: string) returns (head: string)
    ensures s == head + TrimLeft(s) && Blank(head)
    ensures TrimLeft(s) == "" || !IsSpace(TrimLeft(s)[0])
  {
    if s != "" && IsSpace(s[0]) {
      head := TrimLeftStarts(s[1..]);
      head := [s[0]] + head;
    } else {
      head := "";
    }
  }

  // What is trimmed off both ends is whitespace, and what is left neither starts nor ends
  // with whitespace.
  lemma TrimSpaceExact(s: string) returns (head: string, tail: string)
    ensures s == head + TrimSpace(s) + tail && Blank(head) && Blank(tail)
    ensures var t := TrimSpace(s); t == "" || (!IsSpace(t[0]) && !IsSpace(t[|t| - 1]))
  {
    tail := TrimRightSplits(s);
    TrimRightEnds(s);
    head := TrimLeftStarts(TrimRight(s));
    var t := TrimSpace(s);
    assert t != "" ==> t[|t| - 1] == TrimRight(s)[|TrimRight(s)| - 1];
  }

  // The whitespace characters of Unicode.
  lemma WhitespaceExact(c: char)
    ensures IsSpace(c) <==>
      c in "\t\n\U{000B}\U{000C}\r \U{0085}\U{00A0}\U{1680}\U{2000}\U{2001}\U{2002}\U{2003}\U{2004}\U{2005}"
         + "\U{2006}\U{2007}\U{2008}\U{2009}\U{200A}\U{2028}\U{2029}\U{202F}\U{205F}\U{3000}"
  {
  }

  // What has been trimmed is part of the text and cannot be trimmed further.
  lemma TrimSpaceIsFixed(s: string)
    ensures TrimSpace(TrimSpace(s)) == TrimSpace(s)
    ensures forall c :: c in TrimSpace(s) ==> c in s
  {
    TrimRightEnds(s);
    var head := TrimLeftStarts(TrimRight(s));
    var t := TrimSpace(s);
    assert t != "" ==> t[|t| - 1] == TrimRight(s)[|TrimRight(s)| - 1];
    assert forall c :: c in t ==> c in TrimRight(s);
  }

  lemma TrimSpaceIgnoresNewline(s: string)
    ensures TrimSpace(s + "\n") == TrimSpace(s)
  {
    assert (s + "\n")[..|s|] == s;
  }

  // strings.Count for a single character.
  function Count(s: string, c: char): nat {
    if s == "" then 0 else (if s[0] == c then 1 else 0) + Count(s[1..], c)
  }

  lemma {:induction false} CountConcat(s: string, t: string, c: char)
    ensures Count(s + t, c) == Count(s, c) + Count(t, c)
  {
    if s == "" {
      assert s + t == t;
    } else {
      assert (s + t)[1..] == s[1..] + t;
      CountConcat(s[1..], t, c);
    }
  }

  lemma {:induction false} CountZero(s: string, c: char)
    ensures Count(s, c) == 0 <==> c !in s
  {
    if s != "" {
      assert s == [s[0]] + s[1..];
      CountZero(s[1..], c);
    }
  }

  // strings.Join
  function Join(parts: seq<string>, separator: string): string {
    if |parts| == 0 then ""
    else if |parts| == 1 then parts[0]
    else parts[0] + separator + Join(parts[1..], separator)
  }

  // Every part followed by the terminator.
  function Terminated(parts: seq<string>, terminator: string): string {
    if |parts| == 0 then "" else parts[0] + terminator + Terminated(parts[1..], terminator)
  }

  lemma {:induction false} TerminatedSnoc(parts: seq<string>, part: string, terminator: string)
    ensures Terminated(parts + [part], terminator) == Terminated(parts, terminator) + part + terminator
  {
    if parts == [] {
      assert Terminated([part], terminator) == part + terminator + Terminated([], terminator);
    } else {
      assert (parts + [part])[1..] == parts[1..] + [part];
      TerminatedSnoc(parts[1..], part, terminator);
    }
  }

  lemma {:induction false} JoinIsTerminatedWithoutLast(parts: seq<string>, terminator: string)
    requires parts != []
    ensures Terminated(parts, terminator) == Join(parts, terminator) + terminator
  {
    if |parts| == 1 {
      assert Terminated(parts[1..], terminator) == "";
    } else {
      JoinIsTerminatedWithoutLast(parts[1..], terminator);
    }
  }

  // strings.Split for a single-character separator.
  function Split(s: string, separator: char): (parts: seq<string>)
    ensures |parts| >= 1
  {
    if s == "" then [""]
    else
      var rest := Split(s[1..], separator);
      if s[0] == separator then [""] + rest else [[s[0]] + rest[0]] + rest[1..]
  }

  lemma {:induction false} SplitAtFirst(part: string, rest: string, separator: char)
    requires separator !in part
    ensures Split(part + [separator] + rest, separator) == [part] + Split(rest, separator)
  {
    var s := part + [separator] + rest;
    if part == "" {
      assert s[1..] == rest;
    } else {
      assert s[1..] == part[1..] + [separator] + rest;
      SplitAtFirst(part[1..], rest, separator);
      assert part == [part[0]] + part[1..];
    }
  }

  lemma {:induction false} SplitSingle(part: string, separator: char)
    requires separator !in part
    ensures Split(part, separator) == [part]
  {
    if part != "" {
      SplitSingle(part[1..], separator);
      assert part == [part[0]] + part[1..];
    }
  }

  lemma {:induction false} SplitAtSeparator(s: string, t: string, separator: char)
    ensures Split(s + [separator] + t, separator) == Split(s, separator) + Split(t, separator)
  {
    if s == "" {
      assert ([separator] + t)[1..] == t;
      assert s + [separator] + t == [separator] + t;
    } else {
      assert (s + [separator] + t)[1..] == s[1..] + [separator] + t;
      SplitAtSeparator(s[1..], t, separator);
    }
  }

  // The last part is empty exactly after a final separator, and for no text at all.
  lemma {:induction false} SplitLast(s: string, separator: char)
    ensures var parts := Split(s, separator);
      parts[|parts| - 1] == "" <==> s == "" || s[|s| - 1] == separator
  {
    if s != "" {
      SplitLast(s[1..], separator);
    }
  }

  // Once something is split off, the first part is what stands before the first separator.
  lemma {:induction false} SplitHead(s: string, separator: char)
    ensures |Split(s, separator)| >= 2 ==> Split(s, separator)[0] + [separator] <= s
  {
    if s != "" && s[0] != separator {
      SplitHead(s[1..], separator);
      if |Split(s, separator)| >= 2 {
        var head := Split(s[1..], separator)[0];
        assert Split(s, separator)[0] + [separator] == [s[0]] + (head + [separator]);
      }
    }
  }

  lemma {:induction false} SplitCount(s: string, separator: char)
    ensures |Split(s, separator)| == Count(s, separator) + 1
  {
    if s != "" {
      SplitCount(s[1..], separator);
    }
  }

  // fmt's %d for a natural number.
  function Decimal(n: nat): (digits: string)
    ensures digits != ""
    ensures forall i :: 0 <= i < |digits| ==> '0' <= digits[i] <= '9'
  {
    var last := ('0' as int + n % 10) as char;
    if n < 10 then [last] else Decimal(n / 10) + [last]
  }

  // The number a text of decimal digits stands for.
  function Value(digits: string): int {
    if digits == "" then 0 else 10 * Value(digits[..|digits| - 1]) + (digits[|digits| - 1] as int - '0' as int)
  }

  // The digits are those of the number in base ten, without leading zeros.
  lemma {:induction false} DecimalValue(n: nat)
    ensures Value(Decimal(n)) == n
    ensures n > 0 ==> Decimal(n)[0] != '0'
  {
    var digits := Decimal(n);
    assert digits[|digits| - 1] as int - '0' as int == n % 10;
    if n < 10 {
      assert Value(digits[..0]) == 0;
    } else {
      DecimalValue(n / 10);
      assert digits[..|digits| - 1] == Decimal(n / 10) && digits[0] == Decimal(n / 10)[0];
    }
  }

  lemma DecimalInjective(m: nat, n: nat)
    requires Decimal(m) == Decimal(n)
    ensures m == n
  {
    DecimalValue(m);
    DecimalValue(n);
  }

  // The number of bytes of the UTF-8 encoding.
  function ByteLength(s: string): nat {
    if s == "" then 0
    else
      var n := s[0] as int;
      (if n < 0x80 then 1 else if n < 0x800 then 2 else if n < 0x10000 then 3 else 4) + ByteLength(s[1..])
  }

  lemma {:induction false} ByteLengthConcat(s: string, t: string)
    ensures ByteLength(s + t) == ByteLength(s) + ByteLength(t)
  {
    if s == "" {
      assert s + t == t;
    } else {
      assert (s + t)[1..] == s[1..] + t;
      ByteLengthConcat(s[1..], t);
    }
  }

  // ---------------------------------------------------------------- UTF-8

  // The bytes of one character.
  function Utf8(n: nat): seq<nat> {
    if n < 0x80 then [n]
    else if n < 0x800 then [0xC0 + n / 0x40, 0x80 + n % 0x40]
    else if n < 0x10000 then [0xE0 + n / 0x1000, 0x80 + n / 0x40 % 0x40, 0x80 + n % 0x40]
    else [0xF0 + n / 0x40000, 0x80 + n / 0x1000 % 0x40, 0x80 + n / 0x40 % 0x40, 0x80 + n % 0x40]
  }

  // How many bytes a character has that starts with this one, by its leading ones.
  function BytesAfter(lead: nat): nat {
    if lead < 0x80 then 1 else if lead < 0xE0 then 2 else if lead < 0xF0 then 3 else 4
  }

  // ByteLength counts the bytes of UTF-8: they fit a byte, the first tells how many follow,
  // and all others are marked as such.
  lemma ByteLengthIsUtf8(c: char)
    ensures var bytes := Utf8(c as int);
      && ByteLength([c]) == |bytes| == BytesAfter(bytes[0])
      && bytes[0] < 0xF8
      && (forall i :: 1 <= i < |bytes| ==> 0x80 <= bytes[i] < 0xC0)
  {
    assert ByteLength([c]) == |Utf8(c as int)| by { assert [c][1..] == ""; }
  }
}
