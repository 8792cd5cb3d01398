/** What reading a file line by line means, without any buffer. */
module LineSplit {
  import opened Texts

  /** The byte order mark EF BB BF at the very beginning is dropped. */
  function DropBom(s: string): string {
    if |s| >= 3 && s[0] == '\U{EF}' && s[1] == '\U{BB}' && s[2] == '\U{BF}' then s[3..] else s
  }

  /** The pieces between newlines. A final newline starts no further line. */
  function RawLines(s: string): seq<string>
    decreases |s|
  {
    if s == "" then [] else [UpTo(s, '\n')] + RawLines(After(s, '\n'))
  }

  function Chomp(line: string): string {
    if line != "" && line[|line| - 1] == '\r' then line[..|line| - 1] else line
  }

  /** A raw line as the caller sees it: without one trailing '\r', as a C string. */
  function Shown(line: string): string { UpTo(Chomp(line), '\0') }

  function Lines(s: string): seq<string> {
    var raw := RawLines(s);
    seq(|raw|, i requires 0 <= i < |raw| => Shown(raw[i]))
  }

  /** Every line with an end-of-line after it. */
  function Joined(lines: seq<string>, eol: string): string {
    if lines == [] then "" else lines[0] + eol + Joined(lines[1..], eol)
  }

  /** A text without newlines and NULs that would not lose a '\r' of its own. */
  ghost predicate Plain(line: string) {
    '\n' !in line && '\0' !in line && (line != "" ==> line[|line| - 1] != '\r')
  }

  lemma ConcatAssociative(a: string, b: string, c: string)
    ensures a + b + c == a + (b + c)
  {
  }

  lemma ShownPlain(line: string)
    requires Plain(line)
    ensures Shown(line) == line && Shown(line + "\r") == line
  {
    assert (line + "\r")[..|line|] == line;
    SpanIs(line, '\0', |line|);
  }

  lemma FirstRawLine(line: string, rest: string)
    requires '\n' !in line
    ensures RawLines(line + "\n" + rest) == [line] + RawLines(rest)
  {
    hide Span, UpTo, After;
    BeforeStop(line, '\n', rest);
    assert line + "\n" + rest == line + (['\n'] + rest);
  }

  lemma LastRawLine(line: string)
    requires '\n' !in line
    ensures RawLines(line) == if line == "" then [] else [line]
  {
    SpanIs(line, '\n', |line|);
    if line != "" {
      assert UpTo(line, '\n') == line && After(line, '\n') == "";
      assert RawLines(line) == [line] + RawLines("") == [line];
    }
  }

  function Eol(crlf: bool): string { if crlf then "\r\n" else "\n" }

  /** The lines as they are before their newlines. */
  function Raw(lines: seq<string>, crlf: bool): (raw: seq<string>)
    ensures |raw| == |lines|
    ensures forall i :: 0 <= i < |lines| ==> raw[i] == if crlf then lines[i] + "\r" else lines[i]
  {
    seq(|lines|, i requires 0 <= i < |lines| => if crlf then lines[i] + "\r" else lines[i])
  }

  function Last(last: string): seq<string> { if last == "" then [] else [last] }

  lemma {:induction false} RawLinesOfJoined(lines: seq<string>, last: string, crlf: bool)
    requires (forall i :: 0 <= i < |lines| ==> Plain(lines[i])) && Plain(last)
    ensures RawLines(Joined(lines, Eol(crlf)) + last) == Raw(lines, crlf) + Last(last)
  {
    hide RawLines, Raw;
    if lines == [] {
      assert Joined(lines, Eol(crlf)) + last == last;
      LastRawLine(last);
    } else {
      var more := Joined(lines[1..], Eol(crlf));
      RawLinesOfJoined(lines[1..], last, crlf);
      var raw := if crlf then lines[0] + "\r" else lines[0];
      assert lines[0] + Eol(crlf) == raw + "\n";
      ConcatAssociative(raw + "\n", more, last);
      assert '\n' !in raw;
      FirstRawLine(raw, more + last);
      assert Raw(lines, crlf) == [raw] + Raw(lines[1..], crlf);
    }
  }

  /** Splitting undoes joining, with "\n" or "\r\n", and with or without a last line that
      lacks its newline. */
  lemma LinesOfJoined(lines: seq<string>, last: string, crlf: bool)
    requires (forall i :: 0 <= i < |lines| ==> Plain(lines[i])) && Plain(last)
    ensures Lines(Joined(lines, Eol(crlf)) + last) == lines + Last(last)
  {
    hide RawLines, Shown, Plain;
    RawLinesOfJoined(lines, last, crlf);
    forall i | 0 <= i < |lines| ensures Shown(Raw(lines, crlf)[i]) == lines[i] { ShownPlain(lines[i]); }
    ShownPlain(last);
  }

  const BOM := "\U{EF}\U{BB}\U{BF}"

  /** A byte order mark is dropped if there is one, and nothing else. */
  lemma BomDropped(s: string)
    ensures DropBom(BOM + s) == s
    ensures !(BOM <= s) ==> DropBom(s) == s
  {
    assert (BOM + s)[3..] == s;
    if |s| >= 3 && s[0] == BOM[0] && s[1] == BOM[1] && s[2] == BOM[2] { assert BOM == s[..3]; }
  }
}
