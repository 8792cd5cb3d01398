/** Splitting a CSV line into its columns, in place: finding the column ends past quoted
    parts, cutting, trimming and unescaping. A pointer into the line is an index. */
module CsvColumns {
  import opened Outcomes
  import opened Texts

  /** trim_chars<trims> with double_quote_escape<sep, quote> */
  datatype Format = Format(sep: char, quote: char, trims: set<char>) {
    predicate Valid() { sep != '\0' && quote != '\0' && sep != quote }
  }

  datatype Error = TooFewColumns | TooManyColumns | EscapedStringNotClosed

  // ----- the columns of a text -----

  /** The end of the column when position i is outside of quotes; none if a quote stays open. */
  function Outside(f: Format, s: string, i: nat): (e: Option<nat>)
    requires i <= |s|
    ensures e.Some? ==> i <= e.value <= |s| && (e.value < |s| ==> s[e.value] == f.sep)
    decreases |s| - i
  {
    if i == |s| || s[i] == f.sep then Some(i)
    else if s[i] != f.quote then Outside(f, s, i + 1)
    else Inside(f, s, i + 1)
  }

  /** The same inside of quotes: two quotes stand for one, a single one closes. */
  function Inside(f: Format, s: string, i: nat): (e: Option<nat>)
    requires i <= |s|
    ensures e.Some? ==> i <= e.value <= |s| && (e.value < |s| ==> s[e.value] == f.sep)
    decreases |s| - i
  {
    if i == |s| then None
    else if s[i] != f.quote then Inside(f, s, i + 1)
    else if i + 1 < |s| && s[i + 1] == f.quote then Inside(f, s, i + 2)
    else Outside(f, s, i + 1)
  }

  function TrimLeft(f: Format, s: string): string {
    if s != "" && s[0] in f.trims then TrimLeft(f, s[1..]) else s
  }

  function TrimRight(f: Format, s: string): string {
    if s != "" && s[|s| - 1] in f.trims then TrimRight(f, s[..|s| - 1]) else s
  }

  /** Every pair of quotes becomes one. */
  function Collapse(f: Format, s: string): string {
    if s == "" then ""
    else if s[0] == f.quote && |s| > 1 && s[1] == f.quote then [s[1]] + Collapse(f, s[2..])
    else [s[0]] + Collapse(f, s[1..])
  }

  function Unescape(f: Format, s: string): string {
    if |s| >= 2 && s[0] == f.quote && s[|s| - 1] == f.quote then Collapse(f, s[1..|s| - 1]) else s
  }

  function Cook(f: Format, s: string): string { Unescape(f, TrimRight(f, TrimLeft(f, s))) }

  /** The texts of exactly n columns, from position `line` on (none: the line is used up). */
  function Columns(f: Format, s: string, line: Option<nat>, n: nat): Result<seq<string>, Error>
    requires line.Some? ==> line.value <= |s|
    decreases n
  {
    if n == 0 then
      if line == None then Ok([]) else Thrown(TooManyColumns)
    else if line == None then Thrown(TooFewColumns)
    else
      match Outside(f, s, line.value)
      case None => Thrown(EscapedStringNotClosed)
      case Some(e) =>
        match Columns(f, s, if e < |s| then Some(e + 1) else None, n - 1)
        case Thrown(error) => Thrown(error)
        case Ok(rest) => Ok([Cook(f, s[line.value..e])] + rest)
  }

  // ----- quoting -----

  /** Every quote doubled, section 2 of RFC 4180, rule 7. */
  function Doubled(f: Format, field: string): string {
    if field == "" then ""
    else (if field[0] == f.quote then [f.quote, f.quote] else [field[0]]) + Doubled(f, field[1..])
  }

  function Quoted(f: Format, field: string): string { [f.quote] + (Doubled(f, field) + [f.quote]) }

  /** A field as it may be written: quoted or plain, between characters to be trimmed. */
  datatype Cell = Cell(left: string, text: string, right: string, quoted: bool)

  predicate Padding(f: Format, s: string) {
    forall k :: 0 <= k < |s| ==> s[k] in f.trims && s[k] != f.sep && s[k] != f.quote && s[k] != '\0'
  }

  /** A plain field has no quote or separator, and does not begin or end with a character to be
      trimmed. A quoted one is only confined to having no NUL. */
  predicate Writable(f: Format, c: Cell) {
    && Padding(f, c.left) && Padding(f, c.right) && '\0' !in c.text
    && (if c.quoted then f.quote !in f.trims
        else
          && f.quote !in c.text && f.sep !in c.text
          && (c.text != "" ==> c.text[0] !in f.trims && c.text[|c.text| - 1] !in f.trims))
  }

  function Body(f: Format, c: Cell): string { if c.quoted then Quoted(f, c.text) else c.text }

  function PrintCell(f: Format, c: Cell): string { c.left + (Body(f, c) + c.right) }

  function Row(f: Format, cells: seq<Cell>): string {
    if cells == [] then ""
    else if |cells| == 1 then PrintCell(f, cells[0])
    else PrintCell(f, cells[0]) + ([f.sep] + Row(f, cells[1..]))
  }

  ghost predicate AllWritable(f: Format, cells: seq<Cell>) { forall k :: 0 <= k < |cells| ==> Writable(f, cells[k]) }

  function Fields(cells: seq<Cell>): (texts: seq<string>)
    ensures |texts| == |cells| && forall k :: 0 <= k < |cells| ==> texts[k] == cells[k].text
  {
    seq(|cells|, k requires 0 <= k < |cells| => cells[k].text)
  }

  lemma {:induction false} CollapseDoubled(f: Format, field: string)
    ensures Collapse(f, Doubled(f, field)) == field
  {
    if field != "" {
      var d, rest := Doubled(f, field), Doubled(f, field[1..]);
      CollapseDoubled(f, field[1..]);
      if field[0] == f.quote {
        assert d == [f.quote, f.quote] + rest && d[2..] == rest;
      } else {
        assert d == [field[0]] + rest && d[1..] == rest;
      }
    }
  }

  lemma {:induction false} LeftTrimmed(f: Format, pad: string, s: string)
    requires Padding(f, pad) && (s == "" || s[0] !in f.trims)
    ensures TrimLeft(f, pad + s) == s
  {
    if pad == "" {
      assert pad + s == s;
    } else {
      assert (pad + s)[1..] == pad[1..] + s;
      LeftTrimmed(f, pad[1..], s);
    }
  }

  lemma {:induction false} RightTrimmed(f: Format, s: string, pad: string)
    requires Padding(f, pad) && (s == "" || s[|s| - 1] !in f.trims)
    ensures TrimRight(f, s + pad) == s
  {
    if pad == "" {
      assert s + pad == s;
    } else {
      var n := |pad| - 1;
      assert (s + pad)[..|s| + n] == s + pad[..n];
      RightTrimmed(f, s, pad[..n]);
    }
  }

  /** Trimming and unescaping a written field gives it back. */
  lemma CookCell(f: Format, c: Cell)
    requires Writable(f, c)
    ensures Cook(f, PrintCell(f, c)) == c.text
  {
    hide TrimLeft, TrimRight;
    var body := Body(f, c);
    BodyEnds(f, c);
    if body == "" {
      assert PrintCell(f, c) == (c.left + c.right) + "";
      LeftTrimmed(f, c.left + c.right, "");
      RightTrimmed(f, "", "");
      assert "" + "" == "";
    } else {
      assert (body + c.right)[0] == body[0];
      LeftTrimmed(f, c.left, body + c.right);
      RightTrimmed(f, body, c.right);
    }
    BodyUnescaped(f, c);
  }

  lemma BodyEnds(f: Format, c: Cell)
    requires Writable(f, c)
    ensures var b := Body(f, c); b != "" ==> b[0] !in f.trims && b[|b| - 1] !in f.trims
  {
  }

  lemma BodyUnescaped(f: Format, c: Cell)
    requires Writable(f, c)
    ensures Unescape(f, Body(f, c)) == c.text
  {
    var q := Body(f, c);
    if c.quoted {
      assert q[1..|q| - 1] == Doubled(f, c.text) && q[|q| - 1] == f.quote;
      CollapseDoubled(f, c.text);
    }
  }

  /** From inside a quoted field the scan comes out right behind its closing quote. */
  lemma {:induction false} InsideDoubled(f: Format, s: string, i: nat, field: string)
    requires i + |Doubled(f, field)| < |s| && s[i..i + |Doubled(f, field)|] == Doubled(f, field)
    requires s[i + |Doubled(f, field)|] == f.quote
    requires i + |Doubled(f, field)| + 1 < |s| ==> s[i + |Doubled(f, field)| + 1] != f.quote
    ensures Inside(f, s, i) == Outside(f, s, i + |Doubled(f, field)| + 1)
    decreases |field|
  {
    if field != "" {
      var d, rest := Doubled(f, field), Doubled(f, field[1..]);
      var k := if field[0] == f.quote then 2 else 1;
      assert d[k..] == rest;
      assert s[i..i + |d|][k..] == s[i + k..i + |d|];
      assert s[i] == s[i..i + |d|][0];
      if k == 2 { assert s[i + 1] == s[i..i + |d|][1]; }
      InsideDoubled(f, s, i + k, field[1..]);
    }
  }

  lemma ThreeSlices(s: string, i: nat, a: string, b: string, c: string)
    requires i + |a| + |b| + |c| <= |s| && s[i..i + |a| + |b| + |c|] == a + (b + c)
    ensures s[i..i + |a|] == a && s[i + |a|..i + |a| + |b|] == b && s[i + |a| + |b|..i + |a| + |b| + |c|] == c
  {
    var t, e := a + (b + c), i + |a| + |b| + |c|;
    SliceOfSlice(s, i, e, 0, |a|);
    SliceOfSlice(s, i, e, |a|, |a| + |b|);
    SliceOfSlice(s, i, e, |a| + |b|, |t|);
    assert t[..|a|] == a && t[|a|..|a| + |b|] == b && t[|a| + |b|..] == c;
  }

  lemma OutsideQuoted(f: Format, s: string, i: nat, field: string)
    requires f.Valid()
    requires i + |Quoted(f, field)| <= |s| && s[i..i + |Quoted(f, field)|] == Quoted(f, field)
    requires i + |Quoted(f, field)| < |s| ==> s[i + |Quoted(f, field)|] != f.quote
    ensures Outside(f, s, i) == Outside(f, s, i + |Quoted(f, field)|)
  {
    hide Inside, Doubled;
    var d := Doubled(f, field);
    ThreeSlices(s, i, [f.quote], d, [f.quote]);
    assert s[i] == s[i..i + 1][0] && s[i + 1 + |d|] == s[i + 1 + |d|..i + 2 + |d|][0];
    InsideDoubled(f, s, i + 1, field);
  }

  lemma {:induction false} OutsidePlain(f: Format, s: string, i: nat, j: nat)
    requires i <= j <= |s| && forall k :: i <= k < j ==> s[k] != f.sep && s[k] != f.quote
    ensures Outside(f, s, i) == Outside(f, s, j)
    decreases j - i
  {
    if i < j { OutsidePlain(f, s, i + 1, j); }
  }

  /** The text is free of quotes and separators. */
  predicate Unmarked(f: Format, t: string) { forall k :: 0 <= k < |t| ==> t[k] != f.sep && t[k] != f.quote }

  lemma OutsideUnmarked(f: Format, s: string, i: nat, t: string)
    requires i + |t| <= |s| && s[i..i + |t|] == t && Unmarked(f, t)
    ensures Outside(f, s, i) == Outside(f, s, i + |t|)
  {
    assert forall k :: i <= k < i + |t| ==> s[k] == s[i..i + |t|][k - i];
    OutsidePlain(f, s, i, i + |t|);
  }

  lemma MarksOf(f: Format, c: Cell)
    requires f.Valid() && Writable(f, c)
    ensures Unmarked(f, c.left) && Unmarked(f, c.right) && (!c.quoted ==> Unmarked(f, c.text))
    ensures c.right != "" ==> c.right[0] != f.quote
  {
  }

  lemma OutsideBody(f: Format, s: string, l: nat, m: nat, e: nat, c: Cell)
    requires f.Valid() && Writable(f, c)
    requires l <= m <= e <= |s| && s[l..m] == Body(f, c) && s[m..e] == c.right && (e < |s| ==> s[e] == f.sep)
    ensures Outside(f, s, l) == Outside(f, s, m)
  {
    hide Outside, Inside, Quoted, Writable, Unmarked;
    MarksOf(f, c);
    if c.quoted {
      assert m < e ==> s[m] == s[m..e][0];
      OutsideQuoted(f, s, l, c.text);
    } else {
      OutsideUnmarked(f, s, l, c.text);
    }
  }

  /** The scan from the start of a written field ends where the field does. */
  lemma OutsideCell(f: Format, s: string, i: nat, c: Cell)
    requires f.Valid() && Writable(f, c)
    requires var e := i + |PrintCell(f, c)|; e <= |s| && s[i..e] == PrintCell(f, c) && (e < |s| ==> s[e] == f.sep)
    ensures Outside(f, s, i) == Some(i + |PrintCell(f, c)|)
  {
    hide Outside, Inside, Quoted, Writable, Unmarked, Body;
    var l, e := i + |c.left|, i + |PrintCell(f, c)|;
    var m := l + |Body(f, c)|;
    ThreeSlices(s, i, c.left, Body(f, c), c.right);
    MarksOf(f, c);
    OutsideUnmarked(f, s, i, c.left);
    OutsideBody(f, s, l, m, e, c);
    OutsideUnmarked(f, s, m, c.right);
    OutsideEnds(f, s, e);
  }

  lemma OutsideEnds(f: Format, s: string, e: nat)
    requires e <= |s| && (e < |s| ==> s[e] == f.sep)
    ensures Outside(f, s, e) == Some(e)
  {
  }

  /** The first field of a row and the rest behind its separator, both as slices of the text. */
  lemma RowSplit(s: string, i: nat, p: string, sep: char, rest: string)
    requires i <= |s| && s[i..] == p + ([sep] + rest)
    ensures var e := i + |p|; e < |s| && s[i..e] == p && s[e] == sep && s[e + 1..] == rest
  {
    var t, n := s[i..], |p|;
    assert |t| == |s| - i;
    SliceOfSlice(s, i, |s|, 0, n);
    SliceOfSlice(s, i, |s|, n + 1, |s| - i);
    assert t[..n] == p && t[n] == sep && t[n + 1..] == rest;
  }

  /** One written field, then the columns behind it. */
  lemma FirstColumn(f: Format, s: string, i: nat, c: Cell, e: nat, n: nat)
    requires f.Valid() && Writable(f, c) && 0 < n
    requires e == i + |PrintCell(f, c)| && e <= |s| && s[i..e] == PrintCell(f, c) && (e < |s| ==> s[e] == f.sep)
    ensures Columns(f, s, Some(i), n) == Prepend([c.text], Columns(f, s, if e < |s| then Some(e + 1) else None, n - 1))
  {
    hide Outside, Cook;
    OutsideCell(f, s, i, c);
    CookCell(f, c);
  }

  lemma ColumnsEnd(f: Format, s: string, line: Option<nat>, n: nat)
    requires line.Some? ==> line.value <= |s|
    ensures n == 0 ==> Columns(f, s, line, n) == if line == None then Ok([]) else Thrown(TooManyColumns)
    ensures n > 0 && line == None ==> Columns(f, s, line, n) == Thrown(TooFewColumns)
  {
  }

  /** The columns of a written row, from any position on. */
  lemma {:induction false} ColumnsOfRow(f: Format, s: string, i: nat, cells: seq<Cell>, n: nat)
    requires f.Valid() && AllWritable(f, cells) && cells != []
    requires i <= |s| && s[i..] == Row(f, cells)
    ensures Columns(f, s, Some(i), n) ==
      if n < |cells| then Thrown(TooManyColumns) else if n > |cells| then Thrown(TooFewColumns) else Ok(Fields(cells))
    decreases |cells|
  {
    hide Outside, PrintCell, Writable, Columns;
    ColumnsEnd(f, s, Some(i), n);
    if n > 0 {
      var p := PrintCell(f, cells[0]);
      var e := i + |p|;
      if |cells| == 1 {
        assert s[i..e] == s[i..] && e == |s|;
        FirstColumn(f, s, i, cells[0], e, n);
        ColumnsEnd(f, s, None, n - 1);
        assert Fields(cells) == [cells[0].text] + [];
      } else {
        RowSplit(s, i, p, f.sep, Row(f, cells[1..]));
        FirstColumn(f, s, i, cells[0], e, n);
        ColumnsOfRow(f, s, e + 1, cells[1..], n - 1);
        assert Fields(cells) == [cells[0].text] + Fields(cells[1..]);
      }
    }
  }

  /** Round trip: fields written quoted or plain, with characters to be trimmed around them, and
      joined with the separator come back from splitting, trimming and unescaping; and a wrong
      number of columns is noticed. */
  lemma RowRestored(f: Format, cells: seq<Cell>, n: nat)
    requires f.Valid() && AllWritable(f, cells) && cells != []
    ensures Columns(f, Row(f, cells), Some(0), n) ==
      if n < |cells| then Thrown(TooManyColumns) else if n > |cells| then Thrown(TooFewColumns) else Ok(Fields(cells))
  {
    ColumnsOfRow(f, Row(f, cells), 0, cells, n);
  }

  lemma {:induction false} InsideOpen(f: Format, s: string, i: nat, field: string)
    requires i <= |s| && s[i..] == Doubled(f, field)
    ensures Inside(f, s, i) == None
    decreases |field|
  {
    if field != "" {
      var k := if field[0] == f.quote then 2 else 1;
      assert s[i] == s[i..][0] && (k == 2 ==> s[i + 1] == s[i..][1]);
      assert s[i + k..] == s[i..][k..] == Doubled(f, field[1..]);
      InsideOpen(f, s, i + k, field[1..]);
    }
  }

  /** A row whose last field lacks its closing quote. */
  function OpenRow(f: Format, cells: seq<Cell>, left: string, text: string): string {
    if cells == [] then left + ([f.quote] + Doubled(f, text))
    else PrintCell(f, cells[0]) + ([f.sep] + OpenRow(f, cells[1..], left, text))
  }

  lemma OpenColumn(f: Format, s: string, i: nat, n: nat)
    requires i <= |s| && n > 0 && Outside(f, s, i) == None
    ensures Columns(f, s, Some(i), n) == Thrown(EscapedStringNotClosed)
  {
  }

  lemma OpenCell(f: Format, s: string, i: nat, left: string, text: string)
    requires f.Valid() && Padding(f, left) && i <= |s| && s[i..] == left + ([f.quote] + Doubled(f, text))
    ensures Outside(f, s, i) == None
  {
    var l := i + |left|;
    assert forall k :: 0 <= k < |s| - i ==> s[i..][k] == s[i + k];
    assert forall k :: i <= k < l ==> s[k] == left[k - i];
    assert s[l] == f.quote && s[l + 1..] == Doubled(f, text);
    OutsidePlain(f, s, i, l);
    InsideOpen(f, s, l + 1, text);
  }

  /** A quote that stays open is noticed when its column is reached. */
  lemma {:induction false} OpenRowThrows(f: Format, s: string, i: nat, cells: seq<Cell>, left: string, text: string,
      n: nat)
    requires f.Valid() && AllWritable(f, cells) && Padding(f, left)
    requires i <= |s| && s[i..] == OpenRow(f, cells, left, text)
    ensures Columns(f, s, Some(i), n) == Thrown(if n <= |cells| then TooManyColumns else EscapedStringNotClosed)
    decreases |cells|
  {
    hide PrintCell, Writable, Outside, Padding, Columns;
    ColumnsEnd(f, s, Some(i), n);
    if n > 0 {
      if cells == [] {
        OpenCell(f, s, i, left, text);
        OpenColumn(f, s, i, n);
      } else {
        var p := PrintCell(f, cells[0]);
        RowSplit(s, i, p, f.sep, OpenRow(f, cells[1..], left, text));
        FirstColumn(f, s, i, cells[0], i + |p|, n);
        OpenRowThrows(f, s, i + |p| + 1, cells[1..], left, text, n - 1);
      }
    }
  }

  // ----- in place -----

  /** A C string with text `text` starts at p. */
  ghost predicate Stored(s: string, p: int, text: string) {
    0 <= p && p + |text| < |s| && s[p..p + |text|] == text && s[p + |text|] == '\0'
  }

  /** The text of the line from `line` on is that of a C string ending at `end`. */
  ghost predicate Terminated(s: string, line: nat, end: nat) {
    line <= end < |s| && s[end] == '\0' && forall k :: line <= k < end ==> s[k] != '\0'
  }

  /** find_next_column_end; pos is meaningful if no quote stays open. */
  method FindNextColumnEnd(f: Format, buf: array<char>, begin: nat, ghost end: nat) returns (closed: bool, pos: nat)
    requires f.Valid() && Terminated(buf[..], begin, end)
    ensures Outside(f, buf[..][..end], begin) == if closed then Some(pos) else None
  {
    ghost var s := buf[..][..end];
    pos := begin;
    while buf[pos] != f.sep && buf[pos] != '\0'
      invariant begin <= pos <= end && Outside(f, s, pos) == Outside(f, s, begin)
      decreases end - pos
    {
      if buf[pos] != f.quote {
        pos := pos + 1;
      } else {
        var again := true;
        ghost var quoteAt := pos;
        while again
          invariant begin <= pos <= end && (again ==> pos < end)
          invariant Outside(f, s, begin) == if again then Inside(f, s, pos + 1) else Outside(f, s, pos)
          invariant quoteAt <= pos && (again || quoteAt < pos)
          decreases end - pos, again
        {
          pos := pos + 1;
          while buf[pos] != f.quote
            invariant begin <= pos <= end && Outside(f, s, begin) == Inside(f, s, pos)
            decreases end - pos
          {
            if buf[pos] == '\0' { return false, pos; }
            pos := pos + 1;
          }
          pos := pos + 1;
          again := buf[pos] == f.quote;
        }
      }
    }
    closed := true;
  }

  lemma LeftStep(f: Format, s: string, b: nat, e: nat)
    requires b <= e <= |s|
    ensures b < e && s[b] in f.trims ==> TrimLeft(f, s[b..e]) == TrimLeft(f, s[b + 1..e])
    ensures (b < e && s[b] in f.trims) || TrimLeft(f, s[b..e]) == s[b..e]
  {
    if b < e { assert s[b..e][1..] == s[b + 1..e]; }
  }

  lemma RightStep(f: Format, s: string, b: nat, e: nat)
    requires b <= e <= |s|
    ensures b < e && s[e - 1] in f.trims ==> TrimRight(f, s[b..e]) == TrimRight(f, s[b..e - 1])
    ensures (b < e && s[e - 1] in f.trims) || TrimRight(f, s[b..e]) == s[b..e]
  {
    if b < e { assert s[b..e][..e - b - 1] == s[b..e - 1]; }
  }

  /** trim: moves both ends inwards and terminates the column at its new end. */
  method Trim(f: Format, buf: array<char>, b: nat, e: nat) returns (b': nat, e': nat)
    requires b <= e < buf.Length
    modifies buf
    ensures b <= b' <= e' <= e
    ensures old(buf[..])[b'..e'] == TrimRight(f, TrimLeft(f, old(buf[..])[b..e]))
    ensures forall k :: b <= k < b' || e' <= k < e ==> old(buf[..])[k] in f.trims
    ensures b' < e' ==> old(buf[..])[b'] !in f.trims && old(buf[..])[e' - 1] !in f.trims
    ensures buf[..] == old(buf[..])[e' := '\0']
  {
    hide TrimLeft, TrimRight;
    ghost var s := buf[..];
    b', e' := b, e;
    while b' != e' && buf[b'] in f.trims
      invariant b <= b' <= e && TrimLeft(f, s[b'..e]) == TrimLeft(f, s[b..e])
      invariant forall k :: b <= k < b' ==> s[k] in f.trims
      invariant forall k :: 0 <= k < |s| ==> buf[k] == s[k]
      decreases e - b'
    {
      LeftStep(f, s, b', e);
      b' := b' + 1;
    }
    LeftStep(f, s, b', e);
    while b' != e' && buf[e' - 1] in f.trims
      invariant b' <= e' <= e && TrimRight(f, s[b'..e']) == TrimRight(f, s[b'..e])
      invariant forall k :: e' <= k < e ==> s[k] in f.trims
      invariant forall k :: 0 <= k < |s| ==> buf[k] == s[k]
      decreases e'
    {
      RightStep(f, s, b', e');
      e' := e' - 1;
    }
    RightStep(f, s, b', e');
    buf[e'] := '\0';
  }

  /** unescape: drops the enclosing quotes and compacts doubled ones to the left. The position
      written, out, never overtakes the position read, in'. */
  method UnescapeColumn(f: Format, buf: array<char>, b: nat, e: nat) returns (b': nat, e': nat)
    requires b <= e < buf.Length && buf[e] == '\0'
    modifies buf
    ensures b <= b' <= e' <= e && buf[e'] == '\0'
    ensures buf[..][b'..e'] == Unescape(f, old(buf[..])[b..e])
    ensures buf[..][..b] == old(buf[..])[..b] && buf[..][e..] == old(buf[..])[e..]
  {
    b', e' := b, e;
    if e - b >= 2 && buf[b] == f.quote && buf[e - 1] == f.quote {
      SliceOfSlice(buf[..], b, e, 1, e - b - 1);
      b', e' := b + 1, e - 1;
      e' := Compact(f, buf, b', e');
      buf[e'] := '\0';
    }
  }

  /** The loop of unescape over the text between the enclosing quotes. */
  method Compact(f: Format, buf: array<char>, b: nat, e: nat) returns (out: nat)
    requires b <= e < buf.Length
    modifies buf
    ensures b <= out <= e && buf[..][b..out] == Collapse(f, old(buf[..])[b..e])
    ensures buf[..][..b] == old(buf[..])[..b] && buf[..][e..] == old(buf[..])[e..]
  {
    hide Collapse;
    ghost var s := buf[..];
    var in' := b;
    ghost var done := "";
    out := b;
    while in' != e
      invariant b <= out <= in' <= e && out == b + |done|
      invariant forall k :: (0 <= k < b || in' <= k < |s|) ==> buf[k] == s[k]
      invariant forall k :: 0 <= k < |done| ==> buf[b + k] == done[k]
      invariant done + Collapse(f, s[in'..e]) == Collapse(f, s[b..e])
      decreases e - in'
    {
      ghost var from := in';
      if buf[in'] == f.quote && in' + 1 != e && buf[in' + 1] == f.quote {
        in' := in' + 1;
      }
      CollapseStep(f, s, done, from, e, in');
      buf[out] := buf[in'];
      done := done + [s[in']];
      out := out + 1;
      in' := in' + 1;
    }
    CollapseNothing(f, s, e);
    assert buf[..][b..out] == done;
  }

  /** One round of the compaction moves the character at `in'`, the first or second from `from`. */
  lemma CollapseStep(f: Format, s: string, done: string, from: nat, e: nat, in': nat)
    requires from < e <= |s|
    requires in' == if s[from] == f.quote && from + 1 < e && s[from + 1] == f.quote then from + 1 else from
    ensures done + Collapse(f, s[from..e]) == done + [s[in']] + Collapse(f, s[in' + 1..e])
  {
    var t := s[from..e];
    assert t[1..] == s[from + 1..e];
    if in' > from { assert t[2..] == s[in' + 1..e]; }
  }

  lemma CollapseNothing(f: Format, s: string, e: nat)
    requires e <= |s|
    ensures Collapse(f, s[e..e]) == ""
  {
  }

  /** chop_next_column: cuts the column starting at `line` and moves `line` behind it. */
  method ChopNextColumn(f: Format, buf: array<char>, line: nat, ghost end: nat)
      returns (closed: bool, colEnd: nat, next: Option<nat>)
    requires f.Valid() && Terminated(buf[..], line, end)
    modifies buf
    ensures Outside(f, old(buf[..])[..end], line) == if closed then Some(colEnd) else None
    ensures closed ==> next == (if colEnd < end then Some(colEnd + 1) else None)
    ensures buf[..] == if closed then old(buf[..])[colEnd := '\0'] else old(buf[..])
  {
    closed, colEnd := FindNextColumnEnd(f, buf, line, end);
    next := None;
    if closed && buf[colEnd] != '\0' {
      buf[colEnd] := '\0';
      next := Some(colEnd + 1);
    }
  }

  /** Trims and unescapes the column, which ends with the '\0' at e; its text stays within. */
  method CookColumn(f: Format, buf: array<char>, b: nat, e: nat) returns (p: nat)
    requires b <= e < buf.Length && buf[e] == '\0'
    modifies buf
    ensures b <= p && p + |Cook(f, old(buf[..])[b..e])| <= e
    ensures Stored(buf[..], p, Cook(f, old(buf[..])[b..e]))
    ensures buf[..][..b] == old(buf[..])[..b] && buf[..][e + 1..] == old(buf[..])[e + 1..]
  {
    hide TrimLeft, TrimRight, Unescape;
    var b', e' := Trim(f, buf, b, e);
    assert buf[..][b'..e'] == old(buf[..])[b'..e'];
    p, e' := UnescapeColumn(f, buf, b', e');
  }

  /** Puts the texts xs before those of r. */
  function Prepend(xs: seq<string>, r: Result<seq<string>, Error>): Result<seq<string>, Error> {
    match r
    case Thrown(error) => Thrown(error)
    case Ok(rest) => Ok(xs + rest)
  }

  /** The texts of the columns parsed so far are where the row points to, before `bound`. */
  ghost predicate RowHolds(s: string, colOrder: seq<int>, row: seq<int>, texts: seq<string>, bound: nat) {
    && |texts| <= |colOrder|
    && forall k :: 0 <= k < |texts| && 0 <= colOrder[k] ==>
         colOrder[k] < |row| && Stored(s, row[colOrder[k]], texts[k]) && row[colOrder[k]] + |texts[k]| < bound
  }

  ghost predicate ColumnOrder(colOrder: seq<int>, n: nat) {
    && (forall k :: 0 <= k < |colOrder| ==> -1 <= colOrder[k] < n)
    && (forall j, k :: 0 <= j < k < |colOrder| && 0 <= colOrder[k] ==> colOrder[j] != colOrder[k])
  }

  lemma StoredKept(s: string, t: string, p: int, text: string, bound: nat)
    requires Stored(s, p, text) && p + |text| < bound <= |s| == |t| && s[..bound] == t[..bound]
    ensures Stored(t, p, text)
  {
    assert forall k :: 0 <= k < bound ==> t[k] == t[..bound][k] == s[..bound][k] == s[k];
  }

  lemma RowKept(s: string, t: string, colOrder: seq<int>, row: seq<int>, texts: seq<string>, bound: nat)
    requires RowHolds(s, colOrder, row, texts, bound) && bound <= |s| == |t| && s[..bound] == t[..bound]
    ensures RowHolds(t, colOrder, row, texts, bound)
  {
    hide Stored;
    forall k | 0 <= k < |texts| && 0 <= colOrder[k] ensures Stored(t, row[colOrder[k]], texts[k]) {
      StoredKept(s, t, row[colOrder[k]], texts[k], bound);
    }
  }

  lemma RowExtended(s: string, colOrder: seq<int>, row: seq<int>, texts: seq<string>, bound: nat, n: nat,
                    p: int, text: string, bound': nat)
    requires RowHolds(s, colOrder, row, texts, bound) && ColumnOrder(colOrder, |row|)
    requires n == |texts| < |colOrder| && bound <= bound'
    requires 0 <= colOrder[n] ==> Stored(s, p, text) && p + |text| < bound'
    ensures RowHolds(s, colOrder, if colOrder[n] == -1 then row else row[colOrder[n] := p], texts + [text], bound')
  {
    hide Stored;
  }

  lemma PrependNext(f: Format, s: string, line: nat, n: nat, texts: seq<string>)
    requires line <= |s| && 0 < n
    ensures match Outside(f, s, line)
            case None => Prepend(texts, Columns(f, s, Some(line), n)) == Thrown(EscapedStringNotClosed)
            case Some(e) =>
              Prepend(texts, Columns(f, s, Some(line), n))
              == Prepend(texts + [Cook(f, s[line..e])], Columns(f, s, if e < |s| then Some(e + 1) else None, n - 1))
  {
    hide Cook, Outside;
    if Outside(f, s, line).Some? {
      var e := Outside(f, s, line).value;
      var r := Columns(f, s, if e < |s| then Some(e + 1) else None, n - 1);
      if r.Ok? { assert texts + ([Cook(f, s[line..e])] + r.value) == texts + [Cook(f, s[line..e])] + r.value; }
    }
  }

  lemma {:induction false} SameScan(f: Format, s: string, t: string, i: nat)
    requires i <= |s| == |t| && s[i..] == t[i..]
    ensures Outside(f, s, i) == Outside(f, t, i) && Inside(f, s, i) == Inside(f, t, i)
    decreases |s| - i
  {
    if i < |s| {
      assert s[i] == s[i..][0] == t[i..][0] == t[i];
      assert s[i + 1..] == s[i..][1..] == t[i..][1..] == t[i + 1..];
      SameScan(f, s, t, i + 1);
      if i + 1 < |s| {
        assert s[i + 1] == s[i + 1..][0] == t[i + 1..][0] == t[i + 1];
        assert s[i + 2..] == s[i + 1..][1..] == t[i + 1..][1..] == t[i + 2..];
        SameScan(f, s, t, i + 2);
      }
    }
  }

  lemma SameTail(s: string, t: string, from: nat, to: nat, end: nat)
    requires from <= to <= end <= |s| == |t| && s[from..] == t[from..]
    ensures s[from..to] == t[from..to] && s[..end][from..] == t[..end][from..]
  {
    assert forall k :: from <= k < |s| ==> s[k] == s[from..][k - from] == t[from..][k - from] == t[k];
  }

  /** One column: cut, and unless it is to be skipped, trimmed and unescaped; s is the line
      before parsing, with which the buffer still agrees from `line` on. */
  method ParseColumn(f: Format, buf: array<char>, line: nat, ghost end: nat, skip: bool, ghost s: string)
      returns (closed: bool, next: Option<nat>, p: nat, ghost e: nat)
    requires f.Valid() && Terminated(s, line, end) && |s| == buf.Length && buf[..][line..] == s[line..]
    modifies buf
    ensures Outside(f, s[..end], line) == if closed then Some(e) else None
    ensures closed ==> e <= end && next == (if e < end then Some(e + 1) else None)
    ensures closed ==> buf[..][..line] == old(buf[..])[..line] && buf[..][e + 1..] == s[e + 1..]
    ensures closed && !skip ==> Stored(buf[..], p, Cook(f, s[line..e])) && p + |Cook(f, s[line..e])| <= e
  {
    hide Outside, Cook, Stored;
    ghost var t := buf[..];
    p := line;
    assert Terminated(t, line, end) by {
      assert forall k :: line <= k <= end ==> t[k] == t[line..][k - line] == s[line..][k - line] == s[k];
    }
    SameTail(s, t, line, end, end);
    SameScan(f, s[..end], t[..end], line);
    var colEnd;
    closed, colEnd, next := ChopNextColumn(f, buf, line, end);
    e := colEnd;
    if closed {
      SameTail(s, t, line, e, end);
      assert t[e + 1..] == s[e + 1..] by { assert t[line..][e + 1 - line..] == s[line..][e + 1 - line..]; }
      if !skip {
        assert buf[..][line..e] == t[line..e];
        p := CookColumn(f, buf, line, colEnd);
      }
    }
  }

  /** parse_line: the row entries named by colOrder (-1: skipped) point to the texts of the
      columns; or the error is thrown that the columns of the text give. */
  method ParseLine(f: Format, buf: array<char>, line: nat, ghost end: nat, colOrder: seq<int>, row0: seq<int>)
      returns (r: Result<seq<int>, Error>)
    requires f.Valid() && Terminated(buf[..], line, end) && ColumnOrder(colOrder, |row0|)
    modifies buf
    ensures match Columns(f, old(buf[..])[..end], Some(line), |colOrder|)
            case Thrown(error) => r == Thrown(error)
            case Ok(texts) =>
              && r.Ok? && |r.value| == |row0| && |texts| == |colOrder|
              && RowHolds(buf[..], colOrder, r.value, texts, buf.Length)
              && forall c :: 0 <= c < |row0| && c !in colOrder ==> r.value[c] == row0[c]
  {
    hide Columns, Outside, Cook, RowHolds, Prepend;
    ghost var s := buf[..];
    ghost var texts: seq<string>, bound: nat := [], line;
    var row, rest := row0, Some(line);
    ParseStart(f, s, line, end, colOrder, row0);
    for n := 0 to |colOrder|
      invariant |texts| == n && |row| == |row0| && bound <= end + 1
      invariant forall c :: 0 <= c < |row0| && c !in colOrder ==> row[c] == row0[c]
      invariant rest == if bound <= end then Some(bound) else None
      invariant buf[..][bound..] == s[bound..] && RowHolds(buf[..], colOrder, row, texts, bound)
      invariant line <= bound &&
        Prepend(texts, Columns(f, s[..end], rest, |colOrder| - n)) == Columns(f, s[..end], Some(line), |colOrder|)
    {
      ParseStep(f, s[..end], rest, |colOrder| - n, texts);
      if rest == None { return Thrown(TooFewColumns); }
      ghost var t := buf[..];
      var closed, next, p, e := ParseColumn(f, buf, rest.value, end, colOrder[n] == -1, s);
      if !closed { return Thrown(EscapedStringNotClosed); }
      ghost var text := Cook(f, s[..end][bound..e]);
      SliceOfSlice(s, 0, end, bound, e);
      RowKept(t, buf[..], colOrder, row, texts, bound);
      RowExtended(buf[..], colOrder, row, texts, bound, n, p, text, e + 1);
      if colOrder[n] != -1 { row := row[colOrder[n] := p]; }
      texts, bound, rest := texts + [text], e + 1, next;
    }
    ParseStep(f, s[..end], rest, 0, texts);
    if rest != None { return Thrown(TooManyColumns); }
    RowDone(buf[..], colOrder, row, texts, bound);
    return Ok(row);
  }

  lemma ParseStart(f: Format, s: string, line: nat, end: nat, colOrder: seq<int>, row0: seq<int>)
    requires line <= end <= |s|
    ensures RowHolds(s, colOrder, row0, [], line)
    ensures Prepend([], Columns(f, s[..end], Some(line), |colOrder|)) == Columns(f, s[..end], Some(line), |colOrder|)
  {
    var r := Columns(f, s[..end], Some(line), |colOrder|);
    if r.Ok? { assert [] + r.value == r.value; }
  }

  lemma RowDone(s: string, colOrder: seq<int>, row: seq<int>, texts: seq<string>, bound: nat)
    requires RowHolds(s, colOrder, row, texts, bound)
    ensures RowHolds(s, colOrder, row, texts, if bound <= |s| then |s| else bound)
  {
  }

  lemma ParseStep(f: Format, s: string, rest: Option<nat>, n: nat, texts: seq<string>)
    requires rest.Some? ==> rest.value <= |s|
    ensures n > 0 && rest == None ==> Prepend(texts, Columns(f, s, rest, n)) == Thrown(TooFewColumns)
    ensures n == 0 && rest != None ==> Prepend(texts, Columns(f, s, rest, n)) == Thrown(TooManyColumns)
    ensures n == 0 && rest == None ==> Prepend(texts, Columns(f, s, rest, n)) == Ok(texts)
    ensures n > 0 && rest.Some? && Outside(f, s, rest.value) == None ==>
      Prepend(texts, Columns(f, s, rest, n)) == Thrown(EscapedStringNotClosed)
    ensures n > 0 && rest.Some? && Outside(f, s, rest.value).Some? ==>
      var e := Outside(f, s, rest.value).value;
      Prepend(texts, Columns(f, s, rest, n))
      == Prepend(texts + [Cook(f, s[rest.value..e])], Columns(f, s, if e < |s| then Some(e + 1) else None, n - 1))
  {
    hide Outside, Cook;
    assert texts + [] == texts;
    if n > 0 && rest.Some? { PrependNext(f, s, rest.value, n, texts); }
  }

  // ----- the round trip in place -----

  lemma {:induction false} DoubledNoNul(f: Format, field: string)
    requires f.Valid() && '\0' !in field
    ensures '\0' !in Doubled(f, field)
  {
    if field != "" { DoubledNoNul(f, field[1..]); }
  }

  lemma {:induction false} RowNoNul(f: Format, cells: seq<Cell>)
    requires f.Valid() && AllWritable(f, cells)
    ensures '\0' !in Row(f, cells)
  {
    if cells != [] {
      DoubledNoNul(f, cells[0].text);
      assert Writable(f, cells[0]) && '\0' !in cells[0].left && '\0' !in cells[0].right;
      if |cells| > 1 { RowNoNul(f, cells[1..]); }
    }
  }

  lemma StoredIsCString(s: string, p: nat, text: string)
    requires Stored(s, p, text) && '\0' !in text
    ensures UpTo(s[p..], '\0') == text
  {
    assert forall k :: 0 <= k < |text| ==> s[p..][k] == s[p..p + |text|][k];
    SpanIs(s[p..], '\0', |text|);
    SliceOfSlice(s, p, |s|, 0, |text|);
  }

  /** Parsing a written row where it stands leaves, for every field that is asked for, a pointer
      to a C string that is that field. */
  method ParseWrittenRow(f: Format, buf: array<char>, end: nat, cells: seq<Cell>, colOrder: seq<int>, row0: seq<int>)
      returns (r: Result<seq<int>, Error>)
    requires f.Valid() && AllWritable(f, cells) && cells != [] && ColumnOrder(colOrder, |row0|)
    requires end < buf.Length && buf[end] == '\0' && buf[..][..end] == Row(f, cells)
    modifies buf
    ensures |colOrder| < |cells| ==> r == Thrown(TooManyColumns)
    ensures |colOrder| > |cells| ==> r == Thrown(TooFewColumns)
    ensures |colOrder| == |cells| ==> r.Ok? && |r.value| == |row0|
    ensures |colOrder| == |cells| ==> forall k :: 0 <= k < |cells| && 0 <= colOrder[k] ==>
      0 <= r.value[colOrder[k]] < buf.Length && UpTo(buf[..][r.value[colOrder[k]]..], '\0') == cells[k].text
  {
    hide Row, Columns, Stored;
    RowRestored(f, cells, |colOrder|);
    RowNoNul(f, cells);
    assert forall k :: 0 <= k < end ==> buf[k] == buf[..][..end][k];
    r := ParseLine(f, buf, 0, end, colOrder, row0);
    if |colOrder| == |cells| {
      forall k | 0 <= k < |cells| && 0 <= colOrder[k]
        ensures 0 <= r.value[colOrder[k]] < buf.Length && UpTo(buf[..][r.value[colOrder[k]]..], '\0') == cells[k].text
      {
        var p := r.value[colOrder[k]];
        assert Writable(f, cells[k]);
        InBounds(buf[..], p, cells[k].text);
        StoredIsCString(buf[..], p, cells[k].text);
      }
    }
  }

  lemma InBounds(s: string, p: int, text: string)
    requires Stored(s, p, text)
    ensures 0 <= p < |s|
  {
  }
}
