/** LOAD DATA text: the escaping writer, and a reader for
    FIELDS TERMINATED BY '\t' ESCAPED BY '\\' LINES TERMINATED BY '\n' written from "LOAD
    DATA Statement: Field and Line Handling" in the MySQL Reference Manual.

    By that section, for an input field an escape character followed by 0, b, n, r, t or Z
    stands for NUL, backspace, newline, carriage return, tab or Control-Z; followed by any
    other character it stands for that character; and a field that is exactly the escape
    character and N is NULL. Separators count only where they are not escaped. */
module LoadData {
  import opened Rows
  import opened Octets

  const ESC: Byte := 0x5C
  const TAB: Byte := 0x09
  const NEWLINE: Byte := 0x0A
  const LETTER_N: Byte := 0x4E

  type Field = Option<Bytes>

  type Line = seq<Field>

  // ---------- the writer ----------

  /** The escape letter of a byte that must not stand for itself. */
  function Letter(b: Byte): Option<Byte> {
    if b == 0x00 then Some(0x30)        // 0
    else if b == 0x08 then Some(0x62)   // b
    else if b == TAB then Some(0x74)    // t
    else if b == NEWLINE then Some(0x6E) // n
    else if b == 0x0D then Some(0x72)   // r
    else if b == 0x1A then Some(0x5A)   // Z
    else if b == ESC then Some(ESC)
    else None
  }

  function EscapeByte(b: Byte): Bytes {
    if Letter(b).Some? then [ESC, Letter(b).value] else [b]
  }

  function Escape(v: Bytes): Bytes {
    if v == [] then [] else EscapeByte(v[0]) + Escape(v[1..])
  }

  function FieldText(f: Field): Bytes {
    if f.None? then [ESC, LETTER_N] else Escape(f.value)
  }

  /** Fields joined by tabs. */
  function Joined(row: Line): Bytes {
    if row == [] then []
    else if |row| == 1 then FieldText(row[0])
    else FieldText(row[0]) + [TAB] + Joined(row[1..])
  }

  function LineText(row: Line): Bytes {
    Joined(row) + [NEWLINE]
  }

  class RowWriter {
    var out: Bytes

    constructor ()
      ensures out == []
    {
      out := [];
    }

    method EscapeOne(b: Byte)
      modifies this
      ensures out == old(out) + EscapeByte(b)
    {
      match b {
        case 0x00 => out := out + [ESC, 0x30];
        case 0x08 => out := out + [ESC, 0x62];
        case 0x09 => out := out + [ESC, 0x74];
        case 0x0A => out := out + [ESC, 0x6E];
        case 0x0D => out := out + [ESC, 0x72];
        case 0x1A => out := out + [ESC, 0x5A];
        case 0x5C => out := out + [ESC, ESC];
        case _ => out := out + [b];
      }
    }

    method EscapeInto(v: Bytes)
      modifies this
      ensures out == old(out) + Escape(v)
    {
      for i := 0 to |v|
        invariant out == old(out) + Escape(v[..i])
      {
        EscapeAppend(v[..i], v[i]);
        assert v[..i + 1] == v[..i] + [v[i]];
        EscapeOne(v[i]);
      }
      assert v[..|v|] == v;
    }

    method WriteRow(row: Line)
      modifies this
      ensures out == old(out) + LineText(row)
    {
      ghost var start := out;
      for i := 0 to |row|
        invariant out == start + Joined(row[..i])
      {
        JoinedAppend(row[..i], row[i]);
        assert row[..i + 1] == row[..i] + [row[i]];
        Join(start, Joined(row[..i]), if i == 0 then [] else [TAB], FieldText(row[i]));
        if i > 0 { out := out + [TAB]; }
        if row[i].None? {
          out := out + [ESC, LETTER_N];
          continue;
        }
        EscapeInto(row[i].value);
      }
      assert row[..|row|] == row;
      out := out + [NEWLINE];
    }
  }

  lemma {:induction false} EscapeAppend(v: Bytes, b: Byte)
    ensures Escape(v + [b]) == Escape(v) + EscapeByte(b)
  {
    if v == [] {
      assert [] + [b] == [b];
    } else {
      assert (v + [b])[1..] == v[1..] + [b];
      EscapeAppend(v[1..], b);
    }
  }

  lemma Join(a: Bytes, b: Bytes, c: Bytes, d: Bytes)
    ensures a + (b + c + d) == a + b + c + d
  {}

  lemma {:induction false} JoinedAppend(row: Line, f: Field)
    ensures Joined(row + [f]) == Joined(row) + (if row == [] then [] else [TAB]) + FieldText(f)
  {
    if row == [] {
      assert [] + [f] == [f];
    } else {
      var head := FieldText(row[0]) + [TAB];
      assert (row + [f])[1..] == row[1..] + [f] && (row + [f])[0] == row[0];
      JoinedAppend(row[1..], f);
      if |row| == 1 {
        assert row[1..] == [] && [] + [f] == [f];
      } else {
        Join(head, Joined(row[1..]), [TAB], FieldText(f));
      }
    }
  }

  // ---------- the reader ----------

  /** What an escaped character stands for. */
  function Meaning(c: Byte): Byte {
    if c == 0x30 then 0x00
    else if c == 0x62 then 0x08
    else if c == 0x6E then NEWLINE
    else if c == 0x72 then 0x0D
    else if c == 0x74 then TAB
    else if c == 0x5A then 0x1A
    else c
  }

  /** One raw field up to the first unescaped separator, the separator, and the rest. */
  datatype Raw = Raw(text: Bytes, sep: Byte, rest: Bytes) | Unterminated

  function Scan(s: Bytes): Raw {
    if s == [] then Unterminated
    else if s[0] == TAB || s[0] == NEWLINE then Raw([], s[0], s[1..])
    else if s[0] == ESC then
      if |s| == 1 then Unterminated
      else
        var r := Scan(s[2..]);
        if r.Unterminated? then Unterminated else r.(text := s[..2] + r.text)
    else
      var r := Scan(s[1..]);
      if r.Unterminated? then Unterminated else r.(text := s[..1] + r.text)
  }

  function Unescape(raw: Bytes): Bytes {
    if raw == [] then []
    else if raw[0] == ESC && |raw| > 1 then [Meaning(raw[1])] + Unescape(raw[2..])
    else [raw[0]] + Unescape(raw[1..])
  }

  function ReadField(raw: Bytes): Field {
    if raw == [ESC, LETTER_N] then None else Some(Unescape(raw))
  }

  /** One line of at least one field, and the rest. */
  datatype Parsed = Parsed(row: Line, rest: Bytes) | Broken

  function ReadLine(s: Bytes): Parsed
    decreases |s|
  {
    var r := Scan(s);
    if r.Unterminated? then Broken
    else if r.sep == NEWLINE then Parsed([ReadField(r.text)], r.rest)
    else
      ScanShrinks(s);
      var tail := ReadLine(r.rest);
      if tail.Broken? then Broken else Parsed([ReadField(r.text)] + tail.row, tail.rest)
  }

  lemma {:induction false} ScanShrinks(s: Bytes)
    ensures Scan(s).Raw? ==> |Scan(s).rest| < |s|
  {
    if s != [] && s[0] != TAB && s[0] != NEWLINE {
      if s[0] == ESC {
        if |s| > 1 { ScanShrinks(s[2..]); }
      } else {
        ScanShrinks(s[1..]);
      }
    }
  }

  // ---------- they invert ----------

  /** Scanning passes over an escaped byte. */
  lemma {:induction false} ScanPast(b: Byte, tail: Bytes)
    ensures var e := EscapeByte(b); var r := Scan(tail);
            Scan(e + tail) == if r.Unterminated? then Unterminated else r.(text := e + r.text)
  {
    var e := EscapeByte(b);
    assert (e + tail)[|e|..] == tail && (e + tail)[..|e|] == e;
  }

  /** Escaped text holds no bare separator, so scanning stops only at the real one. */
  lemma {:induction false} ScanEscaped(v: Bytes, sep: Byte, rest: Bytes)
    requires sep == TAB || sep == NEWLINE
    ensures Scan(Escape(v) + [sep] + rest) == Raw(Escape(v), sep, rest)
  {
    if v == [] {
      assert Escape(v) + [sep] + rest == [sep] + rest;
    } else {
      var tail := Escape(v[1..]) + [sep] + rest;
      ScanEscaped(v[1..], sep, rest);
      ScanPast(v[0], tail);
      Join(EscapeByte(v[0]), Escape(v[1..]), [sep], rest);
    }
  }

  lemma {:induction false} ScanField(f: Field, sep: Byte, rest: Bytes)
    requires sep == TAB || sep == NEWLINE
    ensures Scan(FieldText(f) + [sep] + rest) == Raw(FieldText(f), sep, rest)
  {
    if f.None? {
      var s := [ESC, LETTER_N] + [sep] + rest;
      assert s[2..] == [sep] + rest && s[..2] == [ESC, LETTER_N];
      assert Scan([sep] + rest) == Raw([], sep, rest);
    } else {
      ScanEscaped(f.value, sep, rest);
    }
  }

  lemma {:induction false} UnescapeEscape(v: Bytes)
    ensures Unescape(Escape(v)) == v
  {
    if v != [] {
      var e, tail := EscapeByte(v[0]), Escape(v[1..]);
      UnescapeEscape(v[1..]);
      assert (e + tail)[|e|..] == tail;
    }
  }

  /** No value's text is the NULL sentinel, the value `\N` included. */
  lemma {:induction false} NullIsDistinct(v: Bytes)
    ensures Escape(v) != [ESC, LETTER_N]
  {
    if v != [] {
      assert EscapeByte(v[0]) <= Escape(v);
      if Letter(v[0]).Some? { assert Escape(v)[1] == Letter(v[0]).value; }
    }
  }

  lemma {:induction false} FieldRoundTrip(f: Field)
    ensures ReadField(FieldText(f)) == f
  {
    if f.Some? {
      NullIsDistinct(f.value);
      UnescapeEscape(f.value);
    }
  }

  lemma {:induction false} ReadLineBy(s: Bytes, raw: Raw)
    requires Scan(s) == raw && raw.Raw?
    ensures raw.sep == NEWLINE ==> ReadLine(s) == Parsed([ReadField(raw.text)], raw.rest)
    ensures raw.sep != NEWLINE && ReadLine(raw.rest).Parsed? ==>
              ReadLine(s) == Parsed([ReadField(raw.text)] + ReadLine(raw.rest).row, ReadLine(raw.rest).rest)
  {
    ScanShrinks(s);
  }

  lemma {:induction false} LastField(f: Field, rest: Bytes)
    ensures ReadLine(FieldText(f) + [NEWLINE] + rest) == Parsed([f], rest)
  {
    ScanField(f, NEWLINE, rest);
    FieldRoundTrip(f);
    ReadLineBy(FieldText(f) + [NEWLINE] + rest, Raw(FieldText(f), NEWLINE, rest));
  }

  lemma {:induction false} EarlierField(f: Field, tail: Bytes)
    requires ReadLine(tail).Parsed?
    ensures ReadLine(FieldText(f) + [TAB] + tail) == Parsed([f] + ReadLine(tail).row, ReadLine(tail).rest)
  {
    ScanField(f, TAB, tail);
    FieldRoundTrip(f);
    ReadLineBy(FieldText(f) + [TAB] + tail, Raw(FieldText(f), TAB, tail));
  }

  /** A row of at least one field reads back byte for byte, NULLs as NULLs. */
  lemma {:induction false} LineRoundTrip(row: Line, rest: Bytes)
    requires row != []
    ensures ReadLine(LineText(row) + rest) == Parsed(row, rest)
  {
    if |row| == 1 {
      LastField(row[0], rest);
      assert row == [row[0]];
    } else {
      LineRoundTrip(row[1..], rest);
      EarlierField(row[0], LineText(row[1..]) + rest);
      assert LineText(row) + rest == FieldText(row[0]) + [TAB] + (LineText(row[1..]) + rest);
      assert row == [row[0]] + row[1..];
    }
  }

  // ---------- whole files of fixed arity ----------

  function FileText(rows: seq<Line>): Bytes {
    if rows == [] then [] else LineText(rows[0]) + FileText(rows[1..])
  }

  /** Rows until the input is empty; a broken line ends the load. */
  function ReadFile(s: Bytes): Option<seq<Line>>
    decreases |s|
  {
    if s == [] then Some([])
    else
      var p := ReadLine(s);
      if p.Broken? then None
      else
        LineShrinks(s);
        var rest := ReadFile(p.rest);
        if rest.None? then None else Some([p.row] + rest.value)
  }

  lemma {:induction false} LineShrinks(s: Bytes)
    ensures ReadLine(s).Parsed? ==> |ReadLine(s).rest| < |s|
    decreases |s|
  {
    ScanShrinks(s);
    if Scan(s).Raw? && Scan(s).sep != NEWLINE { LineShrinks(Scan(s).rest); }
  }

  lemma {:induction false} FileStep(s: Bytes, row: Line, rest: Bytes)
    requires s != [] && ReadLine(s) == Parsed(row, rest) && ReadFile(rest).Some?
    ensures ReadFile(s) == Some([row] + ReadFile(rest).value)
  {
    LineShrinks(s);
  }

  /** Rows of one arity, at least one column wide, load back exactly. */
  lemma {:induction false} FileRoundTrip(rows: seq<Line>, arity: nat)
    requires arity > 0 && forall row <- rows :: |row| == arity
    ensures ReadFile(FileText(rows)) == Some(rows)
  {
    if rows != [] {
      LineRoundTrip(rows[0], FileText(rows[1..]));
      FileRoundTrip(rows[1..], arity);
      FileStep(FileText(rows), rows[0], FileText(rows[1..]));
      assert rows == [rows[0]] + rows[1..];
    }
  }
}
