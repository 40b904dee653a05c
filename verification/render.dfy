/** The listing printed by `selectContacts` (addressbook/main.go:282-323):
    a header line, then for every row a dashed separator line followed by
    the row itself. Text columns are `%-20s`, the id column is `%2d`, and
    the date is shown with its time suffix removed. Each element of the
    result is one printed line; Go ends every one of them with a newline. */
module Render {
  import opened Results
  import opened Contacts
  import opened Format
  import GoStrings
  import Dates

  const TextWidth: nat := 20
  const IdWidth: nat := 2

  /** A printed line: bars around an id column and three text columns. */
  function Line(id: string, a: string, b: string, c: string): string {
    "| " + id + " | " + a + " | " + b + " | " + c + " |"
  }

  const Dashes: string := GoStrings.Repeat('-', TextWidth)

  /** The column names, upper-cased, each in a `%-20s` cell. */
  const Header: string :=
    Line("ID", PadRight("FIRSTNAME", TextWidth), PadRight("LASTNAME", TextWidth),
         PadRight("DAYOFBIRTH", TextWidth))

  /** Twenty dashes under each text column, two under the id. */
  const Separator: string := Line("--", Dashes, Dashes, Dashes)

  /** The line printed for one stored contact. */
  function Row(c: Contact): (r: string)
    ensures |r| == 13 + Max(|Decimal(c.id)|, IdWidth) + Max(|c.firstname|, TextWidth)
                 + Max(|c.lastname|, TextWidth) + Max(|Dates.StripTime(c.dayofbirth)|, TextWidth)
    ensures r[..2] == "| " && r[|r| - 2..] == " |"
  {
    Line(PadLeft(Decimal(c.id), IdWidth), PadRight(c.firstname, TextWidth),
         PadRight(c.lastname, TextWidth), PadRight(Dates.StripTime(c.dayofbirth), TextWidth))
  }

  /** The row is the line whose id cell shows the id right-aligned to two
      runes and whose text cells show first name, last name and the date
      without its time suffix, each left-aligned to twenty runes. */
  lemma RowLayout(c: Contact, id: string, a: string, b: string, d: string)
    requires RightAligned(id, Decimal(c.id), IdWidth)
    requires LeftAligned(a, c.firstname, TextWidth)
    requires LeftAligned(b, c.lastname, TextWidth)
    requires LeftAligned(d, Dates.StripTime(c.dayofbirth), TextWidth)
    ensures Row(c) == Line(id, a, b, d)
  {
    RightAlignedUnique(id, PadLeft(Decimal(c.id), IdWidth), Decimal(c.id), IdWidth);
    LeftAlignedUnique(a, PadRight(c.firstname, TextWidth), c.firstname, TextWidth);
    LeftAlignedUnique(b, PadRight(c.lastname, TextWidth), c.lastname, TextWidth);
    LeftAlignedUnique(d, PadRight(Dates.StripTime(c.dayofbirth), TextWidth),
                      Dates.StripTime(c.dayofbirth), TextWidth);
  }

  // ---- the fixed column grid ----

  /** Offsets of the five bars of a line whose cells all fit their widths. */
  const Bars: seq<nat> := [0, 5, 28, 51, 74]
  const LineWidth: nat := 75

  /** The line has the width and the bars of the grid. */
  predicate OnGrid(line: string) {
    |line| == LineWidth && forall j | 0 <= j < |Bars| :: line[Bars[j]] == '|'
  }

  /** The id column of a line whose three text cells are twenty runes wide:
      everything between the leading bar and the first text column, so an
      id wider than two runes widens this column and no other. */
  function IdColumn(line: string): string
    requires |line| >= LineWidth
  {
    line[2..|line| - 71]
  }

  /** Text column `k` (0, 1 or 2), counted from the end of the line. */
  function TextColumn(line: string, k: nat): string
    requires |line| >= LineWidth && k < 3
  {
    line[|line| - 68 + 23 * k..|line| - 48 + 23 * k]
  }

  /** The line has the separators of a printed line around an id cell of
      any width and three text cells of twenty runes each. */
  predicate Framed(line: string) {
    && |line| >= LineWidth
    && line[..2] == "| "
    && line[|line| - 71..|line| - 68] == " | "
    && line[|line| - 48..|line| - 45] == " | "
    && line[|line| - 25..|line| - 22] == " | "
    && line[|line| - 2..] == " |"
  }

  /** A framed line is the line printed from its own cells. */
  lemma FramedIsLine(line: string)
    requires Framed(line)
    ensures line == Line(IdColumn(line), TextColumn(line, 0), TextColumn(line, 1), TextColumn(line, 2))
  {
    // Peel the line from the right, one printed piece at a time.
    var n := |line|;
    assert line == line[..n - 2] + line[n - 2..];
    assert line[..n - 2] == line[..n - 22] + line[n - 22..n - 2];
    assert line[..n - 22] == line[..n - 25] + line[n - 25..n - 22];
    assert line[..n - 25] == line[..n - 45] + line[n - 45..n - 25];
    assert line[..n - 45] == line[..n - 48] + line[n - 48..n - 45];
    assert line[..n - 48] == line[..n - 68] + line[n - 68..n - 48];
    assert line[..n - 68] == line[..n - 71] + line[n - 71..n - 68];
    assert line[..n - 71] == line[..2] + line[2..n - 71];
  }

  /** A line with twenty-rune text cells and an id cell of at least two
      runes is framed, is as much wider than the grid as its id cell is
      wider than two runes, and has each cell in its column. */
  lemma LineCells(id: string, a: string, b: string, c: string)
    requires |id| >= IdWidth && |a| == TextWidth && |b| == TextWidth && |c| == TextWidth
    ensures |Line(id, a, b, c)| == LineWidth - IdWidth + |id|
    ensures IdColumn(Line(id, a, b, c)) == id
    ensures TextColumn(Line(id, a, b, c), 0) == a
    ensures TextColumn(Line(id, a, b, c), 1) == b
    ensures TextColumn(Line(id, a, b, c), 2) == c
    ensures Framed(Line(id, a, b, c))
  {
    var l := Line(id, a, b, c);
    var e := 2 + |id|;
    assert l == "| " + id + " | " + a + " | " + b + " | " + c + " |";
    assert l[2..e] == id;
    assert l[e + 3..e + 23] == a;
    assert l[e + 26..e + 46] == b;
    assert l[e + 49..e + 69] == c;
    assert l[..2] == "| " && l[e..e + 3] == " | " && l[e + 23..e + 26] == " | ";
    assert l[e + 46..e + 49] == " | " && l[e + 69..] == " |";
  }

  /** A line whose cells have exactly the column widths sits on the grid,
      with each cell in its column. */
  lemma LineOnGrid(id: string, a: string, b: string, c: string)
    requires |id| == IdWidth && |a| == TextWidth && |b| == TextWidth && |c| == TextWidth
    ensures OnGrid(Line(id, a, b, c))
    ensures IdColumn(Line(id, a, b, c)) == id
    ensures TextColumn(Line(id, a, b, c), 0) == a
    ensures TextColumn(Line(id, a, b, c), 1) == b
    ensures TextColumn(Line(id, a, b, c), 2) == c
  {
    var l := Line(id, a, b, c);
    assert l == "| " + id + " | " + a + " | " + b + " | " + c + " |";
    assert l[0] == '|' && l[5] == '|' && l[28] == '|' && l[51] == '|' && l[74] == '|';
    LineCells(id, a, b, c);
  }

  /** The header and separator sit on the grid; the separator has exactly
      twenty dashes in each text column, the header the column names. */
  lemma HeaderAndSeparatorOnGrid()
    ensures OnGrid(Header) && OnGrid(Separator)
    ensures IdColumn(Header) == "ID" && IdColumn(Separator) == "--"
    ensures TextColumn(Header, 0) == PadRight("FIRSTNAME", TextWidth)
    ensures TextColumn(Header, 1) == PadRight("LASTNAME", TextWidth)
    ensures TextColumn(Header, 2) == PadRight("DAYOFBIRTH", TextWidth)
    ensures forall k | 0 <= k < 3 :: TextColumn(Separator, k) == Dashes
  {
    LineOnGrid("ID", PadRight("FIRSTNAME", TextWidth), PadRight("LASTNAME", TextWidth),
               PadRight("DAYOFBIRTH", TextWidth));
    LineOnGrid("--", Dashes, Dashes, Dashes);
  }

  /** No text of the contact (the date after its suffix is removed) is
      wider than twenty runes. */
  predicate TextFits(c: Contact) {
    && |c.firstname| <= TextWidth
    && |c.lastname| <= TextWidth
    && |Dates.StripTime(c.dayofbirth)| <= TextWidth
  }

  /** The contact's values fit their columns: the text fits, and the id is
      from -9 to 99. */
  predicate Fits(c: Contact) {
    -9 <= c.id <= 99 && TextFits(c)
  }

  /** When the text fits, a row of any id is framed, with each value in
      its column: the id at the right of its, the text at the left. */
  lemma RowCells(c: Contact)
    requires TextFits(c)
    ensures Framed(Row(c))
    ensures |Row(c)| == LineWidth - IdWidth + Max(|Decimal(c.id)|, IdWidth)
    ensures RightAligned(IdColumn(Row(c)), Decimal(c.id), IdWidth)
    ensures LeftAligned(TextColumn(Row(c), 0), c.firstname, TextWidth)
    ensures LeftAligned(TextColumn(Row(c), 1), c.lastname, TextWidth)
    ensures LeftAligned(TextColumn(Row(c), 2), Dates.StripTime(c.dayofbirth), TextWidth)
  {
    LineCells(PadLeft(Decimal(c.id), IdWidth), PadRight(c.firstname, TextWidth),
              PadRight(c.lastname, TextWidth), PadRight(Dates.StripTime(c.dayofbirth), TextWidth));
  }

  /** A row whose values fit lines up with the header: same width, same bars,
      each value at the left of its column and the id at the right of its. */
  lemma RowOnGrid(c: Contact)
    requires Fits(c)
    ensures OnGrid(Row(c))
    ensures RightAligned(IdColumn(Row(c)), Decimal(c.id), IdWidth)
    ensures LeftAligned(TextColumn(Row(c), 0), c.firstname, TextWidth)
    ensures LeftAligned(TextColumn(Row(c), 1), c.lastname, TextWidth)
    ensures LeftAligned(TextColumn(Row(c), 2), Dates.StripTime(c.dayofbirth), TextWidth)
  {
    DecimalFitsTwo(c.id);
    LineOnGrid(PadLeft(Decimal(c.id), IdWidth), PadRight(c.firstname, TextWidth),
               PadRight(c.lastname, TextWidth), PadRight(Dates.StripTime(c.dayofbirth), TextWidth));
  }

  /** With text that fits, a row lines up with the header exactly when its
      id is printed in two runes: from id 100 on (or below -9) the id
      column widens and every later bar moves right. */
  lemma RowAlignsOnlyForTwoRuneIds(c: Contact)
    requires TextFits(c)
    ensures OnGrid(Row(c)) <==> -9 <= c.id <= 99
  {
    DecimalFitsTwo(c.id);
    RowCells(c);
    if -9 <= c.id <= 99 {
      RowOnGrid(c);
    }
  }

  // ---- reading a row back ----

  predicate NoTrailingSpace(s: string) {
    s == [] || s[|s| - 1] != ' '
  }

  /** Reads a contact back from a framed line: the id column as a decimal
      number, the text columns without their padding. */
  function ReadRow(line: string): (r: Option<Contact>)
    ensures r.Some? ==> Framed(line)
  {
    if !Framed(line) then None
    else match ParseDecimal(TrimLeadingSpaces(IdColumn(line)))
      case None => None
      case Some(id) =>
        if MinInt <= id <= MaxInt then
          Some(Contact(id, TrimTrailingSpaces(TextColumn(line, 0)),
                       TrimTrailingSpaces(TextColumn(line, 1)),
                       TrimTrailingSpaces(TextColumn(line, 2))))
        else None
  }

  /** What reading gives back is always something a row can show in full:
      text of at most twenty runes that does not end in a space. */
  lemma ReadRowText(line: string)
    requires ReadRow(line).Some?
    ensures |ReadRow(line).value.firstname| <= TextWidth
    ensures NoTrailingSpace(ReadRow(line).value.firstname)
    ensures |ReadRow(line).value.lastname| <= TextWidth
    ensures NoTrailingSpace(ReadRow(line).value.lastname)
    ensures |ReadRow(line).value.dayofbirth| <= TextWidth
    ensures NoTrailingSpace(ReadRow(line).value.dayofbirth)
  {
  }

  /** A text cell reads back as its value, unless the value ends in a space. */
  lemma TextCellReadBack(cell: string, s: string)
    requires LeftAligned(cell, s, TextWidth) && NoTrailingSpace(s)
    ensures TrimTrailingSpaces(cell) == s
  {
    LeftAlignedUnique(cell, PadRight(s, TextWidth), s, TextWidth);
    PadRightTrimmed(s, TextWidth);
  }

  /** An id cell reads back as the id. */
  lemma IdCellReadBack(cell: string, n: int)
    requires RightAligned(cell, Decimal(n), IdWidth)
    ensures ParseDecimal(TrimLeadingSpaces(cell)) == Some(n)
  {
    RightAlignedUnique(cell, PadLeft(Decimal(n), IdWidth), Decimal(n), IdWidth);
    PadLeftTrimmed(Decimal(n), IdWidth);
    DecimalRoundTrip(n);
  }

  /** A framed line whose cells show the given values reads back as the
      contact holding them. */
  lemma ReadAlignedLine(line: string, c: Contact)
    requires Framed(line)
    requires RightAligned(IdColumn(line), Decimal(c.id), IdWidth)
    requires LeftAligned(TextColumn(line, 0), c.firstname, TextWidth)
    requires LeftAligned(TextColumn(line, 1), c.lastname, TextWidth)
    requires LeftAligned(TextColumn(line, 2), c.dayofbirth, TextWidth)
    requires NoTrailingSpace(c.firstname) && NoTrailingSpace(c.lastname)
    requires NoTrailingSpace(c.dayofbirth)
    ensures ReadRow(line) == Some(c)
  {
    IdCellReadBack(IdColumn(line), c.id);
    TextCellReadBack(TextColumn(line, 0), c.firstname);
    TextCellReadBack(TextColumn(line, 1), c.lastname);
    TextCellReadBack(TextColumn(line, 2), c.dayofbirth);
  }

  /** A row loses nothing but the time suffix: for any id, when the text
      fits its columns and does not end in a space, reading the row gives
      back the contact with its date as displayed. */
  lemma RowReadBack(c: Contact)
    requires TextFits(c)
    requires NoTrailingSpace(c.firstname) && NoTrailingSpace(c.lastname)
    requires NoTrailingSpace(Dates.StripTime(c.dayofbirth))
    ensures ReadRow(Row(c)) == Some(c.(dayofbirth := Dates.StripTime(c.dayofbirth)))
  {
    RowCells(c);
    ReadAlignedLine(Row(c), c.(dayofbirth := Dates.StripTime(c.dayofbirth)));
  }

  // ---- the listing ----

  /** The printing loop of `selectContacts`, over lines already rendered:
      the header, then the separator and the line of each row in turn. */
  method Interleave<T>(header: T, separator: T, items: seq<T>) returns (lines: seq<T>)
    ensures |lines| == 1 + 2 * |items|
    ensures lines[0] == header
    ensures forall i | 0 <= i < |items| :: lines[2 * i + 1] == separator
    ensures forall i | 0 <= i < |items| :: lines[2 * i + 2] == items[i]
  {
    lines := [header];
    var n := 0;
    while n < |items|
      invariant 0 <= n <= |items|
      invariant |lines| == 1 + 2 * n
      invariant lines[0] == header
      invariant forall i | 0 <= i < n :: lines[2 * i + 1] == separator
      invariant forall i | 0 <= i < n :: lines[2 * i + 2] == items[i]
    {
      lines := lines + [separator, items[n]];
      n := n + 1;
    }
  }

  /** `selectContacts` from the rows the query returned: the header, then a
      separator before every row. With no rows only the header is printed. */
  method SelectContacts(rows: seq<Contact>) returns (lines: seq<string>)
    ensures |lines| == 1 + 2 * |rows|
    ensures lines[0] == Header
    ensures forall i | 0 <= i < |rows| :: lines[2 * i + 1] == Separator
    ensures forall i | 0 <= i < |rows| :: lines[2 * i + 2] == Row(rows[i])
  {
    var rendered := seq(|rows|, i requires 0 <= i < |rows| => Row(rows[i]));
    lines := Interleave(Header, Separator, rendered);
    forall i | 0 <= i < |rows|
      ensures lines[2 * i + 2] == Row(rows[i])
    {
      assert lines[2 * i + 2] == rendered[i];
    }
  }

  /** When every row fits, every line of the listing sits on one grid. */
  lemma ListingOnGrid(rows: seq<Contact>, lines: seq<string>)
    requires forall i | 0 <= i < |rows| :: Fits(rows[i])
    requires |lines| == 1 + 2 * |rows| && lines[0] == Header
    requires forall i | 0 <= i < |rows| :: lines[2 * i + 1] == Separator
    requires forall i | 0 <= i < |rows| :: lines[2 * i + 2] == Row(rows[i])
    ensures forall l | 0 <= l < |lines| :: OnGrid(lines[l])
  {
    forall l | 0 <= l < |lines|
      ensures OnGrid(lines[l])
    {
      var i := (l - 1) / 2;
      if l == 0 {
        HeaderAndSeparatorOnGrid();
      } else if l == 2 * i + 1 {
        HeaderAndSeparatorOnGrid();
      } else {
        assert l == 2 * i + 2;
        RowOnGrid(rows[i]);
      }
    }
  }
}
