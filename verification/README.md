# addressbook — a Dafny model of the command-line front end

`addressbook` is a small Go command-line tool that keeps contacts (first
name, last name, date of birth) in an SQLite table. It offers the
subcommands `select` (the default), `insert`, `update`, `delete` and
`delete-all`. Almost all of the work is done by SQLite. The program's own
logic has two parts, and this project models both:

1. **Dispatch** (`run`). The subcommand token picks one storage action.
   Before that, the subcommand's required flags are checked in a fixed
   order, and the first failed check decides the error message. Insert
   appends the time suffix `" 00:00:00.000"` to the date. Update passes
   every value through unchanged. Update refuses only `-id=0`
   (addressbook/main.go:164), so a negative id reaches the UPDATE
   statement. Delete refuses every id that is not positive
   (addressbook/main.go:191-192).
2. **Listing** (`selectContacts`). It prints a header line. Before each row
   it prints a separator line, then the row itself. Text cells use `%-20s`
   and the id uses `%2d`. The date is printed after the first occurrence of
   the time suffix is removed.

Modules:

- `Results` (`results.dfy`): `Option` and `Result`.
- `Contacts` (`contacts.dfy`): the `Contact` record, Go's 64-bit `int` as
  `GoInt`, and the five storage actions (`Select`, `Insert`, `Update`,
  `Delete`, `DeleteAll`).
- `GoStrings` (`gostrings.dfy`): `strings.Index`, `strings.Replace` with a
  count of 1, and `strings.Repeat`.
- `Format` (`format.dfy`): the `fmt` verbs `%-20s`, `%2d` and `%d`. It also
  has the predicates `LeftAligned` and `RightAligned`, which state what a
  padded cell is, and decimal and padding read-back functions that act as
  inverses of the printing functions.
- `Dates` (`dates.dfy`): adding and stripping the time suffix.
- `Dispatch` (`dispatch.dfy`): `Run`. It also has a second, table-driven
  statement of the same rules (`Checks`, `FirstFailing`, `Intended`) and
  one lemma for each subcommand.
- `Render` (`render.dfy`): the header, the separator, a row, and the
  listing loop. It proves that the columns line up, and that a row can be
  read back (`ReadRow`).
- `Session` (`session.dfy`): insert or update followed by a listing.

Widths are counted in runes, as Go's `fmt` counts them. A Dafny `char` is
one Unicode scalar value, so a width is a sequence length.

## Model

| member | source | states |
|---|---|---|
| Dispatch.Run | addressbook/main.go:87-211 | `run` after the database is open: the storage action, or the error returned before anything runs. No subcommand, `select` and `delete-all` never fail. |
| Dispatch.RunOnArgs | addressbook/main.go:110-115 | From an `os.Args` vector: with fewer than two entries the table is listed. Otherwise `run` behaves as for the subcommand `os.Args[1]`. The listing is chosen exactly when there is no token or the token is `select`. |
| Dispatch.FirstFailing | addressbook/main.go:131-178 | Finds no failing check exactly when every check passes. Otherwise it gives the position of a failing check with only passing checks before it. |
| Dispatch.RunFollowsChecks | addressbook/main.go:115-209 | For every known subcommand, `Run` matches the table-driven rules: the first failed required-flag check gives the error, and if no check fails the result is the subcommand's action. |
| Dispatch.SelectIsDefault | addressbook/main.go:110-119 | The result is `Select` exactly when there is no subcommand token or the token is `select`. |
| Dispatch.DeleteAllReadsNoFlags | addressbook/main.go:202-204 | `delete-all` gives `DeleteAll` whatever the flag values are, and nothing else gives `DeleteAll`. |
| Dispatch.UnknownSubcommandRejected | addressbook/main.go:206-208 | The "expected 'select', 'insert', …" error comes exactly from a token that names no subcommand. |
| Dispatch.InsertRules | addressbook/main.go:121-156 | Insert checks firstname, then lastname, then dayofbirth, and the first empty one gives its error (each insert message ends in a space). It succeeds exactly when all three are set. Names pass through unchanged, the date gets `" 00:00:00.000"` appended, and the id is 0. The `-id` value is never read. |
| Dispatch.UpdateRules | addressbook/main.go:157-181 | Update rejects only id 0, then checks firstname, lastname and dayofbirth in that order. It succeeds exactly when all four are set, and passes all four values through unchanged with no time suffix. |
| Dispatch.DeleteRules | addressbook/main.go:184-200 | Delete gives `pass '-id'` exactly when id ≤ 0. Otherwise it deletes exactly that id. The name and date values are never read. |
| Dispatch.NegativeIdUpdateOnly | addressbook/main.go:164-196 | Every negative id is accepted by update, which then updates that id when the other values are set, and is rejected by delete with `pass '-id'`. |
| GoStrings.ReplaceFirst | addressbook/main.go:314 | `strings.Replace(s, pat, rep, 1)`: either `s` comes back unchanged, or the result is one `pat` shorter and one `rep` longer. |
| GoStrings.ReplaceFirstReplacesLeftmost | addressbook/main.go:314 | `strings.Replace(s, pat, rep, 1)`: if `pat` is absent, the string comes back unchanged. Otherwise only the leftmost occurrence is replaced. |
| GoStrings.Repeat | addressbook/main.go:311 | `strings.Repeat` of one character `n` times: exactly `n` copies of that character. |
| Format.PadRight | addressbook/main.go:297-298 | `%-20s`: the value, whole and never cut, followed by spaces up to at least the width. |
| Format.PadLeft | addressbook/main.go:319 | `%2d`: spaces up to at least the width, followed by the whole value. |
| Format.NatDigits | addressbook/main.go:319 | The decimal digits of a natural number, with no leading zero. One digit exactly below 10; at most two digits exactly below 100. |
| Format.Decimal | addressbook/main.go:319 | `%d`: non-empty, and starts with a minus sign exactly when the number is negative. |
| Format.DecimalRoundTrip | addressbook/main.go:319 | The text printed by `%d` reads back as the same number. |
| Format.DecimalFitsTwo | addressbook/main.go:319 | `%d` fits in two runes exactly for ids from -9 to 99. |
| Format.PadRightTrimmed | addressbook/main.go:319 | Removing trailing spaces from a `%-20s` cell gives back the value, if the value does not end in a space. |
| Format.PadLeftTrimmed | addressbook/main.go:319 | Removing leading spaces from a `%2d` cell gives back the value, if the value does not start with a space. |
| Format.LeftAlignedUnique | addressbook/main.go:297-298 | A left-aligned cell is fully determined by its value and width. |
| Dates.AddTime | addressbook/main.go:153 | The stored date is the entered date, unchanged, followed by exactly `" 00:00:00.000"`. |
| Dates.StripTime | addressbook/main.go:314 | The displayed date is either the stored value unchanged or exactly one suffix (13 runes) shorter. If the length is unchanged, so is the value. |
| Dates.StripTimeCutsFirst | addressbook/main.go:314 | A value without the suffix is shown unchanged (for example, a date written by update). Otherwise exactly the first occurrence is removed, and the value gets 13 runes shorter. |
| Dates.FirstSuffixAfterClean | addressbook/main.go:153 | In `d + suffix + rest`, where `d` has no suffix, the first occurrence of the suffix is at `|d|`. The suffix's only space is its first rune, so two occurrences cannot overlap. |
| Dates.StripRemovesOnlyFirst | addressbook/main.go:314 | Only one suffix is removed: `strip(d + suffix + rest) == d + rest` for any suffix-free `d`. |
| Dates.StripAddRoundTrip | addressbook/main.go:314 | For a date `d` without the suffix, the listing shows `d` for the value that insert stored. |
| Dates.SuffixInsideDateIsRemoved | addressbook/main.go:314 | If the entered date `d + suffix + rest` already contains the suffix, the listing shows `d + rest + suffix`: the suffix inside the date is removed, and the one insert added stays. When `rest` starts with something other than a space, this differs from what was entered. |
| Render.Row | addressbook/main.go:319 | The printed line of a contact is 13 runes of bars and spaces plus each cell at its printed width: at least 2 for the id and at least 20 for each text value, with nothing cut. It starts with `"| "` and ends with `" |"`. |
| Render.RowLayout | addressbook/main.go:319 | A row is the line whose id cell is right-aligned to 2 and whose three text cells are left-aligned to 20. The cells are first name, last name, and the date with its suffix stripped. |
| Render.LineOnGrid | addressbook/main.go:319 | A line whose cells are exactly 2, 20, 20 and 20 runes wide is 75 runes long, has bars at 0, 5, 28, 51 and 74, and has each cell in its own column. |
| Render.HeaderAndSeparatorOnGrid | addressbook/main.go:297-312 | The header and separator lines follow the same grid. The header shows the upper-case column names, and the separator has exactly 20 dashes in each text column. |
| Render.RowOnGrid | addressbook/main.go:319 | A row whose values fit lines up with the header. Every value sits in its own column, left-aligned (id right-aligned). |
| Render.LineCells | addressbook/main.go:319 | A line with 20-rune text cells and an id cell of at least 2 runes is framed. It is as many runes wider than 75 as the id cell is wider than 2, and each cell is in its column. |
| Render.FramedIsLine | addressbook/main.go:319 | A framed line is exactly the line printed from its own id cell and text cells. |
| Render.RowCells | addressbook/main.go:319 | For any id, a row whose text fits is framed. The id is right-aligned in its cell, each text value is left-aligned in its own, and the row is 73 runes plus the width of the id cell. |
| Render.RowAlignsOnlyForTwoRuneIds | addressbook/main.go:297-319 | With text that fits, a row lines up with the header exactly when its id is from -9 to 99. From id 100 on, the id column widens and every later bar shifts right. |
| Render.ReadRow | addressbook/main.go:319 | Reads a contact back only from a framed line: bars around an id cell of any width and three 20-rune text cells. |
| Render.ReadRowText | addressbook/main.go:319 | The text values read back from a line are at most 20 runes wide and do not end in a space. |
| Render.RowReadBack | addressbook/main.go:314-319 | For any id, if the text values fit and do not end in spaces, reading back a row gives the stored contact with its date as displayed. |
| Render.Interleave | addressbook/main.go:297-320 | The printing loop: one header line, then for each rendered row a separator line followed by that row, in order. |
| Render.SelectContacts | addressbook/main.go:297-320 | The listing has 1 + 2n lines: the header, then a separator before each row. With no rows it shows only the header. |
| Render.ListingOnGrid | addressbook/main.go:297-319 | If every row fits, every line of the listing has the same width and bars. |
| Session.InsertThenList | addressbook/main.go:121-156 | After an insert stored verbatim under any id the database assigns, the listed row reads back as the entered values under that id. This needs names and date of at most 20 runes, without trailing spaces, and a date without the suffix. |
| Session.UpdateThenList | addressbook/main.go:157-181 | An update stores the date as passed, so a date without the suffix is listed unchanged. |

## Left out

- Opening the database, creating the table, and running the SQL statements
  (`openDatabase`, `createTable`, `insertContact`, `updateContact`,
  `deleteContact`, `deleteAllContacts`). These are SQLite's behaviour.
  This includes autoincrement ids, the UNIQUE(dayofbirth, lastname,
  firstname) constraint, and deletes of missing ids. `Run` returns the
  action that would be executed. The database-open error, statement
  errors and the ignored `createTable` error are not modelled.
- How the SQL text is built with `fmt.Sprintf`. Building the query is not
  part of the returned action.
- Go's `flag` parsing. This includes `ExitOnError` exits on malformed
  flags, out-of-range `-id` values, and `Usage()` output. `Run` takes the
  parsed values, with 0 or "" for flags that were not passed. `select` and
  `delete-all` do not parse their flags at all, and the model ignores them.
- `main`'s exit codes, the writes to stdout and stderr, and the
  `rows.Next`/`Scan` loop over the database. `SelectContacts` takes the
  rows as a sequence and returns the printed lines. Go ends every line
  with a newline, which the model leaves out.
- `strings.ToUpper` is only applied to the fixed column names. The model
  writes those names in upper case directly.
- `strings.Replace` works on bytes. For valid UTF-8 text, matching on
  bytes gives the same result as matching on runes, which is what the
  model does.
- The unreachable `return nil` at the end of `run`.
- Command-line arguments are taken as valid UTF-8, so a rune is a Dafny
  `char`. Go's `fmt` counts each invalid byte as one rune when it pads;
  the model has no such bytes.
- Session.InsertThenList: the read-back holds for every id, but only when
  the names and the date are at most 20 runes wide, do not end in a space,
  and the date does not already contain the time suffix. A wider value
  pushes the later bars right, and trailing spaces cannot be told apart
  from padding. It also takes the database to store the inserted values
  verbatim. The SQL at addressbook/main.go:255-256 is built by string
  interpolation, so a value containing `'` (such as `O'Brien`) makes the
  INSERT fail and nothing is stored. SQL execution is not part of this
  model.
