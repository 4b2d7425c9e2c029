/** Tables and schema normalisation: the column-name rewrite of
    `normalize_columns`, the single-column repair of
    `fix_single_column_csv_like`, and the column updates pandas performs
    with `df[name] = ...`. */
module Schema {
  import opened Text
  import opened Cells

  /** A data frame, column by column: `data[c]` holds the cells of the
      column named `columns[c]`, one per row; `height` is the number of rows. */
  datatype Table = Table(columns: seq<string>, data: seq<seq<Value>>, height: nat)

  /** Every column has a name and one cell per row. */
  ghost predicate Rectangular(t: Table) {
    |t.data| == |t.columns| && forall c :: 0 <= c < |t.data| ==> |t.data[c]| == t.height
  }

  /** The new name of one column: `str(c).strip().lower().replace(" ", "_")`.
      It has no space, no upper-case ASCII letter and no whitespace at
      either end, and it is as long as the stripped name. */
  function NormalizeName(c: string): (r: string)
    ensures |r| == |Strip(c)|
    ensures ' ' !in r
    ensures forall i :: 0 <= i < |r| ==> !('A' <= r[i] <= 'Z')
    ensures r == [] || (!IsSpace(r[0]) && !IsSpace(r[|r| - 1]))
  {
    ReplaceChar(Lower(Strip(c)), ' ', '_')
  }

  /** A name without a space, an upper-case ASCII letter or whitespace at
      either end is left alone by `NormalizeName`. */
  lemma NormalizeNameFixed(r: string)
    requires ' ' !in r
    requires forall i :: 0 <= i < |r| ==> !('A' <= r[i] <= 'Z')
    requires r == [] || (!IsSpace(r[0]) && !IsSpace(r[|r| - 1]))
    ensures NormalizeName(r) == r
  {
    StripUnique(r, 0, |r|);
    assert r[0..|r|] == r;
    var l := Lower(r);
    assert l == r;
    assert ReplaceChar(l, ' ', '_') == r;
  }

  /** A normalised name is its own normalisation. */
  lemma NormalizeNameIdempotent(c: string)
    ensures NormalizeName(NormalizeName(c)) == NormalizeName(c)
  {
    NormalizeNameFixed(NormalizeName(c));
  }

  /** The column list `normalize_columns` assigns to `df.columns`. */
  function NormalizedNames(cols: seq<string>): (r: seq<string>)
    ensures |r| == |cols| && forall i :: 0 <= i < |cols| ==> r[i] == NormalizeName(cols[i])
  {
    seq(|cols|, i requires 0 <= i < |cols| => NormalizeName(cols[i]))
  }

  /** Normalising the columns keeps their number and order, renames each one
      by `NormalizeName`, and a second normalisation changes nothing. */
  lemma NormalizedNamesIdempotent(cols: seq<string>)
    ensures NormalizedNames(NormalizedNames(cols)) == NormalizedNames(cols)
  {
    forall i | 0 <= i < |cols|
      ensures NormalizeName(NormalizeName(cols[i])) == NormalizeName(cols[i])
    {
      NormalizeNameIdempotent(cols[i]);
    }
  }

  /** The formatters behind `astype(str)` for numbers and timestamps. They are
      pandas' own and are not modelled. */
  datatype CellFormat = CellFormat(number: real -> string, stamp: Date -> string)

  /** `str(cell)`: a missing cell prints as "nan", a string as itself. */
  function CellText(v: Value, fmt: CellFormat): (r: string)
    ensures v.Na? ==> r == "nan"
    ensures v.Str? ==> r == v.s
  {
    match v
    case Na => "nan"
    case Str(s) => s
    case Num(x) => fmt.number(x)
    case Stamp(d) => fmt.stamp(d)
  }

  /** True when `fix_single_column_csv_like` rebuilds the table: exactly one
      column whose header contains a comma. */
  predicate IsSingleColumnCsv(t: Table) {
    |t.columns| == 1 && ',' in t.columns[0]
  }

  /** The lines of the rebuilt text: the header, then the text of every cell
      of the single column, in row order. */
  function CsvLines(t: Table, fmt: CellFormat): (lines: seq<string>)
    requires Rectangular(t) && |t.columns| == 1
    ensures |lines| == t.height + 1 && lines[0] == t.columns[0]
    ensures forall i :: 0 <= i < t.height ==> lines[i + 1] == CellText(t.data[0][i], fmt)
  {
    [t.columns[0]] + seq(t.height, i requires 0 <= i < t.height => CellText(t.data[0][i], fmt))
  }

  /** `"\n".join(lines)` */
  function CsvText(t: Table, fmt: CellFormat): string
    requires Rectangular(t) && |t.columns| == 1
  {
    Join(CsvLines(t, fmt), '\n')
  }

  /** `fix_single_column_csv_like`; `readCsv` is `pd.read_csv`, whose parsing
      is not modelled. */
  function FixSingleColumn(t: Table, fmt: CellFormat, readCsv: string -> Table): (r: Table)
    requires Rectangular(t)
    ensures !IsSingleColumnCsv(t) ==> r == t
    ensures IsSingleColumnCsv(t) ==> r == readCsv(CsvText(t, fmt))
  {
    if IsSingleColumnCsv(t) then readCsv(CsvText(t, fmt)) else t
  }

  /** A table that is not a single comma-headed column comes back unchanged;
      otherwise the text handed to the CSV reader has the header as its first
      line and one line per cell after it, as long as no cell holds a line
      break. */
  lemma FixSingleColumnText(t: Table, fmt: CellFormat, readCsv: string -> Table)
    requires Rectangular(t)
    ensures !IsSingleColumnCsv(t) ==> FixSingleColumn(t, fmt, readCsv) == t
    ensures IsSingleColumnCsv(t) ==>
              FixSingleColumn(t, fmt, readCsv) == readCsv(CsvText(t, fmt))
              && ((forall i :: 0 <= i < t.height ==> '\n' !in CellText(t.data[0][i], fmt)) && '\n' !in t.columns[0]
                  ==> Split(CsvText(t, fmt), '\n') == [t.columns[0]] + seq(t.height, i requires 0 <= i < t.height => CellText(t.data[0][i], fmt)))
  {
    if IsSingleColumnCsv(t) {
      var lines := CsvLines(t, fmt);
      if (forall i :: 0 <= i < t.height ==> '\n' !in CellText(t.data[0][i], fmt)) && '\n' !in t.columns[0] {
        forall k | 0 <= k < |lines|
          ensures '\n' !in lines[k]
        {
          if k > 0 {
            assert lines[k] == CellText(t.data[0][k - 1], fmt);
          }
        }
        SplitJoin(lines, '\n');
      }
    }
  }

  /** The single-column example: a comma-joined header with one comma-joined
      row turns into a two-line CSV text. */
  lemma CsvTextExample(fmt: CellFormat)
    ensures
      var header := "city,country,date," + "latitude,longitude,european_aqi";
      var row := "Paris,FR,2024-01-01," + "48.85,2.35,42";
      var t := Table([header], [[Str(row)]], 1);
      IsSingleColumnCsv(t) && CsvText(t, fmt) == header + "\n" + row
  {
    var header := "city,country,date," + "latitude,longitude,european_aqi";
    var row := "Paris,FR,2024-01-01," + "48.85,2.35,42";
    var t := Table([header], [[Str(row)]], 1);
    assert header[4] == ',';
    var lines := CsvLines(t, fmt);
    assert lines == [header, row];
    assert lines[1..] == [row];
    assert Join(lines[1..], '\n') == row;
    assert CsvText(t, fmt) == header + "\n" + row;
  }

  /** Position of the first column called `name`. */
  function IndexOf(cols: seq<string>, name: string): (i: nat)
    requires name in cols
    ensures i < |cols| && cols[i] == name
    ensures forall j :: 0 <= j < i ==> cols[j] != name
  {
    if cols[0] == name then 0 else 1 + IndexOf(cols[1..], name)
  }

  /** `df[c] = f(df[c])` for the column at position `j`: every cell of that
      column is replaced by its image under `f`, all other columns stay. */
  function MapColumn(t: Table, j: nat, f: Value -> Value): (r: Table)
    requires Rectangular(t) && j < |t.columns|
    ensures Rectangular(r) && r.columns == t.columns && r.height == t.height
  {
    Table(t.columns, t.data[j := seq(t.height, i requires 0 <= i < t.height => f(t.data[j][i]))], t.height)
  }

  /** `df[name] = vals`: overwrites the first column called `name` if there
      is one, appends a column at the end otherwise. */
  function SetColumn(t: Table, name: string, vals: seq<Value>): (r: Table)
    requires Rectangular(t) && |vals| == t.height
    ensures Rectangular(r) && r.height == t.height
    ensures r.columns == if name in t.columns then t.columns else t.columns + [name]
    ensures name in r.columns && r.data[IndexOf(r.columns, name)] == vals
    ensures forall n :: n in t.columns && n != name ==>
              n in r.columns && IndexOf(r.columns, n) == IndexOf(t.columns, n)
              && r.data[IndexOf(r.columns, n)] == t.data[IndexOf(t.columns, n)]
  {
    if name in t.columns then
      Table(t.columns, t.data[IndexOf(t.columns, name) := vals], t.height)
    else
      IndexOfAppend(t.columns, name);
      Table(t.columns + [name], t.data + [vals], t.height)
  }

  /** Appending a column does not move the columns already there. */
  lemma {:induction false} IndexOfAppend(cols: seq<string>, name: string)
    ensures name !in cols ==> IndexOf(cols + [name], name) == |cols|
    ensures forall n :: n in cols ==> IndexOf(cols + [name], n) == IndexOf(cols, n)
  {
    forall n | n in cols
      ensures IndexOf(cols + [name], n) == IndexOf(cols, n)
    {
      var i := IndexOf(cols, n);
      var k := IndexOf(cols + [name], n);
      assert (cols + [name])[i] == n;
    }
  }
}
