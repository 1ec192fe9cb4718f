/** Model of data/all_bio_dict.py: the script that reads the tab-separated
    map of the biological recordings and hands every usable recording to the
    converter. The first loop turns each line into eight parallel columns,
    carrying the experiment type, speed, muscle and rat forward from earlier
    lines where a cell is blank; the second loop skips rejected recordings,
    cleans the begin/end marks and calls the converter with the file's path
    and title. The file and the converter are outside the model: the lines
    are the input and the converter calls are the output. */
module BioDict {
  import opened Common

  // ---------------------------------------------------------------------------
  // Python string operations
  // ---------------------------------------------------------------------------

  /** Python's `s.split(sep)` for a one-character separator: the pieces
      between separators, empty pieces included; never an empty list. */
  function Split(s: string, sep: char): (parts: seq<string>)
    ensures |parts| >= 1
  {
    if s == [] then [""]
    else
      var rest := Split(s[1..], sep);
      if s[0] == sep then [""] + rest else [[s[0]] + rest[0]] + rest[1..]
  }

  /** `sep.join(parts)`. */
  function Join(parts: seq<string>, sep: char): string
    requires |parts| >= 1
  {
    if |parts| == 1 then parts[0] else parts[0] + [sep] + Join(parts[1..], sep)
  }

  /** Number of occurrences of `c` in `s`. */
  function Count(s: string, c: char): nat
  {
    if s == [] then 0 else (if s[0] == c then 1 else 0) + Count(s[1..], c)
  }

  /** `s.replace(c, "")`. */
  function RemoveAll(s: string, c: char): (r: string)
    ensures c !in r
  {
    if s == [] then [] else (if s[0] == c then [] else [s[0]]) + RemoveAll(s[1..], c)
  }

  lemma {:induction false} SplitNone(s: string, sep: char)
    requires sep !in s
    ensures Split(s, sep) == [s]
  {
    if s != [] {
      SplitNone(s[1..], sep);
      assert [s[0]] + s[1..] == s;
    }
  }

  /** `s.split(sep)` has one piece more than `s` has separators. */
  lemma {:induction false} SplitCount(s: string, sep: char)
    ensures |Split(s, sep)| == Count(s, sep) + 1
  {
    if s != [] {
      SplitCount(s[1..], sep);
    }
  }

  /** Splitting `a + sep + b` splits `a` and `b` separately. */
  lemma {:induction false} SplitConcat(a: string, b: string, sep: char)
    ensures Split(a + [sep] + b, sep) == Split(a, sep) + Split(b, sep)
  {
    var s := a + [sep] + b;
    if a == [] {
      assert s[1..] == b;
    } else {
      assert s[1..] == a[1..] + [sep] + b;
      SplitConcat(a[1..], b, sep);
    }
  }

  /** Splitting undoes joining when no piece holds the separator. */
  lemma {:induction false} SplitJoin(parts: seq<string>, sep: char)
    requires |parts| >= 1
    requires forall k :: 0 <= k < |parts| ==> sep !in parts[k]
    ensures Split(Join(parts, sep), sep) == parts
  {
    SplitNone(parts[0], sep);
    if |parts| > 1 {
      SplitJoin(parts[1..], sep);
      SplitConcat(parts[0], Join(parts[1..], sep), sep);
    }
  }

  lemma {:induction false} JoinAvoids(parts: seq<string>, sep: char, c: char)
    requires |parts| >= 1 && c != sep
    requires forall k :: 0 <= k < |parts| ==> c !in parts[k]
    ensures c !in Join(parts, sep)
  {
    if |parts| > 1 {
      JoinAvoids(parts[1..], sep, c);
    }
  }

  /** Removing a character that does not occur changes nothing. */
  lemma {:induction false} RemoveAllAbsent(a: string, c: char)
    requires c !in a
    ensures RemoveAll(a, c) == a
  {
    if a != [] {
      assert c !in a[1..];
      RemoveAllAbsent(a[1..], c);
      assert [a[0]] + a[1..] == a;
    }
  }

  /** Removal distributes over concatenation. */
  lemma {:induction false} RemoveAllConcat(a: string, b: string, c: char)
    ensures RemoveAll(a + b, c) == RemoveAll(a, c) + RemoveAll(b, c)
  {
    if a != [] {
      assert (a + b)[1..] == a[1..] + b;
      RemoveAllConcat(a[1..], b, c);
      var head: string := if a[0] == c then [] else [a[0]];
      assert RemoveAll(a + b, c) == head + RemoveAll(a[1..] + b, c);
      assert head + (RemoveAll(a[1..], c) + RemoveAll(b, c)) == (head + RemoveAll(a[1..], c)) + RemoveAll(b, c);
    } else {
      assert a + b == b;
    }
  }

  // ---------------------------------------------------------------------------
  // Python int() on a string
  // ---------------------------------------------------------------------------

  /** The characters `str.isspace()` accepts, which `int()` strips: the
      ASCII controls 9-13 and 28-31, the space, and the Unicode spaces and
      line separators. */
  predicate IsSpace(c: char)
  {
    || '\t' <= c <= '\r'
    || '\U{1C}' <= c <= '\U{1F}'
    || c == ' ' || c == '\U{85}' || c == '\U{A0}' || c == '\U{1680}'
    || '\U{2000}' <= c <= '\U{200A}'
    || c == '\U{2028}' || c == '\U{2029}' || c == '\U{202F}' || c == '\U{205F}' || c == '\U{3000}'
  }

  predicate IsDigit(c: char)
  {
    '0' <= c <= '9'
  }

  function StripLeft(s: string): string
  {
    if s != [] && IsSpace(s[0]) then StripLeft(s[1..]) else s
  }

  function StripRight(s: string): string
  {
    if s != [] && IsSpace(s[|s| - 1]) then StripRight(s[..|s| - 1]) else s
  }

  /** Value of a string of decimal digits, most significant first. */
  function DigitsValue(ds: string): nat
    requires AllDigits(ds)
  {
    if ds == [] then 0
    else
      assert IsDigit(ds[|ds| - 1]);
      10 * DigitsValue(ds[..|ds| - 1]) + (ds[|ds| - 1] as int - '0' as int)
  }

  predicate AllDigits(ds: string)
  {
    forall k :: 0 <= k < |ds| ==> IsDigit(ds[k])
  }

  /** The string without its leading sign, if it has one. */
  function Unsigned(t: string): string
  {
    if t != [] && (t[0] == '-' || t[0] == '+') then t[1..] else t
  }

  /** `int(s)` on a string: surrounding white space, an optional sign and
      at least one decimal digit; anything else raises `ValueError`. */
  function ParseInt(s: string): Option<int>
  {
    var t := StripRight(StripLeft(s));
    var digits := Unsigned(t);
    if digits == [] || !AllDigits(digits) then None
    else
      var value: int := DigitsValue(digits);
      Some(if t[0] == '-' then -value else value)
  }

  /** Decimal digits of `n`, as `str(n)` writes a natural number. */
  function Show(n: nat): (s: string)
    ensures |s| >= 1 && AllDigits(s)
  {
    if n < 10 then [('0' as int + n) as char]
    else Show(n / 10) + [('0' as int + n % 10) as char]
  }

  /** `str(n)` of an integer. */
  function ShowInt(n: int): string
  {
    if n < 0 then "-" + Show(-n) else Show(n)
  }

  lemma {:induction false} DigitsShow(n: nat)
    ensures DigitsValue(Show(n)) == n
  {
    if n >= 10 {
      DigitsShow(n / 10);
      var s := Show(n);
      assert s[..|s| - 1] == Show(n / 10);
    }
  }

  /** `int(str(n)) == n`. */
  lemma ParseShow(n: int)
    ensures ParseInt(ShowInt(n)) == Some(n)
  {
    var s := ShowInt(n);
    var m := if n < 0 then -n else n;
    DigitsShow(m);
    assert !IsSpace(s[0]) && !IsSpace(s[|s| - 1]);
    assert StripRight(StripLeft(s)) == s;
    if n < 0 {
      assert s[1..] == Show(m);
    }
  }

  lemma {:induction false} StripLeftKeeps(s: string, c: char)
    requires c in s && !IsSpace(c)
    ensures c in StripLeft(s)
  {
    if IsSpace(s[0]) {
      StripLeftKeeps(s[1..], c);
    }
  }

  lemma {:induction false} StripRightKeeps(s: string, c: char)
    requires c in s && !IsSpace(c)
    ensures c in StripRight(s)
  {
    if IsSpace(s[|s| - 1]) {
      assert c in s[..|s| - 1];
      StripRightKeeps(s[..|s| - 1], c);
    }
  }

  /** White space before and after the digits is stripped, whichever of
      Python's white-space characters it is: `int("\x0c12\xa0") == 12`. */
  lemma SpacesStripped(pre: string, ds: string, post: string)
    requires ds != [] && AllDigits(ds)
    requires forall k :: 0 <= k < |pre| ==> IsSpace(pre[k])
    requires forall k :: 0 <= k < |post| ==> IsSpace(post[k])
    ensures ParseInt(pre + ds + post) == Some(DigitsValue(ds))
  {
    StripLeftSpaces(pre, ds + post);
    assert pre + ds + post == pre + (ds + post);
    StripRightSpaces(ds, post);
  }

  lemma {:induction false} StripLeftSpaces(pre: string, s: string)
    requires s != [] && !IsSpace(s[0])
    requires forall k :: 0 <= k < |pre| ==> IsSpace(pre[k])
    ensures StripLeft(pre + s) == s
  {
    if pre != [] {
      assert (pre + s)[1..] == pre[1..] + s;
      StripLeftSpaces(pre[1..], s);
    }
  }

  lemma {:induction false} StripRightSpaces(s: string, post: string)
    requires s != [] && !IsSpace(s[|s| - 1])
    requires forall k :: 0 <= k < |post| ==> IsSpace(post[k])
    ensures StripRight(s + post) == s
  {
    if post != [] {
      assert (s + post)[..|s + post| - 1] == s + post[..|post| - 1];
      StripRightSpaces(s, post[..|post| - 1]);
    } else {
      assert s + post == s;
    }
  }

  /** A string holding `(` is never an integer. */
  lemma ParenNotInt(s: string)
    requires '(' in s
    ensures ParseInt(s) == None
  {
    StripLeftKeeps(s, '(');
    StripRightKeeps(StripLeft(s), '(');
    var t := StripRight(StripLeft(s));
    var k :| 0 <= k < |t| && t[k] == '(';
    var digits := Unsigned(t);
    if t[0] == '-' || t[0] == '+' {
      assert digits[k - 1] == '(';
    } else {
      assert digits[k] == '(';
    }
  }

  // ---------------------------------------------------------------------------
  // first loop: the lines of the map become eight columns
  // ---------------------------------------------------------------------------

  /** The seven cells of a line: type, speed, muscle, rat, file, begin, end. */
  datatype Row = Row(kind: string, speed: string, muscle: string, rat: string,
                     file: string, begin: string, end: string)

  function Cells(row: Row): seq<string>
  {
    [row.kind, row.speed, row.muscle, row.rat, row.file, row.begin, row.end]
  }

  /** `ty, sp, mu, ra, fi, be, en = line.replace("\n", "").split("\t")`:
      the unpacking raises unless there are exactly seven cells. */
  function Fields(line: string): Result<Row>
  {
    var parts := Split(RemoveAll(line, '\n'), '\t');
    if |parts| != 7 then Failure(ValueError)
    else Success(Row(parts[0], parts[1], parts[2], parts[3], parts[4], parts[5], parts[6]))
  }

  /** A line unpacks exactly when it holds six tabs. */
  lemma FieldsTabs(line: string)
    ensures Fields(line).Success? <==> Count(RemoveAll(line, '\n'), '\t') == 6
    ensures Fields(line).Failure? ==> Fields(line).error == ValueError
  {
    SplitCount(RemoveAll(line, '\n'), '\t');
  }

  /** The cells of a row written out with tabs, with or without the line
      break, read back as that row. */
  lemma FieldsRoundTrip(row: Row, newline: bool)
    requires forall k :: 0 <= k < 7 ==> '\t' !in Cells(row)[k] && '\n' !in Cells(row)[k]
    ensures Fields(Join(Cells(row), '\t') + (if newline then "\n" else "")) == Success(row)
  {
    var line, suffix := Join(Cells(row), '\t'), if newline then "\n" else "";
    JoinAvoids(Cells(row), '\t', '\n');
    RemoveAllConcat(line, suffix, '\n');
    RemoveAllAbsent(line, '\n');
    assert RemoveAll(suffix, '\n') == [];
    assert RemoveAll(line + suffix, '\n') == line;
    SplitJoin(Cells(row), '\t');
  }

  /** The running `curr_ty`, `curr_sp`, `curr_mu` and `curr_ra`. */
  datatype Current = Current(kind: string, speed: string, muscle: string, rat: string)

  function MuscleName(code: string): string
  {
    if code == "FL" then "flexor" else "extensor"
  }

  /** One iteration's update of the running values: a non-empty cell
      replaces the running value (speed with `cms` appended, the muscle code
      by its name), an empty one keeps it. */
  function Advance(c: Current, row: Row): Current
  {
    Current(
      if row.kind != "" then row.kind else c.kind,
      if row.speed != "" then row.speed + "cms" else c.speed,
      if row.muscle != "" then MuscleName(row.muscle) else c.muscle,
      if row.rat != "" then row.rat else c.rat)
  }

  /** The running values after the given rows, starting from empty strings. */
  function CurrentAfter(rows: seq<Row>): Current
  {
    if rows == [] then Current("", "", "", "")
    else Advance(CurrentAfter(rows[..|rows| - 1]), rows[|rows| - 1])
  }

  /** The forward-filled cells. */
  datatype Field = Kind | Speed | Muscle | Rat

  function Get(row: Row, f: Field): string
  {
    match f
    case Kind => row.kind
    case Speed => row.speed
    case Muscle => row.muscle
    case Rat => row.rat
  }

  function Column(rows: seq<Row>, f: Field): (col: seq<string>)
    ensures |col| == |rows|
  {
    seq(|rows|, k requires 0 <= k < |rows| => Get(rows[k], f))
  }

  /** The last non-empty value, or `""` when every value is empty. */
  function Latest(values: seq<string>): string
  {
    if values == [] then ""
    else if values[|values| - 1] != "" then values[|values| - 1]
    else Latest(values[..|values| - 1])
  }

  lemma {:induction false} LatestSpec(values: seq<string>, j: int)
    ensures (forall q :: 0 <= q < |values| ==> values[q] == "") ==> Latest(values) == ""
    ensures 0 <= j < |values| && values[j] != "" && (forall q :: j < q < |values| ==> values[q] == "")
            ==> Latest(values) == values[j]
  {
    if values != [] {
      var init := values[..|values| - 1];
      LatestSpec(init, j);
    }
  }

  /** The running values are the latest non-empty cells of the rows so far:
      the type and rat as written, the speed with `cms` appended and the
      muscle code by its name; each is `""` until a row fills it. */
  lemma {:induction false} CurrentIsLatest(rows: seq<Row>)
    ensures var c, speed, muscle := CurrentAfter(rows), Latest(Column(rows, Speed)), Latest(Column(rows, Muscle));
      && c.kind == Latest(Column(rows, Kind))
      && c.speed == (if speed == "" then "" else speed + "cms")
      && c.muscle == (if muscle == "" then "" else MuscleName(muscle))
      && c.rat == Latest(Column(rows, Rat))
  {
    if rows != [] {
      var init, row := rows[..|rows| - 1], rows[|rows| - 1];
      CurrentIsLatest(init);
      ColumnInit(rows, Kind);
      ColumnInit(rows, Speed);
      ColumnInit(rows, Muscle);
      ColumnInit(rows, Rat);
      assert CurrentAfter(rows) == Advance(CurrentAfter(init), row);
    }
  }

  /** A column of all the rows but the last is the column without its last cell. */
  lemma ColumnInit(rows: seq<Row>, f: Field)
    requires rows != []
    ensures Column(rows, f)[..|rows| - 1] == Column(rows[..|rows| - 1], f)
    ensures Column(rows, f)[|rows| - 1] == Get(rows[|rows| - 1], f)
  {
  }

  /** The eight lists the first loop appends to. */
  datatype Table = Table(types: seq<string>, speeds: seq<string>, muscles: seq<string>,
                         folders: seq<string>, rats: seq<string>, filenames: seq<string>,
                         begins: seq<string>, ends: seq<string>)

  /** The eight appends of one iteration, `c` being the running values
      after the row. */
  function AddRow(t: Table, c: Current, row: Row): Table
  {
    Table(t.types + [c.kind], t.speeds + [c.speed], t.muscles + [c.muscle], t.folders + ["sliced"],
          t.rats + [c.rat], t.filenames + [row.file], t.begins + [row.begin], t.ends + [row.end])
  }

  /** The table after the given rows: one entry per row in every list. */
  function TableOf(rows: seq<Row>): (t: Table)
    ensures |t.types| == |t.speeds| == |t.muscles| == |t.folders| == |rows|
    ensures |t.rats| == |t.filenames| == |t.begins| == |t.ends| == |rows|
  {
    if rows == [] then Table([], [], [], [], [], [], [], [])
    else AddRow(TableOf(rows[..|rows| - 1]), CurrentAfter(rows), rows[|rows| - 1])
  }

  /** One more row appends one entry to every list of the table. */
  lemma TableSnoc(rows: seq<Row>, row: Row)
    ensures CurrentAfter(rows + [row]) == Advance(CurrentAfter(rows), row)
    ensures TableOf(rows + [row]) == AddRow(TableOf(rows), Advance(CurrentAfter(rows), row), row)
  {
    assert (rows + [row])[..|rows|] == rows;
  }

  /** Entry `k` of the lists belongs to row `k`: the folder is always
      `sliced`, file, begin and end are the row's own, and type, speed,
      muscle and rat are the running values after that row. */
  lemma {:induction false} TableRowAt(rows: seq<Row>, k: nat)
    requires k < |rows|
    ensures var t, c := TableOf(rows), CurrentAfter(rows[..k + 1]);
      && t.folders[k] == "sliced"
      && t.filenames[k] == rows[k].file && t.begins[k] == rows[k].begin && t.ends[k] == rows[k].end
      && t.types[k] == c.kind && t.speeds[k] == c.speed && t.muscles[k] == c.muscle && t.rats[k] == c.rat
  {
    var n := |rows| - 1;
    if k < n {
      TableRowAt(rows[..n], k);
      assert rows[..n][..k + 1] == rows[..k + 1];
    } else {
      assert rows[..k + 1] == rows;
    }
  }

  /** The rows of lines that all unpack. */
  function RowsOf(lines: seq<string>): (rows: seq<Row>)
    requires forall k :: 0 <= k < |lines| ==> Fields(lines[k]).Success?
    ensures |rows| == |lines|
  {
    seq(|lines|, k requires 0 <= k < |lines| => Fields(lines[k]).value)
  }

  /** The eight lists and the running values after some lines. */
  datatype Reading = Reading(table: Table, current: Current)

  /** The first loop over the given lines, iteration by iteration: the
      `ValueError` of the first line that does not unpack, or the lists and
      running values it leaves. */
  function ReadLines(lines: seq<string>): Result<Reading>
  {
    if lines == [] then Success(Reading(TableOf([]), CurrentAfter([])))
    else
      match ReadLines(lines[..|lines| - 1])
      case Failure(e) => Failure(e)
      case Success(rd) =>
        match Fields(lines[|lines| - 1])
        case Failure(e) => Failure(e)
        case Success(row) =>
          var c := Advance(rd.current, row);
          Success(Reading(AddRow(rd.table, c, row), c))
  }

  /** The loop gets through the lines exactly when every line unpacks. */
  lemma {:induction false} ReadLinesFails(lines: seq<string>)
    ensures ReadLines(lines).Success? <==> forall k :: 0 <= k < |lines| ==> Fields(lines[k]).Success?
    ensures ReadLines(lines).Failure? ==> ReadLines(lines).error == ValueError
  {
    if lines != [] {
      var n := |lines| - 1;
      ReadLinesFails(lines[..n]);
      assert forall k :: 0 <= k < n ==> lines[..n][k] == lines[k];
    }
  }

  /** When it gets through, the loop leaves the table and running values of
      the lines' rows. */
  lemma {:induction false} ReadLinesValue(lines: seq<string>)
    requires ReadLines(lines).Success?
    ensures forall k :: 0 <= k < |lines| ==> Fields(lines[k]).Success?
    ensures ReadLines(lines).value == Reading(TableOf(RowsOf(lines)), CurrentAfter(RowsOf(lines)))
  {
    ReadLinesFails(lines);
    if lines != [] {
      var n := |lines| - 1;
      var init := lines[..n];
      ReadLinesFails(init);
      ReadLinesValue(init);
      var row := Fields(lines[n]).value;
      var rd := ReadLines(init).value;
      var c := Advance(rd.current, row);
      assert ReadLines(lines) == Success(Reading(AddRow(rd.table, c, row), c));
      RowsOfSnoc(lines);
      TableSnoc(RowsOf(init), row);
    }
  }

  /** The rows of the lines are the rows of all but the last line, then the
      last line's row. */
  lemma RowsOfSnoc(lines: seq<string>)
    requires lines != [] && forall k :: 0 <= k < |lines| ==> Fields(lines[k]).Success?
    ensures var n := |lines| - 1;
      RowsOf(lines) == RowsOf(lines[..n]) + [Fields(lines[n]).value]
  {
    var n := |lines| - 1;
    assert forall k :: 0 <= k < n ==> lines[..n][k] == lines[k];
  }

  /** Once a line fails to unpack, later lines change nothing. */
  lemma {:induction false} ReadLinesStop(lines: seq<string>, k: nat)
    requires k <= |lines| && ReadLines(lines[..k]).Failure?
    ensures ReadLines(lines) == ReadLines(lines[..k])
    decreases |lines| - k
  {
    if k < |lines| {
      assert lines[..k + 1][..k] == lines[..k];
      ReadLinesStop(lines, k + 1);
    } else {
      assert lines[..k] == lines;
    }
  }

  /** What the first loop builds from the lines after the header. */
  function ReadTable(lines: seq<string>): Result<Table>
  {
    match ReadLines(lines)
    case Failure(e) => Failure(e)
    case Success(rd) => Success(rd.table)
  }

  /** The first loop of the script. */
  method ReadMap(lines: seq<string>) returns (r: Result<Table>)
    ensures r == ReadTable(lines)
  {
    var types, speeds, muscles, folders, rats, filenames, begins, ends := [], [], [], [], [], [], [], [];
    var currTy, currSp, currMu, currRa := "", "", "", "";
    for k := 0 to |lines|
      invariant ReadLines(lines[..k])
                == Success(Reading(Table(types, speeds, muscles, folders, rats, filenames, begins, ends),
                                   Current(currTy, currSp, currMu, currRa)))
    {
      assert lines[..k + 1][..k] == lines[..k];
      var fields := Fields(lines[k]);
      if fields.Failure? {
        ReadLinesStop(lines, k + 1);
        return Failure(ValueError);
      }
      var row := fields.value;
      if row.kind != "" {
        currTy := row.kind;
      }
      if row.speed != "" {
        currSp := row.speed + "cms";
      }
      if row.muscle != "" {
        currMu := MuscleName(row.muscle);
      }
      if row.rat != "" {
        currRa := row.rat;
      }
      folders := folders + ["sliced"];
      types := types + [currTy];
      speeds := speeds + [currSp];
      muscles := muscles + [currMu];
      rats := rats + [currRa];
      filenames := filenames + [row.file];
      begins := begins + [row.begin];
      ends := ends + [row.end];
    }
    assert lines[..|lines|] == lines;
    return Success(Table(types, speeds, muscles, folders, rats, filenames, begins, ends));
  }

  // ---------------------------------------------------------------------------
  // second loop: rejected rows are skipped, the others are converted
  // ---------------------------------------------------------------------------

  /** One tuple of `zip(types, muscles, speeds, folders, rats, filenames,
      begins, ends)`. */
  datatype Entry = Entry(kind: string, muscle: string, speed: string, folder: string,
                         rat: string, file: string, begin: string, end: string)

  /** The zip of the eight lists, as long as the shortest of them. */
  function Entries(t: Table): (entries: seq<Entry>)
    ensures |entries| <= |t.types| && |entries| <= |t.ends|
  {
    var lists := [t.types, t.muscles, t.speeds, t.folders, t.rats, t.filenames, t.begins, t.ends];
    var n := Shortest(lists);
    assert n <= |lists[0]| && n <= |lists[1]| && n <= |lists[2]| && n <= |lists[3]|;
    assert n <= |lists[4]| && n <= |lists[5]| && n <= |lists[6]| && n <= |lists[7]|;
    seq(n, k requires 0 <= k < n =>
      Entry(t.types[k], t.muscles[k], t.speeds[k], t.folders[k],
            t.rats[k], t.filenames[k], t.begins[k], t.ends[k]))
  }

  /** The root folder of the recordings. */
  const Root: string := "/home/alex/GitHub/data/spinal"

  /** `f"{root}/{t}/{m}/{s}/{f}/{r}/{fi}"`. */
  function PathOf(e: Entry): string
  {
    Root + "/" + Join([e.kind, e.muscle, e.speed, e.folder, e.rat, e.file], '/')
  }

  /** `f"{t} {m} {s} {f}"`. */
  function TitleOf(e: Entry): string
  {
    Join([e.kind, e.muscle, e.speed, e.folder], ' ')
  }

  /** The path names the root's folders, then type, muscle, speed, folder,
      rat and file, one per level, when none of those holds a slash. */
  lemma PathLevels(e: Entry)
    requires forall p :: p in [e.kind, e.muscle, e.speed, e.folder, e.rat, e.file] ==> '/' !in p
    ensures Split(PathOf(e), '/') == Split(Root, '/') + [e.kind, e.muscle, e.speed, e.folder, e.rat, e.file]
  {
    var levels := [e.kind, e.muscle, e.speed, e.folder, e.rat, e.file];
    assert forall k :: 0 <= k < |levels| ==> levels[k] in levels;
    SplitJoin(levels, '/');
    assert PathOf(e) == Root + ['/'] + Join(levels, '/');
    SplitConcat(Root, Join(levels, '/'), '/');
  }

  /** The title's words are type, muscle, speed and folder, when none of
      them holds a space. */
  lemma TitleWords(e: Entry)
    requires ' ' !in e.kind && ' ' !in e.muscle && ' ' !in e.speed && ' ' !in e.folder
    ensures Split(TitleOf(e), ' ') == [e.kind, e.muscle, e.speed, e.folder]
  {
    SplitJoin([e.kind, e.muscle, e.speed, e.folder], ' ');
  }

  /** A recording marked `-` at its begin or end is rejected. */
  predicate Rejected(e: Entry)
  {
    e.begin == "-" || e.end == "-"
  }

  /** The arguments of one `fig2hdf5(filename, title, rat, begin, end)`. */
  datatype Call = Call(path: string, title: string, rat: string, begin: int, end: int)

  /** The marks that are parsed: when begin holds `(`, both marks are cut
      at their first `(`; otherwise both are kept. */
  function Marks(e: Entry): (string, string)
  {
    if '(' in e.begin then (Split(e.begin, '(')[0], Split(e.end, '(')[0]) else (e.begin, e.end)
  }

  /** One iteration of the second loop: no call for a rejected row, the
      converter call for a usable one, or the `ValueError` of `int()`. */
  function EntryCall(e: Entry): Result<Option<Call>>
  {
    if Rejected(e) then Success(None)
    else
      var (b, en) := Marks(e);
      match ParseInt(b)
      case None => Failure(ValueError)
      case Some(begin) =>
        match ParseInt(en)
        case None => Failure(ValueError)
        case Some(end) => Success(Some(Call(PathOf(e), TitleOf(e), e.file, begin, end)))
  }

  lemma {:induction false} SplitHeadAvoids(s: string, sep: char)
    ensures sep !in Split(s, sep)[0]
  {
    if s != [] {
      SplitHeadAvoids(s[1..], sep);
    }
  }

  /** What the second loop does with one row: a rejected row is never
      converted; a mark `(` in begin cuts both marks before parsing, while a
      `(` in end alone is not cut and makes `int()` fail. */
  lemma EntryCallSpec(e: Entry)
    ensures Rejected(e) ==> EntryCall(e) == Success(None)
    ensures !Rejected(e) && EntryCall(e).Success? ==> EntryCall(e).value.Some?
    ensures EntryCall(e).Failure? ==> EntryCall(e).error == ValueError
    ensures !Rejected(e) && '(' !in e.begin && '(' in e.end ==> EntryCall(e) == Failure(ValueError)
    ensures '(' in e.begin ==> '(' !in Marks(e).0 && '(' !in Marks(e).1
    ensures EntryCall(e).Success? && EntryCall(e).value.Some? ==>
      var call := EntryCall(e).value.value;
      && ParseInt(Marks(e).0) == Some(call.begin) && ParseInt(Marks(e).1) == Some(call.end)
      && call.path == PathOf(e) && call.title == TitleOf(e) && call.rat == e.file
  {
    if '(' in e.begin {
      SplitHeadAvoids(e.begin, '(');
      SplitHeadAvoids(e.end, '(');
    } else if '(' in e.end {
      ParenNotInt(e.end);
    }
  }

  /** The converter calls made, in order, and the error that stopped the
      script, if any. */
  datatype Outcome = Outcome(calls: seq<Call>, error: Option<Error>)

  /** The second loop over the given entries. */
  function Conversions(entries: seq<Entry>): (o: Outcome)
    ensures |o.calls| <= |entries|
  {
    if entries == [] then Outcome([], None)
    else
      var o := Conversions(entries[..|entries| - 1]);
      if o.error.Some? then o
      else
        match EntryCall(entries[|entries| - 1])
        case Failure(e) => Outcome(o.calls, Some(e))
        case Success(None) => o
        case Success(Some(call)) => Outcome(o.calls + [call], None)
  }

  /** The loop stops only on a mark that is not an integer, and then with
      a `ValueError`. */
  lemma {:induction false} ConversionsError(entries: seq<Entry>)
    ensures Conversions(entries).error.None? <==> forall k :: 0 <= k < |entries| ==> EntryCall(entries[k]).Success?
    ensures Conversions(entries).error.Some? ==> Conversions(entries).error == Some(ValueError)
  {
    if entries != [] {
      var n := |entries| - 1;
      ConversionsError(entries[..n]);
      assert forall k :: 0 <= k < n ==> entries[..n][k] == entries[k];
      EntryCallSpec(entries[n]);
    }
  }

  /** Every converter call comes from a usable row. */
  lemma {:induction false} ConversionsSound(entries: seq<Entry>)
    ensures forall c :: c in Conversions(entries).calls ==>
      exists k :: 0 <= k < |entries| && !Rejected(entries[k]) && EntryCall(entries[k]) == Success(Some(c))
  {
    if entries != [] {
      var n := |entries| - 1;
      var init := entries[..n];
      ConversionsSound(init);
      var o := Conversions(init);
      forall c | c in Conversions(entries).calls
        ensures exists k :: 0 <= k < |entries| && !Rejected(entries[k]) && EntryCall(entries[k]) == Success(Some(c))
      {
        if c in o.calls {
          var k :| 0 <= k < n && !Rejected(init[k]) && EntryCall(init[k]) == Success(Some(c));
          assert init[k] == entries[k];
        } else {
          EntryCallSpec(entries[n]);
          assert !Rejected(entries[n]) && EntryCall(entries[n]) == Success(Some(c));
        }
      }
    }
  }

  /** Without an error, every usable row is converted. */
  lemma {:induction false} ConversionsComplete(entries: seq<Entry>)
    ensures Conversions(entries).error.None? ==>
      forall k :: 0 <= k < |entries| && !Rejected(entries[k]) ==>
        EntryCall(entries[k]).Success? && EntryCall(entries[k]).value.Some?
        && EntryCall(entries[k]).value.value in Conversions(entries).calls
  {
    if entries != [] && Conversions(entries).error.None? {
      var n := |entries| - 1;
      var init := entries[..n];
      ConversionsComplete(init);
      ConversionsError(entries);
      EntryCallSpec(entries[n]);
      forall k | 0 <= k < |entries| && !Rejected(entries[k])
        ensures EntryCall(entries[k]).Success? && EntryCall(entries[k]).value.Some?
                && EntryCall(entries[k]).value.value in Conversions(entries).calls
      {
        EntryCallSpec(entries[k]);
        if k < n {
          assert init[k] == entries[k];
        }
      }
    }
  }

  /** The second loop of the script: `continue` past rejected rows, a call
      to the converter for each other row. */
  method ConvertAll(entries: seq<Entry>) returns (o: Outcome)
    ensures o == Conversions(entries)
  {
    var calls: seq<Call> := [];
    for k := 0 to |entries|
      invariant Conversions(entries[..k]) == Outcome(calls, None)
    {
      assert entries[..k + 1][..k] == entries[..k];
      var e := entries[k];
      if e.begin == "-" || e.end == "-" {
        continue;
      }
      var b, en := e.begin, e.end;
      if '(' in b {
        b := Split(b, '(')[0];
        en := Split(en, '(')[0];
      }
      var begin := ParseInt(b);
      if begin.None? {
        ConversionsStop(entries, k + 1);
        return Outcome(calls, Some(ValueError));
      }
      var end := ParseInt(en);
      if end.None? {
        ConversionsStop(entries, k + 1);
        return Outcome(calls, Some(ValueError));
      }
      calls := calls + [Call(PathOf(e), TitleOf(e), e.file, begin.value, end.value)];
    }
    assert entries[..|entries|] == entries;
    return Outcome(calls, None);
  }

  /** Once the loop has stopped on an error, later rows change nothing. */
  lemma {:induction false} ConversionsStop(entries: seq<Entry>, k: nat)
    requires k <= |entries| && Conversions(entries[..k]).error.Some?
    ensures Conversions(entries) == Conversions(entries[..k])
    decreases |entries| - k
  {
    if k < |entries| {
      assert entries[..k + 1][..k] == entries[..k];
      ConversionsStop(entries, k + 1);
    } else {
      assert entries[..k] == entries;
    }
  }

  /** The whole script on the lines of the map file: the header line is
      read and dropped, then the two loops run. */
  method ConvertMap(fileLines: seq<string>) returns (o: Outcome)
    ensures var lines := if fileLines == [] then [] else fileLines[1..];
      o == match ReadTable(lines)
           case Failure(e) => Outcome([], Some(e))
           case Success(t) => Conversions(Entries(t))
  {
    var lines := if fileLines == [] then [] else fileLines[1..];
    var table := ReadMap(lines);
    if table.Failure? {
      return Outcome([], Some(table.error));
    }
    o := ConvertAll(Entries(table.value));
  }
}
