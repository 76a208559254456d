/** The SpectraRay ASCII importer: the Ψ/Δ reader (angles from the header,
    angle × {Ψ, Δ} column labels, empty columns dropped, rows stacked by
    angle and sorted, Δ wrapped) and the Mueller-matrix reader (a fixed
    16-column window labelled M11 ... M44). The CSV tokenizer and float
    parsing are oracles: the table arrives already split into cells. */
module SpectraRay {
  import opened Common

  /** The exceptions the readers raise. */
  datatype ImportError =
    | EmptyFile                                   // an empty file: read_csv raises pandas' EmptyDataError
    | NotAFloat(token: string)                    // float() of a header token fails
    | LengthMismatch(columns: nat, labels: nat)   // a label list whose length is not the column count

  /** One data line as read_csv returns it: the index column (the
      wavelength) and the remaining cells, None standing for NaN. */
  datatype Line = Line(wavelength: real, cells: seq<Option<real>>)

  /** The table read_csv returns: `width` value columns; a short line is
      padded with NaN. */
  datatype Table = Table(width: nat, lines: seq<Line>)

  /** The cell of a line in column j, NaN where the line is short. */
  function Cell(line: Line, j: nat): Option<real>
  {
    if j < |line.cells| then line.cells[j] else None
  }

  // ---------------------------------------------------------------------------
  // Angles of incidence from the header line

  /** The header tokens at positions 2, 4, 6, ...: header.split(sep)[2::2]. */
  function AngleTokens(header: string, sep: char): seq<string>
  {
    var tokens := Split(header, sep);
    Stride(tokens, 2, |tokens|, 2)
  }

  /** The angle tokens are every other token from the third one on. */
  lemma AngleTokensLayout(header: string, sep: char)
    ensures var tokens := Split(header, sep);
      var r := AngleTokens(header, sep);
      && |r| == (if |tokens| < 2 then 0 else (|tokens| - 1) / 2)
      && forall k :: 0 <= k < |r| ==> 2 + 2 * k < |tokens| && r[k] == tokens[2 + 2 * k]
  {
    var tokens := Split(header, sep);
    if |tokens| >= 2 {
      EveryOther(tokens, 2);
    }
  }

  /** The angles of incidence: list(map(float, header.split(sep)[2::2])); a
      token float() rejects raises. */
  function Angles(header: string, sep: char, number: string -> Option<real>): (r: Result<seq<real>, ImportError>)
    ensures var tokens := AngleTokens(header, sep);
      && (r.Ok? <==> forall k :: 0 <= k < |tokens| ==> number(tokens[k]).Some?)
      && (r.Ok? ==> |r.value| == |tokens| && forall k :: 0 <= k < |tokens| ==> number(tokens[k]) == Some(r.value[k]))
      && (r.Err? ==> exists k :: 0 <= k < |tokens| && number(tokens[k]).None? && r.error == NotAFloat(tokens[k]))
  {
    match ParseNumbers(AngleTokens(header, sep), number)
    case Err(token) => Err(NotAFloat(token))
    case Ok(aois) => Ok(aois)
  }

  // ---------------------------------------------------------------------------
  // Column labels

  datatype Quantity = Psi | Delta

  /** The column label text of a quantity. */
  function Symbol(q: Quantity): string
  {
    match q
    case Psi => "Ψ"
    case Delta => "Δ"
  }

  /** MultiIndex.from_product([aois, [Ψ, Δ]]): two columns per angle,
      angle-major. */
  function ColumnLabels(aois: seq<real>): seq<(real, Quantity)>
  {
    if aois == [] then [] else [(aois[0], Psi), (aois[0], Delta)] + ColumnLabels(aois[1..])
  }

  /** Column 2i is Ψ at the i-th angle and column 2i + 1 is Δ at the same angle. */
  lemma {:induction false} ColumnLabelsLayout(aois: seq<real>)
    ensures |ColumnLabels(aois)| == 2 * |aois|
    ensures forall i :: 0 <= i < |aois| ==>
      ColumnLabels(aois)[2 * i] == (aois[i], Psi) && ColumnLabels(aois)[2 * i + 1] == (aois[i], Delta)
  {
    if aois != [] {
      var rest := ColumnLabels(aois[1..]);
      ColumnLabelsLayout(aois[1..]);
      assert ColumnLabels(aois) == [(aois[0], Psi), (aois[0], Delta)] + rest;
      forall i | 1 <= i < |aois|
        ensures ColumnLabels(aois)[2 * i] == (aois[i], Psi) && ColumnLabels(aois)[2 * i + 1] == (aois[i], Delta)
      {
        assert aois[1..][i - 1] == aois[i];
        assert ColumnLabels(aois)[2 * i] == rest[2 * (i - 1)];
        assert ColumnLabels(aois)[2 * i + 1] == rest[2 * (i - 1) + 1];
      }
    }
  }

  /** sort_index(axis=1, ascending=False) on the value columns: Ψ (U+03A8)
      sorts after Δ (U+0394), so Ψ comes first. */
  function ValueColumns(): (cols: seq<Quantity>)
    ensures |cols| == 2 && multiset(cols) == multiset{Psi, Delta}
    ensures Symbol(cols[0])[0] > Symbol(cols[1])[0]
  {
    [Psi, Delta]
  }

  // ---------------------------------------------------------------------------
  // dropna(axis="columns", how="all")

  /** Some line holds a number in column j. */
  predicate HasValue(t: Table, j: nat)
  {
    exists i :: 0 <= i < |t.lines| && Cell(t.lines[i], j).Some?
  }

  /** The columns below n that hold at least one number, in order. */
  function KeptColumns(t: Table, n: nat): (r: seq<nat>)
    ensures forall k :: 0 <= k < |r| ==> r[k] < n && HasValue(t, r[k])
    ensures forall j :: 0 <= j < n && HasValue(t, j) ==> j in r
    ensures forall k, l :: 0 <= k < l < |r| ==> r[k] < r[l]
  {
    if n == 0 then []
    else KeptColumns(t, n - 1) + (if HasValue(t, n - 1) then [n - 1] else [])
  }

  // ---------------------------------------------------------------------------
  // stack(0), reorder_levels and sort_index

  /** One row of the output: indexed by (angle, wavelength). */
  datatype Measurement = Measurement(angle: real, wavelength: real, psi: Option<real>, delta: Option<real>)

  /** The (angle, wavelength) rows of one line, angle by angle; stack drops
      a row whose Ψ and Δ are both NaN. */
  function StackLine(line: Line, kept: seq<nat>, aois: seq<real>): seq<Measurement>
    requires |kept| == 2 * |aois|
  {
    if aois == [] then []
    else
      var n := |aois| - 1;
      var m := Row(line, kept, aois, n);
      StackLine(line, kept[..2 * n], aois[..n]) + (if m.psi.Some? || m.delta.Some? then [m] else [])
  }

  /** The row of a line at the i-th angle: Ψ and Δ from the angle's two columns. */
  function Row(line: Line, kept: seq<nat>, aois: seq<real>, i: nat): Measurement
    requires |kept| == 2 * |aois| && i < |aois|
  {
    Measurement(aois[i], line.wavelength, Cell(line, kept[2 * i]), Cell(line, kept[2 * i + 1]))
  }

  /** A line's stacked rows are exactly its rows at each angle that hold a
      number. */
  lemma {:induction false} StackLineMembers(line: Line, kept: seq<nat>, aois: seq<real>, m: Measurement)
    requires |kept| == 2 * |aois|
    ensures m in StackLine(line, kept, aois) <==>
      exists i :: 0 <= i < |aois| && m == Row(line, kept, aois, i) && (m.psi.Some? || m.delta.Some?)
  {
    if aois != [] {
      var n := |aois| - 1;
      StackLineMembers(line, kept[..2 * n], aois[..n], m);
      forall i | 0 <= i < n ensures Row(line, kept[..2 * n], aois[..n], i) == Row(line, kept, aois, i) {
      }
    }
  }

  /** All lines stacked, line by line. */
  function Stack(lines: seq<Line>, kept: seq<nat>, aois: seq<real>): seq<Measurement>
    requires |kept| == 2 * |aois|
  {
    Concat(lines, line => StackLine(line, kept, aois))
  }

  /** The stacked rows are those of the single lines. */
  lemma StackMembers(lines: seq<Line>, kept: seq<nat>, aois: seq<real>, m: Measurement)
    requires |kept| == 2 * |aois|
    ensures m in Stack(lines, kept, aois) <==>
      exists l :: 0 <= l < |lines| && m in StackLine(lines[l], kept, aois)
  {
    if m in Stack(lines, kept, aois) {
      StackMemberOrigin(lines, kept, aois, m);
    }
    if exists l :: 0 <= l < |lines| && m in StackLine(lines[l], kept, aois) {
      var l :| 0 <= l < |lines| && m in StackLine(lines[l], kept, aois);
      StackMemberFrom(lines, kept, aois, m, l);
    }
  }

  /** A stacked row is a stacked row of one of the lines. */
  lemma {:induction false} StackMemberOrigin(lines: seq<Line>, kept: seq<nat>, aois: seq<real>, m: Measurement)
    requires |kept| == 2 * |aois| && m in Stack(lines, kept, aois)
    ensures exists l :: 0 <= l < |lines| && m in StackLine(lines[l], kept, aois)
  {
    var n := |lines| - 1;
    var init := lines[..n];
    assert Stack(lines, kept, aois) == Stack(init, kept, aois) + StackLine(lines[n], kept, aois);
    if m in Stack(init, kept, aois) {
      StackMemberOrigin(init, kept, aois, m);
      var l :| 0 <= l < n && m in StackLine(init[l], kept, aois);
      assert init[l] == lines[l];
    }
  }

  /** A stacked row of any of the lines is in the stack. */
  lemma {:induction false} StackMemberFrom(lines: seq<Line>, kept: seq<nat>, aois: seq<real>, m: Measurement, l: nat)
    requires |kept| == 2 * |aois| && l < |lines| && m in StackLine(lines[l], kept, aois)
    ensures m in Stack(lines, kept, aois)
  {
    var n := |lines| - 1;
    var init := lines[..n];
    assert Stack(lines, kept, aois) == Stack(init, kept, aois) + StackLine(lines[n], kept, aois);
    if l < n {
      assert init[l] == lines[l];
      StackMemberFrom(init, kept, aois, m, l);
    }
  }

  /** Every stacked row is a line's row at one angle. */
  lemma StackedRowOrigin(lines: seq<Line>, kept: seq<nat>, aois: seq<real>, m: Measurement)
    requires |kept| == 2 * |aois| && m in Stack(lines, kept, aois)
    ensures exists l, i :: 0 <= l < |lines| && 0 <= i < |aois| && m == Row(lines[l], kept, aois, i)
  {
    StackMembers(lines, kept, aois, m);
    var l :| 0 <= l < |lines| && m in StackLine(lines[l], kept, aois);
    StackLineMembers(lines[l], kept, aois, m);
  }

  /** The stack up to line l ends with that line's rows. */
  lemma StackSnoc(lines: seq<Line>, kept: seq<nat>, aois: seq<real>, l: nat)
    requires |kept| == 2 * |aois| && l < |lines|
    ensures Stack(lines[..l + 1], kept, aois) == Stack(lines[..l], kept, aois) + StackLine(lines[l], kept, aois)
  {
    var upTo := lines[..l + 1];
    assert upTo[..l] == lines[..l];
  }

  /** stack keeps every line's rows in line order: the stack is the stack
      of the lines before line l, then that line's rows, then the stack of
      the lines after it. */
  lemma StackSplit(lines: seq<Line>, kept: seq<nat>, aois: seq<real>, l: nat)
    requires |kept| == 2 * |aois| && l < |lines|
    ensures Stack(lines, kept, aois)
         == Stack(lines[..l], kept, aois) + StackLine(lines[l], kept, aois) + Stack(lines[l + 1..], kept, aois)
  {
    var upTo, rest := lines[..l + 1], lines[l + 1..];
    calc {
      Stack(lines, kept, aois);
      { assert lines == upTo + rest; }
      Stack(upTo + rest, kept, aois);
      { ConcatAppend(upTo, rest, line => StackLine(line, kept, aois)); }
      Stack(upTo, kept, aois) + Stack(rest, kept, aois);
      { StackSnoc(lines, kept, aois, l); }
      Stack(lines[..l], kept, aois) + StackLine(lines[l], kept, aois) + Stack(rest, kept, aois);
    }
  }

  /** Each row is stacked once per line that holds it: the stack counts
      line l's rows beside those of the lines before and after it. */
  lemma StackCounts(lines: seq<Line>, kept: seq<nat>, aois: seq<real>, l: nat)
    requires |kept| == 2 * |aois| && l < |lines|
    ensures multiset(Stack(lines, kept, aois))
         == multiset(Stack(lines[..l], kept, aois)) + multiset(StackLine(lines[l], kept, aois))
            + multiset(Stack(lines[l + 1..], kept, aois))
  {
    StackSplit(lines, kept, aois, l);
  }

  /** The (angle, wavelength) index order. */
  predicate KeyLe(a: Measurement, b: Measurement)
  {
    a.angle < b.angle || (a.angle == b.angle && a.wavelength <= b.wavelength)
  }

  predicate SortedByKey(s: seq<Measurement>)
  {
    forall i, j :: 0 <= i < j < |s| ==> KeyLe(s[i], s[j])
  }

  /** Insert m before the first row whose key is above it. */
  function Insert(m: Measurement, s: seq<Measurement>): seq<Measurement>
  {
    if s == [] then [m]
    else if KeyLe(m, s[0]) then [m] + s
    else [s[0]] + Insert(m, s[1..])
  }

  /** Inserting adds exactly m. */
  lemma {:induction false} InsertPermutes(m: Measurement, s: seq<Measurement>)
    ensures multiset(Insert(m, s)) == multiset(s) + multiset{m}
  {
    if s != [] && !KeyLe(m, s[0]) {
      InsertPermutes(m, s[1..]);
      assert s == [s[0]] + s[1..];
      assert Insert(m, s) == [s[0]] + Insert(m, s[1..]);
    }
  }

  /** Inserting into a sorted list keeps it sorted and adds exactly m. */
  lemma {:induction false} InsertSorted(m: Measurement, s: seq<Measurement>)
    requires SortedByKey(s)
    ensures SortedByKey(Insert(m, s))
    ensures multiset(Insert(m, s)) == multiset(s) + multiset{m}
  {
    InsertPermutes(m, s);
    if s != [] && !KeyLe(m, s[0]) {
      var tail := s[1..];
      assert SortedByKey(tail) by {
        forall i, j | 0 <= i < j < |tail| ensures KeyLe(tail[i], tail[j]) {
          assert tail[i] == s[i + 1] && tail[j] == s[j + 1];
        }
      }
      var rest := Insert(m, tail);
      InsertSorted(m, tail);
      forall j | 0 <= j < |rest| ensures KeyLe(s[0], rest[j]) {
        var x := rest[j];
        assert x in multiset(rest);
        if x != m {
          assert x in multiset(tail);
          var k :| 0 <= k < |tail| && tail[k] == x;
          assert s[k + 1] == x;
        }
      }
      var r := [s[0]] + rest;
      assert Insert(m, s) == r;
      forall i, j | 0 <= i < j < |r| ensures KeyLe(r[i], r[j]) {
        assert r[j] == rest[j - 1];
        if i > 0 {
          assert r[i] == rest[i - 1];
        }
      }
    }
  }

  /** sort_index(axis=0): the rows in (angle, wavelength) order. */
  function SortByKey(s: seq<Measurement>): seq<Measurement>
  {
    if s == [] then []
    else
      var n := |s| - 1;
      Insert(s[n], SortByKey(s[..n]))
  }

  /** The sorted rows are in index order and are a permutation of the input. */
  lemma {:induction false} SortByKeySorts(s: seq<Measurement>)
    ensures SortedByKey(SortByKey(s))
    ensures multiset(SortByKey(s)) == multiset(s)
  {
    if s != [] {
      var n := |s| - 1;
      SortByKeySorts(s[..n]);
      InsertSorted(s[n], SortByKey(s[..n]));
      assert s == s[..n] + [s[n]];
    }
  }

  // ---------------------------------------------------------------------------
  // The Δ range

  /** Δ.where(Δ <= 180, Δ - 360): one shift of a full turn for values above
      180 degrees. */
  function Wrap(d: real): (w: real)
    ensures d <= 180.0 ==> w == d
    ensures d > 180.0 ==> w == d - 360.0
    ensures d <= 540.0 ==> w <= 180.0
    ensures -180.0 < d ==> -180.0 < w
  {
    if d <= 180.0 then d else d - 360.0
  }

  /** Wrapping twice changes nothing more, for every Δ a single shift brings
      into range. */
  lemma WrapIdempotent(d: real)
    requires d <= 540.0
    ensures Wrap(Wrap(d)) == Wrap(d)
  {
  }

  /** The Δ column after the where: NaN fails the comparison and becomes
      NaN - 360, which is NaN again. */
  function WrapCell(d: Option<real>): Option<real>
  {
    match d
    case None => None
    case Some(x) => Some(Wrap(x))
  }

  /** A row with its Δ wrapped. */
  function WrapRow(m: Measurement): Measurement
  {
    m.(delta := WrapCell(m.delta))
  }

  /** The where over the whole Δ column: Ψ, the angle and the wavelength are
      untouched and every Δ is wrapped. */
  function WrapDeltas(s: seq<Measurement>): (r: seq<Measurement>)
    ensures |r| == |s|
    ensures forall k :: 0 <= k < |s| ==>
      r[k].angle == s[k].angle && r[k].wavelength == s[k].wavelength && r[k].psi == s[k].psi
      && r[k].delta.Some? == s[k].delta.Some?
      && (s[k].delta.Some? ==> r[k].delta.value == Wrap(s[k].delta.value))
  {
    seq(|s|, k requires 0 <= k < |s| => WrapRow(s[k]))
  }

  /** Wrapping Δ leaves the (angle, wavelength) index alone, so it commutes
      with inserting by that index. */
  lemma {:induction false} WrapInsert(m: Measurement, s: seq<Measurement>)
    ensures WrapDeltas(Insert(m, s)) == Insert(WrapRow(m), WrapDeltas(s))
  {
    if s != [] && !KeyLe(m, s[0]) {
      WrapInsert(m, s[1..]);
      assert WrapDeltas(s)[1..] == WrapDeltas(s[1..]);
      assert WrapDeltas([s[0]] + Insert(m, s[1..])) == [WrapRow(s[0])] + WrapDeltas(Insert(m, s[1..]));
    } else if s != [] {
      assert WrapDeltas([m] + s) == [WrapRow(m)] + WrapDeltas(s);
    }
  }

  /** Sorting then wrapping is wrapping then sorting. */
  lemma {:induction false} WrapSort(s: seq<Measurement>)
    ensures WrapDeltas(SortByKey(s)) == SortByKey(WrapDeltas(s))
  {
    if s != [] {
      var n := |s| - 1;
      WrapSort(s[..n]);
      WrapInsert(s[n], SortByKey(s[..n]));
      assert WrapDeltas(s)[..n] == WrapDeltas(s[..n]);
    }
  }

  // ---------------------------------------------------------------------------
  // read_spectraray_psi_delta

  /** The Ψ/Δ frame: value columns in their order and rows indexed by
      (angle, wavelength). */
  datatype PsiDeltaFrame = PsiDeltaFrame(columns: seq<Quantity>, rows: seq<Measurement>)

  /** The rows of the frame: stacked, sorted by index, Δ wrapped. */
  function Rows(table: Table, kept: seq<nat>, aois: seq<real>): seq<Measurement>
    requires |kept| == 2 * |aois|
  {
    WrapDeltas(SortByKey(Stack(table.lines, kept, aois)))
  }

  /** The rows are sorted by (angle, wavelength) and each is a line's row at
      one angle with Δ wrapped. */
  lemma RowsShape(table: Table, kept: seq<nat>, aois: seq<real>)
    requires |kept| == 2 * |aois|
    ensures SortedByKey(Rows(table, kept, aois))
    ensures forall k :: 0 <= k < |Rows(table, kept, aois)| ==>
      exists l, i :: (0 <= l < |table.lines| && 0 <= i < |aois|
        && Rows(table, kept, aois)[k] == WrapRow(Row(table.lines[l], kept, aois, i)))
  {
    var stacked := Stack(table.lines, kept, aois);
    var sorted := SortByKey(stacked);
    var rows := Rows(table, kept, aois);
    SortByKeySorts(stacked);
    forall k | 0 <= k < |rows|
      ensures exists l, i :: (0 <= l < |table.lines| && 0 <= i < |aois|
        && rows[k] == WrapRow(Row(table.lines[l], kept, aois, i)))
    {
      var m := sorted[k];
      assert m in multiset(stacked);
      StackedRowOrigin(table.lines, kept, aois, m);
      var l, i :| 0 <= l < |table.lines| && 0 <= i < |aois| && m == Row(table.lines[l], kept, aois, i);
      assert rows[k] == WrapRow(m);
    }
  }

  /** Wrapping works row by row. */
  lemma WrapAppend(a: seq<Measurement>, b: seq<Measurement>)
    ensures WrapDeltas(a + b) == WrapDeltas(a) + WrapDeltas(b)
  {
  }

  /** Sorting only reorders: as a multiset the rows are the wrapped stack. */
  lemma RowsStacked(table: Table, kept: seq<nat>, aois: seq<real>)
    requires |kept| == 2 * |aois|
    ensures multiset(Rows(table, kept, aois)) == multiset(WrapDeltas(Stack(table.lines, kept, aois)))
  {
    var stacked := Stack(table.lines, kept, aois);
    WrapSort(stacked);
    SortByKeySorts(WrapDeltas(stacked));
  }

  /** The rows count each stacked row once, with Δ wrapped: line l
      contributes exactly its own wrapped rows beside those of the lines
      before and after it. */
  lemma RowsCounts(table: Table, kept: seq<nat>, aois: seq<real>, l: nat)
    requires |kept| == 2 * |aois| && l < |table.lines|
    ensures multiset(Rows(table, kept, aois)) == multiset(WrapDeltas(Stack(table.lines, kept, aois)))
    ensures multiset(Rows(table, kept, aois))
         == multiset(Rows(table.(lines := table.lines[..l]), kept, aois))
            + multiset(WrapDeltas(StackLine(table.lines[l], kept, aois)))
            + multiset(Rows(table.(lines := table.lines[l + 1..]), kept, aois))
  {
    var lines := table.lines;
    var before := Stack(lines[..l], kept, aois);
    var here := StackLine(lines[l], kept, aois);
    var after := Stack(lines[l + 1..], kept, aois);
    RowsStacked(table, kept, aois);
    RowsStacked(table.(lines := lines[..l]), kept, aois);
    RowsStacked(table.(lines := lines[l + 1..]), kept, aois);
    StackSplit(lines, kept, aois, l);
    WrapAppend(before + here, after);
    WrapAppend(before, here);
  }

  /** The Ψ/Δ reader over the file's lines: the first line is the header and
      is skipped by the table reader; `readTable` is read_csv with the
      wavelength as index, `number` is float. */
  function PsiDelta(fileLines: seq<string>, sep: char, readTable: seq<string> -> Table,
                    number: string -> Option<real>): (r: Result<PsiDeltaFrame, ImportError>)
  {
    if fileLines == [] then Err(EmptyFile)
    else
      var table := readTable(fileLines[1..]);
      var kept := KeptColumns(table, table.width);
      match Angles(fileLines[0], sep, number)
      case Err(e) => Err(e)
      case Ok(aois) =>
        if |kept| != |ColumnLabels(aois)| then Err(LengthMismatch(|kept|, |ColumnLabels(aois)|))
        else
          ColumnLabelsLayout(aois);
          Ok(PsiDeltaFrame(ValueColumns(), Rows(table, kept, aois)))
  }

  /** What the Ψ/Δ reader promises: it needs a header line whose angle tokens
      are numbers and one non-empty data column per label; its value columns
      are Ψ then Δ, its rows are sorted by (angle, wavelength), and each row is
      a line's Ψ and Δ at one angle, with Δ wrapped. */
  lemma {:induction false} PsiDeltaShape(fileLines: seq<string>, sep: char, readTable: seq<string> -> Table,
                                         number: string -> Option<real>)
    ensures fileLines == [] ==> PsiDelta(fileLines, sep, readTable, number) == Err(EmptyFile)
    ensures var r := PsiDelta(fileLines, sep, readTable, number);
      r.Ok? ==>
        && fileLines != []
        && Angles(fileLines[0], sep, number).Ok?
        && var table := readTable(fileLines[1..]);
           var aois := Angles(fileLines[0], sep, number).value;
           var kept := KeptColumns(table, table.width);
           && |kept| == 2 * |aois|
           && r.value.columns == [Psi, Delta]
           && SortedByKey(r.value.rows)
           && (forall k :: 0 <= k < |r.value.rows| ==>
                 exists l, i :: (0 <= l < |table.lines| && 0 <= i < |aois|
                   && r.value.rows[k] == WrapRow(Row(table.lines[l], kept, aois, i))))
  {
    var r := PsiDelta(fileLines, sep, readTable, number);
    if r.Ok? {
      var table := readTable(fileLines[1..]);
      var aois := Angles(fileLines[0], sep, number).value;
      var kept := KeptColumns(table, table.width);
      ColumnLabelsLayout(aois);
      RowsShape(table, kept, aois);
    }
  }

  /** When the reader succeeds and how it fails, for a non-empty file: an
      angle token that is not a number is reported as such; otherwise the
      reader succeeds exactly when the kept data columns are two per angle,
      and its rows are then the stacked, sorted, wrapped lines. */
  lemma PsiDeltaOutcome(fileLines: seq<string>, sep: char, readTable: seq<string> -> Table,
                        number: string -> Option<real>)
    ensures fileLines != [] && Angles(fileLines[0], sep, number).Err? ==>
      PsiDelta(fileLines, sep, readTable, number) == Err(Angles(fileLines[0], sep, number).error)
    ensures fileLines != [] && Angles(fileLines[0], sep, number).Ok? ==>
      var table := readTable(fileLines[1..]);
      var aois := Angles(fileLines[0], sep, number).value;
      var kept := KeptColumns(table, table.width);
      && (|kept| != 2 * |aois| ==>
            PsiDelta(fileLines, sep, readTable, number) == Err(LengthMismatch(|kept|, 2 * |aois|)))
      && (|kept| == 2 * |aois| ==>
            PsiDelta(fileLines, sep, readTable, number) == Ok(PsiDeltaFrame([Psi, Delta], Rows(table, kept, aois))))
  {
    if fileLines != [] && Angles(fileLines[0], sep, number).Ok? {
      ColumnLabelsLayout(Angles(fileLines[0], sep, number).value);
    }
  }

  /** Every angle of every line with a number in Ψ or Δ appears among the
      rows, with Δ wrapped. */
  lemma RowsComplete(table: Table, kept: seq<nat>, aois: seq<real>, l: nat, i: nat)
    requires |kept| == 2 * |aois| && l < |table.lines| && i < |aois|
    requires Cell(table.lines[l], kept[2 * i]).Some? || Cell(table.lines[l], kept[2 * i + 1]).Some?
    ensures WrapRow(Row(table.lines[l], kept, aois, i)) in Rows(table, kept, aois)
  {
    var stacked := Stack(table.lines, kept, aois);
    var sorted := SortByKey(stacked);
    SortByKeySorts(stacked);
    var m := Row(table.lines[l], kept, aois, i);
    StackLineMembers(table.lines[l], kept, aois, m);
    StackMemberFrom(table.lines, kept, aois, m, l);
    assert m in multiset(sorted);
    var k :| 0 <= k < |sorted| && sorted[k] == m;
    assert Rows(table, kept, aois)[k] == WrapRow(m);
  }

  /** Every angle of every line with a number in Ψ or Δ appears in the
      output, at its angle and wavelength. */
  lemma PsiDeltaComplete(fileLines: seq<string>, sep: char, readTable: seq<string> -> Table,
                         number: string -> Option<real>, l: nat, i: nat)
    requires PsiDelta(fileLines, sep, readTable, number).Ok?
    requires var table := readTable(fileLines[1..]);
      var aois := Angles(fileLines[0], sep, number).value;
      var kept := KeptColumns(table, table.width);
      l < |table.lines| && i < |aois| && 2 * i + 1 < |kept|
      && (Cell(table.lines[l], kept[2 * i]).Some? || Cell(table.lines[l], kept[2 * i + 1]).Some?)
    ensures var table := readTable(fileLines[1..]);
      var aois := Angles(fileLines[0], sep, number).value;
      var kept := KeptColumns(table, table.width);
      |kept| == 2 * |aois|
      && WrapRow(Row(table.lines[l], kept, aois, i)) in PsiDelta(fileLines, sep, readTable, number).value.rows
  {
    var table := readTable(fileLines[1..]);
    var aois := Angles(fileLines[0], sep, number).value;
    var kept := KeptColumns(table, table.width);
    ColumnLabelsLayout(aois);
    assert PsiDelta(fileLines, sep, readTable, number).value.rows == Rows(table, kept, aois);
    RowsComplete(table, kept, aois, l, i);
  }

  // ---------------------------------------------------------------------------
  // read_spectraray_mmatrix

  /** The labels of the sixteen Mueller-matrix columns, row-major. */
  const MuellerLabels: seq<string> := [
    "M11", "M12", "M13", "M14", "M21", "M22", "M23", "M24",
    "M31", "M32", "M33", "M34", "M41", "M42", "M43", "M44"]

  function Digit(d: nat): char
    requires 1 <= d <= 4
  {
    ['1', '2', '3', '4'][d - 1]
  }

  /** Element (i, j) of the Mueller matrix is labelled "Mij" and sits at
      position 4 (i - 1) + (j - 1). */
  lemma MuellerLabelsRowMajor(i: nat, j: nat)
    requires 1 <= i <= 4 && 1 <= j <= 4
    ensures |MuellerLabels| == 16
    ensures MuellerLabels[4 * (i - 1) + (j - 1)] == ['M', Digit(i), Digit(j)]
  {
    assert i == 1 || i == 2 || i == 3 || i == 4;
    assert j == 1 || j == 2 || j == 3 || j == 4;
  }

  /** A Mueller-matrix frame: the labels and, per wavelength, the values. */
  datatype MuellerFrame = MuellerFrame(labels: seq<string>, rows: seq<(real, seq<Option<real>>)>)

  /** The line's cells padded with NaN to the table width. */
  function Cells(t: Table, line: Line): (r: seq<Option<real>>)
    ensures |r| == t.width
    ensures forall j :: 0 <= j < t.width ==> r[j] == Cell(line, j)
  {
    seq(t.width, j requires 0 <= j < t.width => Cell(line, j))
  }

  /** .iloc[:, -17:-1] and the sixteen labels: the frame needs at least 17
      value columns, or the label assignment raises. */
  function Mueller(t: Table): (r: Result<MuellerFrame, ImportError>)
  {
    var window := Slice(seq(t.width, j requires 0 <= j < t.width => j), -17, -1);
    if |window| != |MuellerLabels| then Err(LengthMismatch(|window|, |MuellerLabels|))
    else Ok(MuellerFrame(MuellerLabels,
      seq(|t.lines|, i requires 0 <= i < |t.lines| => (t.lines[i].wavelength, Slice(Cells(t, t.lines[i]), -17, -1)))))
  }

  /** The reader succeeds exactly when there are at least 17 value columns;
      it then keeps the 16 columns from the 17th-last up to, not including,
      the last, for every line. */
  lemma MuellerWindow(t: Table)
    ensures Mueller(t).Ok? <==> t.width >= 17
    ensures t.width < 17 ==> Mueller(t) == Err(LengthMismatch(if t.width == 0 then 0 else t.width - 1, 16))
    ensures Mueller(t).Ok? ==>
      && Mueller(t).value.labels == MuellerLabels
      && |Mueller(t).value.rows| == |t.lines|
      && forall i, k :: 0 <= i < |t.lines| && 0 <= k < 16 ==>
           Mueller(t).value.rows[i].0 == t.lines[i].wavelength
           && |Mueller(t).value.rows[i].1| == 16
           && Mueller(t).value.rows[i].1[k] == Cell(t.lines[i], t.width - 17 + k)
  {
    var w := t.width;
    var cols := seq(w, j requires 0 <= j < w => j);
    if w >= 17 {
      assert Slice(cols, -17, -1) == cols[w - 17..w - 1];
      forall i, k | 0 <= i < |t.lines| && 0 <= k < 16
        ensures Slice(Cells(t, t.lines[i]), -17, -1)[k] == Cell(t.lines[i], w - 17 + k)
      {
        assert Slice(Cells(t, t.lines[i]), -17, -1) == Cells(t, t.lines[i])[w - 17..w - 1];
      }
    } else if w >= 1 {
      assert Slice(cols, -17, -1) == cols[0..w - 1];
    }
  }
}
