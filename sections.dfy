/**
 * The section splitter (`splitSections`, parser.go). A powertop CSV report
 * is a list of rows; rows whose first field is an underline rule separate
 * sections, the first row after a rule names the section and the rows after
 * it are the section's data. The splitter is a single pass over the rows
 * with three pieces of state: the current title, the rows accumulated for
 * it and the map of sections closed so far.
 *
 * `Step`/`Run`/`Split` give the meaning of that pass on row values; the
 * lemmas state what it promises; `SplitSections` is the loop itself over
 * the caller's row arrays, which it trims in place and stores by reference.
 */
module Sections {
  import opened GoStrings

  type Row = seq<string>

  /** The decorative title of powertop's banner section, never stored. */
  const Banner: string := "P o w e r T O P"

  /**
   * The regular expression `^(.)\_+$`: exactly one character other than a
   * newline, then one or more underscores, and nothing else.
   */
  predicate IsSeparator(field: string) {
    |field| >= 2 && field[0] != '\n' && forall i :: 1 <= i < |field| ==> field[i] == '_'
  }

  /** The title a title row gives: its first field without surrounding spaces and asterisks. */
  function TitleOf(row: Row): string
    requires |row| > 0
  {
    Trim(row[0], " *")
  }

  /** Every field `TrimSpace`d, as the splitter does to a data row. */
  function TrimFields(row: Row): (r: Row)
    ensures |r| == |row|
  {
    seq(|row|, i requires 0 <= i < |row| => TrimSpace(row[i]))
  }

  /** The splitter's test for keeping a trimmed row: the joined fields are not blank. */
  predicate HasContent(row: Row) {
    TrimSpace(Join(row, "")) != ""
  }

  /** Some field of the row is non-empty. */
  predicate AnyNonEmpty(row: Row) {
    exists i :: 0 <= i < |row| && row[i] != ""
  }

  /** Every row has a first field (the splitter reads `line[0]`). */
  predicate WellFormed(rows: seq<Row>) {
    forall k :: 0 <= k < |rows| ==> |rows[k]| > 0
  }

  /** Title, accumulated rows and closed sections. */
  datatype SplitState = SplitState(header: string, current: seq<Row>, sections: map<string, seq<Row>>)

  const Start: SplitState := SplitState("", [], map[])

  /** One iteration of the splitter's loop. */
  function Step(st: SplitState, line: Row): SplitState
    requires |line| > 0
  {
    if IsSeparator(line[0]) then
      if |st.current| > 0 && st.header != Banner then SplitState("", [], st.sections[st.header := st.current])
      else st
    else if |st.header| == 0 then st.(header := TitleOf(line))
    else
      var t := TrimFields(line);
      if AnyNonEmpty(t) then st.(current := st.current + [t]) else st
  }

  /** The loop run over `rows` from state `st`. */
  function RunFrom(st: SplitState, rows: seq<Row>): SplitState
    requires WellFormed(rows)
  {
    if rows == [] then st else Step(RunFrom(st, rows[..|rows| - 1]), rows[|rows| - 1])
  }

  function Run(rows: seq<Row>): SplitState
    requires WellFormed(rows)
  {
    RunFrom(Start, rows)
  }

  /** What `splitSections` returns for `rows`: nothing is flushed at the end. */
  function Split(rows: seq<Row>): map<string, seq<Row>>
    requires WellFormed(rows)
  {
    Run(rows).sections
  }

  // ---------------------------------------------------------------------
  // The invariant the splitter keeps

  /** A row as stored: every field trimmed and at least one field non-empty. */
  ghost predicate IsKeptRow(r: Row) {
    && (forall i :: 0 <= i < |r| ==> NoSpaceAtEnds(r[i]))
    && AnyNonEmpty(r)
  }

  ghost predicate Inv(st: SplitState) {
    && (st.current != [] ==> st.header != "")
    && "" !in st.sections && Banner !in st.sections
    && (forall key :: key in st.sections ==> st.sections[key] != [])
    && (forall key, j :: key in st.sections && 0 <= j < |st.sections[key]| ==> IsKeptRow(st.sections[key][j]))
    && (forall j :: 0 <= j < |st.current| ==> IsKeptRow(st.current[j]))
  }

  /** The fields of a trimmed row have no white space at their ends. */
  lemma TrimFieldsTrimmed(line: Row)
    ensures forall i :: 0 <= i < |line| ==> NoSpaceAtEnds(TrimFields(line)[i])
  {
    forall i | 0 <= i < |line|
      ensures NoSpaceAtEnds(TrimFields(line)[i])
    {
      TrimSpaceFixed(line[i]);
    }
  }

  /** Trimming the fields of a row again changes nothing. */
  lemma TrimFieldsFixed(line: Row)
    ensures forall i :: 0 <= i < |line| ==> TrimSpace(TrimFields(line)[i]) == TrimFields(line)[i]
  {
    forall i | 0 <= i < |line|
      ensures TrimSpace(TrimFields(line)[i]) == TrimFields(line)[i]
    {
      TrimSpaceIdempotent(line[i]);
    }
  }

  /**
   * On a trimmed row the parser's test, "the joined fields are not blank",
   * holds exactly when some field is non-empty, that is when some field of
   * the original row is not blank.
   */
  lemma TrimmedRowKept(line: Row)
    ensures HasContent(TrimFields(line)) <==> AnyNonEmpty(TrimFields(line))
    ensures AnyNonEmpty(TrimFields(line)) <==> exists i :: 0 <= i < |line| && TrimSpace(line[i]) != ""
  {
    var t := TrimFields(line);
    TrimFieldsFixed(line);
    BlankJoinIff(t);
    if i :| 0 <= i < |line| && TrimSpace(line[i]) != "" {
      assert t[i] != "";
    }
    if i :| 0 <= i < |t| && t[i] != "" {
      assert TrimSpace(line[i]) != "";
    }
  }

  lemma StepInv(st: SplitState, line: Row)
    requires |line| > 0 && Inv(st)
    ensures Inv(Step(st, line))
  {
    var r := Step(st, line);
    if IsSeparator(line[0]) {
      if |st.current| > 0 && st.header != Banner {
        assert r.sections == st.sections[st.header := st.current];
        forall key, j | key in r.sections && 0 <= j < |r.sections[key]|
          ensures IsKeptRow(r.sections[key][j])
        {
          if key == st.header {
            assert r.sections[key] == st.current;
          } else {
            assert r.sections[key] == st.sections[key];
          }
        }
      }
    } else if |st.header| != 0 {
      var t := TrimFields(line);
      TrimFieldsTrimmed(line);
      if AnyNonEmpty(t) {
        assert r.current == st.current + [t];
        forall j | 0 <= j < |r.current|
          ensures IsKeptRow(r.current[j])
        {
          if j < |st.current| {
            assert r.current[j] == st.current[j];
          }
        }
      }
    }
  }

  lemma {:induction false} RunInv(st: SplitState, rows: seq<Row>)
    requires WellFormed(rows) && Inv(st)
    ensures Inv(RunFrom(st, rows))
    decreases |rows|
  {
    if rows != [] {
      RunInv(st, rows[..|rows| - 1]);
      StepInv(RunFrom(st, rows[..|rows| - 1]), rows[|rows| - 1]);
    }
  }

  /**
   * The keys and values `splitSections` can produce: never the banner title
   * nor the empty title, never an empty section, and every stored row has
   * its fields trimmed and at least one of them non-empty.
   */
  lemma SplitShape(rows: seq<Row>)
    requires WellFormed(rows)
    ensures Banner !in Split(rows) && "" !in Split(rows)
    ensures forall key :: key in Split(rows) ==> Split(rows)[key] != []
    ensures forall key, j :: key in Split(rows) && 0 <= j < |Split(rows)[key]| ==>
      (forall i :: 0 <= i < |Split(rows)[key][j]| ==> TrimSpace(Split(rows)[key][j][i]) == Split(rows)[key][j][i])
    ensures forall key, j :: key in Split(rows) && 0 <= j < |Split(rows)[key]| ==> AnyNonEmpty(Split(rows)[key][j])
    ensures rows == [] ==> Split(rows) == map[]
  {
    RunInv(Start, rows);
    var m := Split(rows);
    forall key, j | key in m && 0 <= j < |m[key]|
      ensures forall i :: 0 <= i < |m[key][j]| ==> TrimSpace(m[key][j][i]) == m[key][j][i]
    {
      KeptRowShape(m[key][j]);
    }
  }

  lemma KeptRowShape(r: Row)
    requires IsKeptRow(r)
    ensures forall i :: 0 <= i < |r| ==> TrimSpace(r[i]) == r[i]
  {
    forall i | 0 <= i < |r|
      ensures TrimSpace(r[i]) == r[i]
    {
      TrimSpaceFixed(r[i]);
    }
  }

  // ---------------------------------------------------------------------
  // When sections are emitted

  /**
   * A step changes the stored sections only at a separator that arrives
   * while rows are accumulated under a title other than the banner; then the
   * accumulated rows are stored under the title, overwriting any earlier
   * entry, and title and accumulator become empty. A separator in any other
   * situation changes nothing at all.
   */
  lemma StepEmits(st: SplitState, line: Row)
    requires |line| > 0
    ensures IsSeparator(line[0]) && st.current != [] && st.header != Banner ==>
      Step(st, line) == SplitState("", [], st.sections[st.header := st.current])
    ensures IsSeparator(line[0]) && (st.current == [] || st.header == Banner) ==> Step(st, line) == st
    ensures !IsSeparator(line[0]) ==> Step(st, line).sections == st.sections
  {
  }

  /** Running one more row is one more step. */
  lemma RunSnoc(rows: seq<Row>, line: Row)
    requires WellFormed(rows) && |line| > 0
    ensures WellFormed(rows + [line])
    ensures Run(rows + [line]) == Step(Run(rows), line)
  {
    assert (rows + [line])[..|rows|] == rows;
  }

  lemma {:induction false} RunFromAppend(st: SplitState, a: seq<Row>, b: seq<Row>)
    requires WellFormed(a) && WellFormed(b)
    ensures WellFormed(a + b)
    ensures RunFrom(st, a + b) == RunFrom(RunFrom(st, a), b)
    decreases |b|
  {
    assert WellFormed(a + b);
    if b == [] {
      assert a + b == a;
    } else {
      var b' := b[..|b| - 1];
      assert (a + b)[..|a + b| - 1] == a + b';
      RunFromAppend(st, a, b');
    }
  }

  predicate NoSeparator(rows: seq<Row>)
    requires WellFormed(rows)
  {
    forall k :: 0 <= k < |rows| ==> !IsSeparator(rows[k][0])
  }

  lemma {:induction false} RunFromNoSeparator(st: SplitState, rows: seq<Row>)
    requires WellFormed(rows) && NoSeparator(rows)
    ensures RunFrom(st, rows).sections == st.sections
    decreases |rows|
  {
    if rows != [] {
      RunFromNoSeparator(st, rows[..|rows| - 1]);
    }
  }

  /**
   * Rows still accumulating at the end of the input are never emitted:
   * extending the input by rows without a separator leaves the result as it
   * was.
   */
  lemma NoTrailingFlush(rows: seq<Row>, tail: seq<Row>)
    requires WellFormed(rows) && WellFormed(tail) && NoSeparator(tail)
    ensures WellFormed(rows + tail)
    ensures Split(rows + tail) == Split(rows)
  {
    RunFromAppend(Start, rows, tail);
    RunFromNoSeparator(Run(rows), tail);
  }

  /** The rows a run of data rows contributes: trimmed, blank ones dropped, in input order. */
  function KeptRows(ds: seq<Row>): (r: seq<Row>)
    ensures |r| <= |ds|
  {
    if ds == [] then []
    else
      var t := TrimFields(ds[|ds| - 1]);
      KeptRows(ds[..|ds| - 1]) + (if AnyNonEmpty(t) then [t] else [])
  }

  /** Under a title, data rows are trimmed and appended in order; nothing else moves. */
  lemma {:induction false} RunDataRows(st: SplitState, ds: seq<Row>)
    requires WellFormed(ds) && NoSeparator(ds) && st.header != ""
    ensures RunFrom(st, ds) == st.(current := st.current + KeptRows(ds))
    decreases |ds|
  {
    if ds == [] {
      assert st.current + [] == st.current;
    } else {
      RunDataRows(st, ds[..|ds| - 1]);
    }
  }

  /** Every row of `rows` is a rule. */
  predicate AllSeparators(rows: seq<Row>)
    requires WellFormed(rows)
  {
    forall k :: 0 <= k < |rows| ==> IsSeparator(rows[k][0])
  }

  /** Rules met while nothing is accumulated change nothing. */
  lemma {:induction false} RunSeparatorsIdle(st: SplitState, rs: seq<Row>)
    requires WellFormed(rs) && AllSeparators(rs) && st.current == []
    ensures RunFrom(st, rs) == st
    decreases |rs|
  {
    if rs != [] {
      RunSeparatorsIdle(st, rs[..|rs| - 1]);
      StepEmits(st, rs[|rs| - 1]);
    }
  }

  /**
   * A closed section: after a state with no title, a title row, any number
   * of rules, data rows and a closing rule store exactly the kept data rows,
   * in input order, under the title (replacing an earlier section of the
   * same title), provided some data row is non-blank and the title is not
   * the banner. The rules right after the title are ignored because nothing
   * has been accumulated yet.
   */
  lemma {:induction false} SectionClosed(p: seq<Row>, t: Row, rs: seq<Row>, ds: seq<Row>, s: Row)
    requires WellFormed(p) && Run(p).header == ""
    requires |t| > 0 && !IsSeparator(t[0]) && TitleOf(t) != "" && TitleOf(t) != Banner
    requires WellFormed(rs) && AllSeparators(rs)
    requires WellFormed(ds) && NoSeparator(ds) && KeptRows(ds) != []
    requires |s| > 0 && IsSeparator(s[0])
    ensures WellFormed(p + [t] + rs + ds + [s])
    ensures Run(p + [t] + rs + ds + [s]) == SplitState("", [], Split(p)[TitleOf(t) := KeptRows(ds)])
  {
    var st0 := Run(p);
    RunInv(Start, p);
    RunSnoc(p, t);
    var st1 := SplitState(TitleOf(t), [], st0.sections);
    assert Run(p + [t]) == st1;
    RunFromAppend(Start, p + [t], rs);
    RunSeparatorsIdle(st1, rs);
    assert Run(p + [t] + rs) == st1;
    RunFromAppend(Start, p + [t] + rs, ds);
    RunDataRows(st1, ds);
    var st2 := SplitState(TitleOf(t), KeptRows(ds), st0.sections);
    assert Run(p + [t] + rs + ds) == st2 by {
      assert [] + KeptRows(ds) == KeptRows(ds);
    }
    RunSnoc(p + [t] + rs + ds, s);
    StepEmits(st2, s);
  }

  /**
   * Once rows are accumulated under the banner title, no later rule resets
   * the title, so nothing after it is ever stored.
   */
  lemma {:induction false} BannerSticky(st: SplitState, rows: seq<Row>)
    requires WellFormed(rows) && st.header == Banner && st.current != []
    ensures RunFrom(st, rows).sections == st.sections
    ensures RunFrom(st, rows).header == Banner && RunFrom(st, rows).current != []
    decreases |rows|
  {
    if rows != [] {
      BannerSticky(st, rows[..|rows| - 1]);
    }
  }

  // ---------------------------------------------------------------------
  // Where keys and rows come from

  /** Row `k` is read as a title: not a separator, and no title is set before it. */
  ghost predicate IsTitleRow(rows: seq<Row>, k: int)
    requires WellFormed(rows)
  {
    0 <= k < |rows| && !IsSeparator(rows[k][0]) && Run(rows[..k]).header == ""
  }

  /** Row `k` is read as data: not a separator, and a title is set before it. */
  ghost predicate IsDataRow(rows: seq<Row>, k: int)
    requires WellFormed(rows)
  {
    0 <= k < |rows| && !IsSeparator(rows[k][0]) && Run(rows[..k]).header != ""
  }

  lemma PrefixOfPrefix(rows: seq<Row>, k: int)
    requires 0 <= k < |rows|
    ensures rows[..|rows| - 1][..k] == rows[..k]
  {
  }

  lemma {:induction false} HeaderOrigin(rows: seq<Row>)
    requires WellFormed(rows) && Run(rows).header != ""
    ensures exists k :: IsTitleRow(rows, k) && TitleOf(rows[k]) == Run(rows).header
    decreases |rows|
  {
    var n := |rows|;
    var prev := rows[..n - 1];
    if Run(prev).header == "" {
      assert IsTitleRow(rows, n - 1);
    } else {
      HeaderOrigin(prev);
      var k :| IsTitleRow(prev, k) && TitleOf(prev[k]) == Run(prev).header;
      PrefixOfPrefix(rows, k);
      assert IsTitleRow(rows, k);
    }
  }

  /** Every key of the result is the title of some row that was read as a title. */
  lemma {:induction false} KeyOrigin(rows: seq<Row>, key: string)
    requires WellFormed(rows) && key in Split(rows)
    ensures exists k :: IsTitleRow(rows, k) && TitleOf(rows[k]) == key
    decreases |rows|
  {
    var n := |rows|;
    var prev := rows[..n - 1];
    if key in Split(prev) && Split(prev)[key] == Split(rows)[key] {
      KeyOrigin(prev, key);
      var k :| IsTitleRow(prev, k) && TitleOf(prev[k]) == key;
      PrefixOfPrefix(rows, k);
      assert IsTitleRow(rows, k);
    } else {
      var st := Run(prev);
      assert Run(rows) == Step(st, rows[n - 1]);
      StepEmits(st, rows[n - 1]);
      assert key == st.header && st.current != [];
      RunInv(Start, prev);
      HeaderOrigin(prev);
      var k :| IsTitleRow(prev, k) && TitleOf(prev[k]) == key;
      PrefixOfPrefix(rows, k);
      assert IsTitleRow(rows, k);
    }
  }

  lemma {:induction false} CurrentOrigin(rows: seq<Row>, j: int)
    requires WellFormed(rows) && 0 <= j < |Run(rows).current|
    ensures exists k :: IsDataRow(rows, k) && Run(rows).current[j] == TrimFields(rows[k])
    decreases |rows|
  {
    var n := |rows|;
    var prev := rows[..n - 1];
    if j < |Run(prev).current| && Run(prev).current[j] == Run(rows).current[j] {
      CurrentOrigin(prev, j);
      var k :| IsDataRow(prev, k) && Run(prev).current[j] == TrimFields(prev[k]);
      PrefixOfPrefix(rows, k);
      assert IsDataRow(rows, k);
    } else {
      assert IsDataRow(rows, n - 1);
    }
  }

  /** Every stored row is the trimmed form of some input row that was read as data. */
  lemma {:induction false} RowOrigin(rows: seq<Row>, key: string, j: int)
    requires WellFormed(rows) && key in Split(rows) && 0 <= j < |Split(rows)[key]|
    ensures exists k :: IsDataRow(rows, k) && Split(rows)[key][j] == TrimFields(rows[k])
    decreases |rows|
  {
    var n := |rows|;
    var prev := rows[..n - 1];
    if key in Split(prev) && Split(prev)[key] == Split(rows)[key] {
      RowOrigin(prev, key, j);
      var k :| IsDataRow(prev, k) && Split(prev)[key][j] == TrimFields(prev[k]);
      PrefixOfPrefix(rows, k);
      assert IsDataRow(rows, k);
    } else {
      CurrentOrigin(prev, j);
      var k :| IsDataRow(prev, k) && Run(prev).current[j] == TrimFields(prev[k]);
      PrefixOfPrefix(rows, k);
      assert IsDataRow(rows, k);
    }
  }

  // ---------------------------------------------------------------------
  // The loop over the caller's rows

  /** The contents of the row arrays, as values. */
  ghost function Snapshot(data: seq<array<string>>): (r: seq<Row>)
    reads set k | 0 <= k < |data| :: data[k]
    ensures |r| == |data|
    ensures forall k :: 0 <= k < |data| ==> r[k] == data[k][..]
  {
    seq(|data|, k requires 0 <= k < |data| reads set m | 0 <= m < |data| :: data[m] => data[k][..])
  }

  /** Row `k` after the splitter ran: trimmed in place if it was read as data. */
  ghost function RowAfter(rows: seq<Row>, k: int): Row
    requires WellFormed(rows) && 0 <= k < |rows|
  {
    if IsDataRow(rows, k) then TrimFields(rows[k]) else rows[k]
  }

  /** The splitter's inner loop: `TrimSpace` every field of the row, in place. */
  method TrimFieldsInPlace(line: array<string>)
    modifies line
    ensures line[..] == TrimFields(old(line[..]))
  {
    var f := 0;
    while f < line.Length
      invariant 0 <= f <= line.Length
      invariant forall m :: 0 <= m < f ==> line[m] == TrimSpace(old(line[m]))
      invariant forall m :: f <= m < line.Length ==> line[m] == old(line[m])
    {
      line[f] := TrimSpace(line[f]);
      f := f + 1;
    }
  }

  lemma RunStep(rows: seq<Row>, i: int)
    requires WellFormed(rows) && 0 <= i < |rows|
    ensures Run(rows[..i + 1]) == Step(Run(rows[..i]), rows[i])
  {
    assert rows[..i + 1][..i] == rows[..i];
  }

  /** Row numbers in strictly increasing order: input order is kept. */
  ghost predicate Increasing(idx: seq<int>) {
    forall a, b :: 0 <= a < b < |idx| ==> idx[a] < idx[b]
  }

  /**
   * The splitter's variables after `i` rows, against `Run(rows[..i])`: the
   * same title; accumulated and stored sections hold the row arrays of
   * data rows, in increasing row order, whose trimmed contents `Run` holds.
   */
  ghost predicate Tracks(rows: seq<Row>, data: seq<array<string>>, i: int, header: string,
                         cur: seq<array<string>>, curIdx: seq<int>,
                         secs: map<string, seq<array<string>>>, secIdx: map<string, seq<int>>)
    requires WellFormed(rows)
  {
    && 0 <= i <= |rows| == |data|
    && var st := Run(rows[..i]);
    && header == st.header
    && |cur| == |curIdx| == |st.current|
    && Increasing(curIdx)
    && (forall j :: 0 <= j < |curIdx| ==>
          0 <= curIdx[j] < i && IsDataRow(rows, curIdx[j]) &&
          cur[j] == data[curIdx[j]] && st.current[j] == TrimFields(rows[curIdx[j]]))
    && secs.Keys == secIdx.Keys == st.sections.Keys
    && (forall key :: key in secIdx ==> |secs[key]| == |secIdx[key]| == |st.sections[key]|)
    && (forall key :: key in secIdx ==> Increasing(secIdx[key]))
    && (forall key, j :: key in secIdx && 0 <= j < |secIdx[key]| ==>
          0 <= secIdx[key][j] < i && IsDataRow(rows, secIdx[key][j]) &&
          secs[key][j] == data[secIdx[key][j]] && st.sections[key][j] == TrimFields(rows[secIdx[key][j]]))
  }

  lemma TracksSeparator(rows: seq<Row>, data: seq<array<string>>, i: int, header: string,
                        cur: seq<array<string>>, curIdx: seq<int>,
                        secs: map<string, seq<array<string>>>, secIdx: map<string, seq<int>>)
    requires WellFormed(rows) && Tracks(rows, data, i, header, cur, curIdx, secs, secIdx)
    requires i < |rows| && IsSeparator(rows[i][0])
    ensures |cur| > 0 && header != Banner ==>
      Tracks(rows, data, i + 1, "", [], [], secs[header := cur], secIdx[header := curIdx])
    ensures !(|cur| > 0 && header != Banner) ==>
      Tracks(rows, data, i + 1, header, cur, curIdx, secs, secIdx)
  {
    RunStep(rows, i);
    var st := Run(rows[..i]);
    StepEmits(st, rows[i]);
  }

  lemma TracksTitle(rows: seq<Row>, data: seq<array<string>>, i: int, header: string,
                    cur: seq<array<string>>, curIdx: seq<int>,
                    secs: map<string, seq<array<string>>>, secIdx: map<string, seq<int>>)
    requires WellFormed(rows) && Tracks(rows, data, i, header, cur, curIdx, secs, secIdx)
    requires i < |rows| && !IsSeparator(rows[i][0]) && header == ""
    ensures !IsDataRow(rows, i)
    ensures Tracks(rows, data, i + 1, TitleOf(rows[i]), cur, curIdx, secs, secIdx)
  {
    RunStep(rows, i);
  }

  lemma TracksData(rows: seq<Row>, data: seq<array<string>>, i: int, header: string,
                   cur: seq<array<string>>, curIdx: seq<int>,
                   secs: map<string, seq<array<string>>>, secIdx: map<string, seq<int>>)
    requires WellFormed(rows) && Tracks(rows, data, i, header, cur, curIdx, secs, secIdx)
    requires i < |rows| && !IsSeparator(rows[i][0]) && header != ""
    ensures IsDataRow(rows, i)
    ensures AnyNonEmpty(TrimFields(rows[i])) ==>
      Tracks(rows, data, i + 1, header, cur + [data[i]], curIdx + [i], secs, secIdx)
    ensures !AnyNonEmpty(TrimFields(rows[i])) ==>
      Tracks(rows, data, i + 1, header, cur, curIdx, secs, secIdx)
  {
    RunStep(rows, i);
  }

  /** After the last row, the variables hold what `Split` describes. */
  lemma TracksDone(rows: seq<Row>, data: seq<array<string>>, header: string,
                   cur: seq<array<string>>, curIdx: seq<int>,
                   secs: map<string, seq<array<string>>>, secIdx: map<string, seq<int>>)
    requires WellFormed(rows) && Tracks(rows, data, |rows|, header, cur, curIdx, secs, secIdx)
    requires forall k :: 0 <= k < |data| ==> data[k][..] == RowAfter(rows, k)
    ensures secs.Keys == Split(rows).Keys
    ensures forall key :: key in secs ==> |secs[key]| == |Split(rows)[key]|
    ensures forall key, j :: key in secs && 0 <= j < |secs[key]| ==>
      secs[key][j] in data && secs[key][j][..] == Split(rows)[key][j]
    ensures secIdx.Keys == secs.Keys
    ensures forall key :: key in secIdx ==> |secIdx[key]| == |secs[key]| && Increasing(secIdx[key])
    ensures forall key, j :: key in secIdx && 0 <= j < |secIdx[key]| ==>
      0 <= secIdx[key][j] < |rows| && IsDataRow(rows, secIdx[key][j]) &&
      secs[key][j] == data[secIdx[key][j]] && Split(rows)[key][j] == TrimFields(rows[secIdx[key][j]])
  {
    assert rows[..|rows|] == rows;
    var st := Run(rows[..|rows|]);
    assert st.sections == Split(rows);
    forall key, j | key in secs && 0 <= j < |secs[key]|
      ensures secs[key][j] in data && secs[key][j][..] == Split(rows)[key][j]
    {
      assert key in secIdx && 0 <= j < |secIdx[key]|;
      var k := secIdx[key][j];
      assert 0 <= k < |rows| && IsDataRow(rows, k) && secs[key][j] == data[k];
      assert st.sections[key][j] == TrimFields(rows[k]);
      assert data[k][..] == RowAfter(rows, k);
    }
  }

  /**
   * One pass of the splitter's loop over row `i`: a separator closes the
   * section (unless nothing is accumulated or the title is the banner), a
   * row with no title set gives the title, and any other row is trimmed in
   * place and kept when its joined fields are not blank.
   */
  method SplitRow(ghost rows: seq<Row>, data: seq<array<string>>, i: int,
                  header: string, cur: seq<array<string>>, secs: map<string, seq<array<string>>>,
                  ghost curIdx: seq<int>, ghost secIdx: map<string, seq<int>>)
    returns (header': string, cur': seq<array<string>>, secs': map<string, seq<array<string>>>,
             ghost curIdx': seq<int>, ghost secIdx': map<string, seq<int>>)
    requires WellFormed(rows) && Tracks(rows, data, i, header, cur, curIdx, secs, secIdx)
    requires i < |data| && data[i][..] == rows[i]
    modifies data[i]
    ensures Tracks(rows, data, i + 1, header', cur', curIdx', secs', secIdx')
    ensures data[i][..] == RowAfter(rows, i)
  {
    header', cur', secs', curIdx', secIdx' := header, cur, secs, curIdx, secIdx;
    var line := data[i];
    assert line[0] == rows[i][0];
    if IsSeparator(line[0]) {
      TracksSeparator(rows, data, i, header, cur, curIdx, secs, secIdx);
      if |cur| > 0 {
        if header != Banner {
          secs' := secs[header := cur];
          secIdx' := secIdx[header := curIdx];
          header' := "";
          cur' := [];
          curIdx' := [];
        }
      }
    } else if |header| == 0 {
      TracksTitle(rows, data, i, header, cur, curIdx, secs, secIdx);
      header' := Trim(line[0], " *");
    } else {
      TracksData(rows, data, i, header, cur, curIdx, secs, secIdx);
      TrimFieldsInPlace(line);
      TrimmedRowKept(rows[i]);
      if TrimSpace(Join(line[..], "")) != "" {
        cur' := cur + [line];
        curIdx' := curIdx + [i];
      }
    }
  }

  /**
   * `splitSections`. The rows are the arrays the CSV reader returned, each
   * its own array. Data rows are trimmed in place, and the returned
   * sections hold those very arrays, so they alias the caller's rows.
   * The ghost `index` names, for every stored array, the input row it is,
   * in increasing order within each section.
   */
  method SplitSections(data: seq<array<string>>)
    returns (sections: map<string, seq<array<string>>>, ghost index: map<string, seq<int>>)
    requires forall k :: 0 <= k < |data| ==> data[k].Length > 0
    requires forall j, k :: 0 <= j < k < |data| ==> data[j] != data[k]
    modifies set k | 0 <= k < |data| :: data[k]
    ensures WellFormed(old(Snapshot(data)))
    ensures sections.Keys == Split(old(Snapshot(data))).Keys
    ensures forall key :: key in sections ==> |sections[key]| == |Split(old(Snapshot(data)))[key]|
    ensures forall key, j :: key in sections && 0 <= j < |sections[key]| ==>
      sections[key][j] in data && sections[key][j][..] == Split(old(Snapshot(data)))[key][j]
    ensures forall k :: 0 <= k < |data| ==> data[k][..] == RowAfter(old(Snapshot(data)), k)
    ensures index.Keys == sections.Keys
    ensures forall key :: key in index ==> |index[key]| == |sections[key]| && Increasing(index[key])
    ensures forall key, j :: key in index && 0 <= j < |index[key]| ==>
      0 <= index[key][j] < |data| && IsDataRow(old(Snapshot(data)), index[key][j]) &&
      sections[key][j] == data[index[key][j]] &&
      Split(old(Snapshot(data)))[key][j] == TrimFields(old(Snapshot(data))[index[key][j]])
  {
    ghost var rows := Snapshot(data);
    assert WellFormed(rows);
    var currentSection: seq<array<string>> := [];
    var sectionHeader := "";
    sections := map[];
    ghost var curIdx: seq<int> := [];
    ghost var secIdx: map<string, seq<int>> := map[];
    var i := 0;
    while i < |data|
      invariant 0 <= i <= |data|
      invariant Tracks(rows, data, i, sectionHeader, currentSection, curIdx, sections, secIdx)
      invariant forall k :: 0 <= k < i ==> data[k][..] == RowAfter(rows, k)
      invariant forall k :: i <= k < |data| ==> data[k][..] == rows[k]
    {
      sectionHeader, currentSection, sections, curIdx, secIdx :=
        SplitRow(rows, data, i, sectionHeader, currentSection, sections, curIdx, secIdx);
      i := i + 1;
    }
    TracksDone(rows, data, sectionHeader, currentSection, curIdx, sections, secIdx);
    index := secIdx;
  }
}
