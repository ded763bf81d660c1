/** The older single-phase script: one pass that starts reading at the
    INPUTS marker, stops for good at the OUTPUTS marker, and builds one input
    spec with the same row body as the class, except that every title carries
    the namespace and the example cell is kept whole. */
module Legacy {
  import opened Wrappers
  import opened JsText
  import opened Schema
  import opened Rows

  /** The script's fixed column mapping. */
  const CsvMapping: Mapping := Mapping(6, 1, 2, 3, 4, 5, 7)

  const LegacyStyle: Style := Style(BusinessPrefix, false)

  /** The loop's control state: `processingInput`, `rowCounter`, and whether
      the loop has left at an OUTPUTS marker. */
  datatype LegacyMode = LegacyMode(processingInput: bool, counter: int, stopped: bool)

  const Start: LegacyMode := LegacyMode(false, 0, false)

  datatype LegacyDecision = LegacyDecision(mode: LegacyMode, process: bool)

  /** The skip rules in their order: the INPUTS marker, the OUTPUTS marker,
      an empty field name, rows before INPUTS, and the first two counted
      rows. Nothing after a stop is looked at. */
  function LegacyRoute(md: LegacyMode, row: Row): LegacyDecision
    requires Covers(CsvMapping, row)
  {
    if md.stopped then LegacyDecision(md, false)
    else if row[0] == InputsMarker then LegacyDecision(md.(processingInput := true, counter := 0), false)
    else if row[0] == OutputsMarker then LegacyDecision(md.(stopped := true), false)
    else if row[CsvMapping.fieldName] == "" then LegacyDecision(md, false)
    else if !md.processingInput then LegacyDecision(md, false)
    else
      var counter := md.counter + 1;
      LegacyDecision(md.(counter := counter), counter >= 3)
  }

  datatype LegacyRouting = LegacyRouting(mode: LegacyMode, picked: seq<Row>)

  /** The rows the script processes, in order, and the state it ends in. */
  function LegacyClassify(md: LegacyMode, rows: seq<Row>): (r: LegacyRouting)
    requires AllCover(CsvMapping, rows)
    ensures AllCover(CsvMapping, r.picked) && |r.picked| <= |rows|
    decreases |rows|
  {
    if |rows| == 0 then LegacyRouting(md, [])
    else
      var c := LegacyClassify(md, rows[..|rows| - 1]);
      var row := rows[|rows| - 1];
      var d := LegacyRoute(c.mode, row);
      LegacyRouting(d.mode, if d.process then c.picked + [row] else c.picked)
  }

  /** The spec the script writes out: the processed rows folded into an
      empty `properties`, with their mandatory names as `required`; None
      when a row throws. */
  function LegacyResult(rows: seq<Row>): Option<Spec>
    requires AllCover(CsvMapping, rows)
  {
    Written(Fill(Collected([], []), LegacyClassify(Start, rows).picked, CsvMapping, LegacyStyle))
  }

  /** The input spec with its `required` attached, once the loop is done. */
  function Written(built: Option<Collected>): Option<Spec> {
    if built.None? then None else Some(Spec(built.value.properties, Some(built.value.mandatory)))
  }

  /** `processFile` of the script, without the file write at its end: returns
      the spec it would write, or None where it throws. */
  method ProcessFileLegacy(results: seq<Row>) returns (spec: Option<Spec>)
    requires AllCover(CsvMapping, results)
    ensures spec == LegacyResult(results)
  {
    var processingInput := false;
    var rowCounter := 0;
    var properties: Props := [];
    var mandatoryField: seq<string> := [];
    ghost var picked: seq<Row> := [];
    for i := 0 to |results|
      invariant LegacyClassify(Start, results[..i]) == LegacyRouting(LegacyMode(processingInput, rowCounter, false), picked)
      invariant Fill(Collected([], []), picked, CsvMapping, LegacyStyle) == Some(Collected(properties, mandatoryField))
    {
      var row := results[i];
      assert results[..i + 1][..i] == results[..i];
      if row[0] == InputsMarker {
        processingInput := true;
        rowCounter := 0;
        continue;
      }
      if row[0] == OutputsMarker {
        StopsWith(results, i + 1, picked, Collected(properties, mandatoryField));
        break;
      }
      if row[CsvMapping.fieldName] == "" {
        continue;
      }
      if !processingInput {
        continue;
      }
      rowCounter := rowCounter + 1;
      if rowCounter < 3 {
        continue;
      }
      var ok, written, pushed := WriteRow(picked, properties, mandatoryField, row);
      if !ok {
        ThrowsAt(results, i + 1, picked + [row]);
        return None;
      }
      properties, mandatoryField := written, pushed;
      picked := picked + [row];
    }
    assert results[..|results|] == results;
    spec := Some(Spec(properties, Some(mandatoryField)));
  }

  /** The row body of the loop: the descriptor of a processed row assigned
      under its key, its name pushed when it is mandatory; `ok` is false
      where the row throws. Given the rows processed so far, whose fold is
      the current `properties` and mandatory list, the outputs are the fold
      of those rows and this one. */
  method WriteRow(ghost picked: seq<Row>, properties: Props, mandatoryField: seq<string>, row: Row)
    returns (ok: bool, written: Props, pushed: seq<string>)
    requires AllCover(CsvMapping, picked) && Covers(CsvMapping, row)
    requires Fill(Collected([], []), picked, CsvMapping, LegacyStyle) == Some(Collected(properties, mandatoryField))
    ensures AllCover(CsvMapping, picked + [row])
    ensures Fill(Collected([], []), picked + [row], CsvMapping, LegacyStyle)
      == if ok then Some(Collected(written, pushed)) else None
  {
    FillSnoc(Collected([], []), picked, row, CsvMapping, LegacyStyle);
    var described := Describe(row, CsvMapping, LegacyStyle);
    if described.None? {
      return false, properties, mandatoryField;
    }
    var f := described.value;
    written := Put(properties, f.key, f.node);
    pushed := mandatoryField;
    if f.mandatory {
      pushed := pushed + [f.key];
    }
    ok := true;
  }

  // ---------------------------------------------------------------- lemmas

  /** When the pass stops with these rows processed, the script writes their
      fold. */
  lemma StopsWith(rows: seq<Row>, k: nat, picked: seq<Row>, built: Collected)
    requires AllCover(CsvMapping, rows) && k <= |rows|
    requires LegacyClassify(Start, rows[..k]) == LegacyRouting(LegacyClassify(Start, rows[..k]).mode, picked)
    requires LegacyClassify(Start, rows[..k]).mode.stopped
    requires AllCover(CsvMapping, picked) && Fill(Collected([], []), picked, CsvMapping, LegacyStyle) == Some(built)
    ensures LegacyResult(rows) == Some(Spec(built.properties, Some(built.mandatory)))
  {
    StoppedStays(rows, k);
  }

  /** When the rows a prefix processes throw, the script throws. */
  lemma ThrowsAt(rows: seq<Row>, k: nat, picked: seq<Row>)
    requires AllCover(CsvMapping, rows) && k <= |rows|
    requires LegacyClassify(Start, rows[..k]).picked == picked
    requires AllCover(CsvMapping, picked) && Fill(Collected([], []), picked, CsvMapping, LegacyStyle).None?
    ensures LegacyResult(rows).None?
  {
    PickedGrows(rows, k);
    FillFailurePersists(Collected([], []), LegacyClassify(Start, rows).picked, |picked|, CsvMapping, LegacyStyle);
  }

  /** Once stopped, no later row changes anything: the rows after the
      OUTPUTS marker are never looked at. */
  lemma {:induction false} StoppedStays(rows: seq<Row>, k: nat)
    requires AllCover(CsvMapping, rows) && k <= |rows|
    requires LegacyClassify(Start, rows[..k]).mode.stopped
    ensures LegacyClassify(Start, rows) == LegacyClassify(Start, rows[..k])
    decreases |rows|
  {
    if k < |rows| {
      var prefix := rows[..|rows| - 1];
      assert prefix[..k] == rows[..k];
      StoppedStays(prefix, k);
    } else {
      assert rows[..k] == rows;
    }
  }

  /** The rows a prefix processes open the list the whole sequence
      processes. */
  lemma {:induction false} PickedGrows(rows: seq<Row>, k: nat)
    requires AllCover(CsvMapping, rows) && k <= |rows|
    ensures var pre := LegacyClassify(Start, rows[..k]).picked;
      var all := LegacyClassify(Start, rows).picked;
      |pre| <= |all| && all[..|pre|] == pre
    decreases |rows|
  {
    if k < |rows| {
      var prefix := rows[..|rows| - 1];
      assert prefix[..k] == rows[..k];
      PickedGrows(prefix, k);
    } else {
      assert rows[..k] == rows;
    }
  }

  /** A fold that throws on a prefix throws on the whole sequence. */
  lemma {:induction false} FillFailurePersists(c: Collected, rows: seq<Row>, k: nat, mp: Mapping, style: Style)
    requires AllCover(mp, rows) && k <= |rows|
    requires Fill(c, rows[..k], mp, style).None?
    ensures Fill(c, rows, mp, style).None?
    decreases |rows|
  {
    if k < |rows| {
      var prefix := rows[..|rows| - 1];
      assert prefix[..k] == rows[..k];
      FillFailurePersists(c, prefix, k, mp, style);
    } else {
      assert rows[..k] == rows;
    }
  }

  /** Processing stops at an OUTPUTS marker: the spec depends only on the rows
      up to it. */
  lemma StopsAtOutputs(rows: seq<Row>, k: nat)
    requires AllCover(CsvMapping, rows) && k < |rows| && rows[k][0] == OutputsMarker
    ensures LegacyResult(rows) == LegacyResult(rows[..k + 1])
  {
    var pre := rows[..k + 1];
    assert pre[..k] == rows[..k];
    assert LegacyClassify(Start, pre).mode.stopped;
    StoppedStays(rows, k + 1);
  }

  /** Rows before the first INPUTS marker are never processed. */
  lemma {:induction false} NothingBeforeInputs(rows: seq<Row>)
    requires AllCover(CsvMapping, rows)
    requires forall i :: 0 <= i < |rows| ==> rows[i][0] != InputsMarker
    ensures LegacyClassify(Start, rows).picked == []
    ensures !LegacyClassify(Start, rows).mode.processingInput
    decreases |rows|
  {
    if |rows| > 0 {
      NothingBeforeInputs(rows[..|rows| - 1]);
    }
  }

  /** A row with an empty field name is skipped without counting; the INPUTS
      marker restarts the count, and the first two counted rows after it are
      skipped. */
  lemma LegacyCounter(md: LegacyMode, row: Row)
    requires Covers(CsvMapping, row) && !md.stopped
    ensures row[0] == InputsMarker ==> LegacyRoute(md, row) == LegacyDecision(LegacyMode(true, 0, false), false)
    ensures row[0] != InputsMarker && row[0] != OutputsMarker && row[CsvMapping.fieldName] == "" ==>
      LegacyRoute(md, row) == LegacyDecision(md, false)
    ensures row[0] != InputsMarker && row[0] != OutputsMarker && row[CsvMapping.fieldName] != "" && md.processingInput ==>
      LegacyRoute(md, row).mode.counter == md.counter + 1
      && (LegacyRoute(md, row).process <==> md.counter + 1 >= 3)
  {
  }

  /** The written `required` holds the field names of the processed
      non-array rows marked `Y`, in encounter order; every title carries the
      namespace; the example cell is kept whole. */
  lemma LegacyRequired(rows: seq<Row>)
    requires AllCover(CsvMapping, rows) && LegacyResult(rows).Some?
    ensures LegacyResult(rows).value.required == Some(MandatoryNames(LegacyClassify(Start, rows).picked, CsvMapping))
  {
    var picked := LegacyClassify(Start, rows).picked;
    var built := Fill(Collected([], []), picked, CsvMapping, LegacyStyle);
    FillMandatory(Collected([], []), picked, CsvMapping, LegacyStyle);
    assert built.value.mandatory == MandatoryNames(picked, CsvMapping);
    assert LegacyResult(rows) == Written(built);
    assert Written(built) == Some(Spec(built.value.properties, Some(built.value.mandatory)));
  }

  /** Every title carries the namespace, and a non-empty example cell gives
      a one-element `examples` holding the raw cell (booleans with a size
      aside). */
  lemma LegacyTitlesAndExamples(row: Row)
    requires Covers(CsvMapping, row) && Describe(row, CsvMapping, LegacyStyle).Some?
    ensures var node := Describe(row, CsvMapping, LegacyStyle).value.node;
      && (node.ArrayNode? ==> node.itemTitle == "BUSINESS_INPUTS." + row[1])
      && (node.FieldNode? ==> node.title == "BUSINESS_INPUTS." + row[1])
      && (node.FieldNode? && row[5] != "" && !(node.fieldType == "boolean" && row[4] != "") ==>
            node.examples == Some([Text(row[5])]))
  {
    DescribeTitle(row, CsvMapping, LegacyStyle);
    if !IsArrayType(Lower(row[3])) {
      DescribeScalar(row, CsvMapping, LegacyStyle);
    }
  }

}
