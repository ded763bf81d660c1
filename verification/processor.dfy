/** The `InputOutputProcessor` class: one pass over the rows of a sheet. The
    INPUTS and OUTPUTS marker rows switch it to their phase; a header or blank
    row switches it to HEADER, where rows are counted but not processed until
    the next marker. Every remaining data row of the INPUT or OUTPUT phase goes
    to `processRow`, which writes that row's field into the root `properties`
    of the phase's spec. */
module Processor {
  import opened Wrappers
  import opened Schema
  import opened Rows

  datatype Phase = Header | Input | Output

  /** The loop's control state: the phase and the per-phase row counter. */
  datatype Mode = Mode(phase: Phase, counter: int)

  /** Everything one row can change: the control state and the two specs'
      properties and mandatory lists. */
  datatype Machine = Machine(mode: Mode, input: Collected, output: Collected)

  /** What the loop decides for one row before any spec is touched: the
      next control state, and whether `processRow` runs. */
  datatype Decision = Decision(mode: Mode, process: bool)

  /** The rendering of a phase: INPUT titles carry the namespace, OUTPUT
      titles do not; both split their example cells. */
  function StyleFor(phase: Phase): Style {
    Style(if phase == Input then BusinessPrefix else "", true)
  }

  /** The skip rules of the loop, in their order: the two phase markers,
      header/blank rows, rows with no field name, and the first counted row
      of a phase. Counted rows of the HEADER phase are not processed. */
  function Route(md: Mode, row: Row, mp: Mapping): Decision
    requires Covers(mp, row)
  {
    if row[0] == InputsMarker then Decision(Mode(Input, 0), false)
    else if row[0] == OutputsMarker then Decision(Mode(Output, 0), false)
    else if row[0] == "\n" || row[mp.dataType] == "" then Decision(md.(phase := Header), false)
    else if row[mp.fieldName] == "" then Decision(md, false)
    else
      var counter := md.counter + 1;
      Decision(md.(counter := counter), counter >= 2 && md.phase != Header)
  }

  /** One iteration of the loop; None where `processRow` throws. */
  function Step(m: Machine, row: Row, mp: Mapping): Option<Machine>
    requires Covers(mp, row)
  {
    var d := Route(m.mode, row, mp);
    if !d.process then Some(m.(mode := d.mode))
    else Commit(m.(mode := d.mode), d.mode.phase, Apply(SpecOf(m, d.mode.phase), row, mp, StyleFor(d.mode.phase)))
  }

  /** Stores what `processRow` built into the spec of `phase`; None where it
      threw. Only that spec changes. */
  function Commit(m: Machine, phase: Phase, built: Option<Collected>): (r: Option<Machine>)
    requires phase != Header
    ensures r.Some? <==> built.Some?
    ensures r.Some? ==> r.value.mode == m.mode && SpecOf(r.value, phase) == built.value
    ensures r.Some? && phase != Input ==> r.value.input == m.input
    ensures r.Some? && phase != Output ==> r.value.output == m.output
  {
    match built
    case None => None
    case Some(c) => Some(WithSpec(m, phase, c))
  }

  /** The spec a phase writes into. */
  function SpecOf(m: Machine, phase: Phase): Collected {
    if phase == Input then m.input else m.output
  }

  /** `m` with the spec of `phase` replaced by `c`. */
  function WithSpec(m: Machine, phase: Phase, c: Collected): Machine {
    if phase == Input then m.(input := c) else m.(output := c)
  }

  /** The loop over a sequence of rows, in order; None once a row throws. */
  function Run(m: Machine, rows: seq<Row>, mp: Mapping): Option<Machine>
    requires AllCover(mp, rows)
    decreases |rows|
  {
    if |rows| == 0 then Some(m)
    else
      match Run(m, rows[..|rows| - 1], mp)
      case None => None
      case Some(m') => Step(m', rows[|rows| - 1], mp)
  }

  // ---------------------------------------------------------------- classification

  /** The rows a pass hands to `processRow`, split by phase, in order, and
      the control state it ends in. */
  datatype Routing = Routing(mode: Mode, inputs: seq<Row>, outputs: seq<Row>)

  /** The row classifier on its own: the skip rules without the specs. */
  function Classify(md: Mode, rows: seq<Row>, mp: Mapping): (r: Routing)
    requires AllCover(mp, rows)
    ensures AllCover(mp, r.inputs) && AllCover(mp, r.outputs)
    ensures |r.inputs| + |r.outputs| <= |rows|
    decreases |rows|
  {
    if |rows| == 0 then Routing(md, [], [])
    else
      var c := Classify(md, rows[..|rows| - 1], mp);
      var row := rows[|rows| - 1];
      var d := Route(c.mode, row, mp);
      if d.process && d.mode.phase == Input then Routing(d.mode, c.inputs + [row], c.outputs)
      else if d.process then Routing(d.mode, c.inputs, c.outputs + [row])
      else Routing(d.mode, c.inputs, c.outputs)
  }

  function Combine(md: Mode, input: Option<Collected>, output: Option<Collected>): Option<Machine> {
    if input.Some? && output.Some? then Some(Machine(md, input.value, output.value)) else None
  }

  // ---------------------------------------------------------------- one row

  /** A marker row switches to its phase and restarts the counter; a header
      or blank row (first cell a newline, or no data type) switches to HEADER
      and keeps the counter. None of these rows reaches a spec. */
  lemma MarkerRows(m: Machine, row: Row, mp: Mapping)
    requires Covers(mp, row)
    ensures row[0] == InputsMarker ==> Step(m, row, mp) == Some(m.(mode := Mode(Input, 0)))
    ensures row[0] == OutputsMarker ==> Step(m, row, mp) == Some(m.(mode := Mode(Output, 0)))
    ensures row[0] != InputsMarker && row[0] != OutputsMarker && (row[0] == "\n" || row[mp.dataType] == "") ==>
      Step(m, row, mp) == Some(m.(mode := m.mode.(phase := Header)))
  {
  }

  /** Among the remaining rows, one with an empty field name changes nothing,
      not even the counter; any other one advances the counter by one within
      its phase, and is processed only once the counter reaches 2 and only
      outside HEADER. */
  lemma CounterRules(m: Machine, row: Row, mp: Mapping)
    requires Covers(mp, row)
    requires row[0] != InputsMarker && row[0] != OutputsMarker && row[0] != "\n" && row[mp.dataType] != ""
    ensures row[mp.fieldName] == "" ==> Step(m, row, mp) == Some(m)
    ensures row[mp.fieldName] != "" ==>
      var d := Route(m.mode, row, mp);
      && d.mode == Mode(m.mode.phase, m.mode.counter + 1)
      && (d.process <==> m.mode.counter + 1 >= 2 && m.mode.phase != Header)
  {
  }

  /** A row changes at most the spec of the phase it is read in; HEADER
      rows change neither spec. */
  lemma StepFrame(m: Machine, row: Row, mp: Mapping)
    requires Covers(mp, row) && Step(m, row, mp).Some?
    ensures m.mode.phase != Input ==> Step(m, row, mp).value.input == m.input
    ensures m.mode.phase != Output ==> Step(m, row, mp).value.output == m.output
  {
    var d := Route(m.mode, row, mp);
    if d.process {
      assert d.mode.phase == m.mode.phase;
    }
  }

  /** A processed row is read in INPUT or OUTPUT and throws exactly when it
      has no descriptor; otherwise it assigns exactly the one key its
      descriptor names in the spec of its phase, keeping every other key and
      the key order, and appends at most its own name to that phase's
      mandatory list. */
  lemma StepWritesOneKey(m: Machine, row: Row, mp: Mapping)
    requires Covers(mp, row) && Route(m.mode, row, mp).process
    ensures m.mode.phase != Header
    ensures Step(m, row, mp).Some? <==> Describe(row, mp, StyleFor(m.mode.phase)).Some?
    ensures Step(m, row, mp).Some? ==>
      var ph := m.mode.phase;
      var f := Describe(row, mp, StyleFor(ph)).value;
      var before, after := SpecOf(m, ph), SpecOf(Step(m, row, mp).value, ph);
      && after.properties == Put(before.properties, f.key, f.node)
      && after.mandatory == before.mandatory + (if f.mandatory then [f.key] else [])
  {
    var ph, d := m.mode.phase, Route(m.mode, row, mp);
    assert d.mode.phase == ph;
    ApplyDescribes(SpecOf(m, ph), row, mp, StyleFor(ph));
    if Describe(row, mp, StyleFor(ph)).Some? {
      ApplyWrites(SpecOf(m, ph), row, mp, StyleFor(ph), Describe(row, mp, StyleFor(ph)).value);
    }
  }

  /** Titles carry the `BUSINESS_INPUTS.` namespace in the INPUT phase and
      are the bare title cell in the OUTPUT phase. */
  lemma PhaseTitles(row: Row, mp: Mapping, ph: Phase)
    requires Covers(mp, row) && ph != Header && Describe(row, mp, StyleFor(ph)).Some?
    ensures var node := Describe(row, mp, StyleFor(ph)).value.node;
      var title := if node.ArrayNode? then node.itemTitle else node.title;
      title == (if ph == Input then "BUSINESS_INPUTS." + row[mp.title] else row[mp.title])
  {
    DescribeTitle(row, mp, StyleFor(ph));
  }

  // ---------------------------------------------------------------- the whole pass

  /** The pass is the row classifier followed by one descriptor fold per
      phase: the INPUT spec receives exactly the rows classified INPUT, in
      order, the OUTPUT spec exactly those classified OUTPUT, and the pass
      throws exactly when one of those folds does. */
  lemma {:induction false} RunDecomposes(m: Machine, rows: seq<Row>, mp: Mapping)
    requires AllCover(mp, rows)
    ensures var c := Classify(m.mode, rows, mp);
      Run(m, rows, mp) == Combine(c.mode, Fill(m.input, c.inputs, mp, StyleFor(Input)),
                                          Fill(m.output, c.outputs, mp, StyleFor(Output)))
    decreases |rows|
  {
    if |rows| > 0 {
      var prefix, row := rows[..|rows| - 1], rows[|rows| - 1];
      RunDecomposes(m, prefix, mp);
      var c := Classify(m.mode, prefix, mp);
      var d := Route(c.mode, row, mp);
      var c' := Classify(m.mode, rows, mp);
      var fi, fo := Fill(m.input, c.inputs, mp, StyleFor(Input)), Fill(m.output, c.outputs, mp, StyleFor(Output));
      if Combine(c.mode, fi, fo).Some? {
        StepOnCombine(c.mode, fi.value, fo.value, row, mp);
      }
      if d.process && d.mode.phase == Input {
        assert c'.inputs == c.inputs + [row] && c'.outputs == c.outputs;
        FillSnoc(m.input, c.inputs, row, mp, StyleFor(Input));
      } else if d.process {
        assert c'.inputs == c.inputs && c'.outputs == c.outputs + [row];
        FillSnoc(m.output, c.outputs, row, mp, StyleFor(Output));
      } else {
        assert c' == Routing(d.mode, c.inputs, c.outputs);
      }
    }
  }

  /** One row after the pass so far, written on the two specs separately. */
  lemma StepOnCombine(md: Mode, ci: Collected, co: Collected, row: Row, mp: Mapping)
    requires Covers(mp, row)
    ensures var d := Route(md, row, mp);
      Step(Machine(md, ci, co), row, mp)
        == if !d.process then Combine(d.mode, Some(ci), Some(co))
           else if d.mode.phase == Input then Combine(d.mode, Apply(ci, row, mp, StyleFor(Input)), Some(co))
           else Combine(d.mode, Some(ci), Apply(co, row, mp, StyleFor(Output)))
  {
    var d := Route(md, row, mp);
    if d.process {
      assert d.mode.phase == md.phase;
    }
  }

  /** After a pass, each phase's mandatory list is the one it started with
      followed by the field names of that phase's processed non-array rows
      whose mandatory cell is `Y`, in encounter order. */
  lemma RunMandatory(m: Machine, rows: seq<Row>, mp: Mapping)
    requires AllCover(mp, rows) && Run(m, rows, mp).Some?
    ensures var c := Classify(m.mode, rows, mp);
      var m' := Run(m, rows, mp).value;
      && m'.input.mandatory == m.input.mandatory + MandatoryNames(c.inputs, mp)
      && m'.output.mandatory == m.output.mandatory + MandatoryNames(c.outputs, mp)
  {
    RunDecomposes(m, rows, mp);
    var c := Classify(m.mode, rows, mp);
    FillMandatory(m.input, c.inputs, mp, StyleFor(Input));
    FillMandatory(m.output, c.outputs, mp, StyleFor(Output));
  }

  /** Rows before the first phase marker are never processed: a pass that
      starts in HEADER and meets no marker hands no row to either spec. */
  lemma {:induction false} NoMarkerNoRows(md: Mode, rows: seq<Row>, mp: Mapping)
    requires AllCover(mp, rows) && md.phase == Header
    requires forall i :: 0 <= i < |rows| ==> rows[i][0] != InputsMarker && rows[i][0] != OutputsMarker
    ensures var c := Classify(md, rows, mp);
      c.inputs == [] && c.outputs == [] && c.mode.phase == Header
    decreases |rows|
  {
    if |rows| > 0 {
      NoMarkerNoRows(md, rows[..|rows| - 1], mp);
    }
  }

  // ---------------------------------------------------------------- the class

  class InputOutputProcessor {
    var rowCounter: int
    var inputSpec: Spec
    var outputSpec: Spec
    var inputMandatoryFields: seq<string>
    var outputMandatoryFields: seq<string>
    const results: seq<Row>
    const mapping: Mapping
    var currentState: Phase

    /** The part of the object one row can change. */
    ghost function State(): Machine
      reads this
    {
      Machine(Mode(currentState, rowCounter),
              Collected(inputSpec.properties, inputMandatoryFields),
              Collected(outputSpec.properties, outputMandatoryFields))
    }

    /** Every row has every mapped column; each spec has distinct keys and
        names only its own keys as mandatory. */
    ghost predicate Valid()
      reads this
    {
      AllCover(mapping, results) && WellKeyed(State().input) && WellKeyed(State().output)
    }

    constructor (results: seq<Row>, mapping: Mapping)
      requires AllCover(mapping, results)
      ensures Valid() && this.results == results && this.mapping == mapping
      ensures rowCounter == 0 && currentState == Header
      ensures inputSpec == DefaultSpec && outputSpec == DefaultSpec
      ensures inputMandatoryFields == [] && outputMandatoryFields == []
    {
      this.results := results;
      this.mapping := mapping;
      rowCounter := 0;
      currentState := Header;
      inputSpec := DefaultSpec;
      outputSpec := DefaultSpec;
      inputMandatoryFields := [];
      outputMandatoryFields := [];
    }

    method GetInputSpec() returns (spec: Spec)
      ensures spec == inputSpec
    {
      spec := inputSpec;
    }

    method GetOutputSpec() returns (spec: Spec)
      ensures spec == outputSpec
    {
      spec := outputSpec;
    }

    /** Runs the loop over all rows, then attaches each phase's mandatory
        list as its spec's `required`. Returns the index of the row at which
        `processRow` threw, if one did; the object is then left as the loop
        left it, its counter already advanced past that row and neither
        `required` attached. */
    method ProcessFile() returns (failedRow: Option<nat>)
      requires Valid()
      modifies this
      ensures Valid()
      ensures failedRow.None? ==>
        && Run(old(State()), results, mapping) == Some(State())
        && inputSpec.required == Some(inputMandatoryFields)
        && outputSpec.required == Some(outputMandatoryFields)
      ensures failedRow.None? ==>
        var routed := Classify(old(State()).mode, results, mapping);
        && inputSpec.required == Some(old(inputMandatoryFields) + MandatoryNames(routed.inputs, mapping))
        && outputSpec.required == Some(old(outputMandatoryFields) + MandatoryNames(routed.outputs, mapping))
      ensures failedRow.Some? ==>
        && failedRow.value < |results|
        && Run(old(State()), results[..failedRow.value], mapping).Some?
        && var before := Run(old(State()), results[..failedRow.value], mapping).value;
           && Step(before, results[failedRow.value], mapping) == None
           && State() == before.(mode := Route(before.mode, results[failedRow.value], mapping).mode)
      ensures failedRow.Some? ==>
        inputSpec.required == old(inputSpec.required) && outputSpec.required == old(outputSpec.required)
    {
      ghost var start := State();
      for i := 0 to |results|
        invariant Valid()
        invariant Run(start, results[..i], mapping) == Some(State())
        invariant inputSpec.required == old(inputSpec.required)
        invariant outputSpec.required == old(outputSpec.required)
      {
        var row := results[i];
        ghost var before := State();
        assert results[..i + 1][..i] == results[..i];
        if row[0] == InputsMarker {
          currentState := Input;
          rowCounter := 0;
          continue;
        }
        if row[0] == OutputsMarker {
          currentState := Output;
          rowCounter := 0;
          continue;
        }
        if row[0] == "\n" || row[mapping.dataType] == "" {
          currentState := Header;
          continue;
        }
        if row[mapping.fieldName] == "" {
          continue;
        }
        rowCounter := rowCounter + 1;
        if rowCounter < 2 {
          continue;
        }
        match currentState {
          case Input =>
            var ok := ProcessRow(row, Input);
            if !ok {
              return Some(i);
            }
          case Output =>
            var ok := ProcessRow(row, Output);
            if !ok {
              return Some(i);
            }
          case Header =>
        }
      }
      assert results[..|results|] == results;
      RunMandatory(start, results, mapping);
      inputSpec := inputSpec.(required := Some(inputMandatoryFields));
      outputSpec := outputSpec.(required := Some(outputMandatoryFields));
      failedRow := None;
    }

    /** Writes one row into the spec of `phase`: its descriptor under its key
        in the root `properties`, and its name onto that phase's mandatory
        list when it is mandatory. The other phase, the control state and
        both `required` lists are untouched; when the row throws, nothing is. */
    method ProcessRow(row: Row, phase: Phase) returns (ok: bool)
      requires Valid() && Covers(mapping, row) && phase != Header
      modifies this
      ensures Valid()
      ensures currentState == old(currentState) && rowCounter == old(rowCounter)
      ensures inputSpec.required == old(inputSpec.required) && outputSpec.required == old(outputSpec.required)
      ensures phase == Input ==>
        && Apply(old(State().input), row, mapping, StyleFor(Input)) == (if ok then Some(State().input) else None)
        && State().output == old(State().output)
      ensures phase == Output ==>
        && Apply(old(State().output), row, mapping, StyleFor(Output)) == (if ok then Some(State().output) else None)
        && State().input == old(State().input)
      ensures !ok ==> State() == old(State())
    {
      var described := Describe(row, mapping, StyleFor(phase));
      if described.None? {
        return false;
      }
      ApplyWrites(if phase == Input then State().input else State().output,
                  row, mapping, StyleFor(phase), described.value);
      Record(described.value, phase);
      ok := true;
    }

    /** The writes of a row that did not throw: its descriptor under its key
        in the root `properties` of `phase`, and its name onto that phase's
        mandatory list when it is mandatory. */
    method Record(f: Field, phase: Phase)
      requires Valid() && phase != Header
      modifies this
      ensures Valid()
      ensures currentState == old(currentState) && rowCounter == old(rowCounter)
      ensures inputSpec.required == old(inputSpec.required) && outputSpec.required == old(outputSpec.required)
      ensures phase == Input ==> State().input == Store(old(State().input), f) && State().output == old(State().output)
      ensures phase == Output ==> State().output == Store(old(State().output), f) && State().input == old(State().input)
    {
      StoreKeepsKeys(if phase == Input then State().input else State().output, f);
      if phase == Input {
        inputSpec := inputSpec.(properties := Put(inputSpec.properties, f.key, f.node));
        if f.mandatory {
          inputMandatoryFields := inputMandatoryFields + [f.key];
        }
      } else {
        outputSpec := outputSpec.(properties := Put(outputSpec.properties, f.key, f.node));
        if f.mandatory {
          outputMandatoryFields := outputMandatoryFields + [f.key];
        }
      }
    }
  }

}
