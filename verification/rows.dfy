/** What `processRow` does with one spreadsheet row: the field descriptor it
    builds (a pure function of the row), the one `properties` key it assigns
    and the mandatory name it may push; and the fold of that over a sequence
    of rows. The same body serves both the class-based processor and the
    older single-phase script, which differ only in the title prefix and in
    how the example cell is turned into `examples`. */
module Rows {
  import opened Wrappers
  import opened JsText
  import opened Schema

  /** `InputMapping`: the column index of each cell. */
  datatype Mapping = Mapping(fieldName: nat, title: nat, mandatory: nat, dataType: nat,
                             size: nat, exampleData: nat, description: nat)

  /** One CSV row: its cells in column order. */
  type Row = seq<string>

  /** Every mapped column exists in the row. */
  predicate Covers(mp: Mapping, row: Row) {
    && mp.fieldName < |row| && mp.title < |row| && mp.mandatory < |row|
    && mp.dataType < |row| && mp.size < |row| && mp.exampleData < |row|
    && mp.description < |row|
  }

  predicate AllCover(mp: Mapping, rows: seq<Row>) {
    forall i :: 0 <= i < |rows| ==> Covers(mp, rows[i])
  }

  /** The first cells of the rows that open the INPUTS and OUTPUTS sections. */
  const InputsMarker: string := "\nINPUTS"
  const OutputsMarker: string := "\nOUTPUTS"

  /** The namespace put in front of INPUT titles. */
  const BusinessPrefix: string := "BUSINESS_INPUTS."

  /** How one variant of the processor renders a row: the prefix of its
      titles, and whether the example cell is split on commas (otherwise it
      becomes a one-element list). */
  datatype Style = Style(titlePrefix: string, splitExamples: bool)

  /** The key a row is stored under, its descriptor, and whether the row
      adds its key to the mandatory list. */
  datatype Field = Field(key: string, node: Property, mandatory: bool)

  /** The mutable spec state one row changes: the root `properties` and the
      phase's list of mandatory field names. */
  datatype Collected = Collected(properties: Props, mandatory: seq<string>)

  /** `type.includes('array')`. */
  predicate IsArrayType(ty: string) {
    Contains(ty, "array")
  }

  /** `type.split('[')[1].split(']')[0]`: the array item type. */
  function ItemType(ty: string): string
    requires '[' in ty
  {
    SplitHead(ty, '[');
    Split(Split(ty, '[')[1], ']')[0]
  }

  /** The `examples` list built from a non-empty example cell. */
  function ExampleList(cell: string, style: Style): seq<Example> {
    if style.splitExamples then TrimEach(Split(cell, ',')) else [Text(cell)]
  }

  /** `.map(s => s.trim())` over the pieces of the cell. */
  function TrimEach(pieces: seq<string>): (r: seq<Example>)
    ensures |r| == |pieces| && forall i :: 0 <= i < |r| ==> r[i] == Text(Trim(pieces[i]))
    decreases |pieces|
  {
    if |pieces| == 0 then [] else [Text(Trim(pieces[0]))] + TrimEach(pieces[1..])
  }

  /** The `switch(type)` on a non-empty size: `maxLength` for strings,
      `maximum` for numbers and integers without a comma in the size,
      `[true, false]` examples for booleans, nothing otherwise. */
  function SizeRule(node: Property, ty: string, size: string): Property
    requires node.FieldNode?
  {
    if size == "" then node
    else if ty == "string" then node.(maxLength := Some(ParseInt(size)))
    else if ty == "number" || ty == "integer" then
      if ',' in size then node else node.(maximum := Some("maxByDigits(" + size + ")"))
    else if ty == "boolean" then node.(examples := Some([Flag(true), Flag(false)]))
    else node
  }

  /** The descriptor `processRow` writes for one row, or None where the
      source throws: an array type with no `[` (`type.split('[')[1]` is
      `undefined`). */
  function Describe(row: Row, mp: Mapping, style: Style): Option<Field>
    requires Covers(mp, row)
  {
    var ty := Lower(row[mp.dataType]);
    var title := style.titlePrefix + row[mp.title];
    var description := row[mp.description];
    if IsArrayType(ty) then
      if '[' in ty then
        Some(Field(Split(row[mp.fieldName], '[')[0],
                   ArrayNode(title, description, Lower(ItemType(ty))), false))
      else None
    else
      var cell := row[mp.exampleData];
      var examples := if cell != "" then Some(ExampleList(cell, style)) else None;
      var node := FieldNode(title, description, ty, examples, None, None);
      Some(Field(row[mp.fieldName], SizeRule(node, ty, row[mp.size]), row[mp.mandatory] == "Y"))
  }

  /** The writes of one described field: assign its key, push its name when
      mandatory. */
  function Store(c: Collected, f: Field): Collected {
    Collected(Put(c.properties, f.key, f.node), if f.mandatory then c.mandatory + [f.key] else c.mandatory)
  }

  /** One processed row: None when it throws, otherwise its field stored. */
  function Apply(c: Collected, row: Row, mp: Mapping, style: Style): Option<Collected>
    requires Covers(mp, row)
  {
    match Describe(row, mp, style)
    case None => None
    case Some(f) => Some(Store(c, f))
  }

  /** The processed rows applied in order; None once a row throws. */
  function Fill(c: Collected, rows: seq<Row>, mp: Mapping, style: Style): Option<Collected>
    requires AllCover(mp, rows)
    decreases |rows|
  {
    if |rows| == 0 then Some(c)
    else
      match Fill(c, rows[..|rows| - 1], mp, style)
      case None => None
      case Some(c') => Apply(c', rows[|rows| - 1], mp, style)
  }

  /** The names a sequence of processed rows marks mandatory, in order: the
      field names of the non-array rows whose mandatory cell is exactly `Y`. */
  function MandatoryNames(rows: seq<Row>, mp: Mapping): seq<string>
    requires AllCover(mp, rows)
    decreases |rows|
  {
    if |rows| == 0 then []
    else
      var row := rows[|rows| - 1];
      var named := !IsArrayType(Lower(row[mp.dataType])) && row[mp.mandatory] == "Y";
      MandatoryNames(rows[..|rows| - 1], mp) + (if named then [row[mp.fieldName]] else [])
  }

  /** A spec whose keys are distinct and whose mandatory names are all keys. */
  predicate WellKeyed(c: Collected) {
    Distinct(c.properties) && forall n :: n in c.mandatory ==> n in Keys(c.properties)
  }

  // ---------------------------------------------------------------- properties of one row

  /** An array type never reaches a case of the size switch, so an array row
      gets no size constraint. */
  lemma ArrayTypeHasNoSizeRule(ty: string)
    requires IsArrayType(ty)
    ensures ty != "string" && ty != "number" && ty != "integer" && ty != "boolean"
  {
    var i: nat :| i <= |ty| && OccursAt(ty, "array", i);
    var w := ty[i..i + 5];
    assert w == "array";
    assert ty[i] == w[0] == 'a' && ty[i + 1] == w[1] == 'r' && ty[i + 4] == w[4] == 'y';
  }

  /** The item type is the text right after the first `[`, up to the next
      `[` or `]` or the end. */
  lemma ItemTypeSpan(ty: string)
    requires '[' in ty
    ensures var p := |Split(ty, '[')[0]|;
      var e := p + 1 + |ItemType(ty)|;
      && e <= |ty| && ty[p] == '[' && '[' !in ty[..p]
      && ty[p + 1..e] == ItemType(ty) && '[' !in ItemType(ty) && ']' !in ItemType(ty)
      && (e == |ty| || ty[e] == '[' || ty[e] == ']')
  {
    var pre, rest := ItemTypeSplit(ty);
    BracketSpan(ty, pre, ItemType(ty), rest);
  }

  /** The item type of a lower-cased type is already lower case, so the
      second `toLowerCase` applied to it changes nothing. */
  lemma ItemTypeIsLower(t: string)
    requires '[' in Lower(t)
    ensures Lower(ItemType(Lower(t))) == ItemType(Lower(t))
  {
    var ty := Lower(t);
    ItemTypeSpan(ty);
    var p, item := |Split(ty, '[')[0]|, ItemType(ty);
    forall i | 0 <= i < |item|
      ensures LowerChar(item[i]) == item[i]
    {
      assert item[i] == ty[p + 1 + i];
    }
  }

  /** Positions in `pre + "[" + item + rest`: the bracket sits right after
      `pre`, and `item` fills the span up to `rest`. */
  lemma BracketSpan(ty: string, pre: string, item: string, rest: string)
    requires ty == pre + "[" + item + rest
    ensures var p, e := |pre|, |pre| + 1 + |item|;
      && e <= |ty| && ty[p] == '[' && ty[..p] == pre && ty[p + 1..e] == item
      && (rest == [] ==> e == |ty|) && (rest != [] ==> e < |ty| && ty[e] == rest[0])
  {
    var p, e := |pre|, |pre| + 1 + |item|;
    assert ty == pre + ("[" + item + rest);
    assert ty[p..] == "[" + item + rest;
    assert ty[e..] == rest;
  }

  lemma ItemTypeSplit(ty: string) returns (pre: string, rest: string)
    requires '[' in ty
    ensures pre == Split(ty, '[')[0]
    ensures ty == pre + "[" + ItemType(ty) + rest
    ensures '[' !in pre && '[' !in ItemType(ty) && ']' !in ItemType(ty)
    ensures rest == [] || rest[0] == '[' || rest[0] == ']'
  {
    var parts := Split(ty, '[');
    SplitHead(ty, '[');
    JoinSplit(ty, '[');
    SplitPiecesAvoidSep(ty, '[');
    var piece, after := parts[1], Join(parts[1..], '[');
    pre := parts[0];
    assert ty == pre + "[" + after;
    assert '[' !in piece;
    var item := ItemSplit(piece, after);
    rest := after[|item|..];
  }

  /** The item type taken from the piece that opens `after`. */
  lemma ItemSplit(piece: string, after: string) returns (item: string)
    requires |piece| <= |after| && after[..|piece|] == piece && '[' !in piece
    requires |after| == |piece| || after[|piece|] == '['
    ensures item == Split(piece, ']')[0]
    ensures |item| <= |after| && after == item + after[|item|..]
    ensures '[' !in item && ']' !in item
    ensures after[|item|..] == [] || after[|item|] == '[' || after[|item|] == ']'
  {
    SplitHead(piece, ']');
    item := Split(piece, ']')[0];
    assert after[..|item|] == item;
    if |item| < |piece| {
      assert after[|item|] == piece[|item|];
    }
    assert '[' !in item by {
      forall c | c in item ensures c != '[' {
        assert c in piece;
      }
    }
  }

  /** Title and description: the title cell behind the style's prefix, the
      description cell verbatim, on both kinds of node. */
  lemma DescribeTitle(row: Row, mp: Mapping, style: Style)
    requires Covers(mp, row)
    requires Describe(row, mp, style).Some?
    ensures var node := Describe(row, mp, style).value.node;
      if node.ArrayNode?
      then node.itemTitle == style.titlePrefix + row[mp.title] && node.itemDescription == row[mp.description]
      else node.title == style.titlePrefix + row[mp.title] && node.description == row[mp.description]
  {
  }

  /** An array row is stored under its field name cut at the first `[`, as an
      array of the bracketed item type, with no examples, size constraint or
      mandatory entry; it fails exactly when its type has no `[`. */
  lemma DescribeArray(row: Row, mp: Mapping, style: Style)
    requires Covers(mp, row) && IsArrayType(Lower(row[mp.dataType]))
    ensures var ty := Lower(row[mp.dataType]);
      Describe(row, mp, style).Some? <==> '[' in ty
    ensures Describe(row, mp, style).Some? ==>
      var f := Describe(row, mp, style).value;
      var name := row[mp.fieldName];
      && f.node.ArrayNode? && !f.mandatory
      && f.node.itemType == Lower(ItemType(Lower(row[mp.dataType])))
      && |f.key| <= |name| && f.key == name[..|f.key|] && '[' !in f.key
      && ('[' in name ==> name[|f.key|] == '[')
      && ('[' !in name ==> f.key == name)
  {
    SplitHead(row[mp.fieldName], '[');
  }

  /** A non-array row is stored under its field name with its lower-cased
      type kept verbatim; it is mandatory exactly when its mandatory cell is
      `Y`; its examples are the split pieces of the example cell, replaced by
      `[true, false]` for a boolean with a size. */
  lemma DescribeScalar(row: Row, mp: Mapping, style: Style)
    requires Covers(mp, row) && !IsArrayType(Lower(row[mp.dataType]))
    ensures Describe(row, mp, style).Some?
    ensures var f := Describe(row, mp, style).value;
      var ty := Lower(row[mp.dataType]);
      var cell := row[mp.exampleData];
      && f.key == row[mp.fieldName]
      && f.mandatory == (row[mp.mandatory] == "Y")
      && f.node.FieldNode? && f.node.fieldType == ty
      && (if ty == "boolean" && row[mp.size] != "" then f.node.examples == Some([Flag(true), Flag(false)])
          else if cell == "" then f.node.examples == None
          else f.node.examples == Some(ExampleList(cell, style)))
  {
  }

  /** With a split style, the examples are the comma-separated pieces of the
      cell, each trimmed, in order: joining the untrimmed pieces gives the
      cell back and no piece holds a comma. Without it, the list is the raw
      cell alone. */
  lemma ExampleListPieces(cell: string, style: Style)
    ensures style.splitExamples ==>
      var ex := ExampleList(cell, style);
      var pieces := Split(cell, ',');
      && |ex| == |pieces| && Join(pieces, ',') == cell
      && forall i :: 0 <= i < |ex| ==> ex[i] == Text(Trim(pieces[i])) && ',' !in pieces[i]
    ensures !style.splitExamples ==> ExampleList(cell, style) == [Text(cell)]
  {
    JoinSplit(cell, ',');
    SplitPiecesAvoidSep(cell, ',');
  }

  /** The size rules of a non-array row: none for an empty size; `maxLength`
      is the parsed size for strings (its decimal value when it is all
      digits); `maximum` is `maxByDigits(size)` for numbers and integers
      unless the size holds a comma; every other type gets no constraint. */
  lemma DescribeSize(row: Row, mp: Mapping, style: Style)
    requires Covers(mp, row) && !IsArrayType(Lower(row[mp.dataType]))
    ensures var node := Describe(row, mp, style).value.node;
      var ty := Lower(row[mp.dataType]);
      var size := row[mp.size];
      && (size == "" ==> node.maxLength == None && node.maximum == None)
      && (size != "" && ty == "string" ==> node.maxLength == Some(ParseInt(size)) && node.maximum == None)
      && (size != "" && ty == "string" && AllDecimal(size) ==> node.maxLength == Some(Int(DigitsValue(size, 10))))
      && ((ty == "number" || ty == "integer") ==> node.maxLength == None)
      && (size != "" && (ty == "number" || ty == "integer") ==>
            node.maximum == if ',' in size then None else Some("maxByDigits(" + size + ")"))
      && (ty != "string" && ty != "number" && ty != "integer" ==> node.maxLength == None && node.maximum == None)
  {
    var ty := Lower(row[mp.dataType]);
    var cell := row[mp.exampleData];
    var examples := if cell != "" then Some(ExampleList(cell, style)) else None;
    var node := FieldNode(style.titlePrefix + row[mp.title], row[mp.description], ty, examples, None, None);
    assert Describe(row, mp, style).value.node == SizeRule(node, ty, row[mp.size]);
    SizeRuleCases(node, ty, row[mp.size]);
  }

  /** The size switch on a descriptor that has no size constraint yet. */
  lemma SizeRuleCases(node: Property, ty: string, size: string)
    requires node.FieldNode? && node.maxLength == None && node.maximum == None
    ensures var r := SizeRule(node, ty, size);
      && (size == "" ==> r.maxLength == None && r.maximum == None)
      && (size != "" && ty == "string" ==> r.maxLength == Some(ParseInt(size)) && r.maximum == None)
      && (size != "" && ty == "string" && AllDecimal(size) ==> r.maxLength == Some(Int(DigitsValue(size, 10))))
      && ((ty == "number" || ty == "integer") ==> r.maxLength == None)
      && (size != "" && (ty == "number" || ty == "integer") ==>
            r.maximum == if ',' in size then None else Some("maxByDigits(" + size + ")"))
      && (ty != "string" && ty != "number" && ty != "integer" ==> r.maxLength == None && r.maximum == None)
  {
    if size != "" && AllDecimal(size) {
      ParseIntOfDigits(size);
    }
  }

  /** A string row whose size holds no decimal digit is not rejected: its
      `maxLength` is NaN, since `parseInt` returns NaN instead of throwing and
      the `catch` around it never runs. */
  lemma NonNumericStringSize(row: Row, mp: Mapping, style: Style)
    requires Covers(mp, row) && Lower(row[mp.dataType]) == "string" && row[mp.size] != ""
    requires forall i :: 0 <= i < |row[mp.size]| ==> !('0' <= row[mp.size][i] <= '9')
    ensures Describe(row, mp, style).Some?
    ensures Describe(row, mp, style).value.node.maxLength == Some(NaN)
  {
    ParseIntWithoutDigits(row[mp.size]);
    assert !IsArrayType("string") by {
      if IsArrayType("string") {
        ArrayTypeHasNoSizeRule("string");
      }
    }
  }

  /** One processed row appends its field name to the mandatory list exactly
      when it is a non-array row whose mandatory cell is `Y`. */
  lemma ApplyMandatory(c: Collected, row: Row, mp: Mapping, style: Style)
    requires Covers(mp, row) && Apply(c, row, mp, style).Some?
    ensures var named := !IsArrayType(Lower(row[mp.dataType])) && row[mp.mandatory] == "Y";
      Apply(c, row, mp, style).value.mandatory == c.mandatory + (if named then [row[mp.fieldName]] else [])
  {
    if IsArrayType(Lower(row[mp.dataType])) {
      DescribeArray(row, mp, style);
    } else {
      DescribeScalar(row, mp, style);
    }
  }

  // ---------------------------------------------------------------- properties of the fold

  /** Folding one more row applies it to what the fold built so far. */
  lemma FillSnoc(c: Collected, rows: seq<Row>, row: Row, mp: Mapping, style: Style)
    requires AllCover(mp, rows) && Covers(mp, row)
    ensures AllCover(mp, rows + [row])
    ensures Fill(c, rows + [row], mp, style)
      == if Fill(c, rows, mp, style).None? then None else Apply(Fill(c, rows, mp, style).value, row, mp, style)
  {
    assert (rows + [row])[..|rows|] == rows;
  }

  /** A fold that succeeds on a sequence succeeded on every row but the last,
      and then applied the last row. */
  lemma FillPrefix(c: Collected, rows: seq<Row>, mp: Mapping, style: Style)
    requires AllCover(mp, rows) && |rows| > 0 && Fill(c, rows, mp, style).Some?
    ensures Fill(c, rows[..|rows| - 1], mp, style).Some?
    ensures Apply(Fill(c, rows[..|rows| - 1], mp, style).value, rows[|rows| - 1], mp, style)
      == Fill(c, rows, mp, style)
  {
  }

  /** The mandatory list a fold leaves is the list it started from followed by
      the mandatory names of its rows, in encounter order. */
  lemma {:induction false} FillMandatory(c: Collected, rows: seq<Row>, mp: Mapping, style: Style)
    requires AllCover(mp, rows) && Fill(c, rows, mp, style).Some?
    ensures Fill(c, rows, mp, style).value.mandatory == c.mandatory + MandatoryNames(rows, mp)
    decreases |rows|
  {
    if |rows| > 0 {
      var prefix, row := rows[..|rows| - 1], rows[|rows| - 1];
      FillPrefix(c, rows, mp, style);
      FillMandatory(c, prefix, mp, style);
      var mid := Fill(c, prefix, mp, style).value;
      ApplyMandatory(mid, row, mp, style);
      var named := !IsArrayType(Lower(row[mp.dataType])) && row[mp.mandatory] == "Y";
      var tail := if named then [row[mp.fieldName]] else [];
      assert MandatoryNames(rows, mp) == MandatoryNames(prefix, mp) + tail;
      assert c.mandatory + MandatoryNames(prefix, mp) + tail == c.mandatory + MandatoryNames(rows, mp);
    }
  }

  /** One row keeps the keys distinct and every mandatory name a key, never
      drops a key and keeps the order of those already present. */
  lemma ApplyKeepsKeys(c: Collected, row: Row, mp: Mapping, style: Style)
    requires Covers(mp, row) && Apply(c, row, mp, style).Some? && WellKeyed(c)
    ensures var c' := Apply(c, row, mp, style).value;
      WellKeyed(c') && Keys(c.properties) <= Keys(c'.properties)
  {
    StoreKeepsKeys(c, Describe(row, mp, style).value);
  }

  /** Storing a field keeps the keys distinct and every mandatory name a key,
      and never drops a key. */
  lemma StoreKeepsKeys(c: Collected, f: Field)
    requires WellKeyed(c)
    ensures WellKeyed(Store(c, f)) && Keys(c.properties) <= Keys(Store(c, f).properties)
  {
    var p' := Put(c.properties, f.key, f.node);
    assert forall n :: n in Keys(c.properties) ==> n in Keys(p');
    assert f.key in Keys(p');
  }

  /** A row is applied exactly when its descriptor exists. */
  lemma ApplyDescribes(c: Collected, row: Row, mp: Mapping, style: Style)
    requires Covers(mp, row)
    ensures Apply(c, row, mp, style).Some? <==> Describe(row, mp, style).Some?
  {
  }

  /** What a row that does not throw writes: its descriptor, stored. */
  lemma ApplyWrites(c: Collected, row: Row, mp: Mapping, style: Style, f: Field)
    requires Covers(mp, row) && Describe(row, mp, style) == Some(f)
    ensures Apply(c, row, mp, style) == Some(Store(c, f))
  {
  }

  /** The same for a whole fold. */
  lemma {:induction false} FillKeepsKeys(c: Collected, rows: seq<Row>, mp: Mapping, style: Style)
    requires AllCover(mp, rows) && Fill(c, rows, mp, style).Some? && WellKeyed(c)
    ensures var c' := Fill(c, rows, mp, style).value;
      WellKeyed(c') && Keys(c.properties) <= Keys(c'.properties)
    decreases |rows|
  {
    if |rows| > 0 {
      var prefix := rows[..|rows| - 1];
      FillKeepsKeys(c, prefix, mp, style);
      var mid := Fill(c, prefix, mp, style).value;
      ApplyKeepsKeys(mid, rows[|rows| - 1], mp, style);
    }
  }

}
