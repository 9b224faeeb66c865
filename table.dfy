/**
 * Tables: `UITableCell` (`td`), `UITableCellHeader` (`th`), `UITableRow` and
 * `UITableRowHeader` (`tr` nodes holding one cell per string, in order), and
 * `UITable`, a `table` node holding an optional header row and then one row
 * per line of data.
 *
 * Every wrapper's `topLevelElement` is the node it was built around, so a
 * parent receives that node when the wrapper is added to it.
 */
module Tables {
  import opened Catalog
  import opened Optional
  import opened Node

  /** The closing tags of the cell kinds, spelled out. */
  lemma CellClosingTags()
    ensures "</" + RawValue(Td) + ">" == "</td>"
    ensures "</" + RawValue(Th) + ">" == "</th>"
  {
  }

  /** The closing tags of a row and a table, spelled out. */
  lemma RowClosingTags()
    ensures "</" + RawValue(Tr) + ">" == "</tr>"
    ensures "</" + RawValue(Table) + ">" == "</table>"
  {
  }

  /** A new cell node of the given kind with the escaped text and nothing else. */
  method NewCellNode(kind: Element, data: string) returns (e: UIElement)
    requires kind == Td || kind == Th
    ensures fresh(e) && e.Valid() && e.Repr == {e}
    ensures e.element == kind && !e.isSingleTag
    ensures e.text == SafetyHtmlEncoded(data)
    ensures e.attributes == [] && e.children == [] && e.rawElements == []
    ensures e.end == (if kind == Td then "</td>" else "</th>")
  {
    ContainerKind(kind);
    e := NewElement(kind);
    CellClosingTags();
    e.AddText(data);
  }

  /** `UITableCell`: a `td` holding one string. */
  class UITableCell {
    const cell: UIElement

    /** `init(with:)`: the cell's text is the escaped data; it has no attributes or children. */
    constructor (data: string)
      ensures fresh(cell) && cell.Valid() && cell.Repr == {cell}
      ensures cell.element == Td
      ensures cell.end == "</td>"
      ensures cell.text == SafetyHtmlEncoded(data)
      ensures cell.attributes == [] && cell.children == [] && cell.rawElements == []
    {
      var c := NewCellNode(Td, data);
      cell := c;
    }

    function TopLevelElement(): (e: UIElement)
      ensures e == cell
    {
      cell
    }
  }

  /** `UITableCellHeader`: a `th` holding one title. */
  class UITableCellHeader {
    const cellHeader: UIElement

    /** `init(with:)`: the header cell's text is the escaped title. */
    constructor (data: string)
      ensures fresh(cellHeader) && cellHeader.Valid() && cellHeader.Repr == {cellHeader}
      ensures cellHeader.element == Th
      ensures cellHeader.end == "</th>"
      ensures cellHeader.text == SafetyHtmlEncoded(data)
      ensures cellHeader.attributes == [] && cellHeader.children == [] && cellHeader.rawElements == []
    {
      var c := NewCellNode(Th, data);
      cellHeader := c;
    }

    function TopLevelElement(): (e: UIElement)
      ensures e == cellHeader
    {
      cellHeader
    }
  }

  /**
   * One turn of the loop in `UITableRow.init`: a new cell for string `i`,
   * kept after the earlier cells and added to the row, which leaves the
   * earlier cells as they were.
   */
  method AddCell(row: UIElement, cells: seq<UITableCell>, data: seq<string>, i: nat)
    returns (cells': seq<UITableCell>)
    requires row.Valid() && !row.isSingleTag
    requires |cells| == |row.children| == i < |data|
    requires forall k :: 0 <= k < i ==>
      && row.children[k] == cells[k].cell
      && cells[k].cell != row
      && cells[k].cell.element == Td
      && cells[k].cell.text == SafetyHtmlEncoded(data[k])
      && cells[k].cell.attributes == [] && cells[k].cell.children == []
    modifies row
    ensures row.Valid()
    ensures |cells'| == |row.children| == i + 1
    ensures forall k :: 0 <= k < i + 1 ==>
      && row.children[k] == cells'[k].cell
      && cells'[k].cell != row
      && cells'[k].cell.element == Td
      && cells'[k].cell.text == SafetyHtmlEncoded(data[k])
      && cells'[k].cell.attributes == [] && cells'[k].cell.children == []
    ensures row.attributes == old(row.attributes) && row.text == old(row.text)
    ensures row.rawElements == old(row.rawElements)
    ensures fresh(row.Repr - old(row.Repr))
  {
    var c := new UITableCell(data[i]);
    row.AddChild(c.TopLevelElement());
    cells' := cells + [c];
  }

  /** One turn of the loop in `UITableRowHeader.init`: as `AddCell`, with a `th` for title `i`. */
  method AddCellHeader(row: UIElement, cells: seq<UITableCellHeader>, titles: seq<string>, i: nat)
    returns (cells': seq<UITableCellHeader>)
    requires row.Valid() && !row.isSingleTag
    requires |cells| == |row.children| == i < |titles|
    requires forall k :: 0 <= k < i ==>
      && row.children[k] == cells[k].cellHeader
      && cells[k].cellHeader != row
      && cells[k].cellHeader.element == Th
      && cells[k].cellHeader.text == SafetyHtmlEncoded(titles[k])
      && cells[k].cellHeader.attributes == [] && cells[k].cellHeader.children == []
    modifies row
    ensures row.Valid()
    ensures |cells'| == |row.children| == i + 1
    ensures forall k :: 0 <= k < i + 1 ==>
      && row.children[k] == cells'[k].cellHeader
      && cells'[k].cellHeader != row
      && cells'[k].cellHeader.element == Th
      && cells'[k].cellHeader.text == SafetyHtmlEncoded(titles[k])
      && cells'[k].cellHeader.attributes == [] && cells'[k].cellHeader.children == []
    ensures row.attributes == old(row.attributes) && row.text == old(row.text)
    ensures row.rawElements == old(row.rawElements)
    ensures fresh(row.Repr - old(row.Repr))
  {
    var c := new UITableCellHeader(titles[i]);
    row.AddChild(c.TopLevelElement());
    cells' := cells + [c];
  }

  /** A new, empty `tr` node. */
  method NewRowNode() returns (e: UIElement)
    ensures fresh(e) && e.Valid() && e.Repr == {e}
    ensures e.element == Tr && !e.isSingleTag
    ensures e.attributes == [] && e.text == "" && e.children == [] && e.rawElements == []
    ensures e.end == "</tr>"
  {
    ContainerKind(Tr);
    e := NewElement(Tr);
    RowClosingTags();
  }

  /** The loop of `UITableRow.init`: one cell per string, kept in `cells` and added to the row. */
  method BuildRow(data: seq<string>) returns (row: UIElement, cells: seq<UITableCell>)
    ensures fresh(row.Repr) && row.Valid() && row.element == Tr
    ensures row.end == "</tr>"
    ensures row.attributes == [] && row.text == "" && row.rawElements == []
    ensures |cells| == |row.children| == |data|
    ensures forall k :: 0 <= k < |data| ==>
      && row.children[k] == cells[k].cell
      && cells[k].cell.element == Td
      && cells[k].cell.text == SafetyHtmlEncoded(data[k])
      && cells[k].cell.attributes == [] && cells[k].cell.children == []
  {
    row := NewRowNode();
    cells := [];
    var i := 0;
    while i < |data|
      invariant 0 <= i <= |data|
      invariant fresh(row.Repr) && row.Valid() && !row.isSingleTag && row.element == Tr
      invariant row.attributes == [] && row.text == "" && row.rawElements == []
      invariant |cells| == |row.children| == i
      invariant forall k :: 0 <= k < i ==>
        && row.children[k] == cells[k].cell
        && cells[k].cell != row
        && cells[k].cell.element == Td
        && cells[k].cell.text == SafetyHtmlEncoded(data[k])
        && cells[k].cell.attributes == [] && cells[k].cell.children == []
    {
      cells := AddCell(row, cells, data, i);
      i := i + 1;
    }
  }

  /** The loop of `UITableRowHeader.init`: one header cell per title. */
  method BuildHeaderRow(titles: seq<string>) returns (row: UIElement, cells: seq<UITableCellHeader>)
    ensures fresh(row.Repr) && row.Valid() && row.element == Tr
    ensures row.end == "</tr>"
    ensures row.attributes == [] && row.text == "" && row.rawElements == []
    ensures |cells| == |row.children| == |titles|
    ensures forall k :: 0 <= k < |titles| ==>
      && row.children[k] == cells[k].cellHeader
      && cells[k].cellHeader.element == Th
      && cells[k].cellHeader.text == SafetyHtmlEncoded(titles[k])
      && cells[k].cellHeader.attributes == [] && cells[k].cellHeader.children == []
  {
    row := NewRowNode();
    cells := [];
    var i := 0;
    while i < |titles|
      invariant 0 <= i <= |titles|
      invariant fresh(row.Repr) && row.Valid() && !row.isSingleTag && row.element == Tr
      invariant row.attributes == [] && row.text == "" && row.rawElements == []
      invariant |cells| == |row.children| == i
      invariant forall k :: 0 <= k < i ==>
        && row.children[k] == cells[k].cellHeader
        && cells[k].cellHeader != row
        && cells[k].cellHeader.element == Th
        && cells[k].cellHeader.text == SafetyHtmlEncoded(titles[k])
        && cells[k].cellHeader.attributes == [] && cells[k].cellHeader.children == []
    {
      cells := AddCellHeader(row, cells, titles, i);
      i := i + 1;
    }
  }

  /** `UITableRow`: a `tr` with one `td` per string. */
  class UITableRow {
    const row: UIElement
    var cells: seq<UITableCell>

    /** `init(with:)`. */
    constructor (data: seq<string>)
      ensures fresh(row.Repr) && row.Valid() && row.element == Tr
      ensures row.end == "</tr>"
      ensures row.attributes == [] && row.text == "" && row.rawElements == []
      ensures |cells| == |row.children| == |data|
      ensures forall k :: 0 <= k < |data| ==>
        && row.children[k] == cells[k].cell
        && cells[k].cell.element == Td
        && cells[k].cell.text == SafetyHtmlEncoded(data[k])
        && cells[k].cell.attributes == [] && cells[k].cell.children == []
    {
      var r, cs := BuildRow(data);
      row, cells := r, cs;
    }

    function TopLevelElement(): (e: UIElement)
      ensures e == row
    {
      row
    }
  }

  /** `UITableRowHeader`: a `tr` with one `th` per title. */
  class UITableRowHeader {
    const rowHeader: UIElement
    var cellHeaders: seq<UITableCellHeader>

    /** `init(with:)`. */
    constructor (titles: seq<string>)
      ensures fresh(rowHeader.Repr) && rowHeader.Valid() && rowHeader.element == Tr
      ensures rowHeader.end == "</tr>"
      ensures rowHeader.attributes == [] && rowHeader.text == "" && rowHeader.rawElements == []
      ensures |cellHeaders| == |rowHeader.children| == |titles|
      ensures forall k :: 0 <= k < |titles| ==>
        && rowHeader.children[k] == cellHeaders[k].cellHeader
        && cellHeaders[k].cellHeader.element == Th
        && cellHeaders[k].cellHeader.text == SafetyHtmlEncoded(titles[k])
        && cellHeaders[k].cellHeader.attributes == [] && cellHeaders[k].cellHeader.children == []
    {
      var r, cs := BuildHeaderRow(titles);
      rowHeader, cellHeaders := r, cs;
    }

    function TopLevelElement(): (e: UIElement)
      ensures e == rowHeader
    {
      rowHeader
    }
  }

  /**
   * A data row as the table sees it: a `tr` whose children are `td` cells
   * holding the strings, escaped, in order.
   */
  ghost predicate ShowsRow(row: UIElement, data: seq<string>)
    reads row, set j | 0 <= j < |row.children| :: row.children[j]
  {
    && row.element == Tr
    && |row.children| == |data|
    && forall j :: 0 <= j < |data| ==>
         row.children[j].element == Td && row.children[j].text == SafetyHtmlEncoded(data[j])
  }

  /** A header row as the table sees it: a `tr` of `th` cells holding the titles, escaped, in order. */
  ghost predicate ShowsHeader(row: UIElement, titles: seq<string>)
    reads row, set j | 0 <= j < |row.children| :: row.children[j]
  {
    && row.element == Tr
    && |row.children| == |titles|
    && forall j :: 0 <= j < |titles| ==>
         row.children[j].element == Th && row.children[j].text == SafetyHtmlEncoded(titles[j])
  }

  /** Neither a child of a valid node nor any of that child's children is the node itself. */
  lemma ChildrenApart(t: UIElement)
    requires t.Valid()
    ensures forall k :: 0 <= k < |t.children| ==>
      && t.children[k] != t
      && forall j :: 0 <= j < |t.children[k].children| ==> t.children[k].children[j] != t
  {
    forall k | 0 <= k < |t.children|
      ensures forall j :: 0 <= j < |t.children[k].children| ==> t.children[k].children[j] != t
    {
      assert t.children[k].Valid();
    }
  }

  /** Rows held by a valid table, from `offset` on, are neither the table nor have it as a cell. */
  lemma RowsApart(table: UIElement, rows: seq<UITableRow>, offset: nat)
    requires table.Valid() && |table.children| == offset + |rows|
    requires forall k :: 0 <= k < |rows| ==> table.children[offset + k] == rows[k].row
    ensures forall k :: 0 <= k < |rows| ==>
      && rows[k].row != table
      && forall j :: 0 <= j < |rows[k].row.children| ==> rows[k].row.children[j] != table
  {
    forall k | 0 <= k < |rows|
      ensures forall j :: 0 <= j < |rows[k].row.children| ==> rows[k].row.children[j] != table
    {
      assert table.children[offset + k].Valid();
    }
  }

  /**
   * One turn of the loop in both `UITable` initializers: a new row for line
   * `i` of the data, kept after the earlier rows and added to the table,
   * which leaves the earlier rows as they were.
   */
  method AddRow(table: UIElement, rows: seq<UITableRow>, data: seq<seq<string>>, i: nat, offset: nat)
    returns (rows': seq<UITableRow>)
    requires table.Valid() && !table.isSingleTag
    requires |rows| == i < |data| && |table.children| == offset + i
    requires forall k :: 0 <= k < i ==> table.children[offset + k] == rows[k].row
    requires forall k :: 0 <= k < i ==> ShowsRow(rows[k].row, data[k])
    modifies table
    ensures table.Valid()
    ensures |rows'| == i + 1 && |table.children| == offset + i + 1
    ensures table.children[..offset] == old(table.children[..offset])
    ensures forall k :: 0 <= k < i + 1 ==> table.children[offset + k] == rows'[k].row
    ensures forall k :: 0 <= k < i + 1 ==> ShowsRow(rows'[k].row, data[k])
    ensures table.attributes == old(table.attributes) && table.text == old(table.text)
    ensures table.rawElements == old(table.rawElements)
  {
    RowsApart(table, rows, offset);
    var r := NewRow(data[i], table);
    rows' := rows + [r];
    AttachRow(table, rows', data);
  }

  /**
   * Adds the last of `rows` to `table`. The table is none of the rows' nodes,
   * so every row still shows its line of data.
   */
  method AttachRow(table: UIElement, rows: seq<UITableRow>, data: seq<seq<string>>)
    requires table.Valid() && !table.isSingleTag && 0 < |rows| <= |data|
    requires rows[|rows| - 1].row.Valid() && table !in rows[|rows| - 1].row.Repr
    requires forall k :: 0 <= k < |rows| ==> ShowsRow(rows[k].row, data[k])
    requires forall k :: 0 <= k < |rows| ==>
      && rows[k].row != table
      && forall j :: 0 <= j < |rows[k].row.children| ==> rows[k].row.children[j] != table
    modifies table
    ensures table.Valid()
    ensures table.children == old(table.children) + [rows[|rows| - 1].row]
    ensures forall k :: 0 <= k < |rows| ==> ShowsRow(rows[k].row, data[k])
    ensures table.attributes == old(table.attributes) && table.text == old(table.text)
    ensures table.rawElements == old(table.rawElements)
  {
    table.AddChild(rows[|rows| - 1].row);
  }

  /**
   * A new `UITableRow` for one line of data, seen through `ShowsRow`; being
   * new, neither it nor its cells are the given `table`.
   */
  method NewRow(data: seq<string>, table: UIElement) returns (r: UITableRow)
    ensures fresh(r.row.Repr) && r.row.Valid() && ShowsRow(r.row, data)
    ensures r.row != table && forall j :: 0 <= j < |r.row.children| ==> r.row.children[j] != table
  {
    r := new UITableRow(data);
  }

  /** The loop of both `UITable` initializers: one row per line of data, in order, after what the table holds. */
  method AddRows(table: UIElement, data: seq<seq<string>>, offset: nat) returns (rows: seq<UITableRow>)
    requires table.Valid() && !table.isSingleTag && |table.children| == offset
    modifies table
    ensures table.Valid()
    ensures |rows| == |data| && |table.children| == offset + |data|
    ensures table.children[..offset] == old(table.children)
    ensures forall k :: 0 <= k < |data| ==>
      table.children[offset + k] == rows[k].row && ShowsRow(rows[k].row, data[k])
    ensures table.attributes == old(table.attributes) && table.text == old(table.text)
    ensures table.rawElements == old(table.rawElements)
  {
    ghost var before := table.children;
    rows := [];
    var i := 0;
    while i < |data|
      invariant 0 <= i <= |data|
      invariant table.Valid()
      invariant |rows| == i && |table.children| == offset + i
      invariant table.children[..offset] == before
      invariant forall k :: 0 <= k < i ==> table.children[offset + k] == rows[k].row
      invariant forall k :: 0 <= k < i ==> ShowsRow(rows[k].row, data[k])
      invariant table.attributes == old(table.attributes) && table.text == old(table.text)
      invariant table.rawElements == old(table.rawElements)
    {
      rows := AddRow(table, rows, data, i, offset);
      i := i + 1;
    }
  }

  /** A new, empty `table` node. */
  method NewTableNode() returns (e: UIElement)
    ensures fresh(e) && e.Valid() && e.Repr == {e}
    ensures e.element == Table && !e.isSingleTag
    ensures e.attributes == [] && e.text == "" && e.children == [] && e.rawElements == []
    ensures e.end == "</table>"
  {
    ContainerKind(Table);
    e := NewElement(Table);
    RowClosingTags();
  }

  /** A `table` node holding only a header row built from `headerTitles`. */
  method HeaderTable(headerTitles: seq<string>) returns (t: UIElement, h: UITableRowHeader)
    ensures fresh(t) && t.Valid() && t.element == Table && !t.isSingleTag
    ensures t.children == [h.rowHeader] && ShowsHeader(h.rowHeader, headerTitles)
    ensures t.attributes == [] && t.text == "" && t.rawElements == []
    ensures h.rowHeader != t && forall j :: 0 <= j < |h.rowHeader.children| ==> h.rowHeader.children[j] != t
    ensures t.end == "</table>"
  {
    t := NewTableNode();
    h := new UITableRowHeader(headerTitles);
    var top := h.TopLevelElement();
    t.AddChild(top);
    ChildrenApart(t);
  }

  /** `UITable`: a `table` node, an optional header row and the data rows. */
  class UITable {
    const table: UIElement
    var headerRow: Option<UITableRowHeader>
    var rows: seq<UITableRow>

    /** `init(with:)`: one row per line of data, in order, and no header row. */
    constructor (data: seq<seq<string>>)
      ensures fresh(table) && table.Valid() && table.element == Table
      ensures headerRow == None
      ensures table.attributes == [] && table.text == "" && table.rawElements == []
      ensures |rows| == |table.children| == |data|
      ensures forall k :: 0 <= k < |data| ==> table.children[k] == rows[k].row
      ensures forall k :: 0 <= k < |data| ==> ShowsRow(rows[k].row, data[k])
      ensures table.end == "</table>"
    {
      var t := NewTableNode();
      var rs := AddRows(t, data, 0);
      table, rows, headerRow := t, rs, None;
    }

    /** `init(with:and:)`: the header row first, then one row per line of data, in order. */
    constructor WithHeader(headerTitles: seq<string>, data: seq<seq<string>>)
      ensures fresh(table) && table.Valid() && table.element == Table
      ensures |rows| == |data| && |table.children| == |data| + 1
      ensures headerRow.Some? && table.children[0] == headerRow.value.rowHeader
      ensures ShowsHeader(headerRow.value.rowHeader, headerTitles)
      ensures table.attributes == [] && table.text == "" && table.rawElements == []
      ensures forall k :: 0 <= k < |data| ==> table.children[k + 1] == rows[k].row && ShowsRow(rows[k].row, data[k])
      ensures table.end == "</table>"
    {
      var t, h := HeaderTable(headerTitles);
      var rs := AddRows(t, data, 1);
      table, rows, headerRow := t, rs, Some(h);
    }
  }
}
