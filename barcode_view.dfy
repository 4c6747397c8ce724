/** The printable barcode sheet: the selected asset numbers laid out four to a row. */
module BarcodeView {
  import Lists

  /** The cells a row holds at most. */
  const ROW_WIDTH: nat := 4

  /** One barcode cell: the encoded value and the caption printed under it. */
  datatype Cell = Cell(value: string, text: string)

  /** The cell of one barcode. */
  function CellOf(barcode: string): (c: Cell)
    ensures c.value == barcode && c.text == "Hyposoft " + barcode
  {
    Cell(barcode, "Hyposoft " + barcode)
  }

  /** The cells of the barcodes, in input order. */
  function Cells(barcodes: seq<string>): (cells: seq<Cell>)
    ensures |cells| == |barcodes|
    ensures forall k :: 0 <= k < |cells| ==> cells[k] == CellOf(barcodes[k])
  {
    seq(|barcodes|, k requires 0 <= k < |barcodes| => CellOf(barcodes[k]))
  }

  /** Consecutive runs of `ROW_WIDTH` cells, the last one shorter when the count does not divide. */
  function Chunks(cells: seq<Cell>): seq<seq<Cell>>
    decreases |cells|
  {
    if cells == [] then []
    else if |cells| <= ROW_WIDTH then [cells]
    else [cells[..ROW_WIDTH]] + Chunks(cells[ROW_WIDTH..])
  }

  /** The rows read one after the other. */
  function Flatten(rows: seq<seq<Cell>>): seq<Cell> {
    if rows == [] then [] else rows[0] + Flatten(rows[1..])
  }

  /** Every cell lands in exactly one row, in input order. */
  lemma {:induction false} ChunksFlatten(cells: seq<Cell>)
    ensures Flatten(Chunks(cells)) == cells
    decreases |cells|
  {
    if |cells| > ROW_WIDTH {
      ChunksFlatten(cells[ROW_WIDTH..]);
      assert cells == cells[..ROW_WIDTH] + cells[ROW_WIDTH..];
    }
  }

  /** There are ceil(n/4) rows, each full except the last, which holds 1 to 4 cells. */
  lemma {:induction false} ChunksShape(cells: seq<Cell>)
    ensures |Chunks(cells)| == (|cells| + ROW_WIDTH - 1) / ROW_WIDTH
    ensures forall k :: 0 <= k < |Chunks(cells)| - 1 ==> |Chunks(cells)[k]| == ROW_WIDTH
    ensures |Chunks(cells)| > 0 ==> 1 <= |Chunks(cells)[|Chunks(cells)| - 1]| <= ROW_WIDTH
    decreases |cells|
  {
    if |cells| > ROW_WIDTH {
      var rest := Chunks(cells[ROW_WIDTH..]);
      ChunksShape(cells[ROW_WIDTH..]);
      assert Chunks(cells) == [cells[..ROW_WIDTH]] + rest;
      forall k | 0 <= k < |Chunks(cells)| - 1 ensures |Chunks(cells)[k]| == ROW_WIDTH {
        if k > 0 { assert Chunks(cells)[k] == rest[k - 1]; }
      }
    }
  }

  /** Cutting a run of whole rows off the front cuts its rows off the front. */
  lemma {:induction false} ChunksAppend(a: seq<Cell>, b: seq<Cell>)
    requires |a| % ROW_WIDTH == 0
    ensures Chunks(a + b) == Chunks(a) + Chunks(b)
    decreases |a|
  {
    if a == [] {
      assert a + b == b;
    } else if b == [] {
      assert a + b == a;
    } else {
      var head := a[..ROW_WIDTH];
      var tail := a[ROW_WIDTH..];
      assert |tail| % ROW_WIDTH == 0;
      ChunksAppend(tail, b);
      assert (a + b)[..ROW_WIDTH] == head;
      assert (a + b)[ROW_WIDTH..] == tail + b;
      assert Chunks(a + b) == [head] + Chunks(tail + b);
      ChunksCons(a);
    }
  }

  /** A nonempty run of whole rows starts with its first four cells. */
  lemma ChunksCons(a: seq<Cell>)
    requires |a| % ROW_WIDTH == 0 && a != []
    ensures Chunks(a) == [a[..ROW_WIDTH]] + Chunks(a[ROW_WIDTH..])
  {
    if |a| == ROW_WIDTH {
      assert a[..ROW_WIDTH] == a && a[ROW_WIDTH..] == [];
    }
  }

  /** Closing a row of 1 to 4 cells after whole rows adds it as the last row. */
  lemma CloseRow(done: seq<Cell>, row: seq<Cell>)
    requires |done| % ROW_WIDTH == 0 && 1 <= |row| <= ROW_WIDTH
    ensures Chunks(done + row) == Chunks(done) + [row]
  {
    ChunksAppend(done, row);
  }

  /**
   * The cells seen so far are laid out as the whole rows `rows` followed by the open row `row`,
   * which holds 1 to 4 cells once any cell has been seen.
   */
  predicate Laid(seen: seq<Cell>, rows: seq<seq<Cell>>, row: seq<Cell>) {
    |row| <= ROW_WIDTH && (seen != [] ==> row != []) && |row| <= |seen|
    && (|seen| - |row|) % ROW_WIDTH == 0
    && seen == seen[..|seen| - |row|] + row
    && rows == Chunks(seen[..|seen| - |row|])
  }

  /** A cell that fits goes on the open row. */
  lemma LaidExtend(seen: seq<Cell>, rows: seq<seq<Cell>>, row: seq<Cell>, c: Cell)
    requires Laid(seen, rows, row) && |row| < ROW_WIDTH
    ensures Laid(seen + [c], rows, row + [c])
  {
    var done := seen[..|seen| - |row|];
    assert (seen + [c])[..|seen + [c]| - |row + [c]|] == done;
    Lists.AppendAssoc(done, row, [c]);
  }

  /** A fifth cell closes the open row and opens a new one. */
  lemma LaidWrap(seen: seq<Cell>, rows: seq<seq<Cell>>, row: seq<Cell>, c: Cell)
    requires Laid(seen, rows, row) && |row| == ROW_WIDTH
    ensures Laid(seen + [c], rows + [row], [c])
  {
    var done := seen[..|seen| - |row|];
    CloseRow(done, row);
    assert (seen + [c])[..|seen + [c]| - 1] == seen;
  }

  /** At the end, closing the open row (when there is one) gives the rows of all cells. */
  lemma LaidClose(seen: seq<Cell>, rows: seq<seq<Cell>>, row: seq<Cell>)
    requires Laid(seen, rows, row)
    ensures (if |row| > 0 then rows + [row] else rows) == Chunks(seen)
  {
    var done := seen[..|seen| - |row|];
    if |row| > 0 {
      CloseRow(done, row);
    } else {
      assert done == seen;
    }
  }

  /** `renderBarcodes`: the `width` counter opens a new row on every fifth cell. */
  method RenderBarcodes(barcodes: seq<string>) returns (rows: seq<seq<Cell>>)
    ensures rows == Chunks(Cells(barcodes))
  {
    ghost var cells := Cells(barcodes);
    var width := 0;
    var row: seq<Cell> := [];
    rows := [];
    var i := 0;
    while i < |barcodes|
      invariant 0 <= i <= |barcodes|
      invariant width == |row|
      invariant Laid(cells[..i], rows, row)
    {
      CellsPrefixStep(barcodes, i);
      width, row, rows := PlaceCell(cells[..i], cells[..i + 1], width, row, rows, CellOf(barcodes[i]));
      i := i + 1;
    }
    assert cells[..|barcodes|] == cells;
    LaidClose(cells, rows, row);
    if |row| > 0 {
      rows := rows + [row];
    }
  }

  /** The cells of one more barcode are those of the barcodes before it and its own. */
  lemma CellsPrefixStep(barcodes: seq<string>, i: nat)
    requires i < |barcodes|
    ensures Cells(barcodes)[..i + 1] == Cells(barcodes)[..i] + [CellOf(barcodes[i])]
  {
  }

  /** One iteration of the loop of `renderBarcodes`: `width` counts up, and the fifth cell starts a new row. */
  method PlaceCell(ghost seen: seq<Cell>, ghost next: seq<Cell>, width: nat, row: seq<Cell>, rows: seq<seq<Cell>>, c: Cell)
    returns (width': nat, row': seq<Cell>, rows': seq<seq<Cell>>)
    requires Laid(seen, rows, row) && width == |row| && next == seen + [c]
    ensures Laid(next, rows', row') && width' == |row'|
  {
    width' := width + 1;
    if width' < 5 {
      LaidExtend(seen, rows, row, c);
      row', rows' := row + [c], rows;
    } else {
      width' := 1;
      LaidWrap(seen, rows, row, c);
      rows' := rows + [row];
      row' := [];
      row' := row' + [c];
    }
  }

  /** Nine barcodes give two full rows and a row of one. */
  lemma NineBarcodes(b: seq<string>)
    requires |b| == 9
    ensures |Chunks(Cells(b))| == 3 && Chunks(Cells(b))[2] == [CellOf(b[8])]
  {
    var c := Cells(b);
    assert Chunks(c) == [c[..4]] + ([c[4..][..4]] + Chunks(c[4..][4..]));
    assert c[4..][4..] == [c[8]];
  }
}
