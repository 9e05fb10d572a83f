/** The CSV written at the end of `_chr_table` (analysis/cmd/split_vep.py):
    a header naming the genes, then one line per individual with the cell
    values of the genes that have a qualifying variant and a `0` for every
    other gene seen in the blocks. Lines are kept without their newline. */
module Export {
  import opened Outcomes
  import opened Strings
  import Layout
  import Scoring

  /** `blocks = 512 * 100`: rows converted from the block matrix at a time. */
  const RowsPerBatch: nat := 512 * 100

  /** Gene columns, or one empty field when there are none: the header and
      the rows end in `,` then. */
  function Columns(names: seq<string>): (r: seq<string>)
    ensures |r| >= 1
  {
    if names == [] then [""] else names
  }

  /** `s,` followed by the genes with a value and then the zero genes. */
  function Header(geneNames: seq<string>, zeroGenes: seq<string>): string
  {
    "s," + Join(geneNames + zeroGenes, ",")
  }

  /** `str` of each value after the cast to `int8`. */
  function Cells(values: seq<int>): (r: seq<string>)
    ensures |r| == |values|
  {
    seq(|values|, j requires 0 <= j < |values| => IntToString(Scoring.ToInt8(values[j])))
  }

  /** `'0' * n`, iterated character by character. */
  function Zeros(n: nat): (r: seq<string>)
    ensures |r| == n
  {
    seq(n, _ => "0")
  }

  /** The line of one individual. */
  function Row(patient: string, values: seq<int>, nZero: nat): string
  {
    patient + "," + Join(Cells(values) + Zeros(nZero), ",")
  }

  /** The lines of all individuals, in the order of the block matrix. */
  function Rows(patients: seq<string>, arr: seq<seq<int>>, nZero: nat): (r: seq<string>)
    requires |patients| == |arr|
    ensures |r| == |arr|
  {
    seq(|arr|, i requires 0 <= i < |arr| => Row(patients[i], arr[i], nZero))
  }

  /** `ceil(rows / blocks)`. */
  function NumBatches(rows: nat): (nb: nat)
    ensures nb * RowsPerBatch >= rows
    ensures nb > 0 ==> (nb - 1) * RowsPerBatch < rows
  {
    (rows + RowsPerBatch - 1) / RowsPerBatch
  }

  /** Batch `b` covers `[b * blocks, min((b + 1) * blocks, rows))`. */
  function BatchStart(b: nat): nat { b * RowsPerBatch }

  function BatchEnd(rows: nat, b: nat): nat
  {
    if (b + 1) * RowsPerBatch < rows then (b + 1) * RowsPerBatch else rows
  }

  /** The batches cover `[0, rows)` exactly once: row `p` lies in batch
      `p / blocks` and in no other. */
  lemma BatchesCover(rows: nat, p: nat)
    requires p < rows
    ensures p / RowsPerBatch < NumBatches(rows)
    ensures BatchStart(p / RowsPerBatch) <= p < BatchEnd(rows, p / RowsPerBatch)
    ensures forall b :: 0 <= b < NumBatches(rows) && BatchStart(b) <= p < BatchEnd(rows, b) ==> b == p / RowsPerBatch
  {
    var q := p / RowsPerBatch;
    assert q * RowsPerBatch <= p < (q + 1) * RowsPerBatch;
    forall b | 0 <= b < NumBatches(rows) && BatchStart(b) <= p < BatchEnd(rows, b)
      ensures b == q
    {
      assert b * RowsPerBatch <= p < (b + 1) * RowsPerBatch;
    }
    Layout.MulMonotone(RowsPerBatch, NumBatches(rows), q);
  }

  /** The rows written before batch `b`. */
  function Written(rows: nat, b: nat): nat
  {
    if BatchStart(b) < rows then BatchStart(b) else rows
  }

  /** Only the last batch is short, and it ends at `rows`. */
  lemma BatchesContiguous(rows: nat, b: nat)
    requires b < NumBatches(rows)
    ensures BatchStart(b) < BatchEnd(rows, b)
    ensures b + 1 < NumBatches(rows) ==> BatchEnd(rows, b) == BatchStart(b + 1)
    ensures b + 1 == NumBatches(rows) ==> BatchEnd(rows, b) == rows
    ensures Written(rows, b) == BatchStart(b) && Written(rows, b + 1) == BatchEnd(rows, b)
  {
    var nb := NumBatches(rows);
    assert b * RowsPerBatch <= (nb - 1) * RowsPerBatch;
    if b + 1 < nb {
      assert (b + 1) * RowsPerBatch <= (nb - 1) * RowsPerBatch;
    } else {
      assert (b + 1) * RowsPerBatch >= rows;
    }
  }

  /** The export: `zero_genes` in some order, then either the failed shape
      assertion or the lines written. */
  method ExportTable(patients: seq<string>, geneNames: seq<string>, allGeneNames: set<string>,
                     arr: seq<seq<int>>, cols: nat)
    returns (zeroGenes: seq<string>, r: Result<seq<string>>)
    requires forall i :: 0 <= i < |arr| ==> |arr[i]| == cols
    ensures forall g :: g in zeroGenes <==> g in allGeneNames && g !in geneNames
    ensures forall p, q :: 0 <= p < q < |zeroGenes| ==> zeroGenes[p] != zeroGenes[q]
    ensures r.Err? <==> |patients| != |arr| || |geneNames| != cols
    ensures r.Err? ==> r.error == AssertionError
    ensures r.Ok? ==> r.value == [Header(geneNames, zeroGenes)] + Rows(patients, arr, |zeroGenes|)
  {
    zeroGenes := Layout.Enumerate(allGeneNames - set g | g in geneNames);
    if |patients| != |arr| || |geneNames| != cols {
      return zeroGenes, Err(AssertionError);
    }
    ghost var all := Rows(patients, arr, |zeroGenes|);
    var n := |arr|;
    var lines := [Header(geneNames, zeroGenes)];
    var nb := NumBatches(n);
    for b := 0 to nb
      invariant lines == [Header(geneNames, zeroGenes)] + all[..Written(n, b)]
    {
      BatchesContiguous(n, b);
      var start := BatchStart(b);
      var end := BatchEnd(n, b);
      lines := WriteBatch(patients, arr, |zeroGenes|, lines, start, end);
      assert all[..end] == all[..start] + all[start..end];
    }
    assert all[..n] == all;
    return zeroGenes, Ok(lines);
  }

  /** The inner loop: the lines of individuals `start` to `end - 1`. */
  method WriteBatch(patients: seq<string>, arr: seq<seq<int>>, nZero: nat, lines: seq<string>, start: nat, end: nat)
    returns (out: seq<string>)
    requires |patients| == |arr| && start <= end <= |arr|
    ensures out == lines + Rows(patients, arr, nZero)[start..end]
  {
    out := lines;
    for i := 0 to end - start
      invariant out == lines + Rows(patients, arr, nZero)[start..start + i]
    {
      out := out + [Row(patients[i + start], arr[i + start], nZero)];
    }
  }

  lemma IntToStringNoComma(v: int)
    ensures ',' !in IntToString(v)
  {
    var s := NatToString(if v < 0 then -v else v);
    assert forall k :: 0 <= k < |s| ==> IsDigit(s[k]);
    if v < 0 {
      assert IntToString(v) == "-" + s;
    }
  }

  /** `"x," + ",".join(names)` is the join of `x` and the columns. */
  lemma JoinAfterFirst(first: string, names: seq<string>)
    ensures first + "," + Join(names, ",") == Join([first] + Columns(names), ",")
  {
    var parts := [first] + Columns(names);
    assert parts[0] == first && parts[1..] == Columns(names);
  }

  /** With no `,` in the gene names, splitting the header on `,` gives
      back `s` and the gene columns. */
  lemma HeaderFields(geneNames: seq<string>, zeroGenes: seq<string>)
    requires forall j :: 0 <= j < |geneNames| ==> ',' !in geneNames[j]
    requires forall j :: 0 <= j < |zeroGenes| ==> ',' !in zeroGenes[j]
    ensures SplitOn(Header(geneNames, zeroGenes), ",") == ["s"] + Columns(geneNames + zeroGenes)
  {
    var names := geneNames + zeroGenes;
    var head := ["s"] + Columns(names);
    JoinAfterFirst("s", names);
    forall j | 0 <= j < |head| ensures ',' !in head[j] {
      if j > 0 && names != [] {
        assert head[j] == names[j - 1];
        if j - 1 >= |geneNames| {
          assert names[j - 1] == zeroGenes[j - 1 - |geneNames|];
        }
      }
    }
    SplitOnJoinChar(head, ',');
  }

  /** With no `,` in the id, splitting a row on `,` gives back the id, the
      values and one `0` per zero gene. */
  lemma RowFields(patient: string, values: seq<int>, nZero: nat)
    requires ',' !in patient
    ensures SplitOn(Row(patient, values, nZero), ",") == [patient] + Columns(Cells(values) + Zeros(nZero))
  {
    var cells := Cells(values) + Zeros(nZero);
    var line := [patient] + Columns(cells);
    JoinAfterFirst(patient, cells);
    forall j | 0 <= j < |line| ensures ',' !in line[j] {
      if j > 0 && cells != [] {
        assert line[j] == cells[j - 1];
        if j - 1 < |values| {
          IntToStringNoComma(Scoring.ToInt8(values[j - 1]));
        } else {
          assert cells[j - 1] == "0";
        }
      }
    }
    SplitOnJoinChar(line, ',');
  }

  /** Every row has as many fields as the header. */
  lemma RowMatchesHeader(patient: string, values: seq<int>, geneNames: seq<string>, zeroGenes: seq<string>)
    requires |values| == |geneNames|
    requires ',' !in patient
    requires forall j :: 0 <= j < |geneNames| ==> ',' !in geneNames[j]
    requires forall j :: 0 <= j < |zeroGenes| ==> ',' !in zeroGenes[j]
    ensures |SplitOn(Row(patient, values, |zeroGenes|), ",")| == |SplitOn(Header(geneNames, zeroGenes), ",")|
  {
    HeaderFields(geneNames, zeroGenes);
    RowFields(patient, values, |zeroGenes|);
  }
}
