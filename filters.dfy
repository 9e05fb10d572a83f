/** The row filters of `VCFFilter` (analysis/utils/variant_filtering.py) and
    the order `_chr_table` (analysis/cmd/split_vep.py) applies them in. A
    matrix table is its set of field names and its rows; each filter checks
    the fields it needs, then keeps the rows its predicate accepts. */
module VariantFiltering {
  import opened Outcomes

  /** The genotype entry of one sample: heterozygous or not, the allele
      depths `AD` and the read depth `DP`. */
  datatype Entry = Entry(isHet: bool, ad: seq<nat>, dp: nat)

  /** A variant row: its entries and the row fields the filters read. */
  datatype Row = Row(entries: seq<Entry>, callRate: real, pHwe: real, wasSplit: bool)

  datatype Table = Table(fields: set<string>, rows: seq<Row>)

  const VariantQc: string := "variant_qc"
  const WasSplit: string := "was_split"

  function MissingField(name: string): PyError
  {
    ValueError("MatrixTable has no attribute '" + name + "'")
  }

  // ---------------------------------------------------------------------
  // Keeping rows

  /** `filter_rows`: the rows `keep` accepts, in their order. */
  function Keep(rows: seq<Row>, keep: Row -> bool): (r: seq<Row>)
    ensures forall x :: x in r <==> x in rows && keep(x)
  {
    if rows == [] then []
    else
      var rest := Keep(rows[1..], keep);
      assert rows == [rows[0]] + rows[1..];
      if keep(rows[0]) then [rows[0]] + rest else rest
  }

  /** Filtering again with the same predicate changes nothing. */
  lemma {:induction false} KeepIdempotent(rows: seq<Row>, keep: Row -> bool)
    ensures Keep(Keep(rows, keep), keep) == Keep(rows, keep)
  {
    if rows != [] {
      KeepIdempotent(rows[1..], keep);
    }
  }

  /** Two filters in a row keep what their conjunction keeps. */
  lemma {:induction false} KeepCompose(rows: seq<Row>, p: Row -> bool, q: Row -> bool)
    ensures Keep(Keep(rows, p), q) == Keep(rows, (x: Row) => p(x) && q(x))
  {
    if rows != [] {
      KeepCompose(rows[1..], p, q);
    }
  }

  lemma KeepCons(x: Row, rest: seq<Row>, keep: Row -> bool)
    ensures Keep([x] + rest, keep) == (if keep(x) then [x] else []) + Keep(rest, keep)
  {
    assert ([x] + rest)[0] == x && ([x] + rest)[1..] == rest;
  }

  /** Filtering distributes over concatenation, so kept rows stay in
      their order. */
  lemma {:induction false} KeepAppend(a: seq<Row>, b: seq<Row>, keep: Row -> bool)
    ensures Keep(a + b, keep) == Keep(a, keep) + Keep(b, keep)
  {
    if a == [] {
      assert a + b == b;
    } else {
      KeepAppend(a[1..], b, keep);
      assert a == [a[0]] + a[1..];
      assert a + b == [a[0]] + (a[1..] + b);
      KeepCons(a[0], a[1..], keep);
      KeepCons(a[0], a[1..] + b, keep);
    }
  }

  // ---------------------------------------------------------------------
  // Row predicates

  function SumDp(es: seq<Entry>): nat
  {
    if es == [] then 0 else es[0].dp + SumDp(es[1..])
  }

  function Sum(xs: seq<nat>): nat
  {
    if xs == [] then 0 else xs[0] + Sum(xs[1..])
  }

  function Min(xs: seq<nat>): (m: nat)
    requires xs != []
    ensures m in xs && forall k :: 0 <= k < |xs| ==> m <= xs[k]
  {
    if |xs| == 1 then xs[0]
    else
      var rest := Min(xs[1..]);
      assert forall k :: 1 <= k < |xs| ==> xs[k] == xs[1..][k - 1];
      if xs[0] <= rest then xs[0] else rest
  }

  /** `hl.agg.mean(DP) >= min_depth`. A row without entries has no mean
      (NaN), and NaN compares false. */
  predicate DepthOk(row: Row, minDepth: real)
  {
    |row.entries| > 0 && (SumDp(row.entries) as real) / (|row.entries| as real) >= minDepth
  }

  /** `min(AD) / sum(AD) >= min_ratio`; a zero total gives NaN, which
      compares false. */
  predicate Balanced(ad: seq<nat>, minRatio: real)
  {
    Sum(ad) > 0 && ad != [] && (Min(ad) as real) / (Sum(ad) as real) >= minRatio
  }

  /** Some heterozygous entry is balanced, or no entry is heterozygous. */
  predicate BalanceOk(row: Row, minRatio: real)
  {
    (exists k :: 0 <= k < |row.entries| && row.entries[k].isHet && Balanced(row.entries[k].ad, minRatio))
    || (forall k :: 0 <= k < |row.entries| ==> !row.entries[k].isHet)
  }

  // ---------------------------------------------------------------------
  // The filters

  /** A mean reaches a bound exactly when the total reaches the bound
      times the count. */
  lemma MeanAtLeast(total: real, count: real, bound: real)
    requires count > 0.0
    ensures total / count >= bound <==> total >= bound * count
  {
    var mean := total / count;
    assert total == mean * count;
    assert (mean - bound) * count == total - bound * count;
    assert mean >= bound <==> (mean - bound) * count >= 0.0;
  }

  /** `mean_read_depth`: no field check. */
  function MeanReadDepth(t: Table, minDepth: real): (r: Table)
    ensures r.fields == t.fields
    ensures forall x :: x in r.rows <==>
              (x in t.rows && |x.entries| > 0 && SumDp(x.entries) as real >= minDepth * |x.entries| as real)
  {
    var r := Table(t.fields, Keep(t.rows, (x: Row) => DepthOk(x, minDepth)));
    forall x: Row | |x.entries| > 0
      ensures DepthOk(x, minDepth) <==> SumDp(x.entries) as real >= minDepth * |x.entries| as real
    {
      MeanAtLeast(SumDp(x.entries) as real, |x.entries| as real, minDepth);
    }
    r
  }

  /** `variant_missingness`: the wrapper checks the column named by
      `qc_col_name`, but the filter itself always reads `variant_qc`. */
  function VariantMissingness(t: Table, minRatio: real, qcColName: string): (r: Result<Table>)
    ensures qcColName !in t.fields ==> r == Err(MissingField(qcColName))
    ensures qcColName in t.fields && VariantQc !in t.fields ==> r == Err(AttributeError(VariantQc))
    ensures r.Ok? <==> qcColName in t.fields && VariantQc in t.fields
    ensures r.Ok? ==> r.value.fields == t.fields
                      && forall x :: x in r.value.rows <==> x in t.rows && x.callRate >= minRatio
  {
    if qcColName !in t.fields then Err(MissingField(qcColName))
    else if VariantQc !in t.fields then Err(AttributeError(VariantQc))
    else Ok(Table(t.fields, Keep(t.rows, (x: Row) => x.callRate >= minRatio)))
  }

  /** `allele_balance`: needs `was_split`; `n_sample` and `sample_ratio`
      are accepted and ignored. */
  function AlleleBalance(t: Table, nSample: int, sampleRatio: Option<real>, minRatio: real): (r: Result<Table>)
    ensures r.Err? <==> WasSplit !in t.fields
    ensures r.Err? ==> r.error == MissingField(WasSplit)
    ensures r.Ok? ==> r.value.fields == t.fields
                      && forall x :: x in r.value.rows <==> x in t.rows && BalanceOk(x, minRatio)
  {
    if WasSplit !in t.fields then Err(MissingField(WasSplit))
    else Ok(Table(t.fields, Keep(t.rows, (x: Row) => BalanceOk(x, minRatio))))
  }

  /** `n_sample` and `sample_ratio` have no effect on `allele_balance`. */
  lemma AlleleBalanceIgnoresSampleArgs(t: Table, n1: int, s1: Option<real>, n2: int, s2: Option<real>, minRatio: real)
    ensures AlleleBalance(t, n1, s1, minRatio) == AlleleBalance(t, n2, s2, minRatio)
  {
  }

  /** `hardy_weinberg`: the outer wrapper checks the qc column, then the
      inner one checks `was_split`, then the filter reads `variant_qc`. */
  function HardyWeinberg(t: Table, minPValue: real, qcColName: string): (r: Result<Table>)
    ensures qcColName !in t.fields ==> r == Err(MissingField(qcColName))
    ensures qcColName in t.fields && WasSplit !in t.fields ==> r == Err(MissingField(WasSplit))
    ensures r.Ok? <==> qcColName in t.fields && WasSplit in t.fields && VariantQc in t.fields
    ensures r.Ok? ==> r.value.fields == t.fields
                      && forall x :: x in r.value.rows <==> x in t.rows && x.pHwe >= minPValue
  {
    if qcColName !in t.fields then Err(MissingField(qcColName))
    else if WasSplit !in t.fields then Err(MissingField(WasSplit))
    else if VariantQc !in t.fields then Err(AttributeError(VariantQc))
    else Ok(Table(t.fields, Keep(t.rows, (x: Row) => x.pHwe >= minPValue)))
  }

  /** With both columns missing, `hardy_weinberg` reports the qc column. */
  lemma HardyWeinbergReportsQcFirst(t: Table, minPValue: real)
    requires VariantQc !in t.fields && WasSplit !in t.fields
    ensures HardyWeinberg(t, minPValue, VariantQc) == Err(MissingField(VariantQc))
  {
  }

  // ---------------------------------------------------------------------
  // The chain in _chr_table

  const MinDepth: real := 7.0
  const MinCallRate: real := 0.1
  const MinPValueHwe: real := 0.000000000000001
  const MinAlleleRatio: real := 0.15

  /** Everything a row must satisfy to come out of the chain. */
  predicate PassesAll(x: Row)
  {
    && |x.entries| > 0 && DepthOk(x, MinDepth)
    && x.callRate >= MinCallRate
    && x.pHwe >= MinPValueHwe
    && BalanceOk(x, MinAlleleRatio)
    && !x.wasSplit
  }

  /** The filters of `_chr_table` in order: read depth, `hl.variant_qc`
      (which adds the qc column), missingness, Hardy-Weinberg, allele
      balance, and finally dropping rows that came from a split
      multi-allelic site. */
  function FilterChain(t: Table): (r: Result<Table>)
  {
    var t1 := MeanReadDepth(t, MinDepth);
    var t2 := Table(t1.fields + {VariantQc}, t1.rows);
    match VariantMissingness(t2, MinCallRate, VariantQc)
    case Err(e) => Err(e)
    case Ok(t3) =>
      match HardyWeinberg(t3, MinPValueHwe, VariantQc)
      case Err(e) => Err(e)
      case Ok(t4) =>
        match AlleleBalance(t4, 1, None, MinAlleleRatio)
        case Err(e) => Err(e)
        case Ok(t5) => Ok(Table(t5.fields, Keep(t5.rows, (x: Row) => !x.wasSplit)))
  }

  /** The chain fails exactly when the table was never split, and then
      keeps exactly the input rows that pass every filter. */
  lemma FilterChainSpec(t: Table)
    ensures FilterChain(t).Err? <==> WasSplit !in t.fields
    ensures FilterChain(t).Err? ==> FilterChain(t).error == MissingField(WasSplit)
    ensures FilterChain(t).Ok? ==>
              forall x :: x in FilterChain(t).value.rows <==> x in t.rows && PassesAll(x)
  {
    var t1 := MeanReadDepth(t, MinDepth);
    forall x | x in t1.rows ensures DepthOk(x, MinDepth) {
      assert x in Keep(t.rows, (y: Row) => DepthOk(y, MinDepth));
    }
  }
}
