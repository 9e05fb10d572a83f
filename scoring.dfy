/** The per-cell score of `_chr_table` (analysis/cmd/split_vep.py): the
    rows of one gene are grouped per individual, the high-confidence (HC)
    loss-of-function calls are aggregated, and the cell becomes 0, 1 or 2. */
module Scoring {
  import opened Outcomes

  /** A diploid genotype call by allele indices (0 is the reference). */
  datatype Genotype = Diploid(a0: nat, a1: nat)

  /** One variant row of a gene as seen by one individual: the call, which
      may be missing, and whether the row's consequence is rated `HC`. */
  datatype Variant = Variant(gt: Option<Genotype>, hc: bool)

  /** `GT.n_alt_alleles()`. */
  function NAlt(g: Genotype): (n: nat)
    ensures n <= 2
    ensures n == 0 <==> g.a0 == 0 && g.a1 == 0
    ensures n == 2 <==> g.a0 != 0 && g.a1 != 0
  {
    (if g.a0 != 0 then 1 else 0) + (if g.a1 != 0 then 1 else 0)
  }

  /** `GT.is_het()`. */
  predicate IsHet(g: Genotype)
  {
    g.a0 != g.a1
  }

  /** An HC row on which the individual carries no reference allele. */
  predicate HcHomAlt(v: Variant)
  {
    v.gt.Some? && v.hc && NAlt(v.gt.value) == 2
  }

  /** An HC row on which the individual is heterozygous. */
  predicate HcHet(v: Variant)
  {
    v.gt.Some? && v.hc && IsHet(v.gt.value)
  }

  /** `hl.agg.max(n_alt_alleles * (lof == 'HC'))`: missing calls are
      skipped, and a group with no call at all has no maximum. */
  function HcHomN(rows: seq<Variant>): (m: Option<nat>)
    ensures m.Some? ==> m.value <= 2
    ensures m.None? <==> forall i :: 0 <= i < |rows| ==> rows[i].gt.None?
  {
    if rows == [] then None
    else
      var rest := HcHomN(rows[1..]);
      match rows[0].gt
      case None =>
        assert forall i :: 1 <= i < |rows| ==> rows[i] == rows[1..][i - 1];
        rest
      case Some(g) =>
        var here := if rows[0].hc then NAlt(g) else 0;
        if rest.Some? && rest.value > here then rest else Some(here)
  }

  /** `hl.agg.sum(is_het * (lof == 'HC'))`: missing calls count nothing. */
  function HcHetN(rows: seq<Variant>): (n: nat)
    ensures n <= |rows|
  {
    if rows == [] then 0
    else (if HcHet(rows[0]) then 1 else 0) + HcHetN(rows[1..])
  }

  /** The cell value: 2 when `hc_lof_hom_n == 2` (a missing maximum counts
      as false), otherwise `min(hc_lof_n_het, 2)`. */
  function CellValue(rows: seq<Variant>): (v: int)
    ensures 0 <= v <= 2
  {
    if HcHomN(rows) == Some(2) then 2
    else if HcHetN(rows) < 2 then HcHetN(rows) else 2
  }

  /** The maximum is 2 exactly when some HC row is homozygous alternate. */
  lemma {:induction false} HcHomNTwoIff(rows: seq<Variant>)
    ensures HcHomN(rows) == Some(2) <==> exists i :: 0 <= i < |rows| && HcHomAlt(rows[i])
  {
    if rows != [] {
      HcHomNTwoIff(rows[1..]);
      assert forall i :: 1 <= i < |rows| ==> rows[i] == rows[1..][i - 1];
      if exists i :: 0 <= i < |rows| && HcHomAlt(rows[i]) {
        var i :| 0 <= i < |rows| && HcHomAlt(rows[i]);
        if i > 0 {
          assert HcHomAlt(rows[1..][i - 1]);
        }
      }
    }
  }

  /** No HC heterozygous row means a zero count, and the count reaches one
      only with such a row. */
  lemma {:induction false} HcHetNZeroIff(rows: seq<Variant>)
    ensures HcHetN(rows) == 0 <==> forall i :: 0 <= i < |rows| ==> !HcHet(rows[i])
  {
    if rows != [] {
      HcHetNZeroIff(rows[1..]);
      assert forall i :: 1 <= i < |rows| ==> rows[i] == rows[1..][i - 1];
    }
  }

  /** 2: an HC homozygous-alternate row, or at least two HC heterozygous
      rows. */
  lemma CellValueTwoIff(rows: seq<Variant>)
    ensures CellValue(rows) == 2 <==>
            (exists i :: 0 <= i < |rows| && HcHomAlt(rows[i])) || HcHetN(rows) >= 2
  {
    HcHomNTwoIff(rows);
  }

  /** 0: every called HC row of the gene is homozygous reference. */
  lemma CellValueZeroIff(rows: seq<Variant>)
    ensures CellValue(rows) == 0 <==>
            forall i :: 0 <= i < |rows| && rows[i].gt.Some? && rows[i].hc ==> NAlt(rows[i].gt.value) == 0
  {
    HcHomNTwoIff(rows);
    HcHetNZeroIff(rows);
    if CellValue(rows) == 0 {
      forall i | 0 <= i < |rows| && rows[i].gt.Some? && rows[i].hc
        ensures NAlt(rows[i].gt.value) == 0
      {
        assert !HcHomAlt(rows[i]) && !HcHet(rows[i]);
      }
    } else if HcHomN(rows) == Some(2) {
      var i :| 0 <= i < |rows| && HcHomAlt(rows[i]);
      assert NAlt(rows[i].gt.value) != 0;
    } else {
      var i :| 0 <= i < |rows| && HcHet(rows[i]);
      assert NAlt(rows[i].gt.value) != 0;
    }
  }

  /** `astype(np.int8)` on a cell of the exported matrix. numpy leaves the
      cast of an out-of-range value unspecified; the model wraps it modulo
      256, which only matters outside 0..2, and no cell lies there. */
  function ToInt8(v: int): (r: int)
    ensures -128 <= r < 128
    ensures (r - v) % 256 == 0
    ensures -128 <= v < 128 ==> r == v
  {
    (v + 128) % 256 - 128
  }

  /** The cast to `int8` on export leaves every cell value unchanged. */
  lemma CellValueFitsInt8(rows: seq<Variant>)
    ensures ToInt8(CellValue(rows)) == CellValue(rows)
  {
  }
}
