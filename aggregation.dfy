/** The readiness decision of `rare_variants_table` in
    analysis/cmd/split_vep.py: for each requested chromosome, every block of
    that chromosome in the manifest must have its annotated table in the
    destination database, and that table must list an entry whose name
    contains `_SUCCESS`. Only then are the tables handed to `_chr_table`.
    The dxpy folder listing is the oracle `listFolder`. */
module Aggregation {
  import opened Outcomes
  import opened Strings
  import DxPath
  import Manifest
  import NaturalSort

  /** What happens to one chromosome: its block tables go to `_chr_table`,
      or it is reported as not ready. */
  datatype Decision = Aggregated(chrom: string, tables: seq<DxPath.PathDx>) | NotReady(chrom: string)

  /** The run as a whole: the destination could not be listed (`No VCF file
      is annotated`), or one decision per requested chromosome. */
  datatype Report = NothingAnnotated | Decided(decisions: seq<Decision>)

  const SuccessMarker: string := "_SUCCESS"

  /** `tmp_path`: the destination database, rooted. */
  function Destination(tmpId: string): DxPath.PathDx
  {
    DxPath.Dnax(tmpId, [])
  }

  /** `tmp_path / mt_name(contig, block)`. */
  function TablePath(tmpId: string, table: string): DxPath.PathDx
  {
    DxPath.Div(Destination(tmpId), table)
  }

  /** The table names of the blocks of `chrom`, in the order of `files`. */
  function BlockTables(files: seq<string>, chrom: string): (r: seq<string>)
    ensures |r| <= |files|
    ensures |files| == 1 ==>
              match Manifest.ParseManifestName(files[0])
              case Some((contig, block)) => r == if contig == chrom then [Manifest.MtName(contig, block)] else []
              case None => r == []
  {
    if files == [] then []
    else
      var prev := BlockTables(files[..|files| - 1], chrom);
      match Manifest.ParseManifestName(files[|files| - 1])
      case None => prev
      case Some((contig, block)) =>
        if contig == chrom then prev + [Manifest.MtName(contig, block)] else prev
  }

  /** `any('_SUCCESS' in file.name for file in path.listdir())`, with a
      failed listing counting as no marker. */
  predicate HasSuccess(path: DxPath.PathDx, listFolder: DxPath.ListFolder)
  {
    match DxPath.ListDirSpec(path, listFolder, [])
    case Err(_) => false
    case Ok(children) => AnySuccess(children)
  }

  /** Some child's name contains `_SUCCESS`. */
  predicate AnySuccess(children: seq<DxPath.PathDx>)
  {
    exists k :: 0 <= k < |children| && Contains(DxPath.Name(children[k]), SuccessMarker)
  }

  /** A block is ready when its table is listed in the destination and
      lists a `_SUCCESS` entry itself. */
  predicate BlockReady(tmpId: string, listFolder: DxPath.ListFolder, tmpPaths: seq<DxPath.PathDx>, table: string)
  {
    TablePath(tmpId, table) in tmpPaths && HasSuccess(TablePath(tmpId, table), listFolder)
  }

  /** The entry `out_mts` receives for one block: the table path, or
      `False` (here `None`) when the table is missing or incomplete. */
  function BlockStatus(tmpId: string, listFolder: DxPath.ListFolder, tmpPaths: seq<DxPath.PathDx>, table: string)
    : (r: Option<DxPath.PathDx>)
    ensures r.Some? <==> TablePath(tmpId, table) in tmpPaths && HasSuccess(TablePath(tmpId, table), listFolder)
    ensures r.Some? ==> r.value == TablePath(tmpId, table)
  {
    if BlockReady(tmpId, listFolder, tmpPaths, table) then Some(TablePath(tmpId, table)) else None
  }

  /** `out_mts` for a list of block tables. */
  function Statuses(tmpId: string, listFolder: DxPath.ListFolder, tmpPaths: seq<DxPath.PathDx>, tables: seq<string>)
    : (r: seq<Option<DxPath.PathDx>>)
    ensures |r| == |tables|
  {
    seq(|tables|, i requires 0 <= i < |tables| => BlockStatus(tmpId, listFolder, tmpPaths, tables[i]))
  }

  /** `if all(out_mts): _chr_table(...)`. With no block at all, `all([])`
      holds and `_chr_table` fails in `reduce` on an empty sequence. */
  function Decide(chrom: string, outMts: seq<Option<DxPath.PathDx>>): (r: Result<Decision>)
  {
    if forall i :: 0 <= i < |outMts| ==> outMts[i].Some? then
      if outMts == [] then Err(EmptyReduce)
      else Ok(Aggregated(chrom, seq(|outMts|, i requires 0 <= i < |outMts| => outMts[i].value)))
    else Ok(NotReady(chrom))
  }

  /** The decision for one chromosome. */
  function ChromDecision(tmpId: string, listFolder: DxPath.ListFolder, tmpPaths: seq<DxPath.PathDx>,
                         files: seq<string>, chrom: string): Result<Decision>
  {
    Decide(chrom, Statuses(tmpId, listFolder, tmpPaths, BlockTables(files, chrom)))
  }

  /** The decisions for `chrs` in order; an exception stops the loop. */
  function Decisions(tmpId: string, listFolder: DxPath.ListFolder, tmpPaths: seq<DxPath.PathDx>,
                     files: seq<string>, chrs: seq<string>): (r: Result<seq<Decision>>)
    ensures r.Ok? ==> |r.value| == |chrs|
  {
    if chrs == [] then Ok([])
    else
      var prev :- Decisions(tmpId, listFolder, tmpPaths, files, chrs[..|chrs| - 1]);
      var d :- ChromDecision(tmpId, listFolder, tmpPaths, files, chrs[|chrs| - 1]);
      Ok(prev + [d])
  }

  /** `rare_variants_table` on the manifest listing `listing`. */
  function RareVariantsSpec(tmpId: string, listFolder: DxPath.ListFolder, listing: seq<string>, chrs: seq<string>)
    : Result<Report>
  {
    match DxPath.ListDirSpec(Destination(tmpId), listFolder, [])
    case Err(_) => Ok(NothingAnnotated)
    case Ok(tmpPaths) =>
      var ds :- Decisions(tmpId, listFolder, tmpPaths, NaturalSort.SortByKey(listing), chrs);
      Ok(Decided(ds))
  }

  // ---------------------------------------------------------------------
  // The loops

  /** The `any(...)` over a listed table. */
  method FindSuccess(children: seq<DxPath.PathDx>) returns (has: bool)
    ensures has == AnySuccess(children)
  {
    has := false;
    for k := 0 to |children|
      invariant has <==> exists k' :: 0 <= k' < k && Contains(DxPath.Name(children[k']), SuccessMarker)
    {
      if Contains(DxPath.Name(children[k]), SuccessMarker) {
        has := true;
      }
    }
  }

  /** `has_success` for one table path: a failed listing counts as none. */
  method CheckSuccess(path: DxPath.PathDx, listFolder: DxPath.ListFolder) returns (has: bool)
    ensures has == HasSuccess(path, listFolder)
  {
    var listed := DxPath.ListDir(path, listFolder, []);
    if listed.Err? {
      return false;
    }
    has := FindSuccess(listed.value);
  }

  /** The `all(out_mts)` test and what follows it, for one chromosome. */
  method DecideChrom(chrom: string, outMts: seq<Option<DxPath.PathDx>>) returns (r: Result<Decision>)
    ensures r == Decide(chrom, outMts)
  {
    var allReady := true;
    for i := 0 to |outMts|
      invariant allReady <==> forall i' :: 0 <= i' < i ==> outMts[i'].Some?
    {
      if outMts[i].None? {
        allReady := false;
      }
    }
    if !allReady {
      return Ok(NotReady(chrom));
    }
    if outMts == [] {
      return Err(EmptyReduce);
    }
    return Ok(Aggregated(chrom, seq(|outMts|, i requires 0 <= i < |outMts| => outMts[i].value)));
  }

  /** The inner loop over the manifest files for one chromosome. */
  method CollectBlocks(tmpId: string, listFolder: DxPath.ListFolder, tmpPaths: seq<DxPath.PathDx>,
                       files: seq<string>, chrom: string)
    returns (outMts: seq<Option<DxPath.PathDx>>)
    ensures outMts == Statuses(tmpId, listFolder, tmpPaths, BlockTables(files, chrom))
  {
    outMts := [];
    for j := 0 to |files|
      invariant outMts == Statuses(tmpId, listFolder, tmpPaths, BlockTables(files[..j], chrom))
    {
      assert files[..j + 1][..j] == files[..j];
      var m := Manifest.ParseManifestName(files[j]);
      if m.Some? {
        var (contig, block) := m.value;
        if contig == chrom {
          var table := Manifest.MtName(contig, block);
          var path := TablePath(tmpId, table);
          var ready := false;
          if path in tmpPaths {
            ready := CheckSuccess(path, listFolder);
          }
          outMts := outMts + [if ready then Some(path) else None];
        }
      }
    }
    assert files[..|files|] == files;
  }

  /** `rare_variants_table`: list the destination, then decide chromosome
      by chromosome. */
  method RareVariantsTable(tmpId: string, listFolder: DxPath.ListFolder, listing: seq<string>, chrs: seq<string>)
    returns (r: Result<Report>)
    ensures r == RareVariantsSpec(tmpId, listFolder, listing, chrs)
  {
    var tmpList := DxPath.ListDir(Destination(tmpId), listFolder, []);
    if tmpList.Err? {
      return Ok(NothingAnnotated);
    }
    var ds := DecideAll(tmpId, listFolder, tmpList.value, NaturalSort.SortByKey(listing), chrs);
    if ds.Err? {
      return Err(ds.error);
    }
    return Ok(Decided(ds.value));
  }

  /** The outer loop over the requested chromosomes. */
  method DecideAll(tmpId: string, listFolder: DxPath.ListFolder, tmpPaths: seq<DxPath.PathDx>,
                   files: seq<string>, chrs: seq<string>)
    returns (r: Result<seq<Decision>>)
    ensures r == Decisions(tmpId, listFolder, tmpPaths, files, chrs)
  {
    var decisions: seq<Decision> := [];
    for c := 0 to |chrs|
      invariant Decisions(tmpId, listFolder, tmpPaths, files, chrs[..c]) == Ok(decisions)
    {
      assert chrs[..c + 1][..c] == chrs[..c];
      var outMts := CollectBlocks(tmpId, listFolder, tmpPaths, files, chrs[c]);
      var d := DecideChrom(chrs[c], outMts);
      if d.Err? {
        DecisionsStopAtError(tmpId, listFolder, tmpPaths, files, chrs, c + 1);
        return Err(d.error);
      }
      decisions := decisions + [d.value];
    }
    assert chrs[..|chrs|] == chrs;
    return Ok(decisions);
  }

  /** Once a chromosome fails, the later ones are never reached. */
  lemma {:induction false} DecisionsStopAtError(tmpId: string, listFolder: DxPath.ListFolder, tmpPaths: seq<DxPath.PathDx>,
                                                files: seq<string>, chrs: seq<string>, k: nat)
    requires k <= |chrs| && Decisions(tmpId, listFolder, tmpPaths, files, chrs[..k]).Err?
    ensures Decisions(tmpId, listFolder, tmpPaths, files, chrs) == Decisions(tmpId, listFolder, tmpPaths, files, chrs[..k])
    decreases |chrs| - k
  {
    if k < |chrs| {
      var init := chrs[..|chrs| - 1];
      assert init[..k] == chrs[..k];
      DecisionsStopAtError(tmpId, listFolder, tmpPaths, files, init, k);
    } else {
      assert chrs[..k] == chrs;
    }
  }


  // ---------------------------------------------------------------------
  // What the decision means

  /** A chromosome is aggregated exactly when it has blocks and every one
      of them is ready; the tables handed on are its block paths in
      manifest order. */
  lemma AggregatedIff(tmpId: string, listFolder: DxPath.ListFolder, tmpPaths: seq<DxPath.PathDx>,
                      files: seq<string>, chrom: string)
    ensures var tables := BlockTables(files, chrom);
            var d := ChromDecision(tmpId, listFolder, tmpPaths, files, chrom);
            && (d.Ok? && d.value.Aggregated? <==>
                  tables != [] && forall i :: 0 <= i < |tables| ==> BlockReady(tmpId, listFolder, tmpPaths, tables[i]))
            && (d.Ok? && d.value.Aggregated? ==>
                  d.value.chrom == chrom
                  && d.value.tables == seq(|tables|, i requires 0 <= i < |tables| => TablePath(tmpId, tables[i])))
  {
    var tables := BlockTables(files, chrom);
    var outMts := Statuses(tmpId, listFolder, tmpPaths, tables);
    assert forall i :: 0 <= i < |tables| ==> (outMts[i].Some? <==> BlockReady(tmpId, listFolder, tmpPaths, tables[i]));
  }

  /** `all(out_mts)` fails exactly when some entry is `False`. */
  lemma DecideNotReady(chrom: string, outMts: seq<Option<DxPath.PathDx>>)
    ensures Decide(chrom, outMts) == Ok(NotReady(chrom)) <==> exists i :: 0 <= i < |outMts| && outMts[i].None?
  {
  }

  /** A chromosome is not ready exactly when one of its blocks is missing
      from the destination or has no `_SUCCESS` entry. */
  lemma NotReadyIff(tmpId: string, listFolder: DxPath.ListFolder, tmpPaths: seq<DxPath.PathDx>,
                    files: seq<string>, chrom: string)
    ensures ChromDecision(tmpId, listFolder, tmpPaths, files, chrom) == Ok(NotReady(chrom)) <==>
              exists i :: 0 <= i < |BlockTables(files, chrom)| &&
                          !BlockReady(tmpId, listFolder, tmpPaths, BlockTables(files, chrom)[i])
  {
    if exists i :: 0 <= i < |BlockTables(files, chrom)| &&
                   !BlockReady(tmpId, listFolder, tmpPaths, BlockTables(files, chrom)[i]) {
      var i :| 0 <= i < |BlockTables(files, chrom)| &&
               !BlockReady(tmpId, listFolder, tmpPaths, BlockTables(files, chrom)[i]);
      NotReadyAt(tmpId, listFolder, tmpPaths, files, chrom, i);
    } else {
      AllReady(tmpId, listFolder, tmpPaths, files, chrom);
    }
  }

  /** One block that is not ready makes `all(out_mts)` fail. */
  lemma NotReadyAt(tmpId: string, listFolder: DxPath.ListFolder, tmpPaths: seq<DxPath.PathDx>,
                   files: seq<string>, chrom: string, i: nat)
    requires i < |BlockTables(files, chrom)| && !BlockReady(tmpId, listFolder, tmpPaths, BlockTables(files, chrom)[i])
    ensures ChromDecision(tmpId, listFolder, tmpPaths, files, chrom) == Ok(NotReady(chrom))
  {
    var tables := BlockTables(files, chrom);
    var outMts := Statuses(tmpId, listFolder, tmpPaths, tables);
    assert outMts[i] == BlockStatus(tmpId, listFolder, tmpPaths, tables[i]);
  }

  /** With every block ready, `all(out_mts)` holds. */
  lemma AllReady(tmpId: string, listFolder: DxPath.ListFolder, tmpPaths: seq<DxPath.PathDx>,
                 files: seq<string>, chrom: string)
    requires forall i :: 0 <= i < |BlockTables(files, chrom)| ==>
               BlockReady(tmpId, listFolder, tmpPaths, BlockTables(files, chrom)[i])
    ensures ChromDecision(tmpId, listFolder, tmpPaths, files, chrom) != Ok(NotReady(chrom))
  {
    var tables := BlockTables(files, chrom);
    var outMts := Statuses(tmpId, listFolder, tmpPaths, tables);
    forall i | 0 <= i < |outMts| ensures outMts[i].Some? {
      assert outMts[i] == BlockStatus(tmpId, listFolder, tmpPaths, tables[i]);
    }
  }

  /** A requested chromosome without any block in the manifest makes
      `_chr_table` fail, and the run stops there. */
  lemma NoBlocksFails(tmpId: string, listFolder: DxPath.ListFolder, tmpPaths: seq<DxPath.PathDx>,
                      files: seq<string>, chrs: seq<string>, c: nat)
    requires c < |chrs| && BlockTables(files, chrs[c]) == []
    ensures Decisions(tmpId, listFolder, tmpPaths, files, chrs).Err?
  {
    assert ChromDecision(tmpId, listFolder, tmpPaths, files, chrs[c]).Err?;
    DecisionsOkIff(tmpId, listFolder, tmpPaths, files, chrs);
  }

  /** Each block table named for a chromosome comes from a manifest file
      of that chromosome. */
  lemma {:induction false} BlockTablesFromManifest(files: seq<string>, chrom: string, i: nat)
    requires i < |BlockTables(files, chrom)|
    ensures exists j, block :: 0 <= j < |files| && Manifest.ParseManifestName(files[j]) == Some((chrom, block))
                               && BlockTables(files, chrom)[i] == Manifest.MtName(chrom, block)
  {
    var init := files[..|files| - 1];
    var prev := BlockTables(init, chrom);
    if i < |prev| {
      BlockTablesFromManifest(init, chrom, i);
      var j, block :| 0 <= j < |init| && Manifest.ParseManifestName(init[j]) == Some((chrom, block))
                      && prev[i] == Manifest.MtName(chrom, block);
      assert files[j] == init[j];
    } else {
      var last := files[|files| - 1];
      var block := Manifest.ParseManifestName(last).value.1;
      assert Manifest.ParseManifestName(files[|files| - 1]) == Some((chrom, block));
    }
  }

  /** The block tables of two runs of manifest files are those of the first
      followed by those of the second: the tables come in file order. */
  lemma {:induction false} BlockTablesAppend(a: seq<string>, b: seq<string>, chrom: string)
    ensures BlockTables(a + b, chrom) == BlockTables(a, chrom) + BlockTables(b, chrom)
    decreases |b|
  {
    if b == [] {
      assert a + b == a;
    } else {
      var init := b[..|b| - 1];
      assert (a + b)[..|a + b| - 1] == a + init;
      assert (a + b)[|a + b| - 1] == b[|b| - 1];
      BlockTablesAppend(a, init, chrom);
    }
  }

  /** Every manifest file of the chromosome contributes its table, at the
      position after the tables of the files before it. */
  lemma BlockTablesComplete(files: seq<string>, chrom: string, j: nat, block: string)
    requires j < |files| && Manifest.ParseManifestName(files[j]) == Some((chrom, block))
    ensures var before := BlockTables(files[..j], chrom);
            |before| < |BlockTables(files, chrom)|
            && BlockTables(files, chrom)[|before|] == Manifest.MtName(chrom, block)
  {
    assert files == files[..j] + [files[j]] + files[j + 1..];
    BlockTablesAppend(files[..j] + [files[j]], files[j + 1..], chrom);
    BlockTablesAppend(files[..j], [files[j]], chrom);
    assert BlockTables([files[j]], chrom) == [Manifest.MtName(chrom, block)];
  }

  /** One more chromosome: its decision is appended, or the first error is kept. */
  lemma DecisionsSnoc(tmpId: string, listFolder: DxPath.ListFolder, tmpPaths: seq<DxPath.PathDx>,
                      files: seq<string>, chrs: seq<string>)
    requires chrs != []
    ensures var prev := Decisions(tmpId, listFolder, tmpPaths, files, chrs[..|chrs| - 1]);
            var d := ChromDecision(tmpId, listFolder, tmpPaths, files, chrs[|chrs| - 1]);
            Decisions(tmpId, listFolder, tmpPaths, files, chrs)
              == if prev.Err? then Err(prev.error) else if d.Err? then Err(d.error) else Ok(prev.value + [d.value])
  {
  }

  /** The decisions succeed exactly when every chromosome's decision does. */
  lemma {:induction false} DecisionsOkIff(tmpId: string, listFolder: DxPath.ListFolder, tmpPaths: seq<DxPath.PathDx>,
                                          files: seq<string>, chrs: seq<string>)
    ensures Decisions(tmpId, listFolder, tmpPaths, files, chrs).Ok? <==>
              forall k :: 0 <= k < |chrs| ==> ChromDecision(tmpId, listFolder, tmpPaths, files, chrs[k]).Ok?
    decreases |chrs|
  {
    if chrs != [] {
      var n := |chrs| - 1;
      var init := chrs[..n];
      DecisionsOkIff(tmpId, listFolder, tmpPaths, files, init);
      DecisionsSnoc(tmpId, listFolder, tmpPaths, files, chrs);
      var prev := Decisions(tmpId, listFolder, tmpPaths, files, init);
      if Decisions(tmpId, listFolder, tmpPaths, files, chrs).Ok? {
        forall k | 0 <= k < |chrs|
          ensures ChromDecision(tmpId, listFolder, tmpPaths, files, chrs[k]).Ok?
        {
          if k < n {
            assert init[k] == chrs[k];
          }
        }
      } else if prev.Err? {
        var k :| 0 <= k < n && !ChromDecision(tmpId, listFolder, tmpPaths, files, init[k]).Ok?;
        assert init[k] == chrs[k];
      }
    }
  }

  /** On success the decisions for all but the last chromosome come first. */
  lemma DecisionsPrefix(tmpId: string, listFolder: DxPath.ListFolder, tmpPaths: seq<DxPath.PathDx>,
                        files: seq<string>, chrs: seq<string>)
    requires chrs != []
    ensures var r := Decisions(tmpId, listFolder, tmpPaths, files, chrs);
            var prev := Decisions(tmpId, listFolder, tmpPaths, files, chrs[..|chrs| - 1]);
            r.Ok? ==> prev.Ok? && prev.value == r.value[..|chrs| - 1]
  {
    DecisionsSnoc(tmpId, listFolder, tmpPaths, files, chrs);
  }

  /** On success the last decision is the last chromosome's. */
  lemma DecisionLast(tmpId: string, listFolder: DxPath.ListFolder, tmpPaths: seq<DxPath.PathDx>,
                     files: seq<string>, chrs: seq<string>)
    requires chrs != []
    ensures var r := Decisions(tmpId, listFolder, tmpPaths, files, chrs);
            r.Ok? ==> ChromDecision(tmpId, listFolder, tmpPaths, files, chrs[|chrs| - 1]) == Ok(r.value[|chrs| - 1])
  {
    DecisionsSnoc(tmpId, listFolder, tmpPaths, files, chrs);
  }

  /** On success the k-th decision is the k-th chromosome's. */
  lemma {:induction false} DecisionAt(tmpId: string, listFolder: DxPath.ListFolder, tmpPaths: seq<DxPath.PathDx>,
                                      files: seq<string>, chrs: seq<string>, k: nat)
    requires k < |chrs|
    ensures var r := Decisions(tmpId, listFolder, tmpPaths, files, chrs);
            r.Ok? ==> ChromDecision(tmpId, listFolder, tmpPaths, files, chrs[k]) == Ok(r.value[k])
    decreases |chrs|
  {
    var n := |chrs| - 1;
    if k == n {
      DecisionLast(tmpId, listFolder, tmpPaths, files, chrs);
    } else {
      var init := chrs[..n];
      DecisionsPrefix(tmpId, listFolder, tmpPaths, files, chrs);
      DecisionAt(tmpId, listFolder, tmpPaths, files, init, k);
      assert init[k] == chrs[k];
    }
  }

  /** On failure the error is that of the first chromosome whose decision fails. */
  lemma {:induction false} DecisionsFirstError(tmpId: string, listFolder: DxPath.ListFolder, tmpPaths: seq<DxPath.PathDx>,
                                               files: seq<string>, chrs: seq<string>)
    ensures var r := Decisions(tmpId, listFolder, tmpPaths, files, chrs);
            r.Err? ==> exists k :: 0 <= k < |chrs|
                         && ChromDecision(tmpId, listFolder, tmpPaths, files, chrs[k]) == Err(r.error)
                         && forall j :: 0 <= j < k ==> ChromDecision(tmpId, listFolder, tmpPaths, files, chrs[j]).Ok?
    decreases |chrs|
  {
    if chrs != [] {
      var n := |chrs| - 1;
      var init := chrs[..n];
      assert forall k :: 0 <= k < n ==> init[k] == chrs[k];
      DecisionsFirstError(tmpId, listFolder, tmpPaths, files, init);
      DecisionsOkIff(tmpId, listFolder, tmpPaths, files, init);
      DecisionsSnoc(tmpId, listFolder, tmpPaths, files, chrs);
      var prev := Decisions(tmpId, listFolder, tmpPaths, files, init);
      if prev.Err? {
        var k :| 0 <= k < n && ChromDecision(tmpId, listFolder, tmpPaths, files, init[k]) == Err(prev.error)
                 && forall j :: 0 <= j < k ==> ChromDecision(tmpId, listFolder, tmpPaths, files, init[j]).Ok?;
        assert ChromDecision(tmpId, listFolder, tmpPaths, files, chrs[k]) == Err(prev.error);
      }
    }
  }
}
