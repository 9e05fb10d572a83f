/** The annotation driver `annotate_vcf` of analysis/cmd/split_vep.py. It
    walks the manifest files in natural order; for each block of a
    requested chromosome whose table is not yet in the destination
    database, it stages a copy of the file, annotates it, retries once with
    shuffling permitted, and removes the staged copy unless both attempts
    failed. Staging onto a copy left by an earlier run raises and ends the
    run. Annotation itself (import, split, VEP, write) is an oracle. */
module AnnotationDriver {
  import opened Outcomes
  import Manifest
  import NaturalSort

  /** What one `split_annotate` call leaves behind: a complete table, or a
      failure that may have left an incomplete table (one without the
      `_SUCCESS` marker) in the destination. */
  datatype Outcome = Written | Failed(leftPartial: bool)

  /** The oracle: the outcome of annotating a file, by file name and by
      whether shuffling is permitted. */
  type Annotate = (string, bool) -> Outcome

  /** The directory `annotate_vcf` lists the pVCF files in. */
  const BulkVcf: string := "/mnt/project/Bulk/Exome sequences/Population level exome OQFE variants, pVCF format - final release"

  /** The `hdfs dfs -cp` command that stages the file `name` under `/cluster/`. */
  function CopyCommand(name: string): (cmd: seq<string>)
    ensures |cmd| == 5 && cmd[..3] == ["hdfs", "dfs", "-cp"]
    ensures cmd[3] == "file://" + BulkVcf + "/" + name && cmd[4] == "file:///cluster/" + name
  {
    ["hdfs", "dfs", "-cp", "file://" + BulkVcf + "/" + name, "file:///cluster/" + name]
  }

  /** The observable state: the destination tables by name (true when the
      table is complete), the names of the files staged under `/cluster/`,
      every `split_annotate` call made (file name, `permit_shuffle`), and
      the exception that ended the run, if any. */
  datatype State = State(dest: map<string, bool>, staged: set<string>, attempts: seq<(string, bool)>,
                         failure: Option<PyError>)

  /** The destination after one `split_annotate` call writing `out`. */
  function Apply(dest: map<string, bool>, out: string, o: Outcome): map<string, bool>
  {
    match o
    case Written => dest[out := true]
    case Failed(partial) => if partial then dest[out := false] else dest
  }

  /** The work on one block whose table is named `out`: skipped when the
      destination lists the table already; otherwise staged, annotated,
      retried once with `permit_shuffle=True`, and unstaged unless both
      attempts failed. Staging onto a copy a former pass left behind makes
      `hdfs dfs -cp` exit with an error, which `check=True` raises. */
  function Step(s: State, name: string, out: string, annotate: Annotate): (r: State)
    // a table already present, complete or not, is never redone
    ensures out in s.dest ==> r == s
    // a left-over staged copy: the copy raises and nothing else happens
    ensures out !in s.dest && name in s.staged ==> r == s.(failure := Some(CalledProcessError(CopyCommand(name))))
    // otherwise the exception state is kept
    ensures out in s.dest || name !in s.staged ==> r.failure == s.failure
    // other tables are left as they were, and only `out` can appear
    ensures forall k :: k in s.dest ==> k in r.dest && (k != out ==> r.dest[k] == s.dest[k])
    ensures forall k :: k in r.dest ==> k in s.dest || k == out
    // one attempt, and a second with shuffling only after a failed first
    ensures out !in s.dest && name !in s.staged ==>
              r.attempts == s.attempts + [(name, false)] +
                            (if annotate(name, false).Written? then [] else [(name, true)])
    // the table is complete exactly when one of the attempts wrote it
    ensures out !in s.dest && name !in s.staged ==>
              ((out in r.dest && r.dest[out]) <==> annotate(name, false).Written? || annotate(name, true).Written?)
    // the staged copy outlives the block exactly when both attempts failed
    ensures out !in s.dest && name !in s.staged ==>
              r.staged - {name} == s.staged
              && (name in r.staged <==> annotate(name, false).Failed? && annotate(name, true).Failed?)
  {
    if out in s.dest then s
    else if name in s.staged then s.(failure := Some(CalledProcessError(CopyCommand(name))))
    else
      var staged := s.staged + {name};
      var o1 := annotate(name, false);
      var d1 := Apply(s.dest, out, o1);
      var a1 := s.attempts + [(name, false)];
      if o1.Written? then State(d1, staged - {name}, a1, s.failure)
      else
        var o2 := annotate(name, true);
        var d2 := Apply(d1, out, o2);
        var a2 := a1 + [(name, true)];
        if o2.Written? then State(d2, staged - {name}, a2, s.failure)
        else State(d2, staged, a2, s.failure)
  }

  /** The requested block a manifest file stands for, if any: its table
      name when the file name matches and its contig is requested. */
  function Requested(name: string, chrs: seq<string>): (r: Option<string>)
    ensures r.Some? <==> Manifest.ParseManifestName(name).Some? && Manifest.ParseManifestName(name).value.0 in chrs
  {
    match Manifest.ParseManifestName(name)
    case None => None
    case Some((contig, block)) =>
      if contig in chrs then Some(Manifest.MtName(contig, block)) else None
  }

  /** One iteration of the loop over the files; after an exception the
      loop is over. */
  function Visit(s: State, name: string, chrs: seq<string>, annotate: Annotate): State
  {
    if s.failure.Some? then s
    else
      match Requested(name, chrs)
      case None => s
      case Some(out) => Step(s, name, out, annotate)
  }

  /** The loop over `files`, in order. */
  function Run(s: State, files: seq<string>, chrs: seq<string>, annotate: Annotate): State
  {
    if files == [] then s
    else Visit(Run(s, files[..|files| - 1], chrs, annotate), files[|files| - 1], chrs, annotate)
  }

  /** The loop after `i + 1` files is one more visit after `i` files. */
  lemma RunSnoc(s: State, files: seq<string>, i: nat, chrs: seq<string>, annotate: Annotate)
    requires i < |files|
    ensures Run(s, files[..i + 1], chrs, annotate) == Visit(Run(s, files[..i], chrs, annotate), files[i], chrs, annotate)
  {
    assert files[..i + 1][..i] == files[..i];
  }

  /** Once the loop has raised, the remaining files are not visited. */
  lemma {:induction false} RunStopsAtFailure(s: State, files: seq<string>, i: nat, chrs: seq<string>, annotate: Annotate)
    requires i <= |files| && Run(s, files[..i], chrs, annotate).failure.Some?
    ensures Run(s, files, chrs, annotate) == Run(s, files[..i], chrs, annotate)
    decreases |files|
  {
    if i < |files| {
      var init := files[..|files| - 1];
      assert init[..i] == files[..i];
      RunStopsAtFailure(s, init, i, chrs, annotate);
    } else {
      assert files[..i] == files;
    }
  }

  /** Annotating a block a second time leaves the state as the first time
      did, except that when the first time left the staged copy and no
      table behind (both attempts failed cleanly, or the copy was there
      already), the second time raises on staging it. */
  lemma StepTwice(s: State, name: string, out: string, annotate: Annotate)
    ensures var once := Step(s, name, out, annotate);
            var twice := Step(once, name, out, annotate);
            && (out !in once.dest && name in once.staged <==>
                  out !in s.dest
                  && (name in s.staged || (annotate(name, false) == Failed(false) && annotate(name, true) == Failed(false))))
            && twice == if out !in once.dest && name in once.staged
                        then once.(failure := Some(CalledProcessError(CopyCommand(name))))
                        else once
  {
    var once := Step(s, name, out, annotate);
    if out !in s.dest && name !in s.staged && out !in once.dest {
      assert annotate(name, false).Failed? && annotate(name, true).Failed?;
    }
  }

  /** When every requested block's table is listed, the run changes nothing. */
  lemma {:induction false} RunIdempotent(s: State, files: seq<string>, chrs: seq<string>, annotate: Annotate)
    requires forall i :: 0 <= i < |files| && Requested(files[i], chrs).Some? ==> Requested(files[i], chrs).value in s.dest
    ensures Run(s, files, chrs, annotate) == s
  {
    if files != [] {
      var init := files[..|files| - 1];
      assert forall i :: 0 <= i < |init| ==> init[i] == files[i];
      RunIdempotent(s, init, chrs, annotate);
      assert files[|files| - 1] == files[|files| - 1];
    }
  }

  /** Every requested block of `files` has a listed table or a staged copy. */
  predicate Settled(s: State, files: seq<string>, chrs: seq<string>)
  {
    forall i :: 0 <= i < |files| && Requested(files[i], chrs).Some? ==>
      Requested(files[i], chrs).value in s.dest || files[i] in s.staged
  }

  /** On a settled state a run changes nothing but, possibly, the exception. */
  lemma {:induction false} RunOnSettled(s: State, files: seq<string>, chrs: seq<string>, annotate: Annotate)
    requires Settled(s, files, chrs)
    ensures Run(s, files, chrs, annotate).(failure := s.failure) == s
  {
    if files != [] {
      var init := files[..|files| - 1];
      assert forall i :: 0 <= i < |init| ==> init[i] == files[i];
      RunOnSettled(s, init, chrs, annotate);
      assert files[|files| - 1] == files[|files| - 1];
    }
  }

  /** A block that does not raise leaves its table or its staged copy, and
      removes no other staged copy nor any table. */
  lemma StepSettles(m: State, name: string, out: string, annotate: Annotate)
    ensures var r := Step(m, name, out, annotate);
            r.failure == m.failure ==>
              && (out in r.dest || name in r.staged)
              && (forall k :: k in m.dest ==> k in r.dest)
              && (forall x :: x in m.staged ==> x in r.staged || (x == name && out in r.dest))
  {
  }

  /** Settledness carries over to one more file when the step keeps every
      table and every staged copy but the file's own, and leaves the file's
      table or copy. */
  lemma SettledSnoc(m: State, r: State, init: seq<string>, name: string, chrs: seq<string>)
    requires Settled(m, init, chrs)
    requires Requested(name, chrs).Some? ==> Requested(name, chrs).value in r.dest || name in r.staged
    requires forall k :: k in m.dest ==> k in r.dest
    requires forall x :: x in m.staged ==>
               x in r.staged || (x == name && Requested(name, chrs).Some? && Requested(name, chrs).value in r.dest)
    ensures Settled(r, init + [name], chrs)
  {
    var files := init + [name];
    forall i | 0 <= i < |files| && Requested(files[i], chrs).Some?
      ensures Requested(files[i], chrs).value in r.dest || files[i] in r.staged
    {
      if i < |init| {
        assert files[i] == init[i];
      }
    }
  }

  /** A run that did not raise leaves every requested block settled. */
  lemma {:induction false} RunSettles(s: State, files: seq<string>, chrs: seq<string>, annotate: Annotate)
    ensures var r := Run(s, files, chrs, annotate);
            r.failure.None? ==> Settled(r, files, chrs)
  {
    if files != [] {
      var init := files[..|files| - 1];
      var name := files[|files| - 1];
      RunSettles(s, init, chrs, annotate);
      var mid := Run(s, init, chrs, annotate);
      var r := Run(s, files, chrs, annotate);
      assert files == init + [name];
      if r.failure.None? {
        match Requested(name, chrs)
        case None =>
          SettledSnoc(mid, r, init, name, chrs);
        case Some(out) =>
          StepSettles(mid, name, out, annotate);
          SettledSnoc(mid, r, init, name, chrs);
      }
    }
  }

  /** A requested block of `name` whose table is not listed in `s`. */
  predicate Missing(s: State, name: string, chrs: seq<string>)
  {
    Requested(name, chrs).Some? && Requested(name, chrs).value !in s.dest
  }

  /** On a settled state a run raises exactly when some requested block
      still has no table: its staged copy is then in the way. */
  lemma {:induction false} RunOnSettledRaises(s: State, files: seq<string>, chrs: seq<string>, annotate: Annotate)
    requires Settled(s, files, chrs) && s.failure.None?
    ensures Run(s, files, chrs, annotate).failure.Some? <==> exists i :: 0 <= i < |files| && Missing(s, files[i], chrs)
  {
    if files != [] {
      var init := files[..|files| - 1];
      var name := files[|files| - 1];
      assert forall i :: 0 <= i < |init| ==> init[i] == files[i];
      RunOnSettledRaises(s, init, chrs, annotate);
      RunOnSettled(s, init, chrs, annotate);
      var mid := Run(s, init, chrs, annotate);
      if mid.failure.Some? {
        var i :| 0 <= i < |init| && Missing(s, init[i], chrs);
        assert Missing(s, files[i], chrs);
      } else {
        assert mid == s;
        if Missing(s, name, chrs) {
          assert name in s.staged by { assert files[|files| - 1] == name; }
          assert Missing(s, files[|files| - 1], chrs);
        } else {
          forall i | 0 <= i < |files| ensures !Missing(s, files[i], chrs) {
            if i < |init| { assert files[i] == init[i]; }
          }
        }
      }
    }
  }

  /** Between a point where `p` fails and a later one where it holds, there
      is a first step at which it starts to hold. */
  lemma FirstTrue(p: nat -> bool, i: nat, n: nat) returns (j: nat)
    requires i < n && !p(i) && p(n)
    ensures i <= j < n && !p(j) && p(j + 1)
    decreases n - i
  {
    if p(i + 1) {
      j := i;
    } else {
      j := FirstTrue(p, i + 1, n);
    }
  }

  /** The program's next run starts from what this run left, without the
      exception. It changes neither the destination, nor the staged files,
      nor the attempts made. It raises when this run raised, and after a
      run that did not raise, exactly when a requested block was left
      with a staged copy and no table. */
  lemma RunTwice(s: State, files: seq<string>, chrs: seq<string>, annotate: Annotate)
    requires s.failure.None?
    ensures var once := Run(s, files, chrs, annotate);
            var twice := Run(once.(failure := None), files, chrs, annotate);
            && twice.(failure := None) == once.(failure := None)
            && (once.failure.Some? ==> twice.failure.Some?)
            && (once.failure.None? ==>
                  (twice.failure.Some? <==> exists i :: 0 <= i < |files| && Missing(once, files[i], chrs)))
  {
    var once := Run(s, files, chrs, annotate);
    if once.failure.None? {
      RunSettles(s, files, chrs, annotate);
      RunOnSettled(once, files, chrs, annotate);
      RunOnSettledRaises(once, files, chrs, annotate);
    } else {
      var raised := (k: nat) => k <= |files| && Run(s, files[..k], chrs, annotate).failure.Some?;
      assert files[..0] == [] && files[..|files|] == files;
      var j := FirstTrue(raised, 0, |files|);
      var mid := Run(s, files[..j], chrs, annotate);
      RunSnoc(s, files, j, chrs, annotate);
      RunStopsAtFailure(s, files, j + 1, chrs, annotate);
      RunSettles(s, files[..j], chrs, annotate);
      assert once.(failure := None) == mid;
      RunOnSettled(mid, files[..j], chrs, annotate);
      var r := Run(mid, files[..j], chrs, annotate);
      if r.failure.Some? {
        RunStopsAtFailure(mid, files, j, chrs, annotate);
      } else {
        assert r == mid;
        RunSnoc(mid, files, j, chrs, annotate);
        RunStopsAtFailure(mid, files, j + 1, chrs, annotate);
      }
    }
  }

  /** A run never changes or removes a table that was there before. */
  lemma {:induction false} RunKeepsExisting(s: State, files: seq<string>, chrs: seq<string>, annotate: Annotate)
    ensures forall k :: k in s.dest ==>
              (k in Run(s, files, chrs, annotate).dest && Run(s, files, chrs, annotate).dest[k] == s.dest[k])
  {
    if files != [] {
      var init := files[..|files| - 1];
      RunKeepsExisting(s, init, chrs, annotate);
      var mid := Run(s, init, chrs, annotate);
      var name := files[|files| - 1];
      if mid.failure.None? {
        match Requested(name, chrs)
        case None =>
        case Some(out) =>
          forall k | k in s.dest
            ensures k in Step(mid, name, out, annotate).dest && Step(mid, name, out, annotate).dest[k] == s.dest[k]
          {
            if k == out {
              assert out in mid.dest;
            }
          }
      }
    }
  }

  /** A table appears only for a file that matches the manifest pattern
      and names a requested contig. */
  lemma {:induction false} RunAddsOnlyRequested(s: State, files: seq<string>, chrs: seq<string>, annotate: Annotate, k: string)
    requires k in Run(s, files, chrs, annotate).dest && k !in s.dest
    ensures exists i :: 0 <= i < |files| && Requested(files[i], chrs) == Some(k)
  {
    var init := files[..|files| - 1];
    var name := files[|files| - 1];
    if k in Run(s, init, chrs, annotate).dest {
      RunAddsOnlyRequested(s, init, chrs, annotate, k);
      var i :| 0 <= i < |init| && Requested(init[i], chrs) == Some(k);
      assert files[i] == init[i];
    } else {
      assert Requested(files[|files| - 1], chrs) == Some(k);
    }
  }

  /** After a run that did not raise, every requested block has its table,
      unless both of its attempts failed without leaving one. */
  lemma {:induction false} RunCoversRequested(s: State, files: seq<string>, chrs: seq<string>, annotate: Annotate, i: nat)
    requires i < |files| && Requested(files[i], chrs).Some?
    ensures var r := Run(s, files, chrs, annotate);
            Requested(files[i], chrs).value in r.dest
            || r.failure.Some?
            || (annotate(files[i], false) == Failed(false) && annotate(files[i], true) == Failed(false))
  {
    var init := files[..|files| - 1];
    var out := Requested(files[i], chrs).value;
    var mid := Run(s, init, chrs, annotate);
    if i < |init| {
      assert files[i] == init[i];
      RunCoversRequested(s, init, chrs, annotate, i);
      if out in mid.dest {
        assert out in Visit(mid, files[|files| - 1], chrs, annotate).dest;
      }
    }
  }

  /** At most two annotation attempts per file, and the log only grows. */
  lemma {:induction false} RunAttemptsBounded(s: State, files: seq<string>, chrs: seq<string>, annotate: Annotate)
    ensures var r := Run(s, files, chrs, annotate);
            |s.attempts| <= |r.attempts| <= |s.attempts| + 2 * |files|
            && r.attempts[..|s.attempts|] == s.attempts
  {
    if files != [] {
      var init := files[..|files| - 1];
      RunAttemptsBounded(s, init, chrs, annotate);
      var mid := Run(s, init, chrs, annotate);
      var r := Run(s, files, chrs, annotate);
      assert r.attempts[..|mid.attempts|] == mid.attempts;
      assert r.attempts[..|s.attempts|] == r.attempts[..|mid.attempts|][..|s.attempts|];
    }
  }

  /** Every name staged after a run was staged before or is one of the files. */
  lemma {:induction false} RunStagesOnlyFiles(s: State, files: seq<string>, chrs: seq<string>, annotate: Annotate)
    ensures forall x :: x in Run(s, files, chrs, annotate).staged ==> x in s.staged || x in files
  {
    if files != [] {
      var init := files[..|files| - 1];
      RunStagesOnlyFiles(s, init, chrs, annotate);
      forall x | x in Run(s, files, chrs, annotate).staged
        ensures x in s.staged || x in files
      {
        if x in Run(s, init, chrs, annotate).staged && x !in s.staged {
          var j :| 0 <= j < |init| && init[j] == x;
          assert files[j] == x;
        }
      }
    }
  }

  /** A run over distinct file names, none of them staged at the start,
      never raises. */
  lemma {:induction false} RunNoFailure(s: State, files: seq<string>, chrs: seq<string>, annotate: Annotate)
    requires s.failure.None?
    requires forall i :: 0 <= i < |files| ==> files[i] !in s.staged
    requires forall i, j :: 0 <= i < j < |files| ==> files[i] != files[j]
    ensures Run(s, files, chrs, annotate).failure.None?
  {
    if files != [] {
      var n := |files| - 1;
      var init := files[..n];
      assert forall i :: 0 <= i < n ==> init[i] == files[i];
      RunNoFailure(s, init, chrs, annotate);
      RunStagesOnlyFiles(s, init, chrs, annotate);
      assert files[n] !in init;
    }
  }

  /** The driver's state, updated in place as the loop proceeds. */
  class Annotator {
    var dest: map<string, bool>
    var staged: set<string>
    var attempts: seq<(string, bool)>
    var failure: Option<PyError>

    function Snapshot(): State
      reads this
    {
      State(dest, staged, attempts, failure)
    }

    /** A driver over a destination database that lists `tables`, with the
        files in `staged` left under `/cluster/` by an earlier run. */
    constructor (tables: map<string, bool>, staged: set<string>)
      ensures Snapshot() == State(tables, staged, [], None)
    {
      dest := tables;
      this.staged := staged;
      attempts := [];
      failure := None;
    }

    /** The body of the loop for one matched, requested block. */
    method AnnotateBlock(name: string, out: string, annotate: Annotate)
      modifies this
      ensures Snapshot() == Step(old(Snapshot()), name, out, annotate)
    {
      if out in dest {
        return;
      }
      if name in staged {
        // `hdfs dfs -cp` refuses to overwrite the left-over copy
        failure := Some(CalledProcessError(CopyCommand(name)));
        return;
      }
      staged := staged + {name};
      var first := annotate(name, false);
      attempts := attempts + [(name, false)];
      dest := Apply(dest, out, first);
      if first.Failed? {
        var second := annotate(name, true);
        attempts := attempts + [(name, true)];
        dest := Apply(dest, out, second);
        if second.Failed? {
          // `continue`: the staged copy is not removed
          return;
        }
      }
      staged := staged - {name};
    }

    /** `annotate_vcf`: the listed manifest files in natural order, each
        matched, requested block annotated, until an exception ends the
        loop; the exception is returned. */
    method AnnotateVcf(listing: seq<string>, chrs: seq<string>, annotate: Annotate) returns (raised: Option<PyError>)
      modifies this
      ensures Snapshot() == Run(old(Snapshot()), NaturalSort.SortByKey(listing), chrs, annotate)
      ensures raised == failure
    {
      var files := NaturalSort.SortByKey(listing);
      ghost var start := Snapshot();
      var i := 0;
      while i < |files| && failure.None?
        invariant i <= |files|
        invariant Snapshot() == Run(start, files[..i], chrs, annotate)
      {
        RunSnoc(start, files, i, chrs, annotate);
        VisitFile(files[i], chrs, annotate);
        i := i + 1;
      }
      if i < |files| {
        RunStopsAtFailure(start, files, i, chrs, annotate);
      } else {
        assert files[..i] == files;
      }
      raised := failure;
    }

    /** One pass of the loop: match the name, check the contig, annotate. */
    method VisitFile(name: string, chrs: seq<string>, annotate: Annotate)
      requires failure.None?
      modifies this
      ensures Snapshot() == Visit(old(Snapshot()), name, chrs, annotate)
    {
      var m := Manifest.ParseManifestName(name);
      if m.Some? {
        var (contig, block) := m.value;
        if contig in chrs {
          AnnotateBlock(name, Manifest.MtName(contig, block), annotate);
        }
      }
    }

  }
}
