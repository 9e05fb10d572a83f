# wes-qc-loftee-annot: a Dafny model of the annotation pipeline core

This project models the core of `wes-qc-loftee-annot`, the pipeline that
annotates the bulk exome pVCF release block by block with VEP/LOFTEE and
condenses the annotated blocks of each chromosome into a per-individual,
per-gene loss-of-function table. The model covers three parts of the code.

- `analysis/utils/dxpathlib.py`: `PathDx`, a path that lives either on the
  local filesystem or inside a DNAnexus database.
- `analysis/utils/variant_filtering.py`: the row filters of `VCFFilter`.
- `analysis/cmd/split_vep.py`:
  - the natural sort of the manifest;
  - the manifest file-name pattern and the table names;
  - the annotation driver `annotate_vcf`, with its staging and its one retry;
  - the readiness check of `rare_variants_table`;
  - in `_chr_table`, the column unification, the batch layout, the filter
    chain, the 0/1/2 scoring and the CSV export.

The modules:

| module | file | form |
|---|---|---|
| `Outcomes` | outcomes.dfy | `Result`/`Option` and the Python exceptions the core raises |
| `Strings` | strings.dfy | `str.split`, `str.join`, `in` on strings, `str(int)`, string order |
| `DxPath` | dxpath.dfy | `PathDx` as a datatype, with `__new__`, `find_database` (a loop), `/`, `rstr` and `iterdir`/`listdir` (loops) |
| `NaturalSort` | natsort.dfy | `try_to_int`, `nsort`, Python's order on keys, and a stable sort |
| `Manifest` | manifest.dfy | the manifest-name regular expression as a parser, and `mt_name` |
| `Layout` | layout.dfy | `split_list` (a loop), the batch count, `match`, and the common individuals |
| `Scoring` | scoring.dfy | the per-gene, per-individual cell value and the `int8` cast |
| `Export` | export.dfy | the CSV header and rows, and the 51,200-row batches (nested loops) |
| `AnnotationDriver` | driver.dfy | `annotate_vcf` as a class whose fields the loop updates |
| `VariantFiltering` | filters.dfy | the four filters, their column checks, and the chain of `_chr_table` |
| `Aggregation` | aggregation.dfy | `rare_variants_table`: listing, the per-chromosome loops, and `all(out_mts)` |

Services the code calls are parameters of the model.

- The database-catalog search of `find_database` is a `Catalog` value.
- The folder listing of `iterdir` is a function
  `listFolder(databaseId, folder)`.
- The host's directory listing is the sequence `osNames`.
- One `split_annotate` call is an `Annotate` function. It maps a file and
  the `permit_shuffle` flag to the outcome: the table was written, or the
  call failed, leaving an incomplete table or none.
- Hail matrix tables are a set of field names plus rows that carry the
  entry and row fields the filters read.

Some consequences of the code are easy to miss.

- `annotate_vcf` leaves the staged `/cluster/` copy in place after the
  second attempt fails, because the `continue` skips the `hdfs dfs -rm`.
  `AnnotationDriver.Step` and `Annotator.AnnotateBlock` state that the copy
  remains exactly when both attempts failed.
- A later run that reaches such a block again (no table was left) copies
  onto the left-over file. `hdfs dfs -cp` without `-f` refuses, and
  `check=True` raises `CalledProcessError`, which ends the run. The model
  records this exception in the driver's state (`AnnotationDriver.Step`,
  `AnnotationDriver.StepTwice`). `AnnotationDriver.RunTwice` follows the
  program's next run, which starts without an exception: it raises again
  whenever the first run raised, and otherwise exactly when a block was
  left with its staged copy and no table.
- `variant_missingness` and `hardy_weinberg` take `qc_col_name`, and the
  wrapper checks that column. The filters themselves always read
  `variant_qc`, so a different column name fails with an `AttributeError`
  after the check passes.
- A requested chromosome with no block in the manifest passes `all([])`.
  `_chr_table` then fails in `reduce` on an empty sequence
  (`Aggregation.NoBlocksFails`).

## Model

| member | source | states |
|---|---|---|
| Strings.SplitOn | analysis/utils/dxpathlib.py:66-67 | `str.split(sep)` always yields at least one piece |
| Strings.JoinSplitOn | analysis/utils/dxpathlib.py:66-67 | joining the pieces of a split with the separator gives the string back |
| Strings.SplitOnSingleIff | analysis/utils/dxpathlib.py:66-69 | a split yields one piece exactly when the separator does not occur, which is the `NotADirectoryError` case |
| Strings.SplitOnCharPiecesFree | analysis/utils/dxpathlib.py:10-20 | no piece of a split on `/` contains `/` |
| Strings.SplitOnCharAbsent | analysis/utils/dxpathlib.py:10-20 | splitting a string without the separator gives the string itself |
| Strings.SplitOnCharFirst | analysis/cmd/split_vep.py:276 | a split on a character cuts at its first occurrence and continues on the rest |
| Strings.SplitOnJoinChar | analysis/cmd/split_vep.py:276-282 | joining separator-free fields with `,` is undone by splitting on `,` |
| Strings.SplitOnCharAppend | analysis/utils/dxpathlib.py:12 | splitting on a character cuts at every occurrence: the pieces of `a + c + b` are those of `a` followed by those of `b` |
| Strings.SplitOnCharAround | analysis/utils/dxpathlib.py:12 | the same, for a string given as `a + c + b` |
| Strings.ContainsNeedsRoom | analysis/cmd/split_vep.py:155 | a contained string is no longer than its container |
| Strings.ContainsInfix | analysis/cmd/split_vep.py:155 | a string contains every string it is built around |
| Strings.JoinConsHead | analysis/cmd/split_vep.py:276 | the first character of the first field is the first character of the join |
| Strings.DigitChar | analysis/cmd/split_vep.py:282 | the character of a digit value is a decimal digit |
| Strings.NatToString | analysis/cmd/split_vep.py:282 | `str(n)` is a non-empty string of decimal digits |
| Strings.NatToStringValue | analysis/cmd/split_vep.py:282 | reading the digits of `str(n)` back gives `n` |
| Strings.StrLtIrreflexive | analysis/cmd/split_vep.py:97 | no string is below itself in Python's string order |
| Strings.StrLtTransitive | analysis/cmd/split_vep.py:97 | Python's string order is transitive |
| Strings.StrLtAsymmetric | analysis/cmd/split_vep.py:97 | Python's string order is asymmetric |
| DxPath.DropEmptyAndDot | analysis/utils/dxpathlib.py:12 | the kept segments are normal (non-empty, not `.`, free of `/`) and are exactly the pieces that are neither empty nor `.`; a single piece is kept unless it is empty or `.` |
| DxPath.DropEmptyAndDotAppend | analysis/utils/dxpathlib.py:12 | dropping distributes over concatenation, so the kept pieces stay in order; with the single-piece case this fixes the result |
| DxPath.Segments | analysis/utils/dxpathlib.py:12 | one argument contributes only normal segments; an argument without `/` contributes itself unless it is empty or `.` |
| DxPath.SegmentsSlash | analysis/utils/dxpathlib.py:12 | the segments of `a/b` are those of `a` followed by those of `b`; with the slash-free case this fixes the segments of every argument |
| DxPath.ParseArgs | analysis/utils/dxpathlib.py:12 | the parsed path is rooted exactly when the base was rooted or some argument is absolute, and its segments are normal; no argument keeps the base; one argument is appended to the base segments, or replaces them when it is absolute |
| DxPath.ParseArgsAppend | analysis/utils/dxpathlib.py:12 | parsing two runs of arguments is parsing the second run on top of the result of the first, so with the one-argument case this fixes the result |
| DxPath.AtDatabase | analysis/utils/dxpathlib.py:18-19 | a path built with a database id is a database path with that id |
| DxPath.FirstMatch | analysis/utils/dxpathlib.py:28-34 | the first catalog entry whose id or name is the reference, or none exactly when no entry matches |
| DxPath.FindDatabase | analysis/utils/dxpathlib.py:22-39 | a paginated response fails the assertion; otherwise the search returns the first matching entry, or raises `ValueError` exactly when none matches |
| DxPath.New | analysis/utils/dxpathlib.py:10-20 | both database arguments raise `ValueError`; none gives a local path; an id gives a rooted database path; a name is looked up and its id used, or the lookup error propagates |
| DxPath.Div | analysis/cmd/split_vep.py:103 | `/` keeps the kind of path and the database id; the new segments are the old ones, or none when the argument is absolute, followed by the argument's segments; a local path becomes rooted when the argument is absolute |
| DxPath.Classify | analysis/utils/dxpathlib.py:65-73 | split on the database id, one piece raises `NotADirectoryError` naming the result, two pieces give the child named by the part after the id, and more pieces raise `NotImplementedError` |
| DxPath.ClassifyAll | analysis/utils/dxpathlib.py:65-73 | the yielded children are the leading results that classify, and the exception is that of the first result that does not |
| DxPath.ClassifyAllUnique | analysis/utils/dxpathlib.py:65-73 | any prefix of children plus stopping exception with those properties is exactly what the generator yields |
| DxPath.ClassifyResults | analysis/utils/dxpathlib.py:65-73 | the loop yields the classified leading results and stops at the first failure |
| DxPath.IterDir | analysis/utils/dxpathlib.py:50-75 | the children and the exception of `iterdir`; a database folder that raises nothing yields one child per listing result |
| DxPath.ListDir | analysis/utils/dxpathlib.py:77-78 | `listdir` is the generator run to its end; a successful database listing is non-empty |
| DxPath.NotFoundCarriesHint | analysis/utils/dxpathlib.py:35-39 | an unknown reference fails with a message carrying the `CREATE DATABASE` hint |
| DxPath.BothGivenIgnoresCatalog | tests/test_dxpathlib.py:60-62 | giving both a name and an id raises `ValueError` whatever the catalog holds |
| DxPath.SegmentsOfName | tests/test_dxpathlib.py:39-50 | `t`, `/t` and `/` contribute `[t]`, `[t]` and no segment |
| DxPath.ParseAfterRoot | analysis/utils/dxpathlib.py:18 | parsing `/` followed by at most one argument gives a rooted path with that argument's segments |
| DxPath.DatabasePathForms | tests/test_dxpathlib.py:39-50 | `t`, `/t` and `root / t` in a database all denote `dnax://<id>/t` |
| DxPath.ByNameEqualsById | tests/test_dxpathlib.py:64-66 | a database named by name gives the path, and the string, of its id |
| DxPath.IdAsNameResolves | tests/test_dxpathlib.py:64-66 | passing an id as the database name gives the same path as passing it as the id |
| DxPath.ParseOneName | tests/test_dxpathlib.py:33-36 | a relative and an absolute single name parse to unrooted and rooted paths |
| DxPath.LocalPathForms | tests/test_dxpathlib.py:33-36 | local paths resolve under the working directory unless absolute, and their string carries `file://` |
| DxPath.RstrAsJoin | analysis/utils/dxpathlib.py:41-48 | the string of a database path is `dnax:`, an empty field, the id and the segments joined with `/` |
| DxPath.DnaxRstrRoundTrip | analysis/utils/dxpathlib.py:41-48 | the string of a database path reads back to that path |
| DxPath.RstrInjective | analysis/utils/dxpathlib.py:41-48 | two database paths with equal strings are equal |
| DxPath.FolderOfPath | analysis/utils/dxpathlib.py:53 | the database root is listed as `/`, and a table as its name |
| DxPath.ListDirEmptyIsWarning | analysis/utils/dxpathlib.py:62-63 | an empty folder response raises `Warning`, so a successful database listing is never empty |
| DxPath.ClassifyNotADirectory | analysis/utils/dxpathlib.py:66-69 | a result without the database id raises `NotADirectoryError` naming the result, and only such a result does |
| DxPath.ListDirChildren | analysis/utils/dxpathlib.py:65-71 | a successful listing gives one child per result, in order, each the part after the id |
| NaturalSort.StripLeft | analysis/cmd/split_vep.py:49 | the result is a suffix of the input that starts with a non-space, and everything dropped is whitespace |
| NaturalSort.StripRight | analysis/cmd/split_vep.py:49 | the result is a prefix of the input that ends with a non-space, and everything dropped is whitespace |
| NaturalSort.Strip | analysis/cmd/split_vep.py:49 | `strip()` gives a substring of the input that neither starts nor ends with ASCII whitespace |
| NaturalSort.StripUnspaced | analysis/cmd/split_vep.py:49 | a string with no whitespace at either end strips to itself |
| NaturalSort.DigitGroupsChars | analysis/cmd/split_vep.py:49 | an integer literal consists of digits and underscores |
| NaturalSort.RemoveUnderscores | analysis/cmd/split_vep.py:49 | dropping the underscores of a literal leaves digits only |
| NaturalSort.TryToInt | analysis/cmd/split_vep.py:47-51 | a string `int()` rejects is returned unchanged |
| NaturalSort.RemoveUnderscoresOfDigits | analysis/cmd/split_vep.py:49 | a run of digits has no underscore to drop |
| NaturalSort.TryToIntDigits | analysis/cmd/split_vep.py:47-51 | a run of digits becomes its decimal value |
| NaturalSort.DigitsStrip | analysis/cmd/split_vep.py:49 | a run of digits strips to itself |
| NaturalSort.DigitsUnsigned | analysis/cmd/split_vep.py:49 | a run of digits carries no sign |
| NaturalSort.DigitsParse | analysis/cmd/split_vep.py:49 | a run of digits strips and unsigns to itself and is accepted by `int()` |
| NaturalSort.DigitsAreGroups | analysis/cmd/split_vep.py:49 | a run of digits is a well-formed integer literal |
| NaturalSort.TryToIntNoDigits | analysis/cmd/split_vep.py:47-51 | a digit-free string stays a string |
| NaturalSort.DigitRuns | analysis/cmd/split_vep.py:55 | `re.split(r'(\d+)', s)` has an odd number of pieces, with an empty first piece when `s` starts with a digit |
| NaturalSort.ShapeExtendRun | analysis/cmd/split_vep.py:55 | a digit in front of a leading run extends the run |
| NaturalSort.ShapeNewRun | analysis/cmd/split_vep.py:55 | a digit in front of text opens a new run |
| NaturalSort.ShapeExtendText | analysis/cmd/split_vep.py:55 | a non-digit in front extends the leading text |
| NaturalSort.ConcatCons | analysis/cmd/split_vep.py:55 | concatenation distributes over a first piece |
| NaturalSort.ConcatEmptyFirst | analysis/cmd/split_vep.py:55 | a leading empty piece adds nothing to the concatenation |
| NaturalSort.DigitRunsShape | analysis/cmd/split_vep.py:55 | the pieces alternate digit-free text and maximal digit runs |
| NaturalSort.ConcatExtendRun | analysis/cmd/split_vep.py:55 | extending a run keeps the concatenation in step |
| NaturalSort.ConcatNewRun | analysis/cmd/split_vep.py:55 | opening a run keeps the concatenation in step |
| NaturalSort.ConcatExtendText | analysis/cmd/split_vep.py:55 | extending text keeps the concatenation in step |
| NaturalSort.DigitRunsConcat | analysis/cmd/split_vep.py:55 | the pieces put back together give the name |
| NaturalSort.NSort | analysis/cmd/split_vep.py:54-56 | the key has one element per piece of the split, an odd number; even positions hold the digit-free text as a string, odd positions the value of a non-empty digit run |
| NaturalSort.Tokens | analysis/cmd/split_vep.py:56 | the key holds `try_to_int` of each piece |
| NaturalSort.TokensOfRuns | analysis/cmd/split_vep.py:47-56 | on alternating pieces, `try_to_int` keeps the text pieces as strings and turns the digit runs into their values |
| NaturalSort.NSortComparable | analysis/cmd/split_vep.py:97 | two keys hold an int, or both a string, at every shared position, so comparing them never raises `TypeError` |
| NaturalSort.TokenLtTrichotomy | analysis/cmd/split_vep.py:97 | two key elements are equal or one is below the other |
| NaturalSort.StrLtTrichotomy | analysis/cmd/split_vep.py:97 | Python's string order is total |
| NaturalSort.TokenLtTransitive | analysis/cmd/split_vep.py:97 | the element order is transitive |
| NaturalSort.TokenLtAsymmetric | analysis/cmd/split_vep.py:97 | the element order is asymmetric and strict |
| NaturalSort.KeyLtTransitive | analysis/cmd/split_vep.py:97 | Python's order on lists is transitive |
| NaturalSort.KeyLtTrichotomy | analysis/cmd/split_vep.py:97 | two comparable keys are equal or one is below the other |
| NaturalSort.KeyLtIrreflexive | analysis/cmd/split_vep.py:97 | no key is below itself |
| NaturalSort.KeyLtAsymmetric | analysis/cmd/split_vep.py:97 | the order on keys is asymmetric |
| NaturalSort.KeyLeTransitive | analysis/cmd/split_vep.py:97 | "not below" on keys is transitive |
| NaturalSort.InsertBy | analysis/cmd/split_vep.py:97 | inserting adds exactly the one name |
| NaturalSort.SortBy | analysis/cmd/split_vep.py:97 | sorting permutes the names |
| NaturalSort.SortByKey | analysis/cmd/split_vep.py:97 | the natural sort is a permutation of the listing in non-decreasing key order, and names with equal keys keep their listing order |
| NaturalSort.WithKeyCons | analysis/cmd/split_vep.py:97 | the names with a key in a list with one more name in front |
| NaturalSort.InsertByStable | analysis/cmd/split_vep.py:97 | insertion puts a name in front of every name with the same key and keeps their order |
| NaturalSort.SortByStable | analysis/cmd/split_vep.py:97 | sorting keeps the order of the names that share a key (Python's sort is stable) |
| NaturalSort.InsertByAtLeast | analysis/cmd/split_vep.py:97 | inserting a name no smaller than a bound keeps every name at or above the bound |
| NaturalSort.InsertInFront | analysis/cmd/split_vep.py:97 | a name no larger than the head of a sorted list can go in front |
| NaturalSort.InsertBehind | analysis/cmd/split_vep.py:97 | a name larger than the head goes into the rest, keeping the list sorted |
| NaturalSort.SortedCons | analysis/cmd/split_vep.py:97 | a sorted list stays sorted behind a name no larger than any of it |
| NaturalSort.InsertBySorted | analysis/cmd/split_vep.py:97 | inserting into a sorted list keeps it sorted |
| NaturalSort.SortBySorted | analysis/cmd/split_vep.py:97 | the sorted list is in key order and a permutation of the input |
| Manifest.SplitGroups | analysis/cmd/split_vep.py:99 | a split found is the contig group, `_b`, and the block group, each of the allowed form |
| Manifest.ParseManifestName | analysis/cmd/split_vep.py:99-102 | the groups returned rebuild the name under the pattern |
| Manifest.ParseManifestNameIff | analysis/cmd/split_vep.py:99-102 | the parser returns `(c, b)` exactly when the name is the pattern's full match with groups `c` and `b` |
| Manifest.DotsAreWildcards | analysis/cmd/split_vep.py:99 | each unescaped `.` of the pattern accepts any character but a newline |
| Manifest.MtName | analysis/cmd/split_vep.py:59-60 | the table name is `chr-`, the contig, `-b`, the block, `.mt` |
| Manifest.MtNameInjective | analysis/cmd/split_vep.py:59-60 | different manifest blocks get different table names |
| Manifest.MtNameParts | analysis/cmd/split_vep.py:59-60 | the contig sits between `chr-` and the first later `-`, and the block between `-b` and `.mt` |
| Layout.SliceStart | analysis/cmd/split_vep.py:73-79 | each slice start lies within the list |
| Layout.SliceStartBound | analysis/cmd/split_vep.py:73-79 | `i` average slices plus the extra elements stay within `n` |
| Layout.SliceStep | analysis/cmd/split_vep.py:76-79 | slice `i` is the average length, plus one for the first `n % k` slices |
| Layout.SliceEnds | analysis/cmd/split_vep.py:68-79 | the slices start at 0 and the last ends at `n` |
| Layout.SliceLengthsBalanced | analysis/cmd/split_vep.py:68-79 | two slices differ by at most one, and the longer slices come first |
| Layout.SliceMonotone | analysis/cmd/split_vep.py:68-79 | slice starts never decrease |
| Layout.SliceCovers | analysis/cmd/split_vep.py:68-79 | every position of the list lies in exactly one slice |
| Layout.SplitList | analysis/cmd/split_vep.py:68-79 | `split_list(n, k)` yields the `k` slice bounds in order, and `k = 0` raises `ZeroDivisionError` |
| Layout.SplitListExample | analysis/cmd/split_vep.py:69-72 | `split_list(5, 3)` yields (0, 2), (2, 4), (4, 5) |
| Layout.BatchCount | analysis/cmd/split_vep.py:188-189 | at least one batch; with 19 or more blocks, the largest `k` with `19k <= n`; one batch below 38 blocks |
| Layout.BatchSizes | analysis/cmd/split_vep.py:188-191 | with at least 19 blocks, every batch holds between 19 and 38 blocks |
| Layout.DivAtLeast | analysis/cmd/split_vep.py:189 | `m <= n / k` when `m * k <= n` |
| Layout.DivBelow | analysis/cmd/split_vep.py:189 | `n / k < m` when `n < m * k` |
| Layout.MulMonotone | analysis/cmd/split_vep.py:189 | multiplication by a natural number is monotone |
| Layout.IndexMap | analysis/cmd/split_vep.py:64 | the dictionary maps each item of `b` to its last index |
| Layout.Match | analysis/cmd/split_vep.py:63-65 | `match(a, b)` gives, per item of `a`, `None` exactly when it is absent from `b`, otherwise its last index in `b` |
| Layout.MatchDistinct | analysis/cmd/split_vep.py:63-65 | without duplicates in `b`, `match` is the inverse of indexing `b` |
| Layout.Intersection | analysis/cmd/split_vep.py:179 | the individuals listed by every block |
| Layout.CommonIndividuals | analysis/cmd/split_vep.py:177-181 | no block raises the `reduce` error; otherwise the common individuals, narrowed to the allow-list when it is non-empty |
| Layout.Enumerate | analysis/cmd/split_vep.py:184 | `list(common_pats)` lists each common individual exactly once |
| Layout.UnifyColumns | analysis/cmd/split_vep.py:177-185 | one order of the common individuals, and per block the column indices that pick them in that order |
| Scoring.NAlt | analysis/cmd/split_vep.py:239 | `n_alt_alleles` is at most 2, is 0 exactly for a homozygous-reference call and 2 exactly for a call with no reference allele |
| Scoring.HcHomN | analysis/cmd/split_vep.py:239 | the HC maximum is at most 2, and missing exactly when every call is missing |
| Scoring.HcHetN | analysis/cmd/split_vep.py:240 | the HC heterozygous count is at most the number of rows |
| Scoring.CellValue | analysis/cmd/split_vep.py:245-256 | the cell value is 0, 1 or 2 |
| Scoring.HcHomNTwoIff | analysis/cmd/split_vep.py:239-246 | the HC maximum is 2 exactly when some HC row is homozygous alternate |
| Scoring.HcHetNZeroIff | analysis/cmd/split_vep.py:240 | the HC heterozygous count is 0 exactly when no HC row is heterozygous |
| Scoring.CellValueTwoIff | analysis/cmd/split_vep.py:245-256 | the cell is 2 exactly with an HC homozygous-alternate row or at least two HC heterozygous rows |
| Scoring.CellValueZeroIff | analysis/cmd/split_vep.py:245-256 | the cell is 0 exactly when every called HC row is homozygous reference |
| Scoring.ToInt8 | analysis/cmd/split_vep.py:280 | the cast lands in `[-128, 128)` and leaves every value in that range unchanged (out of range it wraps modulo 256, where numpy is unspecified) |
| Scoring.CellValueFitsInt8 | analysis/cmd/split_vep.py:280 | the cast never changes a cell value |
| Export.Columns | analysis/cmd/split_vep.py:276 | at least one field follows the id, empty when there are no genes |
| Export.Cells | analysis/cmd/split_vep.py:282 | one field per value |
| Export.Zeros | analysis/cmd/split_vep.py:282 | one `0` field per zero gene |
| Export.Rows | analysis/cmd/split_vep.py:281-283 | one line per individual |
| Export.NumBatches | analysis/cmd/split_vep.py:277 | `ceil(rows / 51200)`: the batches reach the last row and none is wholly past it |
| Export.BatchesCover | analysis/cmd/split_vep.py:277-279 | every row lies in batch `row / 51200` and in no other |
| Export.BatchesContiguous | analysis/cmd/split_vep.py:277-279 | batches are non-empty, each ends where the next starts, and the last ends at the last row |
| Export.ExportTable | analysis/cmd/split_vep.py:266-283 | `zero_genes` holds each gene seen but not scored exactly once; a shape mismatch fails the assertion; otherwise the lines are the header followed by one line per individual in order |
| Export.WriteBatch | analysis/cmd/split_vep.py:281-283 | the inner loop appends the lines of the batch's individuals in order |
| Export.IntToStringNoComma | analysis/cmd/split_vep.py:282 | `str` of an integer has no comma |
| Export.JoinAfterFirst | analysis/cmd/split_vep.py:276 | a first field, a comma and the joined columns form one join |
| Export.HeaderFields | analysis/cmd/split_vep.py:276 | splitting the header on `,` gives `s` and the gene columns |
| Export.RowFields | analysis/cmd/split_vep.py:282 | splitting a line on `,` gives the id, the cell values and one `0` per zero gene |
| Export.RowMatchesHeader | analysis/cmd/split_vep.py:276-283 | every line has as many fields as the header |
| AnnotationDriver.CopyCommand | analysis/cmd/split_vep.py:113 | the `hdfs dfs -cp` command from the pVCF directory to `/cluster/<name>` |
| AnnotationDriver.Step | analysis/cmd/split_vep.py:103-130 | a listed table is skipped; a left-over staged copy makes the copy raise `CalledProcessError` and nothing else changes; otherwise other tables are untouched, the first attempt is unshuffled and the retry comes only after a failure, the table is complete exactly when an attempt wrote it, and the staged copy remains exactly when both failed |
| AnnotationDriver.Requested | analysis/cmd/split_vep.py:99-104 | a file gives a block exactly when it matches the pattern and its contig is requested |
| AnnotationDriver.StepTwice | analysis/cmd/split_vep.py:111-130 | annotating a block again changes nothing, except that it raises `CalledProcessError` exactly when no table is listed and the first pass left (or found) the staged copy |
| AnnotationDriver.RunStopsAtFailure | analysis/cmd/split_vep.py:98-113 | once the loop has raised, the remaining files are not visited |
| AnnotationDriver.RunIdempotent | analysis/cmd/split_vep.py:98-111 | when every requested block's table is listed, the run changes nothing |
| AnnotationDriver.StepSettles | analysis/cmd/split_vep.py:111-130 | a block that does not raise leaves its table or its staged copy and removes nothing else |
| AnnotationDriver.SettledSnoc | analysis/cmd/split_vep.py:98-130 | every requested block keeps its table or staged copy as the loop moves on |
| AnnotationDriver.RunOnSettled | analysis/cmd/split_vep.py:98-113 | when each requested block has its table or a staged copy, a run changes nothing but possibly raises |
| AnnotationDriver.RunSettles | analysis/cmd/split_vep.py:98-130 | a run that did not raise leaves each requested block with its table or its staged copy |
| AnnotationDriver.RunTwice | analysis/cmd/split_vep.py:95-130 | the next run starts from what a run left, with no exception pending; it changes neither the tables, nor the staged files, nor the attempts made; it raises whenever the first run raised, and after a first run that did not raise, exactly when a requested block was left with a staged copy and no table |
| AnnotationDriver.RunOnSettledRaises | analysis/cmd/split_vep.py:98-113 | when each requested block has its table or a staged copy, a run raises exactly when some requested block has no table |
| AnnotationDriver.RunStagesOnlyFiles | analysis/cmd/split_vep.py:107-113 | every staged name was staged before or is one of the files |
| AnnotationDriver.RunNoFailure | analysis/cmd/split_vep.py:98-113 | a run over distinct names, none of them staged at the start, never raises |
| AnnotationDriver.RunKeepsExisting | analysis/cmd/split_vep.py:97-130 | a run never changes or removes a table that was listed before |
| AnnotationDriver.RunAddsOnlyRequested | analysis/cmd/split_vep.py:98-104 | a new table belongs to a listed file of a requested contig |
| AnnotationDriver.RunCoversRequested | analysis/cmd/split_vep.py:111-126 | every requested block has a table after the run unless the run raised or both its attempts failed without leaving one |
| AnnotationDriver.RunAttemptsBounded | analysis/cmd/split_vep.py:115-126 | at most two annotation attempts per file, and the log only grows |
| AnnotationDriver.RunSnoc | analysis/cmd/split_vep.py:98 | the loop over `i + 1` files is one more visit after the loop over `i` files |
| AnnotationDriver.Annotator.constructor | analysis/cmd/split_vep.py:107-110 | a driver starts from the listed tables and the copies an earlier run left staged, with no attempt made and no exception |
| AnnotationDriver.Annotator.AnnotateBlock | analysis/cmd/split_vep.py:111-130 | the in-place loop body leaves the state `Step` describes |
| AnnotationDriver.Annotator.AnnotateVcf | analysis/cmd/split_vep.py:95-130 | the in-place loop over the naturally sorted files, which stops at an exception, leaves the state of `Run` and returns the exception |
| AnnotationDriver.Annotator.VisitFile | analysis/cmd/split_vep.py:98-130 | one pass of the loop leaves the state `Visit` describes: untouched unless the file matches and its contig is requested |
| VariantFiltering.Keep | analysis/utils/variant_filtering.py:26-28 | `filter_rows` keeps exactly the rows the predicate accepts |
| VariantFiltering.KeepIdempotent | analysis/utils/variant_filtering.py:26-28 | filtering twice with one predicate is filtering once |
| VariantFiltering.KeepCompose | analysis/cmd/split_vep.py:220-225 | two filters in a row are one filter by their conjunction |
| VariantFiltering.KeepCons | analysis/utils/variant_filtering.py:26-28 | filtering decides the first row and continues on the rest |
| VariantFiltering.KeepAppend | analysis/utils/variant_filtering.py:26-28 | filtering distributes over concatenation, so kept rows keep their order |
| VariantFiltering.Min | analysis/utils/variant_filtering.py:40 | `hl.min(AD)` is an element no larger than any other |
| VariantFiltering.MeanAtLeast | analysis/utils/variant_filtering.py:27 | a mean reaches a bound exactly when the total reaches the bound times the count |
| VariantFiltering.MeanReadDepth | analysis/utils/variant_filtering.py:25-29 | keeps exactly the rows with entries whose total depth reaches the bound times the entry count |
| VariantFiltering.VariantMissingness | analysis/utils/variant_filtering.py:8-33 | a missing qc column raises `ValueError` naming it; a present name without `variant_qc` fails on the attribute; otherwise keeps exactly the rows with a call rate at the bound or above |
| VariantFiltering.AlleleBalance | analysis/utils/variant_filtering.py:15-44 | fails exactly without `was_split`; otherwise keeps exactly the rows with a balanced heterozygous entry or no heterozygous entry |
| VariantFiltering.AlleleBalanceIgnoresSampleArgs | analysis/utils/variant_filtering.py:36 | `n_sample` and `sample_ratio` have no effect |
| VariantFiltering.HardyWeinberg | analysis/utils/variant_filtering.py:8-52 | checks the qc column, then `was_split`, then reads `variant_qc`; succeeds exactly when all three exist and keeps exactly the rows with a p-value at the bound or above |
| VariantFiltering.HardyWeinbergReportsQcFirst | analysis/utils/variant_filtering.py:49-52 | with both columns missing, the qc column is the one reported |
| VariantFiltering.FilterChainSpec | analysis/cmd/split_vep.py:219-225 | the chain fails exactly when the table has no `was_split`, and otherwise keeps exactly the input rows that pass every filter |
| Aggregation.BlockTables | analysis/cmd/split_vep.py:145-151 | at most one table per manifest file; a single file gives its table exactly when it matches the pattern with the chromosome as contig |
| Aggregation.BlockTablesAppend | analysis/cmd/split_vep.py:145-151 | the tables of two runs of files are those of the first followed by those of the second, so the tables come in file order |
| Aggregation.BlockTablesComplete | analysis/cmd/split_vep.py:145-151 | every manifest file of the chromosome contributes its table, right after the tables of the files before it |
| Aggregation.BlockStatus | analysis/cmd/split_vep.py:152-168 | a block enters `out_mts` as its path exactly when the table is listed and lists a `_SUCCESS` entry |
| Aggregation.Statuses | analysis/cmd/split_vep.py:144-168 | one entry per block |
| Aggregation.Decisions | analysis/cmd/split_vep.py:142-172 | one decision per requested chromosome |
| Aggregation.DecisionsSnoc | analysis/cmd/split_vep.py:142-172 | one more chromosome appends its decision, or the first error is kept |
| Aggregation.DecisionsOkIff | analysis/cmd/split_vep.py:142-172 | the decisions succeed exactly when every chromosome's decision does |
| Aggregation.DecisionsPrefix | analysis/cmd/split_vep.py:142-172 | on success the decisions for all but the last chromosome are a prefix of the result |
| Aggregation.DecisionLast | analysis/cmd/split_vep.py:142-172 | on success the last decision is the last chromosome's |
| Aggregation.DecisionAt | analysis/cmd/split_vep.py:142-172 | on success the k-th decision is the k-th chromosome's |
| Aggregation.DecisionsFirstError | analysis/cmd/split_vep.py:142-172 | on failure the error is that of the first chromosome whose decision fails |
| Aggregation.DecideNotReady | analysis/cmd/split_vep.py:169-172 | `all(out_mts)` fails, and the chromosome is not ready, exactly when some entry is `False` |
| Aggregation.FindSuccess | analysis/cmd/split_vep.py:154-157 | the `any` over the listing finds a `_SUCCESS` name exactly when one exists |
| Aggregation.CheckSuccess | analysis/cmd/split_vep.py:153-159 | `has_success` for a table, with a failed listing counting as none |
| Aggregation.DecideChrom | analysis/cmd/split_vep.py:169-172 | the `all(out_mts)` test and its outcome for one chromosome |
| Aggregation.CollectBlocks | analysis/cmd/split_vep.py:144-168 | the inner loop builds `out_mts` for the chromosome's blocks in file order |
| Aggregation.RareVariantsTable | analysis/cmd/split_vep.py:133-172 | an unlistable destination reports nothing annotated; otherwise each requested chromosome is decided in order, and an exception stops the run |
| Aggregation.DecideAll | analysis/cmd/split_vep.py:142-172 | the loop over the chromosomes gives the decisions in order |
| Aggregation.DecisionsStopAtError | analysis/cmd/split_vep.py:142-172 | once a chromosome raises, later chromosomes are never decided |
| Aggregation.AggregatedIff | analysis/cmd/split_vep.py:150-170 | a chromosome is aggregated exactly when it has blocks and every block is listed with `_SUCCESS`; its tables are the blocks' paths in order |
| Aggregation.NotReadyIff | analysis/cmd/split_vep.py:150-172 | a chromosome is not ready exactly when some block is missing or lacks `_SUCCESS` |
| Aggregation.NotReadyAt | analysis/cmd/split_vep.py:152-172 | one block of the chromosome that is missing or lacks `_SUCCESS` is enough to make the decision "not ready" |
| Aggregation.AllReady | analysis/cmd/split_vep.py:152-172 | when every block is listed and has `_SUCCESS`, the decision is never "not ready" |
| Aggregation.NoBlocksFails | analysis/cmd/split_vep.py:169-179 | a requested chromosome without blocks makes the run raise |
| Aggregation.BlockTablesFromManifest | analysis/cmd/split_vep.py:145-151 | each table named for a chromosome comes from a manifest file of that contig |

## Left out

- Hail, VEP/LOFTEE, Spark, HDFS and dxpy are not modelled: matrix-table reads and writes, `split_multi_hts`, the VEP run, `union_rows`, `explode_rows`, the canonical protein-coding filter, the gene-name annotation and the block-matrix transpose. The model starts from the values these produce.
- The gene names of each batch (`all_gene_names`) and the per-gene grouping of rows are inputs to `Export.ExportTable` and `Scoring.CellValue`; they are not computed.
- `any_lof_hom_n`, `any_lof_n_het` and `n_non_ref` are computed by the source but never reach the output, so they are not modelled.
- `print` output, the log path, the random file suffixes and the gzip compression of the CSV are left out. Lines are modelled without their newline.
- Local paths: `resolve()` is modelled as joining to a working directory; symlinks and `..` are not resolved. The POSIX `//` root is treated as `/`.
- The local branch of `iterdir` is the host's listing, given as `osNames`; its errors are not modelled.
- NaturalSort.TryToInt: only ASCII digits and ASCII whitespace are modelled; Python's `int()` also accepts other Unicode digits and spaces.
- NaturalSort.DigitRuns: `\d` is modelled as the ASCII digits; Python's `re` also matches other Unicode digits.
- Manifest.ContigOk: `\d` is modelled as the ASCII digits, as above.
- Manifest.BlockOk: `\d` is modelled as the ASCII digits, as above.
- Scoring.ToInt8: numpy leaves the cast of an out-of-range value to `int8` unspecified; the model wraps modulo 256. Only the cell values 0, 1 and 2 reach the cast, and `Scoring.CellValueFitsInt8` shows they pass unchanged.
- The `hdfs dfs -cp` and `-rm` calls run with `check=True`. The copy's refusal to overwrite a left-over staged file is modelled; their other failures (network, permissions, a failed `-rm`) are not.
- `split_annotate` is an oracle: its outcome depends only on the file name and `permit_shuffle`, and a failure either leaves an incomplete table or nothing.
- Annotator.AnnotateVcf: a failed listing of the destination (`tmp_paths_list = []`) is not modelled separately; the driver's map is the listing the loop sees.
- Path membership in `tmp_paths_list` is modelled as equality of paths.
- `_chr_table` keys its dictionary by path. Two manifest names with the same groups give one table path: the unescaped dots of the pattern accept any character, so `ukb23157_c1_b0_v1.vcf.gz` and `ukb23157_c1_b0_v1Xvcf.gz` both name `chr-1-b0.mt`. The dictionary then keeps one entry while `out_mts`, and `len(mts)` in the batch layout, count both; the model's block list keeps both and does not model the collapse. `Manifest.MtNameInjective` only says that different groups give different paths.
- An absent allow-list (`eids = None`) and an empty one are the same in the model, as `if eids:` treats them.
- Missing values: a row with no entries has no mean depth and is dropped; an allele-depth total of 0 is not balanced. Missing genotype calls are skipped by the aggregations. A missing `DP` or `AD` cannot be represented, because `Entry.dp` and `Entry.ad` are always present: in analysis/utils/variant_filtering.py:27 `hl.agg.mean` skips a missing `DP`, and at line 40 `hl.min` and `hl.sum` over a missing `AD` give a missing ratio, neither of which the model covers. Haploid calls are not modelled (`Genotype` is diploid).
- Read depths and allele depths are natural numbers and the thresholds are exact reals; floating-point rounding is not modelled.
- Export.NumBatches: `ceil` of a float is modelled as the exact integer ceiling.
- The block-matrix cells are integers, since they hold 0, 1 or 2 before the cast.
- Everything after an exception in `_chr_table` other than the empty-`reduce` error is Hail's and is not modelled.
