/** `PathDx`: a path that is either on the local filesystem or inside a
    DNAnexus database (analysis/utils/dxpathlib.py). The Python class keeps a
    POSIX path and marks the database case by a hidden drive field; here the
    two cases are the two constructors of a datatype. */
module DxPath {
  import opened Outcomes
  import opened Strings

  const DrvDnax: string := "dnax://"
  const DrvLocal: string := "file://"

  /** A path as the POSIX path parser leaves it: a root flag and the
      normalised segments after the root. A database path is always rooted;
      its drive is `dnax://<databaseId>`. */
  datatype PathDx =
    | Local(rooted: bool, segments: seq<string>)
    | Dnax(databaseId: string, segments: seq<string>)

  /** One entry of the database catalog, with the name its description carries. */
  datatype CatalogEntry = CatalogEntry(id: string, name: string)

  /** The catalog search response: its entries, and whether it announced a
      further page (`next` not None). */
  datatype Catalog = Catalog(entries: seq<CatalogEntry>, paginated: bool)

  /** A segment as the POSIX path parser keeps it. */
  predicate NormalSegment(s: string)
  {
    s != "" && s != "." && '/' !in s
  }

  predicate NormalSegments(segs: seq<string>)
  {
    forall i :: 0 <= i < |segs| ==> NormalSegment(segs[i])
  }

  predicate IsAbsolute(arg: string)
  {
    |arg| > 0 && arg[0] == '/'
  }

  /** Keep the pieces of a split on "/" that name a segment: empty pieces
      (from repeated or trailing slashes) and "." are dropped. */
  function DropEmptyAndDot(pieces: seq<string>): (segs: seq<string>)
    requires forall i :: 0 <= i < |pieces| ==> '/' !in pieces[i]
    ensures NormalSegments(segs) && |segs| <= |pieces|
    ensures forall x :: x in segs <==> x in pieces && x != "" && x != "."
    ensures |pieces| == 1 ==> segs == (if pieces[0] == "" || pieces[0] == "." then [] else pieces)
  {
    if pieces == [] then []
    else
      assert pieces == [pieces[0]] + pieces[1..];
      if pieces[0] == "" || pieces[0] == "." then DropEmptyAndDot(pieces[1..])
      else [pieces[0]] + DropEmptyAndDot(pieces[1..])
  }

  /** Dropping works piece by piece, so the kept pieces stay in their order. */
  lemma {:induction false} DropEmptyAndDotAppend(a: seq<string>, b: seq<string>)
    requires forall i :: 0 <= i < |a| ==> '/' !in a[i]
    requires forall i :: 0 <= i < |b| ==> '/' !in b[i]
    ensures DropEmptyAndDot(a + b) == DropEmptyAndDot(a) + DropEmptyAndDot(b)
  {
    if a == [] {
      assert a + b == b;
    } else {
      assert (a + b)[0] == a[0] && (a + b)[1..] == a[1..] + b;
      DropEmptyAndDotAppend(a[1..], b);
    }
  }

  /** The segments one path argument contributes. */
  function Segments(arg: string): (segs: seq<string>)
    ensures NormalSegments(segs)
    ensures '/' !in arg ==> segs == (if arg == "" || arg == "." then [] else [arg])
  {
    SplitOnCharPiecesFree(arg, '/');
    assert '/' !in arg ==> SplitOn(arg, "/") == [arg] by {
      if '/' !in arg { SplitOnCharAbsent(arg, '/'); }
    }
    DropEmptyAndDot(SplitOn(arg, "/"))
  }

  /** An argument's segments are those before its first slash followed by
      those after it; with the case of a slash-free argument this fixes the
      segments of every argument. */
  lemma SegmentsSlash(a: string, b: string)
    ensures Segments(a + "/" + b) == Segments(a) + Segments(b)
  {
    SplitOnCharAppend(a, '/', b);
    SplitOnCharPiecesFree(a, '/');
    SplitOnCharPiecesFree(b, '/');
    DropEmptyAndDotAppend(SplitOn(a, "/"), SplitOn(b, "/"));
  }

  /** Parse path arguments left to right onto a root flag and segments. An
      absolute argument discards everything before it and roots the path;
      any other adds its segments to those before. */
  function ParseArgs(rooted: bool, segs: seq<string>, args: seq<string>): (r: (bool, seq<string>))
    requires NormalSegments(segs)
    ensures NormalSegments(r.1)
    ensures r.0 <==> rooted || exists i :: 0 <= i < |args| && IsAbsolute(args[i])
    ensures args == [] ==> r == (rooted, segs)
    ensures |args| == 1 ==>
              r == (rooted || IsAbsolute(args[0]), (if IsAbsolute(args[0]) then [] else segs) + Segments(args[0]))
    decreases |args|
  {
    if args == [] then (rooted, segs)
    else
      var a := args[0];
      var r := ParseArgs(IsAbsolute(a) || rooted, (if IsAbsolute(a) then [] else segs) + Segments(a), args[1..]);
      assert forall i :: 1 <= i < |args| ==> args[i] == args[1..][i - 1];
      r
  }

  /** Parsing two lists of arguments one after the other is parsing the
      second onto the result of the first: with the one-argument case this
      fixes the result of every parse. */
  lemma {:induction false} ParseArgsAppend(rooted: bool, segs: seq<string>, xs: seq<string>, ys: seq<string>)
    requires NormalSegments(segs)
    ensures var p := ParseArgs(rooted, segs, xs);
            ParseArgs(rooted, segs, xs + ys) == ParseArgs(p.0, p.1, ys)
    decreases |xs|
  {
    if xs == [] {
      assert xs + ys == ys;
    } else {
      var a := xs[0];
      assert (xs + ys)[0] == a && (xs + ys)[1..] == xs[1..] + ys;
      ParseArgsAppend(IsAbsolute(a) || rooted, (if IsAbsolute(a) then [] else segs) + Segments(a), xs[1..], ys);
    }
  }

  /** `PathDx(*args, database_id=id)`: the parser is handed "/" before the
      arguments, so the path is rooted, and the drive is set afterwards. */
  function AtDatabase(id: string, args: seq<string>): (p: PathDx)
    ensures p.Dnax? && p.databaseId == id && NormalSegments(p.segments)
  {
    Dnax(id, ParseArgs(false, [], ["/"] + args).1)
  }

  function Matches(e: CatalogEntry, ref: string): bool
  {
    e.id == ref || e.name == ref
  }

  /** The index of the first catalog entry whose id or name is `ref`. */
  function FirstMatch(entries: seq<CatalogEntry>, ref: string): (r: Option<nat>)
    ensures r.Some? ==> r.value < |entries| && Matches(entries[r.value], ref)
    ensures r.Some? ==> forall j :: 0 <= j < r.value ==> !Matches(entries[j], ref)
    ensures r.None? <==> forall j :: 0 <= j < |entries| ==> !Matches(entries[j], ref)
  {
    if entries == [] then None
    else if Matches(entries[0], ref) then Some(0)
    else match FirstMatch(entries[1..], ref)
      case None => None
      case Some(i) => Some(i + 1)
  }

  /** The catalog-creation command suggested when a reference is unknown. */
  function CreateHint(ref: string): string
  {
    "CREATE DATABASE IF NOT EXISTS " + ref
  }

  function NotFoundMessage(ref: string): string
  {
    "Database doesn't exist. Create with: SC.sql(f\"" + CreateHint(ref) + " LOCATION 'dnax://'\")"
  }

  /** What `find_database` returns or raises. */
  function LookupDatabase(catalog: Catalog, ref: string): (r: Result<CatalogEntry>)
  {
    if catalog.paginated then Err(AssertionError)
    else match FirstMatch(catalog.entries, ref)
      case Some(i) => Ok(catalog.entries[i])
      case None => Err(ValueError(NotFoundMessage(ref)))
  }

  /** `find_database`: a for-else search over the catalog response. */
  method FindDatabase(catalog: Catalog, ref: string) returns (r: Result<CatalogEntry>)
    ensures catalog.paginated ==> r == Err(AssertionError)
    ensures r.Ok? ==>
      (exists i :: 0 <= i < |catalog.entries| && r.value == catalog.entries[i] && Matches(r.value, ref)
         && forall j :: 0 <= j < i ==> !Matches(catalog.entries[j], ref))
    ensures r.Err? && !catalog.paginated ==>
      (r.error == ValueError(NotFoundMessage(ref))
         && forall j :: 0 <= j < |catalog.entries| ==> !Matches(catalog.entries[j], ref))
    ensures r == LookupDatabase(catalog, ref)
  {
    if catalog.paginated {
      return Err(AssertionError);
    }
    var i := 0;
    while i < |catalog.entries|
      invariant 0 <= i <= |catalog.entries|
      invariant forall j :: 0 <= j < i ==> !Matches(catalog.entries[j], ref)
    {
      var db := catalog.entries[i];
      if db.id == ref || db.name == ref {
        return Ok(db);
      }
      i := i + 1;
    }
    r := Err(ValueError(NotFoundMessage(ref)));
  }

  /** `PathDx(*args, database=..., database_id=...)`. */
  function New(args: seq<string>, database: Option<string>, databaseId: Option<string>,
               catalog: Catalog): (r: Result<PathDx>)
    ensures database.Some? && databaseId.Some? ==>
      r == Err(ValueError("Both database and database_id are specified."))
    ensures database.None? && databaseId.None? ==> r.Ok? && r.value.Local?
    ensures database.None? && databaseId.Some? ==> r == Ok(AtDatabase(databaseId.value, args))
    ensures database.Some? && databaseId.None? ==>
      match LookupDatabase(catalog, database.value)
      case Ok(e) => r == Ok(AtDatabase(e.id, args))
      case Err(err) => r == Err(err)
  {
    if database.None? && databaseId.None? then
      var parsed := ParseArgs(false, [], args);
      Ok(Local(parsed.0, parsed.1))
    else if database.Some? && databaseId.Some? then
      Err(ValueError("Both database and database_id are specified."))
    else if database.Some? then
      var e :- LookupDatabase(catalog, database.value);
      Ok(AtDatabase(e.id, args))
    else
      Ok(AtDatabase(databaseId.value, args))
  }

  /** The `/` operator: parse one more argument onto the path; the drive is
      kept. An absolute argument replaces the segments, any other extends
      them, and a local path becomes rooted with an absolute argument. */
  function Div(p: PathDx, arg: string): (q: PathDx)
    requires NormalSegments(p.segments)
    ensures q.Local? == p.Local? && NormalSegments(q.segments)
    ensures q.Dnax? ==> q.databaseId == p.databaseId
    ensures q.Local? ==> q.rooted == (p.rooted || IsAbsolute(arg))
    ensures q.segments == (if IsAbsolute(arg) then [] else p.segments) + Segments(arg)
  {
    match p
    case Local(rooted, segs) =>
      var parsed := ParseArgs(rooted, segs, [arg]);
      Local(parsed.0, parsed.1)
    case Dnax(id, segs) => Dnax(id, ParseArgs(true, segs, [arg]).1)
  }

  /** `p.name`: the last segment, or "" for a path without one. */
  function Name(p: PathDx): string
  {
    if p.segments == [] then "" else p.segments[|p.segments| - 1]
  }

  /** Resolution of a local path against the working directory `cwd`
      (itself given as absolute segments). */
  function Resolve(rooted: bool, segs: seq<string>, cwd: seq<string>): seq<string>
  {
    if rooted then segs else cwd + segs
  }

  /** `p.rstr`: the canonical string handed to Hail and HDFS. */
  function Rstr(p: PathDx, cwd: seq<string>): string
  {
    match p
    case Dnax(id, segs) => DrvDnax + id + "/" + Join(segs, "/")
    case Local(rooted, segs) => DrvLocal + "/" + Join(Resolve(rooted, segs, cwd), "/")
  }

  /** The folder argument of the list call for a database path. */
  function Folder(segs: seq<string>): string
  {
    if |segs| > 0 then Join(segs, "/") else "/"
  }

  /** The listing response for one database folder: the `path` of each
      result, given by the catalog service `listFolder(databaseId, folder)`. */
  type ListFolder = (string, string) -> seq<string>

  /** How one listing result is turned into a child path: it is split on the
      database id; one piece means the id is absent, two pieces give the
      child, more are not supported. */
  function Classify(id: string, result: string): (r: Result<PathDx>)
    requires |id| > 0
    ensures r.Ok? ==> r.value.Dnax? && r.value.databaseId == id
    ensures var pieces := SplitOn(result, id);
            && (|pieces| == 1 ==> r == Err(NotADirectoryError("Not a directory: " + result)))
            && (|pieces| == 2 ==> r == Ok(AtDatabase(id, [pieces[1]])))
            && (|pieces| > 2 ==> r == Err(NotImplementedError))
  {
    var pieces := SplitOn(result, id);
    var last := pieces[|pieces| - 1];
    if |pieces| == 1 then
      JoinSplitOn(result, id);
      Err(NotADirectoryError("Not a directory: " + last))
    else if |pieces| == 2 then
      assert pieces[1..] == [last];
      Ok(AtDatabase(id, [last]))
    else Err(NotImplementedError)
  }

  /** The children yielded for `results` before the first result that does
      not classify, and the exception raised there, if any. */
  function ClassifyAll(id: string, results: seq<string>): (r: (seq<PathDx>, Option<PyError>))
    requires |id| > 0
    ensures |r.0| <= |results|
    ensures forall i :: 0 <= i < |r.0| ==> Classify(id, results[i]) == Ok(r.0[i])
    ensures r.1.None? ==> |r.0| == |results|
    ensures r.1.Some? ==> |r.0| < |results| && Classify(id, results[|r.0|]) == Err(r.1.value)
  {
    if results == [] then ([], None)
    else
      var first := Classify(id, results[0]);
      if first.Err? then ([], Some(first.error))
      else
        var rest := ClassifyAll(id, results[1..]);
        ([first.value] + rest.0, rest.1)
  }

  const EmptyListingMessage: string := "Directory is empty OR path does not exist."

  /** What the generator `p.iterdir()` yields before it stops, and the
      exception it stops with, if any. A local path yields a child per name
      the host's directory listing `osNames` returns. */
  function IterDirSpec(p: PathDx, listFolder: ListFolder, osNames: seq<string>)
    : (r: (seq<PathDx>, Option<PyError>))
  {
    match p
    case Local(rooted, segs) => (seq(|osNames|, i requires 0 <= i < |osNames| => Local(rooted, segs + [osNames[i]])), None)
    case Dnax(id, segs) =>
      var results := listFolder(id, Folder(segs));
      if results == [] then ([], Some(Warning(EmptyListingMessage)))
      else if id == "" then ([], Some(ValueError("empty separator")))
      else ClassifyAll(id, results)
  }

  /** `p.listdir()`: the generator run to its end; an exception raised
      part-way discards what was yielded. */
  function ListDirSpec(p: PathDx, listFolder: ListFolder, osNames: seq<string>): Result<seq<PathDx>>
  {
    var (yielded, failure) := IterDirSpec(p, listFolder, osNames);
    if failure.Some? then Err(failure.value) else Ok(yielded)
  }

  /** The yielded children and the exception determine each other as
      `ClassifyAll` describes them. */
  lemma {:induction false} ClassifyAllUnique(id: string, results: seq<string>,
                                             ys: seq<PathDx>, f: Option<PyError>)
    requires |id| > 0 && |ys| <= |results|
    requires forall i :: 0 <= i < |ys| ==> Classify(id, results[i]) == Ok(ys[i])
    requires f.None? ==> |ys| == |results|
    requires f.Some? ==> |ys| < |results| && Classify(id, results[|ys|]) == Err(f.value)
    ensures (ys, f) == ClassifyAll(id, results)
  {
    if results != [] {
      match Classify(id, results[0])
      case Err(e) =>
        assert |ys| == 0;
      case Ok(c) =>
        assert |ys| > 0;
        assert results[1..][|ys| - 1..] == results[|ys|..];
        ClassifyAllUnique(id, results[1..], ys[1..], f);
        assert [ys[0]] + ys[1..] == ys;
    }
  }

  /** The loop of `iterdir` over a database folder's results: split each on
      the database id and yield the child, until a result raises. */
  method ClassifyResults(id: string, results: seq<string>)
    returns (yielded: seq<PathDx>, failure: Option<PyError>)
    requires |id| > 0
    ensures |yielded| <= |results|
    ensures forall i :: 0 <= i < |yielded| ==> Classify(id, results[i]) == Ok(yielded[i])
    ensures failure.None? ==> |yielded| == |results|
    ensures failure.Some? ==> |yielded| < |results| && Classify(id, results[|yielded|]) == Err(failure.value)
  {
    yielded, failure := [], None;
    var i := 0;
    while i < |results|
      invariant 0 <= i <= |results| && |yielded| == i
      invariant forall j :: 0 <= j < i ==> Classify(id, results[j]) == Ok(yielded[j])
    {
      var pieces := SplitOn(results[i], id);
      var last := pieces[|pieces| - 1];
      assert Classify(id, results[i]) == if |pieces| == 1 then Err(NotADirectoryError("Not a directory: " + last))
                                         else if |pieces| == 2 then Ok(AtDatabase(id, [last]))
                                         else Err(NotImplementedError);
      if |pieces| == 1 {
        failure := Some(NotADirectoryError("Not a directory: " + last));
        return;
      } else if |pieces| == 2 {
        yielded := yielded + [AtDatabase(id, [last])];
      } else {
        failure := Some(NotImplementedError);
        return;
      }
      i := i + 1;
    }
  }

  /** `iterdir`: for a database path, one list call for the folder, an
      exception for an empty response, then the classifying loop; for a
      local path, a child per name the host lists. */
  method IterDir(p: PathDx, listFolder: ListFolder, osNames: seq<string>)
    returns (yielded: seq<PathDx>, failure: Option<PyError>)
    ensures p.Dnax? && failure.None? ==> |yielded| == |listFolder(p.databaseId, Folder(p.segments))| > 0
    ensures p.Dnax? ==> forall i :: 0 <= i < |yielded| ==>
      yielded[i].Dnax? && yielded[i].databaseId == p.databaseId
    ensures (yielded, failure) == IterDirSpec(p, listFolder, osNames)
  {
    match p
    case Local(rooted, segs) =>
      yielded := [];
      for i := 0 to |osNames|
        invariant yielded == seq(i, j requires 0 <= j < i => Local(rooted, segs + [osNames[j]]))
      {
        yielded := yielded + [Local(rooted, segs + [osNames[i]])];
      }
      failure := None;
    case Dnax(id, segs) =>
      var results := listFolder(id, Folder(segs));
      if results == [] {
        yielded, failure := [], Some(Warning(EmptyListingMessage));
      } else if id == "" {
        yielded, failure := [], Some(ValueError("empty separator"));
      } else {
        yielded, failure := ClassifyResults(id, results);
        ClassifyAllUnique(id, results, yielded, failure);
      }
  }

  /** `listdir`: `list(self.iterdir())`. */
  method ListDir(p: PathDx, listFolder: ListFolder, osNames: seq<string>) returns (r: Result<seq<PathDx>>)
    ensures p.Dnax? && r.Ok? ==> |r.value| == |listFolder(p.databaseId, Folder(p.segments))| > 0
    ensures r == ListDirSpec(p, listFolder, osNames)
  {
    var yielded, failure := IterDir(p, listFolder, osNames);
    if failure.Some? {
      r := Err(failure.value);
    } else {
      r := Ok(yielded);
    }
  }

  // ---------------------------------------------------------------------
  // Properties of construction and of the canonical string

  /** The error of `find_database` for an unknown reference carries the
      catalog-creation command for that reference. */
  lemma NotFoundCarriesHint(catalog: Catalog, ref: string)
    requires !catalog.paginated
    requires forall j :: 0 <= j < |catalog.entries| ==> !Matches(catalog.entries[j], ref)
    ensures LookupDatabase(catalog, ref).Err?
    ensures Contains(LookupDatabase(catalog, ref).error.message, CreateHint(ref))
  {
    ContainsInfix("Database doesn't exist. Create with: SC.sql(f\"", CreateHint(ref), " LOCATION 'dnax://'\")");
  }

  /** Giving both a name and an id fails whatever the catalog holds: no
      lookup takes place. */
  lemma BothGivenIgnoresCatalog(args: seq<string>, name: string, id: string, c1: Catalog, c2: Catalog)
    ensures New(args, Some(name), Some(id), c1) == New(args, Some(name), Some(id), c2)
    ensures New(args, Some(name), Some(id), c1).Err? && New(args, Some(name), Some(id), c1).error.ValueError?
  {
  }

  /** The argument pieces a lone segment name contributes, with or without a
      leading slash, and what a bare "/" contributes. */
  lemma {:induction false} SegmentsOfName(name: string)
    requires NormalSegment(name)
    ensures Segments(name) == [name]
    ensures Segments("/" + name) == [name]
    ensures Segments("/") == []
  {
    SplitOnCharAbsent(name, '/');
    SplitOnCharFirst("", '/', name);
    assert "" + ['/'] + name == "/" + name;
    assert DropEmptyAndDot(["", name]) == DropEmptyAndDot([name]);
    SplitOnCharFirst("", '/', "");
    assert "" + ['/'] + "" == "/";
    SplitOnCharAbsent("", '/');
  }

  /** A database path written "t.ht", "/t.ht", or as the database root
      joined with "t.ht" is the same path, whose canonical string is
      `dnax://<id>/t.ht`. */
  lemma {:induction false} DatabasePathForms(id: string, name: string, cwd: seq<string>)
    requires NormalSegment(name)
    ensures AtDatabase(id, [name]) == Dnax(id, [name])
    ensures AtDatabase(id, ["/" + name]) == Dnax(id, [name])
    ensures AtDatabase(id, []) == Dnax(id, [])
    ensures Div(AtDatabase(id, []), name) == Dnax(id, [name])
    ensures Rstr(Dnax(id, [name]), cwd) == "dnax://" + id + "/" + name
  {
    SegmentsOfName(name);
    ParseAfterRoot([name], [name]);
    ParseAfterRoot(["/" + name], [name]);
    ParseAfterRoot([], []);
    assert ParseArgs(true, [], [name]) == ParseArgs(true, [] + Segments(name), []);
  }

  /** The parse of "/" followed by one argument, or by none. */
  lemma ParseAfterRoot(args: seq<string>, segs: seq<string>)
    requires |args| <= 1 && Segments("/") == []
    requires |args| == 1 ==> Segments(args[0]) == segs
    requires |args| == 0 ==> segs == []
    ensures ParseArgs(false, [], ["/"] + args) == (true, segs)
  {
    assert (["/"] + args)[1..] == args;
    assert IsAbsolute("/");
    assert [] + Segments("/") == [];
    assert ParseArgs(false, [], ["/"] + args) == ParseArgs(true, [], args);
    if |args| == 1 {
      assert ParseArgs(true, [], args) == ParseArgs(IsAbsolute(args[0]) || true, (if IsAbsolute(args[0]) then [] else []) + segs, []);
      assert [] + segs == segs;
    }
  }

  /** A database named by name resolves to the path built from the id the
      catalog gives for that name, so both spell the same canonical string. */
  lemma ByNameEqualsById(args: seq<string>, name: string, catalog: Catalog, cwd: seq<string>)
    requires LookupDatabase(catalog, name).Ok?
    ensures New(args, Some(name), None, catalog)
         == New(args, None, Some(LookupDatabase(catalog, name).value.id), catalog)
    ensures Rstr(New(args, Some(name), None, catalog).value, cwd)
         == Rstr(New(args, None, Some(LookupDatabase(catalog, name).value.id), catalog).value, cwd)
  {
  }

  /** Handing an id to the `database` argument finds the entry with that id
      when no earlier entry matches it, so it builds the same path as passing
      it as `database_id`. */
  lemma {:induction false} IdAsNameResolves(args: seq<string>, id: string, catalog: Catalog, k: nat)
    requires !catalog.paginated && k < |catalog.entries| && catalog.entries[k].id == id
    requires forall j :: 0 <= j < k ==> !Matches(catalog.entries[j], id)
    ensures New(args, Some(id), None, catalog) == New(args, None, Some(id), catalog)
  {
    var m := FirstMatch(catalog.entries, id);
    assert Matches(catalog.entries[k], id);
    assert m.Some? && m.value == k;
  }

  /** The parse of one relative or absolute segment name. */
  lemma ParseOneName(name: string)
    requires NormalSegment(name)
    ensures ParseArgs(false, [], [name]) == (false, [name])
    ensures ParseArgs(false, [], ["/" + name]) == (true, [name])
  {
    SegmentsOfName(name);
    assert name[0] in name;
    assert !IsAbsolute(name) && IsAbsolute("/" + name);
    assert [name][1..] == [] && ["/" + name][1..] == [];
    assert [] + [name] == [name];
    assert ParseArgs(false, [], [name]) == ParseArgs(false, [] + Segments(name), []);
    assert ParseArgs(false, [], ["/" + name]) == ParseArgs(true, [] + Segments("/" + name), []);
  }

  /** Without a database the path is local: "x.ht" resolves under the
      working directory, "/x.ht" stays at the root, and no argument gives
      the working directory itself. */
  lemma LocalPathForms(name: string, cwd: seq<string>, catalog: Catalog)
    requires NormalSegment(name)
    ensures New([], None, None, catalog) == Ok(Local(false, []))
    ensures Rstr(Local(false, []), cwd) == "file:///" + Join(cwd, "/")
    ensures New([name], None, None, catalog) == Ok(Local(false, [name]))
    ensures Rstr(Local(false, [name]), cwd) == "file:///" + Join(cwd + [name], "/")
    ensures New(["/" + name], None, None, catalog) == Ok(Local(true, [name]))
    ensures Rstr(Local(true, [name]), cwd) == "file:///" + name
  {
    ParseOneName(name);
    assert ParseArgs(false, [], []) == (false, []);
    assert Resolve(false, [], cwd) == cwd;
    assert Resolve(false, [name], cwd) == cwd + [name];
    assert Resolve(true, [name], cwd) == [name];
    assert Join([name], "/") == name;
    assert DrvLocal + "/" == "file:///";
  }

  /** Read a canonical database string back into its path. */
  function ParseDnaxRstr(s: string): Option<PathDx>
  {
    var pieces := SplitOn(s, "/");
    if |pieces| >= 4 && pieces[0] == "dnax:" && pieces[1] == "" then
      Some(Dnax(pieces[2], if pieces[3..] == [""] then [] else pieces[3..]))
    else None
  }

  /** The canonical string of a database path determines the path: reading
      it back gives the database id and the segments. */
  lemma {:induction false} DnaxRstrRoundTrip(id: string, segs: seq<string>, cwd: seq<string>)
    requires '/' !in id && NormalSegments(segs)
    ensures ParseDnaxRstr(Rstr(Dnax(id, segs), cwd)) == Some(Dnax(id, segs))
  {
    var tail := if segs == [] then [""] else segs;
    var parts := ["dnax:", "", id] + tail;
    RstrAsJoin(id, segs, tail, cwd);
    forall i | 0 <= i < |parts| ensures '/' !in parts[i] {
      if i >= 3 { assert parts[i] == tail[i - 3]; }
    }
    SplitOnJoinChar(parts, '/');
    assert parts[3..] == tail;
    if segs != [] { assert segs[0] != ""; }
  }

  /** The canonical string of a database path is the join on "/" of
      `dnax:`, an empty piece, the id and the segments (or one empty piece
      for the root). */
  lemma RstrAsJoin(id: string, segs: seq<string>, tail: seq<string>, cwd: seq<string>)
    requires tail == if segs == [] then [""] else segs
    ensures Rstr(Dnax(id, segs), cwd) == Join(["dnax:", "", id] + tail, "/")
  {
    var parts := ["dnax:", "", id] + tail;
    assert Join(tail, "/") == Join(segs, "/");
    assert parts[1..] == ["", id] + tail;
    assert parts[2..] == [id] + tail;
    assert parts[3..] == tail;
    assert Join(parts[2..], "/") == id + "/" + Join(tail, "/");
    assert Join(parts[1..], "/") == "" + "/" + Join(parts[2..], "/");
    assert Join(parts, "/") == "dnax:" + "/" + Join(parts[1..], "/");
    assert "dnax:" + "/" + ("" + "/" + (id + "/" + Join(tail, "/"))) == DrvDnax + id + "/" + Join(tail, "/");
  }

  /** Equal canonical strings denote the same database path. */
  lemma RstrInjective(p: PathDx, q: PathDx, cwd: seq<string>)
    requires p.Dnax? && q.Dnax? && '/' !in p.databaseId && '/' !in q.databaseId
    requires NormalSegments(p.segments) && NormalSegments(q.segments)
    requires Rstr(p, cwd) == Rstr(q, cwd)
    ensures p == q
  {
    DnaxRstrRoundTrip(p.databaseId, p.segments, cwd);
    DnaxRstrRoundTrip(q.databaseId, q.segments, cwd);
  }

  // ---------------------------------------------------------------------
  // Properties of listing a database folder

  /** The folder sent to the list call is the segments after the root, or
      "/" for the database root. */
  lemma FolderOfPath(id: string, name: string)
    requires NormalSegment(name)
    ensures Folder(Dnax(id, []).segments) == "/"
    ensures Folder(Dnax(id, [name]).segments) == name
  {
  }

  /** An empty response raises the warning: listing a database folder never
      returns an empty list. */
  lemma ListDirEmptyIsWarning(p: PathDx, listFolder: ListFolder, osNames: seq<string>)
    requires p.Dnax?
    ensures listFolder(p.databaseId, Folder(p.segments)) == [] ==>
      ListDirSpec(p, listFolder, osNames) == Err(Warning(EmptyListingMessage))
    ensures ListDirSpec(p, listFolder, osNames).Ok? ==> |ListDirSpec(p, listFolder, osNames).value| > 0
  {
  }

  /** A result is not a directory entry exactly when the database id does
      not occur in it. */
  lemma ClassifyNotADirectory(id: string, result: string)
    requires |id| > 0
    ensures Classify(id, result).Err? && Classify(id, result).error.NotADirectoryError?
      <==> !Contains(result, id)
    ensures !Contains(result, id) ==> Classify(id, result) == Err(NotADirectoryError("Not a directory: " + result))
  {
    SplitOnSingleIff(result, id);
    JoinSplitOn(result, id);
  }

  /** A listing that succeeds gives one child per result, in order, each in
      the same database and named by what follows the id in the result. */
  lemma {:induction false} ListDirChildren(p: PathDx, listFolder: ListFolder, osNames: seq<string>, i: nat)
    requires p.Dnax? && ListDirSpec(p, listFolder, osNames).Ok?
    requires i < |listFolder(p.databaseId, Folder(p.segments))|
    ensures |ListDirSpec(p, listFolder, osNames).value| == |listFolder(p.databaseId, Folder(p.segments))|
    ensures |SplitOn(listFolder(p.databaseId, Folder(p.segments))[i], p.databaseId)| == 2
    ensures ListDirSpec(p, listFolder, osNames).value[i]
         == AtDatabase(p.databaseId, [SplitOn(listFolder(p.databaseId, Folder(p.segments))[i], p.databaseId)[1]])
  {
    var results := listFolder(p.databaseId, Folder(p.segments));
    var r := ClassifyAll(p.databaseId, results);
    assert Classify(p.databaseId, results[i]) == Ok(r.0[i]);
  }
}
