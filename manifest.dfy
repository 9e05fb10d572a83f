/** Manifest file names of the bulk exome release and the names of the
    annotated matrix tables derived from them (analysis/cmd/split_vep.py).
    A file takes part only when its name fully matches
    `ukb23157_c(\d{1,2}|X|Y)_b(\d{1,3})_v1.vcf.gz`; the two dots in that
    pattern are unescaped, so each stands for any character but a newline. */
module Manifest {
  import opened Outcomes
  import opened Strings

  const Prefix: string := "ukb23157_c"

  /** Length of the `_v1.vcf.gz` tail the pattern ends with. */
  const TailLength: nat := 10

  /** The first group: one or two decimal digits, or `X`, or `Y`. */
  predicate ContigOk(c: string)
  {
    (1 <= |c| <= 2 && AllDigits(c)) || c == "X" || c == "Y"
  }

  /** The second group: one to three decimal digits. */
  predicate BlockOk(b: string)
  {
    1 <= |b| <= 3 && AllDigits(b)
  }

  /** `_v1.vcf.gz` with `.` matching any character except a newline. */
  predicate TailOk(t: string)
  {
    && |t| == TailLength
    && t[..3] == "_v1" && t[3] != '\n'
    && t[4..7] == "vcf" && t[7] != '\n'
    && t[8..] == "gz"
  }

  /** `name` is the whole pattern with groups `c` and `b`. */
  predicate Decomposes(name: string, c: string, b: string)
  {
    && |name| >= TailLength
    && TailOk(name[|name| - TailLength..])
    && name[..|name| - TailLength] == Prefix + c + "_b" + b
    && ContigOk(c) && BlockOk(b)
  }

  /** The two groups and the `_b` between them: the contig is one or two
      characters long, so at most two cuts need trying. */
  function SplitGroups(mid: string): (r: Option<(string, string)>)
    ensures r.Some? ==> mid == r.value.0 + "_b" + r.value.1 && ContigOk(r.value.0) && BlockOk(r.value.1)
  {
    if |mid| >= 3 && mid[1..3] == "_b" && ContigOk(mid[..1]) && BlockOk(mid[3..]) then
      assert mid == mid[..1] + "_b" + mid[3..];
      Some((mid[..1], mid[3..]))
    else if |mid| >= 4 && mid[2..4] == "_b" && ContigOk(mid[..2]) && BlockOk(mid[4..]) then
      assert mid == mid[..2] + "_b" + mid[4..];
      Some((mid[..2], mid[4..]))
    else None
  }

  /** `re.fullmatch` of the manifest pattern: the two groups, or nothing. */
  function ParseManifestName(name: string): (r: Option<(string, string)>)
    ensures r.Some? ==> Decomposes(name, r.value.0, r.value.1)
  {
    if |name| < |Prefix| + TailLength || name[..|Prefix|] != Prefix
       || !TailOk(name[|name| - TailLength..]) then None
    else
      var mid := name[|Prefix|..|name| - TailLength];
      assert name[..|name| - TailLength] == Prefix + mid;
      SplitGroups(mid)
  }

  /** The parser accepts exactly the names the pattern matches, and the
      groups it reports are the only ones that fit. */
  lemma ParseManifestNameIff(name: string, c: string, b: string)
    ensures ParseManifestName(name) == Some((c, b)) <==> Decomposes(name, c, b)
  {
    if Decomposes(name, c, b) {
      var mid := name[|Prefix|..|name| - TailLength];
      var head := name[..|name| - TailLength];
      assert head == Prefix + c + "_b" + b;
      assert head[..|Prefix|] == Prefix;
      assert name[..|Prefix|] == head[..|Prefix|];
      assert mid == head[|Prefix|..];
      assert mid == c + "_b" + b;
      assert mid[|c|..|c| + 2] == "_b";
      assert mid[..|c|] == c && mid[|c| + 2..] == b;
      if |c| == 2 {
        // a one-character contig would need `_` where c has a digit
        assert mid[1] == c[1] && IsDigit(mid[1]);
        assert mid[1..3] != "_b";
      }
    }
  }

  /** Each of the two dots accepts any character other than a newline. */
  lemma DotsAreWildcards(c: string, b: string, x: char, y: char)
    requires ContigOk(c) && BlockOk(b)
    ensures var name := Prefix + c + "_b" + b + "_v1" + [x] + "vcf" + [y] + "gz";
            ParseManifestName(name) == (if x != '\n' && y != '\n' then Some((c, b)) else None)
  {
    var name := Prefix + c + "_b" + b + "_v1" + [x] + "vcf" + [y] + "gz";
    var tail := "_v1" + [x] + "vcf" + [y] + "gz";
    assert name == (Prefix + c + "_b" + b) + tail;
    assert name[|name| - TailLength..] == tail;
    assert name[..|name| - TailLength] == Prefix + c + "_b" + b;
    assert tail[..3] == "_v1" && tail[3] == x && tail[4..7] == "vcf" && tail[7] == y && tail[8..] == "gz";
    ParseManifestNameIff(name, c, b);
    if x == '\n' || y == '\n' {
      assert !TailOk(tail);
    }
  }

  /** `mt_name`: the matrix table an annotated block is written to. */
  function MtName(contig: string, block: string): (r: string)
    ensures |r| == |contig| + |block| + 9
    ensures r[..4] == "chr-" && r[|r| - 3..] == ".mt"
  {
    var r := "chr-" + contig + "-b" + block + ".mt";
    assert r == ("chr-" + contig + "-b" + block) + ".mt";
    assert r == "chr-" + (contig + "-b" + block + ".mt");
    r
  }

  /** Different blocks are written to different tables: the output name
      determines contig and block, because a valid contig holds no `-`. */
  lemma MtNameInjective(c1: string, b1: string, c2: string, b2: string)
    requires ContigOk(c1) && ContigOk(c2)
    requires MtName(c1, b1) == MtName(c2, b2)
    ensures c1 == c2 && b1 == b2
  {
    MtNameParts(c1, b1);
    MtNameParts(c2, b2);
    // the first `-` after `chr-` ends the contig, so both contigs have one length
    assert |c1| == |c2|;
  }

  /** Where contig and block sit in a table name. */
  lemma MtNameParts(c: string, b: string)
    requires ContigOk(c)
    ensures var n := MtName(c, b);
            && n[4 + |c|] == '-'
            && (forall j :: 4 <= j < 4 + |c| ==> n[j] != '-')
            && n[4..4 + |c|] == c
            && n[6 + |c|..|n| - 3] == b
  {
    var n := MtName(c, b);
    assert n == "chr-" + c + "-b" + b + ".mt";
    forall j | 4 <= j < 4 + |c| ensures n[j] != '-' {
      assert n[j] == c[j - 4];
    }
  }
}
