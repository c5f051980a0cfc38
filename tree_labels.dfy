/** `remap_tree_labels`: the tip labels of a phylogenetic tree, which are
    `<refseq accession>_<assembly name>`, are replaced by `<organism>|<strain>` taken from
    the NCBI assembly reports of the genomes, and the result is written next to the tree. */
module TreeLabels {
  import opened Wrappers
  import opened Strings
  import opened Paths
  import opened NcbiReport

  /** A replacement: every occurrence of `key` becomes `value`. */
  datatype Label = Label(key: string, value: string)

  /** `"{}|{}".format(name, strain).replace('(', '').replace(')', '')`. */
  function LabelValue(md: AssemblyReportMetadata): string {
    ReplaceAll(ReplaceAll(Show(md.organismName) + "|" + Show(md.infraspecificName), "(", ""), ")", "")
  }

  /** A string with its parentheses removed. */
  function Unparenthesized(s: string): (r: string)
    ensures '(' !in r && ')' !in r
  {
    var t := RemoveChar(s, '(');
    var r := RemoveChar(t, ')');
    assert '(' !in r by {
      if '(' in r {
        RemoveCharKeeps(t, ')', '(');
      }
    }
    r
  }

  /** The value is the organism name and the strain, each with its parentheses removed,
      joined by `|`; it holds no parenthesis, and names without parentheses are kept as
      they are. */
  lemma LabelValueParts(md: AssemblyReportMetadata)
    ensures LabelValue(md) == Unparenthesized(Show(md.organismName)) + "|" + Unparenthesized(Show(md.infraspecificName))
    ensures '(' !in LabelValue(md) && ')' !in LabelValue(md)
    ensures ('(' !in Show(md.organismName) && ')' !in Show(md.organismName)
             && '(' !in Show(md.infraspecificName) && ')' !in Show(md.infraspecificName)) ==>
      LabelValue(md) == Show(md.organismName) + "|" + Show(md.infraspecificName)
  {
    var name := Show(md.organismName);
    var strain := Show(md.infraspecificName);
    var s := name + "|" + strain;
    ReplaceCharByEmpty(s, '(');
    RemoveAroundBar(name, strain, '(');
    var t := RemoveChar(name, '(') + "|" + RemoveChar(strain, '(');
    ReplaceCharByEmpty(t, ')');
    RemoveAroundBar(RemoveChar(name, '('), RemoveChar(strain, '('), ')');
    if '(' !in name && ')' !in name && '(' !in strain && ')' !in strain {
      RemoveCharAbsent(name, '(');
      RemoveCharAbsent(name, ')');
      RemoveCharAbsent(strain, '(');
      RemoveCharAbsent(strain, ')');
    }
  }

  /** Removing a character other than `|` works on each side of a `|` separately. */
  lemma RemoveAroundBar(a: string, b: string, c: char)
    requires c != '|'
    ensures RemoveChar(a + "|" + b, c) == RemoveChar(a, c) + "|" + RemoveChar(b, c)
  {
    RemoveCharAppend(a + "|", b, c);
    RemoveCharAppend(a, "|", c);
    assert RemoveChar("|", c) == "|";
  }

  /** `"{}_{}".format(accession, assembly_name)`. */
  function LabelKey(md: AssemblyReportMetadata): string {
    Show(md.refseqAssemblyAccession) + "_" + Show(md.assemblyName)
  }

  /** The key is the accession and the assembly name, unmodified, around `_`; so it is never
      empty. */
  lemma LabelKeyParts(md: AssemblyReportMetadata)
    ensures var key := LabelKey(md); var a := Show(md.refseqAssemblyAccession);
      |key| == |a| + 1 + |Show(md.assemblyName)|
      && key[..|a|] == a && key[|a|] == '_' && key[|a| + 1..] == Show(md.assemblyName)
    ensures |LabelKey(md)| > 0
  {
  }

  /** The label of one report. */
  function LabelOf(report: Report): Label {
    Label(LabelKey(report.metadata), LabelValue(report.metadata))
  }

  /** The labels of `reports`, one per report, in report order. */
  function IdMap(reports: seq<Report>): (r: seq<Label>)
    ensures |r| == |reports|
    ensures forall i :: 0 <= i < |reports| ==> r[i] == LabelOf(reports[i])
  {
    seq(|reports|, i requires 0 <= i < |reports| => LabelOf(reports[i]))
  }

  /** The `id_map.append` loop. */
  method BuildIdMap(reports: seq<Report>) returns (idMap: seq<Label>)
    ensures idMap == IdMap(reports)
  {
    idMap := [];
    for i := 0 to |reports|
      invariant |idMap| == i
      invariant forall j :: 0 <= j < i ==> idMap[j] == LabelOf(reports[j])
    {
      var md := reports[i].metadata;
      var value := LabelValue(md);
      var key := LabelKey(md);
      idMap := idMap + [Label(key, value)];
    }
  }

  /** The replacements applied one after another, each to the text the earlier ones left. */
  function ReplaceEach(contents: string, labels: seq<Label>): string
    decreases |labels|
  {
    if labels == [] then contents
    else ReplaceEach(ReplaceAll(contents, labels[0].key, labels[0].value), labels[1..])
  }

  /** The `contents = contents.replace(key, value)` loop. */
  method RemapContents(contents: string, idMap: seq<Label>) returns (r: string)
    ensures r == ReplaceEach(contents, idMap)
  {
    r := contents;
    for i := 0 to |idMap|
      invariant ReplaceEach(r, idMap[i..]) == ReplaceEach(contents, idMap)
    {
      assert idMap[i..][1..] == idMap[i + 1..];
      r := ReplaceAll(r, idMap[i].key, idMap[i].value);
    }
    assert idMap[|idMap|..] == [];
  }

  /** Running the replacements of `a` and then those of `b` is running those of `a + b`:
      they are applied in list order. */
  lemma {:induction false} ReplaceEachAppend(contents: string, a: seq<Label>, b: seq<Label>)
    ensures ReplaceEach(contents, a + b) == ReplaceEach(ReplaceEach(contents, a), b)
    decreases |a|
  {
    if a == [] {
      assert a + b == b;
    } else {
      assert (a + b)[1..] == a[1..] + b;
      ReplaceEachAppend(ReplaceAll(contents, a[0].key, a[0].value), a[1..], b);
    }
  }

  /** A key that does not occur in the text leaves it to the later replacements. */
  lemma ReplaceEachAbsent(contents: string, first: Label, rest: seq<Label>)
    requires |first.key| > 0
    requires forall i :: !OccursAt(contents, first.key, i)
    ensures ReplaceEach(contents, [first] + rest) == ReplaceEach(contents, rest)
  {
    ReplaceAbsent(contents, first.key, first.value);
    assert ([first] + rest)[1..] == rest;
  }

  /** Replacements of keys by themselves change nothing. */
  lemma {:induction false} ReplaceEachBySelf(contents: string, labels: seq<Label>)
    requires forall i :: 0 <= i < |labels| ==> labels[i].key == labels[i].value
    ensures ReplaceEach(contents, labels) == contents
    decreases |labels|
  {
    if labels != [] {
      ReplaceBySelf(contents, labels[0].key);
      ReplaceEachBySelf(contents, labels[1..]);
    }
  }

  const LabeledSuffix := ".labeled.treefile"

  /** `tree_path.with_suffix('.labeled.treefile')`, which raises when the path has an empty
      name. */
  function OutputPath(tree: Path): (r: Option<Path>)
    ensures r.Some? <==> Name(tree) != ""
    ensures r.Some? ==> Parent(r.value) == Parent(tree) && Name(r.value) == Stem(Name(tree)) + LabeledSuffix
  {
    if Name(tree) == "" then None else Some(WithSuffix(tree, LabeledSuffix))
  }

  /** `base.treefile` becomes `base.labeled.treefile` in the same folder. */
  lemma OutputPathOfTreefile(dir: Path, base: string)
    requires |base| >= 1
    ensures OutputPath(dir + [base + ".treefile"]) == Some(dir + [base + LabeledSuffix])
  {
    var tree := dir + [base + ".treefile"];
    StemOfDotted(base, "treefile");
    assert base + ".treefile" == base + "." + "treefile";
    assert Parent(tree) == dir;
  }

  /** The labelled tree: where it goes and what it holds. */
  datatype LabeledTree = LabeledTree(path: Path, contents: string)

  /** `remap_tree_labels(tree_path, reports)` on a tree file that holds `contents`; `None`
      when the output path cannot be formed. */
  method RemapTreeLabels(treePath: Path, reports: seq<Report>, contents: string) returns (r: Option<LabeledTree>)
    ensures r.Some? <==> Name(treePath) != ""
    ensures r.Some? ==>
      r.value.path == OutputPath(treePath).value
      && r.value.contents == ReplaceEach(contents, IdMap(reports))
  {
    var idMap := BuildIdMap(reports);
    var labeled := RemapContents(contents, idMap);
    var output := OutputPath(treePath);
    if output.None? {
      return None;
    }
    return Some(LabeledTree(output.value, labeled));
  }
}
