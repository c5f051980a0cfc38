/** The header of an NCBI genome-assembly report: the `#`-lines are matched against
    `#\s(.+)[:](.*)`, their keys and values stripped and entered into a dict, and the dict
    mapped onto the fixed fields of an assembly record; the other lines of three or more
    characters are kept as sequence lines. */
module NcbiReport {
  import opened Wrappers
  import opened Collections
  import opened Strings
  import opened Paths

  // ---------------------------------------------------------------------------------------
  // the assembly record

  /** `AssemblyReportMetadata`: one optional raw value per header label (the date is kept as
      the raw text), and whether RefSeq and GenBank call the assemblies identical. */
  datatype AssemblyReportMetadata = AssemblyReportMetadata(
    assemblyName: Option<string>,
    organismName: Option<string>,
    infraspecificName: Option<string>,
    taxonomicId: Option<string>,
    biosampleId: Option<string>,
    bioprojectId: Option<string>,
    submitter: Option<string>,
    date: Option<string>,
    assemblyType: Option<string>,
    releaseType: Option<string>,
    assemblyLevel: Option<string>,
    genomeRepresentation: Option<string>,
    wgsProject: Option<string>,
    assemblyMethod: Option<string>,
    expectedFinalVersion: Option<string>,
    genomeCoverage: Option<string>,
    sequencingTechnology: Option<string>,
    genebankAssemblyExtension: Option<string>,
    refseqAssemblyAccession: Option<string>,
    identical: bool)

  /** The header label each optional field is read from, in field order. */
  const FieldLabels: seq<string> := [
    "Assembly name", "Organism name", "Infraspecific name", "Taxid", "BioSample",
    "BioProject", "Submitter", "Date", "Assembly type", "Release type", "Assembly level",
    "Genome representation", "WGS project", "Assembly method", "Expected final version",
    "Genome coverage", "Sequencing technology", "GenBank assembly accession",
    "RefSeq assembly accession"]

  /** The label of the `identical` flag. */
  const IdenticalLabel: string := "RefSeq assembly and GenBank assemblies identical"

  /** The optional fields of a record, in the order of `FieldLabels`. */
  function Fields(md: AssemblyReportMetadata): (r: seq<Option<string>>)
    ensures |r| == |FieldLabels|
  {
    [md.assemblyName, md.organismName, md.infraspecificName, md.taxonomicId, md.biosampleId,
     md.bioprojectId, md.submitter, md.date, md.assemblyType, md.releaseType,
     md.assemblyLevel, md.genomeRepresentation, md.wgsProject, md.assemblyMethod,
     md.expectedFinalVersion, md.genomeCoverage, md.sequencingTechnology,
     md.genebankAssemblyExtension, md.refseqAssemblyAccession]
  }

  /** A record is determined by its optional fields and its flag. */
  lemma FieldsDetermine(a: AssemblyReportMetadata, b: AssemblyReportMetadata)
    requires Fields(a) == Fields(b) && a.identical == b.identical
    ensures a == b
  {
    var fa, fb := Fields(a), Fields(b);
    assert fa[0] == fb[0] && fa[1] == fb[1] && fa[2] == fb[2] && fa[3] == fb[3];
    assert fa[4] == fb[4] && fa[5] == fb[5] && fa[6] == fb[6] && fa[7] == fb[7];
    assert fa[8] == fb[8] && fa[9] == fb[9] && fa[10] == fb[10] && fa[11] == fb[11];
    assert fa[12] == fb[12] && fa[13] == fb[13] && fa[14] == fb[14] && fa[15] == fb[15];
    assert fa[16] == fb[16] && fa[17] == fb[17] && fa[18] == fb[18];
  }

  /** `args.get(label)`. */
  function Lookup(args: map<string, string>, key: string): Option<string> {
    if key in args then Some(args[key]) else None
  }

  /** `from_dict(**args)` fails with a `TypeError`, "multiple values for argument", when one
      of the keyword arguments is called like its first parameter `cls`. */
  datatype ReportError = MultipleValues(argument: string)

  /** `cls(*values)`: the record with the given optional fields, in field order. */
  function Record(values: seq<Option<string>>, identical: bool): (md: AssemblyReportMetadata)
    requires |values| == |FieldLabels|
    ensures Fields(md) == values && md.identical == identical
  {
    AssemblyReportMetadata(values[0], values[1], values[2], values[3], values[4], values[5],
      values[6], values[7], values[8], values[9], values[10], values[11], values[12],
      values[13], values[14], values[15], values[16], values[17], values[18], identical)
  }

  /** `AssemblyReportMetadata.from_dict(**args)`: each field is looked up under its label, and
      the flag is set when its label holds exactly `yes`. */
  function FromDict(args: map<string, string>): (r: Result<AssemblyReportMetadata, ReportError>)
    ensures r.Failure? <==> "cls" in args
    ensures r.Failure? ==> r.error == MultipleValues("cls")
    ensures r.Success? ==> forall i :: 0 <= i < |FieldLabels| ==>
      Fields(r.value)[i] == Lookup(args, FieldLabels[i])
    ensures r.Success? ==> (r.value.identical <==> IdenticalLabel in args && args[IdenticalLabel] == "yes")
  {
    if "cls" in args then Failure(MultipleValues("cls"))
    else
      var values := seq(|FieldLabels|, i requires 0 <= i < |FieldLabels| => Lookup(args, FieldLabels[i]));
      Success(Record(values, Lookup(args, IdenticalLabel) == Some("yes")))
  }

  /** The dict holding `labels[i]: values[i]` for every present value. */
  function Entries(labels: seq<string>, values: seq<Option<string>>): map<string, string>
    requires |labels| == |values|
  {
    if labels == [] then map[]
    else
      var rest := Entries(labels[1..], values[1..]);
      match values[0]
      case None => rest
      case Some(v) => rest[labels[0] := v]
  }

  lemma {:induction false} EntriesLookup(labels: seq<string>, values: seq<Option<string>>)
    requires |labels| == |values|
    requires forall i, j :: 0 <= i < j < |labels| ==> labels[i] != labels[j]
    ensures forall k :: k in Entries(labels, values) ==> k in labels
    ensures forall i :: 0 <= i < |labels| ==> Lookup(Entries(labels, values), labels[i]) == values[i]
    decreases |labels|
  {
    if labels != [] {
      EntriesLookup(labels[1..], values[1..]);
      forall i | 1 <= i < |labels| ensures Lookup(Entries(labels, values), labels[i]) == values[i] {
        assert labels[i] == labels[1..][i - 1] && values[i] == values[1..][i - 1];
        assert labels[i] != labels[0];
      }
      forall k | k in Entries(labels, values) ensures k in labels {
        if k != labels[0] {
          assert k in labels[1..];
        }
      }
    }
  }

  /** The header entries a record is read back from: every present field under its label,
      and `yes` under the flag's label when the flag is set. */
  function ArgsOf(md: AssemblyReportMetadata): map<string, string> {
    Entries(FieldLabels + [IdenticalLabel], Fields(md) + [if md.identical then Some("yes") else None])
  }

  /** The labels are pairwise different, and none is `cls`. */
  lemma LabelsDistinct()
    ensures forall i, j :: 0 <= i < j < |FieldLabels + [IdenticalLabel]| ==>
      (FieldLabels + [IdenticalLabel])[i] != (FieldLabels + [IdenticalLabel])[j]
    ensures "cls" !in FieldLabels + [IdenticalLabel]
  {
  }

  /** `from_dict` reads a record back from its own entries. */
  lemma FromDictOfArgs(md: AssemblyReportMetadata)
    ensures FromDict(ArgsOf(md)) == Success(md)
  {
    var labels := FieldLabels + [IdenticalLabel];
    var values := Fields(md) + [if md.identical then Some("yes") else None];
    LabelsDistinct();
    EntriesLookup(labels, values);
    var args := ArgsOf(md);
    assert "cls" !in args;
    var r := FromDict(args).value;
    forall i | 0 <= i < |FieldLabels| ensures Fields(r)[i] == Fields(md)[i] {
      assert labels[i] == FieldLabels[i] && values[i] == Fields(md)[i];
    }
    assert Lookup(args, labels[|FieldLabels|]) == values[|FieldLabels|];
    FieldsDetermine(r, md);
  }

  // ---------------------------------------------------------------------------------------
  // the header pattern `#\s(.+)[:](.*)`

  /** Where `.` stops matching from `j` on: the first line feed at or after `j`, or the end. */
  function LineEnd(t: string, j: nat): (e: nat)
    requires j <= |t|
    ensures j <= e <= |t|
    ensures forall k :: j <= k < e ==> t[k] != '\n'
    ensures e < |t| ==> t[e] == '\n'
    decreases |t| - j
  {
    if j == |t| || t[j] == '\n' then j else LineEnd(t, j + 1)
  }

  /** The last colon at an index in [lo, hi), or -1 if there is none. */
  function LastColon(t: string, lo: nat, hi: nat): (c: int)
    requires lo <= hi <= |t|
    ensures c == -1 || (lo <= c < hi && t[c] == ':')
    ensures forall k :: lo <= k < hi && c < k ==> t[k] != ':'
    decreases hi - lo
  {
    if hi == lo then -1
    else if t[hi - 1] == ':' then hi - 1
    else LastColon(t, lo, hi - 1)
  }

  /** The groups of a match of the pattern starting at `i`. The greedy `(.+)` takes the line
      up to its last colon (leaving at least one character before it) and `(.*)` the rest of
      the line. */
  function MatchAt(t: string, i: nat): Option<(string, string)>
    requires i <= |t|
  {
    if i + 2 <= |t| && t[i] == '#' && IsSpace(t[i + 1]) then
      var e := LineEnd(t, i + 2);
      if e < i + 3 then None
      else
        var c := LastColon(t, i + 3, e);
        if c < 0 then None else Some((t[i + 2..c], t[c + 1..e]))
    else None
  }

  /** `t` holds, at index `i`, a `#`, one whitespace character, `key`, a colon and `value`,
      followed by a line feed or the end of `t`; the key is not empty, neither part holds a
      line feed and the value holds no colon. */
  predicate HeaderAt(t: string, i: nat, key: string, value: string) {
    var c := i + 2 + |key|;
    var e := c + 1 + |value|;
    e <= |t| && t[i] == '#' && IsSpace(t[i + 1]) && t[i + 2..c] == key && t[c] == ':'
    && t[c + 1..e] == value && (e == |t| || t[e] == '\n')
    && |key| >= 1 && '\n' !in key && '\n' !in value && ':' !in value
  }

  /** A match at `i` is a header at `i`. */
  lemma MatchIsHeader(t: string, i: nat, key: string, value: string)
    requires i <= |t| && MatchAt(t, i) == Some((key, value))
    ensures HeaderAt(t, i, key, value)
  {
    var e := LineEnd(t, i + 2);
    var c := LastColon(t, i + 3, e);
    assert c == i + 2 + |key|;
    assert forall k :: 0 <= k < |value| ==> value[k] == t[c + 1 + k];
  }

  /** A header at `i` is the match at `i`. */
  lemma HeaderIsMatch(t: string, i: nat, key: string, value: string)
    requires HeaderAt(t, i, key, value)
    ensures MatchAt(t, i) == Some((key, value))
  {
    var c := i + 2 + |key|;
    var e := c + 1 + |value|;
    forall k | i + 2 <= k < e ensures t[k] != '\n' {
      if k < c {
        assert t[k] == key[k - i - 2];
      } else if k > c {
        assert t[k] == value[k - c - 1];
      }
    }
    assert LineEnd(t, i + 2) == e;
    forall k | c < k < e ensures t[k] != ':' {
      assert t[k] == value[k - c - 1];
    }
    assert LastColon(t, i + 3, e) == c;
  }

  /** The leftmost index from `i` on at which the pattern matches, or the end of `t`, where
      it cannot match. */
  function FirstMatch(t: string, i: nat): (j: nat)
    requires i <= |t|
    ensures i <= j <= |t|
    ensures forall k :: i <= k < j ==> MatchAt(t, k).None?
    ensures j == |t| ==> MatchAt(t, j).None?
    ensures j < |t| ==> MatchAt(t, j).Some?
    decreases |t| - i
  {
    if i == |t| || MatchAt(t, i).Some? then i else FirstMatch(t, i + 1)
  }

  /** `regex.search(t).groups()`: the groups of the match at the leftmost index that has one,
      or nothing when no index has one. */
  function HeaderMatch(t: string): (r: Option<(string, string)>)
    ensures r.None? <==> forall j :: 0 <= j <= |t| ==> MatchAt(t, j).None?
    ensures r.Some? ==> exists j :: 0 <= j < |t| && r == MatchAt(t, j) && forall k :: 0 <= k < j ==> MatchAt(t, k).None?
  {
    MatchAt(t, FirstMatch(t, 0))
  }

  /** A line holding exactly `# key: value` yields its key and value: the key runs up to the
      last colon, and may itself hold colons. */
  lemma HeaderRoundTrip(sp: char, key: string, value: string)
    requires IsSpace(sp) && |key| >= 1 && '\n' !in key && '\n' !in value && ':' !in value
    ensures HeaderMatch("#" + [sp] + key + ":" + value) == Some((key, value))
  {
    var t := "#" + [sp] + key + ":" + value;
    assert t[2..2 + |key|] == key;
    assert t[3 + |key|..3 + |key| + |value|] == value;
    HeaderIsMatch(t, 0, key, value);
  }

  /** A match is a header of the line somewhere, and no header starts further left. */
  lemma HeaderMatchSound(t: string)
    requires HeaderMatch(t).Some?
    ensures exists i: nat ::
      (HeaderAt(t, i, HeaderMatch(t).value.0, HeaderMatch(t).value.1)
       && forall j: nat, k, v :: j < i ==> !HeaderAt(t, j, k, v))
  {
    var kv := HeaderMatch(t).value;
    var i :| 0 <= i < |t| && HeaderMatch(t) == MatchAt(t, i)
      && forall k :: 0 <= k < i ==> MatchAt(t, k).None?;
    MatchIsHeader(t, i, kv.0, kv.1);
    forall j: nat, k, v | j < i ensures !HeaderAt(t, j, k, v) {
      if HeaderAt(t, j, k, v) {
        HeaderIsMatch(t, j, k, v);
      }
    }
  }

  /** A line without a header yields nothing. */
  lemma HeaderMatchComplete(t: string)
    requires forall i: nat, k, v :: !HeaderAt(t, i, k, v)
    ensures HeaderMatch(t).None?
  {
    forall j | 0 <= j <= |t| ensures MatchAt(t, j).None? {
      if MatchAt(t, j).Some? {
        MatchIsHeader(t, j, MatchAt(t, j).value.0, MatchAt(t, j).value.1);
      }
    }
  }

  // ---------------------------------------------------------------------------------------
  // parse and parse_metadata

  /** A line starting with `#` and longer than two characters. */
  predicate IsMetadataLine(line: string) {
    |line| > 2 && line[0] == '#'
  }

  /** A line not starting with `#` and longer than two characters. */
  predicate IsSequenceLine(line: string) {
    |line| > 2 && line[0] != '#'
  }

  /** The metadata lines and the sequence lines, each in file order; no line is in both. */
  function SplitReport(contents: seq<string>): (r: (seq<string>, seq<string>))
    ensures forall l :: l in r.0 <==> l in contents && IsMetadataLine(l)
    ensures forall l :: l in r.1 <==> l in contents && IsSequenceLine(l)
    ensures forall l :: l in r.0 ==> l !in r.1
    ensures IsSubsequence(r.0, contents) && IsSubsequence(r.1, contents)
  {
    FilterKeepsOrder(contents, IsMetadataLine);
    FilterKeepsOrder(contents, IsSequenceLine);
    (Filter(contents, IsMetadataLine), Filter(contents, IsSequenceLine))
  }

  predicate IsShortLine(line: string) {
    |line| <= 2
  }

  /** Every line is a metadata line, a sequence line or a line of at most two characters. */
  lemma {:induction false} SplitReportCount(contents: seq<string>)
    ensures |SplitReport(contents).0| + |SplitReport(contents).1| + |Filter(contents, IsShortLine)|
      == |contents|
    decreases |contents|
  {
    if contents != [] {
      SplitReportCount(contents[1..]);
    }
  }

  /** The stripped key and value of a header line. */
  function MetadataPair(line: string): Option<(string, string)> {
    match HeaderMatch(line)
    case None => None
    case Some(kv) => Some((Strip(kv.0), Strip(kv.1)))
  }

  /** `parse_metadata`: the stripped pairs entered into a dict, then `from_dict`. */
  function ParseMetadata(lines: seq<string>): Result<AssemblyReportMetadata, ReportError> {
    FromDict(Gather(MetadataPair, lines))
  }

  /** A field whose label no header line carries is absent. */
  lemma MetadataMissing(lines: seq<string>, f: nat)
    requires ParseMetadata(lines).Success? && f < |FieldLabels|
    requires forall j :: 0 <= j < |lines| ==> !Yields(MetadataPair, lines[j], FieldLabels[f])
    ensures Fields(ParseMetadata(lines).value)[f] == None
  {
    GatherKeys(MetadataPair, lines, FieldLabels[f]);
  }

  /** A field takes the stripped value of the last header line that carries its label. */
  lemma MetadataLastWins(lines: seq<string>, f: nat, i: nat)
    requires ParseMetadata(lines).Success? && f < |FieldLabels|
    requires i < |lines| && Yields(MetadataPair, lines[i], FieldLabels[f])
    requires forall j :: i < j < |lines| ==> !Yields(MetadataPair, lines[j], FieldLabels[f])
    ensures Fields(ParseMetadata(lines).value)[f] == Some(MetadataPair(lines[i]).value.1)
  {
    GatherLastWins(MetadataPair, lines, i);
  }

  /** The flag is set exactly when the last header line with its label has the value `yes`. */
  lemma MetadataIdenticalLast(lines: seq<string>, i: nat)
    requires ParseMetadata(lines).Success?
    requires i < |lines| && Yields(MetadataPair, lines[i], IdenticalLabel)
    requires forall j :: i < j < |lines| ==> !Yields(MetadataPair, lines[j], IdenticalLabel)
    ensures ParseMetadata(lines).value.identical <==> MetadataPair(lines[i]).value.1 == "yes"
  {
    GatherLastWins(MetadataPair, lines, i);
  }

  /** The flag is clear when no header line has its label. */
  lemma MetadataIdenticalMissing(lines: seq<string>)
    requires ParseMetadata(lines).Success?
    requires forall j :: 0 <= j < |lines| ==> !Yields(MetadataPair, lines[j], IdenticalLabel)
    ensures !ParseMetadata(lines).value.identical
  {
    GatherKeys(MetadataPair, lines, IdenticalLabel);
  }

  /** `NCBIReport.parse`: the record read from the metadata lines, and the sequence lines. */
  function ParseReport(contents: seq<string>): (r: Result<(AssemblyReportMetadata, seq<string>), ReportError>)
    ensures r.Success? <==> ParseMetadata(SplitReport(contents).0).Success?
    ensures r.Success? ==> r.value == (ParseMetadata(SplitReport(contents).0).value, SplitReport(contents).1)
  {
    var (metadata, sequences) := SplitReport(contents);
    var md :- ParseMetadata(metadata);
    Success((md, sequences))
  }

  // ---------------------------------------------------------------------------------------
  // the report

  /** An assembly report: the sample id taken from its file name, its record and its
      sequence lines. */
  datatype Report = Report(sampleId: string, metadata: AssemblyReportMetadata, sequences: seq<string>)

  const ReportTag: string := "_assembly_report"

  /** `path.stem.replace('_assembly_report', '')`. */
  function SampleId(path: Path): string {
    ReplaceAll(Stem(Name(path)), ReportTag, "")
  }

  /** The report named `<id>_assembly_report.<ext>` has the sample id `<id>`, provided no
      occurrence of the tag starts inside `<id>`. */
  lemma SampleIdOfReportName(dir: Path, id: string, ext: string)
    requires |ext| >= 1 && '.' !in ext
    requires forall i :: 0 <= i < |id| ==> !OccursAt(id + ReportTag, ReportTag, i)
    ensures SampleId(dir + [id + ReportTag + "." + ext]) == id
  {
    StemOfDotted(id + ReportTag, ext);
    ReplaceKeepsPrefix(id, ReportTag, ReportTag, "");
    assert ReplaceAll(ReportTag, ReportTag, "") == "" + ReplaceAll([], ReportTag, "");
    assert id + "" == id;
  }

  /** `NCBIReport(path)` on a file with content `text`, read as its lines. */
  function NewReport(path: Path, text: string): (r: Result<Report, ReportError>)
    ensures r.Success? <==> ParseReport(Split(text, '\n')).Success?
    ensures r.Success? ==> (r.value.sampleId == SampleId(path)
      && (r.value.metadata, r.value.sequences) == ParseReport(Split(text, '\n')).value)
  {
    var parsed :- ParseReport(Split(text, '\n'));
    Success(Report(SampleId(path), parsed.0, parsed.1))
  }
}
