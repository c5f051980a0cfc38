# A verified model of the cooperlab sequence-analysis helpers

This project models four pieces of a bioinformatics toolbox in Dafny and proves properties
of them.

- **breseq genome-diff parser and VCF converter** (`GenomeDiffParser`). breseq's `.gd`
  format holds one record per line, with tab-separated tokens. The model covers these steps:
  - Each line is routed by the length of its type tag: three letters make a mutation, two
    make an evidence record, and anything else is dropped.
  - The positional tokens are zipped with the per-type schema `TYPE_SPECIFIC_FIELDS`.
  - `key=value` annotations are pulled from every token by the pattern `([\w]+)[=]([^\t]+)`.
  - Mutations are indexed by `(seq_id, position)` and evidence by id.
  - Mutations of type SNP, INS, SUB, DEL and INV become the eight columns of a VCF line. The
    slicing of the reference sequence is 1-based.
- **NCBI assembly-report reader** (`NcbiReport`). Lines become header lines (`#`) and sequence
  lines. Header lines are matched against `#\s(.+)[:](.*)`, which splits them at their last
  colon. The stripped pairs are gathered into a dict, and the dict fills the fixed record
  `AssemblyReportMetadata`. The sample id comes from the report's file name.
- **FASTQ concatenation planner** (`DmuxConcat`). This is the `groupby` dict-of-lists loop,
  the read-key rule `stem.split('_')[-2]`, the naming rule for output files, and the filter
  on run folders. `combine_files` is modelled for one row of a sample sheet. It sorts the
  candidate files, groups them by read key, and plans one concatenation per key in ascending
  key order.
- **Tree relabelling** (`TreeLabels`). One `(key, value)` label is built per assembly report,
  and the labels are replaced one after another in the text of a Newick tree. The output
  path is the tree path with a new suffix.

Support modules:
- `Wrappers` has Option and Result. Result stands in for a raised exception.
- `Collections` has filtering, zipping, `dict()` of a pair list, and index maps.
- `Strings` has `split`, `join`, `replace`, `strip`, reversal, and `int()`/`str()` on
  integers.
- `Ordering` has Python's `<` on strings and sequences and an insertion sort.
- `Paths` has `pathlib`'s `name`, `parent`, `stem`, `suffix`, `with_suffix`, `/` and `<`.

On these points the model follows the code, even where VCF convention or the names in the
code suggest something else:
- `to_vcf` puts `PASS` in the QUAL column and `.` in FILTER.
- The INFO column always holds `CAT`, `GP`, `P` and `TP`. A missing value prints as `None`.
- `from_dict(**args)` raises a TypeError when the dict has a key `cls`, because the key
  collides with the classmethod's first parameter. `Mutation(*fields, **named)` does the
  same with `self`.
- `get_evidence` fails on the parent id `.`, which breseq writes for "no parent".

## Model

| member | source | states |
|---|---|---|
| GenomeDiffParser.FirstAssignment | breseq/genome_diff_parser.py:11-12 | the leftmost `=` at or after a start index that has a word character before it and a non-tab after it; none when there is no such `=` |
| GenomeDiffParser.NamedField | breseq/genome_diff_parser.py:11-12 | `regex.search(token)`: no match exactly when no `=` has a word character before it and a non-tab after it; a match has a non-empty all-word-character key and a non-empty tab-free value (which groups it takes: `NamedFieldGroups`) |
| GenomeDiffParser.NamedFieldGroups | breseq/genome_diff_parser.py:11-12 | a match takes the first usable `=`; the key is the whole word run ending just before it, and the value the tab-free run after it, which for a tab-free token is the rest of the token |
| GenomeDiffParser.NamedFieldRoundTrip | breseq/genome_diff_parser.py:11-12 | a token written `key=value`, with a word-character key and a tab-free value, is read back as exactly that key and value |
| GenomeDiffParser.Matches | breseq/genome_diff_parser.py:210-214 | definition only: the groups of the matching tokens in token order; `NamedFieldsIsDict` relates it to the dict |
| GenomeDiffParser.NamedFields | breseq/genome_diff_parser.py:209-215 | definition only: the groups entered into a dict token by token; its properties are `NamedFieldsIsDict`, `NamedFieldsKeys` and `NamedFieldsLastWins` |
| GenomeDiffParser.NamedFieldsIsDict | breseq/genome_diff_parser.py:210-215 | the named fields are `dict()` of the list of match groups, in token order |
| GenomeDiffParser.NamedFieldsKeys | breseq/genome_diff_parser.py:210-215 | a key is present exactly when some token of the row matches with that key |
| GenomeDiffParser.NamedFieldsLastWins | breseq/genome_diff_parser.py:214 | the value of a key is that of the last token that matches with it |
| GenomeDiffParser.IntFieldOf | breseq/genome_diff_parser.py:76-79 | `position`/`size`: missing when absent, kept when empty, `int()` when non-empty; failure exactly when `int()` rejects the text |
| GenomeDiffParser.NewMutation | breseq/genome_diff_parser.py:67-82 | `Mutation(*pairs, **named)` raises on a named `self` and on fewer than three pairs |
| GenomeDiffParser.NewMutationFails | breseq/genome_diff_parser.py:76-79 | with three pairs or more and no `self`, construction fails exactly when `position` or `size` is non-empty text `int()` rejects |
| GenomeDiffParser.NewMutationFields | breseq/genome_diff_parser.py:68-82 | type, id and parent ids come from the first three pairs; parent ids are the comma split (commas + 1 of them); `seq_id` and `new_seq` default to `''` |
| GenomeDiffParser.Get | breseq/genome_diff_parser.py:99-100 | the value of the last positional pair with the key when there is one, else the named value; None exactly when neither a positional pair nor a named field has the key |
| GenomeDiffParser.ToDict | breseq/genome_diff_parser.py:91-97 | the keys are the positional keys, `type`, `id`, `parent_id` and the named keys; every named field appears with its own value, over everything else |
| GenomeDiffParser.GetVersusToDict | breseq/genome_diff_parser.py:91-100 | `get` prefers the positional value and `to_dict` the named one; the two agree on every key with no clash |
| GenomeDiffParser.ToDictLeading | breseq/genome_diff_parser.py:91-97 | `to_dict` always has type, id and parent_id, each holding the record's own value unless a named field of that name overrides it |
| GenomeDiffParser.Columns | breseq/genome_diff_parser.py:60-62 | definition only: the eight columns in VCF order, INFO joined by `;` or `.` when empty; stated by `RenderHasEightColumns` |
| GenomeDiffParser.Render | breseq/genome_diff_parser.py:60-63 | definition only: the columns joined by tabs; stated by `RenderHasEightColumns` |
| GenomeDiffParser.RenderHasEightColumns | breseq/genome_diff_parser.py:60-63 | `str(record)` splits back at tabs into exactly its eight columns when no field holds a tab |
| GenomeDiffParser.PyIndex | breseq/genome_diff_parser.py:144 | Python indexing: defined exactly for `-len <= i < len`; a non-negative index picks that character |
| GenomeDiffParser.PySlice | breseq/genome_diff_parser.py:146-147 | Python slicing agrees with the plain slice for in-range bounds |
| GenomeDiffParser.GetPosition | breseq/genome_diff_parser.py:140-151 | an int p gives the 1-based base p (IndexError out of range); a pair (a, b) gives bases a to b-1, which is b-a of them; other arguments raise |
| GenomeDiffParser.BaseAt | breseq/genome_diff_parser.py:144 | `genome[p - 1]` fails exactly outside Python's index range and otherwise gives base p |
| GenomeDiffParser.SpanOf | breseq/genome_diff_parser.py:110 | `(position, position + size)` exists exactly when both are ints |
| GenomeDiffParser.RefAlt | breseq/genome_diff_parser.py:103-120 | per type: SNP ALT is `new_seq`; INS ALT is REF + `new_seq`; SUB ALT is `new_seq`; DEL ALT is `.`; INV ALT is REF reversed; any other type raises naming it |
| GenomeDiffParser.MutationToVcf | breseq/genome_diff_parser.py:102-137 | CHROM=`seq_id`, POS=`position`, ID=`.`, QUAL=`PASS`, FILTER=`.`, REF/ALT from `RefAlt`, and fails exactly when `RefAlt` does |
| GenomeDiffParser.PointConversion | breseq/genome_diff_parser.py:103-108 | SNP and INS at an in-range position read the base there; SNP replaces it and INS appends to it |
| GenomeDiffParser.SpanConversion | breseq/genome_diff_parser.py:109-117 | SUB, DEL and INV read `size` bases from `position`; INV reverses them without complementing |
| GenomeDiffParser.InfoEntryShape | breseq/genome_diff_parser.py:132 | an entry keeps its key and loses every space of its value |
| GenomeDiffParser.InfoEntry | breseq/genome_diff_parser.py:132 | definition only: `key=value` with every space removed; stated by `InfoEntryShape` |
| GenomeDiffParser.Info | breseq/genome_diff_parser.py:123-132 | definition only: the four entries in sorted key order; stated by `InfoShape` and `InfoKeysSorted` |
| GenomeDiffParser.InfoShape | breseq/genome_diff_parser.py:123-132 | INFO is exactly CAT, GP, P, TP in that order; a missing GP/CAT prints `None`, and P is the number of parent ids |
| GenomeDiffParser.InfoKeysSorted | breseq/genome_diff_parser.py:123-131 | the emitted key order is the source's list sorted: the same keys, strictly ascending |
| GenomeDiffParser.IgnoredLines | breseq/genome_diff_parser.py:186-195 | blank lines and the four-letter tags of the schema are dropped |
| GenomeDiffParser.Route | breseq/genome_diff_parser.py:182-195 | definition only: the branch `parse` takes by the length of the first token; stated by `IgnoredLines` and `LineCount` |
| GenomeDiffParser.PositionalPairs | breseq/genome_diff_parser.py:200-203 | min(len(row), 3 + len(schema)) pairs; pair k is the k-th key of `type, id, parent_id` + schema with token k |
| GenomeDiffParser.ParseRow | breseq/genome_diff_parser.py:199-207 | an unknown tag raises KeyError; a named `self` and fewer than three tokens raise; success needs a known tag and three tokens |
| GenomeDiffParser.ParseRowFields | breseq/genome_diff_parser.py:199-207 | a parsed row keeps type, id, parent ids, the named fields, and the schema keys paired with tokens 4 onwards |
| GenomeDiffParser.ParseBy | breseq/genome_diff_parser.py:179-197 | the appending loop computes the reference result `ParseLinesBy` |
| GenomeDiffParser.ParseLinesBy | breseq/genome_diff_parser.py:179-197 | definition only: the reference result of the parse loop for a given row parser; its properties are the `ParseLines*` lemmas |
| GenomeDiffParser.ParseLines | breseq/genome_diff_parser.py:179-197 | definition only: `ParseLinesBy` with `parse_row`; its properties are the `ParseLines*` lemmas |
| GenomeDiffParser.Parse | breseq/genome_diff_parser.py:179-197 | `parse` with `parse_row` computes `ParseLines` |
| GenomeDiffParser.ParseLinesSucceeds | breseq/genome_diff_parser.py:182-197 | parsing succeeds exactly when every mutation or evidence line parses |
| GenomeDiffParser.ParseLinesHead | breseq/genome_diff_parser.py:182-197 | the first line goes to the front of its own list and to no other list |
| GenomeDiffParser.ParseLinesMutations | breseq/genome_diff_parser.py:188-190 | the mutations are the parsed three-letter lines, one for one, in file order |
| GenomeDiffParser.ParseLinesEvidence | breseq/genome_diff_parser.py:191-193 | the evidence is the parsed two-letter lines, one for one, in file order |
| GenomeDiffParser.ParseLinesFirstError | breseq/genome_diff_parser.py:182-193 | a failed parse reports the error of the first record line that fails |
| GenomeDiffParser.ParseLinesSkip | breseq/genome_diff_parser.py:183-195 | a dropped line contributes nothing |
| GenomeDiffParser.ParseLinesRecord | breseq/genome_diff_parser.py:188-193 | a parsed line is prepended to the list its tag length selects |
| GenomeDiffParser.ParseLinesError | breseq/genome_diff_parser.py:188-193 | a record line that fails aborts the parse with its error |
| GenomeDiffParser.LineCount | breseq/genome_diff_parser.py:186-195 | every line is exactly one of mutation, evidence or dropped |
| GenomeDiffParser.EvidenceFor | breseq/genome_diff_parser.py:173-177 | evidence for a list of ids, through the index map: success exactly when every id is known; results in id order, each the last record with its id; otherwise the first unknown id of the list |
| GenomeDiffParser.EvidenceIndex | breseq/genome_diff_parser.py:170 | `evidence_map` holds exactly the evidence ids, each at the last record with that id |
| GenomeDiffParser.GenomeDiff.constructor | breseq/genome_diff_parser.py:167-170 | keeps the two lists and builds `mutation_map` and `evidence_map` from them |
| GenomeDiffParser.GenomeDiff.Lookup | breseq/genome_diff_parser.py:169-172 | `gd[(seq_id, position)]` is None exactly when no mutation has the key, else the index of the last one that has it |
| GenomeDiffParser.GenomeDiff.GetEvidence | breseq/genome_diff_parser.py:173-177 | evidence in parent-id order, each `evidence[evidence_map[id]]`, the last record with its id; fails exactly when some parent id (such as `.`) has no evidence, naming the first such id |
| GenomeDiffParser.VcfLine | breseq/genome_diff_parser.py:236-239 | a `seq_id` missing from the reference is an error; otherwise the rendered record of the conversion |
| GenomeDiffParser.VcfLines | breseq/genome_diff_parser.py:236-239 | definition only: `VcfLine` mapped over the mutations, stopping at the first error; stated by the `VcfLines*` lemmas |
| GenomeDiffParser.VcfLinesSucceeds | breseq/genome_diff_parser.py:236-239 | export succeeds exactly when every mutation converts |
| GenomeDiffParser.VcfLinesValues | breseq/genome_diff_parser.py:236-239 | one line per mutation, in order |
| GenomeDiffParser.VcfLinesFirstError | breseq/genome_diff_parser.py:236-239 | a failed export reports the first mutation that does not convert |
| GenomeDiffParser.GenomeDiff.ToVcf | breseq/genome_diff_parser.py:232-245 | the appending loop computes `VcfLines` of the mutations |
| GenomeDiffParser.Load | breseq/genome_diff_parser.py:162-170 | fails exactly when parsing fails, with its error; otherwise a fresh document whose lists are the parse result and whose maps index them |
| Collections.IndexMap | breseq/genome_diff_parser.py:169-170 | `{key: index for index, key in enumerate(keys)}` holds every key, at the index of its last occurrence |
| Collections.DictOf | misc_parsers/ncbi_report.py:143 | `dict(pairs)`: a key is present exactly when some pair has it, and maps to the value of the last such pair |
| Collections.GatherLastWins | misc_parsers/ncbi_report.py:139-143 | gathering matches into a dict keeps the value of the last line yielding each key |
| NcbiReport.Record | misc_parsers/ncbi_report.py:90-92 | `cls(*metadata)`: the record's fields are the given values, in declaration order |
| NcbiReport.FieldsDetermine | misc_parsers/ncbi_report.py:8-29 | a record is determined by its 19 optional fields and the identical flag |
| NcbiReport.FromDict | misc_parsers/ncbi_report.py:31-92 | fails exactly when the dict has key `cls`; each field is the dict's value for its fixed label or None; identical exactly when that label holds `yes` |
| NcbiReport.FromDictOfArgs | misc_parsers/ncbi_report.py:67-92 | a record written back as its label dict is read back unchanged |
| NcbiReport.LastColon | misc_parsers/ncbi_report.py:137 | the last colon in a range, or -1 when there is none |
| NcbiReport.MatchAt | misc_parsers/ncbi_report.py:137 | definition only: the pattern anchored at one index, the key running to the last colon before the line end; stated by `MatchIsHeader` and `HeaderIsMatch` |
| NcbiReport.HeaderAt | misc_parsers/ncbi_report.py:137 | definition only: the declarative shape of a header at an index, against which `MatchAt` and `HeaderMatch` are proved |
| NcbiReport.MatchIsHeader | misc_parsers/ncbi_report.py:137 | a match at an index has the header shape there: `#`, one whitespace character, key up to the last colon before line end, value after it |
| NcbiReport.HeaderIsMatch | misc_parsers/ncbi_report.py:137 | every header shape at an index is the match there |
| NcbiReport.FirstMatch | misc_parsers/ncbi_report.py:139 | the leftmost index where the pattern matches |
| NcbiReport.HeaderMatch | misc_parsers/ncbi_report.py:137-140 | `regex.search(line)`: none exactly when no index matches, else the leftmost match |
| NcbiReport.HeaderRoundTrip | misc_parsers/ncbi_report.py:137-141 | `# key:value` with a colon-free value is read back as (key, value) |
| NcbiReport.HeaderMatchSound | misc_parsers/ncbi_report.py:137-140 | a found match has the header shape at an index with no header shape further left |
| NcbiReport.HeaderMatchComplete | misc_parsers/ncbi_report.py:137-140 | a line with no header shape anywhere does not match |
| NcbiReport.SplitReport | misc_parsers/ncbi_report.py:127-134 | metadata lines are the `#` lines longer than 2 and sequence lines the others longer than 2; disjoint; each list keeps file order |
| NcbiReport.SplitReportCount | misc_parsers/ncbi_report.py:128-130 | metadata, sequence and short lines together account for every line |
| NcbiReport.MetadataPair | misc_parsers/ncbi_report.py:139-141 | definition only: the groups of a header line, both stripped; stated by `MetadataLastWins` |
| NcbiReport.ParseMetadata | misc_parsers/ncbi_report.py:136-146 | definition only: `from_dict` of the dict of stripped pairs; stated by the `Metadata*` lemmas |
| NcbiReport.MetadataMissing | misc_parsers/ncbi_report.py:139-145 | a label no line yields leaves its field None |
| NcbiReport.MetadataLastWins | misc_parsers/ncbi_report.py:139-145 | a field holds the stripped value of the last line yielding its label |
| NcbiReport.MetadataIdenticalLast | misc_parsers/ncbi_report.py:87-88 | the identical flag is true exactly when the last line with its label has value `yes` |
| NcbiReport.MetadataIdenticalMissing | misc_parsers/ncbi_report.py:87-88 | the identical flag is false when no line has its label |
| NcbiReport.ParseReport | misc_parsers/ncbi_report.py:127-134 | `parse(contents)`: the metadata record of the header lines and the sequence lines |
| NcbiReport.SampleId | misc_parsers/ncbi_report.py:123 | definition only: the stem with the tag `_assembly_report` replaced by nothing; stated by `SampleIdOfReportName` |
| NcbiReport.SampleIdOfReportName | misc_parsers/ncbi_report.py:123 | the report `<id>_assembly_report.<ext>` has sample id `<id>` |
| NcbiReport.NewReport | misc_parsers/ncbi_report.py:122-126 | `NCBIReport(path)`: the sample id from the name and the parse of the text split at line feeds |
| Strings.Strip | misc_parsers/ncbi_report.py:141 | `strip()`: the result is `s[i..j]` with only whitespace before `i` and after `j`; it neither starts nor ends with whitespace; a string already so stripped is kept |
| Strings.StripLeft | misc_parsers/ncbi_report.py:141 | a suffix of the string, with only whitespace cut off, that does not start with whitespace |
| Strings.StripRight | misc_parsers/ncbi_report.py:141 | a prefix of the string, with only whitespace cut off, that does not end with whitespace |
| Strings.Split | breseq/genome_diff_parser.py:70 | `s.split(c)`: at least one piece, and no piece contains `c` (`JoinOfSplit`: joining gives `s` back) |
| Strings.SplitCharCount | breseq/genome_diff_parser.py:70 | one piece more than there are separators |
| Strings.SplitWithoutSeparator | scripts/dmux_concat.py:76 | a string without the separator is one piece |
| Strings.JoinOfSplit | breseq/genome_diff_parser.py:70 | `c.join(s.split(c)) == s` |
| Strings.SplitJoinChar | breseq/genome_diff_parser.py:70 | pieces without `c`, joined with `c` and split at `c`, come back unchanged |
| Strings.ReplaceAll | phylogeny/tree_labels.py:19 | definition only: `s.replace(pat, rep)`, scanning left to right past each replaced occurrence; stated by `ReplaceAllIsJoinOfSplit`, `ReplaceAbsent` and `ReplaceKeepsPrefix` |
| Strings.ReplaceAllIsJoinOfSplit | phylogeny/tree_labels.py:19 | `s.replace(c, rep)` for a one-character pattern is `rep.join(s.split(c))` |
| Strings.ReplaceAbsent | phylogeny/tree_labels.py:28 | `replace` of a non-empty pattern that does not occur changes nothing |
| Strings.ReplaceKeepsPrefix | misc_parsers/ncbi_report.py:123 | `replace` keeps a prefix in which no occurrence of the pattern starts |
| Strings.IntRoundTrip | breseq/genome_diff_parser.py:77 | `int(str(n)) == n` |
| Strings.ParseInt | breseq/genome_diff_parser.py:77 | definition only: `int()` of a string, an optional sign and digits after `strip`; stated by `IntRoundTrip` |
| Paths.StemOfDotted | scripts/dmux_concat.py:76 | the stem of `base.ext` is `base`: only the last suffix is dropped |
| Paths.WithSuffix | phylogeny/tree_labels.py:29 | `with_suffix` keeps the parent and replaces the name's suffix |
| DmuxConcat.Members | scripts/dmux_concat.py:37-45 | the list of a key holds exactly the elements with that key |
| DmuxConcat.KeysInOrder | scripts/dmux_concat.py:37-45 | the keys of `groups`: exactly the image of `by`, each key once (their order is not stated, because the keys are sorted next) |
| DmuxConcat.MembersIsFilter | scripts/dmux_concat.py:40-44 | the list of a key is `[x for x in items if by(x) == k]`, a subsequence of the input |
| DmuxConcat.MembersOfAbsentKey | scripts/dmux_concat.py:41-42 | a key not yet seen has no elements, so its first element starts a singleton list |
| DmuxConcat.MembersCover | scripts/dmux_concat.py:37-45 | every element is in the list of its key, and no list is empty |
| DmuxConcat.GroupBy | scripts/dmux_concat.py:37-45 | the loop builds exactly the keys of the input, each mapped to its list |
| DmuxConcat.GroupSizesSum | scripts/dmux_concat.py:37-45 | the group sizes add up to the input length |
| DmuxConcat.ReadKey | scripts/dmux_concat.py:76 | definition only: `stem.split('_')[-2]`, None for the IndexError; stated by `ReadKeyExists` and `ReadKeyOf` |
| DmuxConcat.ReadKeyExists | scripts/dmux_concat.py:76 | `stem.split('_')[-2]` exists exactly when the stem has a `_` |
| DmuxConcat.ReadKeyOf | scripts/dmux_concat.py:76 | `<front>_<key>_<last>.<ext>` has read key `<key>` |
| DmuxConcat.OutputFile | scripts/dmux_concat.py:80 | definition only: `output_folder / sheet.parent.stem / '<sample>_<key>.fastq.gz'`; stated by `OutputFileDistinct` |
| DmuxConcat.OutputFileDistinct | scripts/dmux_concat.py:80 | the output is `<sample>_<key>.fastq.gz` in `<output>/<sheet parent stem>`, and different keys get different files |
| DmuxConcat.SheetSelected | scripts/dmux_concat.py:114 | definition only: the run prefix of the sheet's folder is 180416 or 180423; stated by `SheetSelectedRun` |
| DmuxConcat.SheetSelectedRun | scripts/dmux_concat.py:114 | a sheet in `<run>_<rest>/` is processed exactly when the run is 180416 or 180423 |
| DmuxConcat.SelectedSheets | scripts/dmux_concat.py:112-114 | the processed sheets are exactly the selected ones, in order |
| DmuxConcat.FirstKeyless | scripts/dmux_concat.py:76 | the first file without a read key (every file before it has one); none exactly when every file has one |
| DmuxConcat.SortPaths | scripts/dmux_concat.py:75 | `sorted(paths)`: a permutation in ascending order |
| DmuxConcat.SortKeys | scripts/dmux_concat.py:79 | `sorted(keys)`: a permutation in ascending order, strictly so when no key repeats |
| DmuxConcat.JobsFor | scripts/dmux_concat.py:79-90 | the closed form `ConcatenateGroups` is proved equal to: one `MakeJob` per key, in key order; what a job reads and writes is stated by `JobInputs` and `PlanJobs` |
| DmuxConcat.ConcatenateGroups | scripts/dmux_concat.py:79-90 | the loop over the sorted groups plans exactly `JobsFor` |
| DmuxConcat.CombineSampleBy | scripts/dmux_concat.py:73-90 | sorting, grouping and the group loop compute the plan `PlanBy` |
| DmuxConcat.CombineSample | scripts/dmux_concat.py:71-90 | one sheet row with the script's read key and file names computes `Plan` |
| DmuxConcat.PlanBy | scripts/dmux_concat.py:73-90 | definition only: sort, fail on the first keyless file, then one job per sorted key; stated by the `Plan*` lemmas |
| DmuxConcat.Plan | scripts/dmux_concat.py:71-90 | definition only: `PlanBy` with the script's read key and output names; stated by `PlanFails`, `PlanKeysAscending`, `PlanJobs`, `PlanCovers` and `PlanOutputsDistinct` |
| DmuxConcat.PlanFails | scripts/dmux_concat.py:76 | the plan fails exactly when some candidate has no read key, and names such a file |
| DmuxConcat.PlanKeysAscending | scripts/dmux_concat.py:79 | jobs come in strictly ascending key order |
| DmuxConcat.JobInputs | scripts/dmux_concat.py:80-84 | the job of a key writes that key's output and reads, in ascending order, exactly the files with that key |
| DmuxConcat.PlanJobs | scripts/dmux_concat.py:79-90 | each planned job reads exactly the candidates with its key, in ascending order, and writes its key's output |
| DmuxConcat.PlanCovers | scripts/dmux_concat.py:75-90 | every candidate is read by some job |
| DmuxConcat.PlanOutputsDistinct | scripts/dmux_concat.py:79-80 | no two jobs of one sample write the same file |
| TreeLabels.Unparenthesized | phylogeny/tree_labels.py:19 | the string with its parentheses removed holds no parenthesis |
| TreeLabels.LabelValue | phylogeny/tree_labels.py:19 | definition only: the formatted `name|strain` with `(` and then `)` removed; stated by `LabelValueParts` |
| TreeLabels.LabelValueParts | phylogeny/tree_labels.py:19 | the value is `organism|strain`, each half with its parentheses removed; it holds no parenthesis; parenthesis-free names are kept unchanged |
| TreeLabels.LabelKey | phylogeny/tree_labels.py:20 | definition only: the formatted `accession_assembly`; stated by `LabelKeyParts` |
| TreeLabels.LabelKeyParts | phylogeny/tree_labels.py:20 | the key is the accession, `_`, and the assembly name, unmodified, so it is never empty |
| TreeLabels.IdMap | phylogeny/tree_labels.py:11-22 | the closed form `BuildIdMap` is proved equal to: one label per report, in report order; what a label holds is stated by `LabelKeyParts` and `LabelValueParts` |
| TreeLabels.BuildIdMap | phylogeny/tree_labels.py:11-22 | the `id_map.append` loop computes `IdMap` |
| TreeLabels.RemapContents | phylogeny/tree_labels.py:26-28 | the `contents.replace` loop applies the labels one after another (`ReplaceEach`) |
| TreeLabels.ReplaceEach | phylogeny/tree_labels.py:26-28 | definition only: the labels replaced one after another, in list order; stated by `ReplaceEachAppend`, `ReplaceEachAbsent` and `ReplaceEachBySelf` |
| TreeLabels.ReplaceEachAppend | phylogeny/tree_labels.py:26-28 | replacements run in list order: those of `a + b` are those of `a`, then those of `b` |
| TreeLabels.ReplaceEachAbsent | phylogeny/tree_labels.py:26-28 | a key that does not occur leaves the text to the later replacements |
| TreeLabels.ReplaceEachBySelf | phylogeny/tree_labels.py:26-28 | labels that map keys to themselves change nothing |
| TreeLabels.OutputPath | phylogeny/tree_labels.py:29 | `with_suffix('.labeled.treefile')`: fails exactly on an empty name; same folder, stem followed by the new suffix |
| TreeLabels.OutputPathOfTreefile | phylogeny/tree_labels.py:29 | `base.treefile` becomes `base.labeled.treefile` in the same folder |
| TreeLabels.RemapTreeLabels | phylogeny/tree_labels.py:9-31 | the written file is at `OutputPath` and holds the labels of the reports replaced in order |

## Left out

- File reading and writing are not modelled: `open`, `read`, `write`, `writelines`, `print`, the dmux log file, `mkdir`, `shutil.copyfileobj`, the tree file. Each operation takes the text it would have read and returns what it would have written. `concatenate_files` is represented by the `Job` it would run.
- `GenomeDiff.to_yaml` (YAML/JSON output) and `Mutation.__str__` are not modelled; they only format output.
- `Bio.SeqIO` FASTA parsing is not modelled: the reference is a map from sequence id to a string.
- GenomeDiffParser.GetPosition: the `.seq` attribute of the slice at breseq/genome_diff_parser.py:147 is not modelled; the slice itself is the result. `GenomeDiff.to_vcf` already passes `ref_seq.seq` (breseq/genome_diff_parser.py:238), so in the code `.seq` is applied to a slice of a Biopython sequence, and whether SUB, DEL and INV convert depends on that library. GenomeDiffParser.SpanConversion states their success under the assumption that the slice is the result.
- `pendulum.parse` of the Date field is a foreign library: the date is kept as the raw optional text. The code raises when a non-empty Date cannot be parsed (misc_parsers/ncbi_report.py:63-65); the model drops that error, so no Date value makes `FromDict` fail.
- `NCBIPackage` (directory listing, `print`s, stub `unpack`) is not modelled.
- breseq/isolate_parser.py, breseq/isolate_set_parser.py and the `__main__` blocks are filesystem and pandas glue and are not part of this model.
- The `argparse`, `pandas.read_csv`, `glob` and `iterdir` plumbing of scripts/dmux_concat.py is not modelled. `CombineSample` takes the candidate files of one sheet row; the loop over rows and over sheets is left out, apart from the sheet filter `SelectedSheets`.
- DmuxConcat.CombineSampleBy: `groupby` raises IndexError at the first file, in sorted order, that has no read key. The model finds that file before grouping starts. The outcome is the same, but the model does not represent the partial work done before the exception.
- NCBIReport construction from a path inside `remap_tree_labels` (phylogeny/tree_labels.py:10) reads a file; `RemapTreeLabels` takes reports that are already parsed.
- Regular expressions are modelled only for the two patterns the code uses. `\w` and `\s` are the ASCII word and whitespace characters; Unicode classes are not modelled.
- `str.split` is modelled for one-character separators only, which are the only ones the code uses.
- Strings.ParseInt: `int()` is modelled for an optional sign and ASCII digits around stripped whitespace; underscores between digits and non-ASCII digits are not accepted.
- Paths are sequences of components; absolute and relative roots and Windows drive letters are not distinguished.
