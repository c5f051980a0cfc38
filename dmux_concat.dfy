/** Concatenating the FASTQ files of a demultiplexed sequencing run: the files of a sample are
    grouped by the read key in their names, and each group, in ascending key order, becomes
    one concatenation job whose inputs are taken in ascending path order. */
module DmuxConcat {
  import opened Wrappers
  import opened Collections
  import opened Strings
  import opened Ordering
  import opened Paths

  // ---------------------------------------------------------------------------------------
  // groupby

  /** The elements of `items` that `keyFn` maps to `k`, in input order: the list `groupby`
      builds under the key `k`. */
  function Members<T(!new), K(==)>(items: seq<T>, keyFn: T -> K, k: K): (r: seq<T>)
    ensures |r| <= |items|
    ensures forall x :: x in r <==> x in items && keyFn(x) == k
  {
    if items == [] then []
    else
      var n := |items| - 1;
      var prev := Members(items[..n], keyFn, k);
      assert forall x :: x in items <==> x in items[..n] || x == items[n] by {
        assert items == items[..n] + [items[n]];
      }
      prev + (if keyFn(items[n]) == k then [items[n]] else [])
  }

  /** The keys `keyFn` gives the elements of `items`, in the order of their first occurrence:
      the key order of the dict `groupby` builds. */
  function KeysInOrder<T, K(!new,==)>(items: seq<T>, keyFn: T -> K): (r: seq<K>)
    ensures forall k :: k in r <==> exists i :: 0 <= i < |items| && keyFn(items[i]) == k
    ensures forall k :: multiset(r)[k] <= 1
  {
    if items == [] then []
    else
      var n := |items| - 1;
      var prev := KeysInOrder(items[..n], keyFn);
      assert forall i :: 0 <= i < n ==> items[..n][i] == items[i];
      if keyFn(items[n]) in prev then prev else prev + [keyFn(items[n])]
  }

  /** The list for a key is `Filter`'s comprehension `[x for x in items if keyFn(x) == k]`, so
      it keeps the input order. */
  lemma {:induction false} MembersIsFilter<T(!new), K>(items: seq<T>, keyFn: T -> K, k: K)
    ensures Members(items, keyFn, k) == Filter(items, x => keyFn(x) == k)
    ensures IsSubsequence(Members(items, keyFn, k), items)
    decreases |items|
  {
    if items != [] {
      var n := |items| - 1;
      MembersIsFilter(items[..n], keyFn, k);
      assert items == items[..n] + [items[n]];
      FilterAppend(items[..n], items[n], x => keyFn(x) == k);
    }
    FilterKeepsOrder(items, x => keyFn(x) == k);
  }

  lemma MembersStep<T(!new), K>(items: seq<T>, keyFn: T -> K, i: nat, k: K)
    requires i < |items|
    ensures Members(items[..i + 1], keyFn, k) ==
      Members(items[..i], keyFn, k) + (if keyFn(items[i]) == k then [items[i]] else [])
  {
    assert items[..i + 1][..i] == items[..i];
  }

  lemma KeysStep<T, K(!new)>(items: seq<T>, keyFn: T -> K, i: nat)
    requires i < |items|
    ensures KeysInOrder(items[..i + 1], keyFn) ==
      var prev := KeysInOrder(items[..i], keyFn);
      if keyFn(items[i]) in prev then prev else prev + [keyFn(items[i])]
  {
    assert items[..i + 1][..i] == items[..i];
  }

  /** A key that no element has has an empty list. */
  lemma MembersOfAbsentKey<T(!new), K(!new)>(items: seq<T>, keyFn: T -> K, k: K)
    requires k !in KeysInOrder(items, keyFn)
    ensures Members(items, keyFn, k) == []
  {
    assert forall j :: 0 <= j < |items| ==> keyFn(items[j]) != k;
    assert forall x :: x in items ==> keyFn(x) != k;
  }

  /** Every element is in the list of its key, and the list of every key is non-empty. */
  lemma MembersCover<T(!new), K(!new)>(items: seq<T>, keyFn: T -> K)
    ensures forall i :: 0 <= i < |items| ==> items[i] in Members(items, keyFn, keyFn(items[i]))
    ensures forall k :: k in KeysInOrder(items, keyFn) ==> |Members(items, keyFn, k)| >= 1
  {
    forall k | k in KeysInOrder(items, keyFn) ensures |Members(items, keyFn, k)| >= 1 {
      var i :| 0 <= i < |items| && keyFn(items[i]) == k;
      assert items[i] in Members(items, keyFn, k);
    }
  }

  /** `groupby(items, keyFn)`: every element is appended to the list of its key, the first
      element with a key creating that key's list. */
  method GroupBy<T(!new), K(!new,==)>(items: seq<T>, keyFn: T -> K) returns (groups: map<K, seq<T>>, order: seq<K>)
    ensures order == KeysInOrder(items, keyFn)
    ensures forall k :: k in groups <==> k in order
    ensures forall k :: k in groups ==> groups[k] == Members(items, keyFn, k)
  {
    groups := map[];
    order := [];
    for i := 0 to |items|
      invariant order == KeysInOrder(items[..i], keyFn)
      invariant forall k :: k in groups <==> k in order
      invariant forall k :: k in groups ==> groups[k] == Members(items[..i], keyFn, k)
    {
      var key := keyFn(items[i]);
      KeysStep(items, keyFn, i);
      if key !in groups {
        MembersOfAbsentKey(items[..i], keyFn, key);
        groups := groups[key := [items[i]]];
        order := order + [key];
      } else {
        groups := groups[key := groups[key] + [items[i]]];
      }
      forall k | k in groups ensures groups[k] == Members(items[..i + 1], keyFn, k) {
        MembersStep(items, keyFn, i, k);
      }
    }
    assert items[..|items|] == items;
  }

  /** The sizes of the lists of `keys`, added up. */
  function TotalSize<T(!new), K(==)>(items: seq<T>, keyFn: T -> K, keys: seq<K>): nat {
    if keys == [] then 0 else |Members(items, keyFn, keys[0])| + TotalSize(items, keyFn, keys[1..])
  }

  lemma {:induction false} TotalSizeAppend<T(!new), K>(items: seq<T>, keyFn: T -> K, keys: seq<K>, k: K)
    ensures TotalSize(items, keyFn, keys + [k]) == TotalSize(items, keyFn, keys) + |Members(items, keyFn, k)|
    decreases |keys|
  {
    if keys == [] {
      assert (keys + [k])[1..] == [];
    } else {
      assert (keys + [k])[1..] == keys[1..] + [k];
      TotalSizeAppend(items, keyFn, keys[1..], k);
    }
  }

  /** One more element adds one to the list of its key for every occurrence of that key. */
  lemma {:induction false} TotalSizeStep<T(!new), K>(items: seq<T>, keyFn: T -> K, keys: seq<K>)
    requires |items| >= 1
    ensures TotalSize(items, keyFn, keys) ==
      TotalSize(items[..|items| - 1], keyFn, keys) + multiset(keys)[keyFn(items[|items| - 1])]
    decreases |keys|
  {
    if keys != [] {
      TotalSizeStep(items, keyFn, keys[1..]);
      assert keys == [keys[0]] + keys[1..];
    }
  }

  /** The lists hold all elements between them: their sizes add up to the input length. */
  lemma {:induction false} GroupSizesSum<T(!new), K(!new)>(items: seq<T>, keyFn: T -> K)
    ensures TotalSize(items, keyFn, KeysInOrder(items, keyFn)) == |items|
    decreases |items|
  {
    if items != [] {
      var n := |items| - 1;
      var s, x := items[..n], items[n];
      var prev := KeysInOrder(s, keyFn);
      GroupSizesSum(s, keyFn);
      TotalSizeStep(items, keyFn, prev);
      if keyFn(x) !in prev {
        TotalSizeAppend(items, keyFn, prev, keyFn(x));
        MembersOfAbsentKey(s, keyFn, keyFn(x));
        TotalSizeStep(items, keyFn, [keyFn(x)]);
        assert TotalSize(s, keyFn, [keyFn(x)]) == 0;
      }
    }
  }

  // ---------------------------------------------------------------------------------------
  // file names

  /** The read key of a FASTQ file: `p.stem.split('_')[-2]`, or nothing where Python raises
      `IndexError` because the stem holds no `_`. */
  function ReadKey(p: Path): Option<string> {
    var parts := Split(Stem(Name(p)), '_');
    if |parts| >= 2 then Some(parts[|parts| - 2]) else None
  }

  /** A file has a read key exactly when its stem holds a `_`. */
  lemma ReadKeyExists(p: Path)
    ensures ReadKey(p).Some? <==> '_' in Stem(Name(p))
  {
    SplitCharCount(Stem(Name(p)), '_');
    CountCharZero(Stem(Name(p)), '_');
  }

  /** The key of `<front>_<key>_<last>.<ext>` is `<key>`: only the last suffix is dropped, and
      the front may hold further `_`. */
  lemma ReadKeyOf(dir: Path, front: string, key: string, last: string, ext: string)
    requires '_' !in key && '_' !in last && |ext| >= 1 && '.' !in ext
    ensures ReadKey(dir + [front + "_" + key + "_" + last + "." + ext]) == Some(key)
  {
    var stem := front + "_" + key + "_" + last;
    StemOfDotted(stem, ext);
    assert stem == front + ['_'] + (key + ['_'] + last);
    SplitCharAppend(front, '_', key + ['_'] + last);
    SplitCharAppend(key, '_', last);
    SplitWithoutSeparator(key, '_');
    SplitWithoutSeparator(last, '_');
  }

  /** `output_folder / sheet.parent.stem / "<sample>_<key>.fastq.gz"`. */
  function OutputFile(outputFolder: Path, sheet: Path, sample: string, key: string): Path {
    Child(Child(outputFolder, Stem(Name(Parent(sheet)))), sample + "_" + key + ".fastq.gz")
  }

  /** The output file is named after sample and key, inside the folder named after the run
      folder of the sheet; different keys of a sample give different files. */
  lemma OutputFileDistinct(outputFolder: Path, sheet: Path, sample: string, k1: string, k2: string)
    ensures Name(OutputFile(outputFolder, sheet, sample, k1)) == sample + "_" + k1 + ".fastq.gz"
    ensures Parent(OutputFile(outputFolder, sheet, sample, k1)) == Child(outputFolder, Stem(Name(Parent(sheet))))
    ensures OutputFile(outputFolder, sheet, sample, k1) == OutputFile(outputFolder, sheet, sample, k2) ==> k1 == k2
  {
    var n1 := sample + "_" + k1 + ".fastq.gz";
    var n2 := sample + "_" + k2 + ".fastq.gz";
    assert n1 != "" && n1 != "." by {
      assert |n1| >= 10;
    }
    assert n2 != "" && n2 != "." by {
      assert |n2| >= 10;
    }
    var folder := Child(outputFolder, Stem(Name(Parent(sheet))));
    assert OutputFile(outputFolder, sheet, sample, k1) == folder + [n1];
    assert OutputFile(outputFolder, sheet, sample, k2) == folder + [n2];
    if OutputFile(outputFolder, sheet, sample, k1) == OutputFile(outputFolder, sheet, sample, k2) {
      assert (folder + [n1])[|folder|] == n1 && (folder + [n2])[|folder|] == n2;
      assert n1 == n2;
      assert |k1| == |k2|;
      assert forall i :: 0 <= i < |k1| ==> k1[i] == n1[|sample| + 1 + i] == n2[|sample| + 1 + i] == k2[i];
    }
  }

  /** The sequencing runs whose sheets are processed. */
  const SelectedRuns: seq<string> := ["180416", "180423"]

  /** `sheet.parent.stem.split('_')[0] in ['180416', '180423']`. */
  predicate SheetSelected(sheet: Path) {
    Split(Stem(Name(Parent(sheet))), '_')[0] in SelectedRuns
  }

  /** A stem keeps every character before the first dot. */
  lemma StemKeepsPrefix(a: string, b: string)
    requires '.' !in a
    ensures |a| <= |Stem(a + b)| && Stem(a + b)[..|a|] == a
  {
    var name := a + b;
    var i := LastDot(name);
    assert forall j :: 0 <= j < |a| ==> name[j] == a[j];
    if 0 < i < |name| - 1 {
      assert name[..i][..|a|] == a;
    } else {
      assert name[..|a|] == a;
    }
  }

  /** The sheet of the run folder `<run>_<rest>` is processed exactly when `<run>` is one of
      the selected runs. */
  lemma SheetSelectedRun(dir: Path, run: string, rest: string, sheetName: string)
    requires '_' !in run && '.' !in run
    ensures SheetSelected(dir + [run + "_" + rest, sheetName]) <==> run in SelectedRuns
  {
    var sheet := dir + [run + "_" + rest, sheetName];
    assert Parent(sheet) == dir + [run + "_" + rest];
    var folder := run + "_" + rest;
    assert '.' !in run + "_" by {
      assert forall i :: 0 <= i < |run| ==> (run + "_")[i] == run[i];
    }
    StemKeepsPrefix(run + "_", rest);
    var stem := Stem(folder);
    var tail := stem[|run| + 1..];
    assert stem == run + ['_'] + tail by {
      assert stem == stem[..|run| + 1] + tail;
    }
    SplitCharAppend(run, '_', tail);
    SplitWithoutSeparator(run, '_');
  }

  /** `for sample_sheet in sample_sheets: if ... not in [...]: continue`. */
  function SelectedSheets(sheets: seq<Path>): (r: seq<Path>)
    ensures forall s :: s in r <==> s in sheets && SheetSelected(s)
    ensures IsSubsequence(r, sheets)
  {
    FilterKeepsOrder(sheets, SheetSelected);
    Filter(sheets, SheetSelected)
  }

  // ---------------------------------------------------------------------------------------
  // combine_files, for one sample of a sheet
  //
  // The plan and its properties are stated for any read-key rule `readKey` and any naming
  // rule `outputOf` for the output file of a key; `Plan` and `CombineSample` apply them to
  // `ReadKey` and `OutputFile`.

  /** One `concatenate_files(output, inputs)` call. */
  datatype Job = Job(key: string, output: Path, inputs: seq<Path>)

  /** The read key of a file that has one. */
  function KeyOr(readKey: Path -> Option<string>, p: Path): string {
    match readKey(p)
    case Some(k) => k
    case None => ""
  }

  /** The grouping function handed to `groupby`. */
  function KeyFn(readKey: Path -> Option<string>): Path -> string {
    p => KeyOr(readKey, p)
  }

  /** The output file of each key, for one sample of one sheet. */
  function OutputOf(outputFolder: Path, sheet: Path, sample: string): string -> Path {
    key => OutputFile(outputFolder, sheet, sample, key)
  }

  /** The first of `paths` without a read key: the file on which `groupby` raises. */
  function FirstKeyless(readKey: Path -> Option<string>, paths: seq<Path>): (r: Option<Path>)
    ensures r.None? <==> forall i :: 0 <= i < |paths| ==> readKey(paths[i]).Some?
    ensures r.Some? ==> r.value in paths && readKey(r.value).None?
    ensures r.Some? ==>
              exists i :: 0 <= i < |paths| && paths[i] == r.value &&
                          forall j :: 0 <= j < i ==> readKey(paths[j]).Some?
  {
    if paths == [] then None
    else if readKey(paths[0]).None? then Some(paths[0])
    else
      var r := FirstKeyless(readKey, paths[1..]);
      assert forall i :: 1 <= i < |paths| ==> paths[i] == paths[1..][i - 1];
      assert r.Some? ==>
               exists i :: 0 <= i < |paths| && paths[i] == r.value &&
                           forall j :: 0 <= j < i ==> readKey(paths[j]).Some? by {
        if r.Some? {
          var i :| 0 <= i < |paths| - 1 && paths[1..][i] == r.value &&
                   forall j :: 0 <= j < i ==> readKey(paths[1..][j]).Some?;
          assert paths[i + 1] == r.value;
        }
      }
      r
  }

  /** `sorted(paths)`. */
  function SortPaths(paths: seq<Path>): (r: seq<Path>)
    ensures multiset(r) == multiset(paths)
    ensures SortedBy(r, PathLess)
  {
    PathLessStrictTotal();
    Sort(paths, PathLess)
  }

  /** `sorted(keys)`; keys that occur once each come out strictly ascending. */
  function SortKeys(keys: seq<string>): (r: seq<string>)
    ensures multiset(r) == multiset(keys)
    ensures SortedBy(r, StrLess)
    ensures (forall x :: multiset(keys)[x] <= 1) ==> forall i, j :: 0 <= i < j < |r| ==> StrLess(r[i], r[j])
  {
    StrLessStrictTotal();
    var r := Sort(keys, StrLess);
    if forall x | x in keys :: multiset(keys)[x] <= 1 then AscendingWhenDistinct(r); r else r
  }

  /** A sorted sequence of keys that each occur once is strictly ascending. */
  lemma AscendingWhenDistinct(r: seq<string>)
    requires SortedBy(r, StrLess) && forall x :: multiset(r)[x] <= 1
    ensures forall i, j :: 0 <= i < j < |r| ==> StrLess(r[i], r[j])
  {
    StrLessStrictTotal();
    NoRepeatedIndices(r);
    SortedDistinctAscending(r, StrLess);
  }

  /** The job for the group `values` of `key`: `sorted(values)` concatenated into the output
      file of the key. */
  function GroupJob(outputOf: string -> Path, key: string, values: seq<Path>): Job {
    Job(key, outputOf(key), SortPaths(values))
  }

  /** The job for the group of `key` among `files`. */
  function MakeJob(readKey: Path -> Option<string>, outputOf: string -> Path, files: seq<Path>, key: string): Job {
    GroupJob(outputOf, key, Members(files, KeyFn(readKey), key))
  }

  /** One job per key, in the order of `keys`. */
  function JobsFor(readKey: Path -> Option<string>, outputOf: string -> Path, files: seq<Path>, keys: seq<string>): (r: seq<Job>)
    ensures |r| == |keys|
    ensures forall j :: 0 <= j < |keys| ==> r[j] == MakeJob(readKey, outputOf, files, keys[j])
  {
    seq(|keys|, j requires 0 <= j < |keys| => MakeJob(readKey, outputOf, files, keys[j]))
  }

  /** The jobs `combine_files` runs for one sample whose file search found `candidates`:
      one per read key in ascending key order (`sorted(groups.items())`), or the file on which
      the grouping raises. */
  function PlanBy(readKey: Path -> Option<string>, outputOf: string -> Path, candidates: seq<Path>): Result<seq<Job>, Path> {
    var files := SortPaths(candidates);
    match FirstKeyless(readKey, files)
    case Some(p) => Failure(p)
    case None => Success(JobsFor(readKey, outputOf, files, SortKeys(KeysInOrder(files, KeyFn(readKey)))))
  }

  /** The plan with the read key and the output file names of the script. */
  function Plan(outputFolder: Path, sheet: Path, sample: string, candidates: seq<Path>): Result<seq<Job>, Path> {
    PlanBy(ReadKey, OutputOf(outputFolder, sheet, sample), candidates)
  }

  /** The loop body of `combine_files` for one row of the sheet: the candidates are sorted and
      grouped, and the groups are visited in ascending key order. The grouping raises at the
      first file, in sorted order, that has no read key; here that file is looked for before
      the grouping starts. */
  method CombineSampleBy(readKey: Path -> Option<string>, outputOf: string -> Path, candidates: seq<Path>)
    returns (r: Result<seq<Job>, Path>)
    ensures r == PlanBy(readKey, outputOf, candidates)
  {
    var files := SortPaths(candidates);
    var keyless := FirstKeyless(readKey, files);
    if keyless.Some? {
      return Failure(keyless.value);
    }
    var groups, order := GroupBy(files, KeyFn(readKey));
    var keys := SortKeys(order);
    GroupsOfKeys(files, KeyFn(readKey), groups, order, keys);
    var jobs := ConcatenateGroups(readKey, outputOf, files, groups, keys);
    r := Success(jobs);
  }

  /** `for key, values in sorted(groups.items()): ... concatenate_files(output, sorted(values))`:
      one job per key of `keys`, in that order. */
  method ConcatenateGroups(readKey: Path -> Option<string>, outputOf: string -> Path, files: seq<Path>,
                           groups: map<string, seq<Path>>, keys: seq<string>) returns (jobs: seq<Job>)
    requires forall j :: 0 <= j < |keys| ==> keys[j] in groups && groups[keys[j]] == Members(files, KeyFn(readKey), keys[j])
    ensures jobs == JobsFor(readKey, outputOf, files, keys)
  {
    jobs := [];
    for j := 0 to |keys|
      invariant |jobs| == j
      invariant forall i :: 0 <= i < j ==> jobs[i] == MakeJob(readKey, outputOf, files, keys[i])
    {
      var values := groups[keys[j]];
      ghost var prev := jobs;
      jobs := jobs + [GroupJob(outputOf, keys[j], values)];
      assert forall i :: 0 <= i < j ==> jobs[i] == prev[i];
    }
  }

  method CombineSample(outputFolder: Path, sheet: Path, sample: string, candidates: seq<Path>)
    returns (r: Result<seq<Job>, Path>)
    ensures r == Plan(outputFolder, sheet, sample, candidates)
  {
    r := CombineSampleBy(ReadKey, OutputOf(outputFolder, sheet, sample), candidates);
  }

  // ---------------------------------------------------------------------------------------
  // properties of the plan

  /** A sequence with no element twice has no two equal positions. */
  lemma NoRepeatedIndices<T>(s: seq<T>)
    requires forall x :: multiset(s)[x] <= 1
    ensures forall i, j :: 0 <= i < j < |s| ==> s[i] != s[j]
  {
    forall i, j | 0 <= i < j < |s| ensures s[i] != s[j] {
      assert s == s[..j] + s[j..];
      assert s[i] in multiset(s[..j]) && s[j] in multiset(s[j..]);
      assert multiset(s)[s[j]] == multiset(s[..j])[s[j]] + multiset(s[j..])[s[j]];
    }
  }

  /** A rearrangement `keys` of the keys of a grouping picks out the groups of its keys. */
  lemma GroupsOfKeys<T(!new), K(!new)>(items: seq<T>, keyFn: T -> K, groups: map<K, seq<T>>, order: seq<K>, keys: seq<K>)
    requires forall k :: k in groups <==> k in order
    requires forall k :: k in groups ==> groups[k] == Members(items, keyFn, k)
    requires multiset(keys) == multiset(order)
    ensures forall j :: 0 <= j < |keys| ==> keys[j] in groups && groups[keys[j]] == Members(items, keyFn, keys[j])
  {
    SameElements(keys, order);
  }

  /** Sequences with the same elements, counted with multiplicity, have the same elements. */
  lemma SameElements<T>(a: seq<T>, b: seq<T>)
    requires multiset(a) == multiset(b)
    ensures forall x :: x in a <==> x in b
  {
    forall x ensures x in a <==> x in b {
      assert x in a <==> x in multiset(a);
      assert x in b <==> x in multiset(b);
    }
  }

  /** Sorting keeps the elements. */
  lemma SortPathsKeeps(paths: seq<Path>)
    ensures forall p :: p in SortPaths(paths) <==> p in paths
  {
    SameElements(SortPaths(paths), paths);
  }

  /** The grouping fails exactly when some file has no read key, and names such a file. */
  lemma PlanFails(readKey: Path -> Option<string>, outputOf: string -> Path, candidates: seq<Path>)
    ensures PlanBy(readKey, outputOf, candidates).Failure? <==> exists p :: p in candidates && readKey(p).None?
    ensures PlanBy(readKey, outputOf, candidates).Failure? ==>
      var p := PlanBy(readKey, outputOf, candidates).error; p in candidates && readKey(p).None?
  {
    SortPathsKeeps(candidates);
  }

  /** The jobs come in strictly ascending key order, so no key is processed twice. */
  lemma PlanKeysAscending(readKey: Path -> Option<string>, outputOf: string -> Path, candidates: seq<Path>)
    requires PlanBy(readKey, outputOf, candidates).Success?
    ensures var jobs := PlanBy(readKey, outputOf, candidates).value;
      forall i, j :: 0 <= i < j < |jobs| ==> StrLess(jobs[i].key, jobs[j].key)
  {
  }

  /** The job of a key writes the output file of that key and reads the files of that key
      in ascending order. */
  lemma JobInputs(readKey: Path -> Option<string>, outputOf: string -> Path, files: seq<Path>, key: string)
    ensures var job := MakeJob(readKey, outputOf, files, key);
      job.key == key
      && job.output == outputOf(key)
      && SortedBy(job.inputs, PathLess)
      && forall p :: p in job.inputs <==> p in files && KeyOr(readKey, p) == key
  {
    SortPathsKeeps(Members(files, KeyFn(readKey), key));
  }

  /** Each job reads exactly the files of its key, in ascending order, and writes the output
      file of its key. */
  lemma PlanJobs(readKey: Path -> Option<string>, outputOf: string -> Path, candidates: seq<Path>)
    requires PlanBy(readKey, outputOf, candidates).Success?
    ensures var jobs := PlanBy(readKey, outputOf, candidates).value;
      forall j :: 0 <= j < |jobs| ==>
        jobs[j].output == outputOf(jobs[j].key)
        && SortedBy(jobs[j].inputs, PathLess)
        && forall p :: p in jobs[j].inputs <==> p in candidates && readKey(p) == Some(jobs[j].key)
  {
    var files := SortPaths(candidates);
    var keys := SortKeys(KeysInOrder(files, KeyFn(readKey)));
    var jobs := PlanBy(readKey, outputOf, candidates).value;
    SortPathsKeeps(candidates);
    assert forall p :: p in candidates ==> readKey(p) == Some(KeyOr(readKey, p)) by {
      forall p | p in candidates ensures readKey(p) == Some(KeyOr(readKey, p)) {
        var i :| 0 <= i < |files| && files[i] == p;
      }
    }
    forall j | 0 <= j < |jobs|
      ensures jobs[j].output == outputOf(jobs[j].key)
      ensures SortedBy(jobs[j].inputs, PathLess)
      ensures forall p :: p in jobs[j].inputs <==> p in candidates && readKey(p) == Some(jobs[j].key)
    {
      JobInputs(readKey, outputOf, files, keys[j]);
    }
  }

  /** Every file is read by some job. */
  lemma PlanCovers(readKey: Path -> Option<string>, outputOf: string -> Path, candidates: seq<Path>)
    requires PlanBy(readKey, outputOf, candidates).Success?
    ensures var jobs := PlanBy(readKey, outputOf, candidates).value;
      forall p :: p in candidates ==> exists j :: 0 <= j < |jobs| && p in jobs[j].inputs
  {
    var files := SortPaths(candidates);
    var order := KeysInOrder(files, KeyFn(readKey));
    var keys := SortKeys(order);
    var jobs := PlanBy(readKey, outputOf, candidates).value;
    SortPathsKeeps(candidates);
    SameElements(keys, order);
    forall p | p in candidates ensures exists j :: 0 <= j < |jobs| && p in jobs[j].inputs {
      var i :| 0 <= i < |files| && files[i] == p;
      var k := KeyOr(readKey, p);
      assert KeyFn(readKey)(files[i]) == k;
      assert k in order;
      assert k in keys;
      var j :| 0 <= j < |keys| && keys[j] == k;
      JobInputs(readKey, outputOf, files, k);
    }
  }

  /** Different keys of one sample of one sheet are written to different files. */
  lemma PlanOutputsDistinct(outputFolder: Path, sheet: Path, sample: string, candidates: seq<Path>)
    requires Plan(outputFolder, sheet, sample, candidates).Success?
    ensures var jobs := Plan(outputFolder, sheet, sample, candidates).value;
      forall i, j :: 0 <= i < j < |jobs| ==> jobs[i].output != jobs[j].output
  {
    var outputOf := OutputOf(outputFolder, sheet, sample);
    var jobs := Plan(outputFolder, sheet, sample, candidates).value;
    PlanKeysAscending(ReadKey, outputOf, candidates);
    PlanJobs(ReadKey, outputOf, candidates);
    StrLessStrictTotal();
    forall i, j | 0 <= i < j < |jobs| ensures jobs[i].output != jobs[j].output {
      OutputFileDistinct(outputFolder, sheet, sample, jobs[i].key, jobs[j].key);
    }
  }
}
