/** breseq's genome-diff format: tab-separated mutation records (three-letter type tags) and
    evidence records (two-letter tags), each with a fixed list of positional fields for its type
    followed by free `key=value` annotations. This module models the per-type schema, the
    extraction of named fields, the mutation record, its conversion to a VCF line, and the
    document that parses a file's lines, indexes the records and exports them. */
module GenomeDiffParser {
  import opened Wrappers
  import opened Collections
  import opened Strings
  import opened Ordering

  /** What the parser and the converter raise. */
  datatype Error =
    | EmptyRow                             // IndexError: a row without a first token
    | UnknownType(tag: string)             // KeyError: a tag missing from the schema table
    | TooFewFields(count: nat)             // ValueError: fewer than three positional pairs
    | MultipleValues(argument: string)     // TypeError: a named field called `self`
    | InvalidLiteral(text: string)         // ValueError from int()
    | InvalidPosition                      // ValueError: a position that is neither int nor pair
    | IndexOutOfRange(position: int)       // IndexError: no base at that position
    | UnsupportedOperand                   // TypeError: position + size on a missing value
    | InvalidMutationType(mtype: string)   // ValueError: no VCF rule for the type
    | MissingEvidence(id: string)          // KeyError: a parent id that is no evidence id
    | MissingSequence(seqId: string)       // KeyError: a seq_id absent from the reference

  // ---------------------------------------------------------------------------------------
  // The schema

  /** The positional fields of each record type, after `type`, `id` and `parent_id`. */
  const TypeSpecificFields: map<string, seq<string>> := map[
    "SNP" := ["seq_id", "position", "new_seq"],
    "SUB" := ["seq_id", "position", "size", "new_seq"],
    "DEL" := ["seq_id", "position", "size"],
    "INS" := ["seq_id", "position", "new_seq"],
    "MOB" := ["seq_id", "position", "repeat_name", "strand", "duplication_size"],
    "AMP" := ["seq_id", "position", "size", "new_copy_number"],
    "CON" := ["seq_id", "position", "size", "region"],
    "INV" := ["seq_id", "position", "size"],
    "RA" := ["seq_id", "position", "insert_position", "ref_base", "new_base"],
    "MC" := ["seq_id", "start", "end", "start_range", "end_range"],
    "JC" := ["side_1_seq_id", "side_1_position", "side_1_strand",
             "side_2_seq_id", "side_2_position", "side_2_strand", "overlap"],
    "UN" := ["seq_id", "start", "end"],
    "CURA" := ["expert"],
    "FPOS" := ["expert"],
    "PHYL" := ["gd"],
    "TSEQ" := ["seq_id", "primer1_start", "primer1_end", "primer2_start", "primer2_end"],
    "PFLP" := ["seq_id", "primer1_start", "primer1_end", "primer2_start", "primer2_end"],
    "RFLP" := ["seq_id", "primer1_start", "primer1_end", "primer2_start", "primer2_end", "enzyme"],
    "PFGE" := ["seq_id", "restriction_enzyme"],
    "NOTE" := ["note"]
  ]

  /** The three columns every record starts with. */
  const LeadingKeys: seq<string> := ["type", "id", "parent_id"]

  // ---------------------------------------------------------------------------------------
  // Named fields: the pattern `([\w]+)[=]([^\t]+)`, searched for in every token

  /** Index `j` of `t` is an `=` the pattern can match at: a word character before it and a
      character other than a tab after it. */
  predicate IsAssignment(t: string, j: int) {
    1 <= j && j + 1 < |t| && t[j] == '=' && IsWordChar(t[j - 1]) && t[j + 1] != '\t'
  }

  /** The first index at or after `from` where the pattern can match its `=`. */
  function FirstAssignment(t: string, from: nat): (r: Option<nat>)
    ensures r.Some? ==> from <= r.value && IsAssignment(t, r.value)
    ensures r.Some? ==> forall j :: from <= j < r.value ==> !IsAssignment(t, j)
    ensures r.None? ==> forall j :: from <= j ==> !IsAssignment(t, j)
    decreases |t| - from
  {
    if from >= |t| then None
    else if IsAssignment(t, from) then Some(from)
    else FirstAssignment(t, from + 1)
  }

  /** The start of the longest run of word characters that ends just before index `j`. */
  function WordRunStart(t: string, j: nat): (i: nat)
    requires j <= |t|
    ensures i <= j
    ensures forall k :: i <= k < j ==> IsWordChar(t[k])
    ensures i == 0 || !IsWordChar(t[i - 1])
  {
    if j == 0 || !IsWordChar(t[j - 1]) then j else WordRunStart(t, j - 1)
  }

  /** The end of the longest tab-free run that starts at `from`. */
  function TabFreeEnd(t: string, from: nat): (e: nat)
    requires from <= |t|
    ensures from <= e <= |t|
    ensures forall k :: from <= k < e ==> t[k] != '\t'
    ensures e == |t| || t[e] == '\t'
    decreases |t| - from
  {
    if from == |t| || t[from] == '\t' then from else TabFreeEnd(t, from + 1)
  }

  /** `regex.search(token).groups()`, or None when the token does not match. The search
      tries start positions from the left; the word run is greedy, so the match uses the
      first usable `=`, takes as key the whole word run before it, and as value the tab-free
      run after it. */
  function NamedField(t: string): (r: Option<(string, string)>)
    ensures r.None? <==> forall j :: !IsAssignment(t, j)
    ensures r.Some? ==> |r.value.0| >= 1 && forall k :: 0 <= k < |r.value.0| ==> IsWordChar(r.value.0[k])
    ensures r.Some? ==> |r.value.1| >= 1 && '\t' !in r.value.1
  {
    match FirstAssignment(t, 0)
    case None => None
    case Some(j) =>
      var e := TabFreeEnd(t, j + 1);
      assert t[j + 1] != '\t';
      Some((t[WordRunStart(t, j)..j], t[j + 1..e]))
  }

  /** A token written `key=value`, with a word-character key and a tab-free value, is read
      back as that key and value. */
  lemma NamedFieldRoundTrip(key: string, value: string)
    requires |key| >= 1 && forall k :: 0 <= k < |key| ==> IsWordChar(key[k])
    requires |value| >= 1 && '\t' !in value
    ensures NamedField(key + "=" + value) == Some((key, value))
  {
    var t := key + "=" + value;
    var j := |key|;
    assert t[j] == '=';
    forall i | 0 <= i < j ensures !IsAssignment(t, i) {
      assert t[i] == key[i];
    }
    assert IsAssignment(t, j);
    assert FirstAssignment(t, 0) == Some(j);
    var e := TabFreeEnd(t, j + 1);
    assert e == |t|;
    var i := WordRunStart(t, j);
    assert i == 0;
    assert t[..j] == key;
    assert t[j + 1..] == value;
    assert NamedField(t) == Some((t[i..j], t[j + 1..e]));
    assert t[i..j] == key;
    assert t[j + 1..e] == value;
  }

  /** Which groups a match takes: the key is the whole word run ending just before the first
      usable `=`, and the value is the tab-free run after it, which for a token from a
      tab-separated row is the rest of the token. */
  lemma NamedFieldGroups(t: string)
    requires NamedField(t).Some?
    ensures exists i, j, e ::
              0 <= i < j < e <= |t| && t[j] == '=' &&
              (forall k :: 0 <= k < j ==> !IsAssignment(t, k)) &&
              (i == 0 || !IsWordChar(t[i - 1])) && (e == |t| || t[e] == '\t') &&
              NamedField(t).value == (t[i..j], t[j + 1..e])
    ensures '\t' !in t ==>
              exists i, j ::
                0 <= i < j < |t| && t[j] == '=' &&
                (forall k :: 0 <= k < j ==> !IsAssignment(t, k)) &&
                (i == 0 || !IsWordChar(t[i - 1])) &&
                NamedField(t).value == (t[i..j], t[j + 1..])
  {
    var j := FirstAssignment(t, 0).value;
    var i := WordRunStart(t, j);
    var e := TabFreeEnd(t, j + 1);
    assert t[j + 1] != '\t';
    assert NamedField(t).value == (t[i..j], t[j + 1..e]);
    if '\t' !in t {
      assert e == |t|;
      assert t[j + 1..e] == t[j + 1..];
    }
  }

  /** The (key, value) groups of the tokens that match, in token order. */
  function Matches(row: seq<string>): seq<(string, string)> {
    Collect(NamedField, row)
  }

  /** `get_named_fields(row)`: the groups of every matching token gathered into a dict, token
      by token, so that a later token overwrites an earlier one with the same key. */
  function NamedFields(row: seq<string>): map<string, string> {
    Gather(NamedField, row)
  }

  /** The gathering is `dict` applied to the list of groups. */
  lemma NamedFieldsIsDict(row: seq<string>)
    ensures NamedFields(row) == DictOf(Matches(row))
  {
    GatherIsDictOfCollect(NamedField, row);
  }

  /** The token `t` matches, with key `k`. */
  predicate NamesKey(t: string, k: string) {
    NamedField(t).Some? && NamedField(t).value.0 == k
  }

  /** A key is named exactly when some token of the row matches with that key. */
  lemma NamedFieldsKeys(row: seq<string>, k: string)
    ensures k in NamedFields(row) <==> exists i :: 0 <= i < |row| && NamesKey(row[i], k)
  {
    GatherKeys(NamedField, row, k);
    assert forall i :: 0 <= i < |row| ==> (NamesKey(row[i], k) <==> Yields(NamedField, row[i], k));
  }

  /** A later token overwrites an earlier one with the same key: the value of a key is the
      value of the last token that matches with that key. */
  lemma NamedFieldsLastWins(row: seq<string>, i: nat)
    requires i < |row| && NamedField(row[i]).Some?
    requires forall j :: i < j < |row| ==> !NamesKey(row[j], NamedField(row[i]).value.0)
    ensures NamedField(row[i]).value.0 in NamedFields(row)
    ensures NamedFields(row)[NamedField(row[i]).value.0] == NamedField(row[i]).value.1
  {
    var k := NamedField(row[i]).value.0;
    assert forall j :: i < j < |row| ==> !Yields(NamedField, row[j], k) by {
      forall j | i < j < |row| ensures !Yields(NamedField, row[j], k) {
        assert !NamesKey(row[j], k);
      }
    }
    GatherLastWins(NamedField, row, i);
  }

  // ---------------------------------------------------------------------------------------
  // Mutation records

  /** `position` and `size` after `__init__`: absent, the empty string, or an int. */
  datatype IntField = Missing | Blank | Value(n: int)

  /** A parsed record (`Mutation`, used for evidence lines too). `fields` holds the positional
      (key, token) pairs after `type`, `id` and `parent_id`. */
  datatype Mutation = Mutation(
    mtype: string,
    id: string,
    parentId: seq<string>,
    fields: seq<(string, string)>,
    namedFields: map<string, string>,
    position: IntField,
    size: IntField,
    seqId: string,
    newSeq: string)

  /** `fields_dict`. */
  function FieldsDict(m: Mutation): map<string, string> {
    DictOf(m.fields)
  }

  /** A positional value converted as `__init__` converts `position` and `size`: kept when
      absent or empty, otherwise passed through `int()`. */
  function IntFieldOf(d: map<string, string>, key: string): (r: Result<IntField, Error>)
    ensures r.Success? && r.value == Missing <==> key !in d
    ensures r.Success? && r.value == Blank <==> key in d && d[key] == ""
    ensures r.Success? && r.value.Value? <==> key in d && d[key] != "" && ParseInt(d[key]).Some?
    ensures r.Success? && r.value.Value? ==> ParseInt(d[key]) == Some(r.value.n)
    ensures r.Failure? ==> r.error == InvalidLiteral(d[key])
  {
    if key !in d then Success(Missing)
    else if d[key] == "" then Success(Blank)
    else match ParseInt(d[key])
      case None => Failure(InvalidLiteral(d[key]))
      case Some(n) => Success(Value(n))
  }

  /** `Mutation(*pairs, **named)`. */
  function NewMutation(pairs: seq<(string, string)>, named: map<string, string>): (r: Result<Mutation, Error>)
    ensures "self" in named ==> r == Failure(MultipleValues("self"))
    ensures "self" !in named && |pairs| < 3 ==> r == Failure(TooFewFields(|pairs|))
    ensures r.Success? ==> |pairs| >= 3
  {
    if "self" in named then Failure(MultipleValues("self"))
    else if |pairs| < 3 then Failure(TooFewFields(|pairs|))
    else
      var others := pairs[3..];
      var d := DictOf(others);
      var position :- IntFieldOf(d, "position");
      var size :- IntFieldOf(d, "size");
      Success(Mutation(pairs[0].1, pairs[1].1, Split(pairs[2].1, ','), others, named, position, size,
                       GetOr(d, "seq_id", ""), GetOr(d, "new_seq", "")))
  }

  /** With three pairs or more and no `self`, construction fails exactly when `position` or
      `size` is a non-empty text that `int()` rejects. */
  lemma NewMutationFails(pairs: seq<(string, string)>, named: map<string, string>)
    requires "self" !in named && |pairs| >= 3
    ensures NewMutation(pairs, named).Failure? <==>
      IntFieldOf(DictOf(pairs[3..]), "position").Failure? || IntFieldOf(DictOf(pairs[3..]), "size").Failure?
  {
  }

  /** What a constructed record holds: type and id are the first two values, the parent ids
      are the third value split at commas (so joining them back gives that value), the other
      pairs are kept as they are, `position` and `size` are converted by `int()` unless absent
      or empty, and `seq_id` and `new_seq` default to the empty string. */
  lemma NewMutationFields(pairs: seq<(string, string)>, named: map<string, string>)
    requires NewMutation(pairs, named).Success?
    ensures var m := NewMutation(pairs, named).value;
      && m.mtype == pairs[0].1 && m.id == pairs[1].1
      && Join(",", m.parentId) == pairs[2].1
      && |m.parentId| == CountChar(pairs[2].1, ',') + 1
      && m.fields == pairs[3..] && m.namedFields == named
      && m.seqId == GetOr(DictOf(pairs[3..]), "seq_id", "")
      && m.newSeq == GetOr(DictOf(pairs[3..]), "new_seq", "")
      && IntFieldOf(DictOf(pairs[3..]), "position") == Success(m.position)
      && IntFieldOf(DictOf(pairs[3..]), "size") == Success(m.size)
  {
    SplitCharCount(pairs[2].1, ',');
    JoinOfSplit(pairs[2].1, ',');
  }

  /** `Mutation.get(item)`: the positional value, else the named value, else None. Among
      positional pairs with the key, the last one counts, as in `fields_dict`. */
  function Get(m: Mutation, item: string): (r: Option<string>)
    ensures LastKeyIndex(m.fields, item) >= 0 ==> r == Some(m.fields[LastKeyIndex(m.fields, item)].1)
    ensures LastKeyIndex(m.fields, item) < 0 && item in m.namedFields ==> r == Some(m.namedFields[item])
    ensures r.None? <==> (forall j :: 0 <= j < |m.fields| ==> m.fields[j].0 != item) && item !in m.namedFields
  {
    if item in FieldsDict(m) then Some(FieldsDict(m)[item])
    else if item in m.namedFields then Some(m.namedFields[item])
    else None
  }

  /** A value of `to_dict`: a string, or the list of parent ids. */
  datatype DictValue = Text(s: string) | Items(values: seq<string>)

  /** `Mutation.to_dict()`: positional fields, then type, id and parent_id, then the named
      fields over all of them. */
  function ToDict(m: Mutation): (r: map<string, DictValue>)
    ensures forall k :: k in r <==> k in LeadingKeys || LastKeyIndex(m.fields, k) >= 0 || k in m.namedFields
    ensures forall k :: k in m.namedFields ==> r[k] == Text(m.namedFields[k])
  {
    var positional := FieldsDict(m);
    var data := map k | k in positional :: Text(positional[k]);
    var data := data["type" := Text(m.mtype)]["id" := Text(m.id)]["parent_id" := Items(m.parentId)];
    var named := map k | k in m.namedFields :: Text(m.namedFields[k]);
    data + named
  }

  /** `get` and `to_dict` resolve a clash between a positional and a named field in opposite
      ways: `get` prefers the positional value, `to_dict` the named one. Elsewhere they agree. */
  lemma GetVersusToDict(m: Mutation, k: string)
    requires k !in LeadingKeys
    ensures Get(m, k).Some? <==> k in ToDict(m)
    ensures k in FieldsDict(m) && k in m.namedFields ==>
      Get(m, k) == Some(FieldsDict(m)[k]) && ToDict(m)[k] == Text(m.namedFields[k])
    ensures !(k in FieldsDict(m) && k in m.namedFields) && Get(m, k).Some? ==>
      ToDict(m)[k] == Text(Get(m, k).value)
  {
  }

  /** The leading columns in `to_dict`: named fields override them too. */
  lemma ToDictLeading(m: Mutation)
    ensures "type" in ToDict(m) && "id" in ToDict(m) && "parent_id" in ToDict(m)
    ensures "parent_id" !in m.namedFields ==> ToDict(m)["parent_id"] == Items(m.parentId)
    ensures "type" !in m.namedFields ==> ToDict(m)["type"] == Text(m.mtype)
    ensures "id" !in m.namedFields ==> ToDict(m)["id"] == Text(m.id)
    ensures "id" in m.namedFields ==> ToDict(m)["id"] == Text(m.namedFields["id"])
  {
  }

  // ---------------------------------------------------------------------------------------
  // VCF records

  /** `VcfRecord`. */
  datatype VcfRecord = VcfRecord(
    chrom: string, pos: int, id: string, ref: string, alt: string,
    qual: string, filter: string, info: seq<string>)

  /** The eight columns of `VcfRecord.__str__`. */
  function Columns(r: VcfRecord): seq<string> {
    [r.chrom, IntToString(r.pos), r.id, r.ref, r.alt, r.qual, r.filter,
     if r.info == [] then "." else Join(";", r.info)]
  }

  /** `str(record)`: the columns joined by tabs. */
  function Render(r: VcfRecord): string {
    Join("\t", Columns(r))
  }

  lemma {:induction false} JoinAvoids(sep: string, parts: seq<string>, c: char)
    requires c !in sep
    requires forall i :: 0 <= i < |parts| ==> c !in parts[i]
    ensures c !in Join(sep, parts)
    decreases |parts|
  {
    if |parts| > 1 {
      JoinAvoids(sep, parts[1..], c);
    }
  }

  /** A rendered record is one line of exactly eight tab-separated columns, read back by a
      split at tabs, whenever its text fields hold no tab. */
  lemma RenderHasEightColumns(r: VcfRecord)
    requires '\t' !in r.chrom && '\t' !in r.id && '\t' !in r.ref && '\t' !in r.alt
    requires '\t' !in r.qual && '\t' !in r.filter
    requires forall i :: 0 <= i < |r.info| ==> '\t' !in r.info[i]
    ensures Split(Render(r), '\t') == Columns(r)
    ensures |Split(Render(r), '\t')| == 8
  {
    var cols := Columns(r);
    var p := IntToString(r.pos);
    assert '\t' !in p by {
      if r.pos < 0 {
        assert p == "-" + NatToString(-r.pos);
        assert forall i :: 1 <= i < |p| ==> IsDigit(p[i]);
      }
    }
    if r.info != [] {
      JoinAvoids(";", r.info, '\t');
    }
    assert forall i :: 0 <= i < |cols| ==> '\t' !in cols[i];
    SplitJoinChar(cols, '\t');
  }

  /** The argument of `get_position`: an int, a (start, stop) pair, a string (passed
      through `int()`), or anything else. */
  datatype PositionArg = Index(p: int) | Pair(start: int, stop: int) | Literal(s: string) | NoPosition

  /** `s[i]` with Python's negative indices; None for an IndexError. */
  function PyIndex(s: string, i: int): (r: Option<char>)
    ensures r.Some? <==> -|s| <= i < |s|
    ensures 0 <= i < |s| ==> r == Some(s[i])
  {
    if 0 <= i < |s| then Some(s[i])
    else if -|s| <= i < 0 then Some(s[i + |s|])
    else None
  }

  /** A slice bound as Python adjusts it: negative counts from the end, then clamped. */
  function SliceBound(i: int, n: nat): (b: nat)
    ensures b <= n
    ensures 0 <= i <= n ==> b == i
  {
    if i < 0 then (if i + n < 0 then 0 else i + n) else if i > n then n else i
  }

  /** `s[start:stop]`. */
  function PySlice(s: string, start: int, stop: int): (r: string)
    ensures 0 <= start <= stop <= |s| ==> r == s[start..stop]
  {
    var a := SliceBound(start, |s|);
    var b := SliceBound(stop, |s|);
    if a <= b then s[a..b] else []
  }

  /** `get_position(genome, position)`, 1-based: an int p gives the p-th base, a pair (a, b)
      the bases a to b - 1. */
  function GetPosition(genome: string, position: PositionArg): (r: Result<string, Error>)
    ensures position.Index? && 1 <= position.p <= |genome| ==>
      r == Success([genome[position.p - 1]])
    ensures position.Index? && !(-|genome| < position.p <= |genome|) ==>
      r == Failure(IndexOutOfRange(position.p))
    ensures position.Pair? && 1 <= position.start <= position.stop <= |genome| + 1 ==>
      r == Success(genome[position.start - 1..position.stop - 1]) &&
      |r.value| == position.stop - position.start
    ensures position.Pair? ==> r.Success?
    ensures position.NoPosition? ==> r == Failure(InvalidPosition)
    ensures position.Literal? && ParseInt(position.s).None? ==> r == Failure(InvalidLiteral(position.s))
  {
    match position
    case Literal(s) =>
      (match ParseInt(s)
       case None => Failure(InvalidLiteral(s))
       case Some(p) => BaseAt(genome, p))
    case Index(p) => BaseAt(genome, p)
    case Pair(a, b) => Success(PySlice(genome, a - 1, b - 1))
    case NoPosition => Failure(InvalidPosition)
  }

  /** `genome[p - 1]` as a one-base string. */
  function BaseAt(genome: string, p: int): (r: Result<string, Error>)
    ensures 1 <= p <= |genome| ==> r == Success([genome[p - 1]])
    ensures r.Failure? <==> !(-|genome| < p <= |genome|)
    ensures r.Failure? ==> r.error == IndexOutOfRange(p)
  {
    match PyIndex(genome, p - 1)
    case None => Failure(IndexOutOfRange(p))
    case Some(c) => Success([c])
  }

  /** The value `self.position` has when passed to `get_position`. */
  function PositionArgOf(f: IntField): PositionArg {
    match f
    case Missing => NoPosition
    case Blank => Literal("")
    case Value(n) => Index(n)
  }

  /** `(self.position, self.position + self.size)`: a TypeError unless both are ints. */
  function SpanOf(m: Mutation): (r: Result<PositionArg, Error>)
    ensures r.Success? <==> m.position.Value? && m.size.Value?
    ensures r.Success? ==> r.value == Pair(m.position.n, m.position.n + m.size.n)
  {
    if m.position.Value? && m.size.Value? then
      Success(Pair(m.position.n, m.position.n + m.size.n))
    else Failure(UnsupportedOperand)
  }

  /** The types `to_vcf` can convert. */
  const ConvertibleTypes: set<string> := {"INS", "SNP", "SUB", "DEL", "INV"}

  /** REF and ALT of `Mutation.to_vcf`. */
  function RefAlt(m: Mutation, genome: string): (r: Result<(string, string), Error>)
    ensures m.mtype !in ConvertibleTypes ==> r == Failure(InvalidMutationType(m.mtype))
    ensures r.Success? ==> m.position.Value?
    ensures r.Success? && m.mtype == "SNP" ==> |r.value.0| == 1 && r.value.1 == m.newSeq
    ensures r.Success? && m.mtype == "INS" ==> |r.value.0| == 1 && r.value.1 == r.value.0 + m.newSeq
    ensures r.Success? && m.mtype == "SUB" ==> r.value.1 == m.newSeq
    ensures r.Success? && m.mtype == "DEL" ==> r.value.1 == "."
    ensures r.Success? && m.mtype == "INV" ==> r.value.1 == Reverse(r.value.0)
    ensures r.Success? && m.mtype in {"SUB", "DEL", "INV"} ==> m.size.Value?
  {
    if m.mtype == "INS" then
      var b :- GetPosition(genome, PositionArgOf(m.position));
      Success((b, b + m.newSeq))
    else if m.mtype == "SNP" then
      var b :- GetPosition(genome, PositionArgOf(m.position));
      Success((b, m.newSeq))
    else if m.mtype == "SUB" then
      var span :- SpanOf(m);
      var ref :- GetPosition(genome, span);
      Success((ref, m.newSeq))
    else if m.mtype == "DEL" then
      var span :- SpanOf(m);
      var ref :- GetPosition(genome, span);
      Success((ref, "."))
    else if m.mtype == "INV" then
      var span :- SpanOf(m);
      var ref :- GetPosition(genome, span);
      Success((ref, Reverse(ref)))
    else Failure(InvalidMutationType(m.mtype))
  }

  /** `'{}={}'.format(key, value).replace(' ', '')`. */
  function InfoEntry(key: string, value: string): string {
    ReplaceAll(key + "=" + value, " ", "")
  }

  /** The INFO keys in the order `to_vcf` lists them, before `sorted`. */
  const InfoKeys: seq<string> := ["TP", "P", "GP", "CAT"]

  /** The INFO entries, in sorted key order. */
  function Info(m: Mutation): seq<string> {
    [InfoEntry("CAT", Show(Get(m, "mutation_category"))),
     InfoEntry("GP", Show(Get(m, "gene_position"))),
     InfoEntry("P", IntToString(|m.parentId|)),
     InfoEntry("TP", m.mtype)]
  }

  /** `Mutation.to_vcf(reference)`. */
  function MutationToVcf(m: Mutation, genome: string): (r: Result<VcfRecord, Error>)
    ensures r.Success? <==> RefAlt(m, genome).Success?
    ensures r.Failure? ==> r.error == RefAlt(m, genome).error
    ensures r.Success? ==> r.value.ref == RefAlt(m, genome).value.0 && r.value.alt == RefAlt(m, genome).value.1
    ensures r.Success? ==> m.position.Value? && r.value.pos == m.position.n && r.value.chrom == m.seqId
    ensures r.Success? ==> r.value.id == "." && r.value.qual == "PASS" && r.value.filter == "."
    ensures r.Success? ==> r.value.info == Info(m)
  {
    var refAlt :- RefAlt(m, genome);
    Success(VcfRecord(m.seqId, m.position.n, ".", refAlt.0, refAlt.1, "PASS", ".", Info(m)))
  }

  /** An entry whose key has no space keeps the key and loses the spaces of its value. */
  lemma InfoEntryShape(key: string, value: string)
    requires ' ' !in key
    ensures InfoEntry(key, value) == key + "=" + RemoveChar(value, ' ')
  {
    var eq := "=";
    calc {
      InfoEntry(key, value);
      { ReplaceCharByEmpty(key + eq + value, ' '); }
      RemoveChar(key + eq + value, ' ');
      { RemoveCharAppend(key + eq, value, ' '); }
      RemoveChar(key + eq, ' ') + RemoveChar(value, ' ');
      { RemoveCharAppend(key, eq, ' '); RemoveCharAbsent(key, ' '); RemoveCharAbsent(eq, ' '); }
      key + eq + RemoveChar(value, ' ');
    }
  }

  /** The four entries of the INFO column, for given values. */
  lemma EntriesShape(cat: string, gp: string, p: string, tp: string)
    requires ' ' !in p
    ensures InfoEntry("CAT", cat) == "CAT" + "=" + RemoveChar(cat, ' ')
    ensures InfoEntry("GP", gp) == "GP" + "=" + RemoveChar(gp, ' ')
    ensures InfoEntry("P", p) == "P" + "=" + p
    ensures InfoEntry("TP", tp) == "TP" + "=" + RemoveChar(tp, ' ')
  {
    InfoEntryShape("CAT", cat);
    InfoEntryShape("GP", gp);
    InfoEntryShape("TP", tp);
    InfoEntryShape("P", p);
    RemoveCharAbsent(p, ' ');
  }

  /** The INFO column: CAT, GP, P and TP in that order, each `key=value` with every space
      removed from the value, missing annotations shown as `None`, and P the number of
      parent ids. */
  lemma InfoShape(m: Mutation)
    ensures |Info(m)| == 4
    ensures Info(m)[0] == "CAT" + "=" + RemoveChar(Show(Get(m, "mutation_category")), ' ')
    ensures Info(m)[1] == "GP" + "=" + RemoveChar(Show(Get(m, "gene_position")), ' ')
    ensures Info(m)[2] == "P" + "=" + IntToString(|m.parentId|)
    ensures Info(m)[3] == "TP" + "=" + RemoveChar(m.mtype, ' ')
  {
    var p := IntToString(|m.parentId|);
    assert ' ' !in p by {
      assert forall i :: 0 <= i < |p| ==> IsDigit(p[i]);
    }
    EntriesShape(Show(Get(m, "mutation_category")), Show(Get(m, "gene_position")), p, m.mtype);
  }

  /** The INFO keys in the order in which `Info` emits them. */
  const SortedInfoKeys: seq<string> := ["CAT", "GP", "P", "TP"]

  /** The emitted order is the list of `to_vcf` in sorted order: the same keys, each smaller
      than the next. */
  lemma InfoKeysSorted()
    ensures multiset(InfoKeys) == multiset(SortedInfoKeys)
    ensures forall i, j :: 0 <= i < j < |SortedInfoKeys| ==> StrLess(SortedInfoKeys[i], SortedInfoKeys[j])
  {
    var k := SortedInfoKeys;
    assert StrLess(k[0], k[1]) && StrLess(k[1], k[2]) && StrLess(k[2], k[3]);
    StrLessStrictTotal();
    assert InfoKeys == [k[3], k[2], k[1], k[0]];
  }

  /** SNP and INS with `position` within the reference read the base at `position`
      (1-based); SNP replaces it by `new_seq`, INS appends `new_seq` to it. */
  lemma PointConversion(m: Mutation, genome: string)
    requires m.mtype == "SNP" || m.mtype == "INS"
    requires m.position.Value? && 1 <= m.position.n <= |genome|
    ensures MutationToVcf(m, genome).Success?
    ensures MutationToVcf(m, genome).value.ref == [genome[m.position.n - 1]]
    ensures m.mtype == "SNP" ==> MutationToVcf(m, genome).value.alt == m.newSeq
    ensures m.mtype == "INS" ==> MutationToVcf(m, genome).value.alt == [genome[m.position.n - 1]] + m.newSeq
  {
    assert GetPosition(genome, PositionArgOf(m.position)) == Success([genome[m.position.n - 1]]);
  }

  /** SUB, DEL and INV whose span lies within the reference read `size` bases from
      `position` (1-based); SUB replaces them by `new_seq`, DEL by `.`, INV by their reversal
      (the bases are not complemented). */
  lemma SpanConversion(m: Mutation, genome: string)
    requires m.mtype == "SUB" || m.mtype == "DEL" || m.mtype == "INV"
    requires m.position.Value? && m.size.Value?
    requires 1 <= m.position.n && 0 <= m.size.n && m.position.n + m.size.n <= |genome| + 1
    ensures MutationToVcf(m, genome).Success?
    ensures MutationToVcf(m, genome).value.ref == genome[m.position.n - 1..m.position.n - 1 + m.size.n]
    ensures m.mtype == "SUB" ==> MutationToVcf(m, genome).value.alt == m.newSeq
    ensures m.mtype == "DEL" ==> MutationToVcf(m, genome).value.alt == "."
    ensures m.mtype == "INV" ==>
      MutationToVcf(m, genome).value.alt == Reverse(genome[m.position.n - 1..m.position.n - 1 + m.size.n])
  {
    var span := Pair(m.position.n, m.position.n + m.size.n);
    assert SpanOf(m) == Success(span);
    assert GetPosition(genome, span) == Success(genome[m.position.n - 1..m.position.n - 1 + m.size.n]);
  }

  // ---------------------------------------------------------------------------------------
  // Parsing lines

  /** How `parse` treats a line, by the length of its first token. */
  datatype LineKind = MutationLine | EvidenceLine | Ignored

  function Route(line: seq<string>): LineKind {
    if |line| < 1 then Ignored
    else if |line[0]| == 3 then MutationLine
    else if |line[0]| == 2 then EvidenceLine
    else Ignored
  }

  predicate IsMutationLine(line: seq<string>) { Route(line) == MutationLine }
  predicate IsEvidenceLine(line: seq<string>) { Route(line) == EvidenceLine }
  predicate IsIgnoredLine(line: seq<string>) { Route(line) == Ignored }

  /** Blank lines are ignored, and so are the lines of the schema's four-letter types. */
  lemma IgnoredLines(line: seq<string>)
    ensures Route([""]) == Ignored
    ensures |line| >= 1 && line[0] in {"CURA", "FPOS", "PHYL", "TSEQ", "PFLP", "RFLP", "PFGE", "NOTE"} ==>
      line[0] in TypeSpecificFields && Route(line) == Ignored
  {
  }

  /** The (key, token) pairs `parse_row` zips: the k-th key of `type, id, parent_id` and the
      type's schema with the k-th token, as many as the shorter of the two provides. */
  function PositionalPairs(row: seq<string>): (pairs: seq<(string, string)>)
    requires |row| >= 1 && row[0] in TypeSpecificFields
    ensures |pairs| == if |row| < 3 + |TypeSpecificFields[row[0]]| then |row| else 3 + |TypeSpecificFields[row[0]]|
    ensures forall k :: 0 <= k < |pairs| ==> pairs[k] == ((LeadingKeys + TypeSpecificFields[row[0]])[k], row[k])
  {
    var keys := LeadingKeys + TypeSpecificFields[row[0]];
    Zip(keys, Take(row, |keys| + 3))
  }

  /** `parse_row(row)`. */
  function ParseRow(row: seq<string>): (r: Result<Mutation, Error>)
    ensures |row| == 0 ==> r == Failure(EmptyRow)
    ensures |row| >= 1 && row[0] !in TypeSpecificFields ==> r == Failure(UnknownType(row[0]))
    ensures |row| >= 1 && row[0] in TypeSpecificFields && "self" in NamedFields(row) ==>
      r == Failure(MultipleValues("self"))
    ensures |row| >= 1 && row[0] in TypeSpecificFields && "self" !in NamedFields(row) && |row| < 3 ==>
      r == Failure(TooFewFields(|row|))
    ensures r.Success? ==> |row| >= 3 && row[0] in TypeSpecificFields
  {
    if |row| == 0 then Failure(EmptyRow)
    else if row[0] !in TypeSpecificFields then Failure(UnknownType(row[0]))
    else NewMutation(PositionalPairs(row), NamedFields(row))
  }

  /** A parsed row: type, id and parent ids from the first three tokens, the k-th positional
      field named by the k-th schema key of the type with as many fields as both the row and
      the schema provide, and the row's named fields. */
  lemma ParseRowFields(row: seq<string>)
    requires ParseRow(row).Success?
    ensures var m := ParseRow(row).value;
      && m.mtype == row[0] && m.id == row[1] && Join(",", m.parentId) == row[2]
      && m.namedFields == NamedFields(row)
    ensures var m := ParseRow(row).value;
      var schema := TypeSpecificFields[row[0]];
      && |m.fields| == (if |row| - 3 < |schema| then |row| - 3 else |schema|)
      && forall k :: 0 <= k < |m.fields| ==> m.fields[k] == (schema[k], row[3 + k])
  {
    var pairs := PositionalPairs(row);
    assert ParseRow(row) == NewMutation(pairs, NamedFields(row));
    NewMutationFields(pairs, NamedFields(row));
    SchemaPairsTail(TypeSpecificFields[row[0]], row);
  }

  /** The pairs after the first three, for any schema: the schema's keys with the row's
      tokens from the fourth on. */
  lemma SchemaPairsTail(schema: seq<string>, row: seq<string>)
    requires |row| >= 3
    ensures var pairs := Zip(LeadingKeys + schema, Take(row, |LeadingKeys + schema| + 3));
      && |pairs[3..]| == (if |row| - 3 < |schema| then |row| - 3 else |schema|)
      && forall k :: 0 <= k < |pairs[3..]| ==> pairs[3..][k] == (schema[k], row[3 + k])
  {
    var keys := LeadingKeys + schema;
    var pairs := Zip(keys, Take(row, |keys| + 3));
    forall k | 0 <= k < |pairs[3..]| ensures pairs[3..][k] == (schema[k], row[3 + k]) {
      assert pairs[3..][k] == pairs[3 + k];
      assert keys[3 + k] == schema[k];
    }
  }

  /** The loop of `parse(contents)`, for a given row parser: the mutations and the evidence,
      each in file order; the first record line that fails to parse aborts. */
  function ParseLinesBy(parse: seq<string> -> Result<Mutation, Error>, contents: seq<seq<string>>)
    : Result<(seq<Mutation>, seq<Mutation>), Error>
  {
    if contents == [] then Success(([], []))
    else
      var line := contents[0];
      match Route(line)
      case Ignored => ParseLinesBy(parse, contents[1..])
      case MutationLine =>
        var m :- parse(line);
        var rest :- ParseLinesBy(parse, contents[1..]);
        Success(([m] + rest.0, rest.1))
      case EvidenceLine =>
        var e :- parse(line);
        var rest :- ParseLinesBy(parse, contents[1..]);
        Success((rest.0, [e] + rest.1))
  }

  /** `parse(contents)`. */
  function ParseLines(contents: seq<seq<string>>): Result<(seq<Mutation>, seq<Mutation>), Error> {
    ParseLinesBy(ParseRow, contents)
  }

  /** The records already collected, put in front of the result for the remaining lines. */
  function Prepend(ms: seq<Mutation>, es: seq<Mutation>, r: Result<(seq<Mutation>, seq<Mutation>), Error>)
    : Result<(seq<Mutation>, seq<Mutation>), Error>
  {
    match r
    case Failure(e) => Failure(e)
    case Success(p) => Success((ms + p.0, es + p.1))
  }

  lemma PrependNothing(r: Result<(seq<Mutation>, seq<Mutation>), Error>)
    ensures Prepend([], [], r) == r
  {
    match r
    case Failure(_) =>
    case Success(p) =>
      assert [] + p.0 == p.0 && [] + p.1 == p.1;
  }

  lemma PrependAppend(ms: seq<Mutation>, es: seq<Mutation>, m: seq<Mutation>, e: seq<Mutation>,
                      r: Result<(seq<Mutation>, seq<Mutation>), Error>)
    ensures Prepend(ms, es, Prepend(m, e, r)) == Prepend(ms + m, es + e, r)
  {
    match r
    case Failure(_) =>
    case Success(p) =>
      assert ms + (m + p.0) == (ms + m) + p.0;
      assert es + (e + p.1) == (es + e) + p.1;
  }

  /** The result for the lines from `i` on when the i-th line is skipped. */
  lemma ParseLinesSkip(parse: seq<string> -> Result<Mutation, Error>, contents: seq<seq<string>>, i: nat)
    requires i < |contents| && Route(contents[i]) == Ignored
    ensures ParseLinesBy(parse, contents[i..]) == Prepend([], [], ParseLinesBy(parse, contents[i + 1..]))
  {
    assert contents[i..][0] == contents[i] && contents[i..][1..] == contents[i + 1..];
    PrependNothing(ParseLinesBy(parse, contents[i + 1..]));
  }

  /** The result for the lines from `i` on when the i-th line is a record that parses. */
  lemma ParseLinesRecord(parse: seq<string> -> Result<Mutation, Error>, contents: seq<seq<string>>, i: nat)
    requires i < |contents| && parse(contents[i]).Success?
    ensures Route(contents[i]) == MutationLine ==>
      ParseLinesBy(parse, contents[i..]) == Prepend([parse(contents[i]).value], [], ParseLinesBy(parse, contents[i + 1..]))
    ensures Route(contents[i]) == EvidenceLine ==>
      ParseLinesBy(parse, contents[i..]) == Prepend([], [parse(contents[i]).value], ParseLinesBy(parse, contents[i + 1..]))
  {
    assert contents[i..][0] == contents[i] && contents[i..][1..] == contents[i + 1..];
    match ParseLinesBy(parse, contents[i + 1..])
    case Failure(_) =>
    case Success(rest) =>
      assert [] + rest.0 == rest.0 && [] + rest.1 == rest.1;
  }

  /** The result for the lines from `i` on when the i-th line is a record that does not
      parse. */
  lemma ParseLinesError(parse: seq<string> -> Result<Mutation, Error>, contents: seq<seq<string>>, i: nat)
    requires i < |contents| && Route(contents[i]) != Ignored && parse(contents[i]).Failure?
    ensures ParseLinesBy(parse, contents[i..]) == Failure(parse(contents[i]).error)
  {
    assert contents[i..][0] == contents[i];
  }

  /** `GenomeDiff.parse`: the loop that appends each parsed line to its list, with the row
      parser as a parameter. */
  method ParseBy(parse: seq<string> -> Result<Mutation, Error>, contents: seq<seq<string>>)
    returns (r: Result<(seq<Mutation>, seq<Mutation>), Error>)
    ensures r == ParseLinesBy(parse, contents)
  {
    var mutations: seq<Mutation> := [];
    var evidence: seq<Mutation> := [];
    var i := 0;
    PrependNothing(ParseLinesBy(parse, contents));
    assert contents[0..] == contents;
    while i < |contents|
      invariant 0 <= i <= |contents|
      invariant ParseLinesBy(parse, contents) == Prepend(mutations, evidence, ParseLinesBy(parse, contents[i..]))
    {
      var line := contents[i];
      ghost var rest := ParseLinesBy(parse, contents[i + 1..]);
      if |line| >= 1 && (|line[0]| == 3 || |line[0]| == 2) {
        var result := parse(line);
        if result.Failure? {
          ParseLinesError(parse, contents, i);
          return Failure(result.error);
        }
        ParseLinesRecord(parse, contents, i);
        if |line[0]| == 3 {
          PrependAppend(mutations, evidence, [result.value], [], rest);
          mutations := mutations + [result.value];
        } else {
          PrependAppend(mutations, evidence, [], [result.value], rest);
          evidence := evidence + [result.value];
        }
      } else {
        ParseLinesSkip(parse, contents, i);
        PrependAppend(mutations, evidence, [], [], rest);
      }
      i := i + 1;
    }
    assert contents[i..] == [];
    assert mutations + [] == mutations && evidence + [] == evidence;
    r := Success((mutations, evidence));
  }

  /** `GenomeDiff.parse` with `parse_row`. */
  method Parse(contents: seq<seq<string>>) returns (r: Result<(seq<Mutation>, seq<Mutation>), Error>)
    ensures r == ParseLines(contents)
  {
    r := ParseBy(ParseRow, contents);
  }

  /** Parsing succeeds exactly when every mutation or evidence line parses. */
  lemma {:induction false} ParseLinesSucceeds(parse: seq<string> -> Result<Mutation, Error>, contents: seq<seq<string>>)
    ensures ParseLinesBy(parse, contents).Success? <==>
      forall i :: 0 <= i < |contents| && Route(contents[i]) != Ignored ==> parse(contents[i]).Success?
    decreases |contents|
  {
    if contents != [] {
      var tail := contents[1..];
      ParseLinesSucceeds(parse, tail);
      assert forall i :: 1 <= i < |contents| ==> contents[i] == tail[i - 1];
    }
  }

  /** A successful parse of a nonempty file, in terms of its first line. */
  lemma ParseLinesHead(parse: seq<string> -> Result<Mutation, Error>, contents: seq<seq<string>>)
    requires contents != [] && ParseLinesBy(parse, contents).Success?
    ensures ParseLinesBy(parse, contents[1..]).Success?
    ensures Route(contents[0]) != Ignored ==> parse(contents[0]).Success?
    ensures ParseLinesBy(parse, contents).value.0 ==
      (if Route(contents[0]) == MutationLine then [parse(contents[0]).value] else []) + ParseLinesBy(parse, contents[1..]).value.0
    ensures ParseLinesBy(parse, contents).value.1 ==
      (if Route(contents[0]) == EvidenceLine then [parse(contents[0]).value] else []) + ParseLinesBy(parse, contents[1..]).value.1
  {
    var rest := ParseLinesBy(parse, contents[1..]).value;
    assert [] + rest.0 == rest.0 && [] + rest.1 == rest.1;
  }

  /** After a successful parse, the mutations are the parsed mutation lines, in file order. */
  lemma {:induction false} ParseLinesMutations(parse: seq<string> -> Result<Mutation, Error>, contents: seq<seq<string>>)
    requires ParseLinesBy(parse, contents).Success?
    ensures Pointwise((line, m) => parse(line) == Success(m), Filter(contents, IsMutationLine), ParseLinesBy(parse, contents).value.0)
    decreases |contents|
  {
    if contents != [] {
      var tail := contents[1..];
      var line := contents[0];
      ParseLinesHead(parse, contents);
      ParseLinesMutations(parse, tail);
      if Route(line) == MutationLine {
        assert Filter(contents, IsMutationLine) == [line] + Filter(tail, IsMutationLine);
        PointwiseCons((line, m) => parse(line) == Success(m), line, Filter(tail, IsMutationLine),
                      parse(line).value, ParseLinesBy(parse, tail).value.0);
      } else {
        assert Filter(contents, IsMutationLine) == Filter(tail, IsMutationLine);
      }
    }
  }

  /** After a successful parse, the evidence is the parsed evidence lines, in file order. */
  lemma {:induction false} ParseLinesEvidence(parse: seq<string> -> Result<Mutation, Error>, contents: seq<seq<string>>)
    requires ParseLinesBy(parse, contents).Success?
    ensures Pointwise((line, m) => parse(line) == Success(m), Filter(contents, IsEvidenceLine), ParseLinesBy(parse, contents).value.1)
    decreases |contents|
  {
    if contents != [] {
      var tail := contents[1..];
      var line := contents[0];
      ParseLinesHead(parse, contents);
      ParseLinesEvidence(parse, tail);
      if Route(line) == EvidenceLine {
        assert Filter(contents, IsEvidenceLine) == [line] + Filter(tail, IsEvidenceLine);
        PointwiseCons((line, m) => parse(line) == Success(m), line, Filter(tail, IsEvidenceLine),
                      parse(line).value, ParseLinesBy(parse, tail).value.1);
      } else {
        assert Filter(contents, IsEvidenceLine) == Filter(tail, IsEvidenceLine);
      }
    }
  }

  /** The error of a failed parse is that of the first mutation or evidence line that fails. */
  lemma {:induction false} ParseLinesFirstError(parse: seq<string> -> Result<Mutation, Error>, contents: seq<seq<string>>, k: nat)
    requires k < |contents| && Route(contents[k]) != Ignored && parse(contents[k]).Failure?
    requires forall i :: 0 <= i < k && Route(contents[i]) != Ignored ==> parse(contents[i]).Success?
    ensures ParseLinesBy(parse, contents) == Failure(parse(contents[k]).error)
    decreases k
  {
    if k > 0 {
      var tail := contents[1..];
      assert forall i :: 0 <= i < k - 1 ==> tail[i] == contents[i + 1];
      ParseLinesFirstError(parse, tail, k - 1);
      assert Route(contents[0]) != Ignored ==> parse(contents[0]).Success?;
    }
  }

  /** Every line is a mutation line, an evidence line or an ignored line. */
  lemma {:induction false} LineCount(contents: seq<seq<string>>)
    ensures |Filter(contents, IsMutationLine)| + |Filter(contents, IsEvidenceLine)| + |Filter(contents, IsIgnoredLine)| == |contents|
    decreases |contents|
  {
    if contents != [] {
      LineCount(contents[1..]);
    }
  }

  // ---------------------------------------------------------------------------------------
  // The document

  /** The key of `mutation_map`. */
  function MutationKey(m: Mutation): (string, IntField) {
    (m.seqId, m.position)
  }

  function MutationKeys(ms: seq<Mutation>): (r: seq<(string, IntField)>)
    ensures |r| == |ms| && forall i :: 0 <= i < |ms| ==> r[i] == MutationKey(ms[i])
  {
    seq(|ms|, i requires 0 <= i < |ms| => MutationKey(ms[i]))
  }

  function EvidenceIds(es: seq<Mutation>): (r: seq<string>)
    ensures |r| == |es| && forall i :: 0 <= i < |es| ==> r[i] == es[i].id
  {
    seq(|es|, i requires 0 <= i < |es| => es[i].id)
  }

  /** The records of `evidence` named by `ids`, in that order, through the index map of
      their ids; the first id without a record is the error. */
  function EvidenceFor(evidence: seq<Mutation>, index: map<string, nat>, ids: seq<string>): (r: Result<seq<Mutation>, Error>)
    requires index == IndexMap(EvidenceIds(evidence))
    ensures r.Success? <==> forall i :: 0 <= i < |ids| ==> ids[i] in EvidenceIds(evidence)
    ensures r.Success? ==> |r.value| == |ids|
    ensures r.Success? ==> forall i :: 0 <= i < |ids| ==> r.value[i] == evidence[index[ids[i]]] && r.value[i].id == ids[i]
    ensures r.Success? ==> forall i, j :: 0 <= i < |ids| && index[ids[i]] < j < |evidence| ==> evidence[j].id != ids[i]
    ensures r.Failure? ==> r.error.MissingEvidence? && r.error.id in ids && r.error.id !in EvidenceIds(evidence)
    ensures r.Failure? ==>
              exists f :: 0 <= f < |ids| && r.error == MissingEvidence(ids[f]) &&
                          ids[f] !in EvidenceIds(evidence) &&
                          forall j :: 0 <= j < f ==> ids[j] in EvidenceIds(evidence)
  {
    EvidenceIndex(evidence, index);
    match SelectAll(evidence, index, ids)
    case Failure(id) => Failure(MissingEvidence(id))
    case Success(es) => Success(es)
  }

  /** The index map of the evidence ids, read back in terms of the records: an id is indexed
      exactly when some record has it, at the last record that has it. */
  lemma EvidenceIndex(evidence: seq<Mutation>, index: map<string, nat>)
    requires index == IndexMap(EvidenceIds(evidence))
    ensures forall k :: k in index <==> k in EvidenceIds(evidence)
    ensures forall k :: k in index ==> index[k] < |evidence| && evidence[index[k]].id == k
    ensures forall k, j :: k in index && index[k] < j < |evidence| ==> evidence[j].id != k
  {
    var keys := EvidenceIds(evidence);
    forall k | k in index ensures evidence[index[k]].id == k {
      assert keys[index[k]] == k;
    }
    forall k, j | k in index && index[k] < j < |evidence| ensures evidence[j].id != k {
      assert keys[j] != k;
    }
  }

  /** One VCF line for a mutation: its sequence looked up in the reference, then converted. */
  function VcfLine(m: Mutation, reference: map<string, string>): (r: Result<string, Error>)
    ensures m.seqId !in reference ==> r == Failure(MissingSequence(m.seqId))
    ensures m.seqId in reference ==> r.Success? == MutationToVcf(m, reference[m.seqId]).Success?
    ensures r.Success? ==> m.seqId in reference && r.value == Render(MutationToVcf(m, reference[m.seqId]).value)
  {
    if m.seqId !in reference then Failure(MissingSequence(m.seqId))
    else
      var record :- MutationToVcf(m, reference[m.seqId]);
      Success(Render(record))
  }

  /** The lines of the document-level `to_vcf`: one per mutation, in order, or the first
      error. */
  function VcfLines(ms: seq<Mutation>, reference: map<string, string>): Result<seq<string>, Error> {
    MapAll(m => VcfLine(m, reference), ms)
  }

  /** Export succeeds exactly when every mutation converts. */
  lemma VcfLinesSucceeds(ms: seq<Mutation>, reference: map<string, string>)
    ensures VcfLines(ms, reference).Success? <==> forall i :: 0 <= i < |ms| ==> VcfLine(ms[i], reference).Success?
  {
    MapAllSucceeds(m => VcfLine(m, reference), ms);
  }

  /** After a successful export, the i-th line is the i-th mutation's record. */
  lemma VcfLinesValues(ms: seq<Mutation>, reference: map<string, string>)
    requires VcfLines(ms, reference).Success?
    ensures |VcfLines(ms, reference).value| == |ms|
    ensures forall i :: 0 <= i < |ms| ==> VcfLine(ms[i], reference) == Success(VcfLines(ms, reference).value[i])
  {
    MapAllValues(m => VcfLine(m, reference), ms);
  }

  /** A failed export reports the error of the first mutation that does not convert. */
  lemma VcfLinesFirstError(ms: seq<Mutation>, reference: map<string, string>, k: nat)
    requires k < |ms| && VcfLine(ms[k], reference).Failure?
    requires forall i :: 0 <= i < k ==> VcfLine(ms[i], reference).Success?
    ensures VcfLines(ms, reference) == Failure(VcfLine(ms[k], reference).error)
  {
    MapAllFirstError(m => VcfLine(m, reference), ms, k);
  }

  /** A parsed genome-diff document. Its four attributes are set once, by the constructor. */
  class GenomeDiff {
    const mutations: seq<Mutation>
    const evidence: seq<Mutation>
    const mutationMap: map<(string, IntField), nat>
    const evidenceMap: map<string, nat>

    /** The two index maps are those of the record lists. */
    ghost predicate Valid() {
      && mutationMap == IndexMap(MutationKeys(mutations))
      && evidenceMap == IndexMap(EvidenceIds(evidence))
    }

    /** The part of `__init__` after reading and parsing: keeps the lists, builds the maps. */
    constructor (mutations: seq<Mutation>, evidence: seq<Mutation>)
      ensures Valid()
      ensures this.mutations == mutations && this.evidence == evidence
    {
      this.mutations := mutations;
      this.evidence := evidence;
      this.mutationMap := IndexMap(MutationKeys(mutations));
      this.evidenceMap := IndexMap(EvidenceIds(evidence));
    }

    /** `gd[(seq_id, position)]`: the index of the last mutation with that key, or None. */
    function Lookup(seqId: string, position: IntField): (r: Option<nat>)
      requires Valid()
      ensures r.None? <==> forall i :: 0 <= i < |mutations| ==> MutationKey(mutations[i]) != (seqId, position)
      ensures r.Some? ==> r.value < |mutations| && MutationKey(mutations[r.value]) == (seqId, position)
      ensures r.Some? ==> forall j :: r.value < j < |mutations| ==> MutationKey(mutations[j]) != (seqId, position)
    {
      var keys := MutationKeys(mutations);
      if (seqId, position) in mutationMap then
        assert forall j :: 0 <= j < |mutations| ==> keys[j] == MutationKey(mutations[j]);
        Some(mutationMap[(seqId, position)])
      else
        assert forall j :: 0 <= j < |mutations| ==> keys[j] == MutationKey(mutations[j]);
        None
    }

    /** `get_evidence(mutation)`: the evidence of the parent ids, in parent-id order, each the
      last record with its id; every id must be an evidence id (`.`, which breseq writes for
      no parent, is not one), and the first one that is not is the error. */
    function GetEvidence(m: Mutation): (r: Result<seq<Mutation>, Error>)
      requires Valid()
      ensures r.Success? <==> forall i :: 0 <= i < |m.parentId| ==> m.parentId[i] in EvidenceIds(evidence)
      ensures r.Success? ==> |r.value| == |m.parentId| && forall i :: 0 <= i < |m.parentId| ==> r.value[i].id == m.parentId[i]
      ensures r.Success? ==> forall i :: 0 <= i < |m.parentId| ==> r.value[i] == evidence[evidenceMap[m.parentId[i]]]
      ensures r.Success? ==>
                forall i, j :: 0 <= i < |m.parentId| && evidenceMap[m.parentId[i]] < j < |evidence| ==>
                  evidence[j].id != m.parentId[i]
      ensures r.Failure? ==> r.error.MissingEvidence? && r.error.id in m.parentId && r.error.id !in EvidenceIds(evidence)
      ensures r.Failure? ==>
                exists f :: 0 <= f < |m.parentId| && r.error == MissingEvidence(m.parentId[f]) &&
                            m.parentId[f] !in EvidenceIds(evidence) &&
                            forall j :: 0 <= j < f ==> m.parentId[j] in EvidenceIds(evidence)
    {
      EvidenceFor(evidence, evidenceMap, m.parentId)
    }

    /** The document-level `to_vcf`: the loop that converts each mutation and appends its
      line, stopping at the first error. */
    method ToVcf(reference: map<string, string>) returns (r: Result<seq<string>, Error>)
      ensures r == VcfLines(mutations, reference)
    {
      var lines: seq<string> := [];
      var i := 0;
      ghost var f := m => VcfLine(m, reference);
      PrependNone(VcfLines(mutations, reference));
      assert mutations[0..] == mutations;
      while i < |mutations|
        invariant 0 <= i <= |mutations|
        invariant VcfLines(mutations, reference) == PrependAll(lines, MapAll(f, mutations[i..]))
      {
        var mutation := mutations[i];
        MapAllStep(f, mutations, i);
        if mutation.seqId !in reference {
          return Failure(MissingSequence(mutation.seqId));
        }
        var record := MutationToVcf(mutation, reference[mutation.seqId]);
        if record.Failure? {
          return Failure(record.error);
        }
        var line := Render(record.value);
        PrependAllAppend(lines, line, MapAll(f, mutations[i + 1..]));
        lines := lines + [line];
        i := i + 1;
      }
      assert mutations[i..] == [];
      assert lines + [] == lines;
      r := Success(lines);
    }
  }

  /** `GenomeDiff(path)` after the file has been read and split into tab-separated lines:
      parse, then index. */
  method Load(contents: seq<seq<string>>) returns (r: Result<GenomeDiff, Error>)
    ensures r.Failure? <==> ParseLines(contents).Failure?
    ensures r.Failure? ==> r.error == ParseLines(contents).error
    ensures r.Success? ==> fresh(r.value) && r.value.Valid()
    ensures r.Success? ==> r.value.mutations == ParseLines(contents).value.0
    ensures r.Success? ==> r.value.evidence == ParseLines(contents).value.1
  {
    var parsed := Parse(contents);
    if parsed.Failure? {
      return Failure(parsed.error);
    }
    var gd := new GenomeDiff(parsed.value.0, parsed.value.1);
    r := Success(gd);
  }
}
