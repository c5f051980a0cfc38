/** The parts of `pathlib` the scripts use. A path is the sequence of its components,
    outermost first: `data/run/SampleSheet.csv` is ["data", "run", "SampleSheet.csv"]. */
module Paths {
  import opened Ordering

  type Path = seq<string>

  /** `p.name`: the last component, empty for the empty path. */
  function Name(p: Path): string {
    if p == [] then "" else p[|p| - 1]
  }

  /** `p.parent`. */
  function Parent(p: Path): Path {
    if p == [] then [] else p[..|p| - 1]
  }

  /** `name.rfind('.')`. */
  function LastDot(name: string): (i: int)
    ensures -1 <= i < |name|
    ensures i >= 0 ==> name[i] == '.'
    ensures forall j :: i < j < |name| ==> name[j] != '.'
  {
    if name == [] then -1
    else if name[|name| - 1] == '.' then |name| - 1
    else LastDot(name[..|name| - 1])
  }

  /** `PurePath.suffix`: from the last dot on, unless that dot is the first or the last
      character of the name. */
  function Suffix(name: string): string {
    var i := LastDot(name);
    if 0 < i < |name| - 1 then name[i..] else ""
  }

  /** `PurePath.stem`: the name without its suffix. */
  function Stem(name: string): string {
    var i := LastDot(name);
    if 0 < i < |name| - 1 then name[..i] else name
  }

  /** The stem and the suffix make up the name. */
  lemma StemSuffix(name: string)
    ensures Stem(name) + Suffix(name) == name
  {
  }

  /** Only the last suffix is dropped: the stem of `base.ext` is `base`, dots in `base`
      included. */
  lemma StemOfDotted(base: string, ext: string)
    requires |base| >= 1 && |ext| >= 1 && '.' !in ext
    ensures Stem(base + "." + ext) == base
    ensures Suffix(base + "." + ext) == "." + ext
  {
    var name := base + "." + ext;
    assert name[|base|] == '.';
    assert forall j :: |base| < j < |name| ==> name[j] == ext[j - |base| - 1];
    assert LastDot(name) == |base|;
  }

  /** `p / c` for a single component `c`: the empty component and `.` add nothing. */
  function Child(p: Path, c: string): Path {
    if c == "" || c == "." then p else p + [c]
  }

  /** `p.with_suffix(suffix)`: the name's suffix is replaced. */
  function WithSuffix(p: Path, suffix: string): (r: Path)
    requires Name(p) != ""
    ensures Parent(r) == Parent(p)
    ensures Name(r) == Stem(Name(p)) + suffix
  {
    Parent(p) + [Stem(Name(p)) + suffix]
  }

  /** Python's `<` on paths: component by component. */
  predicate PathLess(a: Path, b: Path) {
    SeqLess(a, b, StrLess)
  }

  lemma PathLessStrictTotal()
    ensures StrictTotalOrder(PathLess)
  {
    StrLessStrictTotal();
    SeqLessStrictTotal(StrLess);
  }
}
