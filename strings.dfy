/** The Python string operations the parsers rely on: `split`, `join`, `replace`, `strip`,
    reversal by `[::-1]`, `str(int)` and `int(str)`. Characters are compared by code point;
    whitespace and word characters are the ASCII ones. */
module Strings {
  import opened Wrappers

  /** Python's `str.isspace` (and regex `\s`) restricted to ASCII: tab, line feed, vertical
      tab, form feed, carriage return, the separators 0x1c to 0x1f, and space. */
  predicate IsSpace(c: char) {
    var n := c as int;
    (9 <= n <= 13) || (28 <= n <= 32)
  }

  /** Regex `\w` restricted to ASCII: letters, digits and underscore. */
  predicate IsWordChar(c: char) {
    ('a' <= c <= 'z') || ('A' <= c <= 'Z') || ('0' <= c <= '9') || c == '_'
  }

  predicate IsDigit(c: char) {
    '0' <= c <= '9'
  }

  /** `s.startswith(p)`. */
  predicate StartsWith(s: string, p: string) {
    |p| <= |s| && s[..|p|] == p
  }

  /** `pat` occurs in `s` starting at index `i`. */
  predicate OccursAt(s: string, pat: string, i: int) {
    0 <= i && i + |pat| <= |s| && s[i..i + |pat|] == pat
  }

  /** The number of occurrences of the character `c` in `s`. */
  function CountChar(s: string, c: char): nat {
    if s == [] then 0 else (if s[0] == c then 1 else 0) + CountChar(s[1..], c)
  }

  /** A character occurs nowhere exactly when it is counted zero times. */
  lemma {:induction false} CountCharZero(s: string, c: char)
    ensures CountChar(s, c) == 0 <==> c !in s
    decreases |s|
  {
    if s != [] {
      CountCharZero(s[1..], c);
      assert s == [s[0]] + s[1..];
    }
  }

  // ---------------------------------------------------------------------------------------
  // split and join

  /** `s.split(c)` for a one-character separator: the pieces between the occurrences of
      `c`, in order. */
  function Split(s: string, c: char): (parts: seq<string>)
    ensures |parts| >= 1
    ensures forall i :: 0 <= i < |parts| ==> c !in parts[i]
  {
    if s == [] then [""]
    else
      var rest := Split(s[1..], c);
      if s[0] == c then [""] + rest else [[s[0]] + rest[0]] + rest[1..]
  }

  /** `sep.join(parts)`. */
  function Join(sep: string, parts: seq<string>): string {
    if |parts| == 0 then ""
    else if |parts| == 1 then parts[0]
    else parts[0] + sep + Join(sep, parts[1..])
  }

  /** Splitting yields one piece more than there are separators. */
  lemma {:induction false} SplitCharCount(s: string, c: char)
    ensures |Split(s, c)| == CountChar(s, c) + 1
    decreases |s|
  {
    if s != [] {
      SplitCharCount(s[1..], c);
    }
  }

  /** A string without the separator is a single piece. */
  lemma {:induction false} SplitWithoutSeparator(s: string, c: char)
    requires c !in s
    ensures Split(s, c) == [s]
    decreases |s|
  {
    if s != [] {
      assert s[0] != c;
      SplitWithoutSeparator(s[1..], c);
      assert [s[0]] + s[1..] == s;
    }
  }

  /** One step of `Split`: the first character either starts a new piece or extends the
      first piece of the rest. */
  lemma SplitCons(x: char, t: string, c: char)
    ensures Split([x] + t, c) ==
      if x == c then [""] + Split(t, c) else [[x] + Split(t, c)[0]] + Split(t, c)[1..]
  {
    var s := [x] + t;
    assert s[0] == x && s[1..] == t;
  }

  /** The inductive step of `SplitCharAppend`, stated over a named tail `t`. */
  lemma SplitAppendStep(x: char, a: string, c: char, b: string, t: string)
    requires Split(t, c) == Split(a, c) + Split(b, c)
    ensures Split([x] + t, c) == Split([x] + a, c) + Split(b, c)
  {
    SplitCons(x, t, c);
    SplitCons(x, a, c);
    PiecesAppend([x], Split(a, c), Split(b, c));
  }

  /** Extending the first piece commutes with appending further pieces. */
  lemma PiecesAppend(p: string, ra: seq<string>, rb: seq<string>)
    requires |ra| >= 1
    ensures [p + (ra + rb)[0]] + (ra + rb)[1..] == ([p + ra[0]] + ra[1..]) + rb
    ensures [""] + (ra + rb) == ([""] + ra) + rb
  {
    assert (ra + rb)[0] == ra[0];
    assert (ra + rb)[1..] == ra[1..] + rb;
  }

  /** Splitting `a + c + b` at `c` splits `a` and `b` separately. */
  lemma {:induction false} SplitCharAppend(a: string, c: char, b: string)
    ensures Split(a + [c] + b, c) == Split(a, c) + Split(b, c)
    decreases |a|
  {
    if a == [] {
      SplitCons(c, b, c);
      assert a + [c] + b == [c] + b;
    } else {
      var t := a[1..] + [c] + b;
      SplitCharAppend(a[1..], c, b);
      SplitAppendStep(a[0], a[1..], c, b, t);
      assert a + [c] + b == [a[0]] + t;
      assert a == [a[0]] + a[1..];
    }
  }

  /** Joining pieces that do not contain `c` with `c`, then splitting at `c`, gives back the
      pieces. */
  lemma {:induction false} SplitJoinChar(parts: seq<string>, c: char)
    requires |parts| >= 1
    requires forall i :: 0 <= i < |parts| ==> c !in parts[i]
    ensures Split(Join([c], parts), c) == parts
    decreases |parts|
  {
    SplitWithoutSeparator(parts[0], c);
    if |parts| > 1 {
      SplitJoinChar(parts[1..], c);
      SplitCharAppend(parts[0], c, Join([c], parts[1..]));
    }
  }

  /** Splitting, then joining with the separator, gives back the string. */
  lemma {:induction false} JoinOfSplit(s: string, c: char)
    ensures Join([c], Split(s, c)) == s
    decreases |s|
  {
    if s != [] {
      JoinOfSplit(s[1..], c);
      var rest := Split(s[1..], c);
      if s[0] == c {
        assert Join([c], [""] + rest) == "" + [c] + Join([c], rest);
      } else if |rest| > 1 {
        assert ([[s[0]] + rest[0]] + rest[1..])[1..] == rest[1..];
        assert Join([c], rest) == rest[0] + [c] + Join([c], rest[1..]);
      }
      assert [s[0]] + s[1..] == s;
    }
  }

  /** `str(o)` and `'{}'.format(o)` for an optional string: `None` prints as `None`. */
  function Show(o: Option<string>): string {
    match o
    case None => "None"
    case Some(s) => s
  }

  // ---------------------------------------------------------------------------------------
  // replace

  /** `s.replace(pat, rep)`: every non-overlapping occurrence of `pat`, found left to right,
      becomes `rep`; an empty `pat` inserts `rep` before every character and at the end. */
  function ReplaceAll(s: string, pat: string, rep: string): string
    decreases |s|
  {
    if |pat| == 0 then
      (if s == [] then rep else rep + [s[0]] + ReplaceAll(s[1..], pat, rep))
    else if |s| < |pat| then s
    else if s[..|pat|] == pat then rep + ReplaceAll(s[|pat|..], pat, rep)
    else [s[0]] + ReplaceAll(s[1..], pat, rep)
  }

  /** The reference definition of `replace` for a one-character pattern:
      `rep.join(s.split(c))`. */
  lemma {:induction false} ReplaceAllIsJoinOfSplit(s: string, c: char, rep: string)
    ensures ReplaceAll(s, [c], rep) == Join(rep, Split(s, c))
    decreases |s|
  {
    if s != [] {
      ReplaceAllIsJoinOfSplit(s[1..], c, rep);
      var rest := Split(s[1..], c);
      SplitCons(s[0], s[1..], c);
      assert [s[0]] + s[1..] == s;
      if s[0] == c {
        assert s[..1] == [c];
        assert Join(rep, [""] + rest) == "" + rep + Join(rep, rest);
      } else {
        assert s[..1] != [c];
        if |rest| > 1 {
          assert Join(rep, rest) == rest[0] + rep + Join(rep, rest[1..]);
          assert ([[s[0]] + rest[0]] + rest[1..])[1..] == rest[1..];
        }
      }
    }
  }

  /** Replacing a string that does not occur changes nothing. */
  lemma {:induction false} ReplaceAbsent(s: string, pat: string, rep: string)
    requires |pat| > 0
    requires forall i :: !OccursAt(s, pat, i)
    ensures ReplaceAll(s, pat, rep) == s
    decreases |s|
  {
    if |s| >= |pat| {
      assert !OccursAt(s, pat, 0);
      forall i ensures !OccursAt(s[1..], pat, i) {
        if 0 <= i && i + |pat| <= |s| - 1 {
          assert s[1..][i..i + |pat|] == s[i + 1..i + 1 + |pat|];
          assert !OccursAt(s, pat, i + 1);
        }
      }
      ReplaceAbsent(s[1..], pat, rep);
    }
  }

  /** Replacing a string by itself changes nothing; hence joining the pieces of a split with
      the separator gives back the string. */
  lemma {:induction false} ReplaceBySelf(s: string, pat: string)
    ensures ReplaceAll(s, pat, pat) == s
    decreases |s|
  {
    if |pat| == 0 {
      if s != [] {
        ReplaceBySelf(s[1..], pat);
      }
    } else if |s| >= |pat| {
      if s[..|pat|] == pat {
        ReplaceBySelf(s[|pat|..], pat);
      } else {
        ReplaceBySelf(s[1..], pat);
      }
    }
  }

  /** A first character at which `pat` does not occur is kept, and the rest is replaced. */
  lemma ReplaceSkip(s: string, pat: string, rep: string)
    requires |pat| > 0 && |s| > 0 && !OccursAt(s, pat, 0)
    ensures ReplaceAll(s, pat, rep) == [s[0]] + ReplaceAll(s[1..], pat, rep)
  {
    if |s| < |pat| {
      assert ReplaceAll(s[1..], pat, rep) == s[1..];
    }
  }

  /** A prefix in which no occurrence of `pat` starts is kept as it is. */
  lemma {:induction false} ReplaceKeepsPrefix(a: string, b: string, pat: string, rep: string)
    requires |pat| > 0
    requires forall i :: 0 <= i < |a| ==> !OccursAt(a + b, pat, i)
    ensures ReplaceAll(a + b, pat, rep) == a + ReplaceAll(b, pat, rep)
    decreases |a|
  {
    if a == [] {
      assert a + b == b;
    } else {
      var s := a + b;
      var t := a[1..] + b;
      assert s[1..] == t;
      forall i | 0 <= i < |a| - 1 ensures !OccursAt(t, pat, i) {
        assert !OccursAt(s, pat, i + 1);
        if i + |pat| <= |t| {
          assert t[i..i + |pat|] == s[i + 1..i + 1 + |pat|];
        }
      }
      ReplaceKeepsPrefix(a[1..], b, pat, rep);
      ReplaceSkip(s, pat, rep);
      assert [a[0]] + (a[1..] + ReplaceAll(b, pat, rep)) == a + ReplaceAll(b, pat, rep);
    }
  }

  /** The characters of `s` other than `c`, in order. */
  function RemoveChar(s: string, c: char): (r: string)
    ensures c !in r
    ensures |r| == |s| - CountChar(s, c)
  {
    if s == [] then [] else (if s[0] == c then [] else [s[0]]) + RemoveChar(s[1..], c)
  }

  /** `s.replace(c, '')` deletes every occurrence of the character `c` and nothing else. */
  lemma {:induction false} ReplaceCharByEmpty(s: string, c: char)
    ensures ReplaceAll(s, [c], "") == RemoveChar(s, c)
    decreases |s|
  {
    if s != [] {
      ReplaceCharByEmpty(s[1..], c);
      if s[0] == c {
        assert s[..1] == [c];
        assert s[1..] == s[|[c]|..];
      } else {
        assert s[..1] != [c];
      }
    }
  }

  /** Removing a character that does not occur changes nothing. */
  lemma {:induction false} RemoveCharAbsent(s: string, c: char)
    requires c !in s
    ensures RemoveChar(s, c) == s
    decreases |s|
  {
    if s != [] {
      RemoveCharAbsent(s[1..], c);
    }
  }

  /** Removing one character keeps the others that occur. */
  lemma {:induction false} RemoveCharKeeps(s: string, c: char, d: char)
    requires d in RemoveChar(s, c)
    ensures d in s
    decreases |s|
  {
    if s != [] && !(s[0] == d) {
      assert d in RemoveChar(s[1..], c);
      RemoveCharKeeps(s[1..], c, d);
    }
  }

  lemma {:induction false} RemoveCharAppend(a: string, b: string, c: char)
    ensures RemoveChar(a + b, c) == RemoveChar(a, c) + RemoveChar(b, c)
    decreases |a|
  {
    if a == [] {
      assert a + b == b;
    } else {
      var head := if a[0] == c then [] else [a[0]];
      assert (a + b)[0] == a[0];
      assert (a + b)[1..] == a[1..] + b;
      RemoveCharAppend(a[1..], b, c);
      calc {
        RemoveChar(a + b, c);
        head + RemoveChar(a[1..] + b, c);
        head + (RemoveChar(a[1..], c) + RemoveChar(b, c));
        (head + RemoveChar(a[1..], c)) + RemoveChar(b, c);
      }
    }
  }

  // ---------------------------------------------------------------------------------------
  // strip and reverse

  function StripLeft(s: string): (r: string)
    ensures |r| <= |s| && r == s[|s| - |r|..]
    ensures forall k :: 0 <= k < |s| - |r| ==> IsSpace(s[k])
    ensures r == [] || !IsSpace(r[0])
    ensures s == [] || !IsSpace(s[0]) ==> r == s
  {
    if s != [] && IsSpace(s[0]) then
      var r := StripLeft(s[1..]);
      assert forall k :: 1 <= k < |s| - |r| ==> s[k] == s[1..][k - 1];
      r
    else s
  }

  function StripRight(s: string): (r: string)
    ensures |r| <= |s| && r == s[..|r|]
    ensures forall k :: |r| <= k < |s| ==> IsSpace(s[k])
    ensures r == [] || !IsSpace(r[|r| - 1])
    ensures s == [] || !IsSpace(s[|s| - 1]) ==> r == s
  {
    if s != [] && IsSpace(s[|s| - 1]) then
      var r := StripRight(s[..|s| - 1]);
      assert forall k :: |r| <= k < |s| - 1 ==> s[k] == s[..|s| - 1][k];
      r
    else s
  }

  /** A suffix `t` of `s` after leading whitespace, then a prefix `u` of `t` before trailing
      whitespace, is an infix of `s` with whitespace on either side; when neither cut stops at
      whitespace, `u` neither starts nor ends with it. */
  lemma TrimmedInfix(s: string, t: string, u: string)
    requires |t| <= |s| && t == s[|s| - |t|..] && forall k :: 0 <= k < |s| - |t| ==> IsSpace(s[k])
    requires t == [] || !IsSpace(t[0])
    requires s == [] || !IsSpace(s[0]) ==> t == s
    requires |u| <= |t| && u == t[..|u|] && forall k :: |u| <= k < |t| ==> IsSpace(t[k])
    requires u == [] || !IsSpace(u[|u| - 1])
    requires t == [] || !IsSpace(t[|t| - 1]) ==> u == t
    ensures exists i, j ::
              0 <= i <= j <= |s| && u == s[i..j] &&
              (forall k :: 0 <= k < i ==> IsSpace(s[k])) &&
              (forall k :: j <= k < |s| ==> IsSpace(s[k]))
    ensures u == [] || (!IsSpace(u[0]) && !IsSpace(u[|u| - 1]))
    ensures (s == [] || (!IsSpace(s[0]) && !IsSpace(s[|s| - 1]))) ==> u == s
  {
    var i := |s| - |t|;
    var j := i + |u|;
    assert u == s[i..j];
    forall k | j <= k < |s| ensures IsSpace(s[k]) {
      assert s[k] == t[k - i];
    }
    if u != [] {
      assert u[0] == t[0];
    }
    if t != [] && s != [] {
      assert t[|t| - 1] == s[|s| - 1];
    }
  }

  /** `s.strip()`: the result is `s` with a run of whitespace removed from each end; it neither
      starts nor ends with whitespace, and a string that does not start or end with whitespace
      is left as it is. */
  function Strip(s: string): (r: string)
    ensures |r| <= |s|
    ensures exists i, j ::
              0 <= i <= j <= |s| && r == s[i..j] &&
              (forall k :: 0 <= k < i ==> IsSpace(s[k])) &&
              (forall k :: j <= k < |s| ==> IsSpace(s[k]))
    ensures r == [] || (!IsSpace(r[0]) && !IsSpace(r[|r| - 1]))
    ensures (s == [] || (!IsSpace(s[0]) && !IsSpace(s[|s| - 1]))) ==> r == s
  {
    TrimmedInfix(s, StripLeft(s), StripRight(StripLeft(s)));
    StripRight(StripLeft(s))
  }

  /** `s[::-1]`. */
  function Reverse<T>(s: seq<T>): (r: seq<T>)
    ensures |r| == |s|
    ensures forall i :: 0 <= i < |s| ==> r[i] == s[|s| - 1 - i]
  {
    if s == [] then [] else Reverse(s[1..]) + [s[0]]
  }

  // ---------------------------------------------------------------------------------------
  // integers

  function DigitChar(d: nat): (c: char)
    requires d < 10
    ensures IsDigit(c) && c as int - '0' as int == d
  {
    ('0' as int + d) as char
  }

  predicate AllDigits(s: string) {
    forall i :: 0 <= i < |s| ==> IsDigit(s[i])
  }

  /** The value of a string of decimal digits. */
  function DigitsValue(s: string): nat
    requires AllDigits(s)
  {
    if s == [] then 0
    else DigitsValue(s[..|s| - 1]) * 10 + (s[|s| - 1] as int - '0' as int)
  }

  /** `str(n)` for a natural number: its decimal digits, without leading zeros. */
  function NatToString(n: nat): (r: string)
    ensures |r| >= 1 && AllDigits(r)
    ensures n > 0 ==> r[0] != '0'
  {
    if n < 10 then [DigitChar(n)] else NatToString(n / 10) + [DigitChar(n % 10)]
  }

  /** `str(n)`. */
  function IntToString(n: int): string {
    if n < 0 then "-" + NatToString(-n) else NatToString(n)
  }

  /** Python's `int(s)` for base ten: surrounding whitespace is ignored, then an optional sign
      and at least one digit; anything else is a ValueError (None here). */
  function ParseInt(s: string): Option<int> {
    ParseSigned(Strip(s))
  }

  /** An optional sign followed by digits. */
  function ParseSigned(t: string): Option<int> {
    if |t| >= 1 && (t[0] == '-' || t[0] == '+') then
      match ParseDigitString(t[1..])
      case None => None
      case Some(d) => Some(if t[0] == '-' then 0 - d else d)
    else ParseDigitString(t)
  }

  /** At least one digit, and nothing else. */
  function ParseDigitString(t: string): Option<nat> {
    if |t| >= 1 && AllDigits(t) then Some(DigitsValue(t)) else None
  }

  lemma {:induction false} DigitsOfNat(n: nat)
    ensures DigitsValue(NatToString(n)) == n
    decreases n
  {
    if n >= 10 {
      DigitsOfNat(n / 10);
      var r := NatToString(n);
      assert r[..|r| - 1] == NatToString(n / 10);
    }
  }

  /** A string of digits parses to its value. */
  lemma ParseDigits(d: string)
    requires |d| >= 1 && AllDigits(d)
    ensures ParseInt(d) == Some(DigitsValue(d) as int)
  {
    assert !IsSpace(d[0]) && !IsSpace(d[|d| - 1]) by {
      assert IsDigit(d[0]) && IsDigit(d[|d| - 1]);
    }
    assert ParseInt(d) == ParseSigned(d);
  }

  lemma StripSigned(d: string)
    requires |d| >= 1 && IsDigit(d[|d| - 1])
    ensures Strip("-" + d) == "-" + d
  {
    var s := "-" + d;
    assert s[|s| - 1] == d[|d| - 1];
  }

  lemma SignedDigits(d: string)
    requires |d| >= 1 && AllDigits(d)
    ensures ParseSigned("-" + d) == Some(0 - DigitsValue(d))
  {
    var s := "-" + d;
    assert s[0] == '-' && s[1..] == d;
    var x: int := DigitsValue(d);
    assert ParseDigitString(s[1..]) == Some(x);
  }

  /** A minus sign followed by a rendered number parses to its negation. */
  lemma SignedRoundTrip(m: nat)
    ensures ParseSigned("-" + NatToString(m)) == Some(0 - m)
  {
    DigitsOfNat(m);
    SignedDigits(NatToString(m));
  }

  /** A rendered natural number parses back to itself. */
  lemma NatRoundTrip(m: nat)
    ensures ParseInt(NatToString(m)) == Some(m as int)
  {
    var d := NatToString(m);
    DigitsOfNat(m);
    ParseDigits(d);
  }

  /** `int(str(n)) == n`: the decimal rendering of a number parses back to it. */
  lemma IntRoundTrip(n: int)
    ensures ParseInt(IntToString(n)) == Some(n)
  {
    if n < 0 {
      var m: nat := -n;
      var d := NatToString(m);
      assert IntToString(n) == "-" + d;
      StripSigned(d);
      SignedRoundTrip(m);
    } else {
      NatRoundTrip(n);
    }
  }
}
