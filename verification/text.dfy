/**
 * String helpers shared by the whole model: JavaScript's character classes
 * (`\s`, line terminators, `\d`, `\w`), case mapping, prefix/suffix tests,
 * `indexOf`, `split`, `join` and `trim`. Strings are `seq<char>`; case
 * mapping is modelled for ASCII only.
 */
module Text {

  /**
   * JavaScript's `\s`, which is also the set `trim` removes: the ASCII blanks,
   * the Unicode space separators, the byte-order mark and the line terminators.
   */
  predicate IsSpace(c: char) {
    if c <= ' ' then c == ' ' || '\t' <= c <= '\r' else c >= '\U{00A0}' && IsWideSpace(c)
  }

  /** The non-ASCII members of `\s`. */
  predicate IsWideSpace(c: char) {
    c == '\U{00A0}' || c == '\U{1680}' || ('\U{2000}' <= c <= '\U{200A}')
    || c == '\U{2028}' || c == '\U{2029}' || c == '\U{202F}' || c == '\U{205F}'
    || c == '\U{3000}' || c == '\U{FEFF}'
  }

  /** The characters that `.` does not match and before which `$` matches in multiline mode. */
  predicate IsLineTerminator(c: char) {
    c == '\n' || c == '\r' || c == '\U{2028}' || c == '\U{2029}'
  }

  predicate IsDigit(c: char) { '0' <= c <= '9' }
  predicate IsUpper(c: char) { 'A' <= c <= 'Z' }
  predicate IsLower(c: char) { 'a' <= c <= 'z' }

  /** JavaScript's `\w` (without the `u` flag): `[A-Za-z0-9_]`. */
  predicate IsWordChar(c: char) { IsUpper(c) || IsLower(c) || IsDigit(c) || c == '_' }

  function LowerChar(c: char): (r: char)
    ensures IsUpper(c) ==> IsLower(r)
    ensures !IsUpper(c) ==> r == c
  {
    if IsUpper(c) then (c as int + 32) as char else c
  }

  function UpperChar(c: char): (r: char)
    ensures IsLower(c) ==> IsUpper(r)
    ensures !IsLower(c) ==> r == c
  {
    if IsLower(c) then (c as int - 32) as char else c
  }

  /** `toLowerCase` on ASCII: lengths and indices are kept. */
  function ToLower(s: string): (r: string)
    ensures |r| == |s|
    ensures forall i :: 0 <= i < |s| ==> r[i] == LowerChar(s[i])
  {
    seq(|s|, i requires 0 <= i < |s| => LowerChar(s[i]))
  }

  predicate StartsWith(s: string, p: string) {
    |p| <= |s| && s[..|p|] == p
  }

  predicate EndsWith(s: string, p: string) {
    |p| <= |s| && s[|s| - |p|..] == p
  }

  predicate OccursAt(s: string, t: string, k: int) {
    0 <= k && k + |t| <= |s| && s[k..k + |t|] == t
  }

  /** `s` contains `t` somewhere. */
  ghost predicate Contains(s: string, t: string) {
    exists i :: OccursAt(s, t, i)
  }

  lemma ContainsMiddle(a: string, b: string, c: string)
    ensures Contains(a + b + c, b)
  {
    assert (a + b + c)[|a|..|a| + |b|] == b;
    assert OccursAt(a + b + c, b, |a|);
  }

  lemma ContainsTransitive(s: string, t: string, u: string)
    requires Contains(s, t) && Contains(t, u)
    ensures Contains(s, u)
  {
    var i :| OccursAt(s, t, i);
    var j :| OccursAt(t, u, j);
    forall k | 0 <= k < |u| ensures s[i + j..i + j + |u|][k] == u[k] {
      assert s[i..i + |t|][j + k] == t[j + k];
      assert t[j..j + |u|][k] == u[k];
    }
    assert s[i + j..i + j + |u|] == u;
    assert OccursAt(s, u, i + j);
  }

  /** `s.indexOf(t, from)`: the first occurrence of `t` at or after `from`, or -1. */
  function IndexOfFrom(s: string, t: string, from: nat): (r: int)
    decreases |s| - from
    ensures r == -1 || (from <= r && OccursAt(s, t, r))
    ensures r == -1 ==> forall k :: from <= k ==> !OccursAt(s, t, k)
    ensures r != -1 ==> forall k :: from <= k < r ==> !OccursAt(s, t, k)
  {
    if from + |t| > |s| then -1
    else if s[from..from + |t|] == t then from
    else IndexOfFrom(s, t, from + 1)
  }

  function IndexOf(s: string, t: string): (r: int)
    ensures r == -1 || OccursAt(s, t, r)
    ensures r == -1 <==> forall k :: !OccursAt(s, t, k)
    ensures r != -1 ==> forall k :: 0 <= k < r ==> !OccursAt(s, t, k)
  {
    IndexOfFrom(s, t, 0)
  }

  /** Index of the first `c` in `s`, or -1. */
  function IndexOfChar(s: string, c: char): (r: int)
    ensures -1 <= r < |s|
    ensures r == -1 <==> c !in s
    ensures r != -1 ==> s[r] == c && c !in s[..r]
  {
    if |s| == 0 then -1
    else if s[0] == c then 0
    else var k := IndexOfChar(s[1..], c); if k == -1 then -1 else k + 1
  }

  /** The first `c` is at `k` when `s[k]` is `c` and no earlier character is. */
  lemma IndexOfCharAt(s: string, c: char, k: nat)
    requires k < |s| && s[k] == c && c !in s[..k]
    ensures IndexOfChar(s, c) == k
  {
    assert s[k] in s;
  }

  /** Index of the last `c` in `s`, or -1 (`lastIndexOf`). */
  function LastIndexOfChar(s: string, c: char): (r: int)
    ensures -1 <= r < |s|
    ensures r == -1 <==> c !in s
    ensures r != -1 ==> s[r] == c && c !in s[r + 1..]
  {
    if |s| == 0 then -1
    else if s[|s| - 1] == c then |s| - 1
    else
      var k := LastIndexOfChar(s[..|s| - 1], c);
      assert s[..|s| - 1] + [s[|s| - 1]] == s;
      if k == -1 then -1
      else assert s[k + 1..] == s[k + 1..|s| - 1] + [s[|s| - 1]]; k
  }

  lemma {:induction false} LastIndexOfCharAfter(x: string, c: char, y: string)
    requires c !in y
    ensures LastIndexOfChar(x + [c] + y, c) == |x|
    decreases |y|
  {
    var s := x + [c] + y;
    if |y| > 0 {
      assert y[|y| - 1] in y;
      assert s[..|s| - 1] == x + [c] + y[..|y| - 1];
      LastIndexOfCharAfter(x, c, y[..|y| - 1]);
    }
  }

  /** `s.split(sep)` for a one-character separator: never empty, pieces free of `sep`. */
  function Split(s: string, sep: char): (r: seq<string>)
    decreases |s|
    ensures |r| >= 1
    ensures forall i :: 0 <= i < |r| ==> sep !in r[i]
  {
    var k := IndexOfChar(s, sep);
    if k == -1 then [s] else [s[..k]] + Split(s[k + 1..], sep)
  }

  /** One step of `Split`: the piece before the first separator, then the split of the rest. */
  lemma SplitStep(s: string, sep: char)
    ensures IndexOfChar(s, sep) == -1 ==> Split(s, sep) == [s]
    ensures IndexOfChar(s, sep) != -1 ==>
      Split(s, sep) == [s[..IndexOfChar(s, sep)]] + Split(s[IndexOfChar(s, sep) + 1..], sep)
  {
  }

  /** Without a separator the split is the whole string. */
  lemma SplitWithout(s: string, sep: char)
    requires sep !in s
    ensures Split(s, sep) == [s]
  {
    assert IndexOfChar(s, sep) == -1;
  }

  /** The last element of a non-empty sequence (`xs[xs.length - 1]`). */
  function Last<X>(xs: seq<X>): X
    requires |xs| > 0
  {
    xs[|xs| - 1]
  }

  lemma LastOfCons<X>(x: X, t: seq<X>)
    requires |t| > 0
    ensures Last([x] + t) == Last(t)
  {
  }

  /** Dropping the last element of `a + b` drops it from `b`. */
  lemma InitOfAppend<X>(a: seq<X>, b: seq<X>)
    requires |b| > 0
    ensures (a + b)[..|a + b| - 1] == a + b[..|b| - 1]
    ensures (a + b)[|a + b| - 1] == b[|b| - 1]
  {
  }

  lemma DropCons<X>(x: X, t: seq<X>)
    ensures ([x] + t)[1..] == t
  {
  }

  /** Splitting at the first separator leaves the last piece to the rest of the string. */
  lemma LastPieceStep(s: string, sep: char)
    requires sep in s
    ensures Last(Split(s, sep)) == Last(Split(s[IndexOfChar(s, sep) + 1..], sep))
  {
    var k := IndexOfChar(s, sep);
    SplitStep(s, sep);
    LastOfCons(s[..k], Split(s[k + 1..], sep));
  }

  /** A string ending in the separator splits into pieces the last of which is empty. */
  lemma {:induction false} SplitEndsEmpty(s: string, sep: char)
    requires |s| > 0 && s[|s| - 1] == sep
    ensures Last(Split(s, sep)) == ""
    decreases |s|
  {
    assert sep in s;
    LastPieceStep(s, sep);
    var rest := s[IndexOfChar(s, sep) + 1..];
    if |rest| > 0 {
      assert rest[|rest| - 1] == s[|s| - 1];
      SplitEndsEmpty(rest, sep);
    } else {
      SplitStep(rest, sep);
    }
  }

  /** `parts.join(sep)`. */
  function Join(parts: seq<string>, sep: string): string {
    if |parts| == 0 then ""
    else if |parts| == 1 then parts[0]
    else parts[0] + sep + Join(parts[1..], sep)
  }

  lemma {:induction false} JoinSplit(s: string, sep: char)
    ensures Join(Split(s, sep), [sep]) == s
    decreases |s|
  {
    var k := IndexOfChar(s, sep);
    SplitStep(s, sep);
    if k != -1 {
      var rest := s[k + 1..];
      JoinSplit(rest, sep);
      JoinCons(s[..k], Split(rest, sep), [sep]);
      SliceAround(s, k);
    }
  }

  lemma Assoc<X>(a: seq<X>, b: seq<X>, c: seq<X>)
    ensures a + b + c == a + (b + c)
  {
  }

  lemma AppendOne<X>(a: seq<X>, x: X, b: seq<X>)
    ensures (a + [x]) + b == a + ([x] + b)
  {
  }

  /** A sequence is its prefix followed by the rest. */
  lemma SplitAt<X>(s: seq<X>, k: nat)
    requires k <= |s|
    ensures s == s[..k] + s[k..]
  {
  }

  lemma SliceAround<X>(s: seq<X>, k: int)
    requires 0 <= k < |s|
    ensures s == s[..k] + [s[k]] + s[k + 1..]
  {
  }

  /** `xs.map(f)`. */
  function Map<X, Y>(f: X -> Y, xs: seq<X>): (r: seq<Y>)
    ensures |r| == |xs|
    ensures forall i :: 0 <= i < |xs| ==> r[i] == f(xs[i])
  {
    seq(|xs|, i requires 0 <= i < |xs| => f(xs[i]))
  }

  lemma MapSnoc<X, Y>(f: X -> Y, xs: seq<X>, i: nat)
    requires i < |xs|
    ensures Map(f, xs[..i + 1]) == Map(f, xs[..i]) + [f(xs[i])]
  {
    var a := Map(f, xs[..i + 1]);
    var b := Map(f, xs[..i]) + [f(xs[i])];
    forall k | 0 <= k < |a| ensures a[k] == b[k] {
      assert xs[..i + 1][k] == xs[k];
      if k < i { assert xs[..i][k] == xs[k]; }
    }
  }

  /** The elements `f` gives for each of `xs` in turn, concatenated (`flatMap`). */
  function Concat<X, Y>(f: X -> seq<Y>, xs: seq<X>): seq<Y>
    decreases |xs|
  {
    if |xs| == 0 then [] else Concat(f, xs[..|xs| - 1]) + f(xs[|xs| - 1])
  }

  lemma ConcatStep<X, Y>(f: X -> seq<Y>, xs: seq<X>, i: nat)
    requires i < |xs|
    ensures Concat(f, xs[..i + 1]) == Concat(f, xs[..i]) + f(xs[i])
  {
    assert xs[..i + 1][..i] == xs[..i];
  }

  /** Whatever the concatenation holds, `f` gave for one of the elements. */
  lemma {:induction false} InConcat<X, Y>(f: X -> seq<Y>, xs: seq<X>, y: Y)
    requires y in Concat(f, xs)
    ensures exists i :: 0 <= i < |xs| && y in f(xs[i])
    decreases |xs|
  {
    var init := xs[..|xs| - 1];
    if y in Concat(f, init) {
      InConcat(f, init, y);
      var i :| 0 <= i < |init| && y in f(init[i]);
      assert init[i] == xs[i];
    }
  }

  /** Whatever `f` gives for an element, the concatenation holds. */
  lemma {:induction false} ConcatHolds<X, Y>(f: X -> seq<Y>, xs: seq<X>, i: nat, y: Y)
    requires i < |xs| && y in f(xs[i])
    ensures y in Concat(f, xs)
    decreases |xs|
  {
    var init := xs[..|xs| - 1];
    if i < |init| {
      assert init[i] == xs[i];
      ConcatHolds(f, init, i, y);
    }
  }

  lemma JoinCons(x: string, t: seq<string>, sep: string)
    requires |t| > 0
    ensures Join([x] + t, sep) == x + sep + Join(t, sep)
  {
    DropCons(x, t);
  }

  /** Joining all pieces but the first gives back what follows the first separator. */
  lemma JoinSplitTail(s: string, sep: char)
    requires sep in s
    ensures Join(Split(s, sep)[1..], [sep]) == s[IndexOfChar(s, sep) + 1..]
  {
    var rest := s[IndexOfChar(s, sep) + 1..];
    SplitStep(s, sep);
    DropCons(s[..IndexOfChar(s, sep)], Split(rest, sep));
    JoinSplit(rest, sep);
  }

  /** Joining two non-empty lists of parts: the separator goes between their joins. */
  lemma {:induction false} JoinAppend(a: seq<string>, b: seq<string>, sep: string)
    requires |a| > 0 && |b| > 0
    ensures Join(a + b, sep) == Join(a, sep) + sep + Join(b, sep)
    decreases |a|
  {
    if |a| == 1 {
      assert (a + b)[1..] == b;
    } else {
      assert (a + b)[1..] == a[1..] + b;
      JoinAppend(a[1..], b, sep);
    }
  }

  /** `trimStart()`: drop the leading whitespace run. */
  function TrimStart(s: string): (r: string)
    ensures |r| <= |s| && EndsWith(s, r)
    ensures r == [] || !IsSpace(r[0])
    ensures forall i :: 0 <= i < |s| - |r| ==> IsSpace(s[i])
  {
    if |s| > 0 && IsSpace(s[0]) then TrimStart(s[1..]) else s
  }

  /** `trimEnd()`: drop the trailing whitespace run. */
  function TrimEnd(s: string): (r: string)
    ensures |r| <= |s| && r == s[..|r|]
    ensures r == [] || !IsSpace(r[|r| - 1])
    ensures forall i :: |r| <= i < |s| ==> IsSpace(s[i])
  {
    if |s| > 0 && IsSpace(s[|s| - 1]) then TrimEnd(s[..|s| - 1]) else s
  }

  /** Every character is whitespace (vacuously so for the empty string). */
  predicate AllSpace(s: string) {
    forall k :: 0 <= k < |s| ==> IsSpace(s[k])
  }

  /** `trimEnd` of a concatenation: the second part decides unless it is all whitespace. */
  lemma {:induction false} TrimEndConcat(x: string, y: string)
    ensures TrimEnd(x + y) == if AllSpace(y) then TrimEnd(x) else x + TrimEnd(y)
    decreases |y|
  {
    if |y| == 0 {
      assert x + y == x;
    } else {
      var y' := y[..|y| - 1];
      InitOfAppend(x, y);
      if IsSpace(y[|y| - 1]) {
        TrimEndConcat(x, y');
        assert TrimEnd(x + y) == TrimEnd(x + y');
        assert TrimEnd(y) == TrimEnd(y');
        assert AllSpace(y) <==> AllSpace(y') by {
          assert forall k :: 0 <= k < |y'| ==> y'[k] == y[k];
        }
      } else {
        assert TrimEnd(x + y) == x + y;
        assert TrimEnd(y) == y;
        assert !AllSpace(y);
      }
    }
  }

  /** `trimEnd` keeps every character up to the last one that is not whitespace. */
  lemma TrimEndKeeps(s: string, i: nat)
    requires i < |s| && !IsSpace(s[i])
    ensures |TrimEnd(s)| > i
  {
  }

  /** `trim()`. */
  function Trim(s: string): (r: string)
    ensures |r| <= |s|
    ensures r == [] || (!IsSpace(r[0]) && !IsSpace(r[|r| - 1]))
  {
    TrimEnd(TrimStart(s))
  }

  /** A string with no whitespace at either end is its own trim. */
  lemma TrimFixed(t: string)
    requires t == [] || (!IsSpace(t[0]) && !IsSpace(t[|t| - 1]))
    ensures Trim(t) == t
  {
    assert TrimStart(t) == t;
    assert TrimEnd(t) == t;
  }

  /** Trimming twice is trimming once. */
  lemma TrimIdempotent(s: string)
    ensures Trim(Trim(s)) == Trim(s)
  {
    TrimFixed(Trim(s));
  }

  /** `s.replace(/x/g, y)` for single characters. */
  function ReplaceChar(s: string, x: char, y: char): (r: string)
    ensures |r| == |s|
    ensures forall i :: 0 <= i < |s| ==> r[i] == (if s[i] == x then y else s[i])
  {
    seq(|s|, i requires 0 <= i < |s| => if s[i] == x then y else s[i])
  }

  /** `s.replace(/\.(md|mdx)$/i, "")`: drop one Markdown extension, any letter case. */
  function StripMdExtension(s: string): (r: string)
    ensures r == s || (EndsWith(ToLower(s), ".md") && r == s[..|s| - 3])
                   || (EndsWith(ToLower(s), ".mdx") && r == s[..|s| - 4])
    ensures !EndsWith(ToLower(s), ".md") && !EndsWith(ToLower(s), ".mdx") ==> r == s
  {
    var low := ToLower(s);
    if EndsWith(low, ".md") then s[..|s| - 3]
    else if EndsWith(low, ".mdx") then s[..|s| - 4]
    else s
  }

  /** `s.replace(/^\/+/, "")`: drop every leading slash. */
  function DropLeadingSlashes(s: string): (r: string)
    ensures EndsWith(s, r) && (r == [] || r[0] != '/')
  {
    if |s| > 0 && s[0] == '/' then
      var r := DropLeadingSlashes(s[1..]);
      assert s[|s| - |r|..] == s[1..][|s| - 1 - |r|..];
      r
    else s
  }

  /** `s.replace(/\/+$/, "")`: drop every trailing slash. */
  function DropTrailingSlashes(s: string): (r: string)
    ensures StartsWith(s, r) && (r == [] || r[|r| - 1] != '/')
  {
    if |s| > 0 && s[|s| - 1] == '/' then DropTrailingSlashes(s[..|s| - 1]) else s
  }

  /** Dropping the leading and then the trailing slashes leaves no slash at either end. */
  lemma StripSlashesEnds(s: string)
    ensures var r := DropTrailingSlashes(DropLeadingSlashes(s));
      r == [] || (r[0] != '/' && r[|r| - 1] != '/')
  {
    var l := DropLeadingSlashes(s);
    var r := DropTrailingSlashes(l);
    if r != [] {
      assert l[..|r|] == r;
      assert r[0] == l[..|r|][0] == l[0];
    }
  }

  /** Length of the run of `c` starting at `p`. */
  function RunOf(s: string, p: nat, c: char): (n: nat)
    decreases |s| - p
    ensures p + n <= |s| || (p > |s| && n == 0)
    ensures forall k :: p <= k < p + n ==> s[k] == c
    ensures p + n < |s| ==> s[p + n] != c
  {
    if p < |s| && s[p] == c then 1 + RunOf(s, p + 1, c) else 0
  }

  /** Length of the run of whitespace starting at `p`. */
  function SpaceRun(s: string, p: nat): (n: nat)
    decreases |s| - p
    ensures p + n <= |s| || (p > |s| && n == 0)
    ensures forall k :: p <= k < p + n ==> IsSpace(s[k])
    ensures p + n < |s| ==> !IsSpace(s[p + n])
  {
    if p < |s| && IsSpace(s[p]) then 1 + SpaceRun(s, p + 1) else 0
  }

  /** Length of the run of characters other than line terminators starting at `p` (what `.+` can take). */
  function LineRunFrom(s: string, p: nat): (n: nat)
    decreases |s| - p
    ensures p + n <= |s| || (p > |s| && n == 0)
    ensures forall k :: p <= k < p + n ==> !IsLineTerminator(s[k])
    ensures p + n < |s| ==> IsLineTerminator(s[p + n])
  {
    if p < |s| && !IsLineTerminator(s[p]) then 1 + LineRunFrom(s, p + 1) else 0
  }
}
