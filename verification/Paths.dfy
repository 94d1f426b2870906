/** Local path strings: the extension rule of the path library, and the names the
    rename policy tries one after another.  */
module Paths {
  type Path = string

  /** Where the extension of `p` begins, looking only at the first `i` characters:
      the last '.' after the last '/', or the end of `p` when there is none. */
  function ExtStart(p: Path, i: nat): (k: nat)
    requires i <= |p|
    requires forall j :: i <= j < |p| ==> p[j] != '/' && p[j] != '.'
    ensures k <= |p|
    ensures forall j :: k <= j < |p| ==> p[j] != '/'
    ensures forall j :: k < j < |p| ==> p[j] != '.'
    ensures k < |p| ==> p[k] == '.'
    ensures k == |p| ==> forall j :: 0 <= j < |p| && p[j] == '.' ==> exists m :: j < m < |p| && p[m] == '/'
  {
    if i == 0 || p[i - 1] == '/' then |p|
    else if p[i - 1] == '.' then i - 1
    else ExtStart(p, i - 1)
  }

  function Ext(p: Path): Path { p[ExtStart(p, |p|)..] }

  function Stem(p: Path): Path { p[..ExtStart(p, |p|)] }

  /** The directory part of `p`, up to and including its last '/'. */
  function Dir(p: Path): (dir: Path)
    ensures dir <= p
    ensures dir != "" ==> dir[|dir| - 1] == '/'
    ensures '/' !in p[|dir|..]
  {
    if p == "" then ""
    else if p[|p| - 1] == '/' then p
    else Dir(p[..|p| - 1])
  }

  /** The part of `p` after its last '/'. */
  function Base(p: Path): Path { p[|Dir(p)|..] }

  /** The remote and the local directory of a job, without a final '/'. */
  datatype Roots = Roots(remote: Path, local: Path)

  /** Where a file goes when its capture date is not used: the same place under the local
      root. The path is clean, as a walk from the remote root reports it. */
  function LocalPath(roots: Roots, p: Path): Path {
    var rel := if roots.remote <= p then p[|roots.remote|..] else p;
    roots.local + "/" + if rel != "" && rel[0] == '/' then rel[1..] else rel
  }

  /** Where a file goes when photos are sorted by year. */
  function YearPath(roots: Roots, p: Path, year: string): Path {
    roots.local + "/" + year + "/" + Base(p)
  }

  predicate Below(root: Path, p: Path) { root + "/" <= p }

  /** Different files below the remote root have different undated places. */
  lemma LocalPathInjective(roots: Roots, p: Path, q: Path)
    requires Below(roots.remote, p) && Below(roots.remote, q)
    requires LocalPath(roots, p) == LocalPath(roots, q)
    ensures p == q
  {
    var n := |roots.remote|;
    var head := roots.local + "/";
    assert p[n] == '/' == q[n] && roots.remote <= p && roots.remote <= q;
    assert LocalPath(roots, p) == head + p[n..][1..] && LocalPath(roots, q) == head + q[n..][1..];
    assert LocalPath(roots, p)[|head|..] == p[n..][1..] && LocalPath(roots, q)[|head|..] == q[n..][1..];
    assert p == p[..n] + [p[n]] + p[n..][1..] && q == q[..n] + [q[n]] + q[n..][1..];
  }

  function Digit(d: nat): char
    requires d < 10
  {
    "0123456789"[d]
  }

  function Decimal(n: nat): (s: string)
    ensures s != "" && (n >= 10 ==> |s| >= 2)
    ensures forall c :: c in s ==> c != '/' && c != '.'
  {
    if n < 10 then [Digit(n)] else Decimal(n / 10) + [Digit(n % 10)]
  }

  /** What the rename policy tries: the path as it is, and after that the path with a
      number, counted from two, put before its extension. */
  function Suffixed(desired: Path, attempt: int): Path
  {
    if attempt <= 1 then desired
    else Stem(desired) + ("-" + Decimal(attempt)) + Ext(desired)
  }

  lemma {:induction false} DecimalInjective(a: nat, b: nat)
    requires Decimal(a) == Decimal(b)
    ensures a == b
    decreases a
  {
    if a >= 10 && b >= 10 {
      var s, t := Decimal(a), Decimal(b);
      assert s[..|s| - 1] == Decimal(a / 10) && t[..|t| - 1] == Decimal(b / 10);
      assert s[|s| - 1] == Digit(a % 10) && t[|t| - 1] == Digit(b % 10);
      DecimalInjective(a / 10, b / 10);
    }
  }

  /** The number that digits stand for. */
  function Value(digits: string): int
    decreases |digits|
  {
    if digits == "" then 0
    else 10 * Value(digits[..|digits| - 1]) + (digits[|digits| - 1] as int - '0' as int)
  }

  lemma DigitValue(d: nat)
    requires d < 10
    ensures '0' <= Digit(d) <= '9' && Digit(d) as int - '0' as int == d
  {
  }

  lemma {:induction false} DecimalValue(n: nat)
    ensures Value(Decimal(n)) == n && forall c :: c in Decimal(n) ==> '0' <= c <= '9'
    decreases n
  {
    DigitValue(n % 10);
    if n < 10 {
      assert Decimal(n)[..0] == "";
    } else {
      DecimalValue(n / 10);
      assert Decimal(n)[..|Decimal(n)| - 1] == Decimal(n / 10);
    }
  }

  /** A candidate is the name that was asked for, a dash, the number of the attempt in
      digits, and the extension that was asked for. */
  lemma SuffixedShape(desired: Path, attempt: int)
    ensures attempt <= 1 ==> Suffixed(desired, attempt) == desired
    ensures attempt > 1 ==>
      var candidate, ext := Suffixed(desired, attempt), Ext(desired);
      var name := desired[..|desired| - |ext|];
      && desired == name + ext && |candidate| > |desired| + 1
      && var digits := candidate[|name| + 1..|candidate| - |ext|];
      && candidate == name + "-" + digits + ext
      && Value(digits) == attempt && (forall c :: c in digits ==> '0' <= c <= '9')
  {
    var name, ext := Stem(desired), Ext(desired);
    assert desired == name + ext;
    if attempt > 1 {
      var digits, candidate := Decimal(attempt), Suffixed(desired, attempt);
      DecimalValue(attempt);
      assert candidate == name + "-" + digits + ext;
      assert candidate[|name| + 1..|candidate| - |ext|] == digits;
    }
  }

  /** Two attempts never produce the same candidate. */
  lemma SuffixedInjective(desired: Path, a: int, b: int)
    requires 1 <= a && 1 <= b
    requires Suffixed(desired, a) == Suffixed(desired, b)
    ensures a == b
  {
    var stem, ext := Stem(desired), Ext(desired);
    assert stem + ext == desired;
    assert |Suffixed(desired, a)| == |desired| + if a > 1 then 1 + |Decimal(a)| else 0;
    if a > 1 && b > 1 {
      var s, t := Suffixed(desired, a), Suffixed(desired, b);
      assert s[|stem| + 1..|s| - |ext|] == Decimal(a);
      assert t[|stem| + 1..|t| - |ext|] == Decimal(b);
      DecimalInjective(a, b);
    }
  }

  lemma {:induction false} DirOfExtended(a: Path, b: Path)
    requires '/' !in b
    ensures Dir(a + b) == Dir(a)
    decreases |b|
  {
    if b == "" {
      assert a + b == a;
    } else {
      var last := |b| - 1;
      assert b[last] in b;
      assert (a + b)[..|a + b| - 1] == a + b[..last];
      DirOfExtended(a, b[..last]);
    }
  }

  /** Putting plain characters before an extension leaves it the extension. */
  lemma ExtensionMovesAlong(stem: Path, middle: Path, ext: Path)
    requires Ext(stem + ext) == ext != "" && Stem(stem + ext) == stem
    ensures Ext(stem + middle + ext) == ext
  {
    var desired, renamed := stem + ext, stem + middle + ext;
    var k, n := ExtStart(renamed, |renamed|), |stem + middle|;
    assert renamed[n..] == ext == desired[|stem|..];
    assert renamed[n] == ext[0] == desired[|stem|];
    forall j | n <= j < |renamed| ensures renamed[j] == desired[j - n + |stem|] {
      assert renamed[j] == ext[j - n];
    }
    assert k == n;
  }

  /** A name without an extension has none after plain characters are added. */
  lemma NoExtensionStaysNone(stem: Path, middle: Path)
    requires Ext(stem) == "" && '.' !in middle
    ensures Ext(stem + middle) == ""
  {
    var renamed := stem + middle;
    var k := ExtStart(renamed, |renamed|);
    forall dot | 0 <= dot < |stem| && stem[dot] == '.' ensures k != dot {
      var slash :| dot < slash < |stem| && stem[slash] == '/';
      assert renamed[slash] == '/';
    }
  }

  /** The base of a path is what follows its directory. */
  lemma BaseFollowsDir(dir: Path, base: Path)
    requires dir != "" && dir[|dir| - 1] == '/' && '/' !in base
    ensures Base(dir + base) == base
  {
    DirOfExtended(dir, base);
  }

  /** A path below the remote root keeps what comes after the root. */
  lemma LocalPathBelow(roots: Roots, rel: Path)
    ensures LocalPath(roots, roots.remote + "/" + rel) == roots.local + "/" + rel
  {
    var p := roots.remote + "/" + rel;
    assert p[|roots.remote|..] == "/" + rel;
  }

  /** A renamed photo keeps its extension. */
  lemma SuffixedKeepsExtension(desired: Path, attempt: int)
    ensures Ext(Suffixed(desired, attempt)) == Ext(desired)
  {
    var stem, ext := Stem(desired), Ext(desired);
    assert stem + ext == desired;
    if attempt > 1 {
      var middle := "-" + Decimal(attempt);
      assert Suffixed(desired, attempt) == stem + middle + ext;
      if ext == "" {
        assert stem == desired && stem + middle + ext == stem + middle;
        NoExtensionStaysNone(stem, middle);
      } else {
        ExtensionMovesAlong(stem, middle, ext);
      }
    }
  }

  /** A renamed photo stays in the directory that was asked for. */
  lemma SuffixedStaysInDirectory(desired: Path, attempt: int)
    ensures Dir(Suffixed(desired, attempt)) == Dir(desired)
  {
    var stem, ext := Stem(desired), Ext(desired);
    assert stem + ext == desired;
    DirOfExtended(stem, ext);
    if attempt > 1 {
      var middle := "-" + Decimal(attempt);
      assert Suffixed(desired, attempt) == stem + (middle + ext);
      DirOfExtended(stem, middle + ext);
    }
  }
}
