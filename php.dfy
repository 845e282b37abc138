/** The PHP built-ins the core relies on, written out: `str_replace` with a single search
    string, `str_word_count` in its counting form, `basename`, `empty` on strings and
    `shuffle` driven by explicit random picks. */
module Php {

  // ---------------------------------------------------------------------------------------
  // str_replace

  /** `p` occurs in `s` starting at position `j`. */
  predicate At(s: string, p: string, j: int)
  {
    0 <= j && j + |p| <= |s| && s[j..j + |p|] == p
  }

  predicate Contains(s: string, p: string)
  {
    exists j | 0 <= j <= |s| :: At(s, p, j)
  }

  lemma AtTail(s: string, p: string, j: int)
    requires |s| > 0 && j >= 0
    ensures At(s[1..], p, j) <==> At(s, p, j + 1)
  {
    if 0 <= j && j + |p| <= |s| - 1 {
      assert s[1..][j..j + |p|] == s[j + 1..j + 1 + |p|];
    }
  }

  /** An occurrence starts with the first character of what occurs. */
  lemma AtHead(s: string, p: string, j: int)
    requires At(s, p, j) && |p| > 0
    ensures s[j] == p[0]
  {
    assert s[j..j + |p|][0] == s[j];
  }

  /** `s` begins with `p`, compared character by character. */
  predicate StartsWith(s: string, p: string)
    decreases |p|
  {
    |p| == 0 || (|s| > 0 && s[0] == p[0] && StartsWith(s[1..], p[1..]))
  }

  lemma {:induction false} StartsWithAt(s: string, p: string)
    ensures StartsWith(s, p) <==> At(s, p, 0)
    decreases |p|
  {
    if |p| > 0 && |s| > 0 {
      StartsWithAt(s[1..], p[1..]);
      if |p| <= |s| {
        assert s[..|p|] == [s[0]] + s[1..][..|p| - 1];
        assert p == [p[0]] + p[1..];
      }
    }
  }

  /** The position of the leftmost occurrence of `p` in `s`, or `|s|` when there is none. */
  function IndexOf(s: string, p: string): (k: nat)
    requires |p| > 0
    ensures k <= |s| && (k < |s| ==> k + |p| <= |s|)
    decreases |s|
  {
    if |s| < |p| then |s|
    else if StartsWith(s, p) then 0
    else 1 + IndexOf(s[1..], p)
  }

  /** `IndexOf` finds an occurrence, no earlier one exists, and it finds none exactly when
      `p` does not occur. */
  lemma {:induction false} IndexOfSpec(s: string, p: string)
    requires |p| > 0
    ensures var k := IndexOf(s, p);
      && (k < |s| ==> At(s, p, k))
      && (forall j :: 0 <= j < k ==> !At(s, p, j))
      && (k == |s| <==> !Contains(s, p))
    decreases |s|
  {
    StartsWithAt(s, p);
    if |s| >= |p| && !At(s, p, 0) {
      IndexOfSpec(s[1..], p);
      var k' := IndexOf(s[1..], p);
      forall j | 0 <= j < 1 + k' ensures !At(s, p, j) {
        if j > 0 { AtTail(s, p, j - 1); }
      }
      AtTail(s, p, k');
    }
  }

  /** `str_replace(search, replace, s)` for one search string: the scan goes left to right,
      an occurrence is replaced and the scan resumes after it, so replaced occurrences
      never overlap; an empty search string leaves `s` as it is. */
  function Replace(s: string, search: string, replace: string): string
    decreases |s|
  {
    if |search| == 0 || |s| < |search| then s
    else if StartsWith(s, search) then replace + Replace(s[|search|..], search, replace)
    else [s[0]] + Replace(s[1..], search, replace)
  }

  /** The number of occurrences `Replace` replaces (PHP's `substr_count`). */
  function Count(s: string, search: string): nat
    decreases |s|
  {
    if |search| == 0 || |s| < |search| then 0
    else if StartsWith(s, search) then 1 + Count(s[|search|..], search)
    else Count(s[1..], search)
  }

  /** The scan replaces the leftmost occurrence first and goes on after it. */
  lemma ReplaceFirst(s: string, search: string, replace: string)
    requires |search| > 0
    ensures IndexOf(s, search) == |s| ==> Replace(s, search, replace) == s
    ensures var k := IndexOf(s, search);
      k < |s| ==> Replace(s, search, replace) == s[..k] + replace + Replace(s[k + |search|..], search, replace)
  {
    if IndexOf(s, search) == |s| {
      ReplaceNone(s, search, replace);
    } else {
      ReplaceLeftmost(s, search, replace);
    }
  }

  /** Without an occurrence the scan copies the string. */
  lemma {:induction false} ReplaceNone(s: string, search: string, replace: string)
    requires |search| > 0 && IndexOf(s, search) == |s|
    ensures Replace(s, search, replace) == s
    decreases |s|
  {
    if |s| >= |search| {
      ReplaceCons(s, search, replace);
      ReplaceNone(s[1..], search, replace);
      assert [s[0]] + s[1..] == s;
    }
  }

  /** With an occurrence the scan copies what precedes the leftmost one, replaces it and
      goes on after it. */
  lemma {:induction false} ReplaceLeftmost(s: string, search: string, replace: string)
    requires |search| > 0 && IndexOf(s, search) < |s|
    ensures var k := IndexOf(s, search);
      Replace(s, search, replace) == s[..k] + replace + Replace(s[k + |search|..], search, replace)
    decreases |s|
  {
    if StartsWith(s, search) {
      assert IndexOf(s, search) == 0;
      assert s[..0] + replace == replace;
    } else {
      ReplaceCons(s, search, replace);
      ReplaceLeftmost(s[1..], search, replace);
      ShiftOccurrence(s, search, replace, IndexOf(s[1..], search));
    }
  }

  /** Without an occurrence at the front, the scan keeps the first character and the
      leftmost occurrence moves one place. */
  lemma ReplaceCons(s: string, search: string, replace: string)
    requires |search| > 0 && |s| >= |search| && !StartsWith(s, search)
    ensures IndexOf(s, search) == IndexOf(s[1..], search) + 1
    ensures Replace(s, search, replace) == [s[0]] + Replace(s[1..], search, replace)
  {
  }

  lemma ShiftOccurrence(s: string, search: string, replace: string, k': nat)
    requires |search| > 0 && |s| >= |search| && k' < |s| - 1 && k' + |search| <= |s| - 1
    requires Replace(s, search, replace) == [s[0]] + Replace(s[1..], search, replace)
    requires Replace(s[1..], search, replace) ==
      s[1..][..k'] + replace + Replace(s[1..][k' + |search|..], search, replace)
    ensures Replace(s, search, replace) == s[..k' + 1] + replace + Replace(s[k' + 1 + |search|..], search, replace)
  {
    DropDrop(s, k' + |search|);
    ConsSplit(s, k', replace, Replace(s[k' + 1 + |search|..], search, replace));
  }

  lemma DropDrop<T>(s: seq<T>, n: nat)
    requires 0 < |s| && n <= |s| - 1
    ensures s[1..][n..] == s[n + 1..]
  {
  }

  /** Putting the first element back in front of a split of the tail. */
  lemma ConsSplit<T>(s: seq<T>, k: nat, b: seq<T>, c: seq<T>)
    requires k < |s|
    ensures [s[0]] + (s[1..][..k] + b + c) == s[..k + 1] + b + c
  {
    assert [s[0]] + s[1..][..k] == s[..k + 1];
  }

  /** Counting the same way: the leftmost occurrence, then the ones after it. */
  lemma {:induction false} CountFirst(s: string, search: string)
    requires |search| > 0
    ensures IndexOf(s, search) == |s| ==> Count(s, search) == 0
    ensures var k := IndexOf(s, search);
      k < |s| ==> Count(s, search) == 1 + Count(s[k + |search|..], search)
    decreases |s|
  {
    if |s| >= |search| && !StartsWith(s, search) {
      var t := s[1..];
      CountFirst(t, search);
      var k' := IndexOf(t, search);
      assert IndexOf(s, search) == k' + 1;
      if k' < |t| {
        assert t[k' + |search|..] == s[k' + 1 + |search|..];
      }
    }
  }

  /** A string in which `search` does not occur is left unchanged. */
  lemma ReplaceAbsent(s: string, search: string, replace: string)
    requires !Contains(s, search)
    ensures Replace(s, search, replace) == s
    ensures Count(s, search) == 0
  {
    if |search| > 0 {
      IndexOfSpec(s, search);
      ReplaceFirst(s, search, replace);
      CountFirst(s, search);
    }
  }

  /** Each replacement changes the length by `|replace| - |search|`. */
  lemma ReplaceLength(s: string, search: string, replace: string)
    ensures |Replace(s, search, replace)| == |s| + Count(s, search) * (|replace| - |search|)
  {
    ReplaceGrowth(s, search, replace);
    TimesMul(Count(s, search), |replace| - |search|);
  }

  /** `c` copies of `d` added up. */
  function Times(c: nat, d: int): int
  {
    if c == 0 then 0 else d + Times(c - 1, d)
  }

  lemma {:induction false} TimesMul(c: nat, d: int)
    ensures Times(c, d) == c * d
  {
    if c > 0 {
      TimesMul(c - 1, d);
    }
  }

  lemma {:induction false} ReplaceGrowth(s: string, search: string, replace: string)
    ensures |Replace(s, search, replace)| == |s| + Times(Count(s, search), |replace| - |search|)
    decreases |s|
  {
    if |search| > 0 && |s| >= |search| {
      if StartsWith(s, search) {
        ReplaceGrowth(s[|search|..], search, replace);
      } else {
        ReplaceGrowth(s[1..], search, replace);
      }
    }
  }

  // ---------------------------------------------------------------------------------------
  // str_word_count($s), counting form, in the default C locale

  /** The characters `str_word_count` takes into a word: ASCII letters, `'` and `-`. */
  predicate WordChar(c: char)
  {
    ('A' <= c <= 'Z') || ('a' <= c <= 'z') || c == '\'' || c == '-'
  }

  /** The number of maximal runs of word characters in `t`; `inWord` says whether the
      character before `t` was a word character. */
  function Runs(t: string, inWord: bool): nat
    decreases |t|
  {
    if t == [] then 0
    else if WordChar(t[0]) then (if inWord then 0 else 1) + Runs(t[1..], true)
    else Runs(t[1..], false)
  }

  /** `str_word_count(s)`: a leading `'` or `-` and a trailing `-` of the whole string are
      not taken into words; the rest is split into maximal runs of word characters. */
  function StrWordCount(s: string): (n: nat)
    ensures n <= |s|
  {
    if |s| == 0 then 0
    else
      var p := if s[0] == '\'' || s[0] == '-' then 1 else 0;
      var e := if s[|s| - 1] == '-' then |s| - 1 else |s|;
      if p >= e then 0 else RunsBound(s[p..e], false); Runs(s[p..e], false)
  }

  lemma {:induction false} RunsBound(t: string, inWord: bool)
    ensures Runs(t, inWord) <= |t|
    decreases |t|
  {
    if t != [] { RunsBound(t[1..], WordChar(t[0])); }
  }

  /** A character outside words separates: the words on its two sides are counted apart. */
  lemma {:induction false} RunsSeparated(a: string, c: char, b: string, inWord: bool)
    requires !WordChar(c)
    ensures Runs(a + [c] + b, inWord) == Runs(a, inWord) + Runs(b, false)
    decreases |a|
  {
    if a == [] {
      assert a + [c] + b == [c] + b;
      assert ([c] + b)[1..] == b;
    } else {
      assert (a + [c] + b)[1..] == a[1..] + [c] + b;
      RunsSeparated(a[1..], c, b, WordChar(a[0]));
    }
  }

  /** A string without word characters holds no word. */
  lemma {:induction false} RunsNone(t: string, inWord: bool)
    requires forall i :: 0 <= i < |t| ==> !WordChar(t[i])
    ensures Runs(t, inWord) == 0
    decreases |t|
  {
    if t != [] { RunsNone(t[1..], false); }
  }

  /** A non-empty run of word characters is one word. */
  lemma {:induction false} RunsOne(t: string, inWord: bool)
    requires forall i :: 0 <= i < |t| ==> WordChar(t[i])
    ensures Runs(t, inWord) == if t == [] || inWord then 0 else 1
    decreases |t|
  {
    if t != [] { RunsOne(t[1..], true); }
  }

  // ---------------------------------------------------------------------------------------
  // basename($path) on a POSIX system, without the suffix argument

  function StripTrailingSlashes(s: string): string
    decreases |s|
  {
    if |s| > 0 && s[|s| - 1] == '/' then StripTrailingSlashes(s[..|s| - 1]) else s
  }

  /** Only slashes are dropped, from the end, and the result does not end in one. */
  lemma {:induction false} StripTrailingSlashesSpec(s: string)
    ensures var r := StripTrailingSlashes(s);
      && |r| <= |s| && r == s[..|r|]
      && (r == [] || r[|r| - 1] != '/')
      && forall i :: |r| <= i < |s| ==> s[i] == '/'
    decreases |s|
  {
    if |s| > 0 && s[|s| - 1] == '/' {
      var t := s[..|s| - 1];
      StripTrailingSlashesSpec(t);
      var r := StripTrailingSlashes(t);
      assert s[..|r|] == t[..|r|];
    }
  }

  function AfterLastSlash(s: string): string
    decreases |s|
  {
    if |s| == 0 || s[|s| - 1] == '/' then []
    else AfterLastSlash(s[..|s| - 1]) + [s[|s| - 1]]
  }

  /** The slash-free end of `s`, preceded by a slash unless it is all of `s`. */
  lemma {:induction false} AfterLastSlashSpec(s: string)
    ensures var r := AfterLastSlash(s);
      && '/' !in r
      && |r| <= |s| && r == s[|s| - |r|..]
      && (|r| < |s| ==> s[|s| - |r| - 1] == '/')
    decreases |s|
  {
    if |s| > 0 && s[|s| - 1] != '/' {
      var t := s[..|s| - 1];
      AfterLastSlashSpec(t);
      var r := AfterLastSlash(t);
      SnocSuffix(s, r);
      assert AfterLastSlash(s) == r + [s[|s| - 1]];
    }
  }

  /** A suffix of `s` without its last element, extended by that element. */
  lemma SnocSuffix<T>(s: seq<T>, r: seq<T>)
    requires |s| > 0 && |r| < |s| && r == s[..|s| - 1][|s| - 1 - |r|..]
    ensures r + [s[|s| - 1]] == s[|s| - |r| - 1..]
    ensures |r| + 1 < |s| ==> s[|s| - |r| - 2] == s[..|s| - 1][|s| - 1 - |r| - 1]
  {
  }

  /** `basename(path)`: trailing slashes are dropped, then what follows the last `/`. */
  function Basename(path: string): string
  {
    AfterLastSlash(StripTrailingSlashes(path))
  }

  /** A basename holds no slash and is a piece of the path. */
  lemma BasenameSpec(path: string)
    ensures '/' !in Basename(path) && |Basename(path)| <= |path|
  {
    StripTrailingSlashesSpec(path);
    AfterLastSlashSpec(StripTrailingSlashes(path));
  }

  lemma {:induction false} AfterSlashJoin(dir: string, name: string)
    requires '/' !in name
    ensures AfterLastSlash(dir + "/" + name) == name
    decreases |name|
  {
    var p := dir + "/" + name;
    if name != [] {
      var init := name[..|name| - 1];
      assert p[..|p| - 1] == dir + "/" + init;
      AfterSlashJoin(dir, init);
      assert name == init + [name[|name| - 1]];
    }
  }

  /** A path joined from a directory and a file name has that file name as its basename. */
  lemma BasenameOfJoin(dir: string, name: string)
    requires name != [] && '/' !in name
    ensures Basename(dir + "/" + name) == name
  {
    var p := dir + "/" + name;
    assert p[|p| - 1] == name[|name| - 1];
    AfterSlashJoin(dir, name);
  }

  // ---------------------------------------------------------------------------------------
  // empty($s) on a string

  predicate EmptyString(s: string)
  {
    s == "" || s == "0"
  }

  // ---------------------------------------------------------------------------------------
  // shuffle($xs) driven by explicit random picks

  /** `shuffle`, with its randomness given as `picks`: each step moves the element at
      position `pick % (elements left)` to the output; missing picks count as 0. */
  function Shuffle<T>(xs: seq<T>, picks: seq<nat>): (r: seq<T>)
    ensures |r| == |xs| && multiset(r) == multiset(xs)
    decreases |xs|
  {
    if xs == [] then []
    else
      var i := (if picks == [] then 0 else picks[0]) % |xs|;
      var rest := xs[..i] + xs[i + 1..];
      TakeOut(xs, i);
      [xs[i]] + Shuffle(rest, if picks == [] then [] else picks[1..])
  }

  /** Taking the element at `i` out of `xs` leaves the others. */
  lemma TakeOut<T>(xs: seq<T>, i: nat)
    requires i < |xs|
    ensures |xs[..i] + xs[i + 1..]| == |xs| - 1
    ensures multiset(xs) == multiset{xs[i]} + multiset(xs[..i] + xs[i + 1..])
  {
    assert xs == xs[..i] + [xs[i]] + xs[i + 1..];
  }
}
