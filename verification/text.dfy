/** Character classes and the Python string operations the core uses:
    `lower()`, `re.findall(r'\w+', ...)`, `split()`, `strip()`,
    `split('\n')`, `re.split(r'[.!?]', ...)` and `in` on strings.
    Character classes are the ASCII ones. */
module Text {

  /** `\w`: ASCII letters, digits and underscore. */
  predicate IsWordChar(c: char)
  {
    ('a' <= c <= 'z') || ('A' <= c <= 'Z') || ('0' <= c <= '9') || c == '_'
  }

  /** The characters `str.split()` and `str.strip()` treat as whitespace:
      tab, line feed, vertical tab, form feed, carriage return, the four
      separator controls 0x1C-0x1F and space. */
  predicate IsSpace(c: char)
  {
    (9 <= c as int <= 13) || (28 <= c as int <= 32)
  }

  predicate IsNotSpace(c: char)
  {
    !IsSpace(c)
  }

  function LowerChar(c: char): char
  {
    if 'A' <= c <= 'Z' then (c as int - 'A' as int + 'a' as int) as char else c
  }

  /** `s.lower()`. */
  function Lower(s: string): (r: string)
    ensures |r| == |s|
    ensures forall i :: 0 <= i < |s| ==> r[i] == LowerChar(s[i])
  {
    seq(|s|, i requires 0 <= i < |s| => LowerChar(s[i]))
  }

  lemma LowerKeepsClasses(c: char)
    ensures IsWordChar(LowerChar(c)) == IsWordChar(c)
    ensures IsSpace(LowerChar(c)) == IsSpace(c)
  {
  }

  lemma LowerOfPrefix(s: string, k: nat)
    requires k <= |s|
    ensures Lower(s[..k]) == Lower(s)[..k]
  {
  }

  function Concat(xs: seq<string>): string
  {
    if xs == [] then [] else Concat(xs[..|xs| - 1]) + xs[|xs| - 1]
  }

  lemma {:induction false} ConcatAppend(xs: seq<string>, ys: seq<string>)
    ensures Concat(xs + ys) == Concat(xs) + Concat(ys)
    decreases |ys|
  {
    if ys == [] {
      assert xs + ys == xs;
    } else {
      var n := |ys| - 1;
      assert (xs + ys)[..|xs + ys| - 1] == xs + ys[..n];
      ConcatAppend(xs, ys[..n]);
    }
  }

  /** The characters of s that satisfy p, in order. */
  function Filter(s: string, p: char -> bool): string
  {
    if s == [] then [] else (if p(s[0]) then [s[0]] else []) + Filter(s[1..], p)
  }

  function Flush(cur: string): seq<string>
  {
    if cur == [] then [] else [cur]
  }

  /** The maximal runs of characters satisfying p, scanning s with the run
      `cur` already open. */
  function RunsFrom(s: string, cur: string, p: char -> bool): seq<string>
    decreases |s|
  {
    if s == [] then Flush(cur)
    else if p(s[0]) then RunsFrom(s[1..], cur + [s[0]], p)
    else Flush(cur) + RunsFrom(s[1..], [], p)
  }

  /** The maximal runs of characters of s that satisfy p. */
  function Runs(s: string, p: char -> bool): seq<string>
  {
    RunsFrom(s, [], p)
  }

  /** Every run is non-empty and made only of characters satisfying p. */
  lemma {:induction false} RunsAreNonEmptyRuns(s: string, cur: string, p: char -> bool)
    requires forall j :: 0 <= j < |cur| ==> p(cur[j])
    ensures forall t :: t in RunsFrom(s, cur, p) ==> t != [] && forall j :: 0 <= j < |t| ==> p(t[j])
    decreases |s|
  {
    if s != [] {
      if p(s[0]) {
        RunsAreNonEmptyRuns(s[1..], cur + [s[0]], p);
      } else {
        RunsAreNonEmptyRuns(s[1..], [], p);
      }
    }
  }

  /** The runs, glued together, are exactly the characters that satisfy p:
      nothing is lost and nothing is added. */
  lemma {:induction false} RunsCoverFilter(s: string, cur: string, p: char -> bool)
    ensures Concat(RunsFrom(s, cur, p)) == cur + Filter(s, p)
    decreases |s|
  {
    if s == [] {
      assert Concat(Flush(cur)) == cur by {
        if cur != [] { assert Flush(cur)[..0] == []; }
      }
    } else if p(s[0]) {
      RunsCoverFilter(s[1..], cur + [s[0]], p);
    } else {
      RunsCoverFilter(s[1..], [], p);
      ConcatAppend(Flush(cur), RunsFrom(s[1..], [], p));
      assert Concat(Flush(cur)) == cur by {
        if cur != [] { assert Flush(cur)[..0] == []; }
      }
    }
  }

  function LowerAll(xs: seq<string>): (r: seq<string>)
    ensures |r| == |xs|
    ensures forall i :: 0 <= i < |xs| ==> r[i] == Lower(xs[i])
  {
    seq(|xs|, i requires 0 <= i < |xs| => Lower(xs[i]))
  }

  /** Lower-casing does not move run boundaries of a class it preserves: the
      runs of the lower-cased text are the lower-cased runs. */
  lemma {:induction false} RunsOfLower(s: string, cur: string, p: char -> bool)
    requires forall c :: p(LowerChar(c)) == p(c)
    ensures RunsFrom(Lower(s), Lower(cur), p) == LowerAll(RunsFrom(s, cur, p))
    decreases |s|
  {
    if s == [] {
      assert Lower(s) == [];
    } else {
      assert Lower(s)[0] == LowerChar(s[0]);
      assert Lower(s)[1..] == Lower(s[1..]);
      if p(s[0]) {
        assert Lower(cur) + [Lower(s)[0]] == Lower(cur + [s[0]]);
        RunsOfLower(s[1..], cur + [s[0]], p);
      } else {
        RunsOfLower(s[1..], [], p);
        assert Lower([]) == [];
        assert LowerAll(Flush(cur) + RunsFrom(s[1..], [], p))
            == LowerAll(Flush(cur)) + LowerAll(RunsFrom(s[1..], [], p));
      }
    }
  }

  /** `re.findall(r'\w+', text.lower())`. */
  function Tokenize(text: string): (r: seq<string>)
    ensures forall t :: t in r ==> t != [] && forall j :: 0 <= j < |t| ==> IsWordChar(t[j])
  {
    RunsAreNonEmptyRuns(Lower(text), [], IsWordChar);
    Runs(Lower(text), IsWordChar)
  }

  /** The tokens of a text are exactly its lower-cased word characters, cut
      at every other character. */
  lemma TokensCoverWordChars(text: string)
    ensures Concat(Tokenize(text)) == Filter(Lower(text), IsWordChar)
  {
    RunsCoverFilter(Lower(text), [], IsWordChar);
  }

  /** `s.split()` with no argument: the maximal runs of non-whitespace. */
  function Words(s: string): (r: seq<string>)
    ensures forall t :: t in r ==> t != [] && forall j :: 0 <= j < |t| ==> !IsSpace(t[j])
  {
    RunsAreNonEmptyRuns(s, [], IsNotSpace);
    Runs(s, IsNotSpace)
  }

  /** `s.lower().split()` has one word per word of `s.split()`. */
  lemma WordsOfLower(s: string)
    ensures Words(Lower(s)) == LowerAll(Words(s))
  {
    forall c ensures IsNotSpace(LowerChar(c)) == IsNotSpace(c) { LowerKeepsClasses(c); }
    assert Lower([]) == [];
    RunsOfLower(s, [], IsNotSpace);
  }

  /** A character outside the class ends the open run and starts afresh: what
      comes before it and what comes after it are cut into runs on their own. */
  lemma {:induction false} RunsFromBreak(a: string, c: char, b: string, cur: string, p: char -> bool)
    requires !p(c)
    ensures RunsFrom(a + [c] + b, cur, p) == RunsFrom(a, cur, p) + RunsFrom(b, [], p)
    decreases |a|
  {
    var s := a + [c] + b;
    if a == [] {
      assert s[0] == c && s[1..] == b;
    } else {
      assert s[0] == a[0] && s[1..] == a[1..] + [c] + b;
      if p(a[0]) {
        RunsFromBreak(a[1..], c, b, cur + [a[0]], p);
      } else {
        RunsFromBreak(a[1..], c, b, [], p);
      }
    }
  }

  /** Characters all inside the class extend the open run to the end. */
  lemma {:induction false} RunsFromOfRun(w: string, cur: string, p: char -> bool)
    requires forall j :: 0 <= j < |w| ==> p(w[j])
    ensures RunsFrom(w, cur, p) == Flush(cur + w)
    decreases |w|
  {
    if w == [] {
      assert cur + w == cur;
    } else {
      assert p(w[0]);
      RunsFromOfRun(w[1..], cur + [w[0]], p);
      assert (cur + [w[0]]) + w[1..] == cur + w;
    }
  }

  /** The run laws: no runs in the empty text, a cut at every character
      outside the class, and one run for a non-empty stretch inside it.
      Together they say the runs are exactly the maximal stretches. */
  lemma RunsLaws(a: string, c: char, b: string, w: string, p: char -> bool)
    ensures Runs([], p) == []
    ensures !p(c) ==> Runs(a + [c] + b, p) == Runs(a, p) + Runs(b, p)
    ensures w != [] && (forall j :: 0 <= j < |w| ==> p(w[j])) ==> Runs(w, p) == [w]
  {
    if !p(c) { RunsFromBreak(a, c, b, [], p); }
    if forall j :: 0 <= j < |w| ==> p(w[j]) {
      RunsFromOfRun(w, [], p);
      assert [] + w == w;
    }
  }

  /** `re.findall(r'\w+', ...)` finds the maximal stretches of word
      characters of the lower-cased text: none in the empty text, a cut at
      every other character, and one lower-cased token for a whole word. */
  lemma TokenizeLaws(a: string, c: char, b: string, w: string)
    ensures Tokenize([]) == []
    ensures !IsWordChar(c) ==> Tokenize(a + [c] + b) == Tokenize(a) + Tokenize(b)
    ensures w != [] && (forall j :: 0 <= j < |w| ==> IsWordChar(w[j])) ==> Tokenize(w) == [Lower(w)]
  {
    assert Lower([]) == [];
    RunsLaws([], c, [], [], IsWordChar);
    LowerKeepsClasses(c);
    assert Lower(a + [c] + b) == Lower(a) + [LowerChar(c)] + Lower(b);
    RunsLaws(Lower(a), LowerChar(c), Lower(b), Lower(w), IsWordChar);
    forall j | 0 <= j < |w| ensures IsWordChar(Lower(w)[j]) == IsWordChar(w[j]) {
      LowerKeepsClasses(w[j]);
    }
  }

  /** `s.split()` gives the maximal stretches of non-whitespace: none in the
      empty string, a cut at every whitespace character, and the whole
      stretch when there is no whitespace in it. */
  lemma WordsLaws(a: string, c: char, b: string, w: string)
    ensures Words([]) == []
    ensures IsSpace(c) ==> Words(a + [c] + b) == Words(a) + Words(b)
    ensures w != [] && (forall j :: 0 <= j < |w| ==> !IsSpace(w[j])) ==> Words(w) == [w]
  {
    RunsLaws(a, c, b, w, IsNotSpace);
    assert forall j :: 0 <= j < |w| ==> IsNotSpace(w[j]) == !IsSpace(w[j]);
  }

  /** `set(xs)` */
  function SetOf<T>(xs: seq<T>): set<T>
  {
    set x | x in xs
  }

  lemma {:induction false} SetOfSize<T>(xs: seq<T>)
    ensures |SetOf(xs)| <= |xs|
  {
    if xs != [] {
      var n := |xs| - 1;
      SetOfSize(xs[..n]);
      assert SetOf(xs) == SetOf(xs[..n]) + {xs[n]} by {
        assert xs == xs[..n] + [xs[n]];
      }
    }
  }

  /** A set shares at most its own size with any other set. */
  lemma IntersectionSize<T>(a: set<T>, b: set<T>)
    ensures |a * b| <= |a|
  {
    assert a == (a * b) + (a - b);
  }

  function TrimLeft(s: string): (r: string)
    ensures |r| <= |s| && r == s[|s| - |r|..]
    ensures r == [] || !IsSpace(r[0])
    ensures forall j :: 0 <= j < |s| - |r| ==> IsSpace(s[j])
  {
    if s == [] || !IsSpace(s[0]) then s else TrimLeft(s[1..])
  }

  function TrimRight(s: string): (r: string)
    ensures |r| <= |s| && r == s[..|r|]
    ensures r == [] || !IsSpace(r[|r| - 1])
    ensures forall j :: |r| <= j < |s| ==> IsSpace(s[j])
  {
    if s == [] || !IsSpace(s[|s| - 1]) then s else TrimRight(s[..|s| - 1])
  }

  /** No whitespace at either end. */
  predicate Trimmed(r: string)
  {
    r == [] || (!IsSpace(r[0]) && !IsSpace(r[|r| - 1]))
  }

  /** `s.strip()`: a slice of s with no whitespace at either end, cut off
      where only whitespace was removed. */
  function Strip(s: string): (r: string)
    ensures exists i, j :: 0 <= i <= j <= |s| && r == s[i..j]
              && (forall k :: 0 <= k < i ==> IsSpace(s[k]))
              && (forall k :: j <= k < |s| ==> IsSpace(s[k]))
    ensures Trimmed(r)
  {
    TrimsBounds(s);
    TrimsTrimmed(s);
    TrimRight(TrimLeft(s))
  }

  /** Both trims together cut a slice off s with whitespace outside it. */
  lemma TrimsBounds(s: string)
    ensures var r := TrimRight(TrimLeft(s));
      exists i, j :: 0 <= i <= j <= |s| && r == s[i..j]
        && (forall k :: 0 <= k < i ==> IsSpace(s[k]))
        && (forall k :: j <= k < |s| ==> IsSpace(s[k]))
  {
    var i, j := TrimsSlice(s);
    assert 0 <= i <= j <= |s| && TrimRight(TrimLeft(s)) == s[i..j];
  }

  lemma TrimsTrimmed(s: string)
    ensures Trimmed(TrimRight(TrimLeft(s)))
  {
    var l := TrimLeft(s);
    var r := TrimRight(l);
    if r != [] {
      assert r[0] == l[0];
    }
  }

  /** A string strips to nothing exactly when it is all whitespace. */
  lemma StripEmptyIffAllSpace(s: string)
    ensures Strip(s) == [] <==> forall k :: 0 <= k < |s| ==> IsSpace(s[k])
  {
    var l := TrimLeft(s);
    assert |l| > 0 ==> !IsSpace(s[|s| - |l|]);
    if forall k :: 0 <= k < |s| ==> IsSpace(s[k]) {
    }
  }

  /** Where the leading whitespace ends. */
  lemma {:induction false} TrimLeftAt(s: string, i: nat)
    requires i <= |s|
    requires forall k :: 0 <= k < i ==> IsSpace(s[k])
    requires i < |s| ==> !IsSpace(s[i])
    ensures TrimLeft(s) == s[i..]
    decreases i
  {
    if i > 0 {
      assert IsSpace(s[0]);
      TrimLeftAt(s[1..], i - 1);
      assert s[1..][i - 1..] == s[i..];
    }
  }

  /** Where the trailing whitespace starts. */
  lemma {:induction false} TrimRightAt(s: string, j: nat)
    requires j <= |s|
    requires forall k :: j <= k < |s| ==> IsSpace(s[k])
    requires 0 < j ==> !IsSpace(s[j - 1])
    ensures TrimRight(s) == s[..j]
    decreases |s| - j
  {
    if j < |s| {
      var n := |s| - 1;
      assert IsSpace(s[n]);
      TrimRightAt(s[..n], j);
      assert s[..n][..j] == s[..j];
    }
  }

  lemma StripIsTrims(s: string)
    ensures Strip(s) == TrimRight(TrimLeft(s))
  {
  }

  /** Trimming both ends leaves the one slice with whitespace outside it
      and, unless empty, non-whitespace at both of its ends. */
  lemma TrimsAt(s: string, i: nat, j: nat)
    requires i <= j <= |s|
    requires forall k :: 0 <= k < i ==> IsSpace(s[k])
    requires forall k :: j <= k < |s| ==> IsSpace(s[k])
    requires i < j ==> !IsSpace(s[i]) && !IsSpace(s[j - 1])
    ensures TrimRight(TrimLeft(s)) == s[i..j]
  {
    if i < j {
      TrimsOfNonBlank(s, i, j);
    } else {
      assert s[i..j] == [];
      TrimsOfBlank(s, i);
    }
  }

  lemma TrimsOfNonBlank(s: string, i: nat, j: nat)
    requires i < j <= |s|
    requires forall k :: 0 <= k < i ==> IsSpace(s[k])
    requires forall k :: j <= k < |s| ==> IsSpace(s[k])
    requires !IsSpace(s[i]) && !IsSpace(s[j - 1])
    ensures TrimRight(TrimLeft(s)) == s[i..j]
  {
    TrimLeftAt(s, i);
    TrimRightOfSuffix(s, i, j);
  }

  lemma TrimsOfBlank(s: string, i: nat)
    requires i <= |s|
    requires forall k :: 0 <= k < i ==> IsSpace(s[k])
    requires forall k :: i <= k < |s| ==> IsSpace(s[k])
    ensures TrimRight(TrimLeft(s)) == []
  {
    TrimLeftAt(s, |s|);
  }

  lemma TrimRightOfSuffix(s: string, i: nat, j: nat)
    requires i < j <= |s|
    requires forall k :: j <= k < |s| ==> IsSpace(s[k])
    requires !IsSpace(s[j - 1])
    ensures TrimRight(s[i..]) == s[i..j]
  {
    var l := s[i..];
    forall k | j - i <= k < |l| ensures IsSpace(l[k]) {
      assert l[k] == s[k + i];
    }
    assert l[j - i - 1] == s[j - 1];
    TrimRightAt(l, j - i);
    assert l[..j - i] == s[i..j];
  }

  /** The strip is the one slice with whitespace outside it and, unless
      empty, non-whitespace at both of its ends. */
  lemma StripUnique(s: string, i: nat, j: nat)
    requires i <= j <= |s|
    requires forall k :: 0 <= k < i ==> IsSpace(s[k])
    requires forall k :: j <= k < |s| ==> IsSpace(s[k])
    requires i < j ==> !IsSpace(s[i]) && !IsSpace(s[j - 1])
    ensures Strip(s) == s[i..j]
  {
    TrimsAt(s, i, j);
    StripIsTrims(s);
  }

  /** The bounds of the trimmed slice, with what holds on either side. */
  lemma TrimsSlice(m: string) returns (i: nat, j: nat)
    ensures i <= j <= |m| && TrimRight(TrimLeft(m)) == m[i..j]
    ensures forall k :: 0 <= k < i ==> IsSpace(m[k])
    ensures forall k :: j <= k < |m| ==> IsSpace(m[k])
    ensures i < j ==> !IsSpace(m[i]) && !IsSpace(m[j - 1])
  {
    i := LeftTrimmed(m);
    var n := RightTrimmed(m[i..]);
    j := i + n;
    SuffixPrefix(m, i, n, j);
  }

  lemma LeftTrimmed(m: string) returns (i: nat)
    ensures i <= |m| && TrimLeft(m) == m[i..]
    ensures forall k :: 0 <= k < i ==> IsSpace(m[k])
    ensures i < |m| ==> !IsSpace(m[i])
  {
    i := |m| - |TrimLeft(m)|;
  }

  lemma RightTrimmed(l: string) returns (n: nat)
    ensures n <= |l| && TrimRight(l) == l[..n]
    ensures forall k :: n <= k < |l| ==> IsSpace(l[k])
    ensures 0 < n ==> !IsSpace(l[n - 1])
  {
    n := |TrimRight(l)|;
  }

  /** The first n characters of the suffix of m from i, read in m. */
  lemma SuffixPrefix(m: string, i: nat, n: nat, j: nat)
    requires j == i + n <= |m|
    requires forall k :: n <= k < |m[i..]| ==> IsSpace(m[i..][k])
    requires 0 < n ==> !IsSpace(m[i..][n - 1])
    ensures m[i..][..n] == m[i..j]
    ensures forall k :: j <= k < |m| ==> IsSpace(m[k])
    ensures i < j ==> !IsSpace(m[j - 1])
  {
    if 0 < n {
      assert m[j - 1] == m[i..][n - 1];
    }
    forall k | j <= k < |m| ensures IsSpace(m[k]) {
      assert m[k] == m[i..][k - i];
    }
  }

  /** The bounds of the strip, with what holds on either side of them. */
  lemma StripSlice(m: string) returns (i: nat, j: nat)
    ensures i <= j <= |m| && Strip(m) == m[i..j]
    ensures forall k :: 0 <= k < i ==> IsSpace(m[k])
    ensures forall k :: j <= k < |m| ==> IsSpace(m[k])
    ensures i < j ==> !IsSpace(m[i]) && !IsSpace(m[j - 1])
  {
    i, j := TrimsSlice(m);
    StripIsTrims(m);
  }

  /** Whitespace around a string does not change its strip. */
  lemma StripIgnoresSurroundingSpace(l: string, m: string, r: string)
    requires forall k :: 0 <= k < |l| ==> IsSpace(l[k])
    requires forall k :: 0 <= k < |r| ==> IsSpace(r[k])
    ensures Strip(l + m + r) == Strip(m)
  {
    AppendAssoc(l, m, r);
    StripIsTrims(l + (m + r));
    StripIsTrims(m);
    TrimLeftSkipsSpace(l, m + r);
    TrimLeftOfAppend(m, r);
    if TrimLeft(m) != [] {
      TrimRightSkipsSpace(TrimLeft(m), r);
    } else {
      assert r + [] == r;
      TrimLeftSkipsSpace(r, []);
    }
  }

  lemma AppendAssoc(l: string, m: string, r: string)
    ensures l + m + r == l + (m + r)
  {
  }

  /** Leading whitespace is dropped by the left trim. */
  lemma {:induction false} TrimLeftSkipsSpace(l: string, x: string)
    requires forall k :: 0 <= k < |l| ==> IsSpace(l[k])
    ensures TrimLeft(l + x) == TrimLeft(x)
    decreases |l|
  {
    if l != [] {
      assert l + x == [l[0]] + (l[1..] + x);
      TrimLeftDropsSpace(l[0], l[1..] + x);
      TrimLeftSkipsSpace(l[1..], x);
    } else {
      assert l + x == x;
    }
  }

  lemma TrimLeftDropsSpace(c: char, y: string)
    requires IsSpace(c)
    ensures TrimLeft([c] + y) == TrimLeft(y)
  {
    var z := [c] + y;
    assert z[0] == c && z[1..] == y;
  }

  /** Trailing whitespace is dropped by the right trim. */
  lemma {:induction false} TrimRightSkipsSpace(x: string, r: string)
    requires forall k :: 0 <= k < |r| ==> IsSpace(r[k])
    ensures TrimRight(x + r) == TrimRight(x)
    decreases |r|
  {
    if r != [] {
      var r' := r[..|r| - 1];
      assert (x + r)[|x + r| - 1] == r[|r| - 1];
      assert (x + r)[..|x + r| - 1] == x + r';
      TrimRightSkipsSpace(x, r');
    } else {
      assert x + r == x;
    }
  }

  /** The left trim of m + r keeps r whole unless m is all whitespace. */
  lemma {:induction false} TrimLeftOfAppend(m: string, r: string)
    ensures TrimLeft(m) != [] ==> TrimLeft(m + r) == TrimLeft(m) + r
    ensures TrimLeft(m) == [] ==> TrimLeft(m + r) == TrimLeft(r)
    decreases |m|
  {
    if m == [] {
      assert m + r == r;
    } else {
      assert (m + r)[0] == m[0];
      if IsSpace(m[0]) {
        assert (m + r)[1..] == m[1..] + r;
        TrimLeftOfAppend(m[1..], r);
      }
    }
  }

  /** Fragments of s between characters satisfying `isDelim`, scanning with
      the fragment `cur` already open. */
  function SplitFrom(s: string, cur: string, isDelim: char -> bool): (r: seq<string>)
    ensures |r| >= 1
    decreases |s|
  {
    if s == [] then [cur]
    else if isDelim(s[0]) then [cur] + SplitFrom(s[1..], [], isDelim)
    else SplitFrom(s[1..], cur + [s[0]], isDelim)
  }

  /** `re.split('[...]', s)` for a one-character class, or `s.split(c)`:
      every fragment between delimiters, empty ones included. */
  function SplitOn(s: string, isDelim: char -> bool): seq<string>
  {
    SplitFrom(s, [], isDelim)
  }

  function CountWhere(s: string, p: char -> bool): nat
  {
    |Filter(s, p)|
  }

  /** There is one fragment more than there are delimiters. */
  lemma {:induction false} SplitCount(s: string, cur: string, isDelim: char -> bool)
    ensures |SplitFrom(s, cur, isDelim)| == CountWhere(s, isDelim) + 1
    decreases |s|
  {
    if s != [] {
      if isDelim(s[0]) {
        SplitCount(s[1..], [], isDelim);
      } else {
        SplitCount(s[1..], cur + [s[0]], isDelim);
      }
    }
  }

  /** No fragment holds a delimiter. */
  lemma {:induction false} SplitFragmentsHaveNoDelimiter(s: string, cur: string, isDelim: char -> bool)
    requires forall j :: 0 <= j < |cur| ==> !isDelim(cur[j])
    ensures forall t :: t in SplitFrom(s, cur, isDelim) ==> forall j :: 0 <= j < |t| ==> !isDelim(t[j])
    decreases |s|
  {
    if s != [] {
      if isDelim(s[0]) {
        SplitFragmentsHaveNoDelimiter(s[1..], [], isDelim);
      } else {
        SplitFragmentsHaveNoDelimiter(s[1..], cur + [s[0]], isDelim);
      }
    }
  }

  /** The fragments glued together give back every non-delimiter character. */
  lemma {:induction false} SplitCoversRest(s: string, cur: string, isDelim: char -> bool, keep: char -> bool)
    requires forall c :: keep(c) == !isDelim(c)
    ensures Concat(SplitFrom(s, cur, isDelim)) == cur + Filter(s, keep)
    decreases |s|
  {
    assert [cur][..0] == [];
    assert Concat([cur]) == cur;
    if s == [] {
    } else if isDelim(s[0]) {
      SplitCoversRest(s[1..], [], isDelim, keep);
      var rest := SplitFrom(s[1..], [], isDelim);
      assert SplitFrom(s, cur, isDelim) == [cur] + rest;
      ConcatAppend([cur], rest);
      assert Filter(s, keep) == Filter(s[1..], keep);
    } else {
      SplitCoversRest(s[1..], cur + [s[0]], isDelim, keep);
      assert SplitFrom(s, cur, isDelim) == SplitFrom(s[1..], cur + [s[0]], isDelim);
      assert Filter(s, keep) == [s[0]] + Filter(s[1..], keep);
    }
  }

  /** A delimiter closes the open fragment: what comes before it and what
      comes after it are split on their own. */
  lemma {:induction false} SplitFromBreak(a: string, c: char, b: string, cur: string, isDelim: char -> bool)
    requires isDelim(c)
    ensures SplitFrom(a + [c] + b, cur, isDelim) == SplitFrom(a, cur, isDelim) + SplitFrom(b, [], isDelim)
    decreases |a|
  {
    var s := a + [c] + b;
    if a == [] {
      assert s[0] == c && s[1..] == b;
    } else {
      assert s[0] == a[0] && s[1..] == a[1..] + [c] + b;
      if isDelim(a[0]) {
        SplitFromBreak(a[1..], c, b, [], isDelim);
      } else {
        SplitFromBreak(a[1..], c, b, cur + [a[0]], isDelim);
      }
    }
  }

  /** Without a delimiter the open fragment runs to the end. */
  lemma {:induction false} SplitFromOfPiece(w: string, cur: string, isDelim: char -> bool)
    requires forall j :: 0 <= j < |w| ==> !isDelim(w[j])
    ensures SplitFrom(w, cur, isDelim) == [cur + w]
    decreases |w|
  {
    if w == [] {
      assert cur + w == cur;
    } else {
      assert !isDelim(w[0]);
      SplitFromOfPiece(w[1..], cur + [w[0]], isDelim);
      assert (cur + [w[0]]) + w[1..] == cur + w;
    }
  }

  /** The split laws: a cut at every delimiter, and a piece free of
      delimiters is its own single fragment (the empty string included). */
  lemma SplitLaws(a: string, c: char, b: string, w: string, isDelim: char -> bool)
    ensures isDelim(c) ==> SplitOn(a + [c] + b, isDelim) == SplitOn(a, isDelim) + SplitOn(b, isDelim)
    ensures (forall j :: 0 <= j < |w| ==> !isDelim(w[j])) ==> SplitOn(w, isDelim) == [w]
  {
    if isDelim(c) { SplitFromBreak(a, c, b, [], isDelim); }
    if forall j :: 0 <= j < |w| ==> !isDelim(w[j]) {
      SplitFromOfPiece(w, [], isDelim);
      assert [] + w == w;
    }
  }

  /** `a in b` on strings. */
  predicate IsSubstring(a: string, b: string)
    decreases |b|
  {
    a <= b || (b != [] && IsSubstring(a, b[1..]))
  }

  /** a occurs in b starting at offset k. */
  predicate OccursAt(a: string, b: string, k: int)
  {
    0 <= k && k + |a| <= |b| && b[k..k + |a|] == a
  }

  /** `a in b` holds exactly when a occurs at some offset of b. */
  lemma {:induction false} SubstringAtOffset(a: string, b: string)
    ensures IsSubstring(a, b) <==> exists k :: OccursAt(a, b, k)
    decreases |b|
  {
    if a <= b {
      OccursAtStart(a, b);
    }
    if b != [] {
      SubstringAtOffset(a, b[1..]);
      if exists k :: OccursAt(a, b[1..], k) {
        var k :| OccursAt(a, b[1..], k);
        OccursInTail(a, b, k + 1);
      }
      if exists k :: OccursAt(a, b, k) {
        var k :| OccursAt(a, b, k);
        if k > 0 {
          OccursInTail(a, b, k);
        } else {
          OccursAtStart(a, b);
        }
      }
    } else {
      if exists k :: OccursAt(a, b, k) {
        var k :| OccursAt(a, b, k);
        assert a == [];
      }
    }
  }

  lemma OccursAtStart(a: string, b: string)
    ensures OccursAt(a, b, 0) <==> a <= b
  {
  }

  /** An occurrence past the first character is one in the tail. */
  lemma OccursInTail(a: string, b: string, k: int)
    requires b != [] && k > 0
    ensures OccursAt(a, b, k) <==> OccursAt(a, b[1..], k - 1)
  {
    if 0 < k && k + |a| <= |b| {
      assert b[1..][k - 1..k - 1 + |a|] == b[k..k + |a|];
    }
  }

  lemma PrefixIsSubstring(a: string, b: string)
    requires a <= b
    ensures IsSubstring(a, b)
  {
  }

  /** `sep.join(xs)`. */
  function Join(xs: seq<string>, sep: string): (r: string)
    ensures xs == [] ==> r == []
    ensures xs != [] ==> xs[0] <= r
  {
    if xs == [] then []
    else if |xs| == 1 then xs[0]
    else xs[0] + sep + Join(xs[1..], sep)
  }

  function TotalLength(xs: seq<string>): nat
  {
    if xs == [] then 0 else |xs[0]| + TotalLength(xs[1..])
  }

  /** The joined text holds every piece and one separator between each
      neighbouring pair. */
  lemma {:induction false} JoinLength(xs: seq<string>, sep: string)
    requires xs != []
    ensures |Join(xs, sep)| == TotalLength(xs) + (|xs| - 1) * |sep|
  {
    if |xs| > 1 {
      JoinLength(xs[1..], sep);
    } else {
      assert xs[1..] == [];
    }
  }
}
