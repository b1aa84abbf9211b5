/** Data validation, drift detection, versioning, and the cached document
    loader. File reads and the md5 digest are foreign: a read arrives as a
    `ReadResult`, the digest as a function. */
module Data {

  import opened Common
  import opened Text

  /** A CSV row: column name to cell. */
  type Row = map<string, string>

  const RequiredKeys: set<string> := {"date", "metric", "value"}

  /** `validate_structured_data`: the first row missing a required key
      makes the whole list invalid. */
  function ValidateStructuredData(rows: seq<Row>): (r: bool)
    ensures r <==> forall i :: 0 <= i < |rows| ==> RequiredKeys <= rows[i].Keys
  {
    if rows == [] then true
    else if !(RequiredKeys <= rows[0].Keys) then false
    else
      var rest := ValidateStructuredData(rows[1..]);
      assert forall i :: 0 < i < |rows| ==> rows[1..][i - 1] == rows[i];
      rest
  }

  predicate HasContent(d: string)
  {
    |Strip(d)| > 0
  }

  /** The document holds a character that is not whitespace. */
  ghost predicate HasNonSpace(d: string)
  {
    exists k :: 0 <= k < |d| && !IsSpace(d[k])
  }

  lemma HasContentIff(d: string)
    ensures HasContent(d) <==> HasNonSpace(d)
  {
    StripEmptyIffAllSpace(d);
  }

  /** `validate_documents`: every document is non-empty once stripped. */
  function ValidateDocuments(docs: seq<string>): (r: bool)
    ensures r <==> forall i :: 0 <= i < |docs| ==> HasNonSpace(docs[i])
  {
    var r := forall i :: 0 <= i < |docs| ==> HasContent(docs[i]);
    forall i | 0 <= i < |docs|
      ensures HasContent(docs[i]) <==> HasNonSpace(docs[i])
    {
      HasContentIff(docs[i]);
    }
    r
  }

  /** Python's string order: by code point, a proper prefix first. */
  predicate LessEq(a: string, b: string)
  {
    a == [] || (b != [] && (a[0] < b[0] || (a[0] == b[0] && LessEq(a[1..], b[1..]))))
  }

  lemma {:induction false} LessEqTotal(a: string, b: string)
    ensures LessEq(a, b) || LessEq(b, a)
  {
    if a != [] && b != [] && a[0] == b[0] {
      LessEqTotal(a[1..], b[1..]);
    }
  }

  lemma {:induction false} LessEqReflexive(a: string)
    ensures LessEq(a, a)
  {
    if a != [] {
      LessEqReflexive(a[1..]);
    }
  }

  lemma {:induction false} LessEqAntisymmetric(a: string, b: string)
    requires LessEq(a, b) && LessEq(b, a)
    ensures a == b
  {
    if a != [] && b != [] {
      LessEqAntisymmetric(a[1..], b[1..]);
      assert a == [a[0]] + a[1..] && b == [b[0]] + b[1..];
    }
  }

  lemma {:induction false} LessEqTransitive(a: string, b: string, c: string)
    requires LessEq(a, b) && LessEq(b, c)
    ensures LessEq(a, c)
  {
    if a != [] && b != [] && c != [] && a[0] == b[0] == c[0] {
      LessEqTransitive(a[1..], b[1..], c[1..]);
    }
  }

  predicate SortedStrings(xs: seq<string>)
  {
    forall p, q :: 0 <= p < q < |xs| ==> LessEq(xs[p], xs[q])
  }

  function InsertString(r: seq<string>, x: string): (res: seq<string>)
    requires SortedStrings(r)
    ensures SortedStrings(res)
    ensures multiset(res) == multiset(r) + multiset{x}
  {
    if r == [] then [x]
    else if LessEq(x, r[0]) then
      InsertFirst(r, x);
      [x] + r
    else
      var rest := InsertString(r[1..], x);
      InsertBehindHead(r, x, rest);
      [r[0]] + rest
  }

  lemma InsertFirst(r: seq<string>, x: string)
    requires SortedStrings(r) && r != [] && LessEq(x, r[0])
    ensures SortedStrings([x] + r)
  {
    forall q | 0 <= q < |r| ensures LessEq(x, r[q]) {
      if q > 0 { LessEqTransitive(x, r[0], r[q]); }
    }
  }

  lemma InsertBehindHead(r: seq<string>, x: string, rest: seq<string>)
    requires SortedStrings(r) && r != [] && !LessEq(x, r[0])
    requires SortedStrings(rest) && multiset(rest) == multiset(r[1..]) + multiset{x}
    ensures SortedStrings([r[0]] + rest)
    ensures multiset([r[0]] + rest) == multiset(r) + multiset{x}
  {
    LessEqTotal(x, r[0]);
    assert r == [r[0]] + r[1..];
    assert forall q :: 0 <= q < |rest| ==> rest[q] in multiset(rest);
    assert forall q :: 0 <= q < |rest| ==> LessEq(r[0], rest[q]);
  }

  /** `sorted(xs)` on strings. */
  function SortStrings(xs: seq<string>): (r: seq<string>)
    ensures SortedStrings(r)
    ensures multiset(r) == multiset(xs)
  {
    if xs == [] then []
    else
      assert xs == xs[..|xs| - 1] + [xs[|xs| - 1]];
      InsertString(SortStrings(xs[..|xs| - 1]), xs[|xs| - 1])
  }

  /** Two sorted lists with the same items are the same list. */
  lemma {:induction false} SortedIsUnique(a: seq<string>, b: seq<string>)
    requires SortedStrings(a) && SortedStrings(b)
    requires multiset(a) == multiset(b)
    ensures a == b
    decreases |a|
  {
    if a == [] {
      assert |b| == |multiset(b)| == 0;
    } else {
      assert |b| == |multiset(b)| == |multiset(a)| == |a|;
      SortedHeadsAgree(a, b);
      SameTails(a, b);
      SortedIsUnique(a[1..], b[1..]);
      assert a == [a[0]] + a[1..] && b == [b[0]] + b[1..];
    }
  }

  lemma SameTails(a: seq<string>, b: seq<string>)
    requires a != [] && b != [] && a[0] == b[0]
    requires multiset(a) == multiset(b)
    ensures multiset(a[1..]) == multiset(b[1..])
  {
    assert a == [a[0]] + a[1..] && b == [b[0]] + b[1..];
    assert multiset(a[1..]) == multiset(a) - multiset{a[0]};
    assert multiset(b[1..]) == multiset(b) - multiset{b[0]};
  }

  /** Two non-empty sorted lists with the same items start alike. */
  lemma SortedHeadsAgree(a: seq<string>, b: seq<string>)
    requires a != [] && b != []
    requires SortedStrings(a) && SortedStrings(b)
    requires multiset(a) == multiset(b)
    ensures a[0] == b[0]
  {
    assert a[0] in multiset(b) && b[0] in multiset(a);
    var i :| 0 <= i < |b| && b[i] == a[0];
    var j :| 0 <= j < |a| && a[j] == b[0];
    LessEqReflexive(a[0]);
    LessEqReflexive(b[0]);
    assert LessEq(b[0], a[0]);
    assert LessEq(a[0], b[0]);
    LessEqAntisymmetric(a[0], b[0]);
  }

  /** `detect_drift`'s result. */
  datatype DriftReport = DriftReport(drifted: bool, oldHash: string, newHash: string, timestamp: string)

  /** The text whose digest `detect_drift` compares. */
  function Fingerprint(docs: seq<string>): string
  {
    Join(SortStrings(docs), "\n")
  }

  /** `detect_drift`: drifted exactly when the digests of the sorted,
      newline-joined document lists differ. */
  function DetectDrift(oldDocs: seq<string>, newDocs: seq<string>, md5: string -> string, now: string): (r: DriftReport)
    ensures r.oldHash == md5(Fingerprint(oldDocs)) && r.newHash == md5(Fingerprint(newDocs))
    ensures r.drifted <==> r.oldHash != r.newHash
    ensures r.timestamp == now
  {
    var oldHash := md5(Fingerprint(oldDocs));
    var newHash := md5(Fingerprint(newDocs));
    DriftReport(oldHash != newHash, oldHash, newHash, now)
  }

  /** Reordering the documents is never drift, whatever the digest. */
  lemma PermutationIsNotDrift(oldDocs: seq<string>, newDocs: seq<string>, md5: string -> string, now: string)
    requires multiset(oldDocs) == multiset(newDocs)
    ensures !DetectDrift(oldDocs, newDocs, md5, now).drifted
  {
    SortedIsUnique(SortStrings(oldDocs), SortStrings(newDocs));
  }

  /** `DataValidator`: its version is the creation timestamp. */
  class DataValidator {
    const version: string

    constructor (now: string)
      ensures version == now
    {
      version := now;
    }

    /** `version_data`: "v" followed by the creation timestamp. */
    function VersionData(): (r: string)
      ensures |r| == |version| + 1 && r[0] == 'v' && r[1..] == version
    {
      "v" + version
    }
  }

  predicate IsNewline(c: char)
  {
    c == '\n'
  }

  /** A non-empty string with no whitespace at either end. */
  predicate Clean(d: string)
  {
    d != [] && !IsSpace(d[0]) && !IsSpace(d[|d| - 1])
  }

  /** Stripping leaves a clean string alone. */
  lemma CleanIsStripped(d: string)
    requires Clean(d)
    ensures Strip(d) == d
  {
    var i, j :| 0 <= i <= j <= |d| && Strip(d) == d[i..j]
      && (forall k :: 0 <= k < i ==> IsSpace(d[k]))
      && (forall k :: j <= k < |d| ==> IsSpace(d[k]));
    assert i == 0;
    assert j == |d|;
  }

  lemma StripIsIdempotent(s: string)
    ensures Strip(Strip(s)) == Strip(s)
  {
    var t := Strip(s);
    if t != [] {
      CleanIsStripped(t);
    } else {
      StripEmptyIffAllSpace(t);
    }
  }

  /** `[line.strip() for line in lines if line.strip()]`: the stripped,
      non-empty lines, each left alone by a further strip. */
  function StrippedNonEmpty(lines: seq<string>): (r: seq<string>)
    ensures |r| <= |lines|
    ensures forall i :: 0 <= i < |r| ==> Clean(r[i])
  {
    if lines == [] then []
    else
      var rest := StrippedNonEmpty(lines[1..]);
      var s := Strip(lines[0]);
      if |s| > 0 then
        assert Clean(s);
        ConsClean(s, rest);
        [s] + rest
      else rest
  }

  lemma ConsClean(s: string, rest: seq<string>)
    requires Clean(s) && forall i :: 0 <= i < |rest| ==> Clean(rest[i])
    ensures forall i :: 0 <= i < |rest| + 1 ==> Clean(([s] + rest)[i])
  {
    forall i | 0 < i < |rest| + 1
      ensures Clean(([s] + rest)[i])
    {
      assert ([s] + rest)[i] == rest[i - 1];
    }
  }

  /** The documents `load_documents` parses out of a file's content: its
      stripped, non-empty lines, in order. */
  function ParseDocuments(content: string): (r: seq<string>)
    ensures ValidateDocuments(r)
    ensures forall i :: 0 <= i < |r| ==> Clean(r[i])
  {
    var r := StrippedNonEmpty(SplitOn(Strip(content), IsNewline));
    forall i | 0 <= i < |r|
      ensures HasNonSpace(r[i])
    {
      assert !IsSpace(r[i][0]);
    }
    r
  }

  /** Keeping the stripped non-empty lines goes line by line: it distributes
      over concatenation, and a single line is kept, stripped, exactly when
      something is left of it. */
  lemma {:induction false} StrippedNonEmptyAppend(a: seq<string>, b: seq<string>)
    ensures StrippedNonEmpty(a + b) == StrippedNonEmpty(a) + StrippedNonEmpty(b)
    decreases |a|
  {
    if a == [] {
      assert a + b == b;
    } else {
      assert (a + b)[0] == a[0] && (a + b)[1..] == a[1..] + b;
      StrippedNonEmptyAppend(a[1..], b);
    }
  }

  lemma StrippedNonEmptyLaws(a: seq<string>, b: seq<string>, line: string)
    ensures StrippedNonEmpty([]) == []
    ensures StrippedNonEmpty(a + b) == StrippedNonEmpty(a) + StrippedNonEmpty(b)
    ensures StrippedNonEmpty([line]) == if |Strip(line)| > 0 then [Strip(line)] else []
  {
    StrippedNonEmptyAppend(a, b);
    assert [line][1..] == [];
  }

  predicate AllSpace(s: string)
  {
    forall k :: 0 <= k < |s| ==> IsSpace(s[k])
  }

  /** Two lines with the same strip are kept or dropped alike. */
  lemma SameStripSameKept(x: string, y: string, rest: seq<string>)
    requires Strip(x) == Strip(y)
    ensures StrippedNonEmpty([x] + rest) == StrippedNonEmpty([y] + rest)
  {
    StrippedNonEmptyLaws([x], rest, x);
    StrippedNonEmptyLaws([y], rest, y);
  }

  lemma StripOfPadded(w: string, cur: string, v: string)
    requires AllSpace(w) && AllSpace(v)
    ensures Strip(w + cur + v) == Strip(cur)
  {
    StripIgnoresSurroundingSpace(w, cur, v);
  }

  /** Whitespace opening the current line does not change what is kept. */
  lemma {:induction false} BlankOpenLine(s: string, w: string, cur: string)
    requires AllSpace(w)
    ensures StrippedNonEmpty(SplitFrom(s, w + cur, IsNewline)) == StrippedNonEmpty(SplitFrom(s, cur, IsNewline))
    decreases |s|
  {
    if s == [] {
      assert w + cur + [] == w + cur;
      assert [w + cur] + [] == [w + cur] && [cur] + [] == [cur];
      StripOfPadded(w, cur, []);
      SameStripSameKept(w + cur, cur, []);
    } else if IsNewline(s[0]) {
      assert w + cur + [] == w + cur;
      StripOfPadded(w, cur, []);
      SameStripSameKept(w + cur, cur, SplitFrom(s[1..], [], IsNewline));
    } else {
      assert (w + cur) + [s[0]] == w + (cur + [s[0]]);
      BlankOpenLine(s[1..], w, cur + [s[0]]);
    }
  }

  /** Leading whitespace, newlines included, contributes no line. */
  lemma {:induction false} LeadingSpaceKeepsNothing(w: string, x: string, cur: string)
    requires AllSpace(w) && AllSpace(cur)
    ensures StrippedNonEmpty(SplitFrom(w + x, cur, IsNewline)) == StrippedNonEmpty(SplitFrom(x, [], IsNewline))
    decreases |w|
  {
    if w == [] {
      assert w + x == x && cur + [] == cur;
      BlankOpenLine(x, cur, []);
    } else {
      assert (w + x)[0] == w[0] && (w + x)[1..] == w[1..] + x;
      if IsNewline(w[0]) {
        StripEmptyIffAllSpace(cur);
        StrippedNonEmptyLaws([cur], SplitFrom(w[1..] + x, [], IsNewline), cur);
        LeadingSpaceKeepsNothing(w[1..], x, []);
      } else {
        LeadingSpaceKeepsNothing(w[1..], x, cur + [w[0]]);
      }
    }
  }

  lemma EmptyLineKeepsNothing()
    ensures StrippedNonEmpty([[]]) == []
  {
    StripEmptyIffAllSpace([]);
    StrippedNonEmptyLaws([], [], []);
  }

  /** Whitespace after the last character, newlines included, adds no line. */
  lemma {:induction false} TrailingBlank(w: string, cur: string)
    requires AllSpace(w)
    ensures StrippedNonEmpty(SplitFrom(w, cur, IsNewline)) == StrippedNonEmpty([cur])
    decreases |w|
  {
    if w != [] {
      if IsNewline(w[0]) {
        TrailingBlank(w[1..], []);
        NewlineInTrailingBlank(w, cur);
      } else {
        TrailingBlank(w[1..], cur + [w[0]]);
        SpaceInTrailingBlank(w[0], cur);
      }
    }
  }

  lemma NewlineInTrailingBlank(w: string, cur: string)
    requires w != [] && IsNewline(w[0])
    requires StrippedNonEmpty(SplitFrom(w[1..], [], IsNewline)) == StrippedNonEmpty([[]])
    ensures StrippedNonEmpty(SplitFrom(w, cur, IsNewline)) == StrippedNonEmpty([cur])
  {
    var rest := SplitFrom(w[1..], [], IsNewline);
    assert SplitFrom(w, cur, IsNewline) == [cur] + rest;
    EmptyLineKeepsNothing();
    KeptBeforeNothing(cur, rest);
  }

  lemma KeptBeforeNothing(cur: string, rest: seq<string>)
    requires StrippedNonEmpty(rest) == []
    ensures StrippedNonEmpty([cur] + rest) == StrippedNonEmpty([cur])
  {
    var kept := StrippedNonEmpty([cur]);
    assert kept + [] == kept;
    StrippedNonEmptyAppend([cur], rest);
  }

  lemma SpaceInTrailingBlank(c: char, cur: string)
    requires IsSpace(c)
    ensures StrippedNonEmpty([cur + [c]]) == StrippedNonEmpty([cur])
  {
    assert [] + cur + [c] == cur + [c];
    assert [cur + [c]] + [] == [cur + [c]] && [cur] + [] == [cur];
    StripOfPadded([], cur, [c]);
    SameStripSameKept(cur + [c], cur, []);
  }

  lemma {:induction false} TrailingSpaceKeepsNothing(x: string, w: string, cur: string)
    requires AllSpace(w)
    ensures StrippedNonEmpty(SplitFrom(x + w, cur, IsNewline)) == StrippedNonEmpty(SplitFrom(x, cur, IsNewline))
    decreases |x|
  {
    if x == [] {
      assert x + w == w;
      TrailingBlank(w, cur);
    } else {
      assert (x + w)[0] == x[0] && (x + w)[1..] == x[1..] + w;
      if IsNewline(x[0]) {
        TrailingSpaceKeepsNothing(x[1..], w, []);
        StrippedNonEmptyLaws([cur], SplitFrom(x[1..] + w, [], IsNewline), cur);
        StrippedNonEmptyLaws([cur], SplitFrom(x[1..], [], IsNewline), cur);
      } else {
        TrailingSpaceKeepsNothing(x[1..], w, cur + [x[0]]);
      }
    }
  }

  /** Stripping the whole content first changes nothing: the documents are
      the stripped, non-empty lines of the content as read. */
  lemma ParseDocumentsIgnoresOuterStrip(content: string)
    ensures ParseDocuments(content) == StrippedNonEmpty(SplitOn(content, IsNewline))
  {
    var l, m, r := StripParts(content);
    LeadingSpaceKeepsNothing(l, m + r, []);
    TrailingSpaceKeepsNothing(m, r, []);
  }

  /** The content is its strip with whitespace on either side. */
  lemma StripParts(content: string) returns (l: string, m: string, r: string)
    ensures content == l + (m + r) && Strip(content) == m
    ensures AllSpace(l) && AllSpace(r)
  {
    var i, j := StripSlice(content);
    l, m, r := content[..i], content[i..j], content[j..];
    ThreeParts(content, i, j);
    SpaceBefore(content, i);
    SpaceFrom(content, j);
  }

  lemma SpaceBefore(s: string, i: nat)
    requires i <= |s| && forall k :: 0 <= k < i ==> IsSpace(s[k])
    ensures AllSpace(s[..i])
  {
  }

  lemma SpaceFrom(s: string, j: nat)
    requires j <= |s| && forall k :: j <= k < |s| ==> IsSpace(s[k])
    ensures AllSpace(s[j..])
  {
    assert forall k :: 0 <= k < |s| - j ==> s[j..][k] == s[j + k];
  }

  lemma ThreeParts(s: string, i: nat, j: nat)
    requires i <= j <= |s|
    ensures s == s[..i] + (s[i..j] + s[j..])
  {
  }

  /** The documents of a file, line by line: every newline cuts the content
      into parts parsed on their own, and a part with no newline gives its
      stripped text, unless nothing is left of it. */
  lemma ParseDocumentsLaws(a: string, b: string, line: string)
    ensures ParseDocuments(a + "\n" + b) == ParseDocuments(a) + ParseDocuments(b)
    ensures (forall k :: 0 <= k < |line| ==> line[k] != '\n') ==>
      ParseDocuments(line) == if |Strip(line)| > 0 then [Strip(line)] else []
  {
    ParseDocumentsIgnoresOuterStrip(a + "\n" + b);
    ParseDocumentsIgnoresOuterStrip(a);
    ParseDocumentsIgnoresOuterStrip(b);
    ParseDocumentsIgnoresOuterStrip(line);
    SplitLaws(a, '\n', b, line, IsNewline);
    StrippedNonEmptyAppend(SplitOn(a, IsNewline), SplitOn(b, IsNewline));
    StrippedNonEmptyLaws([], [], line);
  }

  /** What reading a file yields. */
  datatype ReadResult = Contents(text: string) | ReadFailed

  class DataLoader {
    const basePath: string
    var cache: map<string, seq<string>>

    constructor (basePath: string)
      ensures this.basePath == basePath && cache == map[]
    {
      this.basePath := basePath;
      cache := map[];
    }

    /** `load_documents`: a cached path answers from the cache; otherwise
        the parsed documents are cached and returned, and a failed read
        returns [] and caches nothing. */
    method LoadDocuments(path: string, read: ReadResult) returns (docs: seq<string>)
      modifies this
      ensures path in old(cache) ==> docs == old(cache)[path] && cache == old(cache)
      ensures path !in old(cache) && read.Contents? ==>
        docs == ParseDocuments(read.text) && cache == old(cache)[path := docs]
      ensures path !in old(cache) && read.ReadFailed? ==> docs == [] && cache == old(cache)
    {
      if path in cache {
        return cache[path];
      }
      match read
      case ReadFailed =>
        docs := [];
      case Contents(text) =>
        var parsed := ParseDocuments(text);
        if ValidateDocuments(parsed) {
          cache := cache[path := parsed];
          docs := parsed;
        } else {
          docs := [];
        }
    }
  }
}
