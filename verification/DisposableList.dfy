/** The merged list of disposable domains: sorting, printing, and reading it back. */
module DisposableList {
  import opened Results
  import opened Sequences
  import opened Text
  import Plan = BatchPlan

  // ----- lines and domains -----

  /** A line trimmed and lower-cased; none for a blank or comment line. */
  function Kept(line: string): seq<string> {
    var d := Lower(Trim(line));
    if d == "" || d[0] == '#' then [] else [d]
  }

  function Keep(lines: seq<string>): seq<string> {
    if lines == [] then [] else Kept(lines[0]) + Keep(lines[1..])
  }

  function ParseDomains(text: string): seq<string> {
    Keep(Split(text, '\n'))
  }

  lemma {:induction false} KeepConcat(a: seq<string>, b: seq<string>)
    ensures Keep(a + b) == Keep(a) + Keep(b)
  {
    if a == [] {
      assert a + b == b;
    } else {
      KeepConcat(a[1..], b);
      assert (a + b)[1..] == a[1..] + b;
      Assoc(Kept(a[0]), Keep(a[1..]), Keep(b));
    }
  }

  /** What a domain in a list looks like: reading its own line gives it back. */
  predicate Clean(d: string) {
    d != "" && d[0] != '#' && '\n' !in d && Lower(Trim(d)) == d
  }

  predicate AllClean(s: seq<string>) {
    forall i :: 0 <= i < |s| ==> Clean(s[i])
  }

  predicate OneLineEach(lines: seq<string>) {
    forall i :: 0 <= i < |lines| ==> '\n' !in lines[i]
  }

  lemma {:induction false} SplitPieces(s: string, sep: char)
    ensures forall i :: 0 <= i < |Split(s, sep)| ==> sep !in Split(s, sep)[i]
  {
    if s != "" {
      SplitPieces(s[1..], sep);
    }
  }

  lemma LowerTrims(s: string)
    requires Trimmed(s)
    ensures Trimmed(Lower(s))
  {
  }

  lemma KeptIsClean(line: string)
    requires '\n' !in line
    ensures AllClean(Kept(line))
  {
    var t := Trim(line);
    TrimLaw(line);
    LowerTrims(t);
    TrimmedStays(Lower(t));
    LowerIdempotent(t);
  }

  lemma {:induction false} KeepIsClean(lines: seq<string>)
    requires OneLineEach(lines)
    ensures AllClean(Keep(lines))
  {
    if lines != [] {
      KeptIsClean(lines[0]);
      KeepIsClean(lines[1..]);
    }
  }

  lemma ParsedIsClean(text: string)
    ensures AllClean(ParseDomains(text))
  {
    SplitPieces(text, '\n');
    KeepIsClean(Split(text, '\n'));
  }

  lemma {:induction false} KeepClean(s: seq<string>)
    requires AllClean(s)
    ensures Keep(s) == s
  {
    if s != [] {
      KeepClean(s[1..]);
    }
  }

  /** The line is the domain between white space, with letters in either case. */
  predicate LineOf(line: string, d: string, a: string, core: string, b: string) {
    && line == a + core + b && AllSpace(a) && AllSpace(b) && Trimmed(core) && InLowerCase(d, core)
  }

  /**
   * What reading a line gives: the text on it without the white space around it, in lower
   * case, or nothing when there is none or it is a comment.
   */
  lemma KeptExactly(line: string) returns (d: string, a: string, core: string, b: string)
    ensures LineOf(line, d, a, core, b)
    ensures Kept(line) == if core == "" || core[0] == '#' then [] else [d]
  {
    core := Trim(line);
    a, b := TrimParts(line);
    d := Lower(core);
    LowerLaw(core, core);
  }

  /** And whatever stands so on a line is read off it. */
  lemma KeptFinds(line: string, d: string, a: string, core: string, b: string)
    requires LineOf(line, d, a, core, b)
    ensures Kept(line) == if core == "" || core[0] == '#' then [] else [d]
  {
    TrimFinds(a, core, b);
    LowerLaw(core, d);
    LowerLaw(d, d);
    assert Lower(core) == d;
  }

  // ----- the order of the printed list -----

  /** The default order of `sort`: code by code, a proper prefix first. */
  predicate Before(a: string, b: string) {
    b != "" && (a == "" || a[0] < b[0] || (a[0] == b[0] && Before(a[1..], b[1..])))
  }

  /** One text stands before another when it is a proper beginning of it, or smaller at the first place where they differ. */
  lemma BeforeExactly(a: string, b: string)
    ensures Before(a, b) <==>
            exists k :: 0 <= k < |b| && k <= |a| && a[..k] == b[..k] && (k == |a| || a[k] < b[k])
  {
    if Before(a, b) {
      var k := FirstDifference(a, b);
    }
    if k :| 0 <= k < |b| && k <= |a| && a[..k] == b[..k] && (k == |a| || a[k] < b[k]) {
      SmallerIsBefore(a, b, k);
    }
  }

  lemma {:induction false} FirstDifference(a: string, b: string) returns (k: nat)
    requires Before(a, b)
    ensures k < |b| && k <= |a| && a[..k] == b[..k] && (k == |a| || a[k] < b[k])
  {
    if a == "" || a[0] < b[0] {
      k := 0;
    } else {
      k := FirstDifference(a[1..], b[1..]);
      k := k + 1;
      assert a[..k] == [a[0]] + a[1..][..k - 1] && b[..k] == [b[0]] + b[1..][..k - 1];
    }
  }

  lemma {:induction false} SmallerIsBefore(a: string, b: string, k: nat)
    requires k < |b| && k <= |a| && a[..k] == b[..k] && (k == |a| || a[k] < b[k])
    ensures Before(a, b)
  {
    if k > 0 {
      assert a[0] == a[..k][0] == b[..k][0] == b[0];
      assert a[1..][..k - 1] == a[..k][1..] && b[1..][..k - 1] == b[..k][1..];
      SmallerIsBefore(a[1..], b[1..], k - 1);
    }
  }

  predicate Ascending(s: seq<string>) {
    |s| <= 1 || (Before(s[0], s[1]) && Ascending(s[1..]))
  }

  function InsertWord(s: seq<string>, x: string): seq<string> {
    if s == [] || Before(x, s[0]) then [x] + s else [s[0]] + InsertWord(s[1..], x)
  }

  function SortWords(s: seq<string>): seq<string> {
    if s == [] then [] else InsertWord(SortWords(s[1..]), s[0])
  }

  lemma {:induction false} BeforeTransitive(a: string, b: string, c: string)
    requires Before(a, b) && Before(b, c)
    ensures Before(a, c)
  {
    if a != "" && a[0] == b[0] == c[0] {
      BeforeTransitive(a[1..], b[1..], c[1..]);
    }
  }

  lemma {:induction false} BeforeTotal(a: string, b: string)
    ensures Before(a, b) || Before(b, a) || a == b
    ensures !(Before(a, b) && Before(b, a)) && !Before(a, a)
  {
    if a != "" && b != "" {
      BeforeTotal(a[1..], b[1..]);
      assert a == [a[0]] + a[1..] && b == [b[0]] + b[1..];
    }
    if a != "" {
      BeforeTotal(a[1..], a[1..]);
    }
  }

  lemma {:induction false} FirstIsLeast(s: seq<string>, k: nat)
    requires Ascending(s) && 0 < k < |s|
    ensures Before(s[0], s[k])
  {
    if k > 1 {
      FirstIsLeast(s[1..], k - 1);
      BeforeTransitive(s[0], s[1], s[k]);
    }
  }

  lemma {:induction false} InsertAscends(s: seq<string>, x: string)
    requires Ascending(s) && x !in s
    ensures Ascending(InsertWord(s, x))
    ensures InsertWord(s, x) != [] && (InsertWord(s, x)[0] == x || (s != [] && InsertWord(s, x)[0] == s[0]))
  {
    if s == [] || Before(x, s[0]) {
      assert ([x] + s)[1..] == s;
    } else {
      InsertAscends(s[1..], x);
      BeforeTotal(x, s[0]);
      var r := InsertWord(s[1..], x);
      assert ([s[0]] + r)[1..] == r;
    }
  }

  lemma {:induction false} InsertMembers(s: seq<string>, x: string)
    ensures forall y :: y in InsertWord(s, x) <==> y == x || y in s
  {
    if s == [] || Before(x, s[0]) {
    } else {
      InsertMembers(s[1..], x);
      assert s == [s[0]] + s[1..];
    }
  }

  /** Sorting distinct strings puts exactly them in strictly ascending order. */
  lemma {:induction false} SortAscends(s: seq<string>)
    requires Distinct(s)
    ensures Ascending(SortWords(s))
    ensures forall y :: y in SortWords(s) <==> y in s
  {
    if s != [] {
      SortAscends(s[1..]);
      InsertAscends(SortWords(s[1..]), s[0]);
      InsertMembers(SortWords(s[1..]), s[0]);
      assert s == [s[0]] + s[1..];
    }
  }

  /** A strictly ascending list is determined by its members. */
  lemma {:induction false} AscendingIsUnique(s: seq<string>, t: seq<string>)
    requires Ascending(s) && Ascending(t)
    requires forall y :: y in s <==> y in t
    ensures s == t
  {
    if s != [] {
      assert s[0] in t;
    }
    if t != [] {
      assert t[0] in s;
      SameFirst(s, t);
      RestMembers(s);
      RestMembers(t);
      AscendingIsUnique(s[1..], t[1..]);
      assert s == [s[0]] + s[1..] && t == [t[0]] + t[1..];
    }
  }

  lemma SameFirst(s: seq<string>, t: seq<string>)
    requires Ascending(s) && Ascending(t) && s != [] && t != []
    requires forall y :: y in s <==> y in t
    ensures s[0] == t[0]
  {
    assert t[0] in s && s[0] in t;
    var i :| 0 <= i < |s| && s[i] == t[0];
    var k :| 0 <= k < |t| && t[k] == s[0];
    if i > 0 && k > 0 {
      FirstIsLeast(s, i);
      FirstIsLeast(t, k);
      BeforeTotal(s[0], t[0]);
    }
  }

  lemma RestMembers(s: seq<string>)
    requires Ascending(s) && s != []
    ensures forall y :: y in s[1..] <==> y in s && y != s[0]
  {
    assert s == [s[0]] + s[1..];
    forall k | 0 < k < |s| ensures s[k] != s[0] {
      FirstIsLeast(s, k);
      BeforeTotal(s[0], s[0]);
    }
  }

  // ----- merging the sources -----

  function AllDomains(texts: seq<string>): seq<string> {
    if texts == [] then [] else AllDomains(texts[..|texts| - 1]) + ParseDomains(texts[|texts| - 1])
  }

  /** The union of the lists, in the order printed. */
  function Merged(texts: seq<string>): seq<string> {
    SortWords(Plan.Unique(AllDomains(texts)))
  }

  lemma AllDomainsNext(texts: seq<string>, i: nat)
    requires i < |texts|
    ensures AllDomains(texts[..i + 1]) == AllDomains(texts[..i]) + ParseDomains(texts[i])
  {
    assert texts[..i + 1][..i] == texts[..i];
  }

  lemma UniqueNext(done: seq<string>, domains: seq<string>, n: nat)
    requires n < |domains|
    ensures var u := Plan.Unique(done + domains[..n]);
            Plan.Unique(done + domains[..n + 1]) == if domains[n] in u then u else u + [domains[n]]
  {
    var s := done + domains[..n + 1];
    assert s[..|s| - 1] == done + domains[..n];
  }

  method MergeDomains(results: seq<seq<string>>, ghost texts: seq<string>) returns (unique: seq<string>)
    requires |results| == |texts| && forall i :: 0 <= i < |texts| ==> results[i] == ParseDomains(texts[i])
    ensures unique == Merged(texts)
  {
    var merged: seq<string> := [];
    var i := 0;
    assert texts[..0] == [];
    while i < |results|
      invariant 0 <= i <= |results|
      invariant merged == Plan.Unique(AllDomains(texts[..i]))
    {
      var domains := results[i];
      ghost var done := AllDomains(texts[..i]);
      assert done + domains[..0] == done;
      AllDomainsNext(texts, i);
      var n := 0;
      while n < |domains|
        invariant 0 <= n <= |domains|
        invariant merged == Plan.Unique(done + domains[..n])
      {
        UniqueNext(done, domains, n);
        if domains[n] !in merged {
          merged := merged + [domains[n]];
        }
        n := n + 1;
      }
      assert domains[..n] == domains;
      i := i + 1;
    }
    assert texts[..i] == texts;
    unique := SortWords(merged);
  }

  /** The merged list is strictly ascending and holds exactly the domains of the sources. */
  lemma MergedIsTheUnion(texts: seq<string>)
    ensures Ascending(Merged(texts)) && AllClean(Merged(texts))
    ensures forall d :: d in Merged(texts) <==> exists i :: 0 <= i < |texts| && d in ParseDomains(texts[i])
  {
    Plan.UniqueLaw(AllDomains(texts));
    SortAscends(Plan.Unique(AllDomains(texts)));
    AllDomainsMembers(texts);
    forall k | 0 <= k < |Merged(texts)| ensures Clean(Merged(texts)[k]) {
      var d := Merged(texts)[k];
      assert d in AllDomains(texts);
      var i :| 0 <= i < |texts| && d in ParseDomains(texts[i]);
      ParsedIsClean(texts[i]);
    }
  }

  lemma {:induction false} InSomeSource(texts: seq<string>, d: string) returns (i: nat)
    requires d in AllDomains(texts)
    ensures i < |texts| && d in ParseDomains(texts[i])
  {
    i := |texts| - 1;
    if d in AllDomains(texts[..i]) {
      i := InSomeSource(texts[..i], d);
    }
  }

  lemma {:induction false} InAllDomains(texts: seq<string>, i: nat, d: string)
    requires i < |texts| && d in ParseDomains(texts[i])
    ensures d in AllDomains(texts)
  {
    if i < |texts| - 1 {
      InAllDomains(texts[..|texts| - 1], i, d);
    }
  }

  lemma AllDomainsMembers(texts: seq<string>)
    ensures forall d :: d in AllDomains(texts) <==> exists i :: 0 <= i < |texts| && d in ParseDomains(texts[i])
  {
    forall d ensures d in AllDomains(texts) <==> exists i :: 0 <= i < |texts| && d in ParseDomains(texts[i]) {
      if d in AllDomains(texts) {
        var i := InSomeSource(texts, d);
      }
      if i :| 0 <= i < |texts| && d in ParseDomains(texts[i]) {
        InAllDomains(texts, i, d);
      }
    }
  }
}
