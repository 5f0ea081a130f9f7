/** The list file: what a merge writes, when it writes, and what the service reads. */
module DisposableFile {
  import opened Results
  import opened Sequences
  import opened Text
  import opened DisposableList

  type Line = s: string | '\n' !in s witness ""

  /** A fixed line of the header. */
  type Comment = s: string | s != "" && s[0] == '#' && '\n' !in s witness "#"

  /**
   * The fixed wording of the header: the lines before the source addresses, between them
   * and the merge line, and after the counts, and the beginnings and middles of the two
   * lines that hold numbers.
   */
  datatype Prose = Prose(opening: seq<Comment>, middle: seq<Comment>, closing: seq<Comment>,
                         lastMerge: Comment, uniqueDomains: Line, overlap: Comment)

  /** One upstream list as fetched. */
  datatype Fetched = Fetched(name: Line, url: Line, text: string)

  function Texts(results: seq<Fetched>): seq<string> {
    seq(|results|, i requires 0 <= i < |results| => results[i].text)
  }

  function Counts(results: seq<Fetched>): seq<nat> {
    seq(|results|, i requires 0 <= i < |results| => |ParseDomains(results[i].text)|)
  }

  // ----- printing -----

  function Decimal(n: nat): string {
    if n < 10 then [('0' as int + n) as char] else Decimal(n / 10) + [('0' as int + n % 10) as char]
  }

  function Bullet(item: string): string {
    "    #   - " + item
  }

  function UrlLines(results: seq<Fetched>): seq<string> {
    seq(|results|, i requires 0 <= i < |results| => Bullet(results[i].url))
  }

  function CountLine(r: Fetched): string {
    Bullet(r.name + ": " + Decimal(|ParseDomains(r.text)|) + " (pre-dedup)")
  }

  function CountLines(results: seq<Fetched>): seq<string> {
    seq(|results|, i requires 0 <= i < |results| => CountLine(results[i]))
  }

  /** The lines that joining these gives: an empty one when there are none. */
  function Block(lines: seq<string>): seq<string> {
    if lines == [] then [""] else lines
  }

  function MergeLine(today: Line, n: nat, p: Prose): string {
    p.lastMerge + today + p.uniqueDomains + Decimal(n)
  }

  function OverlapLine(n: nat, p: Prose): string {
    p.overlap + Decimal(n) + "):"
  }

  function HeaderLines(results: seq<Fetched>, today: Line, p: Prose): seq<string> {
    var n := |Merged(Texts(results))|;
    Layout(p, Block(UrlLines(results)), MergeLine(today, n, p), OverlapLine(n, p), Block(CountLines(results)))
  }

  /** The header around its variable lines. */
  function Layout(p: Prose, urls: seq<string>, day: string, overlap: string, counts: seq<string>): seq<string> {
    p.opening + urls + p.middle + [day, overlap] + counts + p.closing
  }

  function Body(results: seq<Fetched>, today: Line, p: Prose): string {
    Join(HeaderLines(results, today, p), "\n") + "\n" + ("\n" + (Join(Merged(Texts(results)), "\n") + "\n"))
  }

  function FileLines(results: seq<Fetched>, today: Line, p: Prose): seq<string> {
    HeaderLines(results, today, p) + ([""] + (Block(Merged(Texts(results))) + [""]))
  }

  // ----- the lines of the file -----

  /** Lines joined, then a line break, then more: split again. */
  lemma {:induction false} SplitLines(lines: seq<string>, more: string)
    requires lines != [] && OneLineEach(lines)
    ensures Split(Join(lines, "\n") + "\n" + more, '\n') == lines + Split(more, '\n')
  {
    if |lines| == 1 {
      SplitFirst(lines[0], more, '\n');
    } else {
      var rest := Join(lines[1..], "\n") + "\n" + more;
      SplitLines(lines[1..], more);
      SplitFirst(lines[0], rest, '\n');
      JoinThen(lines, more);
      assert [lines[0]] + lines[1..] == lines;
      Assoc([lines[0]], lines[1..], Split(more, '\n'));
    }
  }

  lemma JoinThen(lines: seq<string>, more: string)
    requires |lines| > 1
    ensures Join(lines, "\n") + "\n" + more == lines[0] + "\n" + (Join(lines[1..], "\n") + "\n" + more)
  {
  }

  lemma {:induction false} DecimalDigits(n: nat)
    ensures Decimal(n) != "" && forall c :: c in Decimal(n) ==> '0' <= c <= '9'
  {
    if n >= 10 {
      DecimalDigits(n / 10);
    }
  }

  lemma BulletIsOneLine(item: string)
    requires '\n' !in item
    ensures '\n' !in Bullet(item)
  {
  }

  lemma MergeLinesAreComments(today: Line, n: nat, p: Prose)
    ensures var l := MergeLine(today, n, p); '\n' !in l && l != "" && l[0] == '#'
    ensures var l := OverlapLine(n, p); '\n' !in l && l != "" && l[0] == '#'
  {
    DecimalDigits(n);
  }

  /** A line that reading drops. */
  predicate Dropped(line: string) {
    '\n' !in line && Kept(line) == []
  }

  predicate AllDropped(lines: seq<string>) {
    forall i :: 0 <= i < |lines| ==> Dropped(lines[i])
  }

  lemma CommentIsDropped(line: string)
    requires line != "" && line[0] == '#' && '\n' !in line
    ensures Dropped(line)
  {
    TrimRightLaw(line);
    assert TrimLeft(line) == line;
  }

  lemma BulletIsDropped(item: string)
    requires '\n' !in item
    ensures Dropped(Bullet(item))
  {
    BulletIsOneLine(item);
    var line := "#   - " + item;
    SkipSpaces(line);
    assert Bullet(item) == "    " + line;
    TrimRightLaw(line);
  }

  lemma SkipSpaces(line: string)
    requires line != "" && line[0] == '#'
    ensures TrimLeft("    " + line) == line
  {
    SkipSpace("   " + line);
    SkipSpace("  " + line);
    SkipSpace(" " + line);
    SkipSpace(line);
    assert "    " + line == " " + ("   " + line);
    assert "   " + line == " " + ("  " + line);
    assert "  " + line == " " + (" " + line);
  }

  lemma SkipSpace(s: string)
    ensures TrimLeft(" " + s) == TrimLeft(s)
  {
    assert (" " + s)[1..] == s;
  }

  lemma HeaderIsDropped(results: seq<Fetched>, today: Line, p: Prose)
    ensures AllDropped(HeaderLines(results, today, p)) && HeaderLines(results, today, p) != []
  {
    var n := |Merged(Texts(results))|;
    MergeLinesAreComments(today, n, p);
    CommentIsDropped(MergeLine(today, n, p));
    CommentIsDropped(OverlapLine(n, p));
    ListsAreDropped(results);
    LayoutIsDropped(p, Block(UrlLines(results)), MergeLine(today, n, p), OverlapLine(n, p), Block(CountLines(results)));
  }

  lemma LayoutIsDropped(p: Prose, urls: seq<string>, day: string, overlap: string, counts: seq<string>)
    requires AllDropped(urls) && Dropped(day) && Dropped(overlap) && AllDropped(counts)
    ensures AllDropped(Layout(p, urls, day, overlap, counts)) && Layout(p, urls, day, overlap, counts) != []
  {
    CommentsAreDropped(p.opening);
    CommentsAreDropped(p.middle);
    CommentsAreDropped(p.closing);
    PartsDropped(p.opening, urls, p.middle, [day, overlap], counts, p.closing);
  }

  lemma PartsDropped(a: seq<string>, b: seq<string>, c: seq<string>, d: seq<string>, e: seq<string>, f: seq<string>)
    requires AllDropped(a) && AllDropped(b) && AllDropped(c) && AllDropped(d) && AllDropped(e) && AllDropped(f)
    ensures AllDropped(a + b + c + d + e + f)
  {
    DroppedConcat(a, b);
    DroppedConcat(a + b, c);
    DroppedConcat(a + b + c, d);
    DroppedConcat(a + b + c + d, e);
    DroppedConcat(a + b + c + d + e, f);
  }

  lemma DroppedConcat(a: seq<string>, b: seq<string>)
    requires AllDropped(a) && AllDropped(b)
    ensures AllDropped(a + b)
  {
  }

  lemma CommentsAreDropped(lines: seq<Comment>)
    ensures AllDropped(lines)
  {
    forall i | 0 <= i < |lines| ensures Dropped(lines[i]) {
      CommentIsDropped(lines[i]);
    }
  }

  lemma ListsAreDropped(results: seq<Fetched>)
    ensures AllDropped(Block(UrlLines(results))) && AllDropped(Block(CountLines(results)))
  {
    forall i | 0 <= i < |results| ensures Dropped(Bullet(results[i].url)) && Dropped(CountLine(results[i])) {
      BulletIsDropped(results[i].url);
      DecimalDigits(|ParseDomains(results[i].text)|);
      BulletIsDropped(results[i].name + ": " + Decimal(|ParseDomains(results[i].text)|) + " (pre-dedup)");
    }
  }

  lemma {:induction false} KeepDropped(lines: seq<string>)
    requires AllDropped(lines)
    ensures Keep(lines) == []
  {
    if lines != [] {
      KeepDropped(lines[1..]);
    }
  }

  /** The file consists of the header lines, an empty one, the domains, and an empty rest. */
  lemma BodyLines(results: seq<Fetched>, today: Line, p: Prose)
    ensures Split(Body(results, today, p), '\n') == FileLines(results, today, p)
  {
    var list := Merged(Texts(results));
    HeaderIsDropped(results, today, p);
    MergedIsTheUnion(Texts(results));
    SplitLines(HeaderLines(results, today, p), "\n" + (Join(list, "\n") + "\n"));
    SplitFirst("", Join(list, "\n") + "\n", '\n');
    assert "" + "\n" + (Join(list, "\n") + "\n") == "\n" + (Join(list, "\n") + "\n");
    ListLines(list);
  }

  lemma ListLines(list: seq<string>)
    requires AllClean(list)
    ensures Split(Join(list, "\n") + "\n", '\n') == Block(list) + [""]
  {
    if list == [] {
      assert Split("\n", '\n') == [""] + Split("", '\n');
    } else {
      SplitLines(list, "");
      assert Join(list, "\n") + "\n" + "" == Join(list, "\n") + "\n";
    }
  }

  /** Reading the written file back gives exactly the merged list: no header line leaks in, and no domain is lost. */
  lemma ReadBack(results: seq<Fetched>, today: Line, p: Prose)
    ensures ParseDomains(Body(results, today, p)) == Merged(Texts(results))
  {
    var list := Merged(Texts(results));
    BodyLines(results, today, p);
    HeaderIsDropped(results, today, p);
    KeepDropped(HeaderLines(results, today, p));
    MergedIsTheUnion(Texts(results));
    KeepList(list);
    KeepConcat(HeaderLines(results, today, p), [""] + (Block(list) + [""]));
  }

  lemma KeepList(list: seq<string>)
    requires AllClean(list)
    ensures Keep([""] + (Block(list) + [""])) == list
  {
    assert Dropped("");
    KeepDropped([""]);
    KeepConcat([""], Block(list) + [""]);
    KeepConcat(Block(list), [""]);
    KeepClean(list);
    assert list + [] == list;
  }

  // ----- equal files -----

  predicate SameSources(a: seq<Fetched>, b: seq<Fetched>) {
    |a| == |b| && forall i :: 0 <= i < |a| ==> a[i].name == b[i].name && a[i].url == b[i].url
  }

  /** The number a decimal numeral stands for. */
  function ValueOf(s: string): int {
    if s == "" then 0 else 10 * ValueOf(s[..|s| - 1]) + (s[|s| - 1] as int - '0' as int)
  }

  /** A printed number reads back as itself, without leading zeros. */
  lemma {:induction false} DecimalReadsBack(n: nat)
    ensures ValueOf(Decimal(n)) == n
    ensures Decimal(n) != "" && (Decimal(n)[0] == '0' ==> n == 0)
  {
    if n >= 10 {
      DecimalReadsBack(n / 10);
      assert Decimal(n)[..|Decimal(n)| - 1] == Decimal(n / 10);
      assert Decimal(n)[0] == Decimal(n / 10)[0];
    } else {
      assert ValueOf(Decimal(n)[..0]) == 0;
    }
  }

  lemma DecimalInjective(m: nat, n: nat)
    requires Decimal(m) == Decimal(n)
    ensures m == n
  {
    DecimalReadsBack(m);
    DecimalReadsBack(n);
  }

  lemma Cancel(a: string, x: string, y: string, b: string, c: string)
    requires a + x + b + c == a + y + b + c
    ensures x == y
  {
    var s, t := a + x + b + c, a + y + b + c;
    assert |x| == |y|;
    assert s[|a|..|a| + |x|] == x && t[|a|..|a| + |y|] == y;
  }

  lemma CancelFront(a: string, x: string, y: string)
    requires a + x == a + y
    ensures x == y
  {
    assert (a + x)[|a|..] == x && (a + y)[|a|..] == y;
  }

  lemma CountLineInjective(a: Fetched, b: Fetched)
    requires a.name == b.name && CountLine(a) == CountLine(b)
    ensures |ParseDomains(a.text)| == |ParseDomains(b.text)|
  {
    var x, y := Decimal(|ParseDomains(a.text)|), Decimal(|ParseDomains(b.text)|);
    CancelFront("    #   - ", a.name + ": " + x + " (pre-dedup)", b.name + ": " + y + " (pre-dedup)");
    CancelCount(a.name + ": ", x, y, " (pre-dedup)");
    DecimalInjective(|ParseDomains(a.text)|, |ParseDomains(b.text)|);
  }

  lemma CancelCount(a: string, x: string, y: string, b: string)
    requires a + x + b == a + y + b
    ensures x == y
  {
    assert a + x + b + "" == a + x + b && a + y + b + "" == a + y + b;
    Cancel(a, x, y, b, "");
  }

  /** Two merges of the same sources write the same file exactly when date, counts and union agree. */
  lemma SameBodies(a: seq<Fetched>, b: seq<Fetched>, today: Line, today': Line, p: Prose)
    requires SameSources(a, b)
    ensures Body(a, today, p) == Body(b, today', p) <==>
            today == today' && Counts(a) == Counts(b) && Merged(Texts(a)) == Merged(Texts(b))
  {
    if Body(a, today, p) == Body(b, today', p) {
      SameContent(a, b, today, today', p, Body(a, today, p));
    }
    if today == today' && Counts(a) == Counts(b) && Merged(Texts(a)) == Merged(Texts(b)) {
      SameLists(a, b);
    }
  }

  lemma SameContent(a: seq<Fetched>, b: seq<Fetched>, today: Line, today': Line, p: Prose, text: string)
    requires SameSources(a, b) && text == Body(a, today, p) && text == Body(b, today', p)
    ensures today == today' && Counts(a) == Counts(b) && Merged(Texts(a)) == Merged(Texts(b))
  {
    var n := ReadAll(a, today, p, text);
    var n' := ReadAll(b, today', p, text);
    SameNumbers(a, b, today, today', p, Split(text, '\n'), n);
    SameCounts(a, b);
  }

  lemma ReadAll(results: seq<Fetched>, today: Line, p: Prose, text: string) returns (n: nat)
    requires text == Body(results, today, p)
    ensures ParseDomains(text) == Merged(Texts(results)) && n == |ParseDomains(text)|
    ensures Numbered(Split(text, '\n'), NumbersAt(results, p), MergeLine(today, n, p), CountLines(results))
  {
    ReadBack(results, today, p);
    NumbersStand(results, today, p);
    n := |ParseDomains(text)|;
  }

  lemma SameNumbers(a: seq<Fetched>, b: seq<Fetched>, today: Line, today': Line, p: Prose, lines: seq<string>, n: nat)
    requires SameSources(a, b)
    requires Numbered(lines, NumbersAt(a, p), MergeLine(today, n, p), CountLines(a))
    requires Numbered(lines, NumbersAt(b, p), MergeLine(today', n, p), CountLines(b))
    ensures today == today' && CountLines(a) == CountLines(b)
  {
    assert NumbersAt(a, p) == NumbersAt(b, p);
    SameFields(lines, NumbersAt(a, p), MergeLine(today, n, p), CountLines(a), MergeLine(today', n, p), CountLines(b));
    SameDay(today, today', n, p);
  }

  lemma SameFields(lines: seq<string>, k: nat, day: string, counts: seq<string>, day': string, counts': seq<string>)
    requires Numbered(lines, k, day, counts) && Numbered(lines, k, day', counts') && |counts| == |counts'|
    ensures day == day' && counts == counts'
  {
  }

  /** The line of the day, and the lines of the counts. */
  predicate Numbered(lines: seq<string>, k: nat, day: string, counts: seq<string>) {
    k + 2 + |counts| <= |lines| && lines[k] == day && lines[k + 2..k + 2 + |counts|] == counts
  }

  lemma SameLists(a: seq<Fetched>, b: seq<Fetched>)
    requires SameSources(a, b) && Counts(a) == Counts(b)
    ensures UrlLines(a) == UrlLines(b) && CountLines(a) == CountLines(b)
  {
    forall i | 0 <= i < |a| ensures CountLine(a[i]) == CountLine(b[i]) {
      assert Counts(a)[i] == Counts(b)[i];
    }
  }

  lemma SameDay(today: Line, today': Line, n: nat, p: Prose)
    requires MergeLine(today, n, p) == MergeLine(today', n, p)
    ensures today == today'
  {
    Cancel(p.lastMerge, today, today', p.uniqueDomains, Decimal(n));
  }

  lemma SameCounts(a: seq<Fetched>, b: seq<Fetched>)
    requires SameSources(a, b) && CountLines(a) == CountLines(b)
    ensures Counts(a) == Counts(b)
  {
    forall i | 0 <= i < |a| ensures Counts(a)[i] == Counts(b)[i] {
      assert CountLines(a)[i] == CountLines(b)[i];
      CountLineInjective(a[i], b[i]);
    }
  }

  /** Where the first line with a number stands. */
  function NumbersAt(results: seq<Fetched>, p: Prose): nat {
    |p.opening| + |Block(UrlLines(results))| + |p.middle|
  }

  /** The domains of any of the source lists. */
  function Union(texts: seq<string>): set<string> {
    set i, d | 0 <= i < |texts| && d in ParseDomains(texts[i]) :: d
  }

  /** A strictly ascending list has as many members as places. */
  lemma {:induction false} AscendingSize(list: seq<string>)
    requires Ascending(list)
    ensures |set d | d in list| == |list|
  {
    if list != [] {
      AscendingSize(list[1..]);
      RestMembers(list);
      assert (set d | d in list) == {list[0]} + (set d | d in list[1..]);
    }
  }

  lemma MergedSize(texts: seq<string>)
    ensures |Merged(texts)| == |Union(texts)|
  {
    MergedIsTheUnion(texts);
    AscendingSize(Merged(texts));
    assert (set d | d in Merged(texts)) == Union(texts);
  }

  lemma NumbersStand(results: seq<Fetched>, today: Line, p: Prose)
    ensures Numbered(Split(Body(results, today, p), '\n'), NumbersAt(results, p),
                     MergeLine(today, |Merged(Texts(results))|, p), CountLines(results))
  {
    BodyLines(results, today, p);
    LinesAreNumbered(results, today, p);
  }

  lemma LinesAreNumbered(results: seq<Fetched>, today: Line, p: Prose)
    ensures Numbered(FileLines(results, today, p), NumbersAt(results, p),
                     MergeLine(today, |Merged(Texts(results))|, p), CountLines(results))
  {
    var list, counts := Merged(Texts(results)), CountLines(results);
    PartAt(p.opening + Block(UrlLines(results)) + p.middle, MergeLine(today, |list|, p), OverlapLine(|list|, p),
           counts, Block(counts), p.closing, [""] + (Block(list) + [""]));
  }

  lemma PartAt(a: seq<string>, day: string, other: string, c: seq<string>, block: seq<string>, d: seq<string>, e: seq<string>)
    requires c <= block
    ensures Numbered(a + [day, other] + block + d + e, |a|, day, c)
  {
    var all := a + [day, other] + block + d + e;
    assert all[|a| + 2..|a| + 2 + |c|] == block[..|c|];
  }

  // ----- one merge -----

  datatype Report = Report(changed: bool, uniqueCount: nat, counts: seq<nat>)

  /** `digest(previous) === digest(body)`, where a missing file reads as the empty text. */
  predicate UpToDate(file: Option<string>, body: string, digest: string -> string) {
    digest(if file.Some? then file.value else "") == digest(body)
  }

  /** The file and the report after one merge. */
  function Merge(file: Option<string>, results: seq<Fetched>, today: Line, p: Prose, digest: string -> string): (Option<string>, Report) {
    var unique, body := Merged(Texts(results)), Body(results, today, p);
    if UpToDate(file, body, digest) then (file, Report(false, |unique|, Counts(results)))
    else (Some(body), Report(true, |unique|, Counts(results)))
  }

  /** Whatever the digest does, merging the same lists again on the same day changes nothing. */
  lemma MergeAgain(file: Option<string>, results: seq<Fetched>, today: Line, p: Prose, digest: string -> string)
    ensures var (once, _) := Merge(file, results, today, p, digest);
            var (twice, report) := Merge(once, results, today, p, digest);
            twice == once && !report.changed
  {
  }

  /** The digest tells the file at hand from the new text. */
  predicate Tells(digest: string -> string, file: Option<string>, body: string) {
    digest(if file == None then "" else file.value) == digest(body) ==> file == Some(body)
  }

  /**
   * On a file a merge of the same sources wrote, and with a digest that tells the two
   * texts apart, a merge reports a change exactly when the date, the number of domains of
   * some source, or the union is another.
   */
  lemma ChangedExactly(past: seq<Fetched>, before: Line, results: seq<Fetched>, today: Line, p: Prose, digest: string -> string)
    requires SameSources(past, results)
    ensures var file := Some(Body(past, before, p));
            Tells(digest, file, Body(results, today, p)) ==>
              (Merge(file, results, today, p, digest).1.changed <==>
                 before != today || Counts(past) != Counts(results) || Merged(Texts(past)) != Merged(Texts(results)))
  {
    SameBodies(past, results, before, today, p);
  }

  /** What a merge reports of its sources: how many different domains they name together, and how many lines of each name one. */
  lemma ReportCounts(file: Option<string>, results: seq<Fetched>, today: Line, p: Prose, digest: string -> string)
    ensures var report := Merge(file, results, today, p, digest).1;
            && report.uniqueCount == |Union(Texts(results))|
            && |report.counts| == |results|
            && (forall i :: 0 <= i < |results| ==> report.counts[i] == |ParseDomains(results[i].text)|)
  {
    MergedSize(Texts(results));
  }

  /** A merge reports a change exactly when the file was not already the new text, which it is then, if the digest tells the two apart. */
  lemma ReportedChange(file: Option<string>, results: seq<Fetched>, today: Line, p: Prose, digest: string -> string)
    ensures var (file', report) := Merge(file, results, today, p, digest);
            Tells(digest, file, Body(results, today, p)) ==>
              file' == Some(Body(results, today, p)) && (report.changed <==> file != file')
  {
    var body := Body(results, today, p);
    assert file == Some(body) ==> UpToDate(file, body, digest);
  }

  // ----- the reader -----

  function DomainsOf(text: string): set<string> {
    set d | d in ParseDomains(text)
  }

  /** The union of the files that can be read. */
  function Loaded(files: seq<Option<string>>): set<string> {
    if files == [] then {}
    else Loaded(files[..|files| - 1]) + if files[|files| - 1].Some? then DomainsOf(files[|files| - 1].value) else {}
  }

  const BUILTIN: set<string> := {
    "mailinator.com", "guerrillamail.com", "yopmail.com", "tempmail.com",
    "10minutemail.com", "trashmail.com", "getnada.com", "disposable.com"}

  class DisposableDomains {
    var fileLoaded: set<string>

    constructor ()
      ensures fileLoaded == {}
    {
      fileLoaded := {};
    }

    method ReadDisposableFiles(files: seq<Option<string>>)
      modifies this
      ensures fileLoaded == Loaded(files)
    {
      fileLoaded := {};
      var i := 0;
      while i < |files|
        invariant 0 <= i <= |files|
        invariant fileLoaded == Loaded(files[..i])
      {
        assert files[..i + 1][..i] == files[..i];
        if files[i].Some? {
          AddLines(Split(files[i].value, '\n'));
        }
        i := i + 1;
      }
      assert files[..i] == files;
    }

    /** The inner loop: every line of one file. */
    method AddLines(lines: seq<string>)
      modifies this
      ensures fileLoaded == old(fileLoaded) + set d | d in Keep(lines)
    {
      var i := 0;
      while i < |lines|
        invariant 0 <= i <= |lines|
        invariant fileLoaded == old(fileLoaded) + set d | d in Keep(lines[..i])
      {
        KeepNext(lines, i);
        var d := Lower(Trim(lines[i]));
        if d != "" && d[0] != '#' {
          fileLoaded := fileLoaded + {d};
        }
        i := i + 1;
      }
      assert lines[..i] == lines;
    }

    predicate IsDisposableDomain(domain: string)
      reads this
    {
      Listed(fileLoaded, domain)
    }
  }

  predicate Listed(loaded: set<string>, domain: string) {
    Lower(domain) in BUILTIN || Lower(domain) in loaded
  }

  /** A domain is disposable, whatever its case, when it is one of the eight built in or one that was loaded. */
  lemma ListedExactly(loaded: set<string>, domain: string)
    ensures Listed(loaded, domain) <==>
            exists d :: InLowerCase(d, domain) &&
                        (d in loaded || d in {"mailinator.com", "guerrillamail.com", "yopmail.com", "tempmail.com",
                                              "10minutemail.com", "trashmail.com", "getnada.com", "disposable.com"})
  {
    LowerLaw(domain, domain);
    forall d | InLowerCase(d, domain) ensures d == Lower(domain) {
      LowerLaw(d, domain);
      LowerLaw(d, d);
    }
  }

  lemma KeepNext(lines: seq<string>, i: nat)
    requires i < |lines|
    ensures Keep(lines[..i + 1]) == Keep(lines[..i]) + Kept(lines[i])
  {
    assert lines[..i + 1] == lines[..i] + [lines[i]];
    KeepConcat(lines[..i], [lines[i]]);
    assert Keep([lines[i]]) == Kept(lines[i]) + [];
  }

  /**
   * Merge, then load. The file holds the new text exactly when the digest tells the old
   * file from it; the loaded set is then exactly the union of the source lists and of
   * the additional file.
   */
  lemma MergeThenLoad(file: Option<string>, results: seq<Fetched>, today: Line, p: Prose, digest: string -> string, extra: Option<string>)
    ensures var body, file' := Body(results, today, p), Merge(file, results, today, p, digest).0;
            && (file' == Some(body) <==> Tells(digest, file, body))
            && (file' == Some(body) ==>
                  Loaded([file', extra]) == Union(Texts(results)) + if extra.Some? then DomainsOf(extra.value) else {})
  {
    var text := Body(results, today, p);
    LoadedTwo(Some(text), extra);
    assert DomainsOf(text) == Union(Texts(results)) by {
      ReadBack(results, today, p);
      MergedIsTheUnion(Texts(results));
    }
  }

  lemma LoadedTwo(a: Option<string>, b: Option<string>)
    ensures Loaded([a, b]) == Loaded([a]) + (if b.Some? then DomainsOf(b.value) else {})
    ensures Loaded([a]) == if a.Some? then DomainsOf(a.value) else {}
  {
    assert [a, b][..1] == [a];
    assert [a][..0] == [];
  }
}
