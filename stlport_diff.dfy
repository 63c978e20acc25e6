/** The unified-diff applier used to patch STLport: the diff is split into
    per-file patches, each patch into hunks headed `@@ -a,b +c,d @@`, and
    each hunk is applied to the file's lines when its context and removed
    lines match, all or nothing. Files are sequences of lines as
    `readlines` returns them (each with its line break); which file a
    patch is for, whether it can be read and whether writing it succeeds
    are inputs. Python's list slicing and indexing are written out, down to
    the index -1 that a hunk starting at line 0 produces. */
module StlportDiff {
  import opened Basics
  import opened Text

  // ---- Python string helpers ----

  /** `str.isspace` on one character: the ASCII controls tab to carriage
      return and file to unit separator, space, and the Unicode spaces and
      line and paragraph separators. */
  predicate IsPyWhitespace(c: char) {
    ('\t' <= c <= '\r') || ('\U{1C}' <= c <= ' ') || c == '\U{85}' || c == '\U{A0}' || c == '\U{1680}'
    || ('\U{2000}' <= c <= '\U{200A}') || c == '\U{2028}' || c == '\U{2029}' || c == '\U{202F}'
    || c == '\U{205F}' || c == '\U{3000}'
  }

  /** `s.rstrip()`. */
  function RStrip(s: string): string {
    if s == [] || !IsPyWhitespace(s[|s| - 1]) then s else RStrip(s[..|s| - 1])
  }

  /** What `rstrip` leaves is a prefix of the string. */
  lemma {:induction false} RStripPrefix(s: string)
    ensures |RStrip(s)| <= |s| && RStrip(s) == s[..|RStrip(s)|]
    decreases |s|
  {
    if s != [] && IsPyWhitespace(s[|s| - 1]) {
      var front := s[..|s| - 1];
      RStripPrefix(front);
      assert s[..|RStrip(s)|] == front[..|RStrip(s)|];
    }
  }

  /** What `rstrip` leaves does not end in whitespace. */
  lemma {:induction false} RStripEnd(s: string)
    ensures RStrip(s) == [] || !IsPyWhitespace(RStrip(s)[|RStrip(s)| - 1])
    decreases |s|
  {
    if s != [] && IsPyWhitespace(s[|s| - 1]) {
      RStripEnd(s[..|s| - 1]);
    }
  }

  /** What `rstrip` removes is all whitespace. */
  lemma {:induction false} RStripTail(s: string)
    ensures |RStrip(s)| <= |s|
    ensures forall k :: |RStrip(s)| <= k < |s| ==> IsPyWhitespace(s[k])
    decreases |s|
  {
    if s != [] && IsPyWhitespace(s[|s| - 1]) {
      var front := s[..|s| - 1];
      RStripTail(front);
      assert forall k :: |RStrip(s)| <= k < |front| ==> s[k] == front[k];
    }
  }

  /** `s.lstrip()`. */
  function LStrip(s: string): (r: string)
    ensures |r| <= |s| && r == s[|s| - |r|..]
    ensures r == [] || !IsPyWhitespace(r[0])
  {
    if s == [] || !IsPyWhitespace(s[0]) then s else LStrip(s[1..])
  }

  /** `s[n:]`, which is empty when `s` is shorter. */
  function Drop(s: string, n: nat): string {
    if |s| <= n then [] else s[n..]
  }

  // ---- splitting the diff into patches ----

  /** The file a `--- ` line names: `line.strip().split('\t')[0][4:]`. */
  function PathOf(line: string): string {
    Drop(UpTo(LStrip(RStrip(line)), '\t'), 4)
  }

  /** A line a patch keeps: a hunk header, context, addition or removal. */
  predicate InPatch(line: string) {
    StartsWith(line, "@@") || StartsWith(line, " ") || StartsWith(line, "+") || StartsWith(line, "-")
  }

  predicate IsFileHeader(line: string) { StartsWith(line, "--- ") }

  /** The lines of `ls` a patch keeps, in order. */
  function Body(ls: seq<string>): (r: seq<string>)
    ensures |r| <= |ls|
    ensures forall k :: 0 <= k < |r| ==> InPatch(r[k]) && r[k] in ls
  {
    if ls == [] then [] else Body(ls[..|ls| - 1]) + (if InPatch(ls[|ls| - 1]) then [ls[|ls| - 1]] else [])
  }

  lemma BodySnoc(lines: seq<string>, a: nat, b: nat)
    requires a <= b < |lines|
    ensures Body(lines[a..b + 1]) == Body(lines[a..b]) + if InPatch(lines[b]) then [lines[b]] else []
  {
    assert lines[a..b + 1][..b - a] == lines[a..b];
  }

  /** The index of the next `--- ` line at or after `j`, or the end. */
  function HeaderEnd(lines: seq<string>, j: nat): (k: nat)
    requires j <= |lines|
    ensures j <= k <= |lines|
    ensures forall q :: j <= q < k ==> !IsFileHeader(lines[q])
    ensures k < |lines| ==> IsFileHeader(lines[k])
    decreases |lines| - j
  {
    if j == |lines| || IsFileHeader(lines[j]) then j else HeaderEnd(lines, j + 1)
  }

  /** One entry of the `patches` dictionary. */
  datatype Patch = Patch(path: string, lines: seq<string>)

  /** The position of the entry for `path`, or `|ps|` when there is none. */
  function IndexOfPath(ps: seq<Patch>, path: string): (k: nat)
    ensures k <= |ps|
    ensures k < |ps| ==> ps[k].path == path
    ensures forall j :: 0 <= j < k ==> ps[j].path != path
  {
    if ps == [] then 0
    else if ps[0].path == path then 0
    else 1 + IndexOfPath(ps[1..], path)
  }

  /** `patches[path] = lines`: a key already present keeps its place and
      takes the new lines; a new key goes last. */
  function Put(ps: seq<Patch>, p: Patch): seq<Patch> {
    var k := IndexOfPath(ps, p.path);
    if k < |ps| then ps[k := p] else ps + [p]
  }

  predicate UniquePaths(ps: seq<Patch>) {
    forall i, j :: 0 <= i < j < |ps| ==> ps[i].path != ps[j].path
  }

  /** As a dictionary assignment: the entry for the key now holds the new
      patch, every other entry is untouched and in place, the key is new
      exactly when the dictionary grows, and keys stay distinct. */
  lemma PutIsAssignment(ps: seq<Patch>, p: Patch)
    requires UniquePaths(ps)
    ensures UniquePaths(Put(ps, p))
    ensures p in Put(ps, p)
    ensures forall k :: 0 <= k < |ps| ==> Put(ps, p)[k] == if ps[k].path == p.path then p else ps[k]
    ensures |Put(ps, p)| == if (exists k :: 0 <= k < |ps| && ps[k].path == p.path) then |ps| else |ps| + 1
  {
    var k := IndexOfPath(ps, p.path);
    var r := Put(ps, p);
    if k < |ps| {
      assert r[k] == p;
    } else {
      assert r[|ps|] == p;
    }
  }

  /** What `parse_diff_file` adds to `acc` from line `i` on: a `--- ` line
      followed by a `+++ ` line starts a patch that runs to the next `--- `
      line; a `--- ` line followed by anything else is dropped together
      with the line after it; every other line is passed over. */
  function ParseFrom(lines: seq<string>, i: nat, acc: seq<Patch>): seq<Patch>
    decreases |lines| - i
  {
    if i >= |lines| then acc
    else if !IsFileHeader(lines[i]) then ParseFrom(lines, i + 1, acc)
    else if i + 1 < |lines| && StartsWith(lines[i + 1], "+++ ") then
      var p := PatchAt(lines, i);
      ParseFrom(lines, HeaderEnd(lines, i + 2), if p.path != [] then Put(acc, p) else acc)
    else ParseFrom(lines, i + 2, acc)
  }

  function ParseDiff(lines: seq<string>): seq<Patch> {
    ParseFrom(lines, 0, [])
  }

  /** Every patch starts with its `--- ` and `+++ ` lines, names the file
      of its `--- ` line (never empty), and holds nothing else but hunk
      headers, context, additions and removals, none of them a `--- `
      line. */
  predicate WellFormed(p: Patch) {
    && |p.lines| >= 2
    && IsFileHeader(p.lines[0]) && StartsWith(p.lines[1], "+++ ")
    && p.path == PathOf(p.lines[0]) && p.path != []
    && CleanLines(p.lines[2..])
  }

  /** Hunk headers, context, additions and removals only, no `--- ` line. */
  predicate CleanLines(ls: seq<string>) {
    forall k :: 0 <= k < |ls| ==> InPatch(ls[k]) && !IsFileHeader(ls[k])
  }

  /** The lines a patch keeps up to the next `--- ` line are clean. */
  lemma BodyClean(lines: seq<string>, j: nat)
    requires j <= |lines|
    ensures CleanLines(Body(lines[j..HeaderEnd(lines, j)]))
  {
    var slice := lines[j..HeaderEnd(lines, j)];
    var body := Body(slice);
    forall k | 0 <= k < |body|
      ensures InPatch(body[k]) && !IsFileHeader(body[k])
    {
      var q :| 0 <= q < |slice| && slice[q] == body[k];
      assert slice[q] == lines[j + q];
    }
  }

  /** The patch a `--- `/`+++ ` pair at `i` starts. */
  function PatchAt(lines: seq<string>, i: nat): Patch
    requires i + 1 < |lines|
  {
    Patch(PathOf(lines[i]), [lines[i], lines[i + 1]] + Body(lines[i + 2..HeaderEnd(lines, i + 2)]))
  }

  lemma PatchAtWellFormed(lines: seq<string>, i: nat)
    requires i + 1 < |lines| && IsFileHeader(lines[i]) && StartsWith(lines[i + 1], "+++ ")
    requires PathOf(lines[i]) != []
    ensures WellFormed(PatchAt(lines, i))
  {
    var body := Body(lines[i + 2..HeaderEnd(lines, i + 2)]);
    var patch := [lines[i], lines[i + 1]] + body;
    BodyClean(lines, i + 2);
    assert patch[2..] == body;
  }

  predicate AllWellFormed(ps: seq<Patch>) {
    forall k :: 0 <= k < |ps| ==> WellFormed(ps[k])
  }

  lemma PutWellFormed(ps: seq<Patch>, p: Patch)
    requires UniquePaths(ps) && AllWellFormed(ps) && WellFormed(p)
    ensures UniquePaths(Put(ps, p)) && AllWellFormed(Put(ps, p))
  {
    PutIsAssignment(ps, p);
    var r := Put(ps, p);
    forall k | 0 <= k < |r|
      ensures WellFormed(r[k])
    {
      if k < |ps| {
        assert r[k] == if ps[k].path == p.path then p else ps[k];
      } else {
        assert r == ps + [p];
      }
    }
  }

  lemma {:induction false} ParseFromWellFormed(lines: seq<string>, i: nat, acc: seq<Patch>)
    requires UniquePaths(acc) && AllWellFormed(acc)
    ensures UniquePaths(ParseFrom(lines, i, acc)) && AllWellFormed(ParseFrom(lines, i, acc))
    decreases |lines| - i
  {
    if i < |lines| {
      if !IsFileHeader(lines[i]) {
        ParseFromWellFormed(lines, i + 1, acc);
      } else if i + 1 < |lines| && StartsWith(lines[i + 1], "+++ ") {
        var end := HeaderEnd(lines, i + 2);
        var p := PatchAt(lines, i);
        if p.path != [] {
          PatchAtWellFormed(lines, i);
          PutWellFormed(acc, p);
          ParseFromWellFormed(lines, end, Put(acc, p));
        } else {
          ParseFromWellFormed(lines, end, acc);
        }
      } else {
        ParseFromWellFormed(lines, i + 2, acc);
      }
    }
  }

  /** The patches of a diff are well formed and name distinct files. */
  lemma PatchesWellFormed(lines: seq<string>)
    ensures UniquePaths(ParseDiff(lines))
    ensures AllWellFormed(ParseDiff(lines))
  {
    ParseFromWellFormed(lines, 0, []);
  }

  /** A `--- ` line without its `+++ ` line yields nothing, and the line
      after it is not looked at, even when it is itself a `--- ` line. */
  lemma UnpairedHeaderSkipsNext(lines: seq<string>, i: nat, acc: seq<Patch>)
    requires i < |lines| && IsFileHeader(lines[i])
    requires i + 1 == |lines| || !StartsWith(lines[i + 1], "+++ ")
    ensures ParseFrom(lines, i, acc) == ParseFrom(lines, i + 2, acc)
  {
  }

  /** The inner loop of `parse_diff_file`: the lines a patch keeps from
      `start` up to the next `--- ` line, and where that line is. */
  method ReadPatchBody(lines: seq<string>, start: nat) returns (kept: seq<string>, end: nat)
    requires start <= |lines|
    ensures end == HeaderEnd(lines, start)
    ensures kept == Body(lines[start..end])
  {
    kept := [];
    end := start;
    while end < |lines| && !IsFileHeader(lines[end])
      invariant start <= end <= |lines|
      invariant HeaderEnd(lines, end) == HeaderEnd(lines, start)
      invariant kept == Body(lines[start..end])
    {
      BodySnoc(lines, start, end);
      if InPatch(lines[end]) {
        kept := kept + [lines[end]];
      }
      end := end + 1;
    }
  }

  lemma PairedHeaderStep(lines: seq<string>, i: nat, acc: seq<Patch>)
    requires i + 1 < |lines| && IsFileHeader(lines[i]) && StartsWith(lines[i + 1], "+++ ")
    ensures ParseFrom(lines, i, acc)
         == ParseFrom(lines, HeaderEnd(lines, i + 2), if PatchAt(lines, i).path != [] then Put(acc, PatchAt(lines, i)) else acc)
  {
  }

  /** `parse_diff_file` over the file's lines. */
  method ParseDiffFile(lines: seq<string>) returns (patches: seq<Patch>)
    ensures patches == ParseDiff(lines)
  {
    patches := [];
    var i := 0;
    while i < |lines|
      invariant i <= |lines| + 1
      invariant ParseFrom(lines, i, patches) == ParseDiff(lines)
      decreases |lines| + 1 - i
    {
      if !IsFileHeader(lines[i]) {
        i := i + 1;
      } else if i + 1 < |lines| && StartsWith(lines[i + 1], "+++ ") {
        var filePath := PathOf(lines[i]);
        var kept, end := ReadPatchBody(lines, i + 2);
        var currentPatch := [lines[i], lines[i + 1]] + kept;
        PairedHeaderStep(lines, i, patches);
        if filePath != [] && currentPatch != [] {
          patches := Put(patches, Patch(filePath, currentPatch));
        }
        i := end;
      } else {
        i := i + 2;
      }
    }
  }

  // ---- hunk headers ----

  /** The four numbers of a `@@ -a,b +c,d @@` header. */
  datatype Range = Range(oldStart: nat, oldCount: nat, newStart: nat, newCount: nat)

  /** The text after `lit` when `s` starts with it. */
  function Expect(s: string, lit: string): Option<string> {
    if StartsWith(s, lit) then Some(s[|lit|..]) else None
  }

  /** A non-empty run of digits at the start of `s`, `int()` of it, and
      the text after it. The run is taken whole: in the pattern each run is
      followed by a non-digit, so a shorter run never leads to a match. */
  function Number(s: string): Option<(nat, string)> {
    var n := DigitRun(s, 0);
    if n == 0 then None else Some((DecimalValue(s[..n]), s[n..]))
  }

  /** `(\d+),(\d+)` at the start of `s`, and the text after it. */
  function Pair(s: string): Option<(nat, nat, string)> {
    match Number(s)
    case None => None
    case Some((a, s1)) =>
      match Expect(s1, ",")
      case None => None
      case Some(s2) =>
        match Number(s2)
        case None => None
        case Some((b, s3)) => Some((a, b, s3))
  }

  /** `@@ -(\d+),(\d+) \+(\d+),(\d+) @@` matched at the start of `s`. */
  function RangeAtStart(s: string): Option<Range> {
    match Expect(s, "@@ -")
    case None => None
    case Some(s1) =>
      match Pair(s1)
      case None => None
      case Some((a, b, s2)) =>
        match Expect(s2, " +")
        case None => None
        case Some(s3) =>
          match Pair(s3)
          case None => None
          case Some((c, d, s4)) =>
            if Expect(s4, " @@").Some? then Some(Range(a, b, c, d)) else None
  }

  /** `re.search`: the match at the leftmost position where there is one. */
  function SearchHeader(line: string, p: nat): Option<Range>
    decreases |line| - p
  {
    if p >= |line| then None
    else if RangeAtStart(line[p..]).Some? then RangeAtStart(line[p..])
    else SearchHeader(line, p + 1)
  }

  /** A header line as a diff tool writes it for a range, followed by
      `rest` (a function context, the line break). */
  function HeaderText(r: Range, rest: string): string {
    "@@ -" + (NatToString(r.oldStart) + ("," + (NatToString(r.oldCount) + (" +"
      + (NatToString(r.newStart) + ("," + (NatToString(r.newCount) + (" @@" + rest))))))))
  }

  lemma ExpectLiteral(lit: string, rest: string)
    ensures Expect(lit + rest, lit) == Some(rest)
  {
    assert (lit + rest)[..|lit|] == lit;
    assert (lit + rest)[|lit|..] == rest;
  }

  lemma {:induction false} DigitRunOfPrefix(t: string, rest: string)
    requires AllDigits(t) && (rest == [] || !IsDigit(rest[0]))
    ensures DigitRun(t + rest, 0) == |t|
    decreases |t|
  {
    if t != [] {
      DigitRunOfPrefix(t[1..], rest);
      DigitRunShift(t + rest, 1);
      assert (t + rest)[1..] == t[1..] + rest;
    }
  }

  lemma {:induction false} DigitRunShift(s: string, i: nat)
    requires i <= |s|
    ensures DigitRun(s, i) == DigitRun(s[i..], 0)
    decreases |s| - i
  {
    if i < |s| && IsDigit(s[i]) {
      DigitRunShift(s, i + 1);
      assert s[i..][1..] == s[i + 1..];
      DigitRunShift(s[i..], 1);
    }
  }

  /** A rendered number followed by a non-digit reads back. */
  lemma NumberLiteral(n: nat, rest: string)
    requires rest == [] || !IsDigit(rest[0])
    ensures Number(NatToString(n) + rest) == Some((n, rest))
  {
    var t := NatToString(n);
    DigitRunOfPrefix(t, rest);
    assert (t + rest)[..|t|] == t;
    assert (t + rest)[|t|..] == rest;
    DecimalRoundTrip(n);
  }

  /** Two rendered numbers and a comma between them read back. */
  lemma PairLiteral(a: nat, b: nat, rest: string)
    requires rest == [] || !IsDigit(rest[0])
    ensures Pair(NatToString(a) + ("," + (NatToString(b) + rest))) == Some((a, b, rest))
  {
    NumberLiteral(a, "," + (NatToString(b) + rest));
    ExpectLiteral(",", NatToString(b) + rest);
    NumberLiteral(b, rest);
  }

  /** The line written for a range reads back as that range, whatever
      follows it on the line. */
  lemma HeaderRoundTrip(r: Range, rest: string)
    ensures SearchHeader(HeaderText(r, rest), 0) == Some(r)
  {
    var newPart := NatToString(r.newStart) + ("," + (NatToString(r.newCount) + (" @@" + rest)));
    var oldPart := NatToString(r.oldStart) + ("," + (NatToString(r.oldCount) + (" +" + newPart)));
    ExpectLiteral("@@ -", oldPart);
    PairLiteral(r.oldStart, r.oldCount, " +" + newPart);
    ExpectLiteral(" +", newPart);
    PairLiteral(r.newStart, r.newCount, " @@" + rest);
    ExpectLiteral(" @@", rest);
    SliceFromZero(HeaderText(r, rest));
  }

  lemma SliceFromZero(s: string)
    ensures s[0..] == s
  {
  }

  // ---- collecting hunks ----

  datatype Hunk = Hunk(range: Range, lines: seq<string>)

  /** A `@@` line the header pattern matches. */
  predicate IsHunkHeader(line: string) {
    StartsWith(line, "@@") && SearchHeader(line, 0).Some?
  }

  /** The hunks gathered so far: `current_hunk`, the one lines go to, is
      the last element of `hunks`, kept apart here. */
  datatype Gathered = Gathered(closed: seq<Hunk>, current: Option<Hunk>)

  function HunksOf(g: Gathered): seq<Hunk> {
    g.closed + match g.current case Some(h) => [h] case None => []
  }

  /** One step of the loop in `apply_patch` that gathers hunks: a matching
      header opens a new hunk, any other `@@` line is dropped, and every
      other line joins the open hunk (there is none before the first
      header). */
  function CollectStep(g: Gathered, line: string): Gathered {
    if StartsWith(line, "@@") then
      match SearchHeader(line, 0)
        case Some(r) => Gathered(HunksOf(g), Some(Hunk(r, [])))
        case None => g
    else match g.current
      case Some(h) => g.(current := Some(h.(lines := h.lines + [line])))
      case None => g
  }

  function Gather(ls: seq<string>): Gathered {
    if ls == [] then Gathered([], None) else CollectStep(Gather(ls[..|ls| - 1]), ls[|ls| - 1])
  }

  function Collect(ls: seq<string>): seq<Hunk> {
    HunksOf(Gather(ls))
  }

  lemma GatherSnoc(ls: seq<string>, line: string)
    ensures Gather(ls + [line]) == CollectStep(Gather(ls), line)
  {
    assert (ls + [line])[..|ls|] == ls;
  }

  /** Lines that are not `@@` lines all join the open hunk. */
  lemma {:induction false} BodyJoinsOpenHunk(ls: seq<string>, body: seq<string>)
    requires Gather(ls).current.Some?
    requires forall k :: 0 <= k < |body| ==> !StartsWith(body[k], "@@")
    ensures var g := Gather(ls); var h := g.current.value;
      Gather(ls + body) == g.(current := Some(h.(lines := h.lines + body)))
    decreases |body|
  {
    var g := Gather(ls);
    var h := g.current.value;
    if body == [] {
      assert ls + body == ls;
      assert h.lines + body == h.lines;
    } else {
      var front := body[..|body| - 1];
      var line := body[|body| - 1];
      BodyJoinsOpenHunk(ls, front);
      assert ls + body == (ls + front) + [line];
      GatherSnoc(ls + front, line);
      assert h.lines + front + [line] == h.lines + body;
    }
  }

  /** Before the first matching header nothing is gathered. */
  lemma {:induction false} NoHeaderNoHunks(ls: seq<string>)
    requires forall k :: 0 <= k < |ls| ==> !IsHunkHeader(ls[k])
    ensures Gather(ls) == Gathered([], None)
  {
    if ls != [] {
      NoHeaderNoHunks(ls[..|ls| - 1]);
    }
  }

  /** A `@@` line the pattern does not match is dropped: the lines after
      it go on joining the hunk before it. */
  lemma BadHeaderDropped(ls: seq<string>, line: string)
    requires StartsWith(line, "@@") && !IsHunkHeader(line)
    ensures Gather(ls + [line]) == Gather(ls)
  {
    GatherSnoc(ls, line);
  }

  /** The text of a hunk: its header line and then its lines. */
  function HunkText(h: Hunk): seq<string> {
    [HeaderText(h.range, [])] + h.lines
  }

  function HunksText(hs: seq<Hunk>): seq<string> {
    if hs == [] then [] else HunksText(hs[..|hs| - 1]) + HunkText(hs[|hs| - 1])
  }

  predicate PlainHunk(h: Hunk) {
    forall k :: 0 <= k < |h.lines| ==> !StartsWith(h.lines[k], "@@")
  }

  lemma HeaderOpensHunk(ls: seq<string>, r: Range)
    ensures Gather(ls + [HeaderText(r, [])]) == Gathered(Collect(ls), Some(Hunk(r, [])))
  {
    GatherSnoc(ls, HeaderText(r, []));
    HeaderRoundTrip(r, []);
  }

  /** A hunk written out after any lines is gathered as the last hunk. */
  lemma AppendHunkText(pre: seq<string>, h: Hunk)
    requires PlainHunk(h)
    ensures Collect(pre + HunkText(h)) == Collect(pre) + [h]
  {
    var started := pre + [HeaderText(h.range, [])];
    HeaderOpensHunk(pre, h.range);
    BodyJoinsOpenHunk(started, h.lines);
    assert pre + HunkText(h) == started + h.lines;
    assert [] + h.lines == h.lines;
  }

  lemma HunksTextSnoc(junk: seq<string>, hs: seq<Hunk>)
    requires hs != []
    ensures junk + HunksText(hs) == (junk + HunksText(hs[..|hs| - 1])) + HunkText(hs[|hs| - 1])
  {
    var front, last := HunksText(hs[..|hs| - 1]), HunkText(hs[|hs| - 1]);
    assert HunksText(hs) == front + last;
    ConcatAssoc(junk, front, last);
  }

  lemma {:induction false} GatherHunksText(junk: seq<string>, hs: seq<Hunk>)
    requires Gather(junk) == Gathered([], None)
    requires forall k :: 0 <= k < |hs| ==> PlainHunk(hs[k])
    ensures Collect(junk + HunksText(hs)) == hs
  {
    if hs == [] {
      assert junk + HunksText(hs) == junk;
    } else {
      var front := hs[..|hs| - 1];
      var h := hs[|hs| - 1];
      assert front + [h] == hs;
      var pre := junk + HunksText(front);
      GatherHunksText(junk, front);
      AppendHunkText(pre, h);
      HunksTextSnoc(junk, hs);
    }
  }

  /** Writing hunks out after lines that hold no header and gathering them
      again gives the same hunks. */
  lemma CollectRoundTrip(junk: seq<string>, hs: seq<Hunk>)
    requires forall k :: 0 <= k < |junk| ==> !IsHunkHeader(junk[k])
    requires forall k :: 0 <= k < |hs| ==> PlainHunk(hs[k])
    ensures Collect(junk + HunksText(hs)) == hs
  {
    NoHeaderNoHunks(junk);
    GatherHunksText(junk, hs);
  }

  /** The `for line in patch_lines` loop that gathers hunks. */
  method CollectHunks(patchLines: seq<string>) returns (hunks: seq<Hunk>)
    ensures hunks == Collect(patchLines)
  {
    var closed: seq<Hunk> := [];
    var current: Option<Hunk> := None;
    for i := 0 to |patchLines|
      invariant Gathered(closed, current) == Gather(patchLines[..i])
    {
      var line := patchLines[i];
      assert patchLines[..i + 1] == patchLines[..i] + [line];
      GatherSnoc(patchLines[..i], line);
      if StartsWith(line, "@@") {
        var found := SearchHeader(line, 0);
        if found.Some? {
          closed := HunksOf(Gathered(closed, current));
          current := Some(Hunk(found.value, []));
        }
      } else if current.Some? {
        current := Some(current.value.(lines := current.value.lines + [line]));
      }
    }
    assert patchLines[..|patchLines|] == patchLines;
    hunks := HunksOf(Gathered(closed, current));
  }

  // ---- applying one hunk ----

  /** `s[:n]` with Python's reading of a negative or too large bound. */
  function PyPrefix<T>(s: seq<T>, n: int): (r: seq<T>)
    ensures 0 <= n <= |s| ==> r == s[..n]
    ensures n > |s| ==> r == s
  {
    if n >= 0 then s[..if n <= |s| then n else |s|]
    else s[..if |s| + n >= 0 then |s| + n else 0]
  }

  /** `s[n:]` with Python's reading of a negative or too large bound. */
  function PySuffix<T>(s: seq<T>, n: int): (r: seq<T>)
    ensures 0 <= n <= |s| ==> r == s[n..]
    ensures n >= |s| ==> r == []
  {
    if n >= 0 then (if n <= |s| then s[n..] else [])
    else s[if |s| + n >= 0 then |s| + n else 0..]
  }

  /** `s[i]`, where -1 is the last element. */
  function PyIndex<T>(s: seq<T>, i: int): T
    requires -|s| <= i < |s|
  {
    if i >= 0 then s[i] else s[|s| + i]
  }

  /** Where a walk over a hunk's lines ended: the lines it produced and the
      file line after the last one it consumed; a line that did not match
      (or ran past the end); or an `IndexError`. */
  datatype WalkEnd = Walked(out: seq<string>, end: int) | Mismatch | Raise

  predicate IsContext(line: string) { StartsWith(line, " ") }
  predicate IsRemoval(line: string) { StartsWith(line, "-") }
  predicate IsAddition(line: string) { StartsWith(line, "+") }

  /** A context or removal line must equal, without trailing whitespace,
      the file line at `cur`; a context line then copies the file line and
      a removal line drops it; an addition contributes its text; anything
      else is passed over. */
  function Walk(content: seq<string>, hl: seq<string>, cur: int): WalkEnd
    requires cur >= -1
    decreases |hl|
  {
    if hl == [] then Walked([], cur)
    else
      var line := hl[0];
      if IsContext(line) || IsRemoval(line) then
        if cur >= |content| then Mismatch
        else if cur < 0 && |content| == 0 then Raise
        else
          var fileLine := PyIndex(content, cur);
          if RStrip(fileLine) != RStrip(line[1..]) then Mismatch
          else Prepend(if IsContext(line) then [fileLine] else [], Walk(content, hl[1..], cur + 1))
      else if IsAddition(line) then Prepend([line[1..]], Walk(content, hl[1..], cur))
      else Walk(content, hl[1..], cur)
  }

  function Prepend(pre: seq<string>, w: WalkEnd): WalkEnd {
    match w
    case Walked(out, end) => Walked(pre + out, end)
    case Mismatch => Mismatch
    case Raise => Raise
  }

  lemma PrependTwice(a: seq<string>, b: seq<string>, w: WalkEnd)
    ensures Prepend(a, Prepend(b, w)) == Prepend(a + b, w)
  {
    if w.Walked? {
      ConcatAssoc(a, b, w.out);
    }
  }

  datatype HunkResult = Applied(content: seq<string>) | Failed | Raised

  /** One hunk against the current content: the lines before
      `old_start - 1`, what the walk produced, and the lines after the last
      one it consumed. `old_start` 0 makes the start -1, which Python reads
      as "all but the last line" and "the last line". */
  function ApplyHunk(content: seq<string>, h: Hunk): HunkResult {
    var start := h.range.oldStart - 1;
    match Walk(content, h.lines, start)
    case Walked(out, end) => Applied(PyPrefix(content, start) + out + PySuffix(content, end))
    case Mismatch => Failed
    case Raise => Raised
  }

  /** The loop over a hunk's lines in `apply_patch`; `break` on a mismatch
      is returning `Failed`, the `IndexError` is returning `Raised`. */
  method TryHunk(content: seq<string>, h: Hunk) returns (r: HunkResult)
    ensures r == ApplyHunk(content, h)
  {
    var oldStart := h.range.oldStart - 1;
    var currentLine := oldStart;
    var modified := PyPrefix(content, oldStart);
    ghost var emitted: seq<string> := [];
    var i := 0;
    while i < |h.lines|
      invariant 0 <= i <= |h.lines| && currentLine >= -1
      invariant modified == PyPrefix(content, oldStart) + emitted
      invariant Prepend(emitted, Walk(content, h.lines[i..], currentLine)) == Walk(content, h.lines, oldStart)
    {
      var line := h.lines[i];
      assert h.lines[i..][0] == line && h.lines[i..][1..] == h.lines[i + 1..];
      if IsContext(line) || IsRemoval(line) {
        if currentLine < |content| {
          if currentLine < 0 && |content| == 0 {
            return Raised;
          }
          var fileLine := PyIndex(content, currentLine);
          if RStrip(fileLine) == RStrip(line[1..]) {
            var kept := if IsContext(line) then [fileLine] else [];
            PrependTwice(emitted, kept, Walk(content, h.lines[i + 1..], currentLine + 1));
            modified := modified + kept;
            emitted := emitted + kept;
            currentLine := currentLine + 1;
          } else {
            return Failed;
          }
        } else {
          return Failed;
        }
      } else if IsAddition(line) {
        PrependTwice(emitted, [line[1..]], Walk(content, h.lines[i + 1..], currentLine));
        modified := modified + [line[1..]];
        emitted := emitted + [line[1..]];
      }
      i := i + 1;
    }
    assert h.lines[i..] == [];
    assert emitted + [] == emitted;
    r := Applied(modified + PySuffix(content, currentLine));
  }

  // ---- what a hunk means ----

  /** The hunk's old side: its context and removed lines, without the
      leading marker. */
  function OldSide(hl: seq<string>): seq<string> {
    if hl == [] then []
    else (if IsContext(hl[0]) || IsRemoval(hl[0]) then [hl[0][1..]] else []) + OldSide(hl[1..])
  }

  /** The hunk's new side: its context and added lines, without the
      leading marker. */
  function NewSide(hl: seq<string>): seq<string> {
    if hl == [] then []
    else (if IsContext(hl[0]) || IsAddition(hl[0]) then [hl[0][1..]] else []) + NewSide(hl[1..])
  }

  /** Each line with its trailing whitespace stripped. */
  function Stripped(ls: seq<string>): seq<string> {
    if ls == [] then [] else [RStrip(ls[0])] + Stripped(ls[1..])
  }

  lemma {:induction false} StrippedPointwise(ls: seq<string>)
    ensures |Stripped(ls)| == |ls|
    ensures forall k :: 0 <= k < |ls| ==> Stripped(ls)[k] == RStrip(ls[k])
  {
    if ls != [] {
      StrippedPointwise(ls[1..]);
    }
  }

  lemma StrippedCons(x: string, rest: seq<string>)
    ensures Stripped([x] + rest) == [RStrip(x)] + Stripped(rest)
  {
    assert ([x] + rest)[1..] == rest;
  }

  lemma ConsEqual<T>(a: T, b: T, x: seq<T>, y: seq<T>)
    ensures [a] + x == [b] + y <==> a == b && x == y
  {
    if [a] + x == [b] + y {
      assert ([a] + x)[0] == a && ([b] + y)[0] == b;
      assert ([a] + x)[1..] == x && ([b] + y)[1..] == y;
    }
  }

  /** `lines` equal the file from line `s` on, line by line, trailing
      whitespace aside (an empty `lines` matches anywhere). */
  predicate LinesMatch(content: seq<string>, lines: seq<string>, s: nat)
    decreases |lines|
  {
    lines == [] || (s < |content| && RStrip(content[s]) == RStrip(lines[0]) && LinesMatch(content, lines[1..], s + 1))
  }

  /** Matching line by line is matching the stripped window of the file. */
  lemma {:induction false} LinesMatchWindow(content: seq<string>, lines: seq<string>, s: nat)
    ensures LinesMatch(content, lines, s)
        <==> lines == [] || (s + |lines| <= |content| && Stripped(content[s..s + |lines|]) == Stripped(lines))
    decreases |lines|
  {
    if lines != [] {
      var t: nat := s + 1;
      LinesMatchWindow(content, lines[1..], t);
      assert lines == [lines[0]] + lines[1..];
      StrippedCons(lines[0], lines[1..]);
      if s + |lines| <= |content| {
        var window := content[s..s + |lines|];
        assert window == [content[s]] + content[t..t + |lines[1..]|];
        StrippedCons(content[s], content[t..t + |lines[1..]|]);
        ConsEqual(RStrip(content[s]), RStrip(lines[0]), Stripped(content[t..t + |lines[1..]|]), Stripped(lines[1..]));
      }
    }
  }

  lemma LinesMatchCons(content: seq<string>, x: string, rest: seq<string>, s: nat)
    ensures LinesMatch(content, [x] + rest, s)
        <==> s < |content| && RStrip(content[s]) == RStrip(x) && LinesMatch(content, rest, s + 1)
  {
    assert ([x] + rest)[0] == x && ([x] + rest)[1..] == rest;
  }

  /** The old side equals the file from line `s` on, trailing whitespace
      aside. */
  predicate MatchesAt(content: seq<string>, hl: seq<string>, s: nat) {
    LinesMatch(content, OldSide(hl), s)
  }

  /** Two lists of lines that agree line by line once trailing
      whitespace is stripped. */
  predicate SameStripped(a: seq<string>, b: seq<string>) {
    Stripped(a) == Stripped(b)
  }

  lemma SameStrippedCons(x: string, y: string, a: seq<string>, b: seq<string>)
    requires RStrip(x) == RStrip(y) && SameStripped(a, b)
    ensures SameStripped([x] + a, [y] + b)
  {
    StrippedCons(x, a);
    StrippedCons(y, b);
  }

  /** From a line at or after the start of the file, the walk never
      raises, and it gets through exactly when the old side matches there;
      it then ends just after the old side, inside the file unless the old
      side is empty. */
  lemma {:induction false} WalkMatches(content: seq<string>, hl: seq<string>, s: nat)
    ensures !Walk(content, hl, s).Raise?
    ensures Walk(content, hl, s).Walked? <==> MatchesAt(content, hl, s)
    ensures Walk(content, hl, s).Walked? ==> Walk(content, hl, s).end == s + |OldSide(hl)|
    ensures Walk(content, hl, s).Walked? && OldSide(hl) != [] ==> s + |OldSide(hl)| <= |content|
    decreases |hl|
  {
    if hl != [] {
      var line := hl[0];
      if IsContext(line) || IsRemoval(line) {
        WalkMatches(content, hl[1..], s + 1);
        LinesMatchCons(content, line[1..], OldSide(hl[1..]), s);
        assert OldSide(hl) == [line[1..]] + OldSide(hl[1..]);
      } else {
        WalkMatches(content, hl[1..], s);
        assert OldSide(hl) == OldSide(hl[1..]);
      }
    }
  }

  /** What the walk produced is the new side, trailing whitespace aside. */
  lemma {:induction false} WalkOutput(content: seq<string>, hl: seq<string>, s: nat)
    requires Walk(content, hl, s).Walked?
    ensures |Walk(content, hl, s).out| == |NewSide(hl)|
    ensures SameStripped(Walk(content, hl, s).out, NewSide(hl))
    decreases |hl|
  {
    if hl != [] {
      var line := hl[0];
      if IsContext(line) || IsRemoval(line) {
        WalkOutput(content, hl[1..], s + 1);
        var rest := Walk(content, hl[1..], s + 1).out;
        if IsContext(line) {
          SameStrippedCons(content[s], line[1..], rest, NewSide(hl[1..]));
          assert Walk(content, hl, s).out == [content[s]] + rest;
          assert NewSide(hl) == [line[1..]] + NewSide(hl[1..]);
        } else {
          assert Walk(content, hl, s).out == rest;
          assert NewSide(hl) == NewSide(hl[1..]);
        }
      } else {
        WalkOutput(content, hl[1..], s);
        var rest := Walk(content, hl[1..], s).out;
        if IsAddition(line) {
          SameStrippedCons(line[1..], line[1..], rest, NewSide(hl[1..]));
          assert NewSide(hl) == [line[1..]] + NewSide(hl[1..]);
        } else {
          assert NewSide(hl) == NewSide(hl[1..]);
        }
      }
    }
  }

  /** `lines` equal the file from line `s` on, exactly. */
  predicate LinesEqual(content: seq<string>, lines: seq<string>, s: nat) {
    s + |lines| <= |content| && content[s..s + |lines|] == lines
  }

  /** The file's lines equal the old side from line `s` on, exactly. */
  predicate ExactlyAt(content: seq<string>, hl: seq<string>, s: nat) {
    LinesEqual(content, OldSide(hl), s)
  }

  lemma LinesEqualCons(content: seq<string>, x: string, rest: seq<string>, s: nat)
    requires LinesEqual(content, [x] + rest, s)
    ensures s < |content| && content[s] == x && LinesEqual(content, rest, s + 1)
  {
    assert content[s..s + 1 + |rest|][0] == x;
    assert content[s + 1..s + 1 + |rest|] == content[s..s + 1 + |rest|][1..];
  }

  /** When the file holds the old side exactly, the walk produces exactly
      the new side. */
  lemma {:induction false} WalkExact(content: seq<string>, hl: seq<string>, s: nat)
    requires ExactlyAt(content, hl, s)
    ensures Walk(content, hl, s) == Walked(NewSide(hl), s + |OldSide(hl)|)
    decreases |hl|
  {
    if hl != [] {
      var line := hl[0];
      if IsContext(line) || IsRemoval(line) {
        assert OldSide(hl) == [line[1..]] + OldSide(hl[1..]);
        LinesEqualCons(content, line[1..], OldSide(hl[1..]), s);
        WalkExact(content, hl[1..], s + 1);
        if IsContext(line) {
          assert NewSide(hl) == [line[1..]] + NewSide(hl[1..]);
        } else {
          assert NewSide(hl) == [] + NewSide(hl[1..]);
        }
      } else {
        assert OldSide(hl) == OldSide(hl[1..]);
        WalkExact(content, hl[1..], s);
        if IsAddition(line) {
          assert NewSide(hl) == [line[1..]] + NewSide(hl[1..]);
        } else {
          assert NewSide(hl) == NewSide(hl[1..]);
        }
      }
    }
  }

  /** The walk raises only from line -1 (`old_start` 0) over an empty
      file, and then always when the hunk has an old side. */
  lemma {:induction false} WalkRaisesIff(content: seq<string>, hl: seq<string>, cur: int)
    requires cur >= -1
    ensures Walk(content, hl, cur).Raise? <==> cur == -1 && content == [] && OldSide(hl) != []
    decreases |hl|
  {
    if hl != [] {
      var line := hl[0];
      if IsContext(line) || IsRemoval(line) {
        assert OldSide(hl) != [];
        if cur < |content| && !(cur < 0 && |content| == 0) {
          WalkMatches(content, hl[1..], cur + 1);
        }
      } else {
        WalkRaisesIff(content, hl[1..], cur);
        assert OldSide(hl) == OldSide(hl[1..]);
      }
    }
  }

  /** A hunk with `old_start` at least 1 applies exactly when its old side
      matches the file from line `old_start - 1`, and never raises. */
  lemma HunkAppliesIff(content: seq<string>, h: Hunk)
    requires h.range.oldStart >= 1
    ensures ApplyHunk(content, h).Applied? <==> MatchesAt(content, h.lines, h.range.oldStart - 1)
    ensures !ApplyHunk(content, h).Raised?
  {
    WalkMatches(content, h.lines, h.range.oldStart - 1);
  }

  /** `apply_patch` raises `IndexError` on exactly one kind of hunk: one
      with `old_start` 0 and an old side, against an empty file. */
  lemma HunkRaisesIff(content: seq<string>, h: Hunk)
    ensures ApplyHunk(content, h).Raised? <==> h.range.oldStart == 0 && content == [] && OldSide(h.lines) != []
  {
    WalkRaisesIff(content, h.lines, h.range.oldStart - 1);
  }

  lemma ThreeParts<T>(a: seq<T>, b: seq<T>, c: seq<T>)
    ensures (a + b + c)[..|a|] == a
    ensures (a + b + c)[|a| + |b|..] == c
    ensures (a + b + c)[|a|..|a| + |b|] == b
  {
  }

  /** A hunk that applies at a line inside the file keeps the lines
      before it and after its old side as they were, and puts its new side
      in between: exactly when the file held the old side exactly, and
      trailing whitespace aside otherwise (context lines keep the file's
      own text). */
  lemma HunkReplacesRegion(content: seq<string>, h: Hunk)
    requires 1 <= h.range.oldStart <= |content| + 1
    requires ApplyHunk(content, h).Applied?
    ensures var s, was, nw := h.range.oldStart - 1, OldSide(h.lines), NewSide(h.lines);
      var c := ApplyHunk(content, h).content;
      && s + |was| <= |content|
      && |c| == |content| - |was| + |nw|
      && c[..s] == content[..s]
      && c[s + |nw|..] == content[s + |was|..]
      && SameStripped(c[s..s + |nw|], nw)
      && (ExactlyAt(content, h.lines, s) ==> c[s..s + |nw|] == nw)
  {
    var s := h.range.oldStart - 1;
    var w := Walk(content, h.lines, s);
    assert w.Walked?;
    WalkMatches(content, h.lines, s);
    WalkOutput(content, h.lines, s);
    var c := ApplyHunk(content, h).content;
    assert c == content[..s] + w.out + content[w.end..];
    ThreeParts(content[..s], w.out, content[w.end..]);
    if ExactlyAt(content, h.lines, s) {
      WalkExact(content, h.lines, s);
    }
  }

  // ---- applying a patch's hunks in turn ----

  /** `apply_patch`'s loop over the hunks: the content so far and how many
      hunks succeeded, or the `IndexError` that ends it. */
  datatype Progress = Going(content: seq<string>, applied: nat) | Crashed

  function Bump(p: Progress, n: nat): Progress {
    match p
    case Going(c, k) => Going(c, k + n)
    case Crashed => Crashed
  }

  /** Each hunk is tried on the content the hunks before it left, at its
      own unadjusted `old_start`; a failed hunk leaves the content as it
      was. */
  function ApplyAll(content: seq<string>, hs: seq<Hunk>): Progress
    decreases |hs|
  {
    if hs == [] then Going(content, 0)
    else match ApplyHunk(content, hs[0])
      case Applied(c) => Bump(ApplyAll(c, hs[1..]), 1)
      case Failed => ApplyAll(content, hs[1..])
      case Raised => Crashed
  }

  lemma BumpTwice(p: Progress, a: nat, b: nat)
    ensures Bump(Bump(p, a), b) == Bump(p, a + b)
  {
  }

  /** At most every hunk succeeds, and when none does the content is the
      file's, untouched. */
  lemma {:induction false} ApplyAllCounts(content: seq<string>, hs: seq<Hunk>)
    ensures ApplyAll(content, hs).Going? ==> ApplyAll(content, hs).applied <= |hs|
    ensures ApplyAll(content, hs).Going? && ApplyAll(content, hs).applied == 0
        ==> ApplyAll(content, hs).content == content
    decreases |hs|
  {
    if hs != [] {
      match ApplyHunk(content, hs[0])
      case Applied(c) => ApplyAllCounts(c, hs[1..]);
      case Failed => ApplyAllCounts(content, hs[1..]);
      case Raised =>
    }
  }

  /** Hunks that all start at line 1 or later never raise `IndexError`. */
  lemma {:induction false} ApplyAllNoCrash(content: seq<string>, hs: seq<Hunk>)
    requires forall k :: 0 <= k < |hs| ==> hs[k].range.oldStart >= 1
    ensures ApplyAll(content, hs).Going?
    decreases |hs|
  {
    if hs != [] {
      HunkAppliesIff(content, hs[0]);
      match ApplyHunk(content, hs[0])
      case Applied(c) => ApplyAllNoCrash(c, hs[1..]);
      case Failed => ApplyAllNoCrash(content, hs[1..]);
    }
  }

  /** The hunks apply to the content the previous hunks produced, with
      `old_start` left as the diff gives it: after a hunk that adds a line,
      the next hunk of the same diff looks one line too early and fails. */
  lemma UnadjustedStart()
    ensures ApplyAll(["a\n", "b\n"],
        [Hunk(Range(1, 1, 1, 2), [" a\n", "+x\n"]), Hunk(Range(2, 1, 3, 0), ["-b\n"])])
      == Going(["a\n", "x\n", "b\n"], 1)
  {
    var after := ["a\n", "x\n", "b\n"];
    AddXHunk(["a\n", "b\n"]);
    assert ["a\n", "x\n"] + ["a\n", "b\n"][1..] == after;
    RemoveBMisses(after);
    ApplyTwo(["a\n", "b\n"], ADD_X, Hunk(Range(2, 1, 3, 0), ["-b\n"]));
  }

  /** Removing `b` at line 2 fails where line 2 is `x`. */
  lemma RemoveBMisses(content: seq<string>)
    requires content == ["a\n", "x\n", "b\n"]
    ensures ApplyHunk(content, Hunk(Range(2, 1, 3, 0), ["-b\n"])) == Failed
  {
    assert RStrip("x\n") == "x";
    assert RStrip("b\n") == "b";
  }

  /** `ApplyAll` over one hunk. */
  lemma ApplyOne(content: seq<string>, h: Hunk)
    ensures ApplyAll(content, [h]) == match ApplyHunk(content, h)
      case Applied(c) => Going(c, 1)
      case Failed => Going(content, 0)
      case Raised => Crashed
  {
    assert [h][1..] == [];
  }

  /** `ApplyAll` over two hunks. */
  lemma ApplyTwo(content: seq<string>, h1: Hunk, h2: Hunk)
    ensures ApplyAll(content, [h1, h2]) == match ApplyHunk(content, h1)
      case Applied(c) => Bump(ApplyAll(c, [h2]), 1)
      case Failed => ApplyAll(content, [h2])
      case Raised => Crashed
  {
    assert [h1, h2][1..] == [h2];
  }

  /** A hunk of one context line `a` and one added line `x`. */
  const ADD_X: Hunk := Hunk(Range(1, 1, 1, 2), [" a\n", "+x\n"])

  /** That hunk applies to any file whose first line is `a`. */
  lemma AddXApplies(content: seq<string>)
    requires |content| >= 1 && content[0] == "a\n"
    ensures ApplyAll(content, [ADD_X]) == Going(["a\n", "x\n"] + content[1..], 1)
  {
    AddXHunk(content);
    ApplyOne(content, ADD_X);
  }

  lemma AddXHunk(content: seq<string>)
    requires |content| >= 1 && content[0] == "a\n"
    ensures ApplyHunk(content, ADD_X) == Applied(["a\n", "x\n"] + content[1..])
  {
    AddXSides();
    assert content[0..1] == ["a\n"];
    WalkExact(content, ADD_X.lines, 0);
    assert PyPrefix(content, 0) + ["a\n", "x\n"] == ["a\n", "x\n"];
  }

  lemma AddXSides()
    ensures OldSide(ADD_X.lines) == ["a\n"] && NewSide(ADD_X.lines) == ["a\n", "x\n"]
  {
    var l := ADD_X.lines;
    assert l[1..][1..] == [];
    assert IsContext(l[0]) && l[0][1..] == "a\n";
    assert IsAddition(l[1]) && !IsContext(l[1]) && !IsRemoval(l[1]) && l[1][1..] == "x\n";
    assert OldSide(l[1..]) == [] && NewSide(l[1..]) == ["x\n"];
  }

  /** Nothing records that a hunk was applied before: a hunk of context
      and additions whose context is still there applies again and adds
      its lines a second time. */
  lemma ReappliedHunkAddsAgain()
    ensures ApplyAll(["a\n"], [ADD_X]) == Going(["a\n", "x\n"], 1)
    ensures ApplyAll(["a\n", "x\n"], [ADD_X]) == Going(["a\n", "x\n", "x\n"], 1)
  {
    AddXApplies(["a\n"]);
    AddXApplies(["a\n", "x\n"]);
    assert ["a\n", "x\n"] + ["a\n", "x\n"][1..] == ["a\n", "x\n", "x\n"];
  }

  /** One step of `ApplyAll` from hunk `i`. */
  lemma ApplyAllStep(content: seq<string>, hs: seq<Hunk>, i: nat)
    requires i < |hs|
    ensures ApplyAll(content, hs[i..]) == match ApplyHunk(content, hs[i])
      case Applied(c) => Bump(ApplyAll(c, hs[i + 1..]), 1)
      case Failed => ApplyAll(content, hs[i + 1..])
      case Raised => Crashed
  {
    assert hs[i..][0] == hs[i] && hs[i..][1..] == hs[i + 1..];
  }

  /** The loop over the hunks in `apply_patch`. */
  method ApplyHunks(content: seq<string>, hs: seq<Hunk>) returns (r: Progress)
    ensures r == ApplyAll(content, hs)
  {
    var current := content;
    var successful := 0;
    for i := 0 to |hs|
      invariant Bump(ApplyAll(current, hs[i..]), successful) == ApplyAll(content, hs)
    {
      ApplyAllStep(current, hs, i);
      var result := TryHunk(current, hs[i]);
      match result
      case Applied(c) =>
        BumpTwice(ApplyAll(c, hs[i + 1..]), 1, successful);
        current := c;
        successful := successful + 1;
      case Failed =>
      case Raised =>
        return Crashed;
    }
    assert hs[|hs|..] == [];
    r := Going(current, successful);
  }

  // ---- one patch against one file ----

  /** What `apply_patch` does: it raises, or it returns whether the patch
      counts as applied together with the lines it wrote to the file, if
      it wrote. */
  datatype PatchOutcome = PatchRaised | PatchDone(ok: bool, written: Option<seq<string>>)

  /** `apply_patch` for a patch's lines against the file it names: `file`
      is its lines, or `None` when the file cannot be found or read;
      `writeOk` says whether writing it back would succeed. */
  function PatchSpec(patchLines: seq<string>, file: Option<seq<string>>, dryRun: bool, writeOk: bool): PatchOutcome {
    if file.None? then PatchDone(false, None)
    else match ApplyAll(file.value, Collect(patchLines))
      case Crashed => PatchRaised
      case Going(c, n) =>
        if n > 0 && !dryRun then (if writeOk then PatchDone(true, Some(c)) else PatchDone(false, None))
        else PatchDone(n > 0, None)
  }

  method ApplyPatch(patchLines: seq<string>, file: Option<seq<string>>, dryRun: bool, writeOk: bool)
      returns (r: PatchOutcome)
    ensures r == PatchSpec(patchLines, file, dryRun, writeOk)
  {
    if file.None? {
      return PatchDone(false, None);
    }
    var hunks := CollectHunks(patchLines);
    var progress := ApplyHunks(file.value, hunks);
    match progress
    case Crashed =>
      r := PatchRaised;
    case Going(content, successful) =>
      var appliedChanges := successful > 0;
      if appliedChanges && !dryRun {
        if writeOk {
          r := PatchDone(true, Some(content));
        } else {
          r := PatchDone(false, None);
        }
      } else {
        r := PatchDone(appliedChanges, None);
      }
  }

  /** A patch counts as applied exactly when the file was there, some
      hunk succeeded and, unless this is a dry run, the file was written;
      the file is written only outside a dry run, only when some hunk
      succeeded, and then with what the hunks made of it. */
  lemma PatchOkIff(patchLines: seq<string>, file: Option<seq<string>>, dryRun: bool, writeOk: bool)
    ensures var o := PatchSpec(patchLines, file, dryRun, writeOk);
      (o.PatchDone? && o.ok)
      <==> (file.Some? && (dryRun || writeOk)
        && ApplyAll(file.value, Collect(patchLines)).Going?
        && ApplyAll(file.value, Collect(patchLines)).applied > 0)
    ensures var o := PatchSpec(patchLines, file, dryRun, writeOk);
      (o.PatchDone? && o.written.Some?)
      ==> (file.Some? && !dryRun && writeOk && o.ok
        && ApplyAll(file.value, Collect(patchLines)) == Going(o.written.value, ApplyAll(file.value, Collect(patchLines)).applied))
  {
  }

  /** A patch raises only for a hunk with `old_start` 0. */
  lemma PatchRaisesOnlyAtZero(patchLines: seq<string>, file: Option<seq<string>>, dryRun: bool, writeOk: bool)
    requires forall k :: 0 <= k < |Collect(patchLines)| ==> Collect(patchLines)[k].range.oldStart >= 1
    ensures PatchSpec(patchLines, file, dryRun, writeOk).PatchDone?
  {
    if file.Some? {
      ApplyAllNoCrash(file.value, Collect(patchLines));
    }
  }

  // ---- one STLport directory ----

  /** The files of the directory, by the path the diff names them with. */
  function Lookup(files: map<string, seq<string>>, path: string): Option<seq<string>> {
    if path in files then Some(files[path]) else None
  }

  /** `apply_patch` for one entry of the `patches` dictionary. */
  function Outcome(p: Patch, files: map<string, seq<string>>, readOnly: set<string>, dryRun: bool): PatchOutcome {
    PatchSpec(p.lines, Lookup(files, p.path), dryRun, p.path !in readOnly)
  }

  /** The loop over the patches: how many files were patched and what the
      directory holds afterwards, or the exception that ends it. */
  datatype Tally = Tallied(count: nat, files: map<string, seq<string>>) | TallyRaised

  function AddCount(t: Tally, n: nat): Tally {
    match t
    case Tallied(k, f) => Tallied(k + n, f)
    case TallyRaised => TallyRaised
  }

  function Written(files: map<string, seq<string>>, path: string, o: PatchOutcome): map<string, seq<string>> {
    if o.PatchDone? && o.written.Some? then files[path := o.written.value] else files
  }

  function TallyFrom(ps: seq<Patch>, files: map<string, seq<string>>, readOnly: set<string>, dryRun: bool): Tally
    decreases |ps|
  {
    if ps == [] then Tallied(0, files)
    else
      var o := Outcome(ps[0], files, readOnly, dryRun);
      match o
      case PatchRaised => TallyRaised
      case PatchDone(ok, _) => AddCount(TallyFrom(ps[1..], Written(files, ps[0].path, o), readOnly, dryRun), if ok then 1 else 0)
  }

  /** What `apply_patches_to_stlport_dir` does. */
  datatype DirOutcome = DirDone(ok: bool, files: map<string, seq<string>>) | DirRaised

  /** `apply_patches_to_stlport_dir`: `diffFound` and `dirFound` say
      whether the diff file and the directory exist, `diffLines` are the
      diff file's lines, `files` the directory's files and `readOnly` those
      that cannot be written. */
  function DirSpec(diffFound: bool, dirFound: bool, diffLines: seq<string>, files: map<string, seq<string>>,
                   readOnly: set<string>, dryRun: bool): DirOutcome
  {
    if !diffFound || !dirFound then DirDone(false, files)
    else
      var ps := ParseDiff(diffLines);
      if ps == [] then DirDone(false, files)
      else match TallyFrom(ps, files, readOnly, dryRun)
        case TallyRaised => DirRaised
        case Tallied(n, f) => DirDone(n > 0, f)
  }

  lemma TallyStep(ps: seq<Patch>, files: map<string, seq<string>>, readOnly: set<string>, dryRun: bool, i: nat)
    requires i < |ps|
    ensures TallyFrom(ps[i..], files, readOnly, dryRun) == match Outcome(ps[i], files, readOnly, dryRun)
      case PatchRaised => TallyRaised
      case PatchDone(ok, _) =>
        AddCount(TallyFrom(ps[i + 1..], Written(files, ps[i].path, Outcome(ps[i], files, readOnly, dryRun)), readOnly, dryRun),
          if ok then 1 else 0)
  {
    assert ps[i..][0] == ps[i] && ps[i..][1..] == ps[i + 1..];
  }

  lemma AddCountTwice(t: Tally, a: nat, b: nat)
    ensures AddCount(AddCount(t, a), b) == AddCount(t, a + b)
  {
  }

  /** The `success_count` loop of `apply_patches_to_stlport_dir`. */
  method ApplyPatchesToDir(diffFound: bool, dirFound: bool, diffLines: seq<string>, files: map<string, seq<string>>,
                           readOnly: set<string>, dryRun: bool) returns (r: DirOutcome)
    ensures r == DirSpec(diffFound, dirFound, diffLines, files, readOnly, dryRun)
  {
    if !diffFound || !dirFound {
      return DirDone(false, files);
    }
    var patches := ParseDiffFile(diffLines);
    if patches == [] {
      return DirDone(false, files);
    }
    var current := files;
    var successCount := 0;
    for i := 0 to |patches|
      invariant AddCount(TallyFrom(patches[i..], current, readOnly, dryRun), successCount)
        == TallyFrom(patches, files, readOnly, dryRun)
    {
      var p := patches[i];
      TallyStep(patches, current, readOnly, dryRun, i);
      var result := ApplyPatch(p.lines, Lookup(current, p.path), dryRun, p.path !in readOnly);
      match result
      case PatchRaised =>
        return DirRaised;
      case PatchDone(ok, written) =>
        var next := Written(current, p.path, result);
        AddCountTwice(TallyFrom(patches[i + 1..], next, readOnly, dryRun), if ok then 1 else 0, successCount);
        current := next;
        if ok {
          successCount := successCount + 1;
        }
    }
    assert patches[|patches|..] == [];
    r := DirDone(successCount > 0, current);
  }

  /** `apply_patch` returned true for this file. */
  predicate Patched(o: PatchOutcome) { o.PatchDone? && o.ok }

  /** A patch reads and writes only the file it names, so writing it
      changes nothing for a patch of another file. */
  lemma OutcomeFrame(q: Patch, p: Patch, o: PatchOutcome, files: map<string, seq<string>>, readOnly: set<string>, dryRun: bool)
    requires q.path != p.path
    ensures Outcome(q, Written(files, p.path, o), readOnly, dryRun) == Outcome(q, files, readOnly, dryRun)
  {
    assert Lookup(Written(files, p.path, o), q.path) == Lookup(files, q.path);
  }

  /** After writing patch 0, the rest of the patches see the directory
      as it was: their outcomes are those against the original files. */
  lemma TailOutcomes(ps: seq<Patch>, files: map<string, seq<string>>, readOnly: set<string>, dryRun: bool)
    requires UniquePaths(ps) && ps != []
    ensures UniquePaths(ps[1..])
    ensures forall k :: 0 <= k < |ps| - 1 ==>
      Outcome(ps[1..][k], Written(files, ps[0].path, Outcome(ps[0], files, readOnly, dryRun)), readOnly, dryRun)
        == Outcome(ps[k + 1], files, readOnly, dryRun)
  {
    var o := Outcome(ps[0], files, readOnly, dryRun);
    forall k | 0 <= k < |ps| - 1
      ensures Outcome(ps[1..][k], Written(files, ps[0].path, o), readOnly, dryRun) == Outcome(ps[k + 1], files, readOnly, dryRun)
    {
      OutcomeFrame(ps[k + 1], ps[0], o, files, readOnly, dryRun);
    }
  }

  /** With one patch per file, the loop over the patches raises exactly
      when some patch, against the directory as it was, raises. */
  lemma {:induction false} TallyRaisedIff(ps: seq<Patch>, files: map<string, seq<string>>, readOnly: set<string>, dryRun: bool)
    requires UniquePaths(ps)
    ensures TallyFrom(ps, files, readOnly, dryRun).TallyRaised?
        <==> exists k :: 0 <= k < |ps| && Outcome(ps[k], files, readOnly, dryRun).PatchRaised?
    decreases |ps|
  {
    if ps != [] {
      var o := Outcome(ps[0], files, readOnly, dryRun);
      if o.PatchDone? {
        var next := Written(files, ps[0].path, o);
        TailOutcomes(ps, files, readOnly, dryRun);
        TallyRaisedIff(ps[1..], next, readOnly, dryRun);
        if exists k :: 0 <= k < |ps| && Outcome(ps[k], files, readOnly, dryRun).PatchRaised? {
          var k :| 0 <= k < |ps| && Outcome(ps[k], files, readOnly, dryRun).PatchRaised?;
          assert Outcome(ps[1..][k - 1], next, readOnly, dryRun).PatchRaised?;
        }
      }
    }
  }

  /** With one patch per file and no exception, the count of patched
      files is at most the number of patches, and it is positive exactly
      when some patch, against the directory as it was, returned true. */
  lemma {:induction false} TallyCountIff(ps: seq<Patch>, files: map<string, seq<string>>, readOnly: set<string>, dryRun: bool)
    requires UniquePaths(ps)
    ensures var t := TallyFrom(ps, files, readOnly, dryRun);
      t.Tallied? ==> t.count <= |ps| && (t.count > 0 <==> exists k :: 0 <= k < |ps| && Patched(Outcome(ps[k], files, readOnly, dryRun)))
    decreases |ps|
  {
    if ps != [] {
      var o := Outcome(ps[0], files, readOnly, dryRun);
      if o.PatchDone? {
        var next := Written(files, ps[0].path, o);
        TailOutcomes(ps, files, readOnly, dryRun);
        TallyCountIff(ps[1..], next, readOnly, dryRun);
        if exists k :: 0 <= k < |ps| && Patched(Outcome(ps[k], files, readOnly, dryRun)) {
          var k :| 0 <= k < |ps| && Patched(Outcome(ps[k], files, readOnly, dryRun));
          if k > 0 {
            assert Patched(Outcome(ps[1..][k - 1], next, readOnly, dryRun));
          }
        }
      }
    }
  }

  /** With one patch per file and no exception, each patched file ends up
      with what its own patch wrote, and every other file is as it was. */
  lemma {:induction false} TallyFiles(ps: seq<Patch>, files: map<string, seq<string>>, readOnly: set<string>, dryRun: bool)
    requires UniquePaths(ps)
    ensures var t := TallyFrom(ps, files, readOnly, dryRun);
      t.Tallied? ==> forall k :: 0 <= k < |ps| ==>
        Lookup(t.files, ps[k].path) == Lookup(Written(files, ps[k].path, Outcome(ps[k], files, readOnly, dryRun)), ps[k].path)
    ensures var t := TallyFrom(ps, files, readOnly, dryRun);
      t.Tallied? ==> forall path :: (forall k :: 0 <= k < |ps| ==> ps[k].path != path) ==> Lookup(t.files, path) == Lookup(files, path)
    decreases |ps|
  {
    if ps != [] {
      var o := Outcome(ps[0], files, readOnly, dryRun);
      if o.PatchDone? {
        var next := Written(files, ps[0].path, o);
        var t := TallyFrom(ps, files, readOnly, dryRun);
        TailOutcomes(ps, files, readOnly, dryRun);
        TallyFiles(ps[1..], next, readOnly, dryRun);
        if t.Tallied? {
          assert TallyFrom(ps[1..], next, readOnly, dryRun).files == t.files;
          forall k | 0 <= k < |ps|
            ensures Lookup(t.files, ps[k].path) == Lookup(Written(files, ps[k].path, Outcome(ps[k], files, readOnly, dryRun)), ps[k].path)
          {
            if k == 0 {
              forall j | 0 <= j < |ps| - 1
                ensures ps[1..][j].path != ps[0].path
              {
                assert ps[1..][j] == ps[j + 1];
              }
            } else {
              assert ps[1..][k - 1] == ps[k];
              assert ps[k].path != ps[0].path;
              assert Lookup(Written(next, ps[k].path, Outcome(ps[k], files, readOnly, dryRun)), ps[k].path)
                  == Lookup(Written(files, ps[k].path, Outcome(ps[k], files, readOnly, dryRun)), ps[k].path);
            }
          }
          forall path | forall k :: 0 <= k < |ps| ==> ps[k].path != path
            ensures Lookup(t.files, path) == Lookup(files, path)
          {
            forall j | 0 <= j < |ps| - 1
              ensures ps[1..][j].path != path
            {
              assert ps[1..][j] == ps[j + 1];
            }
            assert ps[0].path != path;
          }
        }
      }
    }
  }

  /** A dry run writes no file. */
  lemma {:induction false} TallyDryRun(ps: seq<Patch>, files: map<string, seq<string>>, readOnly: set<string>)
    ensures TallyFrom(ps, files, readOnly, true).Tallied? ==> TallyFrom(ps, files, readOnly, true).files == files
    decreases |ps|
  {
    if ps != [] {
      var o := Outcome(ps[0], files, readOnly, true);
      if o.PatchDone? {
        assert Written(files, ps[0].path, o) == files;
        TallyDryRun(ps[1..], files, readOnly);
      }
    }
  }

  /** `apply_patches_to_stlport_dir` returns true exactly when the diff
      file and the directory exist and, against the directory as it was,
      no patch raises and some patch returns true. */
  lemma DirOkIff(diffFound: bool, dirFound: bool, diffLines: seq<string>, files: map<string, seq<string>>,
                 readOnly: set<string>, dryRun: bool)
    ensures var ps := ParseDiff(diffLines);
      (DirSpec(diffFound, dirFound, diffLines, files, readOnly, dryRun).DirDone?
        && DirSpec(diffFound, dirFound, diffLines, files, readOnly, dryRun).ok)
      <==> (diffFound && dirFound
        && (forall k :: 0 <= k < |ps| ==> !Outcome(ps[k], files, readOnly, dryRun).PatchRaised?)
        && (exists k :: 0 <= k < |ps| && Patched(Outcome(ps[k], files, readOnly, dryRun))))
  {
    var ps := ParseDiff(diffLines);
    PatchesWellFormed(diffLines);
    TallyRaisedIff(ps, files, readOnly, dryRun);
    TallyCountIff(ps, files, readOnly, dryRun);
  }

  /** It raises exactly when both exist and some patch raises. */
  lemma DirRaisedIff(diffFound: bool, dirFound: bool, diffLines: seq<string>, files: map<string, seq<string>>,
                     readOnly: set<string>, dryRun: bool)
    ensures var ps := ParseDiff(diffLines);
      DirSpec(diffFound, dirFound, diffLines, files, readOnly, dryRun).DirRaised?
      <==> diffFound && dirFound && exists k :: 0 <= k < |ps| && Outcome(ps[k], files, readOnly, dryRun).PatchRaised?
  {
    PatchesWellFormed(diffLines);
    TallyRaisedIff(ParseDiff(diffLines), files, readOnly, dryRun);
  }

  /** With `--dry-run` the directory is left as it was. */
  lemma DirDryRun(diffFound: bool, dirFound: bool, diffLines: seq<string>, files: map<string, seq<string>>, readOnly: set<string>)
    ensures DirSpec(diffFound, dirFound, diffLines, files, readOnly, true).DirDone?
        ==> DirSpec(diffFound, dirFound, diffLines, files, readOnly, true).files == files
  {
    TallyDryRun(ParseDiff(diffLines), files, readOnly);
  }
}
