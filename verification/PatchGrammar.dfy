// Which diff texts survive being read and written again, told from their characters.
module PatchGrammar {
  import opened Wrappers
  import opened PatchText

  /** Where a reader of the text stands; inside a patch, with the source and destination lines that the open hunk still owes. */
  datatype State = Outside | Titled | Inside(src: nat, dst: nat)

  /** A prefix, a text without a line break, and one line break. */
  predicate Whole(prefix: string, line: string) {
    && prefix <= line && |prefix| < |line|
    && line[|line| - 1] == '\n' && '\n' !in line[|prefix|..|line| - 1]
  }

  function TextOf(prefix: string, line: string): string
    requires Whole(prefix, line)
  {
    line[|prefix|..|line| - 1]
  }

  predicate AllDigits(s: string) {
    forall i :: 0 <= i < |s| ==> IsDigit(s[i])
  }

  /** Digits, the first of which is a zero only if it is the only one. */
  predicate PlainNumber(s: string) {
    s != "" && AllDigits(s) && (s[0] == '0' ==> |s| == 1)
  }

  /** The digits at the start of s, if they make a plain number, and what follows them. */
  function ReadDigits(s: string): Option<(string, string)> {
    var k := DigitRun(s);
    if PlainNumber(s[..k]) then Some((s[..k], s[k..])) else None
  }

  /** Two plain numbers with a comma between them, and what follows. */
  function ReadDigitPair(s: string): Option<(string, string, string)> {
    var a := ReadDigits(s);
    if a.None? then None else
    var b := ReadText(",", a.value.1);
    if b.None? then None else
    var c := ReadDigits(b.value);
    if c.None? then None else Some((a.value.0, c.value.0, c.value.1))
  }

  /** The digits of a chunk header: the two pairs with their signs and what stands around them, up to the line break and no further. */
  function HunkDigits(line: string): Option<(string, string, string, string)> {
    var a := ReadText("@@ -", line);
    if a.None? then None else
    var b := ReadDigitPair(a.value);
    if b.None? then None else
    var c := ReadText(" +", b.value.2);
    if c.None? then None else
    var d := ReadDigitPair(c.value);
    if d.None? || d.value.2 != " @@\n" then None else Some((b.value.0, b.value.1, d.value.0, d.value.1))
  }

  predicate Plain(line: string) {
    HunkDigits(line).Some?
  }

  /** What a plain header says its hunk has on each side. */
  function Counts(line: string): State
    requires Plain(line)
  {
    var h := HunkDigits(line).value;
    HunkDigitsPlain(line);
    Inside(NumberOf(h.1, |h.1|), NumberOf(h.3, |h.3|))
  }

  lemma HunkDigitsPlain(line: string)
    requires Plain(line)
    ensures var h := HunkDigits(line).value; PlainNumber(h.0) && PlainNumber(h.1) && PlainNumber(h.2) && PlainNumber(h.3)
  {
  }

  /** The line of a hunk that owes so many lines on each side; it must not look like a file header. */
  function ScanBody(src: nat, dst: nat, line: string): Option<State> {
    if "--- " <= line || "+++ " <= line then None
    else if Whole("-", line) && src > 0 then Some(Inside(src - 1, dst))
    else if Whole("+", line) && dst > 0 then Some(Inside(src, dst - 1))
    else if Whole(" ", line) && src > 0 && dst > 0 then Some(Inside(src - 1, dst - 1))
    else None
  }

  /** A title comes as a pair of lines, a hunk after a title or a hunk, and the body of a hunk is as long as its header says. */
  function Scan(s: State, line: string): Option<State> {
    match s
    case Outside => if Whole("--- ", line) then Some(Titled) else None
    case Titled => if Whole("+++ ", line) then Some(Inside(0, 0)) else None
    case Inside(src, dst) =>
      if src > 0 || dst > 0 then ScanBody(src, dst, line)
      else if Whole("--- ", line) then Some(Titled)
      else if Plain(line) then Some(Counts(line))
      else None
  }

  predicate Complete(s: State) {
    s == Outside || s == Inside(0, 0)
  }

  predicate WellFormedDiff(lines: seq<string>) {
    var s := ParseFrom(Scan, Outside, lines, |lines|);
    s.Some? && Complete(s.value)
  }

  // ----- plain numbers are those that printing makes

  lemma {:induction false} PlainPositive(s: string, k: nat)
    requires AllDigits(s) && 0 < k <= |s| && s[0] != '0'
    ensures NumberOf(s, k) > 0
  {
    if k > 1 {
      PlainPositive(s, k - 1);
    }
  }

  lemma {:induction false} PrintedPlain(n: nat)
    ensures PlainNumber(Decimal(n)) && (n > 0 ==> Decimal(n)[0] != '0')
  {
    DecimalDigits(n);
    if n >= 10 {
      PrintedPlain(n / 10);
    }
  }

  lemma {:induction false} PlainReprinted(s: string)
    requires PlainNumber(s)
    ensures Decimal(NumberOf(s, |s|)) == s
  {
    var n := |s| - 1;
    if n > 0 {
      var front := s[..n];
      assert s == front + [s[n]];
      NumberOfPrefix(front, [s[n]], n);
      PlainReprinted(front);
      PlainPositive(front, n);
    }
  }

  /** Digits are what printing makes of their number exactly when they have no leading zero. */
  lemma PlainIffReprinted(s: string)
    requires AllDigits(s)
    ensures PlainNumber(s) <==> Decimal(NumberOf(s, |s|)) == s
  {
    PrintedPlain(NumberOf(s, |s|));
    if PlainNumber(s) {
      PlainReprinted(s);
    }
  }

  lemma ReadPrintedDigits(n: nat, rest: string)
    requires rest == "" || !IsDigit(rest[0])
    ensures ReadDigits(Decimal(n) + rest) == Some((Decimal(n), rest))
  {
    var d := Decimal(n);
    PrintedPlain(n);
    DigitRunOf(d, rest);
    assert (d + rest)[..|d|] == d && (d + rest)[|d|..] == rest;
  }

  lemma ReadPrintedDigitPair(a: nat, b: nat, rest: string)
    requires rest == "" || !IsDigit(rest[0])
    ensures ReadDigitPair(PrintPair(a, b, rest)) == Some((Decimal(a), Decimal(b), rest))
  {
    var tail := Decimal(b) + rest;
    ReadPrintedDigits(a, "," + tail);
    ReadPrefix(",", tail);
    ReadPrintedDigits(b, rest);
  }

  lemma ReadPrintedPositions(srcPos: nat, src: nat, dstPos: nat, dst: nat)
    ensures HunkDigits(PrintPositions(srcPos, src, dstPos, dst)) == Some((Decimal(srcPos), Decimal(src), Decimal(dstPos), Decimal(dst)))
  {
    var pair := PrintPair(dstPos, dst, " @@\n");
    ReadPrefix("@@ -", PrintPair(srcPos, src, " +" + pair));
    ReadPrintedDigitPair(srcPos, src, " +" + pair);
    ReadPrefix(" +", pair);
    ReadPrintedDigitPair(dstPos, dst, " @@\n");
  }

  lemma PrintedPositionsPlain(srcPos: nat, src: nat, dstPos: nat, dst: nat)
    ensures Plain(PrintPositions(srcPos, src, dstPos, dst)) && Counts(PrintPositions(srcPos, src, dstPos, dst)) == Inside(src, dst)
  {
    ReadPrintedPositions(srcPos, src, dstPos, dst);
    DecimalDigits(src);
    DecimalDigits(dst);
  }

  lemma TextRead(prefix: string, s: string)
    requires ReadText(prefix, s).Some?
    ensures s == prefix + ReadText(prefix, s).value
  {
  }

  lemma DigitsPrinted(s: string)
    requires ReadDigits(s).Some?
    ensures var d := ReadDigits(s).value; PlainNumber(d.0) && s == Decimal(NumberOf(d.0, |d.0|)) + d.1
  {
    var d := ReadDigits(s).value;
    PlainReprinted(d.0);
    assert s == d.0 + d.1;
  }

  lemma DigitPairPrinted(s: string)
    requires ReadDigitPair(s).Some?
    ensures var p := ReadDigitPair(s).value;
            PlainNumber(p.0) && PlainNumber(p.1) && s == PrintPair(NumberOf(p.0, |p.0|), NumberOf(p.1, |p.1|), p.2)
  {
    var a := ReadDigits(s).value;
    DigitsPrinted(s);
    TextRead(",", a.1);
    DigitsPrinted(ReadText(",", a.1).value);
  }

  /** The two pairs of a plain header. */
  lemma HeaderParts(line: string) returns (p: (string, string, string), q: (string, string, string))
    requires Plain(line)
    ensures HunkDigits(line) == Some((p.0, p.1, q.0, q.1)) && q.2 == " @@\n"
    ensures |line| >= 4 && line == "@@ -" + line[4..] && ReadDigitPair(line[4..]) == Some(p)
    ensures |p.2| >= 2 && p.2 == " +" + p.2[2..] && ReadDigitPair(p.2[2..]) == Some(q)
  {
    var rest := ReadText("@@ -", line).value;
    TextRead("@@ -", line);
    p := ReadDigitPair(rest).value;
    TextRead(" +", p.2);
    q := ReadDigitPair(ReadText(" +", p.2).value).value;
  }

  /** Every plain header is one that printing makes. */
  lemma PlainIsPrinted(line: string) returns (srcPos: nat, src: nat, dstPos: nat, dst: nat)
    requires Plain(line)
    ensures line == PrintPositions(srcPos, src, dstPos, dst) && Counts(line) == Inside(src, dst)
  {
    var p, q := HeaderParts(line);
    var rest, tail := line[4..], p.2[2..];
    DigitPairPrinted(rest);
    DigitPairPrinted(tail);
    srcPos, src, dstPos, dst := NumberOf(p.0, |p.0|), NumberOf(p.1, |p.1|), NumberOf(q.0, |q.0|), NumberOf(q.1, |q.1|);
    assert p.2 == PrintTarget(dstPos, dst);
    assert rest == PrintPair(srcPos, src, p.2);
  }

  // ----- what is printed is well formed

  /** scan takes a body line off what the open hunk owes. */
  ghost predicate FollowsLine(scan: Scanner<State>, src: nat, dst: nat, l: Line) {
    CleanText(l.text) && SafeLine(l) && (l.kind == Dst || src > 0) && (l.kind == Src || dst > 0) ==>
      scan(Inside(src, dst), PrintLine(l)) == Some(Inside(if l.kind == Dst then src else src - 1, if l.kind == Src then dst else dst - 1))
  }

  /** scan follows printed lines. */
  ghost predicate Follows(scan: Scanner<State>) {
    && (forall s, src :: CleanText(src) && Complete(s) ==> scan(s, PrintSrc(src)) == Some(Titled))
    && (forall dst :: CleanText(dst) ==> scan(Titled, PrintDst(dst)) == Some(Inside(0, 0)))
    && (forall c :: scan(Inside(0, 0), PrintHeader(c)) == Some(Inside(SideCount(c, Dst, |c.lines|), SideCount(c, Src, |c.lines|))))
    && (forall src, dst, l :: FollowsLine(scan, src, dst, l))
  }

  /** The lines on one side among the first n of a chunk: those not of kind k. */
  function SideCount(c: Chunk, k: Kind, n: nat): nat
    requires n <= |c.lines|
  {
    |LinesBut(c.lines, k, n)|
  }

  lemma WholePrinted(prefix: string, text: string)
    requires CleanText(text)
    ensures Whole(prefix, prefix + text + "\n") && TextOf(prefix, prefix + text + "\n") == text
  {
    var line := prefix + text + "\n";
    assert line[|prefix|..|line| - 1] == text;
  }

  lemma WholeIsPrinted(prefix: string, line: string)
    requires Whole(prefix, line)
    ensures line == prefix + TextOf(prefix, line) + "\n" && CleanText(TextOf(prefix, line))
  {
  }

  /** A payload looks like a file header exactly when it starts with the rest of one. */
  lemma PayloadPrefix(rest: string, l: Line)
    requires CleanText(rest)
    ensures Mark(l.kind) + rest <= PrintLine(l) <==> rest <= l.text
  {
    assert PrintLine(l) == Mark(l.kind) + (l.text + "\n");
    PrefixBehind(Mark(l.kind), rest, l.text + "\n");
    PrefixBeforeNewline(rest, l.text);
  }

  lemma SafeIffNoTitle(l: Line)
    ensures SafeLine(l) <==> !("--- " <= PrintLine(l)) && !("+++ " <= PrintLine(l))
  {
    assert "-" + "-- " == "--- " && "+" + "++ " == "+++ ";
    PayloadPrefix("-- ", l);
    PayloadPrefix("++ ", l);
    assert PrintLine(l)[0] == Mark(l.kind)[0];
  }

  lemma ScanTitle(s: State, src: string)
    requires CleanText(src) && Complete(s)
    ensures Scan(s, PrintSrc(src)) == Some(Titled)
  {
    WholePrinted("--- ", src);
  }

  lemma ScanPositions(srcPos: nat, src: nat, dstPos: nat, dst: nat)
    ensures Scan(Inside(0, 0), PrintPositions(srcPos, src, dstPos, dst)) == Some(Inside(src, dst))
  {
    var line := PrintPositions(srcPos, src, dstPos, dst);
    PrintedPositionsPlain(srcPos, src, dstPos, dst);
    assert line[0] == '@';
  }

  lemma ScanHeader(c: Chunk)
    ensures Scan(Inside(0, 0), PrintHeader(c)) == Some(Inside(SideCount(c, Dst, |c.lines|), SideCount(c, Src, |c.lines|)))
  {
    ScanPositions(c.srcPos, SideCount(c, Dst, |c.lines|), c.dstPos, SideCount(c, Src, |c.lines|));
  }

  lemma ScanFollows()
    ensures Follows(Scan)
  {
    forall s, src | CleanText(src) && Complete(s) ensures Scan(s, PrintSrc(src)) == Some(Titled) {
      ScanTitle(s, src);
    }
    forall dst | CleanText(dst) ensures Scan(Titled, PrintDst(dst)) == Some(Inside(0, 0)) {
      WholePrinted("+++ ", dst);
    }
    forall c ensures Scan(Inside(0, 0), PrintHeader(c)) == Some(Inside(SideCount(c, Dst, |c.lines|), SideCount(c, Src, |c.lines|))) {
      ScanHeader(c);
    }
    forall a, b, l ensures FollowsLine(Scan, a, b, l) {
      if CleanText(l.text) && SafeLine(l) && (l.kind == Dst || a > 0) && (l.kind == Src || b > 0) {
        ScanPrinted(a, b, l);
      }
    }
  }

  lemma ScanPrinted(a: nat, b: nat, l: Line)
    requires CleanText(l.text) && SafeLine(l) && (l.kind == Dst || a > 0) && (l.kind == Src || b > 0)
    ensures ScanBody(a, b, PrintLine(l)) == Some(Inside(if l.kind == Dst then a else a - 1, if l.kind == Src then b else b - 1))
  {
    SafeIffNoTitle(l);
    WholePrinted(Mark(l.kind), l.text);
    assert PrintLine(l)[0] == Mark(l.kind)[0];
  }

  /** What a hunk still owes on one side after its first n lines. */
  function Owed(lines: seq<Line>, k: Kind, n: nat): nat
    requires n <= |lines|
    decreases |lines| - n
  {
    if n == |lines| then 0 else Owed(lines, k, n + 1) + if lines[n].kind == k then 0 else 1
  }

  lemma {:induction false} OwedAtFirst(lines: seq<Line>, k: Kind, n: nat)
    requires n <= |lines|
    ensures |LinesBut(lines, k, n)| + Owed(lines, k, n) == |LinesBut(lines, k, |lines|)|
    decreases |lines| - n
  {
    if n < |lines| {
      OwedAtFirst(lines, k, n + 1);
    }
  }

  function StateAfter(c: Chunk, n: nat): State
    requires n <= |c.lines|
  {
    Inside(Owed(c.lines, Dst, n), Owed(c.lines, Src, n))
  }

  lemma FollowLine(scan: Scanner<State>, c: Chunk, n: nat)
    requires Follows(scan) && n < |c.lines| && CleanChunk(c) && SafeChunk(c)
    ensures scan(StateAfter(c, n), PrintLine(c.lines[n])) == Some(StateAfter(c, n + 1))
  {
    var l := c.lines[n];
    var a, b := Owed(c.lines, Dst, n), Owed(c.lines, Src, n);
    assert FollowsLine(scan, a, b, l);
    assert CleanText(l.text) && SafeLine(l);
  }

  lemma {:induction false} FollowBody(scan: Scanner<State>, c: Chunk, n: nat)
    requires Follows(scan) && n <= |c.lines| && CleanChunk(c) && SafeChunk(c)
    ensures Leads(scan, StateAfter(c, 0), PrintLines(c.lines, n), StateAfter(c, n))
  {
    var start := StateAfter(c, 0);
    if n == 0 {
    } else {
      var line, p, q := PrintLine(c.lines[n - 1]), StateAfter(c, n - 1), StateAfter(c, n);
      FollowBody(scan, c, n - 1);
      FollowLine(scan, c, n - 1);
      LeadsOn(scan, start, PrintLines(c.lines, n - 1), p, [line], q);
    }
  }

  lemma FollowChunk(scan: Scanner<State>, c: Chunk)
    requires Follows(scan) && CleanChunk(c) && SafeChunk(c)
    ensures Leads(scan, Inside(0, 0), PrintChunk(c), Inside(0, 0))
  {
    var q := StateAfter(c, 0);
    OwedAtFirst(c.lines, Dst, 0);
    OwedAtFirst(c.lines, Src, 0);
    FollowBody(scan, c, |c.lines|);
    LeadsOn(scan, Inside(0, 0), [PrintHeader(c)], q, PrintLines(c.lines, |c.lines|), Inside(0, 0));
  }

  lemma FollowOneMoreChunk(scan: Scanner<State>, lines: seq<string>, c: Chunk)
    requires Follows(scan) && CleanChunk(c) && SafeChunk(c) && Leads(scan, Inside(0, 0), lines, Inside(0, 0))
    ensures Leads(scan, Inside(0, 0), lines + PrintChunk(c), Inside(0, 0))
  {
    FollowChunk(scan, c);
    LeadsOn(scan, Inside(0, 0), lines, Inside(0, 0), PrintChunk(c), Inside(0, 0));
  }

  lemma {:induction false} FollowChunks(scan: Scanner<State>, chunks: seq<Chunk>, n: nat)
    requires Follows(scan) && n <= |chunks| && forall k :: 0 <= k < |chunks| ==> CleanChunk(chunks[k]) && SafeChunk(chunks[k])
    ensures Leads(scan, Inside(0, 0), PrintChunks(chunks, n), Inside(0, 0))
  {
    if n == 0 {
    } else {
      var c, lines := chunks[n - 1], PrintChunks(chunks, n - 1);
      FollowChunks(scan, chunks, n - 1);
      assert CleanChunk(c) && SafeChunk(c);
      FollowOneMoreChunk(scan, lines, c);
      assert PrintChunks(chunks, n) == lines + PrintChunk(c);
    }
  }

  lemma FollowPatch(scan: Scanner<State>, s: State, p: Patch)
    requires Follows(scan) && Complete(s) && CleanPatch(p) && SafePatch(p)
    ensures Leads(scan, s, PrintPatch(p), Inside(0, 0))
  {
    var chunks := PrintChunks(p.chunks, |p.chunks|);
    FollowChunks(scan, p.chunks, |p.chunks|);
    LeadsOn(scan, Titled, [PrintDst(p.dst)], Inside(0, 0), chunks, Inside(0, 0));
    LeadsOn(scan, s, [PrintSrc(p.src)], Titled, [PrintDst(p.dst)] + chunks, Inside(0, 0));
  }

  lemma FollowOneMore(scan: Scanner<State>, lines: seq<string>, s: State, p: Patch)
    requires Follows(scan) && Complete(s) && CleanPatch(p) && SafePatch(p) && Leads(scan, Outside, lines, s)
    ensures Leads(scan, Outside, lines + PrintPatch(p), Inside(0, 0))
  {
    FollowPatch(scan, s, p);
    LeadsOn(scan, Outside, lines, s, PrintPatch(p), Inside(0, 0));
  }

  lemma {:induction false} FollowPatches(scan: Scanner<State>, patches: seq<Patch>, n: nat)
    requires Follows(scan) && n <= |patches| && Clean(patches) && Safe(patches)
    ensures Leads(scan, Outside, Print(patches, n), if n == 0 then Outside else Inside(0, 0))
  {
    if n == 0 {
    } else {
      var p, lines := patches[n - 1], Print(patches, n - 1);
      FollowPatches(scan, patches, n - 1);
      assert CleanPatch(p) && SafePatch(p);
      FollowOneMore(scan, lines, if n == 1 then Outside else Inside(0, 0), p);
      assert Print(patches, n) == lines + PrintPatch(p);
    }
  }

  // ----- what is well formed can be printed

  /** What the text so far prints: finished patches, then one that is just titled, open, or in the middle of a hunk that owes lines. */
  datatype Draft =
    | Nothing
    | Title(done: seq<Patch>, name: string)
    | Open(done: seq<Patch>, patch: Patch)
    | Hunk(done: seq<Patch>, patch: Patch, chunk: Chunk, src: nat, dst: nat)

  function PrintHunk(c: Chunk, src: nat, dst: nat): seq<string> {
    [PrintPositions(c.srcPos, SideCount(c, Dst, |c.lines|) + src, c.dstPos, SideCount(c, Src, |c.lines|) + dst)] + PrintLines(c.lines, |c.lines|)
  }

  function HunkText(done: seq<Patch>, patch: Patch, hunk: seq<string>): seq<string> {
    Print(done, |done|) + (PrintPatch(patch) + hunk)
  }

  function Text(d: Draft): seq<string> {
    match d
    case Nothing => []
    case Title(done, name) => Print(done, |done|) + [PrintSrc(name)]
    case Open(done, patch) => Print(done, |done|) + PrintPatch(patch)
    case Hunk(done, patch, chunk, src, dst) => HunkText(done, patch, PrintHunk(chunk, src, dst))
  }

  function StateOf(d: Draft): State {
    match d
    case Nothing => Outside
    case Title(_, _) => Titled
    case Open(_, _) => Inside(0, 0)
    case Hunk(_, _, _, src, dst) => Inside(src, dst)
  }

  predicate Sound(d: Draft) {
    match d
    case Nothing => true
    case Title(done, name) => Clean(done) && Safe(done) && CleanText(name)
    case Open(done, patch) => Clean(done) && Safe(done) && CleanPatch(patch) && SafePatch(patch)
    case Hunk(done, patch, chunk, src, dst) =>
      Clean(done) && Safe(done) && CleanPatch(patch) && SafePatch(patch) && CleanChunk(chunk) && SafeChunk(chunk) && (src > 0 || dst > 0)
  }

  lemma PrintPatchAfter(patches: seq<Patch>, p: Patch)
    ensures Print(patches + [p], |patches| + 1) == Print(patches, |patches|) + PrintPatch(p)
  {
    FlatAfter(PrintPatch, patches, p);
  }

  lemma PrintChunkAfter(p: Patch, c: Chunk)
    ensures PrintPatch(WithChunk(p, c)) == PrintPatch(p) + PrintChunk(c)
  {
    FlatAfter(PrintChunk, p.chunks, c);
    var start, more := PrintChunks(p.chunks, |p.chunks|), PrintChunk(c);
    assert PrintChunks(p.chunks + [c], |p.chunks| + 1) == start + more;
    assert [PrintSrc(p.src)] + ([PrintDst(p.dst)] + (start + more)) == [PrintSrc(p.src)] + ([PrintDst(p.dst)] + start) + more;
  }

  lemma {:induction false} PrintLinesMore(lines: seq<Line>, l: Line, n: nat)
    requires n <= |lines|
    ensures PrintLines(lines + [l], n) == PrintLines(lines, n)
    ensures forall k :: LinesBut(lines + [l], k, n) == LinesBut(lines, k, n)
  {
    if n > 0 {
      PrintLinesMore(lines, l, n - 1);
    }
  }

  /** A line that a hunk owed, added to it. */
  lemma PrintLineAfter(c: Chunk, l: Line, src: nat, dst: nat)
    requires (l.kind == Dst || src > 0) && (l.kind == Src || dst > 0)
    ensures PrintHunk(c.(lines := c.lines + [l]), if l.kind == Dst then src else src - 1, if l.kind == Src then dst else dst - 1)
         == PrintHunk(c, src, dst) + [PrintLine(l)]
  {
    var c' := c.(lines := c.lines + [l]);
    PrintLinesMore(c.lines, l, |c.lines|);
    assert c'.lines[|c.lines|] == l && |c'.lines| == |c.lines| + 1;
    assert SideCount(c', Dst, |c'.lines|) == SideCount(c, Dst, |c.lines|) + if l.kind == Dst then 0 else 1;
    assert SideCount(c', Src, |c'.lines|) == SideCount(c, Src, |c.lines|) + if l.kind == Src then 0 else 1;
  }

  /** A hunk that owes nothing more is part of its patch. */
  function Settle(d: Draft): Draft {
    if d.Hunk? && d.src == 0 && d.dst == 0 then Open(d.done, WithChunk(d.patch, d.chunk)) else d
  }

  lemma SettleKeepsText(d: Draft)
    ensures Text(Settle(d)) == Text(d) && StateOf(Settle(d)) == StateOf(d)
  {
    if d.Hunk? && d.src == 0 && d.dst == 0 {
      PrintChunkAfter(d.patch, d.chunk);
    }
  }

  /** d is a draft of these lines, and the scanner is in state s after them. */
  predicate DraftOf(d: Draft, s: State, lines: seq<string>) {
    Sound(d) && StateOf(d) == s && Text(d) == lines
  }

  lemma Associate(a: seq<string>, b: seq<string>, c: seq<string>, line: string)
    ensures a + (b + (c + [line])) == a + (b + c) + [line]
    ensures a + (b + [line]) == a + b + [line]
  {
  }

  /** The patches of a draft in which nothing is missing. */
  lemma DraftPrints(d: Draft) returns (patches: seq<Patch>)
    requires Sound(d) && Complete(StateOf(d))
    ensures Clean(patches) && Safe(patches) && Print(patches, |patches|) == Text(d)
  {
    if d.Nothing? {
      patches := [];
    } else {
      PrintPatchAfter(d.done, d.patch);
      SoundMore(d.done, d.patch);
      patches := d.done + [d.patch];
    }
  }

  lemma SoundMore(patches: seq<Patch>, p: Patch)
    requires Clean(patches) && Safe(patches) && CleanPatch(p) && SafePatch(p)
    ensures Clean(patches + [p]) && Safe(patches + [p])
  {
  }

  lemma TitleNext(d: Draft, line: string) returns (d': Draft)
    requires Sound(d) && Complete(StateOf(d)) && Whole("--- ", line)
    ensures DraftOf(d', Titled, Text(d) + [line])
  {
    var name := TextOf("--- ", line);
    WholeIsPrinted("--- ", line);
    var done := DraftPrints(d);
    d' := Title(done, name);
  }

  lemma NamesNext(d: Draft, line: string) returns (d': Draft)
    requires Sound(d) && d.Title? && Whole("+++ ", line)
    ensures DraftOf(d', Inside(0, 0), Text(d) + [line])
  {
    var name := TextOf("+++ ", line);
    WholeIsPrinted("+++ ", line);
    d' := Open(d.done, Patch(d.name, name, []));
    assert PrintPatch(d'.patch) == [PrintSrc(d.name)] + [line];
  }

  lemma HeaderNext(d: Draft, line: string) returns (d': Draft)
    requires Sound(d) && d.Open? && Plain(line)
    ensures DraftOf(d', Counts(line), Text(d) + [line])
  {
    var srcPos, src, dstPos, dst := PlainIsPrinted(line);
    d' := OpenHunk(d, line, srcPos, src, dstPos, dst);
  }

  lemma OpenHunk(d: Draft, line: string, srcPos: nat, src: nat, dstPos: nat, dst: nat) returns (d': Draft)
    requires Sound(d) && d.Open? && line == PrintPositions(srcPos, src, dstPos, dst)
    ensures DraftOf(d', Inside(src, dst), Text(d) + [line])
  {
    var c := Chunk(srcPos, dstPos, []);
    var d0 := Hunk(d.done, d.patch, c, src, dst);
    assert PrintHunk(c, src, dst) == [line];
    Associate(Print(d.done, |d.done|), PrintPatch(d.patch), [], line);
    SettleKeepsText(d0);
    SettleSound(d0);
    d' := Settle(d0);
  }

  lemma SettleSound(d: Draft)
    requires d.Hunk? && Clean(d.done) && Safe(d.done) && CleanPatch(d.patch) && SafePatch(d.patch) && CleanChunk(d.chunk) && SafeChunk(d.chunk)
    ensures Sound(Settle(d))
  {
  }

  /** The line that a body line stands for. */
  lemma BodyMeans(line: string, k: Kind) returns (l: Line)
    requires Whole(Mark(k), line) && !("--- " <= line) && !("+++ " <= line)
    ensures l.kind == k && line == PrintLine(l) && CleanText(l.text) && SafeLine(l)
  {
    l := Line(k, TextOf(Mark(k), line));
    WholeIsPrinted(Mark(k), line);
    SafeIffNoTitle(l);
  }

  lemma BodyNext(d: Draft, line: string) returns (d': Draft)
    requires Sound(d) && d.Hunk? && ScanBody(d.src, d.dst, line).Some?
    ensures DraftOf(d', ScanBody(d.src, d.dst, line).value, Text(d) + [line])
  {
    var k := if Whole("-", line) && d.src > 0 then Src else if Whole("+", line) && d.dst > 0 then Dst else Both;
    var l := BodyMeans(line, k);
    d' := FillHunk(d, l);
  }

  /** The draft with one more line in its open hunk. */
  function Filled(d: Draft, l: Line): Draft
    requires d.Hunk? && (l.kind == Dst || d.src > 0) && (l.kind == Src || d.dst > 0)
  {
    Hunk(d.done, d.patch, d.chunk.(lines := d.chunk.lines + [l]),
         if l.kind == Dst then d.src else d.src - 1, if l.kind == Src then d.dst else d.dst - 1)
  }

  lemma HunkTextMore(done: seq<Patch>, patch: Patch, hunk: seq<string>, line: string)
    ensures HunkText(done, patch, hunk + [line]) == HunkText(done, patch, hunk) + [line]
  {
    Associate(Print(done, |done|), PrintPatch(patch), hunk, line);
  }

  lemma FilledText(d: Draft, l: Line)
    requires d.Hunk? && (l.kind == Dst || d.src > 0) && (l.kind == Src || d.dst > 0)
    ensures Text(Filled(d, l)) == Text(d) + [PrintLine(l)]
  {
    PrintLineAfter(d.chunk, l, d.src, d.dst);
    HunkTextMore(d.done, d.patch, PrintHunk(d.chunk, d.src, d.dst), PrintLine(l));
  }

  lemma FilledSound(d: Draft, l: Line)
    requires Sound(d) && d.Hunk? && CleanText(l.text) && SafeLine(l)
    requires (l.kind == Dst || d.src > 0) && (l.kind == Src || d.dst > 0)
    ensures Sound(Settle(Filled(d, l)))
  {
    SettleSound(Filled(d, l));
  }

  lemma FillHunk(d: Draft, l: Line) returns (d': Draft)
    requires Sound(d) && d.Hunk? && CleanText(l.text) && SafeLine(l)
    requires (l.kind == Dst || d.src > 0) && (l.kind == Src || d.dst > 0)
    ensures DraftOf(d', StateOf(Filled(d, l)), Text(d) + [PrintLine(l)])
  {
    FilledText(d, l);
    FilledSound(d, l);
    SettleKeepsText(Filled(d, l));
    d' := Settle(Filled(d, l));
  }

  lemma DraftNext(d: Draft, line: string) returns (d': Draft)
    requires Sound(d) && Scan(StateOf(d), line).Some?
    ensures DraftOf(d', Scan(StateOf(d), line).value, Text(d) + [line])
  {
    if d.Title? {
      d' := NamesNext(d, line);
    } else if d.Hunk? {
      d' := BodyNext(d, line);
    } else if Whole("--- ", line) {
      d' := TitleNext(d, line);
    } else {
      d' := HeaderNext(d, line);
    }
  }

  ghost predicate Drafted(s: State, lines: seq<string>) {
    exists d :: DraftOf(d, s, lines)
  }

  /** What holds at first and is kept by every line holds after every text. */
  lemma {:induction false} Always(scan: Scanner<State>, holds: (State, seq<string>) -> bool, lines: seq<string>, n: nat)
    requires holds(Outside, [])
    requires forall s, text, line :: holds(s, text) && scan(s, line).Some? ==> holds(scan(s, line).value, text + [line])
    requires n <= |lines| && ParseFrom(scan, Outside, lines, n).Some?
    ensures holds(ParseFrom(scan, Outside, lines, n).value, lines[..n])
  {
    if n == 0 {
      assert lines[..0] == [];
    } else {
      Always(scan, holds, lines, n - 1);
      assert lines[..n - 1] + [lines[n - 1]] == lines[..n];
    }
  }

  lemma CanonicalIsWellFormed(lines: seq<string>)
    requires Canonical(lines)
    ensures WellFormedDiff(lines)
  {
    var patches :| Proper(patches) && lines == Print(patches, |patches|);
    ScanFollows();
    FollowPatches(Scan, patches, |patches|);
  }

  lemma EveryTextDrafted(lines: seq<string>)
    requires ParseFrom(Scan, Outside, lines, |lines|).Some?
    ensures Drafted(ParseFrom(Scan, Outside, lines, |lines|).value, lines)
  {
    assert DraftOf(Nothing, Outside, []);
    forall s, text, line | Drafted(s, text) && Scan(s, line).Some? ensures Drafted(Scan(s, line).value, text + [line]) {
      var d :| DraftOf(d, s, text);
      var d' := DraftNext(d, line);
    }
    Always(Scan, Drafted, lines, |lines|);
    assert lines[..|lines|] == lines;
  }

  lemma WellFormedIsCanonical(lines: seq<string>)
    requires WellFormedDiff(lines)
    ensures Canonical(lines)
  {
    EveryTextDrafted(lines);
    var d :| DraftOf(d, ParseFrom(Scan, Outside, lines, |lines|).value, lines);
    var patches := DraftPrints(d);
  }

  /** Reading a text and printing the result reproduces it exactly when the text is well formed. */
  lemma ReproducedIffWellFormed(lines: seq<string>)
    ensures Reproduced(lines) <==> WellFormedDiff(lines)
  {
    ReproducedIffCanonical(lines);
    if Canonical(lines) {
      CanonicalIsWellFormed(lines);
    }
    if WellFormedDiff(lines) {
      WellFormedIsCanonical(lines);
    }
  }
}
