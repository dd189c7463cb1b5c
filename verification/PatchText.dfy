// Unified diffs as values: printing, and parsing line by line.
module PatchText {
  import opened Wrappers
  import opened Sequences

  datatype Kind = Src | Dst | Both

  datatype Line = Line(kind: Kind, text: string)

  datatype Chunk = Chunk(srcPos: nat, dstPos: nat, lines: seq<Line>)

  datatype Patch = Patch(src: string, dst: string, chunks: seq<Chunk>)

  /** The parser's variables: the patches so far, and which of them has the chunk that lines are added to. */
  datatype Parsing = Parsing(patches: seq<Patch>, current: Option<nat>)

  // ----- decimal numbers

  predicate IsDigit(c: char) {
    '0' <= c <= '9'
  }

  function DigitChar(d: nat): char
    requires d < 10
  {
    '0' + d as char
  }

  function DigitValue(c: char): nat
    requires IsDigit(c)
  {
    (c - '0') as nat
  }

  function Decimal(n: nat): string {
    if n < 10 then [DigitChar(n)] else Decimal(n / 10) + [DigitChar(n % 10)]
  }

  /** The length of the longest run of digits at the start of s. */
  function DigitRun(s: string): (k: nat)
    ensures k <= |s| && (forall i :: 0 <= i < k ==> IsDigit(s[i])) && (k < |s| ==> !IsDigit(s[k]))
  {
    if s == "" || !IsDigit(s[0]) then 0 else 1 + DigitRun(s[1..])
  }

  function NumberOf(s: string, k: nat): nat
    requires k <= |s| && forall i :: 0 <= i < k ==> IsDigit(s[i])
  {
    if k == 0 then 0 else 10 * NumberOf(s, k - 1) + DigitValue(s[k - 1])
  }

  /** A number at the start of s, and what follows it. */
  function ReadNumber(s: string): Option<(nat, string)> {
    var k := DigitRun(s);
    if k == 0 then None else Some((NumberOf(s, k), s[k..]))
  }

  /** What follows a fixed text at the start of s. */
  function ReadText(prefix: string, s: string): Option<string> {
    if prefix <= s then Some(s[|prefix|..]) else None
  }

  lemma {:induction false} DecimalDigits(n: nat)
    ensures Decimal(n) != "" && forall i :: 0 <= i < |Decimal(n)| ==> IsDigit(Decimal(n)[i])
    ensures NumberOf(Decimal(n), |Decimal(n)|) == n
  {
    if n >= 10 {
      DecimalDigits(n / 10);
      NumberOfPrefix(Decimal(n / 10), [DigitChar(n % 10)], |Decimal(n / 10)|);
    }
  }

  lemma {:induction false} NumberOfPrefix(a: string, b: string, k: nat)
    requires k <= |a| && forall i :: 0 <= i < k ==> IsDigit(a[i])
    ensures (forall i :: 0 <= i < k ==> IsDigit((a + b)[i])) && NumberOf(a + b, k) == NumberOf(a, k)
  {
    if k > 0 {
      NumberOfPrefix(a, b, k - 1);
    }
  }

  lemma {:induction false} DigitRunOf(d: string, rest: string)
    requires forall i :: 0 <= i < |d| ==> IsDigit(d[i])
    requires rest == "" || !IsDigit(rest[0])
    ensures DigitRun(d + rest) == |d|
  {
    if d == "" {
      assert d + rest == rest;
    } else {
      DigitRunOf(d[1..], rest);
      assert (d + rest)[1..] == d[1..] + rest;
    }
  }

  lemma ReadDecimal(n: nat, rest: string)
    requires rest == "" || !IsDigit(rest[0])
    ensures ReadNumber(Decimal(n) + rest) == Some((n, rest))
  {
    var d := Decimal(n);
    DecimalDigits(n);
    NumberOfPrefix(d, rest, |d|);
    DigitRunOf(d, rest);
    assert (d + rest)[|d|..] == rest;
  }

  lemma ReadPrefix(prefix: string, rest: string)
    ensures ReadText(prefix, prefix + rest) == Some(rest)
  {
    assert (prefix + rest)[|prefix|..] == rest;
  }

  // ----- the patterns

  /** Anything up to the end of the line; a final newline does not count. */
  function Payload(rest: string): Option<string> {
    var text := if rest != "" && Last(rest) == '\n' then rest[..|rest| - 1] else rest;
    if '\n' in text then None else Some(text)
  }

  function MatchLine(prefix: string, line: string): Option<string> {
    if prefix <= line then Payload(line[|prefix|..]) else None
  }

  /** Two numbers with a comma between them, and what follows. */
  function ReadPair(s: string): Option<(nat, nat, string)> {
    var a := ReadNumber(s);
    if a.None? then None else
    var b := ReadText(",", a.value.1);
    if b.None? then None else
    var c := ReadNumber(b.value);
    if c.None? then None else Some((a.value.0, c.value.0, c.value.1))
  }

  /** The second half of a chunk header. */
  function ReadTarget(s: string): Option<(nat, nat)> {
    var a := ReadText(" +", s);
    if a.None? then None else
    var b := ReadPair(a.value);
    if b.None? || ReadText(" @@", b.value.2).None? then None else Some((b.value.0, b.value.1))
  }

  /** The positions and counts in a chunk header; what follows it is ignored. */
  function ReadHeader(line: string): Option<(nat, nat, nat, nat)> {
    var a := ReadText("@@ -", line);
    if a.None? then None else
    var b := ReadPair(a.value);
    if b.None? then None else
    var c := ReadTarget(b.value.2);
    if c.None? then None else Some((b.value.0, b.value.1, c.value.0, c.value.1))
  }

  /** The parser uses only the positions. */
  function MatchChunk(line: string): Option<(nat, nat)> {
    var h := ReadHeader(line);
    if h.None? then None else Some((h.value.0, h.value.2))
  }

  // ----- parsing

  function AddLine(p: Parsing, l: Line): Option<Parsing> {
    if p.current.None? || p.current.value >= |p.patches| then None
    else
      var i := p.current.value;
      var patch := p.patches[i];
      if patch.chunks == [] then None
      else
        var chunk := Last(patch.chunks);
        var chunk' := chunk.(lines := chunk.lines + [l]);
        Some(p.(patches := p.patches[i := patch.(chunks := patch.chunks[..|patch.chunks| - 1] + [chunk'])]))
  }

  function AddPatch(p: Parsing, src: string): Option<Parsing> {
    Some(p.(patches := p.patches + [Patch(src, "", [])]))
  }

  function SetDst(p: Parsing, dst: string): Option<Parsing> {
    if p.patches == [] then None
    else Some(p.(patches := p.patches[|p.patches| - 1 := Last(p.patches).(dst := dst)]))
  }

  function AddChunk(p: Parsing, srcPos: nat, dstPos: nat): Option<Parsing> {
    if p.patches == [] then None
    else
      var last := |p.patches| - 1;
      var patch := p.patches[last];
      Some(Parsing(p.patches[last := patch.(chunks := patch.chunks + [Chunk(srcPos, dstPos, [])])], Some(last)))
  }

  /** What one line does; None where the parser raises. */
  function Step(p: Parsing, line: string): Option<Parsing> {
    var src := MatchLine("--- ", line);
    if src.Some? then AddPatch(p, src.value) else
    var dst := MatchLine("+++ ", line);
    if dst.Some? then SetDst(p, dst.value) else
    var start := MatchChunk(line);
    if start.Some? then AddChunk(p, start.value.0, start.value.1) else
    var minus := MatchLine("-", line);
    if minus.Some? then AddLine(p, Line(Src, minus.value)) else
    var plus := MatchLine("+", line);
    if plus.Some? then AddLine(p, Line(Dst, plus.value)) else
    var space := MatchLine(" ", line);
    if space.Some? then AddLine(p, Line(Both, space.value)) else None
  }

  type Scanner<!P> = (P, string) -> Option<P>

  type Reader = Scanner<Parsing>

  /** The state after the first n lines, from p on, when step reads a line. */
  function ParseFrom<P>(step: Scanner<P>, p: P, lines: seq<string>, n: nat): Option<P>
    requires n <= |lines|
  {
    if n == 0 then Some(p)
    else
      var q := ParseFrom(step, p, lines, n - 1);
      if q.None? then None else step(q.value, lines[n - 1])
  }

  const START := Parsing([], None)

  function Parse(lines: seq<string>): Option<seq<Patch>> {
    var p := ParseFrom(Step, START, lines, |lines|);
    if p.None? then None else Some(p.value.patches)
  }

  // ----- printing

  function Mark(k: Kind): string {
    match k
    case Src => "-"
    case Dst => "+"
    case Both => " "
  }

  function PrintLine(l: Line): string {
    Mark(l.kind) + l.text + "\n"
  }

  function PrintLines(lines: seq<Line>, n: nat): seq<string>
    requires n <= |lines|
  {
    if n == 0 then [] else PrintLines(lines, n - 1) + [PrintLine(lines[n - 1])]
  }

  /** Those of the first n lines that are not of kind k: the source side is all but Dst, the destination side all but Src. */
  function LinesBut(lines: seq<Line>, k: Kind, n: nat): seq<Line>
    requires n <= |lines|
  {
    if n == 0 then [] else LinesBut(lines, k, n - 1) + if lines[n - 1].kind == k then [] else [lines[n - 1]]
  }

  ghost function OnSide(lines: seq<Line>, k: Kind): set<nat> {
    set i: nat | i < |lines| && (lines[i].kind == k || lines[i].kind == Both)
  }

  /** The items at these places of lines, in order, are those of kind k and those on both sides. */
  ghost predicate Picks(lines: seq<Line>, k: Kind, picked: seq<Line>, at: seq<nat>) {
    && |at| == |picked|
    && (forall j :: 0 <= j < |at| ==> at[j] < |lines| && picked[j] == lines[at[j]])
    && (forall i, j :: 0 <= i < j < |at| ==> at[i] < at[j])
    && Elements(at) == OnSide(lines, k)
  }

  /** One side of a chunk: its lines of kind k and those on both sides, and no others. */
  ghost predicate IsSide(lines: seq<Line>, k: Kind, side: seq<Line>) {
    exists at :: Picks(lines, k, side, at)
  }

  lemma {:induction false} LinesButPicks(lines: seq<Line>, k: Kind, other: Kind, n: nat) returns (at: seq<nat>)
    requires n <= |lines| && ((k == Src && other == Dst) || (k == Dst && other == Src))
    ensures Picks(lines[..n], k, LinesBut(lines, other, n), at)
  {
    if n == 0 {
      at := [];
    } else {
      var front := LinesButPicks(lines, k, other, n - 1);
      at := front + if lines[n - 1].kind == other then [] else [n - 1];
      var more := if lines[n - 1].kind == other then {} else {n - 1};
      assert lines[..n] == lines[..n - 1] + [lines[n - 1]];
      assert OnSide(lines[..n], k) == OnSide(lines[..n - 1], k) + more;
      assert Elements(at) == Elements(front) + more;
    }
  }

  /** Leaving out what is on the other side only leaves this side. */
  lemma LinesButIsSide(lines: seq<Line>)
    ensures IsSide(lines, Src, LinesBut(lines, Dst, |lines|)) && IsSide(lines, Dst, LinesBut(lines, Src, |lines|))
  {
    var src := LinesButPicks(lines, Src, Dst, |lines|);
    var dst := LinesButPicks(lines, Dst, Src, |lines|);
    assert lines[..|lines|] == lines;
  }

  function PrintPair(a: nat, b: nat, rest: string): string {
    Decimal(a) + ("," + (Decimal(b) + rest))
  }

  function PrintTarget(dstPos: nat, dstLen: nat): string {
    " +" + PrintPair(dstPos, dstLen, " @@\n")
  }

  function PrintPositions(srcPos: nat, srcLen: nat, dstPos: nat, dstLen: nat): string {
    "@@ -" + PrintPair(srcPos, srcLen, PrintTarget(dstPos, dstLen))
  }

  function PrintHeader(c: Chunk): string {
    PrintPositions(c.srcPos, |LinesBut(c.lines, Dst, |c.lines|)|, c.dstPos, |LinesBut(c.lines, Src, |c.lines|)|)
  }

  function PrintChunk(c: Chunk): seq<string> {
    [PrintHeader(c)] + PrintLines(c.lines, |c.lines|)
  }

  /** What f makes of each of the first n of xs, one after another. */
  function Flat<X>(f: X -> seq<string>, xs: seq<X>, n: nat): seq<string>
    requires n <= |xs|
  {
    if n == 0 then [] else Flat(f, xs, n - 1) + f(xs[n - 1])
  }

  lemma {:induction false} FlatMore<X>(f: X -> seq<string>, xs: seq<X>, x: X, n: nat)
    requires n <= |xs|
    ensures Flat(f, xs + [x], n) == Flat(f, xs, n)
  {
    if n > 0 {
      FlatMore(f, xs, x, n - 1);
    }
  }

  lemma FlatAfter<X>(f: X -> seq<string>, xs: seq<X>, x: X)
    ensures Flat(f, xs + [x], |xs| + 1) == Flat(f, xs, |xs|) + f(x)
  {
    FlatMore(f, xs, x, |xs|);
  }

  function PrintChunks(chunks: seq<Chunk>, n: nat): seq<string>
    requires n <= |chunks|
  {
    Flat(PrintChunk, chunks, n)
  }

  function PrintSrc(src: string): string {
    "--- " + src + "\n"
  }

  function PrintDst(dst: string): string {
    "+++ " + dst + "\n"
  }

  function PrintPatch(p: Patch): seq<string> {
    [PrintSrc(p.src)] + ([PrintDst(p.dst)] + PrintChunks(p.chunks, |p.chunks|))
  }

  function Print(patches: seq<Patch>, n: nat): seq<string>
    requires n <= |patches|
  {
    Flat(PrintPatch, patches, n)
  }

  // ----- parsing what has been printed

  predicate CleanText(s: string) {
    '\n' !in s
  }

  /** A payload that does not make its line look like a file header. */
  predicate SafeLine(l: Line) {
    match l.kind
    case Src => !("-- " <= l.text)
    case Dst => !("++ " <= l.text)
    case Both => true
  }

  predicate CleanChunk(c: Chunk) {
    forall k :: 0 <= k < |c.lines| ==> CleanText(c.lines[k].text)
  }

  predicate CleanPatch(p: Patch) {
    CleanText(p.src) && CleanText(p.dst) && forall k :: 0 <= k < |p.chunks| ==> CleanChunk(p.chunks[k])
  }

  predicate Clean(patches: seq<Patch>) {
    forall k :: 0 <= k < |patches| ==> CleanPatch(patches[k])
  }

  predicate SafeChunk(c: Chunk) {
    forall k :: 0 <= k < |c.lines| ==> SafeLine(c.lines[k])
  }

  predicate SafePatch(p: Patch) {
    forall k :: 0 <= k < |p.chunks| ==> SafeChunk(p.chunks[k])
  }

  /** No removed payload starts with "-- " and no added one with "++ ". */
  predicate Safe(patches: seq<Patch>) {
    forall k :: 0 <= k < |patches| ==> SafePatch(patches[k])
  }

  lemma {:induction false} ParseConcat<P>(step: Scanner<P>, p: P, a: seq<string>, b: seq<string>, n: nat)
    requires n <= |a| + |b|
    ensures ParseFrom(step, p, a + b, n) ==
            if n <= |a| then ParseFrom(step, p, a, n)
            else var q := ParseFrom(step, p, a, |a|); if q.None? then None else ParseFrom(step, q.value, b, n - |a|)
  {
    if n > 0 {
      ParseConcat(step, p, a, b, n - 1);
    }
  }

  /** step leads from p to q over these lines. */
  ghost predicate Leads<P>(step: Scanner<P>, p: P, lines: seq<string>, q: P) {
    ParseFrom(step, p, lines, |lines|) == Some(q)
  }

  lemma LeadsOn<P>(step: Scanner<P>, p: P, a: seq<string>, q: P, b: seq<string>, r: P)
    requires Leads(step, p, a, q) && Leads(step, q, b, r)
    ensures Leads(step, p, a + b, r)
  {
    ParseConcat(step, p, a, b, |a + b|);
    if b == [] {
      assert a + b == a;
    }
  }

  lemma MatchPrinted(prefix: string, text: string)
    requires CleanText(text)
    ensures MatchLine(prefix, prefix + text + "\n") == Some(text)
  {
    var line := prefix + text + "\n";
    assert line[|prefix|..] == text + "\n";
    assert (text + "\n")[..|text|] == text;
  }

  lemma NoMatch(prefix: string, line: string, i: nat)
    requires i < |prefix| && (i >= |line| || line[i] != prefix[i])
    ensures MatchLine(prefix, line) == None
    ensures i == 0 && prefix == "@@ -" ==> MatchChunk(line) == None
  {
  }

  /** A body line with a safe payload is read as what it is. */
  lemma StepBody(p: Parsing, l: Line)
    requires CleanText(l.text) && SafeLine(l)
    ensures Step(p, PrintLine(l)) == AddLine(p, l)
  {
    var line := PrintLine(l);
    NoMatch("@@ -", line, 0);
    MatchPrinted(Mark(l.kind), l.text);
    match l.kind
    case Src =>
      PayloadMatch("--- ", "-- ", l);
      NoMatch("+++ ", line, 0);
    case Dst =>
      NoMatch("--- ", line, 0);
      PayloadMatch("+++ ", "++ ", l);
      NoMatch("-", line, 0);
    case Both =>
      NoMatch("--- ", line, 0);
      NoMatch("+++ ", line, 0);
      NoMatch("-", line, 0);
      NoMatch("+", line, 0);
  }

  /** A payload makes its line look like a file header exactly when it starts with the rest of one. */
  lemma PayloadMatch(prefix: string, rest: string, l: Line)
    requires CleanText(l.text)
    requires prefix == Mark(l.kind) + rest && rest in ["-- ", "++ "]
    ensures MatchLine(prefix, PrintLine(l)).Some? <==> rest <= l.text
  {
    var line := PrintLine(l);
    assert line == Mark(l.kind) + (l.text + "\n");
    PrefixBehind(Mark(l.kind), rest, l.text + "\n");
    PrefixBeforeNewline(rest, l.text);
    if rest <= l.text {
      var text := l.text[3..];
      assert l.text == rest + text;
      assert line == prefix + text + "\n";
      MatchPrinted(prefix, text);
    }
  }

  lemma PrefixBeforeNewline(a: string, s: string)
    requires CleanText(a)
    ensures a <= s + "\n" <==> a <= s
  {
    if |a| <= |s| {
      assert (s + "\n")[..|a|] == s[..|a|];
    } else {
      assert a[|s|] in a;
    }
  }

  lemma PrefixBehind(a: string, b: string, s: string)
    ensures a + b <= a + s <==> b <= s
  {
    if a + b <= a + s {
      assert b == (a + b)[|a|..] && s == (a + s)[|a|..];
      assert (a + s)[..|a + b|] == a + b;
      assert s[..|b|] == b;
    }
    if b <= s {
      assert (a + s)[..|a + b|] == a + b;
    }
  }

  lemma ReadPrintedPair(a: nat, b: nat, rest: string)
    requires rest == "" || !IsDigit(rest[0])
    ensures ReadPair(PrintPair(a, b, rest)) == Some((a, b, rest))
  {
    var tail := Decimal(b) + rest;
    ReadDecimal(a, "," + tail);
    ReadPrefix(",", tail);
    ReadDecimal(b, rest);
  }

  lemma ReadPrintedTarget(dstPos: nat, dstLen: nat)
    ensures ReadTarget(PrintTarget(dstPos, dstLen)) == Some((dstPos, dstLen))
  {
    ReadPrefix(" +", PrintPair(dstPos, dstLen, " @@\n"));
    ReadPrintedPair(dstPos, dstLen, " @@\n");
    assert " @@" <= " @@\n";
  }

  lemma MatchPositions(srcPos: nat, srcLen: nat, dstPos: nat, dstLen: nat)
    ensures ReadHeader(PrintPositions(srcPos, srcLen, dstPos, dstLen)) == Some((srcPos, srcLen, dstPos, dstLen))
  {
    var target := PrintTarget(dstPos, dstLen);
    ReadPrefix("@@ -", PrintPair(srcPos, srcLen, target));
    ReadPrintedPair(srcPos, srcLen, target);
    ReadPrintedTarget(dstPos, dstLen);
  }

  lemma MatchHeader(c: Chunk)
    ensures MatchChunk(PrintHeader(c)) == Some((c.srcPos, c.dstPos))
  {
    MatchPositions(c.srcPos, |LinesBut(c.lines, Dst, |c.lines|)|, c.dstPos, |LinesBut(c.lines, Src, |c.lines|)|);
  }

  lemma StepHeader(p: Parsing, c: Chunk)
    ensures Step(p, PrintHeader(c)) == AddChunk(p, c.srcPos, c.dstPos)
  {
    NoMatch("--- ", PrintHeader(c), 0);
    NoMatch("+++ ", PrintHeader(c), 0);
    MatchHeader(c);
  }

  lemma StepSrc(p: Parsing, src: string)
    requires CleanText(src)
    ensures Step(p, PrintSrc(src)) == AddPatch(p, src)
  {
    MatchPrinted("--- ", src);
  }

  lemma StepDst(p: Parsing, dst: string)
    requires CleanText(dst)
    ensures Step(p, PrintDst(dst)) == SetDst(p, dst)
  {
    NoMatch("--- ", PrintDst(dst), 0);
    MatchPrinted("+++ ", dst);
  }

  /** step reads every kind of printed line as what it is. */
  ghost predicate Reads(step: Reader) {
    && (forall p, l: Line :: CleanText(l.text) && SafeLine(l) ==> step(p, PrintLine(l)) == AddLine(p, l))
    && (forall p, c :: step(p, PrintHeader(c)) == AddChunk(p, c.srcPos, c.dstPos))
    && (forall p, src :: CleanText(src) ==> step(p, PrintSrc(src)) == AddPatch(p, src))
    && (forall p, dst :: CleanText(dst) ==> step(p, PrintDst(dst)) == SetDst(p, dst))
  }

  lemma StepReads()
    ensures Reads(Step)
  {
    forall p, l: Line | CleanText(l.text) && SafeLine(l) ensures Step(p, PrintLine(l)) == AddLine(p, l) {
      StepBody(p, l);
    }
    forall p, c ensures Step(p, PrintHeader(c)) == AddChunk(p, c.srcPos, c.dstPos) {
      StepHeader(p, c);
    }
    forall p, src | CleanText(src) ensures Step(p, PrintSrc(src)) == AddPatch(p, src) {
      StepSrc(p, src);
    }
    forall p, dst | CleanText(dst) ensures Step(p, PrintDst(dst)) == SetDst(p, dst) {
      StepDst(p, dst);
    }
  }

  /** The parser with these patches before the last one. */
  function At(ps: seq<Patch>, last: Patch, current: Option<nat>): Parsing {
    Parsing(ps + [last], current)
  }

  /** p with one more chunk. */
  function WithChunk(p: Patch, c: Chunk): Patch {
    p.(chunks := p.chunks + [c])
  }

  lemma AddToLast(ps: seq<Patch>, p: Patch, c: Chunk, l: Line)
    ensures AddLine(At(ps, WithChunk(p, c), Some(|ps|)), l)
         == Some(At(ps, WithChunk(p, c.(lines := c.lines + [l])), Some(|ps|)))
  {
    var chunks := p.chunks + [c];
    assert chunks[..|chunks| - 1] == p.chunks;
    var p' := WithChunk(p, c.(lines := c.lines + [l]));
    assert (ps + [WithChunk(p, c)])[|ps| := p'] == ps + [p'];
  }

  lemma {:induction false} ParseBody(step: Reader, ps: seq<Patch>, p: Patch, c: Chunk, n: nat)
    requires Reads(step)
    requires n <= |c.lines| && CleanChunk(c) && SafeChunk(c)
    ensures Leads(step, At(ps, WithChunk(p, c.(lines := [])), Some(|ps|)), PrintLines(c.lines, n),
                  At(ps, WithChunk(p, c.(lines := c.lines[..n])), Some(|ps|)))
  {
    var start := At(ps, WithChunk(p, c.(lines := [])), Some(|ps|));
    if n == 0 {
      assert c.lines[..0] == [];
    } else {
      var l, q := c.lines[n - 1], At(ps, WithChunk(p, c.(lines := c.lines[..n - 1])), Some(|ps|));
      ParseBody(step, ps, p, c, n - 1);
      AddToLast(ps, p, c.(lines := c.lines[..n - 1]), l);
      assert c.lines[..n - 1] + [l] == c.lines[..n];
      LeadsOn(step, start, PrintLines(c.lines, n - 1), q, [PrintLine(l)], At(ps, WithChunk(p, c.(lines := c.lines[..n])), Some(|ps|)));
    }
  }

  lemma ParseChunk(step: Reader, ps: seq<Patch>, p: Patch, c: Chunk, current: Option<nat>)
    requires Reads(step)
    requires CleanChunk(c) && SafeChunk(c)
    ensures Leads(step, At(ps, p, current), PrintChunk(c), At(ps, WithChunk(p, c), Some(|ps|)))
  {
    var p0 := WithChunk(p, Chunk(c.srcPos, c.dstPos, []));
    assert (ps + [p])[|ps| := p0] == ps + [p0];
    ParseBody(step, ps, p, c, |c.lines|);
    assert c.lines[..|c.lines|] == c.lines;
    LeadsOn(step, At(ps, p, current), [PrintHeader(c)], At(ps, p0, Some(|ps|)), PrintLines(c.lines, |c.lines|), At(ps, WithChunk(p, c), Some(|ps|)));
  }

  /** Which patch has the latest chunk, if the first n chunks of the last patch have been read. */
  function CurrentAfter(ps: seq<Patch>, n: nat, current: Option<nat>): Option<nat> {
    if n == 0 then current else Some(|ps|)
  }

  lemma {:induction false} ParseChunks(step: Reader, ps: seq<Patch>, p: Patch, n: nat, current: Option<nat>)
    requires Reads(step)
    requires n <= |p.chunks| && CleanPatch(p) && SafePatch(p)
    ensures Leads(step, At(ps, p.(chunks := []), current), PrintChunks(p.chunks, n), At(ps, p.(chunks := p.chunks[..n]), CurrentAfter(ps, n, current)))
  {
    var start := At(ps, p.(chunks := []), current);
    if n == 0 {
      assert p.chunks[..0] == [];
    } else {
      var c, p0 := p.chunks[n - 1], p.(chunks := p.chunks[..n - 1]);
      var before := CurrentAfter(ps, n - 1, current);
      ParseChunks(step, ps, p, n - 1, current);
      ParseChunk(step, ps, p0, c, before);
      assert p.chunks[..n - 1] + [c] == p.chunks[..n];
      LeadsOn(step, start, PrintChunks(p.chunks, n - 1), At(ps, p0, before), PrintChunk(c), At(ps, WithChunk(p0, c), Some(|ps|)));
    }
  }

  lemma ParsePatch(step: Reader, ps: seq<Patch>, p: Patch, current: Option<nat>)
    requires Reads(step)
    requires CleanPatch(p) && SafePatch(p)
    ensures Leads(step, Parsing(ps, current), PrintPatch(p), At(ps, p, CurrentAfter(ps, |p.chunks|, current)))
  {
    var p0, p1 := Patch(p.src, "", []), Patch(p.src, p.dst, []);
    var end := At(ps, p, CurrentAfter(ps, |p.chunks|, current));
    var chunks := PrintChunks(p.chunks, |p.chunks|);
    assert (ps + [p0])[|ps| := p1] == ps + [p1];
    ParseChunks(step, ps, p, |p.chunks|, current);
    assert p.chunks[..|p.chunks|] == p.chunks;
    LeadsOn(step, At(ps, p0, current), [PrintDst(p.dst)], At(ps, p1, current), chunks, end);
    LeadsOn(step, Parsing(ps, current), [PrintSrc(p.src)], At(ps, p0, current), [PrintDst(p.dst)] + chunks, end);
  }

  lemma ParseOnePatchMore(step: Reader, lines: seq<string>, ps: seq<Patch>, p: Patch, current: Option<nat>)
    requires Reads(step)
    requires CleanPatch(p) && SafePatch(p)
    requires Leads(step, START, lines, Parsing(ps, current))
    ensures Leads(step, START, lines + PrintPatch(p), Parsing(ps + [p], CurrentAfter(ps, |p.chunks|, current)))
  {
    ParsePatch(step, ps, p, current);
    LeadsOn(step, START, lines, Parsing(ps, current), PrintPatch(p), At(ps, p, CurrentAfter(ps, |p.chunks|, current)));
  }

  /** The patch that got a chunk last among the first n. */
  function LastWithChunk(patches: seq<Patch>, n: nat): Option<nat>
    requires n <= |patches|
  {
    if n == 0 then None else CurrentAfter(patches[..n - 1], |patches[n - 1].chunks|, LastWithChunk(patches, n - 1))
  }

  /** The first n printed patches lead to the first n patches. */
  ghost predicate LeadsTo(step: Reader, patches: seq<Patch>, n: nat) {
    n <= |patches| && Leads(step, START, Print(patches, n), Parsing(patches[..n], LastWithChunk(patches, n)))
  }

  lemma ParseNext(step: Reader, patches: seq<Patch>, n: nat)
    requires Reads(step) && n < |patches| && CleanPatch(patches[n]) && SafePatch(patches[n])
    requires LeadsTo(step, patches, n)
    ensures LeadsTo(step, patches, n + 1)
  {
    var ps, p, lines := patches[..n], patches[n], Print(patches, n);
    ParseOnePatchMore(step, lines, ps, p, LastWithChunk(patches, n));
    assert ps + [p] == patches[..n + 1];
    assert Print(patches, n + 1) == lines + PrintPatch(p);
  }

  lemma AllLead(patches: seq<Patch>)
    requires Clean(patches) && Safe(patches)
    ensures LeadsTo(Step, patches, |patches|)
  {
    StepReads();
    assert patches[..0] == [];
    assert LeadsTo(Step, patches, 0);
    forall m: nat | m < |patches| && LeadsTo(Step, patches, m) ensures LeadsTo(Step, patches, m + 1) {
      assert CleanPatch(patches[m]) && SafePatch(patches[m]);
      ParseNext(Step, patches, m);
    }
    Upwards((n: nat) => LeadsTo(Step, patches, n), |patches|, |patches|);
  }

  /** Reading a printed patch set gives it back. */
  lemma ParsePrint(patches: seq<Patch>)
    requires Clean(patches) && Safe(patches)
    ensures Parse(Print(patches, |patches|)) == Some(patches)
  {
    AllLead(patches);
    assert patches[..|patches|] == patches;
  }

  // ----- what parsing can yield

  /** A line that is none of the headers. */
  predicate IsBody(line: string) {
    MatchLine("--- ", line).None? && MatchLine("+++ ", line).None? && MatchChunk(line).None?
  }

  lemma PayloadTail(rest: string, n: nat)
    requires Payload(rest).Some? && n <= |Payload(rest).value|
    ensures Payload(rest[n..]).Some?
  {
    var text, tail := Payload(rest).value, rest[n..];
    assert tail == text[n..] || tail == text[n..] + "\n";
  }

  lemma LongerMatch(a: string, b: string, line: string)
    ensures MatchLine(a, line).Some? && b <= MatchLine(a, line).value ==> MatchLine(a + b, line).Some?
  {
    if MatchLine(a, line).Some? && b <= MatchLine(a, line).value {
      var rest := line[|a|..];
      PayloadTail(rest, |b|);
      assert a + b <= line by {
        assert line == a + (b + rest[|b|..]);
      }
      assert line[|a + b|..] == rest[|b|..];
    }
  }

  /** No payload that the parser takes from a line looks like a file header: the line would have been taken for one. */
  lemma MatchedSafe(line: string, k: Kind)
    requires IsBody(line) && MatchLine(Mark(k), line).Some?
    ensures CleanText(MatchLine(Mark(k), line).value) && SafeLine(Line(k, MatchLine(Mark(k), line).value))
  {
    assert "-" + "-- " == "--- " && "+" + "++ " == "+++ ";
    LongerMatch("-", "-- ", line);
    LongerMatch("+", "++ ", line);
  }

  predicate Proper(patches: seq<Patch>) {
    Clean(patches) && Safe(patches)
  }

  lemma AddLineProper(p: Parsing, l: Line)
    requires Proper(p.patches) && CleanText(l.text) && SafeLine(l)
    ensures AddLine(p, l).Some? ==> Proper(AddLine(p, l).value.patches)
  {
    if AddLine(p, l).Some? {
      var i := p.current.value;
      var chunks := p.patches[i].chunks;
      var chunk := Last(chunks).(lines := Last(chunks).lines + [l]);
      assert CleanPatch(p.patches[i]) && SafePatch(p.patches[i]);
      assert CleanChunk(Last(chunks)) && SafeChunk(Last(chunks));
      assert CleanChunk(chunk) && SafeChunk(chunk);
      var patch := p.patches[i].(chunks := chunks[..|chunks| - 1] + [chunk]);
      assert CleanPatch(patch) && SafePatch(patch);
    }
  }

  lemma AddHeaderProper(p: Parsing, text: string, srcPos: nat, dstPos: nat)
    requires Proper(p.patches)
    ensures CleanText(text) ==> Proper(AddPatch(p, text).value.patches)
    ensures CleanText(text) && SetDst(p, text).Some? ==> Proper(SetDst(p, text).value.patches)
    ensures AddChunk(p, srcPos, dstPos).Some? ==> Proper(AddChunk(p, srcPos, dstPos).value.patches)
  {
    if p.patches != [] {
      var patch := Last(p.patches);
      assert CleanPatch(patch) && SafePatch(patch);
      var more := patch.(chunks := patch.chunks + [Chunk(srcPos, dstPos, [])]);
      assert CleanPatch(more) && SafePatch(more);
    }
  }

  lemma StepProper(p: Parsing, line: string)
    requires Proper(p.patches)
    ensures Step(p, line).Some? ==> Proper(Step(p, line).value.patches)
  {
    var src, dst, start := MatchLine("--- ", line), MatchLine("+++ ", line), MatchChunk(line);
    if src.Some? {
      AddHeaderProper(p, src.value, 0, 0);
    } else if dst.Some? {
      AddHeaderProper(p, dst.value, 0, 0);
    } else if start.Some? {
      AddHeaderProper(p, "", start.value.0, start.value.1);
    } else {
      BodyProper(p, line);
    }
  }

  lemma BodyProper(p: Parsing, line: string)
    requires Proper(p.patches) && IsBody(line)
    ensures Step(p, line).Some? ==> Proper(Step(p, line).value.patches)
  {
    var k := if MatchLine("-", line).Some? then Src else if MatchLine("+", line).Some? then Dst else Both;
    if MatchLine(Mark(k), line).Some? {
      MatchedSafe(line, k);
      AddLineProper(p, Line(k, MatchLine(Mark(k), line).value));
    }
  }

  ghost predicate KeepsProper(step: Reader) {
    forall p: Parsing, line :: Proper(p.patches) && step(p, line).Some? ==> Proper(step(p, line).value.patches)
  }

  lemma StepKeepsProper()
    ensures KeepsProper(Step)
  {
    forall p: Parsing, line | Proper(p.patches) && Step(p, line).Some? ensures Proper(Step(p, line).value.patches) {
      StepProper(p, line);
    }
  }

  lemma {:induction false} ParsedFrom(step: Reader, p: Parsing, lines: seq<string>, n: nat)
    requires KeepsProper(step) && n <= |lines| && Proper(p.patches)
    ensures ParseFrom(step, p, lines, n).Some? ==> Proper(ParseFrom(step, p, lines, n).value.patches)
  {
    if n > 0 {
      ParsedFrom(step, p, lines, n - 1);
    }
  }

  /** Whatever the text, no payload of what is parsed looks like a file header. */
  lemma ParsedIsProper(lines: seq<string>)
    ensures Parse(lines).Some? ==> Proper(Parse(lines).value)
  {
    StepKeepsProper();
    ParsedFrom(Step, START, lines, |lines|);
  }

  // ----- the two round trips

  /** Reading a printed patch set gives it back exactly when no payload looks like a file header. */
  lemma RoundTripIffSafe(patches: seq<Patch>)
    requires Clean(patches)
    ensures Parse(Print(patches, |patches|)) == Some(patches) <==> Safe(patches)
  {
    if Safe(patches) {
      ParsePrint(patches);
    }
    ParsedIsProper(Print(patches, |patches|));
  }

  /** A removed line that starts with two dashes and a space is read as the title of another patch. */
  lemma UnsafeLost(patches: seq<Patch>)
    requires patches == [Patch("a", "b", [Chunk(1, 1, [Line(Src, "-- x")])])]
    ensures Clean(patches) && !Safe(patches)
    ensures Parse(Print(patches, 1)) != Some(patches)
  {
    var l := Line(Src, "-- x");
    assert "-- " <= l.text;
    assert !SafeLine(patches[0].chunks[0].lines[0]);
    RoundTripIffSafe(patches);
  }

  /** lines is what printing gives of some patch set without misleading payloads. */
  ghost predicate Canonical(lines: seq<string>) {
    exists patches :: Proper(patches) && lines == Print(patches, |patches|)
  }

  ghost predicate Reproduced(lines: seq<string>) {
    Parse(lines).Some? && Print(Parse(lines).value, |Parse(lines).value|) == lines
  }

  /** Printing what has been read reproduces the text exactly when the text is canonical. */
  lemma ReproducedIffCanonical(lines: seq<string>)
    ensures Reproduced(lines) <==> Canonical(lines)
  {
    ParsedIsProper(lines);
    if patches :| Proper(patches) && lines == Print(patches, |patches|) {
      ParsePrint(patches);
    }
  }
}
