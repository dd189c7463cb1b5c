// What each line of a diff is read as.
module PatchLines {
  import opened Wrappers
  import opened Sequences
  import opened PatchText

  /** line is prefix and text, with a line break behind it or none. */
  predicate IsLine(line: string, prefix: string, text: string) {
    '\n' !in text && (line == prefix + text || line == prefix + text + "\n")
  }

  lemma PayloadIff(rest: string, text: string)
    ensures Payload(rest) == Some(text) <==> '\n' !in text && (rest == text || rest == text + "\n")
  {
    if rest == text + "\n" {
      assert rest[..|rest| - 1] == text;
    }
    if rest == text && text != "" {
      assert Last(text) in text;
    }
  }

  lemma MatchLineIff(prefix: string, line: string, text: string)
    ensures MatchLine(prefix, line) == Some(text) <==> IsLine(line, prefix, text)
  {
    if prefix <= line {
      var rest := line[|prefix|..];
      PayloadIff(rest, text);
      assert line == prefix + rest;
      assert line == prefix + text <==> rest == text by {
        if line == prefix + text {
          assert (prefix + text)[|prefix|..] == text;
        }
      }
      assert prefix + text + "\n" == prefix + (text + "\n");
      if line == prefix + (text + "\n") {
        assert (prefix + (text + "\n"))[|prefix|..] == text + "\n";
      }
    }
  }

  predicate AllDigits(s: string) {
    s != "" && forall i :: 0 <= i < |s| ==> IsDigit(s[i])
  }

  function Number(s: string): nat
    requires AllDigits(s)
  {
    NumberOf(s, |s|)
  }

  /** The four numbers of a hunk's header, as digits, and whatever stands behind it. */
  predicate IsHunk(line: string, a: string, b: string, c: string, d: string, rest: string) {
    && AllDigits(a) && AllDigits(b) && AllDigits(c) && AllDigits(d)
    && line == "@@ -" + a + "," + b + " +" + c + "," + d + " @@" + rest
  }

  lemma Assoc(x: string, y: string, z: string)
    ensures x + y + z == x + (y + z)
  {
  }

  lemma Regroup(a: string, b: string, c: string, d: string, rest: string)
    ensures "@@ -" + a + "," + b + " +" + c + "," + d + " @@" + rest
         == "@@ -" + (a + ("," + (b + (" +" + (c + ("," + (d + (" @@" + rest))))))))
  {
    var x1 := "@@ -" + a;
    var x2 := x1 + ",";
    var x3 := x2 + b;
    var x4 := x3 + " +";
    var x5 := x4 + c;
    var x6 := x5 + ",";
    var y8 := " @@" + rest;
    var y7 := d + y8;
    var y6 := "," + y7;
    var y5 := c + y6;
    var y4 := " +" + y5;
    var y3 := b + y4;
    var y2 := "," + y3;
    Assoc(x6 + d, " @@", rest);
    Assoc(x6, d, y8);
    Assoc(x5, ",", y7);
    Assoc(x4, c, y6);
    Assoc(x3, " +", y5);
    Assoc(x2, b, y4);
    Assoc(x1, ",", y3);
    Assoc("@@ -", a, y2);
  }

  lemma ReadNumberOf(a: string, rest: string)
    requires AllDigits(a) && (rest == "" || !IsDigit(rest[0]))
    ensures ReadNumber(a + rest) == Some((Number(a), rest))
  {
    DigitRunOf(a, rest);
    NumberOfPrefix(a, rest, |a|);
    assert (a + rest)[|a|..] == rest;
  }

  lemma ReadPairOf(a: string, b: string, rest: string)
    requires AllDigits(a) && AllDigits(b) && (rest == "" || !IsDigit(rest[0]))
    ensures ReadPair(a + ("," + (b + rest))) == Some((Number(a), Number(b), rest))
  {
    ReadNumberOf(a, "," + (b + rest));
    ReadPrefix(",", b + rest);
    ReadNumberOf(b, rest);
  }

  lemma TargetRead(c: string, d: string, tail: string, rest: string)
    requires AllDigits(c) && AllDigits(d) && tail == c + ("," + (d + (" @@" + rest)))
    ensures ReadTarget(" +" + tail) == Some((Number(c), Number(d)))
  {
    ReadPrefix(" +", tail);
    ReadPairOf(c, d, " @@" + rest);
    ReadPrefix(" @@", rest);
  }

  /** Whatever stands behind it, a header is read with the positions it names. */
  lemma HunkRead(line: string, a: string, b: string, c: string, d: string, rest: string)
    requires IsHunk(line, a, b, c, d, rest)
    ensures MatchChunk(line) == Some((Number(a), Number(c)))
  {
    var end := " @@" + rest;
    var tail := c + ("," + (d + end));
    var target := " +" + tail;
    var head := a + ("," + (b + target));
    Regroup(a, b, c, d, rest);
    assert line == "@@ -" + head;
    ReadPrefix("@@ -", head);
    ReadPairOf(a, b, target);
    TargetRead(c, d, tail, rest);
  }

  lemma NumberRead(s: string) returns (a: string, rest: string)
    requires ReadNumber(s).Some?
    ensures AllDigits(a) && s == a + rest && ReadNumber(s) == Some((Number(a), rest))
  {
    var k := DigitRun(s);
    a, rest := s[..k], s[k..];
    assert s == a + rest;
    NumberOfPrefix(a, rest, k);
  }

  lemma TextRead(prefix: string, s: string)
    requires ReadText(prefix, s).Some?
    ensures s == prefix + ReadText(prefix, s).value
  {
  }

  lemma PairRead(s: string) returns (a: string, b: string, rest: string)
    requires ReadPair(s).Some?
    ensures AllDigits(a) && AllDigits(b) && s == a + ("," + (b + rest))
    ensures ReadPair(s) == Some((Number(a), Number(b), rest))
  {
    var tail;
    a, tail := NumberRead(s);
    TextRead(",", tail);
    b, rest := NumberRead(ReadText(",", tail).value);
  }

  /** No other line is read as a hunk's header. */
  lemma HunkIs(line: string) returns (a: string, b: string, c: string, d: string, rest: string)
    requires MatchChunk(line).Some?
    ensures IsHunk(line, a, b, c, d, rest) && MatchChunk(line) == Some((Number(a), Number(c)))
  {
    var target, end;
    TextRead("@@ -", line);
    a, b, target := PairRead(ReadText("@@ -", line).value);
    TextRead(" +", target);
    c, d, end := PairRead(ReadText(" +", target).value);
    TextRead(" @@", end);
    rest := ReadText(" @@", end).value;
    Regroup(a, b, c, d, rest);
  }

  /** Leading zeros do not count. */
  lemma {:induction false} ZerosIgnored(s: string, k: nat)
    requires AllDigits(s) && k <= |s|
    ensures AllDigits("0" + s) && NumberOf("0" + s, k + 1) == NumberOf(s, k)
  {
    var z := "0" + s;
    forall i | 0 <= i < |z| ensures IsDigit(z[i]) {
      assert i > 0 ==> z[i] == s[i - 1];
    }
    if k > 0 {
      ZerosIgnored(s, k - 1);
      assert z[k] == s[k - 1];
    }
  }

  // ----- the kinds of lines

  datatype Reading =
    | TitleLine(src: string)
    | TargetLine(dst: string)
    | HunkLine(srcPos: nat, dstPos: nat)
    | BodyLine(line: Line)
    | Unreadable

  ghost predicate LooksLike(line: string, prefix: string) {
    exists text :: IsLine(line, prefix, text)
  }

  ghost predicate LooksLikeHunk(line: string) {
    exists a, b, c, d, rest :: IsHunk(line, a, b, c, d, rest)
  }

  /** A line is read as the first of these that it looks like: a title, its target, a hunk's header, a body line. */
  ghost predicate ReadsAs(line: string, reading: Reading) {
    match reading
    case TitleLine(src) => IsLine(line, "--- ", src)
    case TargetLine(dst) => IsLine(line, "+++ ", dst)
    case HunkLine(srcPos, dstPos) => exists a, b, c, d, rest :: IsHunk(line, a, b, c, d, rest) && srcPos == Number(a) && dstPos == Number(c)
    case BodyLine(l) =>
      && !LooksLike(line, "--- ") && !LooksLike(line, "+++ ")
      && IsLine(line, match l.kind case Src => "-" case Dst => "+" case Both => " ", l.text)
    case Unreadable => !LooksLike(line, "-") && !LooksLike(line, "+") && !LooksLike(line, " ") && !LooksLikeHunk(line)
  }

  /** The first pattern that a line matches. */
  function ReadingOf(line: string): Reading {
    var src, dst, start := MatchLine("--- ", line), MatchLine("+++ ", line), MatchChunk(line);
    var minus, plus, both := MatchLine("-", line), MatchLine("+", line), MatchLine(" ", line);
    if src.Some? then TitleLine(src.value) else if dst.Some? then TargetLine(dst.value)
    else if start.Some? then HunkLine(start.value.0, start.value.1)
    else if minus.Some? then BodyLine(Line(Src, minus.value)) else if plus.Some? then BodyLine(Line(Dst, plus.value))
    else if both.Some? then BodyLine(Line(Both, both.value)) else Unreadable
  }

  lemma LooksIff(line: string, prefix: string)
    ensures LooksLike(line, prefix) <==> MatchLine(prefix, line).Some?
  {
    if MatchLine(prefix, line).Some? {
      MatchLineIff(prefix, line, MatchLine(prefix, line).value);
    }
    if text :| IsLine(line, prefix, text) {
      MatchLineIff(prefix, line, text);
    }
  }

  lemma ReadsAsReads(line: string)
    ensures ReadsAs(line, ReadingOf(line))
  {
    LooksIff(line, "--- ");
    LooksIff(line, "+++ ");
    LooksIff(line, "-");
    LooksIff(line, "+");
    LooksIff(line, " ");
    match ReadingOf(line)
    case TitleLine(src) => MatchLineIff("--- ", line, src);
    case TargetLine(dst) => MatchLineIff("+++ ", line, dst);
    case HunkLine(_, _) => var a, b, c, d, rest := HunkIs(line);
    case BodyLine(l) => MatchLineIff(match l.kind case Src => "-" case Dst => "+" case Both => " ", line, l.text);
    case Unreadable =>
      if a, b, c, d, rest :| IsHunk(line, a, b, c, d, rest) {
        HunkRead(line, a, b, c, d, rest);
      }
  }

  /** There is just one thing that a line is read as. */
  lemma ReadsAsOne(line: string, reading: Reading)
    requires ReadsAs(line, reading)
    ensures reading == ReadingOf(line)
  {
    match reading
    case TitleLine(src) => MatchLineIff("--- ", line, src);
    case TargetLine(dst) =>
      MatchLineIff("+++ ", line, dst);
      assert line[0] == '+';
    case HunkLine(_, _) =>
      var a, b, c, d, rest :| IsHunk(line, a, b, c, d, rest) && reading == HunkLine(Number(a), Number(c));
      HunkRead(line, a, b, c, d, rest);
      assert line[0] == '@';
    case BodyLine(l) => BodyIsOne(line, l);
    case Unreadable => NoneIsOne(line);
  }

  lemma BodyIsOne(line: string, l: Line)
    requires ReadsAs(line, BodyLine(l))
    ensures ReadingOf(line) == BodyLine(l)
  {
    var mark := match l.kind case Src => "-" case Dst => "+" case Both => " ";
    LooksIff(line, "--- ");
    LooksIff(line, "+++ ");
    MatchLineIff(mark, line, l.text);
    assert line[0] == mark[0];
    assert MatchChunk(line).None?;
  }

  lemma NoneIsOne(line: string)
    requires ReadsAs(line, Unreadable)
    ensures ReadingOf(line) == Unreadable
  {
    LooksIff(line, "-");
    LooksIff(line, "+");
    LooksIff(line, " ");
    TitleIsBody(line);
    if MatchChunk(line).Some? {
      var a, b, c, d, rest := HunkIs(line);
    }
  }

  /** A title could be a body line as well. */
  lemma TitleIsBody(line: string)
    ensures MatchLine("--- ", line).Some? ==> MatchLine("-", line).Some?
    ensures MatchLine("+++ ", line).Some? ==> MatchLine("+", line).Some?
  {
    if MatchLine("--- ", line).Some? {
      var text := MatchLine("--- ", line).value;
      MatchLineIff("--- ", line, text);
      MatchLineIff("-", line, "-- " + text);
    }
    if MatchLine("+++ ", line).Some? {
      var text := MatchLine("+++ ", line).value;
      MatchLineIff("+++ ", line, text);
      MatchLineIff("+", line, "++ " + text);
    }
  }

  // ----- what a line does to what has been read

  /** Lines go into a chunk that exists. */
  predicate Ready(p: Parsing) {
    p.current.Some? ==> p.current.value < |p.patches| && p.patches[p.current.value].chunks != []
  }

  /** All patches but number i are as before. */
  ghost predicate OnlyChanged(before: seq<Patch>, after: seq<Patch>, i: nat) {
    |after| == |before| && forall k :: 0 <= k < |before| && k != i ==> after[k] == before[k]
  }

  /**
   * A title opens a patch; a target names the last one; a hunk's header adds a chunk to it, into which lines go from then on;
   * a body line goes to the end of that chunk. Without a patch or a chunk to go to, and on any other line, the parser raises.
   */
  ghost predicate Effect(p: Parsing, reading: Reading, q: Option<Parsing>) {
    match reading
    case TitleLine(src) => q.Some? && q.value == Parsing(p.patches + [Patch(src, "", [])], p.current)
    case TargetLine(dst) =>
      if p.patches == [] then q.None?
      else
        var last := |p.patches| - 1;
        && q.Some? && q.value.current == p.current && OnlyChanged(p.patches, q.value.patches, last)
        && q.value.patches[last] == Patch(p.patches[last].src, dst, p.patches[last].chunks)
    case HunkLine(srcPos, dstPos) =>
      if p.patches == [] then q.None?
      else
        var last := |p.patches| - 1;
        var before := p.patches[last];
        && q.Some? && q.value.current == Some(last) && OnlyChanged(p.patches, q.value.patches, last)
        && q.value.patches[last] == Patch(before.src, before.dst, before.chunks + [Chunk(srcPos, dstPos, [])])
    case BodyLine(l) =>
      if p.current.None? then q.None?
      else
        var i := p.current.value;
        && q.Some? && q.value.current == p.current && OnlyChanged(p.patches, q.value.patches, i)
        && i < |p.patches| && AddedTo(p.patches[i], q.value.patches[i], l)
    case Unreadable => q.None?
  }

  ghost predicate AddedTo(before: Patch, after: Patch, l: Line) {
    && after.src == before.src && after.dst == before.dst
    && before.chunks != [] && |after.chunks| == |before.chunks|
    && (forall k :: 0 <= k < |before.chunks| - 1 ==> after.chunks[k] == before.chunks[k])
    && var c := Last(before.chunks);
       Last(after.chunks) == Chunk(c.srcPos, c.dstPos, c.lines + [l])
  }

  /** The steps of the parser, for what a line is read as. */
  function Do(p: Parsing, reading: Reading): Option<Parsing> {
    match reading
    case TitleLine(src) => AddPatch(p, src)
    case TargetLine(dst) => SetDst(p, dst)
    case HunkLine(srcPos, dstPos) => AddChunk(p, srcPos, dstPos)
    case BodyLine(l) => AddLine(p, l)
    case Unreadable => None
  }

  lemma TitlesDo(p: Parsing, line: string)
    requires MatchLine("--- ", line).Some? || MatchLine("+++ ", line).Some?
    ensures Step(p, line) == Do(p, ReadingOf(line))
  {
  }

  lemma HunksDo(p: Parsing, line: string)
    requires MatchLine("--- ", line).None? && MatchLine("+++ ", line).None? && MatchChunk(line).Some?
    ensures Step(p, line) == Do(p, ReadingOf(line))
  {
  }

  lemma BodiesDo(p: Parsing, line: string)
    requires IsBody(line) && (MatchLine("-", line).Some? || MatchLine("+", line).Some?)
    ensures Step(p, line) == Do(p, ReadingOf(line))
  {
  }

  lemma OthersDo(p: Parsing, line: string)
    requires IsBody(line) && MatchLine("-", line).None? && MatchLine("+", line).None?
    ensures Step(p, line) == Do(p, ReadingOf(line))
  {
  }

  lemma StepDoes(p: Parsing, line: string)
    ensures Step(p, line) == Do(p, ReadingOf(line))
  {
    if MatchLine("--- ", line).Some? || MatchLine("+++ ", line).Some? {
      TitlesDo(p, line);
    } else if MatchChunk(line).Some? {
      HunksDo(p, line);
    } else if MatchLine("-", line).Some? || MatchLine("+", line).Some? {
      BodiesDo(p, line);
    } else {
      OthersDo(p, line);
    }
  }

  lemma DoHas(p: Parsing, reading: Reading)
    requires Ready(p)
    ensures Effect(p, reading, Do(p, reading))
    ensures Do(p, reading).Some? ==> Ready(Do(p, reading).value)
  {
  }

  /** Every line is read as what it looks like, and does what that says. */
  lemma StepMeans(p: Parsing, line: string, reading: Reading)
    requires Ready(p) && ReadsAs(line, reading)
    ensures Effect(p, reading, Step(p, line))
    ensures Step(p, line).Some? ==> Ready(Step(p, line).value)
  {
    ReadsAsOne(line, reading);
    StepDoes(p, line);
    DoHas(p, reading);
  }

  lemma EveryLineReads(line: string)
    ensures exists reading :: ReadsAs(line, reading)
    ensures forall r, r' :: ReadsAs(line, r) && ReadsAs(line, r') ==> r == r'
  {
    ReadsAsReads(line);
    forall r | ReadsAs(line, r) ensures r == ReadingOf(line) {
      ReadsAsOne(line, r);
    }
  }

  // ----- what a whole text is read as

  /** The effect is the only one. */
  lemma EffectOne(p: Parsing, reading: Reading, a: Option<Parsing>, b: Option<Parsing>)
    requires Ready(p) && Effect(p, reading, a) && Effect(p, reading, b)
    ensures a == b
  {
    if a.Some? && b.Some? {
      var q, q' := a.value, b.value;
      if reading.TargetLine? || reading.HunkLine? {
        assert q'.patches == q.patches;
      } else if reading.BodyLine? {
        var i := p.current.value;
        AddedToOne(p.patches[i], q.patches[i], q'.patches[i], reading.line);
        assert q'.patches == q.patches;
      }
    }
  }

  lemma AddedToOne(before: Patch, after: Patch, other: Patch, l: Line)
    requires AddedTo(before, after, l) && AddedTo(before, other, l)
    ensures after == other
  {
    assert after.chunks == other.chunks;
  }

  /** Line by line, from nothing: what each line is read as, and what there is after it. */
  ghost predicate ReadsThrough(lines: seq<string>, n: nat, states: seq<Parsing>) {
    && n <= |lines| && |states| == n + 1 && states[0] == Parsing([], None)
    && forall k :: 0 <= k < n ==> ReadsOn(lines[k], states[k], states[k + 1])
  }

  ghost predicate ReadsOn(line: string, p: Parsing, q: Parsing) {
    exists reading :: ReadsAs(line, reading) && Effect(p, reading, Some(q))
  }

  lemma ReadsOnIff(line: string, p: Parsing, q: Parsing)
    requires Ready(p)
    ensures ReadsOn(line, p, q) <==> Step(p, line) == Some(q)
  {
    ReadsAsReads(line);
    StepMeans(p, line, ReadingOf(line));
    if reading :| ReadsAs(line, reading) && Effect(p, reading, Some(q)) {
      ReadsAsOne(line, reading);
      EffectOne(p, reading, Some(q), Step(p, line));
    }
  }

  /** step does to what has been read what lines are read as. */
  ghost predicate Does(step: Reader) {
    && (forall p, line, q :: Ready(p) ==> (ReadsOn(line, p, q) <==> step(p, line) == Some(q)))
    && forall p, line :: Ready(p) && step(p, line).Some? ==> Ready(step(p, line).value)
  }

  lemma StepDoesSo()
    ensures Does(Step)
  {
    forall p, line, q | Ready(p) ensures ReadsOn(line, p, q) <==> Step(p, line) == Some(q) {
      ReadsOnIff(line, p, q);
    }
    forall p, line | Ready(p) && Step(p, line).Some? ensures Ready(Step(p, line).value) {
      ReadsAsReads(line);
      StepMeans(p, line, ReadingOf(line));
    }
  }

  lemma {:induction false} ParsedThrough(step: Reader, lines: seq<string>, n: nat) returns (states: seq<Parsing>)
    requires Does(step) && n <= |lines| && ParseFrom(step, START, lines, n).Some?
    ensures ReadsThrough(lines, n, states) && Last(states) == ParseFrom(step, START, lines, n).value && Ready(Last(states))
  {
    if n == 0 {
      states := [START];
    } else {
      var front := ParsedThrough(step, lines, n - 1);
      var p, q := Last(front), ParseFrom(step, START, lines, n).value;
      assert ReadsOn(lines[n - 1], p, q);
      states := ThroughMore(lines, n - 1, front, q);
    }
  }

  lemma ThroughMore(lines: seq<string>, n: nat, front: seq<Parsing>, q: Parsing) returns (states: seq<Parsing>)
    requires n < |lines| && ReadsThrough(lines, n, front) && ReadsOn(lines[n], Last(front), q)
    ensures ReadsThrough(lines, n + 1, states) && Last(states) == q
  {
    states := front + [q];
    forall k | 0 <= k < n + 1 ensures ReadsOn(lines[k], states[k], states[k + 1]) {
      assert k < n ==> ReadsOn(lines[k], front[k], front[k + 1]);
    }
  }

  lemma {:induction false} ThroughParsed(step: Reader, lines: seq<string>, n: nat, states: seq<Parsing>)
    requires Does(step) && ReadsThrough(lines, n, states)
    ensures ParseFrom(step, START, lines, n) == Some(states[n]) && Ready(states[n])
  {
    if n > 0 {
      var front := states[..n];
      forall k | 0 <= k < n - 1 ensures ReadsOn(lines[k], front[k], front[k + 1]) {
        assert ReadsOn(lines[k], states[k], states[k + 1]);
      }
      ThroughParsed(step, lines, n - 1, front);
      assert ReadsOn(lines[n - 1], states[n - 1], states[n]);
    }
  }

  /** A text is parsed exactly when every line of it can be read after those before it, and gives what they have put together. */
  lemma ParseIff(lines: seq<string>, patches: seq<Patch>)
    ensures Parse(lines) == Some(patches) <==> exists states :: ReadsThrough(lines, |lines|, states) && Last(states).patches == patches
  {
    StepDoesSo();
    if Parse(lines) == Some(patches) {
      var states := ParsedThrough(Step, lines, |lines|);
    }
    if states :| ReadsThrough(lines, |lines|, states) && Last(states).patches == patches {
      ThroughParsed(Step, lines, |lines|, states);
    }
  }
}
