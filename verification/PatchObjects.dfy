// The parser's mutable patch and chunk objects, against the values of PatchText.
module PatchObjects {
  import opened Wrappers
  import opened Sequences
  import T = PatchText
  import G = PatchGrammar
  import L = PatchLines

  class PatchChunk {
    var lines: seq<T.Line>
    const srcPos: nat
    const dstPos: nat

    constructor (srcPos: nat, dstPos: nat)
      ensures lines == [] && this.srcPos == srcPos && this.dstPos == dstPos
    {
      lines, this.srcPos, this.dstPos := [], srcPos, dstPos;
    }

    function Value(): T.Chunk
      reads this
    {
      T.Chunk(srcPos, dstPos, lines)
    }

    method AddLine(l: T.Line)
      modifies this
      ensures lines == old(lines) + [l]
    {
      lines := lines + [l];
    }

    method Src() returns (out: seq<T.Line>)
      ensures out == T.LinesBut(lines, T.Dst, |lines|) && T.IsSide(lines, T.Src, out)
    {
      T.LinesButIsSide(lines);
      out := [];
      for i := 0 to |lines|
        invariant out == T.LinesBut(lines, T.Dst, i)
      {
        if lines[i].kind == T.Src || lines[i].kind == T.Both {
          out := out + [lines[i]];
        }
      }
    }

    method Dst() returns (out: seq<T.Line>)
      ensures out == T.LinesBut(lines, T.Src, |lines|) && T.IsSide(lines, T.Dst, out)
    {
      T.LinesButIsSide(lines);
      out := [];
      for i := 0 to |lines|
        invariant out == T.LinesBut(lines, T.Src, i)
      {
        if lines[i].kind == T.Dst || lines[i].kind == T.Both {
          out := out + [lines[i]];
        }
      }
    }

    method Write() returns (out: seq<string>)
      ensures out == T.PrintChunk(Value())
    {
      var src := Src();
      var dst := Dst();
      var header := T.PrintPositions(srcPos, |src|, dstPos, |dst|);
      var body: seq<string> := [];
      for i := 0 to |lines|
        invariant body == T.PrintLines(lines, i)
      {
        body := body + [T.PrintLine(lines[i])];
      }
      out := [header] + body;
    }
  }

  class Patch {
    var src: string
    var dst: string
    var chunks: seq<PatchChunk>

    constructor ()
      ensures src == "" && dst == "" && chunks == []
    {
      src, dst, chunks := "", "", [];
    }

    method SetSrc(src: string)
      modifies this`src
      ensures this.src == src
    {
      this.src := src;
    }

    method SetDst(dst: string)
      modifies this`dst
      ensures this.dst == dst
    {
      this.dst := dst;
    }

    method AddChunk(chunk: PatchChunk)
      modifies this`chunks
      ensures chunks == old(chunks) + [chunk]
    {
      chunks := chunks + [chunk];
    }

    /** The object stands for v. */
    ghost predicate Shows(v: T.Patch)
      reads this, chunks
    {
      && src == v.src && dst == v.dst
      && |chunks| == |v.chunks|
      && forall k :: 0 <= k < |chunks| ==> chunks[k].Value() == v.chunks[k]
    }

    method Write(ghost v: T.Patch) returns (out: seq<string>)
      requires Shows(v)
      ensures out == T.PrintPatch(v)
    {
      var body: seq<string> := [];
      for i := 0 to |chunks|
        invariant body == T.PrintChunks(v.chunks, i)
      {
        var chunk := chunks[i].Write();
        body := body + chunk;
      }
      out := [T.PrintSrc(src)] + ([T.PrintDst(dst)] + body);
    }
  }

  ghost function ChunksOf(ps: seq<Patch>): set<PatchChunk>
    reads ps
  {
    set p, c | p in ps && c in p.chunks :: c
  }

  ghost predicate PatchesDiffer(ps: seq<Patch>, i: nat, j: nat)
    requires i < |ps| && j < |ps|
    reads ps
  {
    ps[i] != ps[j] && forall c :: c in ps[i].chunks ==> c !in ps[j].chunks
  }

  ghost predicate ChunksDiffer(cs: seq<PatchChunk>, k: nat, l: nat)
    requires k < |cs| && l < |cs|
  {
    cs[k] != cs[l]
  }

  /** No patch or chunk object occurs twice. */
  ghost predicate Separate(ps: seq<Patch>)
    reads ps
  {
    && (forall i: nat, j: nat :: i < j < |ps| ==> PatchesDiffer(ps, i, j))
    && forall i: nat, k: nat, l: nat :: i < |ps| && k < l < |ps[i].chunks| ==> ChunksDiffer(ps[i].chunks, k, l)
  }

  ghost predicate ShowsAt(ps: seq<Patch>, vs: seq<T.Patch>, i: nat)
    requires i < |ps| && i < |vs|
    reads ps[i], ps[i].chunks
  {
    ps[i].Shows(vs[i])
  }

  ghost predicate Shows(ps: seq<Patch>, vs: seq<T.Patch>)
    reads ps, ChunksOf(ps)
  {
    && |ps| == |vs|
    && forall i: nat :: i < |ps| ==>
         assert forall c :: c in ps[i].chunks ==> c in ChunksOf(ps);
         ShowsAt(ps, vs, i)
  }

  /** The chunk that lines are added to is the last one of the patch that got a chunk last. */
  ghost predicate Current(ps: seq<Patch>, currentChunk: PatchChunk?, current: Option<nat>)
    reads ps
  {
    match current
    case None => currentChunk == null
    case Some(i) => i < |ps| && ps[i].chunks != [] && currentChunk == Last(ps[i].chunks)
  }

  ghost predicate Agrees(ps: seq<Patch>, currentChunk: PatchChunk?, p: T.Parsing)
    reads ps, ChunksOf(ps)
  {
    Separate(ps) && Shows(ps, p.patches) && Current(ps, currentChunk, p.current)
  }

  lemma SeparateAppend(ps: seq<Patch>, patch: Patch)
    requires Separate(ps) && patch !in ps && patch.chunks == []
    ensures Separate(ps + [patch]) && ChunksOf(ps + [patch]) == ChunksOf(ps)
  {
    forall i: nat, j: nat | i < j < |ps| + 1 ensures PatchesDiffer(ps + [patch], i, j) {
      assert j < |ps| ==> PatchesDiffer(ps, i, j);
    }
    forall c | c in ChunksOf(ps) ensures c in ChunksOf(ps + [patch]) {
      var q :| q in ps && c in q.chunks;
      assert q in ps + [patch];
    }
  }

  lemma LastDiffers(ps: seq<Patch>)
    requires Separate(ps) && ps != []
    ensures forall i :: 0 <= i < |ps| - 1 ==> ps[i] != Last(ps)
  {
    forall i | 0 <= i < |ps| - 1 ensures ps[i] != Last(ps) {
      assert PatchesDiffer(ps, i, |ps| - 1);
    }
  }

  lemma ShowsAppend(ps: seq<Patch>, vs: seq<T.Patch>, patch: Patch, v: T.Patch)
    requires Shows(ps, vs) && patch.Shows(v)
    ensures Shows(ps + [patch], vs + [v])
  {
    forall i: nat | i < |ps| + 1 ensures ShowsAt(ps + [patch], vs + [v], i) {
      assert i < |ps| ==> ShowsAt(ps, vs, i);
    }
  }

  method StartPatch(ps: seq<Patch>, currentChunk: PatchChunk?, src: string, ghost p: T.Parsing) returns (ps': seq<Patch>)
    requires Agrees(ps, currentChunk, p)
    ensures Agrees(ps', currentChunk, T.AddPatch(p, src).value)
    ensures forall x :: x in ps' ==> x in ps || fresh(x)
    ensures ChunksOf(ps') == ChunksOf(ps)
  {
    var patch := new Patch();
    patch.SetSrc(src);
    ps' := ps + [patch];
    SeparateAppend(ps, patch);
    ShowsAppend(ps, p.patches, patch, T.Patch(src, "", []));
  }

  method SetDst(ps: seq<Patch>, currentChunk: PatchChunk?, dst: string, ghost p: T.Parsing)
    requires Agrees(ps, currentChunk, p) && ps != []
    modifies Last(ps)
    ensures Agrees(ps, currentChunk, T.SetDst(p, dst).value)
    ensures ChunksOf(ps) == old(ChunksOf(ps))
  {
    LastDiffers(ps);
    Last(ps).SetDst(dst);
    SameChunks(ps);
    ghost var last, vs := |ps| - 1, T.SetDst(p, dst).value.patches;
    forall i: nat | i < |ps| ensures ShowsAt(ps, vs, i) {
      assert old(ShowsAt(ps, p.patches, i));
    }
  }

  twostate lemma SameChunks(ps: seq<Patch>)
    requires old(Separate(ps)) && forall i :: 0 <= i < |ps| ==> ps[i].chunks == old(ps[i].chunks)
    ensures Separate(ps) && ChunksOf(ps) == old(ChunksOf(ps))
  {
    forall i: nat, j: nat | i < j < |ps| ensures PatchesDiffer(ps, i, j) {
      assert old(PatchesDiffer(ps, i, j));
    }
    forall p | p in ps ensures p.chunks == old(p.chunks) {
      var i :| 0 <= i < |ps| && ps[i] == p;
    }
  }

  method StartChunk(ps: seq<Patch>, srcPos: nat, dstPos: nat, ghost currentChunk: PatchChunk?, ghost p: T.Parsing) returns (chunk: PatchChunk)
    requires Agrees(ps, currentChunk, p) && ps != []
    modifies Last(ps)
    ensures fresh(chunk) && Agrees(ps, chunk, T.AddChunk(p, srcPos, dstPos).value)
    ensures ChunksOf(ps) == old(ChunksOf(ps)) + {chunk}
  {
    LastDiffers(ps);
    chunk := new PatchChunk(srcPos, dstPos);
    Last(ps).AddChunk(chunk);
    StillSeparate(ps, chunk);
    ghost var last, vs := |ps| - 1, T.AddChunk(p, srcPos, dstPos).value.patches;
    forall i: nat | i < last ensures ShowsAt(ps, vs, i) {
      assert old(ShowsAt(ps, p.patches, i));
    }
    assert old(ShowsAt(ps, p.patches, last));
    assert ShowsAt(ps, vs, last);
  }

  /** A new chunk at the end of the last patch keeps the objects separate. */
  twostate lemma StillSeparate(ps: seq<Patch>, new chunk: PatchChunk)
    requires ps != [] && old(Separate(ps)) && !old(allocated(chunk))
    requires forall i :: 0 <= i < |ps| - 1 ==> ps[i].chunks == old(ps[i].chunks)
    requires Last(ps).chunks == old(Last(ps).chunks) + [chunk]
    ensures Separate(ps)
    ensures ChunksOf(ps) == old(ChunksOf(ps)) + {chunk}
  {
    forall i: nat, j: nat | i < j < |ps| ensures PatchesDiffer(ps, i, j) {
      assert old(PatchesDiffer(ps, i, j));
    }
    forall i: nat, k: nat, l: nat | i < |ps| && k < l < |ps[i].chunks| ensures ChunksDiffer(ps[i].chunks, k, l) {
      assert l < |old(ps[i].chunks)| ==> old(ChunksDiffer(ps[i].chunks, k, l));
    }
    assert chunk in Last(ps).chunks && Last(ps) in ps;
    forall c | c in old(ChunksOf(ps)) ensures c in ChunksOf(ps) {
      var patch :| patch in ps && c in old(patch.chunks);
      var i :| 0 <= i < |ps| && ps[i] == patch;
      assert c in ps[i].chunks;
    }
  }

  lemma CurrentDiffers(ps: seq<Patch>, i: nat)
    requires Separate(ps) && i < |ps| && ps[i].chunks != []
    ensures forall j, k :: 0 <= j < |ps| && 0 <= k < |ps[j].chunks| && (j != i || k < |ps[i].chunks| - 1) ==> ps[j].chunks[k] != Last(ps[i].chunks)
  {
    var c := Last(ps[i].chunks);
    forall j, k | 0 <= j < |ps| && 0 <= k < |ps[j].chunks| && (j != i || k < |ps[i].chunks| - 1) ensures ps[j].chunks[k] != c {
      assert ps[j].chunks[k] in ps[j].chunks && c in ps[i].chunks;
      if j < i {
        assert PatchesDiffer(ps, j, i);
      } else if i < j {
        assert PatchesDiffer(ps, i, j);
      } else {
        assert ChunksDiffer(ps[i].chunks, k, |ps[i].chunks| - 1);
      }
    }
  }

  method AddBody(ps: seq<Patch>, currentChunk: PatchChunk, l: T.Line, ghost p: T.Parsing)
    requires Agrees(ps, currentChunk, p)
    modifies currentChunk
    ensures T.AddLine(p, l).Some? && Agrees(ps, currentChunk, T.AddLine(p, l).value)
    ensures ChunksOf(ps) == old(ChunksOf(ps))
  {
    CurrentDiffers(ps, p.current.value);
    assert ShowsAt(ps, p.patches, p.current.value);
    currentChunk.AddLine(l);
    ghost var vs := T.AddLine(p, l).value.patches;
    forall i: nat | i < |ps| ensures ShowsAt(ps, vs, i) {
      assert old(ShowsAt(ps, p.patches, i));
    }
  }

  lemma LineEffect(ps: seq<Patch>, currentChunk: PatchChunk?, line: string, p: T.Parsing)
    requires Agrees(ps, currentChunk, p)
    ensures forall reading :: L.ReadsAs(line, reading) ==> L.Effect(p, reading, T.Step(p, line))
  {
    if p.current.Some? {
      assert ShowsAt(ps, p.patches, p.current.value);
    }
    forall reading | L.ReadsAs(line, reading) ensures L.Effect(p, reading, T.Step(p, line)) {
      L.StepMeans(p, line, reading);
    }
  }

  /** One line of the loop; ok is false where the parser raises. */
  method ReadLine(ps: seq<Patch>, currentChunk: PatchChunk?, line: string, ghost p: T.Parsing)
    returns (ok: bool, ps': seq<Patch>, currentChunk': PatchChunk?)
    requires Agrees(ps, currentChunk, p)
    modifies ps, ChunksOf(ps)
    ensures ok <==> T.Step(p, line).Some?
    ensures ok ==> Agrees(ps', currentChunk', T.Step(p, line).value)
    // which is what the line looks like
    ensures forall reading :: L.ReadsAs(line, reading) ==> L.Effect(p, reading, T.Step(p, line))
    ensures fresh((set x | x in ps') - set x | x in ps)
    ensures fresh(ChunksOf(ps') - old(ChunksOf(ps)))
  {
    LineEffect(ps, currentChunk, line, p);
    ok, ps', currentChunk' := true, ps, currentChunk;
    var src := T.MatchLine("--- ", line);
    if src.Some? {
      ps' := StartPatch(ps, currentChunk, src.value, p);
      return;
    }
    var dst := T.MatchLine("+++ ", line);
    if dst.Some? {
      if ps == [] {
        return false, ps, currentChunk;
      }
      SetDst(ps, currentChunk, dst.value, p);
      return;
    }
    ok, currentChunk' := ReadHunkOrBody(ps, currentChunk, line, p);
  }

  method ReadHunkOrBody(ps: seq<Patch>, currentChunk: PatchChunk?, line: string, ghost p: T.Parsing) returns (ok: bool, currentChunk': PatchChunk?)
    requires Agrees(ps, currentChunk, p)
    requires T.MatchLine("--- ", line).None? && T.MatchLine("+++ ", line).None?
    modifies ps, ChunksOf(ps)
    ensures ok <==> T.Step(p, line).Some?
    ensures ok ==> Agrees(ps, currentChunk', T.Step(p, line).value)
    ensures fresh(ChunksOf(ps) - old(ChunksOf(ps)))
  {
    ok, currentChunk' := true, currentChunk;
    var start := T.MatchChunk(line);
    if start.Some? {
      if ps == [] {
        return false, currentChunk;
      }
      currentChunk' := StartChunk(ps, start.value.0, start.value.1, currentChunk, p);
      return;
    }
    ok := ReadBody(ps, currentChunk, line, p);
  }

  method ReadBody(ps: seq<Patch>, currentChunk: PatchChunk?, line: string, ghost p: T.Parsing) returns (ok: bool)
    requires Agrees(ps, currentChunk, p)
    requires T.IsBody(line)
    modifies ChunksOf(ps)
    ensures ok <==> T.Step(p, line).Some?
    ensures ok ==> Agrees(ps, currentChunk, T.Step(p, line).value)
    ensures ChunksOf(ps) == old(ChunksOf(ps))
  {
    var minus := T.MatchLine("-", line);
    var plus := T.MatchLine("+", line);
    var both := T.MatchLine(" ", line);
    if (minus.None? && plus.None? && both.None?) || currentChunk == null {
      return false;
    }
    var l := if minus.Some? then T.Line(T.Src, minus.value) else if plus.Some? then T.Line(T.Dst, plus.value) else T.Line(T.Both, both.value);
    CurrentInPatches(ps, currentChunk, p);
    AddBody(ps, currentChunk, l, p);
    return true;
  }

  lemma CurrentInPatches(ps: seq<Patch>, currentChunk: PatchChunk, p: T.Parsing)
    requires Agrees(ps, currentChunk, p)
    ensures currentChunk in ChunksOf(ps)
  {
    var i := p.current.value;
    assert ps[i] in ps && currentChunk in ps[i].chunks;
  }

  /** step does what a line does, whatever name it goes by. */
  ghost predicate IsStep(step: T.Reader) {
    forall p, line {:trigger T.Step(p, line)} :: step(p, line) == T.Step(p, line)
  }

  /** The n-th line of the loop. */
  method ReadNth(lines: seq<string>, n: nat, ps: seq<Patch>, currentChunk: PatchChunk?, ghost p: T.Parsing, ghost step: T.Reader)
    returns (ok: bool, ps': seq<Patch>, currentChunk': PatchChunk?, ghost p': T.Parsing)
    requires n < |lines| && IsStep(step) && T.ParseFrom(step, T.START, lines, n) == Some(p)
    requires Agrees(ps, currentChunk, p)
    modifies ps, ChunksOf(ps)
    ensures !ok ==> T.ParseFrom(step, T.START, lines, |lines|).None?
    ensures ok ==> T.ParseFrom(step, T.START, lines, n + 1) == Some(p') && Agrees(ps', currentChunk', p')
    ensures fresh((set x | x in ps') - set x | x in ps)
    ensures fresh(ChunksOf(ps') - old(ChunksOf(ps)))
  {
    ok, ps', currentChunk' := ReadLine(ps, currentChunk, lines[n], p);
    p' := p;
    if ok {
      p' := T.Step(p, lines[n]).value;
    } else {
      StopsIfNone(step, lines, n + 1);
    }
  }

  /** The loop over the lines. */
  method ReadAll(lines: seq<string>, ghost step: T.Reader) returns (ok: bool, patchset: seq<Patch>)
    requires IsStep(step)
    ensures ok <==> T.ParseFrom(step, T.START, lines, |lines|).Some?
    ensures ok ==> Separate(patchset) && Shows(patchset, T.ParseFrom(step, T.START, lines, |lines|).value.patches)
  {
    patchset := [];
    var currentChunk: PatchChunk? := null;
    ghost var p := T.START;
    for i := 0 to |lines|
      invariant T.ParseFrom(step, T.START, lines, i) == Some(p)
      invariant Agrees(patchset, currentChunk, p)
      invariant fresh(set x | x in patchset) && fresh(ChunksOf(patchset))
    {
      ok, patchset, currentChunk, p := ReadNth(lines, i, patchset, currentChunk, p, step);
      if !ok {
        return;
      }
    }
    ok := true;
  }

  method ParsePatchset(lines: seq<string>) returns (ok: bool, patchset: seq<Patch>)
    ensures ok <==> T.Parse(lines).Some?
    ensures ok ==> Separate(patchset) && Shows(patchset, T.Parse(lines).value)
    // which is that every line can be read after those before it, and what they have put together
    ensures ok <==> exists states :: L.ReadsThrough(lines, |lines|, states)
    ensures forall states :: L.ReadsThrough(lines, |lines|, states) ==> Last(states).patches == T.Parse(lines).value
  {
    ok, patchset := ReadAll(lines, T.Step);
    ParsedLines(lines);
  }

  lemma ParsedLines(lines: seq<string>)
    ensures T.Parse(lines).Some? <==> exists states :: L.ReadsThrough(lines, |lines|, states)
    ensures forall states :: L.ReadsThrough(lines, |lines|, states) ==> T.Parse(lines) == Some(Last(states).patches)
  {
    if T.Parse(lines).Some? {
      L.ParseIff(lines, T.Parse(lines).value);
    }
    forall states | L.ReadsThrough(lines, |lines|, states) ensures T.Parse(lines) == Some(Last(states).patches) {
      L.ParseIff(lines, Last(states).patches);
    }
  }

  /** A line that cannot be read ends it. */
  lemma {:induction false} StopsIfNone(step: T.Reader, lines: seq<string>, n: nat)
    requires n <= |lines|
    ensures T.ParseFrom(step, T.START, lines, n).None? ==> T.ParseFrom(step, T.START, lines, |lines|).None?
    decreases |lines| - n
  {
    if n < |lines| {
      StopsIfNone(step, lines, n + 1);
    }
  }

  method WriteAll(patchset: seq<Patch>, ghost vs: seq<T.Patch>) returns (out: seq<string>)
    requires Shows(patchset, vs)
    ensures out == T.Print(vs, |vs|)
  {
    out := [];
    for i := 0 to |patchset|
      invariant out == T.Print(vs, i)
    {
      assert ShowsAt(patchset, vs, i);
      var text := patchset[i].Write(vs[i]);
      out := out + text;
    }
  }

  /** Reading a text and writing it out again reproduces it exactly when it is a well-formed diff. */
  method Rewrite(lines: seq<string>) returns (ok: bool, out: seq<string>)
    ensures ok && out == lines <==> G.WellFormedDiff(lines)
  {
    var patchset;
    ok, patchset := ParsePatchset(lines);
    out := [];
    if ok {
      out := WriteAll(patchset, T.Parse(lines).value);
    }
    G.ReproducedIffWellFormed(lines);
  }
}
