/**
  The tilted-text detector: it walks a PDF's pages, blocks, lines and spans
  in order and sorts every span into the normal words (direction exactly
  (1, 0) or (0, 1)) or the tilted words (any other direction, kept with its
  page number and direction). The extracted text is the normal words joined
  by single spaces.

  The PDF library is abstracted away: a document is the nested page / block
  / line / span structure the loop reads, with only the keys it uses.
 */
module App {
  import opened PyStrings

  datatype Option<T> = None | Some(value: T)

  /** A span's direction vector. The loop only ever compares it for exact
      equality, so its two components are kept as exact reals. */
  datatype Dir = Dir(dx: real, dy: real)

  /** A span: its raw text and its `dir` entry, when it has one. */
  datatype Span = Span(text: string, dir: Option<Dir>)

  datatype Line = Line(spans: seq<Span>)

  /** A block; `lines` is `None` when the block has no `lines` key (an
      image block, for one). */
  datatype Block = Block(lines: Option<seq<Line>>)

  datatype Page = Page(blocks: seq<Block>)

  type Document = seq<Page>

  /** An entry of `tilted_words`: the 1-based page, the stripped text and the
      direction as read. */
  datatype TiltedWord = TiltedWord(page: nat, text: string, dir: Dir)

  /** One visit of the loop body: the page number in force and the span. */
  datatype Visit = Visit(page: nat, span: Span)

  const DefaultDir: Dir := Dir(1.0, 0.0)

  /** `span.get("dir", (1, 0))` */
  function Direction(span: Span): (r: Dir) {
    match span.dir
    case Some(d) => d
    case None => DefaultDir
  }

  /** `angle in [(1, 0), (0, 1)]`: exact membership, with no tolerance. */
  predicate IsAxisAligned(d: Dir) {
    d == Dir(1.0, 0.0) || d == Dir(0.0, 1.0)
  }

  predicate GoesToNormal(v: Visit) {
    IsAxisAligned(Direction(v.span))
  }

  // The visiting order of the four nested loops. Each function peels off
  // the LAST element, in the way the loops extend what has been visited.

  function SpanVisits(pageNum: nat, spans: seq<Span>): (r: seq<Visit>) {
    if spans == [] then []
    else SpanVisits(pageNum, spans[..|spans| - 1]) + [Visit(pageNum, spans[|spans| - 1])]
  }

  function LinesVisits(pageNum: nat, lines: seq<Line>): (r: seq<Visit>) {
    if lines == [] then []
    else LinesVisits(pageNum, lines[..|lines| - 1]) + SpanVisits(pageNum, lines[|lines| - 1].spans)
  }

  /** `if "lines" in block`: a block without lines is not visited at all. */
  function BlockVisits(pageNum: nat, block: Block): (r: seq<Visit>) {
    match block.lines
    case None => []
    case Some(lines) => LinesVisits(pageNum, lines)
  }

  function BlocksVisits(pageNum: nat, blocks: seq<Block>): (r: seq<Visit>) {
    if blocks == [] then []
    else BlocksVisits(pageNum, blocks[..|blocks| - 1]) + BlockVisits(pageNum, blocks[|blocks| - 1])
  }

  /** `enumerate(doc, start=1)`: the pages numbered from 1. */
  function DocVisits(doc: Document): (r: seq<Visit>) {
    if doc == [] then []
    else DocVisits(doc[..|doc| - 1]) + BlocksVisits(|doc|, doc[|doc| - 1].blocks)
  }

  /** The normal words the given visits contribute, in order. */
  function Normals(vs: seq<Visit>): (r: seq<string>) {
    if vs == [] then []
    else
      var v := vs[|vs| - 1];
      Normals(vs[..|vs| - 1]) + (if GoesToNormal(v) then [Strip(v.span.text)] else [])
  }

  /** The tilted words the given visits contribute, in order. */
  function Tilteds(vs: seq<Visit>): (r: seq<TiltedWord>) {
    if vs == [] then []
    else
      var v := vs[|vs| - 1];
      Tilteds(vs[..|vs| - 1])
        + (if GoesToNormal(v) then [] else [TiltedWord(v.page, Strip(v.span.text), Direction(v.span))])
  }

  /** `normal_words` once the whole document has been walked. */
  function NormalWords(doc: Document): (r: seq<string>) {
    Normals(DocVisits(doc))
  }

  /** `tilted_words` once the whole document has been walked. */
  function TiltedWords(doc: Document): (r: seq<TiltedWord>) {
    Tilteds(DocVisits(doc))
  }

  /** `" ".join(normal_words)`, the extracted text. */
  function Transcript(doc: Document): (r: string) {
    Join(NormalWords(doc))
  }

  /** The two lists, `normal_words` and `tilted_words`. */
  datatype Buckets = Buckets(normal: seq<string>, tilted: seq<TiltedWord>)

  /** The two lists after `vs` have been appended to those in `acc`. */
  function Extend(acc: Buckets, vs: seq<Visit>): (r: Buckets) {
    Buckets(acc.normal + Normals(vs), acc.tilted + Tilteds(vs))
  }

  // The loop body, and the state of the two lists after each loop has run
  // its first n rounds. Each one threads the lists through in the way the
  // loops do; the lemmas after them show it is `Extend` over the visiting
  // order.

  /** One round of the innermost loop. */
  function Place(acc: Buckets, pageNum: nat, span: Span): (r: Buckets) {
    var text := Strip(span.text);
    var angle := Direction(span);
    if !IsAxisAligned(angle) then Buckets(acc.normal, acc.tilted + [TiltedWord(pageNum, text, angle)])
    else Buckets(acc.normal + [text], acc.tilted)
  }

  ghost function ScanSpans(acc: Buckets, pageNum: nat, spans: seq<Span>, n: nat): (r: Buckets)
    requires n <= |spans|
  {
    if n == 0 then acc else Place(ScanSpans(acc, pageNum, spans, n - 1), pageNum, spans[n - 1])
  }

  ghost function ScanLines(acc: Buckets, pageNum: nat, lines: seq<Line>, n: nat): (r: Buckets)
    requires n <= |lines|
  {
    if n == 0 then acc
    else
      var spans := lines[n - 1].spans;
      ScanSpans(ScanLines(acc, pageNum, lines, n - 1), pageNum, spans, |spans|)
  }

  ghost function ScanBlock(acc: Buckets, pageNum: nat, block: Block): (r: Buckets) {
    match block.lines
    case None => acc
    case Some(lines) => ScanLines(acc, pageNum, lines, |lines|)
  }

  ghost function ScanBlocks(acc: Buckets, pageNum: nat, blocks: seq<Block>, n: nat): (r: Buckets)
    requires n <= |blocks|
  {
    if n == 0 then acc else ScanBlock(ScanBlocks(acc, pageNum, blocks, n - 1), pageNum, blocks[n - 1])
  }

  ghost function ScanPages(acc: Buckets, doc: Document, n: nat): (r: Buckets)
    requires n <= |doc|
  {
    if n == 0 then acc
    else
      var blocks := doc[n - 1].blocks;
      ScanBlocks(ScanPages(acc, doc, n - 1), n, blocks, |blocks|)
  }

  /** Filtering distributes over concatenation of visits. */
  lemma {:induction false} NormalsAppend(a: seq<Visit>, b: seq<Visit>)
    ensures Normals(a + b) == Normals(a) + Normals(b)
    decreases |b|
  {
    if b == [] {
      assert a + b == a;
    } else {
      var b' := b[..|b| - 1];
      assert (a + b)[..|a + b| - 1] == a + b';
      assert (a + b)[|a + b| - 1] == b[|b| - 1];
      NormalsAppend(a, b');
    }
  }

  lemma {:induction false} TiltedsAppend(a: seq<Visit>, b: seq<Visit>)
    ensures Tilteds(a + b) == Tilteds(a) + Tilteds(b)
    decreases |b|
  {
    if b == [] {
      assert a + b == a;
    } else {
      var b' := b[..|b| - 1];
      assert (a + b)[..|a + b| - 1] == a + b';
      assert (a + b)[|a + b| - 1] == b[|b| - 1];
      TiltedsAppend(a, b');
    }
  }

  lemma ExtendAppend(acc: Buckets, a: seq<Visit>, b: seq<Visit>)
    ensures Extend(acc, a + b) == Extend(Extend(acc, a), b)
  {
    NormalsAppend(a, b);
    TiltedsAppend(a, b);
    assert acc.normal + (Normals(a) + Normals(b)) == (acc.normal + Normals(a)) + Normals(b);
    assert acc.tilted + (Tilteds(a) + Tilteds(b)) == (acc.tilted + Tilteds(a)) + Tilteds(b);
  }

  lemma PlaceIsExtend(acc: Buckets, pageNum: nat, span: Span)
    ensures Place(acc, pageNum, span) == Extend(acc, [Visit(pageNum, span)])
  {
    var v := Visit(pageNum, span);
    assert [v][..0] == [];
    if GoesToNormal(v) {
      assert Normals([v]) == [Strip(span.text)] && Tilteds([v]) == [];
      assert acc.tilted + [] == acc.tilted;
    } else {
      assert Normals([v]) == [] && Tilteds([v]) == [TiltedWord(pageNum, Strip(span.text), Direction(span))];
      assert acc.normal + [] == acc.normal;
    }
  }

  lemma {:induction false} ScanSpansIsExtend(acc: Buckets, pageNum: nat, spans: seq<Span>, n: nat)
    requires n <= |spans|
    ensures ScanSpans(acc, pageNum, spans, n) == Extend(acc, SpanVisits(pageNum, spans[..n]))
  {
    if n == 0 {
      assert spans[..0] == [];
    } else {
      ScanSpansIsExtend(acc, pageNum, spans, n - 1);
      assert spans[..n][..n - 1] == spans[..n - 1];
      var v := Visit(pageNum, spans[n - 1]);
      PlaceIsExtend(ScanSpans(acc, pageNum, spans, n - 1), pageNum, spans[n - 1]);
      ExtendAppend(acc, SpanVisits(pageNum, spans[..n - 1]), [v]);
    }
  }

  lemma {:induction false} ScanLinesIsExtend(acc: Buckets, pageNum: nat, lines: seq<Line>, n: nat)
    requires n <= |lines|
    ensures ScanLines(acc, pageNum, lines, n) == Extend(acc, LinesVisits(pageNum, lines[..n]))
  {
    if n == 0 {
      assert lines[..0] == [];
    } else {
      var spans := lines[n - 1].spans;
      ScanLinesIsExtend(acc, pageNum, lines, n - 1);
      assert lines[..n][..n - 1] == lines[..n - 1];
      ScanSpansIsExtend(ScanLines(acc, pageNum, lines, n - 1), pageNum, spans, |spans|);
      assert spans[..|spans|] == spans;
      ExtendAppend(acc, LinesVisits(pageNum, lines[..n - 1]), SpanVisits(pageNum, spans));
    }
  }

  lemma ScanBlockIsExtend(acc: Buckets, pageNum: nat, block: Block)
    ensures ScanBlock(acc, pageNum, block) == Extend(acc, BlockVisits(pageNum, block))
  {
    match block.lines
    case None =>
    case Some(lines) =>
      ScanLinesIsExtend(acc, pageNum, lines, |lines|);
      assert lines[..|lines|] == lines;
  }

  lemma {:induction false} ScanBlocksIsExtend(acc: Buckets, pageNum: nat, blocks: seq<Block>, n: nat)
    requires n <= |blocks|
    ensures ScanBlocks(acc, pageNum, blocks, n) == Extend(acc, BlocksVisits(pageNum, blocks[..n]))
  {
    if n == 0 {
      assert blocks[..0] == [];
    } else {
      ScanBlocksIsExtend(acc, pageNum, blocks, n - 1);
      assert blocks[..n][..n - 1] == blocks[..n - 1];
      ScanBlockIsExtend(ScanBlocks(acc, pageNum, blocks, n - 1), pageNum, blocks[n - 1]);
      ExtendAppend(acc, BlocksVisits(pageNum, blocks[..n - 1]), BlockVisits(pageNum, blocks[n - 1]));
    }
  }

  lemma {:induction false} ScanPagesIsExtend(acc: Buckets, doc: Document, n: nat)
    requires n <= |doc|
    ensures ScanPages(acc, doc, n) == Extend(acc, DocVisits(doc[..n]))
  {
    if n == 0 {
      assert doc[..0] == [];
    } else {
      var blocks := doc[n - 1].blocks;
      ScanPagesIsExtend(acc, doc, n - 1);
      assert doc[..n][..n - 1] == doc[..n - 1];
      ScanBlocksIsExtend(ScanPages(acc, doc, n - 1), n, blocks, |blocks|);
      assert blocks[..|blocks|] == blocks;
      ExtendAppend(acc, DocVisits(doc[..n - 1]), BlocksVisits(n, blocks));
    }
  }

  /** The four nested loops, appending to the two lists as they go. */
  method ExtractWords(doc: Document) returns (normalWords: seq<string>, tiltedWords: seq<TiltedWord>)
    ensures normalWords == NormalWords(doc)
    ensures tiltedWords == TiltedWords(doc)
  {
    tiltedWords := [];
    normalWords := [];
    for i := 0 to |doc|
      invariant Buckets(normalWords, tiltedWords) == ScanPages(Buckets([], []), doc, i)
    {
      var pageNum := i + 1;
      var blocks := doc[i].blocks;
      ghost var beforePage := Buckets(normalWords, tiltedWords);
      for b := 0 to |blocks|
        invariant Buckets(normalWords, tiltedWords) == ScanBlocks(beforePage, pageNum, blocks, b)
      {
        var block := blocks[b];
        if block.lines.Some? {
          var lines := block.lines.value;
          ghost var beforeBlock := Buckets(normalWords, tiltedWords);
          for l := 0 to |lines|
            invariant Buckets(normalWords, tiltedWords) == ScanLines(beforeBlock, pageNum, lines, l)
          {
            var spans := lines[l].spans;
            ghost var beforeLine := Buckets(normalWords, tiltedWords);
            for s := 0 to |spans|
              invariant Buckets(normalWords, tiltedWords) == ScanSpans(beforeLine, pageNum, spans, s)
            {
              var span := spans[s];
              var text := Strip(span.text);
              var angle := Direction(span);
              if !IsAxisAligned(angle) {
                tiltedWords := tiltedWords + [TiltedWord(pageNum, text, angle)];
              } else {
                normalWords := normalWords + [text];
              }
            }
          }
        }
      }
    }
    ScanPagesIsExtend(Buckets([], []), doc, |doc|);
    assert doc[..|doc|] == doc;
  }
}
