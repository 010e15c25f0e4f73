/**
  What the extraction loop guarantees about its two lists, stated over the
  visiting order `DocVisits`: every span lands in exactly one list, in
  document order, with its page number, its stripped text and its direction;
  a span without a direction is normal; blocks without lines add nothing.
 */
module TiltProperties {
  import opened PyStrings
  import opened App

  // ---------------------------------------------------------------------
  // Counting: the two lists together hold one entry per visited span.

  function LinesSpanCount(lines: seq<Line>): (r: nat) {
    if lines == [] then 0 else LinesSpanCount(lines[..|lines| - 1]) + |lines[|lines| - 1].spans|
  }

  /** Spans of the blocks that have a `lines` key. */
  function BlocksSpanCount(blocks: seq<Block>): (r: nat) {
    if blocks == [] then 0
    else
      var b := blocks[|blocks| - 1];
      BlocksSpanCount(blocks[..|blocks| - 1]) + (if b.lines.Some? then LinesSpanCount(b.lines.value) else 0)
  }

  function SpanCount(doc: Document): (r: nat) {
    if doc == [] then 0 else SpanCount(doc[..|doc| - 1]) + BlocksSpanCount(doc[|doc| - 1].blocks)
  }

  lemma {:induction false} SpanVisitsAt(pageNum: nat, spans: seq<Span>)
    ensures |SpanVisits(pageNum, spans)| == |spans|
    ensures forall k :: 0 <= k < |spans| ==> SpanVisits(pageNum, spans)[k] == Visit(pageNum, spans[k])
    decreases |spans|
  {
    if spans != [] {
      SpanVisitsAt(pageNum, spans[..|spans| - 1]);
    }
  }

  lemma {:induction false} LinesVisitsCount(pageNum: nat, lines: seq<Line>)
    ensures |LinesVisits(pageNum, lines)| == LinesSpanCount(lines)
    decreases |lines|
  {
    if lines != [] {
      LinesVisitsCount(pageNum, lines[..|lines| - 1]);
      SpanVisitsAt(pageNum, lines[|lines| - 1].spans);
    }
  }

  lemma {:induction false} BlocksVisitsCount(pageNum: nat, blocks: seq<Block>)
    ensures |BlocksVisits(pageNum, blocks)| == BlocksSpanCount(blocks)
    decreases |blocks|
  {
    if blocks != [] {
      BlocksVisitsCount(pageNum, blocks[..|blocks| - 1]);
      var b := blocks[|blocks| - 1];
      if b.lines.Some? {
        LinesVisitsCount(pageNum, b.lines.value);
      }
    }
  }

  lemma {:induction false} DocVisitsCount(doc: Document)
    ensures |DocVisits(doc)| == SpanCount(doc)
    decreases |doc|
  {
    if doc != [] {
      DocVisitsCount(doc[..|doc| - 1]);
      BlocksVisitsCount(|doc|, doc[|doc| - 1].blocks);
    }
  }

  lemma {:induction false} PartitionSizes(vs: seq<Visit>)
    ensures |Normals(vs)| + |Tilteds(vs)| == |vs|
    decreases |vs|
  {
    if vs != [] {
      PartitionSizes(vs[..|vs| - 1]);
    }
  }

  /** The two lists' lengths add up to the number of spans in blocks that
      have lines. */
  lemma BucketSizes(doc: Document)
    ensures |NormalWords(doc)| + |TiltedWords(doc)| == SpanCount(doc)
  {
    PartitionSizes(DocVisits(doc));
    DocVisitsCount(doc);
  }

  // ---------------------------------------------------------------------
  // Exactly one bucket, in order: each list is the ordered selection of the
  // visits whose direction puts them in it.

  /** The indices, in increasing order, of the visits that go to the normal
      list (`normal` true) or to the tilted list (`normal` false). */
  function Positions(vs: seq<Visit>, normal: bool): (ps: seq<nat>)
    ensures forall i :: 0 <= i < |ps| ==> ps[i] < |vs| && GoesToNormal(vs[ps[i]]) == normal
  {
    if vs == [] then []
    else
      var n := |vs| - 1;
      var init := Positions(vs[..n], normal);
      assert forall i :: 0 <= i < |init| ==> vs[..n][init[i]] == vs[init[i]];
      init + (if GoesToNormal(vs[n]) == normal then [n] else [])
  }

  /** The indices are strictly increasing, and every visit that goes to
      that list is among them. */
  lemma {:induction false} PositionsSortedComplete(vs: seq<Visit>, normal: bool)
    ensures var ps := Positions(vs, normal);
      && (forall i, j :: 0 <= i < j < |ps| ==> ps[i] < ps[j])
      && (forall k :: 0 <= k < |vs| && GoesToNormal(vs[k]) == normal ==> k in ps)
    decreases |vs|
  {
    if vs != [] {
      var n := |vs| - 1;
      PositionsSortedComplete(vs[..n], normal);
      var init := Positions(vs[..n], normal);
      var ps := Positions(vs, normal);
      assert ps == init + (if GoesToNormal(vs[n]) == normal then [n] else []);
      forall k | 0 <= k < n && GoesToNormal(vs[k]) == normal
        ensures k in ps
      {
        assert vs[..n][k] == vs[k];
        assert k in init;
      }
    }
  }

  /** `normal_words[i]` is the stripped text of the i-th visited span whose
      direction is (1, 0) or (0, 1). */
  lemma {:induction false} NormalsAt(vs: seq<Visit>)
    ensures |Normals(vs)| == |Positions(vs, true)|
    ensures forall i :: 0 <= i < |Normals(vs)| ==>
      Normals(vs)[i] == Strip(vs[Positions(vs, true)[i]].span.text)
    decreases |vs|
  {
    if vs != [] {
      var n := |vs| - 1;
      var init := vs[..n];
      NormalsAt(init);
      var A, PA := Normals(init), Positions(init, true);
      assert Normals(vs) == A + (if GoesToNormal(vs[n]) then [Strip(vs[n].span.text)] else []);
      assert Positions(vs, true) == PA + (if GoesToNormal(vs[n]) then [n] else []);
      forall i | 0 <= i < |Normals(vs)|
        ensures Normals(vs)[i] == Strip(vs[Positions(vs, true)[i]].span.text)
      {
        if i < |A| {
          assert init[PA[i]] == vs[PA[i]];
        }
      }
    }
  }

  /** `tilted_words[i]` is the page number, stripped text and direction of
      the i-th visited span whose direction is neither (1, 0) nor (0, 1). */
  lemma {:induction false} TiltedsAt(vs: seq<Visit>)
    ensures |Tilteds(vs)| == |Positions(vs, false)|
    ensures forall i :: 0 <= i < |Tilteds(vs)| ==>
      var v := vs[Positions(vs, false)[i]];
      Tilteds(vs)[i] == TiltedWord(v.page, Strip(v.span.text), Direction(v.span))
    decreases |vs|
  {
    if vs != [] {
      var n := |vs| - 1;
      var init := vs[..n];
      TiltedsAt(init);
      var A, QA := Tilteds(init), Positions(init, false);
      var v := vs[n];
      assert Tilteds(vs)
        == A + (if GoesToNormal(v) then [] else [TiltedWord(v.page, Strip(v.span.text), Direction(v.span))]);
      assert Positions(vs, false) == QA + (if GoesToNormal(v) then [] else [n]);
      forall i | 0 <= i < |Tilteds(vs)|
        ensures
          var w := vs[Positions(vs, false)[i]];
          Tilteds(vs)[i] == TiltedWord(w.page, Strip(w.span.text), Direction(w.span))
      {
        if i < |A| {
          assert init[QA[i]] == vs[QA[i]];
        }
      }
    }
  }

  /** Every visited span is in exactly one of the two lists: the normal one
      exactly when its direction is axis-aligned. */
  lemma ExactlyOneBucket(doc: Document)
    ensures
      var vs := DocVisits(doc);
      && |NormalWords(doc)| == |Positions(vs, true)|
      && |TiltedWords(doc)| == |Positions(vs, false)|
      && (forall k :: 0 <= k < |vs| ==> (k in Positions(vs, true) <==> IsAxisAligned(Direction(vs[k].span))))
      && (forall k :: 0 <= k < |vs| ==> (k in Positions(vs, false) <==> !IsAxisAligned(Direction(vs[k].span))))
  {
    var vs := DocVisits(doc);
    NormalsAt(vs);
    TiltedsAt(vs);
    PositionsSortedComplete(vs, true);
    PositionsSortedComplete(vs, false);
    var P, Q := Positions(vs, true), Positions(vs, false);
    forall k | 0 <= k < |vs|
      ensures (k in P <==> GoesToNormal(vs[k])) && (k in Q <==> !GoesToNormal(vs[k]))
    {
      if k in P {
        var i :| 0 <= i < |P| && P[i] == k;
      }
      if k in Q {
        var i :| 0 <= i < |Q| && Q[i] == k;
      }
    }
  }

  /** No tilted words exactly when every visited span is axis-aligned; this
      is when "No tilted words detected." is shown. */
  lemma {:induction false} NoTiltedIff(vs: seq<Visit>)
    ensures Tilteds(vs) == [] <==> forall k :: 0 <= k < |vs| ==> GoesToNormal(vs[k])
    decreases |vs|
  {
    if vs != [] {
      var n := |vs| - 1;
      NoTiltedIff(vs[..n]);
      assert forall k :: 0 <= k < n ==> vs[..n][k] == vs[k];
      if !GoesToNormal(vs[n]) {
        assert |Tilteds(vs)| > 0;
      }
    }
  }

  /** A span with no `dir` entry takes (1, 0): a document none of whose
      spans has one has no tilted words, and one normal word per span. */
  lemma NoDirectionNoTilt(doc: Document)
    requires forall k :: 0 <= k < |DocVisits(doc)| ==> DocVisits(doc)[k].span.dir.None?
    ensures TiltedWords(doc) == []
    ensures |NormalWords(doc)| == |DocVisits(doc)|
  {
    var vs := DocVisits(doc);
    assert forall k :: 0 <= k < |vs| ==> Direction(vs[k].span) == Dir(1.0, 0.0);
    NoTiltedIff(vs);
    PartitionSizes(vs);
  }

  /** A normal word is empty exactly when the span it comes from holds
      whitespace only: empty results are kept, not filtered out. */
  lemma EmptyWordIff(doc: Document, i: nat)
    requires i < |NormalWords(doc)|
    ensures i < |Positions(DocVisits(doc), true)|
    ensures NormalWords(doc)[i] == ""
      <==> AllSpace(DocVisits(doc)[Positions(DocVisits(doc), true)[i]].span.text)
  {
    var vs := DocVisits(doc);
    NormalsAt(vs);
    StripEmptyIff(vs[Positions(vs, true)[i]].span.text);
  }

  /** The same for tilted entries. */
  lemma EmptyTiltedTextIff(doc: Document, i: nat)
    requires i < |TiltedWords(doc)|
    ensures i < |Positions(DocVisits(doc), false)|
    ensures TiltedWords(doc)[i].text == ""
      <==> AllSpace(DocVisits(doc)[Positions(DocVisits(doc), false)[i]].span.text)
  {
    var vs := DocVisits(doc);
    TiltedOrigin(vs, i);
    StripEmptyIff(vs[Positions(vs, false)[i]].span.text);
  }

  // ---------------------------------------------------------------------
  // The transcript.

  /** The extracted text is empty exactly when there is no normal word, or
      a single one that is empty. */
  lemma TranscriptEmptyIff(doc: Document)
    ensures Transcript(doc) == "" <==> NormalWords(doc) == [] || NormalWords(doc) == [""]
  {
    JoinEmptyIff(NormalWords(doc));
  }

  /** When there is a normal word and none of them holds an inner space,
      splitting the extracted text on spaces gives the normal words back. */
  lemma TranscriptSplits(doc: Document)
    requires |NormalWords(doc)| >= 1
    requires forall k :: 0 <= k < |NormalWords(doc)| ==> ' ' !in NormalWords(doc)[k]
    ensures Split(Transcript(doc)) == NormalWords(doc)
  {
    SplitJoin(NormalWords(doc));
  }

  /** The extracted text has one space between consecutive normal words and
      nothing else besides them. */
  lemma TranscriptLength(doc: Document)
    requires |NormalWords(doc)| >= 1
    ensures |Transcript(doc)| == TotalLength(NormalWords(doc)) + |NormalWords(doc)| - 1
  {
    JoinLength(NormalWords(doc));
  }

  /** A further page's words come after all those of the pages before it,
      in the order of its own visits. */
  lemma NextPageAppends(doc: Document, page: Page)
    ensures NormalWords(doc + [page]) == NormalWords(doc) + Normals(BlocksVisits(|doc| + 1, page.blocks))
    ensures TiltedWords(doc + [page]) == TiltedWords(doc) + Tilteds(BlocksVisits(|doc| + 1, page.blocks))
  {
    var d := doc + [page];
    assert d[..|d| - 1] == doc;
    var last := BlocksVisits(|doc| + 1, page.blocks);
    assert DocVisits(d) == DocVisits(doc) + last;
    NormalsAppend(DocVisits(doc), last);
    TiltedsAppend(DocVisits(doc), last);
  }

  // ---------------------------------------------------------------------
  // Page numbers.

  /** The span occurs in some line of some block of the page that has lines. */
  ghost predicate OnPage(span: Span, page: Page) {
    exists b, l ::
      && 0 <= b < |page.blocks|
      && page.blocks[b].lines.Some?
      && 0 <= l < |page.blocks[b].lines.value|
      && span in page.blocks[b].lines.value[l].spans
  }

  lemma {:induction false} LinesVisitsFrom(pageNum: nat, lines: seq<Line>)
    ensures forall v :: v in LinesVisits(pageNum, lines) ==>
      v.page == pageNum && exists l :: 0 <= l < |lines| && v.span in lines[l].spans
    decreases |lines|
  {
    if lines != [] {
      var n := |lines| - 1;
      LinesVisitsFrom(pageNum, lines[..n]);
      SpanVisitsAt(pageNum, lines[n].spans);
      forall v | v in LinesVisits(pageNum, lines)
        ensures v.page == pageNum && exists l :: 0 <= l < |lines| && v.span in lines[l].spans
      {
        if v in LinesVisits(pageNum, lines[..n]) {
          var l :| 0 <= l < n && v.span in lines[..n][l].spans;
          assert lines[..n][l] == lines[l];
        } else {
          assert v in SpanVisits(pageNum, lines[n].spans);
          var k :| 0 <= k < |lines[n].spans| && SpanVisits(pageNum, lines[n].spans)[k] == v;
          assert v.span in lines[n].spans;
        }
      }
    }
  }

  lemma {:induction false} BlocksVisitsFrom(pageNum: nat, blocks: seq<Block>)
    ensures forall v :: v in BlocksVisits(pageNum, blocks) ==> v.page == pageNum && OnPage(v.span, Page(blocks))
    decreases |blocks|
  {
    if blocks != [] {
      var n := |blocks| - 1;
      BlocksVisitsFrom(pageNum, blocks[..n]);
      forall v | v in BlocksVisits(pageNum, blocks)
        ensures v.page == pageNum && OnPage(v.span, Page(blocks))
      {
        if v in BlocksVisits(pageNum, blocks[..n]) {
          var b, l :| && 0 <= b < n && blocks[..n][b].lines.Some?
                      && 0 <= l < |blocks[..n][b].lines.value|
                      && v.span in blocks[..n][b].lines.value[l].spans;
          assert blocks[..n][b] == blocks[b];
        } else {
          var lines := blocks[n].lines.value;
          LinesVisitsFrom(pageNum, lines);
          var l :| 0 <= l < |lines| && v.span in lines[l].spans;
          assert Page(blocks).blocks[n].lines.value[l] == lines[l];
        }
      }
    }
  }

  /** Visits are numbered with the 1-based page they come from. */
  lemma {:induction false} DocVisitsOnPage(doc: Document)
    ensures forall k :: 0 <= k < |DocVisits(doc)| ==>
      var v := DocVisits(doc)[k];
      1 <= v.page <= |doc| && OnPage(v.span, doc[v.page - 1])
    decreases |doc|
  {
    if doc != [] {
      var n := |doc| - 1;
      var init := DocVisits(doc[..n]);
      var last := BlocksVisits(n + 1, doc[n].blocks);
      DocVisitsOnPage(doc[..n]);
      BlocksVisitsFrom(n + 1, doc[n].blocks);
      assert DocVisits(doc) == init + last;
      forall k | 0 <= k < |DocVisits(doc)|
        ensures var v := DocVisits(doc)[k]; 1 <= v.page <= |doc| && OnPage(v.span, doc[v.page - 1])
      {
        if k < |init| {
          var v := init[k];
          assert DocVisits(doc)[k] == v;
          assert doc[..n][v.page - 1] == doc[v.page - 1];
        } else {
          var v := last[k - |init|];
          assert DocVisits(doc)[k] == v;
          assert v in last;
        }
      }
    }
  }

  /** Pages are visited in increasing order. */
  lemma {:induction false} DocVisitsPageOrder(doc: Document)
    ensures forall j, k :: 0 <= j <= k < |DocVisits(doc)| ==> DocVisits(doc)[j].page <= DocVisits(doc)[k].page
    decreases |doc|
  {
    if doc != [] {
      var n := |doc| - 1;
      var init := DocVisits(doc[..n]);
      var last := BlocksVisits(n + 1, doc[n].blocks);
      DocVisitsPageOrder(doc[..n]);
      DocVisitsOnPage(doc[..n]);
      BlocksVisitsFrom(n + 1, doc[n].blocks);
      var vs := DocVisits(doc);
      assert vs == init + last;
      forall k | 0 <= k < |vs|
        ensures k < |init| ==> vs[k] == init[k] && vs[k].page <= n
        ensures |init| <= k ==> vs[k].page == n + 1
      {
        if |init| <= k {
          assert vs[k] == last[k - |init|];
          assert last[k - |init|] in last;
        }
      }
    }
  }

  /** Visits are numbered with the 1-based page they come from, pages in
      increasing order. */
  lemma DocVisitsPages(doc: Document)
    ensures forall k :: 0 <= k < |DocVisits(doc)| ==>
      var v := DocVisits(doc)[k];
      1 <= v.page <= |doc| && OnPage(v.span, doc[v.page - 1])
    ensures forall j, k :: 0 <= j <= k < |DocVisits(doc)| ==> DocVisits(doc)[j].page <= DocVisits(doc)[k].page
  {
    DocVisitsOnPage(doc);
    DocVisitsPageOrder(doc);
  }

  lemma VisitOrigin(doc: Document, k: nat)
    requires k < |DocVisits(doc)|
    ensures 1 <= DocVisits(doc)[k].page <= |doc|
    ensures OnPage(DocVisits(doc)[k].span, doc[DocVisits(doc)[k].page - 1])
  {
    DocVisitsPages(doc);
  }

  lemma TiltedOrigin(vs: seq<Visit>, i: nat)
    requires i < |Tilteds(vs)|
    ensures i < |Positions(vs, false)|
    ensures
      var v := vs[Positions(vs, false)[i]];
      Tilteds(vs)[i] == TiltedWord(v.page, Strip(v.span.text), Direction(v.span)) && !GoesToNormal(v)
  {
    TiltedsAt(vs);
  }

  /** `t` holds the stripped text and the direction of `span`, which is tilted. */
  predicate RecordsSpan(t: TiltedWord, span: Span) {
    t.text == Strip(span.text) && t.dir == Direction(span) && !IsAxisAligned(t.dir)
  }

  /** The i-th tilted entry comes from the i-th tilted visit: it records
      a 1-based page that visit's span is on, together with the span's
      stripped text and its direction, which is tilted. `OnPage` speaks of
      span values, so when the same span value occurs on several pages it
      allows any of them; which page exactly is fixed by the visiting order
      itself (`NextPageAppends` numbers a further page's entries `|doc| + 1`,
      and `TiltedsAt` takes each entry's page from its visit). */
  lemma TiltedWordOrigin(doc: Document, i: nat)
    requires i < |TiltedWords(doc)|
    ensures i < |Positions(DocVisits(doc), false)|
    ensures
      var t := TiltedWords(doc)[i];
      var sp := DocVisits(doc)[Positions(DocVisits(doc), false)[i]].span;
      && 1 <= t.page <= |doc|
      && OnPage(sp, doc[t.page - 1])
      && RecordsSpan(t, sp)
  {
    var vs := DocVisits(doc);
    TiltedOrigin(vs, i);
    VisitOrigin(doc, Positions(vs, false)[i]);
  }

  /** Tilted entries come in page order. */
  lemma TiltedWordsInPageOrder(doc: Document)
    ensures forall i, j :: 0 <= i < j < |TiltedWords(doc)| ==> TiltedWords(doc)[i].page <= TiltedWords(doc)[j].page
  {
    var vs := DocVisits(doc);
    TiltedsAt(vs);
    DocVisitsPages(doc);
    PositionsSortedComplete(vs, false);
    var Q := Positions(vs, false);
    forall i, j | 0 <= i < j < |TiltedWords(doc)|
      ensures TiltedWords(doc)[i].page <= TiltedWords(doc)[j].page
    {
      assert TiltedWords(doc)[i].page == vs[Q[i]].page;
      assert TiltedWords(doc)[j].page == vs[Q[j]].page;
      assert Q[i] < Q[j];
    }
  }

  // ---------------------------------------------------------------------
  // Blocks without lines.

  /** The blocks that have a `lines` key, in order. */
  function KeepLined(blocks: seq<Block>): (r: seq<Block>)
    ensures |r| <= |blocks|
    ensures forall k :: 0 <= k < |r| ==> r[k].lines.Some?
  {
    if blocks == [] then []
    else
      var b := blocks[|blocks| - 1];
      KeepLined(blocks[..|blocks| - 1]) + (if b.lines.Some? then [b] else [])
  }

  /** The document with every block that has no `lines` key removed. */
  function DropLineless(doc: Document): (r: Document)
    ensures |r| == |doc|
  {
    if doc == [] then [] else DropLineless(doc[..|doc| - 1]) + [Page(KeepLined(doc[|doc| - 1].blocks))]
  }

  lemma {:induction false} KeepLinedVisits(pageNum: nat, blocks: seq<Block>)
    ensures BlocksVisits(pageNum, KeepLined(blocks)) == BlocksVisits(pageNum, blocks)
    decreases |blocks|
  {
    if blocks != [] {
      var n := |blocks| - 1;
      var init := KeepLined(blocks[..n]);
      KeepLinedVisits(pageNum, blocks[..n]);
      if blocks[n].lines.Some? {
        assert (init + [blocks[n]])[..|init|] == init;
      } else {
        assert init + [] == init;
      }
    }
  }

  /** Removing the blocks that have no lines changes neither list. */
  lemma {:induction false} LinelessBlocksIgnored(doc: Document)
    ensures DocVisits(DropLineless(doc)) == DocVisits(doc)
    ensures NormalWords(DropLineless(doc)) == NormalWords(doc)
    ensures TiltedWords(DropLineless(doc)) == TiltedWords(doc)
    decreases |doc|
  {
    if doc != [] {
      var n := |doc| - 1;
      var d := DropLineless(doc);
      LinelessBlocksIgnored(doc[..n]);
      assert d[..n] == DropLineless(doc[..n]);
      KeepLinedVisits(n + 1, doc[n].blocks);
    }
  }

  // ---------------------------------------------------------------------
  // Worked examples.

  /** A page made of one block holding one line of spans. */
  function OneLinePage(spans: seq<Span>): (r: Page) {
    Page([Block(Some([Line(spans)]))])
  }

  lemma OneLinePageVisits(pageNum: nat, spans: seq<Span>)
    ensures BlocksVisits(pageNum, OneLinePage(spans).blocks) == SpanVisits(pageNum, spans)
  {
    var lines := [Line(spans)];
    assert lines[..0] == [];
    assert LinesVisits(pageNum, lines) == [] + SpanVisits(pageNum, spans);
    var blocks := OneLinePage(spans).blocks;
    assert blocks[..0] == [];
    assert BlocksVisits(pageNum, blocks) == [] + BlockVisits(pageNum, blocks[0]);
    assert [] + SpanVisits(pageNum, spans) == SpanVisits(pageNum, spans);
  }

  lemma TwoSpanVisits(pageNum: nat, a: Span, b: Span)
    ensures SpanVisits(pageNum, [a, b]) == [Visit(pageNum, a), Visit(pageNum, b)]
  {
    assert [a, b][..1] == [a];
    assert [a][..0] == [];
    assert SpanVisits(pageNum, [a]) == [] + [Visit(pageNum, a)];
  }

  /** Where a single visit goes. */
  lemma OneVisitNormals(v: Visit)
    ensures Normals([v]) == if GoesToNormal(v) then [Strip(v.span.text)] else []
  {
    assert [v][..0] == [];
  }

  lemma OneVisitTilteds(v: Visit)
    ensures Tilteds([v]) == if GoesToNormal(v) then [] else [TiltedWord(v.page, Strip(v.span.text), Direction(v.span))]
  {
    assert [v][..0] == [];
  }

  /** Four visits of which the first and third are axis-aligned: those two
      give the normal words. */
  lemma AlternatingNormals(v1: Visit, v2: Visit, v3: Visit, v4: Visit)
    requires GoesToNormal(v1) && !GoesToNormal(v2) && GoesToNormal(v3) && !GoesToNormal(v4)
    ensures Normals([v1, v2, v3, v4]) == [Strip(v1.span.text), Strip(v3.span.text)]
  {
    OneVisitNormals(v1);
    OneVisitNormals(v2);
    OneVisitNormals(v3);
    OneVisitNormals(v4);
    NormalsAppend([v1, v2], [v3, v4]);
    NormalsAppend([v1], [v2]);
    NormalsAppend([v3], [v4]);
    assert [v1] + [v2] == [v1, v2] && [v3] + [v4] == [v3, v4];
    assert [v1, v2] + [v3, v4] == [v1, v2, v3, v4];
  }

  /** The same four visits: the second and fourth give the tilted words. */
  lemma AlternatingTilteds(v1: Visit, v2: Visit, v3: Visit, v4: Visit)
    requires GoesToNormal(v1) && !GoesToNormal(v2) && GoesToNormal(v3) && !GoesToNormal(v4)
    ensures Tilteds([v1, v2, v3, v4]) == [
      TiltedWord(v2.page, Strip(v2.span.text), Direction(v2.span)),
      TiltedWord(v4.page, Strip(v4.span.text), Direction(v4.span))]
  {
    OneVisitTilteds(v1);
    OneVisitTilteds(v2);
    OneVisitTilteds(v3);
    OneVisitTilteds(v4);
    TiltedsAppend([v1, v2], [v3, v4]);
    TiltedsAppend([v1], [v2]);
    TiltedsAppend([v3], [v4]);
    assert [v1] + [v2] == [v1, v2] && [v3] + [v4] == [v3, v4];
    assert [v1, v2] + [v3, v4] == [v1, v2, v3, v4];
  }

  /** A two-page document is visited page 1 first, then page 2. */
  lemma TwoPageVisits(p1: Page, p2: Page)
    ensures DocVisits([p1, p2]) == BlocksVisits(1, p1.blocks) + BlocksVisits(2, p2.blocks)
  {
    var doc := [p1, p2];
    var first := doc[..1];
    assert first == [p1];
    assert first[..0] == [];
    assert DocVisits(first) == DocVisits([]) + BlocksVisits(1, p1.blocks);
    assert DocVisits(doc) == DocVisits(first) + BlocksVisits(2, p2.blocks);
  }

  /** The image block after the line block adds nothing. */
  lemma FirstPageVisits(s1: Span, s2: Span)
    ensures BlocksVisits(1, OneLinePage([s1, s2]).blocks + [Block(None)]) == [Visit(1, s1), Visit(1, s2)]
  {
    var blocks := OneLinePage([s1, s2]).blocks + [Block(None)];
    assert blocks[..1] == OneLinePage([s1, s2]).blocks;
    OneLinePageVisits(1, [s1, s2]);
    TwoSpanVisits(1, s1, s2);
    assert BlocksVisits(1, blocks) == BlocksVisits(1, blocks[..1]) + [];
  }

  /** Two pages: an upright run and a run at 45 degrees, then an image
      block, on page 1; a vertical run and an upside-down run on page 2. */
  function MixedPages(a: string, b: string, c: string, d: string): (r: Document) {
    [
      Page(OneLinePage([Span(a, None), Span(b, Some(Dir(0.71, 0.71)))]).blocks + [Block(None)]),
      OneLinePage([Span(c, Some(Dir(0.0, 1.0))), Span(d, Some(Dir(-1.0, 0.0)))])
    ]
  }

  lemma MixedPagesVisits(a: string, b: string, c: string, d: string)
    ensures DocVisits(MixedPages(a, b, c, d)) == [
      Visit(1, Span(a, None)), Visit(1, Span(b, Some(Dir(0.71, 0.71)))),
      Visit(2, Span(c, Some(Dir(0.0, 1.0)))), Visit(2, Span(d, Some(Dir(-1.0, 0.0))))]
  {
    var s1, s2 := Span(a, None), Span(b, Some(Dir(0.71, 0.71)));
    var s3, s4 := Span(c, Some(Dir(0.0, 1.0))), Span(d, Some(Dir(-1.0, 0.0)));
    var p1 := Page(OneLinePage([s1, s2]).blocks + [Block(None)]);
    var p2 := OneLinePage([s3, s4]);
    assert MixedPages(a, b, c, d) == [p1, p2];
    TwoPageVisits(p1, p2);
    FirstPageVisits(s1, s2);
    OneLinePageVisits(2, [s3, s4]);
    TwoSpanVisits(2, s3, s4);
  }

  /** On the two pages above, the upright and the vertical run go to the
      transcript, in that order; the runs at 45 and at 180 degrees are
      reported with their page and direction, in that order. */
  lemma MixedDocument(a: string, b: string, c: string, d: string)
    ensures NormalWords(MixedPages(a, b, c, d)) == [Strip(a), Strip(c)]
    ensures TiltedWords(MixedPages(a, b, c, d))
      == [TiltedWord(1, Strip(b), Dir(0.71, 0.71)), TiltedWord(2, Strip(d), Dir(-1.0, 0.0))]
    ensures Transcript(MixedPages(a, b, c, d)) == Strip(a) + " " + Strip(c)
  {
    MixedPagesVisits(a, b, c, d);
    var v1, v2 := Visit(1, Span(a, None)), Visit(1, Span(b, Some(Dir(0.71, 0.71))));
    var v3, v4 := Visit(2, Span(c, Some(Dir(0.0, 1.0)))), Visit(2, Span(d, Some(Dir(-1.0, 0.0))));
    AlternatingNormals(v1, v2, v3, v4);
    AlternatingTilteds(v1, v2, v3, v4);
    assert Join([Strip(a), Strip(c)]) == Strip(a) + " " + Join([Strip(c)]);
  }

  /** A direction a hair off horizontal is tilted: there is no tolerance. */
  lemma NearlyHorizontalIsTilted(text: string)
    ensures
      var doc := [OneLinePage([Span(text, Some(Dir(1.0, 0.0001)))])];
      && NormalWords(doc) == []
      && TiltedWords(doc) == [TiltedWord(1, Strip(text), Dir(1.0, 0.0001))]
  {
    var sp := Span(text, Some(Dir(1.0, 0.0001)));
    var doc := [OneLinePage([sp])];
    OneLinePageVisits(1, [sp]);
    assert [sp][..0] == [];
    assert doc[..0] == [];
    assert SpanVisits(1, [sp]) == [] + [Visit(1, sp)];
    assert DocVisits(doc) == [] + BlocksVisits(1, doc[0].blocks);
    assert DocVisits(doc) == [Visit(1, sp)];
    OneVisitNormals(Visit(1, sp));
    OneVisitTilteds(Visit(1, sp));
  }
}
