/** The pager: expanded layout, lazy style cache, streamed append (src/tui/pager.go). */
module Pager {
  import opened Wrap
  import Stream

  const STYLE_MARGIN := 20
  const SCROLL_STEP := 8

  datatype Option<+T> = None | Some(value: T)

  datatype Kind = Subject | Header | Body | Signature | Attachment | Error | Security

  /** One structured line. block is the decoded height of an own-line image (0 until decoded),
      inline the decoded heights of the images that sit in the text, labels its link markers. */
  datatype Line = Line(text: string, kind: Kind, quoted: nat, ok: bool, labels: seq<string>,
                       block: Option<nat>, inline: seq<nat>)

  function BodyLine(text: string): Line {
    Line(text, Body, 0, false, [], None, [])
  }

  predicate Carries(l: Line) {
    l.block.Some? || l.inline != []
  }

  /** Styled text: everything that styleLine reads, and nothing it does not. */
  datatype Text = Text(face: Line, headerRun: nat, theme: string, pad: Option<int>, selected: string, shown: seq<nat>)

  /** How far the line sits into its contiguous header run. */
  function HeaderRun(lines: seq<Line>, li: nat): nat
    requires li < |lines|
  {
    if lines[li].kind != Header then 0
    else if li == 0 then 1
    else 1 + HeaderRun(lines, li - 1)
  }

  /** The pager state that styling reads beside the lines. */
  datatype Look = Look(theme: string, width: int, x: int, linkSel: string, images: bool)

  function StyleLine(lines: seq<Line>, li: nat, look: Look): Text
    requires li < |lines|
  {
    var l := lines[li];
    Text(l.(block := None, inline := []), HeaderRun(lines, li), look.theme,
         if look.width > 0 then Some(look.width + look.x) else None,
         if look.linkSel != "" && look.linkSel in l.labels then look.linkSel else "",
         if look.images && Carries(l) then (if l.block.Some? then [l.block.value] else []) + l.inline else [])
  }

  /** The n header lines that end at line li are the run's first n. */
  predicate InHeaderRun(lines: seq<Line>, li: nat, n: nat) {
    && n <= li + 1 <= |lines| && (forall k :: li + 1 - n <= k <= li ==> lines[k].kind == Header)
    && (n <= li ==> lines[li - n].kind != Header)
  }

  lemma {:induction false} HeaderRunIs(lines: seq<Line>, li: nat)
    requires li < |lines|
    ensures InHeaderRun(lines, li, HeaderRun(lines, li))
  {
    if lines[li].kind == Header && li > 0 {
      HeaderRunIs(lines, li - 1);
    }
  }

  /** Two lines look alike exactly when they agree in everything the renderer reads: text, kind,
      quote depth, verdict and link labels; the place in the header run; the theme; the boundary a
      background is padded to; the selected link, if it is the line's; and, with images shown, the
      heights of the line's images. */
  lemma StyledAlike(a: seq<Line>, i: nat, look: Look, b: seq<Line>, j: nat, other: Look)
    requires i < |a| && j < |b|
    ensures var p, q := a[i], b[j];
            StyleLine(a, i, look) == StyleLine(b, j, other) <==>
              && p.text == q.text && p.kind == q.kind && p.quoted == q.quoted && p.ok == q.ok && p.labels == q.labels
              && HeaderRun(a, i) == HeaderRun(b, j) && look.theme == other.theme
              && (look.width > 0 || other.width > 0 ==> look.width > 0 && other.width > 0 && look.width + look.x == other.width + other.x)
              && ((look.linkSel != "" && look.linkSel in p.labels) || (other.linkSel != "" && other.linkSel in q.labels) ==> look.linkSel == other.linkSel)
              && (if look.images && p.block.Some? then [p.block.value] else []) + (if look.images then p.inline else [])
                 == (if other.images && q.block.Some? then [q.block.value] else []) + (if other.images then q.inline else [])
  {
  }

  /** Every cached style is the current style of its line. */
  ghost predicate CacheFits(lines: seq<Line>, look: Look, cache: seq<Option<Text>>) {
    |cache| <= |lines| && forall li :: 0 <= li < |cache| && cache[li].Some? ==> cache[li].value == StyleLine(lines, li, look)
  }

  /** The document rows lo..hi show the current styles of their lines; image rows carry no text. */
  ghost predicate Painted(lines: seq<Line>, look: Look, from: seq<nat>, img: seq<bool>, text: seq<Option<Text>>, lo: int, hi: int) {
    |from| == |img| == |text| &&
    forall i :: 0 <= i < |text| && lo <= i < hi ==>
      from[i] < |lines| && text[i] == if img[i] then None else Some(StyleLine(lines, from[i], look))
  }

  // ---- The expanded layout ----

  /** One document row: the source line, and whether it is an image row without text. */
  datatype Slot = Slot(line: nat, image: bool)

  function Tallest(heights: seq<nat>): nat {
    if heights == [] then 1
    else if heights[0] > Tallest(heights[1..]) then heights[0] else Tallest(heights[1..])
  }

  function RowSpan(l: Line, images: bool): (n: nat)
    ensures n >= 1
  {
    if !images then 1
    else if l.block.Some? && l.block.value > 0 then l.block.value
    else if Tallest(l.inline) > 1 then Tallest(l.inline)
    else 1
  }

  predicate IsImageRow(l: Line, images: bool, r: nat) {
    && images
    && ((l.block.Some? && l.block.value > 0) || Tallest(l.inline) > 1)
    && (l.block.Some? || r > 0)
  }

  lemma {:induction false} TallestIs(heights: seq<nat>)
    ensures forall k :: 0 <= k < |heights| ==> heights[k] <= Tallest(heights)
    ensures Tallest(heights) >= 1 && (Tallest(heights) == 1 || Tallest(heights) in heights)
  {
    if heights != [] {
      TallestIs(heights[1..]);
      assert forall k :: 1 <= k < |heights| ==> heights[k] == heights[1..][k - 1];
    }
  }

  /** Without images every line is one text row. With them, a decoded own-line image takes its height,
      all of it image rows; any other line takes the height of its tallest image, at least one row, and
      the rows behind the first are image rows. */
  lemma SpanIs(l: Line, r: nat)
    requires r < RowSpan(l, true)
    ensures RowSpan(l, false) == 1 && !IsImageRow(l, false, 0)
    ensures if l.block.Some? && l.block.value > 0 then RowSpan(l, true) == l.block.value && IsImageRow(l, true, r)
            else
              && (forall h <- l.inline :: h <= RowSpan(l, true)) && (RowSpan(l, true) == 1 || RowSpan(l, true) in l.inline)
              && (IsImageRow(l, true, r) <==> r > 0 || (l.block.Some? && RowSpan(l, true) > 1))
  {
    TallestIs(l.inline);
    forall h | h in l.inline ensures h <= Tallest(l.inline) {
      var k :| 0 <= k < |l.inline| && l.inline[k] == h;
    }
  }

  function LineSlots(l: Line, images: bool, li: nat): seq<Slot> {
    seq(RowSpan(l, images), r requires 0 <= r => Slot(li, IsImageRow(l, images, r)))
  }

  function Slots(lines: seq<Line>, images: bool): seq<Slot> {
    if lines == [] then []
    else Slots(Init(lines), images) + LineSlots(Last(lines), images, |lines| - 1)
  }

  function Lines(slots: seq<Slot>): (s: seq<nat>)
    ensures |s| == |slots|
  {
    seq(|slots|, i requires 0 <= i < |slots| => slots[i].line)
  }

  /** Where line li starts in the document. */
  function StartOf(lines: seq<Line>, images: bool, li: nat): nat
    requires li <= |lines|
  {
    |Slots(lines[..li], images)|
  }

  /** The layout partitions the document: line li owns exactly its RowSpan rows from StartOf, in order. */
  lemma {:induction false} SlotsPartition(lines: seq<Line>, images: bool, li: nat)
    requires li < |lines|
    ensures StartOf(lines, images, li + 1) == StartOf(lines, images, li) + RowSpan(lines[li], images) <= |Slots(lines, images)|
    ensures forall i :: 0 <= i < |Slots(lines, images)| ==>
              (Slots(lines, images)[i].line == li <==> StartOf(lines, images, li) <= i < StartOf(lines, images, li + 1))
    ensures forall i :: 0 <= i < |Slots(lines, images)| ==> Slots(lines, images)[i].line < |lines|
  {
    assert Init(lines[..li + 1]) == lines[..li];
    if li == |lines| - 1 {
      assert lines[..li + 1] == lines && lines[..li] == Init(lines);
      SlotLines(Init(lines), images);
    } else {
      SlotsPartition(Init(lines), images, li);
      assert Init(lines)[..li] == lines[..li] && Init(lines)[..li + 1] == lines[..li + 1];
    }
  }

  lemma {:induction false} SlotLines(lines: seq<Line>, images: bool)
    ensures forall i :: 0 <= i < |Slots(lines, images)| ==> Slots(lines, images)[i].line < |lines|
  {
    if lines != [] {
      SlotLines(Init(lines), images);
    }
  }

  /** from and img are the layout of the lines, and image rows hold no text. */
  ghost predicate LaidOut(lines: seq<Line>, images: bool, from: seq<nat>, img: seq<bool>, text: seq<Option<Text>>) {
    var slots := Slots(lines, images);
    && from == Lines(slots) && |img| == |slots| == |text|
    && (forall i :: 0 <= i < |slots| ==> img[i] == slots[i].image && (img[i] ==> text[i] == None))
  }

  lemma PaintedPart(lines: seq<Line>, look: Look, from: seq<nat>, img: seq<bool>, text: seq<Option<Text>>,
                    lo: int, hi: int, first: int, last: int)
    requires Painted(lines, look, from, img, text, first, last)
    requires first <= lo || first <= 0
    requires hi <= last || |text| <= last
    ensures Painted(lines, look, from, img, text, lo, hi)
  {
  }

  /** Every style that was cached is cached still. */
  predicate Keeps(was: seq<Option<Text>>, now: seq<Option<Text>>) {
    |was| == |now| && forall li :: 0 <= li < |was| && was[li].Some? ==> now[li] == was[li]
  }

  /** Styles the document rows first..last, filling the cache as it goes. */
  method StyleRange(lines: seq<Line>, look: Look, from: seq<nat>, img: seq<bool>,
                    cache: seq<Option<Text>>, text: seq<Option<Text>>, first: nat, last: int)
    returns (filled: seq<Option<Text>>, shown: seq<Option<Text>>)
    requires |cache| == |lines| && LaidOut(lines, look.images, from, img, text) && last <= |text|
    ensures |filled| == |lines| && LaidOut(lines, look.images, from, img, shown) && Keeps(cache, filled)
    ensures CacheFits(lines, look, cache) ==> CacheFits(lines, look, filled)
    ensures CacheFits(lines, look, cache) ==> Painted(lines, look, from, img, shown, first, last)
    ensures forall k :: first <= k < last && !img[k] ==> from[k] < |lines| && filled[from[k]].Some?
  {
    SlotLines(lines, look.images);
    filled, shown := cache, text;
    var i := first;
    while i < last
      invariant first <= i && Keeps(cache, filled) && |shown| == |text|
      invariant forall k :: 0 <= k < |shown| && img[k] ==> shown[k] == None
      invariant CacheFits(lines, look, cache) ==> CacheFits(lines, look, filled)
      invariant forall k :: first <= k < i && k < last && !img[k] ==> filled[from[k]].Some?
      invariant CacheFits(lines, look, cache) ==>
                  forall k :: first <= k < i && k < last && !img[k] ==> shown[k] == Some(StyleLine(lines, from[k], look))
    {
      if !img[i] {
        var li := from[i];
        if filled[li].None? {
          filled := filled[li := Some(StyleLine(lines, li, look))];
        }
        shown := shown[i := filled[li]];
      }
      i := i + 1;
    }
  }

  /** An image line spans its decoded rows when images are on; every other line maps to one row. */
  method BuildLayout(lines: seq<Line>, images: bool) returns (from: seq<nat>, img: seq<bool>)
    ensures from == Lines(Slots(lines, images)) && |img| == |from|
    ensures forall i :: 0 <= i < |img| ==> img[i] == Slots(lines, images)[i].image
  {
    from, img := [], [];
    ghost var slots := [];
    for i := 0 to |lines|
      invariant slots == Slots(lines[..i], images)
      invariant from == Lines(slots) && |img| == |slots|
      invariant forall k :: 0 <= k < |slots| ==> img[k] == slots[k].image
    {
      var l := lines[i];
      var rows, blank := 1, false;
      if images {
        if l.block.Some? && l.block.value > 0 {
          rows, blank := l.block.value, true;
        } else if Tallest(l.inline) > 1 {
          rows, blank := Tallest(l.inline), true;
        }
      }
      ghost var own := LineSlots(l, images, i);
      for r := 0 to rows
        invariant rows == |own|
        invariant |from| == |img| == |slots| + r
        invariant forall k :: 0 <= k < |from| ==>
                    from[k] == (slots + own)[k].line && img[k] == (slots + own)[k].image
      {
        from := from + [i];
        img := img + [blank && (l.block.Some? || r > 0)];
      }
      slots := slots + own;
      assert Init(lines[..i + 1]) == lines[..i];
    }
    assert lines[..|lines|] == lines;
  }

  function Widest(cw: Metric, lines: seq<Line>): nat {
    if lines == [] then 0
    else if Width(cw, Last(lines).text) > Widest(cw, Init(lines)) then Width(cw, Last(lines).text)
    else Widest(cw, Init(lines))
  }

  function Clamped(offset: int, height: int, len: int): int {
    var top := if offset < len - height then offset else len - height;
    if top > 0 then top else 0
  }

  /** No line is wider, and some line is as wide unless that is nothing. */
  lemma {:induction false} WidestIs(cw: Metric, lines: seq<Line>)
    ensures forall k :: 0 <= k < |lines| ==> Width(cw, lines[k].text) <= Widest(cw, lines)
    ensures Widest(cw, lines) == 0 || exists k :: 0 <= k < |lines| && Width(cw, lines[k].text) == Widest(cw, lines)
  {
    if lines != [] {
      WidestIs(cw, Init(lines));
      var n := Widest(cw, Init(lines));
      if n > 0 {
        var k :| 0 <= k < |Init(lines)| && Width(cw, Init(lines)[k].text) == n;
        assert lines[k] == Init(lines)[k];
      }
      forall k | 0 <= k < |lines| ensures Width(cw, lines[k].text) <= Widest(cw, lines) {
        assert k < |lines| - 1 ==> lines[k] == Init(lines)[k];
      }
      assert lines[|lines| - 1] == Last(lines);
    }
  }

  /** The offset nearest to the one asked for at which the window lies inside the document, or starts it. */
  lemma ClampedIsNearest(offset: int, height: nat, len: nat, other: int)
    requires 0 <= other && (other + height <= len || other == 0)
    ensures var r := Clamped(offset, height, len);
            && 0 <= r && (r + height <= len || r == 0)
            && (if offset < r then r <= other else if offset > r then other <= r else true)
  {
  }

  function Texts(lines: seq<Line>): (s: seq<string>)
    ensures |s| == |lines|
  {
    seq(|lines|, i requires 0 <= i < |lines| => lines[i].text)
  }

  /** One rendered row: styled text, its panned clip, or the blank padding below the content. */
  datatype Shown = Row(text: Option<Text>) | Panned(text: Option<Text>, x: int, width: int) | Padding

  class Pager {
    const cw: Metric
    var lines: seq<Line>
    var linkSel: string
    var styled: seq<Option<Text>>
    var doc: Option<seq<Option<Text>>>
    var imgFrom: seq<nat>
    var imgRow: seq<bool>
    var images: bool
    var width: int
    var styleKey: string
    var styleWidth: int
    var x: int
    var maxX: int
    var theme: string
    var offset: int
    var height: int
    var viewLen: int

    function Pad(): int
      reads `width, `x
    {
      width + x
    }

    function Current(): Look
      reads `theme, `width, `x, `linkSel, `images
    {
      Look(theme, width, x, linkSel, images)
    }

    /** The layout, when built, is the layout of the current lines; the window lies inside it. */
    ghost predicate Shape()
      reads this
    {
      && |styled| <= |lines| && height >= 0 && offset >= 0
      && (doc.Some? ==>
            && LaidOut(lines, images, imgFrom, imgRow, doc.value)
            && viewLen == |doc.value| && offset == Clamped(offset, height, viewLen))
    }

    ghost predicate Coherent()
      reads `lines, `theme, `width, `x, `linkSel, `images, `styled
    {
      CacheFits(lines, Current(), styled)
    }

    /** The cache is tagged with the boundary and the theme it would be styled at now. */
    predicate InSync()
      reads `width, `x, `styleWidth, `theme, `styleKey
    {
      Pad() == styleWidth && theme == styleKey
    }

    /** Every visible text row shows the current style of its line. */
    ghost predicate WindowStyled()
      reads this
    {
      doc.Some? && Painted(lines, Current(), imgFrom, imgRow, doc.value, offset, offset + height)
    }

    /** Every line with a visible text row has a cached style. */
    ghost predicate WindowCached()
      reads this
    {
      |imgFrom| == |imgRow| &&
      forall i :: 0 <= i < |imgRow| && offset <= i < offset + height && !imgRow[i] ==>
        imgFrom[i] < |styled| && styled[imgFrom[i]].Some?
    }

    constructor (cw: Metric, content: seq<Line>)
      ensures Shape() && Coherent() && InSync()
      ensures lines == content && x == 0 && width == 0 && this.cw == cw && !images && linkSel == ""
      ensures maxX == Widest(cw, content)
    {
      this.cw := cw;
      lines, linkSel, styled, doc, imgFrom, imgRow, images := content, "", [], None, [], [], false;
      width, styleKey, styleWidth, x, theme, offset, height, viewLen := 0, "", 0, 0, "", 0, 0, 0;
      new;
      MeasureContent();
    }

    /** The widest content line bounds the pan. */
    method MeasureContent()
      modifies this`maxX
      ensures maxX == Widest(cw, lines)
    {
      maxX := 0;
      for i := 0 to |lines|
        invariant maxX == Widest(cw, lines[..i])
      {
        assert Init(lines[..i + 1]) == lines[..i];
        if Width(cw, lines[i].text) > maxX {
          maxX := Width(cw, lines[i].text);
        }
      }
      assert lines[..|lines|] == lines;
    }

    /** Replaces the content: the layout and the cache drop with the lines. The pan resets, but the
        cache's tag does not follow: it stays in sync exactly when the tag already named the unpanned boundary. */
    method SetLines(content: seq<Line>)
      requires Shape()
      modifies this`lines, this`doc, this`styled, this`offset, this`x, this`maxX
      ensures Shape() && Coherent() && lines == content && x == 0 && offset == 0 && styled == [] && doc == None
      ensures InSync() <==> width == styleWidth && theme == styleKey
      ensures maxX == Widest(cw, content)
    {
      lines, doc, styled, offset, x := content, None, [], 0, 0;
      MeasureContent();
    }

    method SetSize(w: int, h: int, look: string)
      requires Shape()
      modifies this`width, this`theme, this`height, this`offset, this`styleWidth, this`styleKey
      modifies this`styled, this`doc, this`imgFrom, this`imgRow, this`viewLen
      ensures Shape() && InSync() && width == w && theme == look && height == (if h > 0 then h else 0)
      ensures old(Coherent() && InSync()) || w + old(x) != old(styleWidth) || look != old(styleKey) ==> Coherent() && WindowStyled()
      ensures w + old(x) == old(styleWidth) && look == old(styleKey) && old(doc.Some? && |styled| == |lines|) ==> Keeps(old(styled), styled)
    {
      Resize(w, h, look);
      RetagStyles();
      EnsureStyled();
    }

    method Resize(w: int, h: int, look: string)
      requires Shape()
      modifies this`width, this`theme, this`height, this`offset
      ensures Shape() && width == w && theme == look && height == (if h > 0 then h else 0)
      ensures old(Coherent() && InSync()) && InSync() ==> Coherent()
      ensures InSync() <==> w + x == styleWidth && look == styleKey
    {
      width, theme, height := w, look, if h > 0 then h else 0;
      offset := Clamped(offset, height, viewLen);
      assert old(InSync()) && InSync() ==> Current() == old(Current());
    }

    /** Drops the cache when the boundary or the theme moved away from its tag. */
    method RetagStyles()
      requires Shape()
      modifies this`styleWidth, this`styleKey, this`styled, this`doc
      ensures Shape() && InSync()
      ensures old(InSync()) ==> styled == old(styled) && doc == old(doc)
      ensures !old(InSync()) ==> Coherent()
      ensures !old(InSync()) ==> |styled| == old(|styled|) && forall i :: 0 <= i < |styled| ==> styled[i] == None
    {
      if Pad() != styleWidth || theme != styleKey {
        styleWidth, styleKey := Pad(), theme;
        ClearStyles();
        ClearDoc();
      }
    }

    method ClearStyles()
      modifies this`styled
      ensures |styled| == old(|styled|) && forall i :: 0 <= i < |styled| ==> styled[i] == None
    {
      styled := seq(|styled|, i => None);
    }

    method ClearDoc()
      modifies this`doc
      ensures doc.Some? <==> old(doc).Some?
      ensures doc.Some? ==> |doc.value| == |old(doc).value| && forall i :: 0 <= i < |doc.value| ==> doc.value[i] == None
    {
      if doc.Some? {
        doc := Some(seq(|doc.value|, i => None));
      }
    }

    /** Rebuilds the expanded document. Image lines restyle on every layout: their text depends on
        the decode state. */
    method Relayout()
      requires |styled| <= |lines| && height >= 0
      modifies this`styled, this`doc, this`imgFrom, this`imgRow, this`viewLen, this`offset
      ensures Shape() && doc.Some?
      ensures |styled| == old(|styled|)
      ensures forall i :: 0 <= i < |styled| ==> styled[i] == if Carries(lines[i]) then None else old(styled)[i]
      ensures offset == Clamped(old(offset), height, |Slots(lines, images)|)
    {
      var cache, content := styled, lines;
      styled := seq(|cache|, i requires 0 <= i < |cache| && |cache| <= |content| => if Carries(content[i]) then None else cache[i]);
      imgFrom, imgRow := BuildLayout(lines, images);
      doc := Some(seq(|imgFrom|, i => None));
      viewLen := |imgFrom|;
      offset := Clamped(offset, height, viewLen);
    }

    /** The part of ensureStyled that rebuilds a dropped layout and resizes the cache. */
    method EnsureLaidOut()
      requires Shape()
      modifies this`styled, this`doc, this`imgFrom, this`imgRow, this`viewLen, this`offset
      ensures Shape() && doc.Some? && |styled| == |lines|
      ensures old(Coherent()) ==> Coherent()
      ensures old(doc.Some? && |styled| == |lines|) ==> styled == old(styled) && doc == old(doc)
    {
      if doc.None? {
        Relayout();
      }
      if |styled| != |lines| {
        styled := seq(|lines|, i => None);
      }
    }

    /** Styles the visible window and a margin around it. */
    method EnsureStyled()
      requires Shape()
      modifies this`styled, this`doc, this`imgFrom, this`imgRow, this`viewLen, this`offset
      ensures Shape() && doc.Some?
      ensures old(Coherent()) ==> Coherent() && WindowStyled()
      ensures old(doc.Some? && |styled| == |lines|) ==> Keeps(old(styled), styled)
    {
      EnsureLaidOut();
      PaintWindow();
    }

    method PaintWindow()
      requires Shape() && doc.Some? && |styled| == |lines|
      modifies this`styled, this`doc, this`offset
      ensures Shape() && doc.Some?
      ensures old(Coherent()) ==> Coherent() && WindowStyled()
      ensures WindowCached() && Keeps(old(styled), styled)
    {
      var first := if offset - STYLE_MARGIN > 0 then offset - STYLE_MARGIN else 0;
      var last := if offset + height + STYLE_MARGIN < |doc.value| then offset + height + STYLE_MARGIN else |doc.value|;
      var cache, text := StyleRange(lines, Current(), imgFrom, imgRow, styled, doc.value, first, last);
      if CacheFits(lines, Current(), styled) {
        PaintedPart(lines, Current(), imgFrom, imgRow, text, offset, offset + height, first, last);
      }
      styled, doc := cache, Some(text);
      offset := Clamped(offset, height, viewLen);
    }

    /** Adds a plain line: one row, the offset survives. */
    method Append(l: Line)
      requires Shape() && !Carries(l)
      modifies this`lines, this`styled, this`doc, this`imgFrom, this`imgRow, this`viewLen, this`offset
      ensures Shape() && lines == old(lines) + [l]
      ensures old(Coherent()) ==> Coherent() && WindowStyled()
    {
      CacheGrows(lines, l, Current(), styled);
      AddRow(l);
      EnsureStyled();
    }

    /** The part of append that extends the lines and the layout, if there is one. */
    method AddRow(l: Line)
      requires Shape() && !Carries(l)
      modifies this`lines, this`doc, this`imgFrom, this`imgRow, this`viewLen
      ensures Shape() && lines == old(lines) + [l]
    {
      lines := lines + [l];
      if doc.Some? {
        LayoutGrows(old(lines), l, images, imgFrom, imgRow, doc.value);
        doc := Some(doc.value + [None]);
        imgFrom := imgFrom + [|lines| - 1];
        imgRow := imgRow + [false];
        viewLen := |doc.value|;
      }
    }

    /** Changes the text of the last line, whose style must already be dropped. */
    method RetextLast(text: string)
      requires Shape() && lines != []
      requires |lines| <= |styled| ==> styled[|lines| - 1].None?
      modifies this`lines
      ensures Shape() && lines == old(lines)[|old(lines)| - 1 := Last(old(lines)).(text := text)]
      ensures old(Coherent()) ==> Coherent()
    {
      var n := |lines|;
      ghost var was := lines;
      Retexted(lines, text, images);
      lines := lines[n - 1 := lines[n - 1].(text := text)];
      CacheRetexted(was, text, Current(), styled);
    }

    /** Wraps the open last line in place: the first row keeps its slot, the rest append. */
    method WrapLast(close: bool)
      requires Shape() && lines != []
      requires |lines| <= |styled| ==> styled[|lines| - 1].None?
      modifies this`lines, this`styled, this`doc, this`imgFrom, this`imgRow, this`viewLen, this`offset
      ensures Shape()
      ensures var rows := Wrapped(cw, Last(old(lines)).text, width);
              lines == Rewrapped(old(lines), if close then Stream.Close(rows) else rows)
      ensures old(Coherent()) ==> Coherent() && WindowStyled()
    {
      var rows := WrapText(cw, lines[|lines| - 1].text, width);
      if close {
        rows := rows[|rows| - 1 := Last(rows) + "\n"];
      }
      RetextLast(rows[0]);
      AppendRows(rows[1..]);
      EnsureStyled();
    }

    /** Forgets the style of the last line: its text is about to change. */
    method DropLastStyle()
      requires Shape() && lines != []
      modifies this`styled
      ensures Shape() && (|lines| <= |styled| ==> styled[|lines| - 1].None?)
      ensures old(Coherent()) ==> Coherent()
    {
      if |lines| <= |styled| {
        styled := styled[|lines| - 1 := None];
      }
    }

    /** Merges a streamed delta: completed lines wrap and close, a trailing partial extends the open line. */
    method AppendText(delta: string)
      requires Shape()
      modifies this`lines, this`styled, this`doc, this`imgFrom, this`imgRow, this`viewLen, this`offset
      ensures Shape() && lines == FedLines(Stream.WrapAt(cw, width), old(lines), delta)
      ensures old(Coherent()) ==> Coherent()
    {
      var text := delta;
      ghost var wrap := Stream.WrapAt(cw, width);
      while |text| > 0
        invariant Shape() && (old(Coherent()) ==> Coherent())
        invariant FedLines(wrap, lines, text) == FedLines(wrap, old(lines), delta)
        decreases |text|
      {
        var i := Stream.NewlineAt(text);
        var close := i < |text|;
        FeedSegment(text[..i], close);
        text := if close then text[i + 1..] else "";
      }
    }

    /** One segment: extends the open line or starts one, then wraps it. */
    method FeedSegment(seg: string, close: bool)
      requires Shape()
      modifies this`lines, this`styled, this`doc, this`imgFrom, this`imgRow, this`viewLen, this`offset
      ensures Shape() && lines == Segment(Stream.WrapAt(cw, width), old(lines), seg, close)
      ensures old(Coherent()) ==> Coherent()
    {
      if |lines| > 0 && !Stream.EndsClosed(lines[|lines| - 1].text) {
        ExtendLine(seg, close);
      } else if close {
        AppendLine(seg);
      } else {
        StartLine(seg);
      }
    }

    method ExtendLine(seg: string, close: bool)
      requires Shape() && Stream.Open(Texts(lines))
      modifies this`lines, this`styled, this`doc, this`imgFrom, this`imgRow, this`viewLen, this`offset
      ensures Shape() && lines == Segment(Stream.WrapAt(cw, width), old(lines), seg, close)
      ensures old(Coherent()) ==> Coherent()
    {
      var grown := lines[|lines| - 1].text + seg;
      SegmentOpen(cw, width, lines, seg, close);
      ReplaceLast(grown);
      WrapLast(close);
    }

    method ReplaceLast(text: string)
      requires Shape() && lines != []
      modifies this`lines, this`styled
      ensures Shape() && lines == old(lines)[|old(lines)| - 1 := Last(old(lines)).(text := text)]
      ensures |lines| <= |styled| ==> styled[|lines| - 1].None?
      ensures old(Coherent()) ==> Coherent()
    {
      DropLastStyle();
      RetextLast(text);
    }

    method AppendLine(seg: string)
      requires Shape() && !Stream.Open(Texts(lines))
      modifies this`lines, this`styled, this`doc, this`imgFrom, this`imgRow, this`viewLen, this`offset
      ensures Shape() && lines == Segment(Stream.WrapAt(cw, width), old(lines), seg, true)
      ensures old(Coherent()) ==> Coherent()
    {
      var rows := WrapText(cw, seg, width);
      assert "" + seg == seg;
      AppendRows(rows[|rows| - 1 := Last(rows) + "\n"]);
    }

    method StartLine(seg: string)
      requires Shape() && !Stream.Open(Texts(lines))
      modifies this`lines, this`styled, this`doc, this`imgFrom, this`imgRow, this`viewLen, this`offset
      ensures Shape() && lines == Segment(Stream.WrapAt(cw, width), old(lines), seg, false)
      ensures old(Coherent()) ==> Coherent()
    {
      ghost var was := lines;
      AppendUnstyled(seg);
      SegmentStart(cw, width, was, seg);
      WrapLast(false);
    }

    method AppendUnstyled(seg: string)
      requires Shape()
      modifies this`lines, this`styled, this`doc, this`imgFrom, this`imgRow, this`viewLen, this`offset
      ensures Shape() && lines == old(lines) + [BodyLine(seg)]
      ensures |lines| <= |styled| ==> styled[|lines| - 1].None?
      ensures old(Coherent()) ==> Coherent()
    {
      Append(BodyLine(seg));
      DropLastStyle();
    }

    method AppendRows(rows: seq<string>)
      requires Shape()
      modifies this`lines, this`styled, this`doc, this`imgFrom, this`imgRow, this`viewLen, this`offset
      ensures Shape() && lines == old(lines) + BodyLines(rows)
      ensures old(Coherent()) ==> Coherent()
    {
      var k := 0;
      while k < |rows|
        invariant 0 <= k <= |rows| && Shape()
        invariant lines == old(lines) + BodyLines(rows[..k])
        invariant old(Coherent()) ==> Coherent()
      {
        Append(BodyLine(rows[k]));
        assert BodyLines(rows[..k]) + [BodyLine(rows[k])] == BodyLines(rows[..k + 1]);
        k := k + 1;
      }
      assert rows[..k] == rows;
    }

    /** The selected link marker renders reversed: every cached style may change. */
    method SetLinkSel(sel: string)
      requires Shape()
      modifies this`linkSel, this`styled, this`doc, this`imgFrom, this`imgRow, this`viewLen, this`offset
      ensures Shape() && linkSel == sel
      ensures old(Coherent()) || sel != old(linkSel) ==> Coherent()
    {
      if linkSel == sel {
        return;
      }
      linkSel := sel;
      ClearStyles();
      if doc.Some? {
        EnsureStyled();
      }
    }

    method SetImages(on: bool)
      requires Shape()
      modifies this`images, this`styled, this`doc, this`imgFrom, this`imgRow, this`viewLen, this`offset
      ensures Shape() && images == on
      ensures old(Coherent()) ==> Coherent()
    {
      if images == on {
        return;
      }
      images := on;
      Relayout();
      assert old(Coherent()) ==> Coherent() by {
        if old(Coherent()) {
          forall li | 0 <= li < |styled| && styled[li].Some? ensures styled[li].value == StyleLine(lines, li, Current()) {
            assert !Carries(lines[li]) && styled[li] == old(styled)[li];
          }
        }
      }
    }

    /** Image decodes change heights only; the caller lays out again. */
    method Decode(decoded: seq<Line>)
      requires Shape() && SameBesidesImages(lines, decoded)
      modifies this`lines, this`styled, this`doc, this`imgFrom, this`imgRow, this`viewLen, this`offset
      ensures Shape() && lines == decoded
      ensures old(Coherent()) ==> Coherent()
    {
      ghost var was := lines;
      lines := decoded;
      Relayout();
      assert old(Coherent()) ==> Coherent() by {
        if old(Coherent()) {
          forall li | 0 <= li < |styled| && styled[li].Some? ensures styled[li].value == StyleLine(lines, li, Current()) {
            assert !Carries(lines[li]) && styled[li] == old(styled)[li];
            HeaderRunKinds(was, lines, li);
          }
        }
      }
    }

    /** Moves the style boundary; the cache drops when it left its tag. */
    method PanTo(to: int)
      requires Shape()
      modifies this`x, this`styleWidth, this`styleKey, this`styled, this`doc
      ensures Shape() && x == to && Pad() == styleWidth
      ensures old(Coherent() && InSync()) ==> Coherent() && InSync()
      ensures width + to == old(styleWidth) ==> styled == old(styled)
      ensures width + to != old(styleWidth) ==> Coherent()
    {
      x := to;
      if Pad() != styleWidth {
        styleWidth, styleKey := Pad(), theme;
        ClearStyles();
        ClearDoc();
      } else {
        assert old(InSync()) ==> Current() == old(Current());
      }
    }

    method ScrollLeft()
      requires Shape()
      modifies this`x, this`styleWidth, this`styleKey, this`styled, this`doc
      ensures Shape() && Pad() == styleWidth
      ensures old(Coherent() && InSync()) ==> Coherent() && InSync()
      ensures Pad() == old(styleWidth) ==> styled == old(styled)
      ensures Pad() != old(styleWidth) ==> Coherent()
      ensures x == if old(x) > SCROLL_STEP then old(x) - SCROLL_STEP else 0
    {
      PanTo(if x - SCROLL_STEP > 0 then x - SCROLL_STEP else 0);
    }

    method ScrollRight()
      requires Shape()
      modifies this`x, this`styleWidth, this`styleKey, this`styled, this`doc
      ensures Shape() && Pad() == styleWidth
      ensures old(Coherent() && InSync()) ==> Coherent() && InSync()
      ensures Pad() == old(styleWidth) ==> styled == old(styled)
      ensures Pad() != old(styleWidth) ==> Coherent()
      ensures var most := if maxX - width > 0 then maxX - width else 0;
              x == if old(x) + SCROLL_STEP < most then old(x) + SCROLL_STEP else most
    {
      var most := if maxX - width > 0 then maxX - width else 0;
      PanTo(if x + SCROLL_STEP < most then x + SCROLL_STEP else most);
    }

    /** Every vertical move: by lines, by pages, to the ends. */
    method ScrollTo(to: int)
      requires Shape()
      modifies this`offset
      ensures Shape() && offset == Clamped(to, height, viewLen)
    {
      offset := Clamped(to, height, viewLen);
    }

    method ScrollTop()
      requires Shape()
      modifies this`offset
      ensures Shape() && offset == 0
    {
      offset := 0;
    }

    method ScrollBottom()
      requires Shape()
      modifies this`offset
      ensures Shape() && offset == Clamped(viewLen - height, height, viewLen)
    {
      ScrollTo(viewLen - height);
    }

    /** The rendered window: exactly height rows, every text row in the current style of its line. */
    method Render() returns (rows: seq<Shown>)
      requires Shape()
      modifies this`styled, this`doc, this`imgFrom, this`imgRow, this`viewLen, this`offset
      ensures Shape() && |rows| == height
      ensures old(Coherent()) ==> Coherent() && Exact(rows)
    {
      EnsureStyled();
      rows := ShowRows(lines, Current(), imgFrom, imgRow, doc.value, offset, height);
    }

    /** The rows are what styling every line of the window from scratch shows. */
    ghost predicate Exact(rows: seq<Shown>)
      reads this
    {
      height >= 0 && offset >= 0 && |rows| == height && forall k :: 0 <= k < height ==> rows[k] == VisibleRow(lines, Current(), offset, k)
    }

    function PanState(): Pan
      reads `x, `width, `maxX
    {
      Pan(x, width, maxX)
    }

    /** Any one operation keeps the cache right and in step, as long as it does not replace the
        content of a panned pager. */
    method Step(op: Op) returns (rows: seq<Shown>)
      requires Shape()
      modifies this
      ensures Shape() && PanState() == Panning(cw, old(PanState()), op)
      ensures old(Coherent() && InSync()) && Tidy(old(PanState()), op) ==>
                Coherent() && InSync() && (op == Paint ==> Exact(rows))
    {
      rows := [];
      if op == Paint {
        rows := Render();
      } else if op.Replace? || op.Add? || op.Feed? || op.Decoded? {
        ChangeContent(op);
      } else {
        ChangeView(op);
      }
    }

    method ChangeContent(op: Op)
      requires Shape() && (op.Replace? || op.Add? || op.Feed? || op.Decoded?)
      modifies this
      ensures Shape() && PanState() == Panning(cw, old(PanState()), op)
      ensures old(Coherent() && InSync()) && Tidy(old(PanState()), op) ==> Coherent() && InSync()
    {
      match op {
        case Replace(content) => SetLines(content);
        case Add(l) => if !Carries(l) { Append(l); }
        case Feed(delta) => AppendText(delta);
        case Decoded(ls) => if SameBesidesImages(lines, ls) { Decode(ls); }
      }
    }

    method ChangeView(op: Op)
      requires Shape() && (op.Size? || op.Select? || op.Toggle? || op.Left? || op.Right? || op.Scroll?)
      modifies this
      ensures Shape() && PanState() == Panning(cw, old(PanState()), op)
      ensures old(Coherent() && InSync()) ==> Coherent() && InSync()
    {
      match op {
        case Size(w, h, look) => SetSize(w, h, look);
        case Select(sel) => SetLinkSel(sel);
        case Toggle(on) => SetImages(on);
        case Left => ScrollLeft();
        case Right => ScrollRight();
        case Scroll(to) => ScrollTo(to);
      }
    }

    /** Any run of operations. */
    method Run(ops: seq<Op>)
      requires Shape()
      modifies this
      ensures Shape() && PanState() == PannedBy(cw, old(PanState()), ops)
      ensures old(Coherent() && InSync()) && TidyRun(cw, old(PanState()), ops) ==> Coherent() && InSync()
    {
      var i := 0;
      while i < |ops|
        invariant 0 <= i <= |ops| && Shape()
        invariant PannedBy(cw, PanState(), ops[i..]) == PannedBy(cw, old(PanState()), ops)
        invariant TidyRun(cw, old(PanState()), ops) ==> TidyRun(cw, PanState(), ops[i..])
        invariant old(Coherent() && InSync()) && TidyRun(cw, old(PanState()), ops) ==> Coherent() && InSync()
      {
        assert ops[i..][0] == ops[i] && ops[i..][1..] == ops[i + 1..];
        var _ := Step(ops[i]);
        i := i + 1;
      }
    }
  }

  /** Everything that can happen to a pager. An added line carrying an image, or a decode that
      changes more than image heights, is no operation. */
  datatype Op =
    | Replace(content: seq<Line>)
    | Size(w: int, h: int, look: string)
    | Add(line: Line)
    | Feed(delta: string)
    | Select(sel: string)
    | Toggle(on: bool)
    | Decoded(decoded: seq<Line>)
    | Left
    | Right
    | Scroll(to: int)
    | Paint

  /** The horizontal pan and what bounds it. */
  datatype Pan = Pan(x: int, width: int, maxX: int)

  function Panning(cw: Metric, pan: Pan, op: Op): Pan {
    match op
    case Replace(content) => Pan(0, pan.width, Widest(cw, content))
    case Size(w, _, _) => pan.(width := w)
    case Left => pan.(x := if pan.x > SCROLL_STEP then pan.x - SCROLL_STEP else 0)
    case Right =>
      var most := if pan.maxX - pan.width > 0 then pan.maxX - pan.width else 0;
      pan.(x := if pan.x + SCROLL_STEP < most then pan.x + SCROLL_STEP else most)
    case _ => pan
  }

  function PannedBy(cw: Metric, pan: Pan, ops: seq<Op>): Pan
    decreases |ops|
  {
    if ops == [] then pan else PannedBy(cw, Panning(cw, pan, ops[0]), ops[1..])
  }

  /** Content is replaced only while the pager is not panned. */
  predicate Tidy(pan: Pan, op: Op) {
    op.Replace? ==> pan.x == 0
  }

  predicate TidyRun(cw: Metric, pan: Pan, ops: seq<Op>)
    decreases |ops|
  {
    ops == [] || (Tidy(pan, ops[0]) && TidyRun(cw, Panning(cw, pan, ops[0]), ops[1..]))
  }

  /** After any run that replaces content only unpanned, the next paint shows every row as if
      styled from scratch. */
  method EveryPaintIsExact(cw: Metric, content: seq<Line>, ops: seq<Op>) returns (p: Pager, rows: seq<Shown>)
    requires TidyRun(cw, Pan(0, 0, Widest(cw, content)), ops)
    ensures p.Shape() && p.Coherent() && p.InSync() && p.Exact(rows)
  {
    p := new Pager(cw, content);
    p.Run(ops);
    rows := p.Render();
  }

  /** Out of step, a paint and a resize to the tagged boundary leave a visible line styled for
      the wrong one, whatever the pager holds. */
  method OutOfStepGoesStale(p: Pager)
    requires p.Shape() && p.Coherent() && !p.InSync() && p.theme == p.styleKey
    requires p.lines != [] && !p.images && p.height > 0 && (p.width > 0 || p.styleWidth > p.x)
    modifies p
    ensures p.Shape() && p.InSync() && p.lines == old(p.lines) && !p.Coherent()
  {
    p.EnsureLaidOut();
    p.PaintWindow();
    PlainSlots(p.lines);
    ghost var li := p.imgFrom[p.offset];
    assert p.styled[li] == Some(StyleLine(p.lines, li, p.Current()));
    ghost var pad := StyleLine(p.lines, li, p.Current()).pad;
    p.SetSize(p.styleWidth - p.x, p.height, p.styleKey);
    assert p.styled[li].value.pad == pad;
    assert StyleLine(p.lines, li, p.Current()).pad != pad;
  }

  /** The window's rows, panned and padded to the height. */
  method ShowRows(lines: seq<Line>, look: Look, from: seq<nat>, img: seq<bool>, text: seq<Option<Text>>,
                  offset: nat, height: nat)
    returns (rows: seq<Shown>)
    requires LaidOut(lines, look.images, from, img, text) && offset <= |text|
    ensures |rows| == height
    ensures Painted(lines, look, from, img, text, offset, offset + height) ==>
              forall k :: 0 <= k < height ==> rows[k] == VisibleRow(lines, look, offset, k)
  {
    ghost var right := Painted(lines, look, from, img, text, offset, offset + height);
    var last := if offset + height < |text| then offset + height else |text|;
    var win := if look.width == 0 then [] else text[offset..last];
    rows := [];
    var k := 0;
    while k < |win|
      invariant 0 <= k <= |win| && |rows| == k
      invariant right ==> forall j :: 0 <= j < k ==> rows[j] == VisibleRow(lines, look, offset, j)
    {
      if right {
        VisibleText(lines, look, from, img, text, offset, height, k);
      }
      rows := rows + [if look.x > 0 && look.width > 0 then Panned(win[k], look.x, look.width) else Row(win[k])];
      k := k + 1;
    }
    while |rows| < height
      invariant |win| <= |rows| <= height
      invariant right ==> forall j :: 0 <= j < |rows| ==> rows[j] == VisibleRow(lines, look, offset, j)
    {
      assert VisibleRow(lines, look, offset, |rows|) == Padding;
      rows := rows + [Padding];
    }
  }

  lemma VisibleText(lines: seq<Line>, look: Look, from: seq<nat>, img: seq<bool>, text: seq<Option<Text>>,
                    offset: nat, height: nat, k: nat)
    requires LaidOut(lines, look.images, from, img, text) && k < height && offset + k < |text| && look.width != 0
    requires Painted(lines, look, from, img, text, offset, offset + height)
    ensures VisibleRow(lines, look, offset, k) ==
              if look.x > 0 && look.width > 0 then Panned(text[offset + k], look.x, look.width) else Row(text[offset + k])
  {
    SlotLines(lines, look.images);
    var i := offset + k;
    assert Lines(Slots(lines, look.images))[i] == Slots(lines, look.images)[i].line;
  }

  /** What row k of the window shows, styled from scratch. */
  ghost function VisibleRow(lines: seq<Line>, look: Look, offset: nat, k: nat): Shown {
    var slots := Slots(lines, look.images);
    if look.width == 0 || offset + k >= |slots| then Padding
    else
      SlotLines(lines, look.images);
      var slot := slots[offset + k];
      var text := if slot.image then None else Some(StyleLine(lines, slot.line, look));
      if look.x > 0 && look.width > 0 then Panned(text, look.x, look.width) else Row(text)
  }

  predicate SameBesidesImages(a: seq<Line>, b: seq<Line>) {
    |a| == |b| && forall i :: 0 <= i < |a| ==>
      && a[i].(block := None, inline := []) == b[i].(block := None, inline := [])
      && Carries(a[i]) == Carries(b[i])
  }

  /** Replacing the lines of a panned pager untags the cache: styles appended then survive a pan
      back to the stale boundary. A resize or paint in between clears them. */
  method PannedReplacementGoesStale(cw: Metric) returns (p: Pager)
    requires cw('a') == 1
    ensures p.Shape() && !p.Coherent()
  {
    var long := BodyLine(seq(20, i => 'a'));
    LongWidth(cw, 20);
    assert Init([long]) == [] && Widest(cw, [long]) == 20;
    p := new Pager(cw, [long]);
    p.SetSize(4, 1, "theme");
    ReplaceAndPan(p, long);
  }

  method ReplaceAndPan(p: Pager, long: Line)
    requires p.Shape() && p.width == 4 && p.InSync() && p.x == 0 && p.height == 1
    requires !Carries(long) && Width(p.cw, long.text) == 20 && p.lines == [long] && p.maxX == 20
    modifies p
    ensures p.Shape() && !p.Coherent()
  {
    p.ScrollRight();
    p.SetLines([long]);
    assert Init([long]) == [] && p.maxX == 20;
    StyleReplaced(p, long);
    p.ScrollRight();
    assert p.styled[0].value.pad == Some(4) && p.Current().x == 8;
  }

  method StyleReplaced(p: Pager, long: Line)
    requires p.Shape() && p.Coherent() && p.lines == [long] && !Carries(long)
    requires p.width == 4 && p.x == 0 && p.height == 1
    modifies p`styled, p`doc, p`imgFrom, p`imgRow, p`viewLen, p`offset
    ensures p.Shape() && |p.styled| == 1 && p.styled[0] == Some(StyleLine([long], 0, p.Current()))
  {
    p.EnsureLaidOut();
    p.PaintWindow();
    LoneSlot(long, p.images);
    assert p.imgFrom[0] == 0 && !p.imgRow[0];
  }

  lemma LoneSlot(l: Line, images: bool)
    requires !Carries(l)
    ensures Slots([l], images) == [Slot(0, false)]
  {
    PlainSlot([], l, images);
    assert [] + [l] == [l] && Slots([], images) == [];
  }

  lemma {:induction false} LongWidth(cw: Metric, n: nat)
    requires cw('a') == 1
    ensures Width(cw, seq(n, i => 'a')) == n
  {
    if n > 0 {
      LongWidth(cw, n - 1);
      assert Init(seq(n, i => 'a')) == seq(n - 1, i => 'a');
    }
  }

  function BodyLines(rows: seq<string>): (ls: seq<Line>)
    ensures |ls| == |rows|
  {
    seq(|rows|, i requires 0 <= i < |rows| => BodyLine(rows[i]))
  }

  /** The lines after the open last line was rewrapped into rows. */
  function Rewrapped(lines: seq<Line>, rows: seq<string>): seq<Line>
    requires lines != [] && rows != []
  {
    lines[|lines| - 1 := Last(lines).(text := rows[0])] + BodyLines(rows[1..])
  }

  /** One segment of a delta, on the lines: the open line keeps its kind, new rows are body lines. */
  function Segment(wrap: string -> seq<string>, lines: seq<Line>, seg: string, close: bool): seq<Line> {
    var rows := wrap(Stream.OpenText(Texts(lines)) + seg);
    var closed := if close then Stream.Close(rows) else rows;
    if closed == [] then lines
    else if Stream.Open(Texts(lines)) then Rewrapped(lines, closed)
    else lines + BodyLines(closed)
  }

  function FedLines(wrap: string -> seq<string>, lines: seq<Line>, text: string): seq<Line>
    decreases |text|
  {
    var i := Stream.NewlineAt(text);
    if text == "" then lines
    else if i == |text| then Segment(wrap, lines, text[..i], false)
    else FedLines(wrap, Segment(wrap, lines, text[..i], true), text[i + 1..])
  }

  lemma SegmentTexts(wrap: string -> seq<string>, lines: seq<Line>, seg: string, close: bool)
    requires wrap(Stream.OpenText(Texts(lines)) + seg) != []
    ensures var rows := wrap(Stream.OpenText(Texts(lines)) + seg);
            Texts(Segment(wrap, lines, seg, close)) ==
              Stream.ClosedLines(Texts(lines)) + (if close then Stream.Close(rows) else rows)
  {
    if Stream.Open(Texts(lines)) {
      var rows := wrap(Stream.OpenText(Texts(lines)) + seg);
      RewrappedTexts(lines, if close then Stream.Close(rows) else rows);
    }
  }

  /** Streaming into the pager is streaming into its text lines. */
  lemma {:induction false} FedLinesTexts(wrap: string -> seq<string>, lines: seq<Line>, text: string)
    requires forall s :: wrap(s) != []
    ensures Texts(FedLines(wrap, lines, text)) == Stream.Fed(wrap, Texts(lines), text)
    decreases |text|
  {
    var i := Stream.NewlineAt(text);
    if text != "" {
      SegmentTexts(wrap, lines, text[..i], i < |text|);
      if i < |text| {
        FedLinesTexts(wrap, Segment(wrap, lines, text[..i], true), text[i + 1..]);
      } else {
        assert text[..i] == text;
      }
    }
  }

  /** Two pagers that got the same text in different deltas hold the same lines of text. */
  lemma DeltasDoNotShow(cw: Metric, width: int, lines: seq<Line>, a: string, b: string)
    requires Clean(cw, Stream.OpenText(Texts(lines))) && Stream.Visible(cw, a + b)
    ensures var wrap := Stream.WrapAt(cw, width);
            Texts(FedLines(wrap, FedLines(wrap, lines, a), b)) == Texts(FedLines(wrap, lines, a + b))
  {
    var wrap := Stream.WrapAt(cw, width);
    FedLinesTexts(wrap, lines, a);
    FedLinesTexts(wrap, FedLines(wrap, lines, a), b);
    FedLinesTexts(wrap, lines, a + b);
    Stream.FedAppend(cw, width, Texts(lines), a, b);
  }

  lemma SegmentOpen(cw: Metric, width: int, lines: seq<Line>, seg: string, close: bool)
    requires Stream.Open(Texts(lines))
    ensures var grown := Last(lines).text + seg;
            var rows := Wrapped(cw, grown, width);
            Rewrapped(lines[|lines| - 1 := Last(lines).(text := grown)], if close then Stream.Close(rows) else rows)
              == Segment(Stream.WrapAt(cw, width), lines, seg, close)
  {
    var grown := Last(lines).text + seg;
    var rows := Wrapped(cw, grown, width);
    RewrappedAgain(lines, grown, if close then Stream.Close(rows) else rows);
  }

  lemma SegmentStart(cw: Metric, width: int, lines: seq<Line>, seg: string)
    requires !Stream.Open(Texts(lines))
    ensures Rewrapped(lines + [BodyLine(seg)], Wrapped(cw, seg, width)) == Segment(Stream.WrapAt(cw, width), lines, seg, false)
  {
    assert "" + seg == seg;
    RewrappedStart(lines, seg, Wrapped(cw, seg, width));
  }

  lemma RewrappedAgain(lines: seq<Line>, text: string, rows: seq<string>)
    requires lines != [] && rows != []
    ensures Rewrapped(lines[|lines| - 1 := Last(lines).(text := text)], rows) == Rewrapped(lines, rows)
  {
  }

  lemma RewrappedStart(lines: seq<Line>, seg: string, rows: seq<string>)
    requires rows != []
    ensures Rewrapped(lines + [BodyLine(seg)], rows) == lines + BodyLines(rows)
  {
    assert BodyLines(rows) == [BodyLine(rows[0])] + BodyLines(rows[1..]);
  }

  lemma RewrappedTexts(lines: seq<Line>, rows: seq<string>)
    requires lines != [] && rows != []
    ensures Texts(Rewrapped(lines, rows)) == Init(Texts(lines)) + rows
  {
  }

  /** With images off every line is one text row. */
  lemma {:induction false} PlainSlots(lines: seq<Line>)
    ensures |Slots(lines, false)| == |lines|
    ensures forall i :: 0 <= i < |lines| ==> Slots(lines, false)[i] == Slot(i, false)
  {
    if lines != [] {
      PlainSlots(Init(lines));
    }
  }

  lemma PlainSlot(lines: seq<Line>, l: Line, images: bool)
    requires !Carries(l)
    ensures Slots(lines + [l], images) == Slots(lines, images) + [Slot(|lines|, false)]
  {
    assert Init(lines + [l]) == lines;
    assert LineSlots(l, images, |lines|) == [Slot(|lines|, false)];
  }

  lemma {:induction false} HeaderRunKinds(a: seq<Line>, b: seq<Line>, li: nat)
    requires li < |a| && li < |b| && forall k :: 0 <= k <= li ==> a[k].kind == b[k].kind
    ensures HeaderRun(a, li) == HeaderRun(b, li)
  {
    if a[li].kind == Header && li > 0 {
      HeaderRunKinds(a, b, li - 1);
    }
  }

  lemma HeaderRunPrefix(a: seq<Line>, b: seq<Line>, li: nat)
    requires li < |a| && a <= b
    ensures HeaderRun(a, li) == HeaderRun(b, li)
  {
    HeaderRunKinds(a, b, li);
  }

  lemma Retexted(lines: seq<Line>, text: string, images: bool)
    requires lines != []
    ensures Slots(lines[|lines| - 1 := Last(lines).(text := text)], images) == Slots(lines, images)
  {
    var next := lines[|lines| - 1 := Last(lines).(text := text)];
    assert Init(next) == Init(lines);
    assert LineSlots(Last(next), images, |lines| - 1) == LineSlots(Last(lines), images, |lines| - 1);
  }

  /** A cached style depends on its own line and the header run above it. */
  /** A plain line adds one text row to the layout. */
  lemma LayoutGrows(lines: seq<Line>, l: Line, images: bool, from: seq<nat>, img: seq<bool>, text: seq<Option<Text>>)
    requires LaidOut(lines, images, from, img, text) && !Carries(l)
    ensures LaidOut(lines + [l], images, from + [|lines|], img + [false], text + [None])
  {
    PlainSlot(lines, l, images);
    var slots := Slots(lines, images);
    assert Lines(slots + [Slot(|lines|, false)]) == Lines(slots) + [|lines|];
  }

  lemma CacheGrows(lines: seq<Line>, l: Line, look: Look, styled: seq<Option<Text>>)
    requires |styled| <= |lines|
    ensures CacheFits(lines, look, styled) ==> CacheFits(lines + [l], look, styled)
  {
    forall li | 0 <= li < |styled| ensures StyleLine(lines + [l], li, look) == StyleLine(lines, li, look) {
      HeaderRunPrefix(lines, lines + [l], li);
    }
  }

  lemma CacheRetexted(lines: seq<Line>, text: string, look: Look, styled: seq<Option<Text>>)
    requires lines != [] && |styled| <= |lines| && (|styled| == |lines| ==> styled[|lines| - 1].None?)
    ensures CacheFits(lines, look, styled) ==>
              CacheFits(lines[|lines| - 1 := Last(lines).(text := text)], look, styled)
  {
    var now := lines[|lines| - 1 := Last(lines).(text := text)];
    forall li | 0 <= li < |styled| && styled[li].Some? ensures StyleLine(now, li, look) == StyleLine(lines, li, look) {
      HeaderRunKinds(lines, now, li);
    }
  }
}
