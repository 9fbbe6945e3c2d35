/** Text layout of src/text.rs: `LayoutedText::new` resolves a string to glyph
    indices through the renderer's font service, looks up the metrics of the
    indices it got, and folds the metrics into one bounding size.

    The font service is foreign code; it is modelled by the results it
    returns, as two total functions (`GlyphService`), so that the metrics
    lookup is visibly given the already-filtered indices. */
module Text {
  import opened Geometry

  datatype Option<T> = None | Some(value: T)

  /** A glyph index as the renderer returns it (u32). */
  newtype GlyphIndex = x: int | 0 <= x < 0x1_0000_0000

  /** Font and font-instance handles: a namespace and a number each. */
  datatype FontKey = FontKey(namespace: nat, id: nat)
  datatype FontInstanceKey = FontInstanceKey(namespace: nat, id: nat)

  /** Metrics of one glyph: integer box extents and a horizontal advance. */
  datatype GlyphDimensions = GlyphDimensions(left: int, top: int, width: int, height: int, advance: real)

  /** The two font-service queries: one optional index per character of the
      text, and one optional set of metrics per index asked about. */
  datatype GlyphService = GlyphService(
    glyphIndices: (FontKey, string) -> seq<Option<GlyphIndex>>,
    glyphDimensions: (FontInstanceKey, seq<GlyphIndex>) -> seq<Option<GlyphDimensions>>)

  /** One laid-out string. */
  datatype LayoutedText = LayoutedText(
    text: string,
    indices: seq<GlyphIndex>,
    dimensions: seq<GlyphDimensions>,
    fontKey: FontKey,
    instKey: FontInstanceKey,
    size: LayoutSize)

  /** The present values of `xs`, in order; the `None`s are dropped
      (`filter_map(|&x| x)`). */
  function Somes<X>(xs: seq<Option<X>>): (r: seq<X>)
    ensures |r| <= |xs|
    ensures |r| == |xs| <==> forall i :: 0 <= i < |xs| ==> xs[i].Some?
    ensures forall i :: 0 <= i < |r| ==> Some(r[i]) in xs
    ensures forall i :: 0 <= i < |xs| && xs[i].Some? ==> xs[i].value in r
    decreases |xs|
  {
    if xs == [] then []
    else
      match xs[0]
      case Some(x) => [x] + Somes(xs[1..])
      case None => Somes(xs[1..])
  }

  /** Filtering commutes with concatenation: together with the one-element
      cases this says the result keeps the input order. */
  lemma {:induction false} SomesAppend<X>(a: seq<Option<X>>, b: seq<Option<X>>)
    ensures Somes(a + b) == Somes(a) + Somes(b)
    decreases |a|
  {
    if a == [] {
      assert a + b == b;
    } else {
      assert (a + b)[0] == a[0] && (a + b)[1..] == a[1..] + b;
      SomesAppend(a[1..], b);
    }
  }

  /** When every lookup succeeded nothing is dropped and the values line up. */
  lemma {:induction false} SomesAllPresent<X>(xs: seq<Option<X>>)
    requires forall i :: 0 <= i < |xs| ==> xs[i].Some?
    ensures |Somes(xs)| == |xs|
    ensures forall i :: 0 <= i < |xs| ==> Somes(xs)[i] == xs[i].value
    decreases |xs|
  {
    if xs != [] {
      SomesAllPresent(xs[1..]);
    }
  }

  /** The vertical extent of one glyph: its height plus the part of it below
      the baseline (`height + (height - top)`). */
  function Extent(g: GlyphDimensions): (e: int)
    ensures e - g.height == g.height - g.top
  {
    g.height + (g.height - g.top)
  }

  /** One step of the size fold: add the advance, keep the larger height. */
  function SizeStep(acc: LayoutSize, g: GlyphDimensions): (r: LayoutSize)
    ensures r.width == acc.width + g.advance
    ensures r.height >= acc.height && r.height >= Extent(g) as real
    ensures r.height == acc.height || r.height == Extent(g) as real
  {
    LayoutSize(acc.width + g.advance, MaxReal(acc.height, Extent(g) as real))
  }

  /** The fold over the metrics, left to right. */
  function FoldSize(acc: LayoutSize, ds: seq<GlyphDimensions>): (r: LayoutSize)
    ensures ds == [] ==> r == acc
    ensures r.height >= acc.height
    decreases |ds|
  {
    if ds == [] then acc else FoldSize(SizeStep(acc, ds[0]), ds[1..])
  }

  /** Reference definition: the sum of all advances. */
  function TotalAdvance(ds: seq<GlyphDimensions>): real
    decreases |ds|
  {
    if ds == [] then 0.0 else ds[0].advance + TotalAdvance(ds[1..])
  }

  /** The fold's width is the starting width plus every advance. */
  lemma {:induction false} FoldSizeWidth(acc: LayoutSize, ds: seq<GlyphDimensions>)
    ensures FoldSize(acc, ds).width == acc.width + TotalAdvance(ds)
    decreases |ds|
  {
    if ds != [] {
      FoldSizeWidth(SizeStep(acc, ds[0]), ds[1..]);
    }
  }

  /** The fold's height is the maximum of the starting height and every
      glyph's extent: it bounds all of them and is one of them. */
  lemma {:induction false} FoldSizeHeight(acc: LayoutSize, ds: seq<GlyphDimensions>)
    ensures FoldSize(acc, ds).height >= acc.height
    ensures forall i :: 0 <= i < |ds| ==> FoldSize(acc, ds).height >= Extent(ds[i]) as real
    ensures FoldSize(acc, ds).height == acc.height
         || exists i :: 0 <= i < |ds| && FoldSize(acc, ds).height == Extent(ds[i]) as real
    decreases |ds|
  {
    if ds != [] {
      var next := SizeStep(acc, ds[0]);
      FoldSizeHeight(next, ds[1..]);
      var h := FoldSize(acc, ds).height;
      assert h == FoldSize(next, ds[1..]).height;
      forall i | 0 <= i < |ds|
        ensures h >= Extent(ds[i]) as real
      {
        if i > 0 {
          assert ds[i] == ds[1..][i - 1];
        }
      }
      if h != next.height {
        var j :| 0 <= j < |ds[1..]| && h == Extent(ds[1..][j]) as real;
        assert h == Extent(ds[j + 1]) as real;
      } else if h != acc.height {
        assert h == Extent(ds[0]) as real;
      }
    }
  }

  /** The bounding size of a run of glyph metrics, folded from (0, 0). */
  function BoundingSize(ds: seq<GlyphDimensions>): (r: LayoutSize)
    ensures r.width == TotalAdvance(ds)
    ensures r.height >= 0.0
    ensures forall i :: 0 <= i < |ds| ==> r.height >= Extent(ds[i]) as real
    ensures r.height == 0.0 || exists i :: 0 <= i < |ds| && r.height == Extent(ds[i]) as real
    ensures ds == [] ==> r == LayoutSize(0.0, 0.0)
  {
    var zero := LayoutSize(0.0, 0.0);
    FoldSizeWidth(zero, ds);
    FoldSizeHeight(zero, ds);
    FoldSize(zero, ds)
  }

  /** `LayoutedText::new`: keep the present glyph indices, ask the service for
      the metrics of exactly those, keep the present metrics, and size the run. */
  function Layout(text: string, fontKey: FontKey, instKey: FontInstanceKey, api: GlyphService): (r: LayoutedText)
    ensures r.text == text && r.fontKey == fontKey && r.instKey == instKey
    ensures r.indices == Somes(api.glyphIndices(fontKey, text))
    ensures r.dimensions == Somes(api.glyphDimensions(instKey, r.indices))
    ensures |r.indices| <= |api.glyphIndices(fontKey, text)|
    ensures |r.dimensions| <= |api.glyphDimensions(instKey, r.indices)|
    ensures r.size.width == TotalAdvance(r.dimensions)
    ensures r.size.height >= 0.0
    ensures forall i :: 0 <= i < |r.dimensions| ==> r.size.height >= Extent(r.dimensions[i]) as real
    ensures r.size.height == 0.0
         || exists i :: 0 <= i < |r.dimensions| && r.size.height == Extent(r.dimensions[i]) as real
    ensures r.dimensions == [] ==> r.size == LayoutSize(0.0, 0.0)
  {
    var indices := Somes(api.glyphIndices(fontKey, text));
    var dimensions := Somes(api.glyphDimensions(instKey, indices));
    LayoutedText(text, indices, dimensions, fontKey, instKey, BoundingSize(dimensions))
  }

  /** When the service answers once per index asked about, there are never
      more metrics than indices. */
  lemma LayoutDimensionsBound(text: string, fontKey: FontKey, instKey: FontInstanceKey, api: GlyphService)
    requires
      var indices := Somes(api.glyphIndices(fontKey, text));
      |api.glyphDimensions(instKey, indices)| == |indices|
    ensures |Layout(text, fontKey, instKey, api).dimensions| <= |Layout(text, fontKey, instKey, api).indices|
  {
  }

  /** An index whose metrics are missing stays among the indices, so the two
      sequences can differ in length. */
  lemma UnmeasuredIndexIsKept()
    ensures
      var api := GlyphService((k, t) => [Some(7 as GlyphIndex)], (k, ids) => [None]);
      var r := Layout("a", FontKey(0, 1), FontInstanceKey(0, 2), api);
      r.indices == [7] && r.dimensions == [] && r.size == LayoutSize(0.0, 0.0)
  {
  }
}
