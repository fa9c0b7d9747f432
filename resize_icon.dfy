/** `resize_icon.py`: fits the non-transparent content of the application
    icon into the 832x832 art area of a 1024x1024 canvas and centres it.

    The original computes `aspect = width / height` in floating point and
    then `int(832 / aspect)` or `int(832 * aspect)`; the model uses the exact
    rational values `floor(832 * h / w)` and `floor(832 * w / h)`, which the
    floating-point result can undercut by one when the exact quotient is an
    integer. */
module IconResize {
  import opened Wrappers

  const CanvasSize: nat := 1024
  const TargetSize: nat := 832

  /** PIL's `getbbox`: left, upper, right and lower edges of the content. */
  datatype Box = Box(left: nat, top: nat, right: nat, bottom: nat)

  /** An RGBA image, described by its size and the bounding box of its
      non-transparent pixels (`None` when it is fully transparent). */
  datatype Image = Image(width: nat, height: nat, bbox: Option<Box>)

  /** Scaled content size and the paste offset on the canvas. */
  datatype Placement = Placement(width: nat, height: nat, x: int, y: int)

  /** `ZeroSize` is the error PIL raises when asked to resize to a zero
      width or height; it leaves the file as it was. */
  datatype Outcome = MissingFile | EmptyImage | ZeroSize | Resized(placement: Placement)

  predicate ValidBox(b: Box) {
    b.left < b.right && b.top < b.bottom
  }

  /** The aspect ratio is at most 832:1 either way, so neither side of the
      scaled content truncates to zero. */
  predicate Fits(w: nat, h: nat) {
    0 < w && 0 < h && w <= TargetSize * h && h <= TargetSize * w
  }

  /** `floor(832 * short / long)`: the shorter side scaled so that the longer
      one becomes 832, characterised by the two bounds of a floor. */
  function ScaleShort(short: nat, long: nat): (q: nat)
    requires 0 < short <= long && long <= TargetSize * short
    ensures q * long <= TargetSize * short < (q + 1) * long
    ensures 1 <= q <= TargetSize
  {
    ScaleShortBounds(short, long);
    TargetSize * short / long
  }

  lemma ScaleShortBounds(short: nat, long: nat)
    requires 0 < short <= long && long <= TargetSize * short
    ensures var q := TargetSize * short / long;
      q * long <= TargetSize * short < (q + 1) * long && 1 <= q <= TargetSize
  {
    var q := TargetSize * short / long;
    FloorBounds(TargetSize * short, long, q);
    if q > TargetSize {
      MulMono(TargetSize + 1, q, long);
      MulMono(short, long, TargetSize);
    }
  }

  lemma FloorBounds(a: nat, b: nat, q: nat)
    requires b > 0 && q == a / b
    ensures q * b <= a < (q + 1) * b
  {
    assert a == q * b + a % b;
  }

  lemma MulMono(m: nat, n: nat, k: nat)
    requires m <= n
    ensures m * k <= n * k
  {
  }

  /** Size and offset of the content of a `w` x `h` bounding box. */
  function Place(w: nat, h: nat): (p: Placement)
    requires Fits(w, h)
    ensures w > h ==> p.width == TargetSize && p.height * w <= TargetSize * h < (p.height + 1) * w
    ensures w <= h ==> p.height == TargetSize && p.width * h <= TargetSize * w < (p.width + 1) * h
    ensures 1 <= p.width <= TargetSize && 1 <= p.height <= TargetSize
  {
    if w > h then
      var nh := ScaleShort(h, w);
      Placement(TargetSize, nh, (CanvasSize - TargetSize) / 2, (CanvasSize - nh) / 2)
    else
      var nw := ScaleShort(w, h);
      Placement(nw, TargetSize, (CanvasSize - nw) / 2, (CanvasSize - TargetSize) / 2)
  }

  /** Outside `Fits` the shorter side of the scaled content would be zero. */
  lemma ZeroSide(w: nat, h: nat)
    requires 0 < w && 0 < h
    ensures w > h ==> (TargetSize * h / w == 0 <==> !Fits(w, h))
    ensures w <= h ==> (TargetSize * w / h == 0 <==> !Fits(w, h))
  {
    if w > h {
      FloorZero(TargetSize * h, w);
      assert h <= TargetSize * w by {
        MulMono(1, TargetSize, w);
      }
    } else {
      FloorZero(TargetSize * w, h);
      assert w <= TargetSize * h by {
        MulMono(1, TargetSize, h);
      }
    }
  }

  /** A floor quotient is zero exactly when the dividend is below the divisor. */
  lemma FloorZero(a: nat, b: nat)
    requires b > 0
    ensures a / b == 0 <==> a < b
  {
    var q := a / b;
    FloorBounds(a, b, q);
    if q >= 1 {
      MulMono(1, q, b);
    }
  }

  /** Content wider than tall keeps width 832 and gets a height below 832. */
  lemma WideBelowTarget(w: nat, h: nat)
    requires Fits(w, h) && w > h
    ensures Place(w, h).height < TargetSize
  {
    var p := Place(w, h);
    if p.height >= TargetSize {
      MulMono(TargetSize, p.height, w);
      MulMono(h, w, TargetSize);
    }
  }

  /** The offset of a side of `size` pixels is at least 96, the content stays
      on the canvas, and the far margin equals the near one or exceeds it by
      one pixel. */
  lemma Centred(w: nat, h: nat)
    requires Fits(w, h)
    ensures var p := Place(w, h);
      && 96 <= p.x && p.x + p.width <= CanvasSize
      && 96 <= p.y && p.y + p.height <= CanvasSize
      && CanvasSize - (p.x + p.width) - p.x in {0, 1}
      && CanvasSize - (p.y + p.height) - p.y in {0, 1}
  {
  }

  /** Scaling preserves the aspect ratio up to the truncated pixel: the
      cross products of the scaled sides with the original ones differ by
      less than the original longer side. */
  lemma {:induction false} AspectKept(w: nat, h: nat)
    requires Fits(w, h)
    ensures var p := Place(w, h);
      w > h ==> p.height * w <= p.width * h < p.height * w + w
    ensures var p := Place(w, h);
      w <= h ==> p.width * h <= p.height * w < p.width * h + h
  {
    var p := Place(w, h);
    if w > h {
      assert p.width * h == TargetSize * h;
      assert (p.height + 1) * w == p.height * w + w;
    } else {
      assert p.height * w == TargetSize * w;
      assert (p.width + 1) * h == p.width * h + h;
    }
  }

  lemma SquareFillsArtArea(n: nat)
    requires 0 < n
    ensures Place(n, n) == Placement(TargetSize, TargetSize, 96, 96)
  {
  }

  /** The shorter side is truncated, not rounded. */
  lemma TruncationExamples()
    ensures Place(800, 400) == Placement(832, 416, 96, 304)
    ensures Place(3, 1) == Placement(832, 277, 96, 373)
    ensures Place(3, 2).height == 554
    ensures Place(2, 3).width == 554
  {
  }

  /** The icon file: whether it is present and what it holds. */
  class IconFile {
    var present: bool
    var image: Image

    constructor (present: bool, image: Image)
      ensures this.present == present && this.image == image
    {
      this.present := present;
      this.image := image;
    }

    /** `resize_icon()`: the two guards leave the file as it was; otherwise
        the file is overwritten with a 1024x1024 canvas whose content is the
        cropped art scaled by `Place` and pasted at its offset. Content more
        than 832 times wider than tall (or the reverse) scales to a zero
        side, and the resize fails. */
    method ResizeIcon() returns (outcome: Outcome)
      requires present && image.bbox.Some? ==> ValidBox(image.bbox.value)
      modifies this
      ensures !old(present) ==> outcome == MissingFile && image == old(image) && !present
      ensures old(present) && old(image).bbox.None? ==> outcome == EmptyImage && image == old(image) && present
      ensures old(present) && old(image).bbox.Some? ==>
        var b := old(image).bbox.value;
        !Fits(b.right - b.left, b.bottom - b.top) ==> outcome == ZeroSize && image == old(image) && present
      ensures old(present) && old(image).bbox.Some? ==>
        var b := old(image).bbox.value;
        Fits(b.right - b.left, b.bottom - b.top) ==>
        var p := Place(b.right - b.left, b.bottom - b.top);
        && outcome == Resized(p)
        && present
        && image == Image(CanvasSize, CanvasSize, Some(Box(p.x, p.y, p.x + p.width, p.y + p.height)))
    {
      if !present {
        return MissingFile;
      }
      var bbox := image.bbox;
      if bbox.None? {
        return EmptyImage;
      }
      var b := bbox.value;
      var width, height := b.right - b.left, b.bottom - b.top;
      if !Fits(width, height) {
        return ZeroSize;
      }
      var p := Place(width, height);
      Centred(width, height);
      image := Image(CanvasSize, CanvasSize, Some(Box(p.x, p.y, p.x + p.width, p.y + p.height)));
      outcome := Resized(p);
    }
  }
}
