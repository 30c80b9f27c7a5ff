/** Rendering a page: crop, rotate, tone. */
module Render {
  import opened Arith
  import opened Text
  import opened Pgm
  import opened Pages

  // ------------------------------------------------------------------ images

  lemma IndexBounds(x: nat, y: nat, w: nat, h: nat)
    requires x < w && y < h
    ensures 0 <= y * w <= y * w + x < w * h
  {
    RowBounds(y, h, w);
    assert w * h == h * w;
  }

  lemma IndexInjective(x: nat, y: nat, x': nat, y': nat, w: nat)
    requires x < w && x' < w && y * w + x == y' * w + x'
    ensures x == x' && y == y'
  {
    if y < y' {
      MulMonotone(y + 1, y', w);
      MulStep(y, w);
    } else if y' < y {
      MulMonotone(y' + 1, y, w);
      MulStep(y', w);
    }
  }

  lemma IndexSurjective(i: nat, w: nat, h: nat) returns (x: nat, y: nat)
    requires i < w * h
    ensures x < w && y < h && y * w + x == i
  {
    MulNonNegative(w, h);
    x, y := i % w, i / w;
    assert i == y * w + x;
    assert w * h == h * w;
    if y >= h {
      MulMonotone(h, y, w);
    }
  }

  function At(image: Image, x: nat, y: nat): Pixel
    requires image.Valid() && x < image.width && y < image.height
  {
    IndexBounds(x, y, image.width, image.height);
    image.pixels[y * image.width + x]
  }

  predicate SamePixels(a: Image, b: Image)
    requires a.Valid() && b.Valid() && a.width == b.width && a.height == b.height
  {
    forall x: nat, y: nat :: x < a.width && y < a.height ==> At(a, x, y) == At(b, x, y)
  }

  lemma SameImage(a: Image, b: Image)
    requires a.Valid() && b.Valid() && a.width == b.width && a.height == b.height
    requires SamePixels(a, b)
    ensures a == b
  {
    forall i | 0 <= i < |a.pixels| ensures a.pixels[i] == b.pixels[i] {
      var x, y := IndexSurjective(i, a.width, a.height);
      assert At(a, x, y) == At(b, x, y);
    }
  }

  /** The row-major image whose pixel (x, y) is f(x, y). */
  function Rows(w: nat, h: nat, f: (nat, nat) --> Pixel): (pixels: seq<Pixel>)
    requires forall x: nat, y: nat :: x < w && y < h ==> f.requires(x, y)
    ensures |pixels| == h * w
  {
    if h == 0 then []
    else
      MulStep(h - 1, w);
      Rows(w, h - 1, f) + seq(w, x requires 0 <= x < w => f(x, h - 1))
  }

  function Draw(w: nat, h: nat, f: (nat, nat) --> Pixel): (image: Image)
    requires forall x: nat, y: nat :: x < w && y < h ==> f.requires(x, y)
    ensures image.Valid() && image.width == w && image.height == h
  {
    Image(w, h, Rows(w, h, f))
  }

  lemma {:induction false} RowsAt(w: nat, h: nat, f: (nat, nat) --> Pixel, x: nat, y: nat)
    requires forall x: nat, y: nat :: x < w && y < h ==> f.requires(x, y)
    requires x < w && y < h
    ensures y * w + x < h * w && Rows(w, h, f)[y * w + x] == f(x, y)
  {
    RowBounds(y, h, w);
    MulStep(h - 1, w);
    if y < h - 1 {
      RowsAt(w, h - 1, f, x, y);
    }
  }

  lemma DrawAt(w: nat, h: nat, f: (nat, nat) --> Pixel, x: nat, y: nat)
    requires forall x: nat, y: nat :: x < w && y < h ==> f.requires(x, y)
    requires x < w && y < h
    ensures At(Draw(w, h, f), x, y) == f(x, y)
  {
    RowsAt(w, h, f, x, y);
  }

  // -------------------------------------------------------------------- crop

  predicate FitsIn(crop: CropRect, image: Image) {
    crop.x + crop.width <= image.width && crop.y + crop.height <= image.height
  }

  function CropPixel(image: Image, crop: CropRect): (f: (nat, nat) --> Pixel)
    requires image.Valid() && FitsIn(crop, image)
    ensures forall x: nat, y: nat :: x < crop.width && y < crop.height ==>
              f.requires(x, y) && f(x, y) == At(image, crop.x + x, crop.y + y)
  {
    (x: nat, y: nat) requires x < crop.width && y < crop.height => At(image, crop.x + x, crop.y + y)
  }

  function Cropped(image: Image, crop: CropRect): (r: Image)
    requires image.Valid() && FitsIn(crop, image)
    ensures r.Valid() && r.width == crop.width && r.height == crop.height
  {
    Draw(crop.width, crop.height, CropPixel(image, crop))
  }

  lemma CroppedAt(image: Image, crop: CropRect, x: nat, y: nat)
    requires image.Valid() && FitsIn(crop, image) && x < crop.width && y < crop.height
    ensures At(Cropped(image, crop), x, y) == At(image, crop.x + x, crop.y + y)
  {
    hide At, Draw;
    DrawAt(crop.width, crop.height, CropPixel(image, crop), x, y);
  }

  // ---------------------------------------------------------------- rotation

  predicate QuarterTurns(degrees: int) {
    degrees == 0 || degrees == 90 || degrees == 180 || degrees == 270
  }

  predicate Swaps(degrees: int) {
    degrees == 90 || degrees == 270
  }

  /** Size after a turn of a w x h image. */
  function Turned(w: nat, h: nat, degrees: int): (nat, nat) {
    if Swaps(degrees) then (h, w) else (w, h)
  }

  /** Where pixel (x, y) of the turned image comes from in the w x h image. */
  function Origin(w: nat, h: nat, degrees: int, x: nat, y: nat): (p: (nat, nat))
    requires QuarterTurns(degrees) && x < Turned(w, h, degrees).0 && y < Turned(w, h, degrees).1
    ensures p.0 < w && p.1 < h
  {
    if degrees == 90 then (y, h - 1 - x)
    else if degrees == 180 then (w - 1 - x, h - 1 - y)
    else if degrees == 270 then (w - 1 - y, x)
    else (x, y)
  }

  /** The image turned clockwise. */
  function Rotated(image: Image, degrees: int): (r: Image)
    requires image.Valid() && QuarterTurns(degrees)
    ensures r.Valid() && (r.width, r.height) == Turned(image.width, image.height, degrees)
  {
    var (w, h) := Turned(image.width, image.height, degrees);
    if degrees == 0 then image else Draw(w, h, OriginPixel(image, degrees))
  }

  function OriginPixel(image: Image, degrees: int): (f: (nat, nat) --> Pixel)
    requires image.Valid() && QuarterTurns(degrees)
    ensures var (w, h) := Turned(image.width, image.height, degrees);
            forall x: nat, y: nat :: x < w && y < h ==>
              f.requires(x, y)
              && f(x, y) == var p := Origin(image.width, image.height, degrees, x, y); At(image, p.0, p.1)
  {
    var (w, h) := Turned(image.width, image.height, degrees);
    (x: nat, y: nat) requires x < w && y < h =>
      var p := Origin(image.width, image.height, degrees, x, y); At(image, p.0, p.1)
  }

  lemma RotatedAt(image: Image, degrees: int, x: nat, y: nat)
    requires image.Valid() && QuarterTurns(degrees)
    requires x < Rotated(image, degrees).width && y < Rotated(image, degrees).height
    ensures var p := Origin(image.width, image.height, degrees, x, y);
            At(Rotated(image, degrees), x, y) == At(image, p.0, p.1)
  {
    var (w, h) := Turned(image.width, image.height, degrees);
    DrawAt(w, h, OriginPixel(image, degrees), x, y);
  }

  lemma OriginsCompose(w: nat, h: nat, a: int, b: int, x: nat, y: nat)
    requires QuarterTurns(a) && QuarterTurns(b)
    requires x < Turned(w, h, (a + b) % 360).0 && y < Turned(w, h, (a + b) % 360).1
    ensures QuarterTurns((a + b) % 360)
    ensures var (w1, h1) := Turned(w, h, a);
            x < Turned(w1, h1, b).0 && y < Turned(w1, h1, b).1
            && var p := Origin(w1, h1, b, x, y);
               Origin(w, h, a, p.0, p.1) == Origin(w, h, (a + b) % 360, x, y)
  {
  }

  /** Turning by a and then by b is turning by the sum that ScanSession::rotate stores. */
  lemma RotationsCompose(image: Image, a: int, b: int)
    requires image.Valid() && QuarterTurns(a) && QuarterTurns(b)
    ensures QuarterTurns((a + b) % 360)
    ensures Rotated(Rotated(image, a), b) == Rotated(image, (a + b) % 360)
  {
    hide Rotated, Origin, At;
    var sum := (a + b) % 360;
    var first := Rotated(image, a);
    var twice := Rotated(first, b);
    var once := Rotated(image, sum);
    forall x: nat, y: nat | x < once.width && y < once.height ensures At(twice, x, y) == At(once, x, y) {
      OriginsCompose(image.width, image.height, a, b, x, y);
      var p := Origin(first.width, first.height, b, x, y);
      RotatedAt(image, sum, x, y);
      RotatedAt(first, b, x, y);
      RotatedAt(image, a, p.0, p.1);
    }
    SameImage(twice, once);
  }

  lemma RotatedByZero(image: Image)
    requires image.Valid()
    ensures Rotated(image, 0) == image
  {
  }

  lemma FourQuarterTurns(image: Image)
    requires image.Valid()
    ensures Rotated(Rotated(Rotated(Rotated(image, 90), 90), 90), 90) == image
  {
    hide Rotated, At;
    RotationsCompose(image, 90, 90);
    RotationsCompose(image, 180, 90);
    RotationsCompose(image, 270, 90);
    RotatedByZero(image);
  }

  // -------------------------------------------------------------------- tone

  function RoundedHalfAway(numerator: int, denominator: nat): int
    requires denominator > 0 && denominator % 2 == 0
  {
    if numerator >= 0 then (numerator + denominator / 2) / denominator
    else -((-numerator + denominator / 2) / denominator)
  }

  function Clamped(v: int): Pixel {
    if v < 0 then 0 else if v > 255 then 255 else v
  }

  /** (p - 127.5) * (100 + contrast) / 100 + 127.5 + 2.55 * brightness, as one fraction over 200,
      rounded half away from zero and clamped. */
  function ToneValue(p: Pixel, brightness: int, contrast: int): Pixel {
    Clamped(RoundedHalfAway((2 * p - 255) * (100 + contrast) + 25500 + 510 * brightness, 200))
  }

  lemma NeutralTone(p: Pixel)
    ensures ToneValue(p, 0, 0) == p
  {
  }

  lemma RoundingIsMonotone(m: int, n: int)
    requires m <= n
    ensures RoundedHalfAway(m, 200) <= RoundedHalfAway(n, 200)
  {
  }

  /** Brighter input or more brightness never gives a darker output. */
  lemma ToneIsMonotone(p: Pixel, q: Pixel, brightness: int, brighter: int, contrast: int)
    requires p <= q && brightness <= brighter && contrast >= -100
    ensures ToneValue(p, brightness, contrast) <= ToneValue(q, brighter, contrast)
  {
    var m := (2 * p - 255) * (100 + contrast) + 25500 + 510 * brightness;
    var n := (2 * q - 255) * (100 + contrast) + 25500 + 510 * brighter;
    assert n - m == 2 * (q - p) * (100 + contrast) + 510 * (brighter - brightness);
    MulNonNegative(2 * (q - p), 100 + contrast);
    RoundingIsMonotone(m, n);
  }

  /** At contrast -100 every pixel becomes the same gray. */
  lemma FlatTone(p: Pixel, q: Pixel, brightness: int)
    ensures ToneValue(p, brightness, -100) == ToneValue(q, brightness, -100)
  {
  }

  function Toned(image: Image, brightness: int, contrast: int): (r: Image)
    requires image.Valid()
    ensures r.Valid() && r.width == image.width && r.height == image.height
    ensures forall i :: 0 <= i < |r.pixels| ==> r.pixels[i] == ToneValue(image.pixels[i], brightness, contrast)
  {
    image.(pixels := seq(|image.pixels|, i requires 0 <= i < |image.pixels| => ToneValue(image.pixels[i], brightness, contrast)))
  }

  lemma TonedAt(image: Image, brightness: int, contrast: int, x: nat, y: nat)
    requires image.Valid() && x < image.width && y < image.height
    ensures At(Toned(image, brightness, contrast), x, y) == ToneValue(At(image, x, y), brightness, contrast)
  {
    IndexBounds(x, y, image.width, image.height);
  }

  lemma NeutralToneKeepsImage(image: Image)
    requires image.Valid()
    ensures Toned(image, 0, 0) == image
  {
    forall i | 0 <= i < |image.pixels| ensures ToneValue(image.pixels[i], 0, 0) == image.pixels[i] {
      NeutralTone(image.pixels[i]);
    }
    assert Toned(image, 0, 0).pixels == image.pixels;
  }

  lemma ToneCommutesWithRotation(image: Image, degrees: int, brightness: int, contrast: int)
    requires image.Valid() && QuarterTurns(degrees)
    ensures Toned(Rotated(image, degrees), brightness, contrast) == Rotated(Toned(image, brightness, contrast), degrees)
  {
    hide Rotated, Origin, At, ToneValue, Toned;
    var a := Toned(Rotated(image, degrees), brightness, contrast);
    var b := Rotated(Toned(image, brightness, contrast), degrees);
    forall x: nat, y: nat | x < a.width && y < a.height ensures At(a, x, y) == At(b, x, y) {
      var p := Origin(image.width, image.height, degrees, x, y);
      RotatedAt(image, degrees, x, y);
      RotatedAt(Toned(image, brightness, contrast), degrees, x, y);
      TonedAt(Rotated(image, degrees), brightness, contrast, x, y);
      TonedAt(image, brightness, contrast, p.0, p.1);
    }
    SameImage(a, b);
  }

  lemma ToneCommutesWithCrop(image: Image, crop: CropRect, brightness: int, contrast: int)
    requires image.Valid() && FitsIn(crop, image)
    ensures Toned(Cropped(image, crop), brightness, contrast) == Cropped(Toned(image, brightness, contrast), crop)
  {
    hide Cropped, At, ToneValue, Toned;
    var a := Toned(Cropped(image, crop), brightness, contrast);
    var b := Cropped(Toned(image, brightness, contrast), crop);
    forall x: nat, y: nat | x < a.width && y < a.height ensures At(a, x, y) == At(b, x, y) {
      CroppedAt(image, crop, x, y);
      CroppedAt(Toned(image, brightness, contrast), crop, x, y);
      TonedAt(Cropped(image, crop), brightness, contrast, x, y);
      TonedAt(image, brightness, contrast, crop.x + x, crop.y + y);
    }
    SameImage(a, b);
  }

  // ------------------------------------------------------------------- loops

  /** Row y of the crop is a slice of the master. */
  lemma CropRow(image: Image, crop: CropRect, y: nat)
    requires image.Valid() && FitsIn(crop, image) && y < crop.height
    ensures var offset := (crop.y + y) * image.width + crop.x;
            0 <= offset <= offset + crop.width <= |image.pixels|
            && Rows(crop.width, y + 1, CropPixel(image, crop))
               == Rows(crop.width, y, CropPixel(image, crop)) + image.pixels[offset..offset + crop.width]
  {
    hide At;
    var f := CropPixel(image, crop);
    RowBounds(crop.y + y, image.height, image.width);
    MulStep(y, crop.width);
    var offset := (crop.y + y) * image.width + crop.x;
    var slice := image.pixels[offset..offset + crop.width];
    forall x | 0 <= x < crop.width ensures slice[x] == f(x, y) {
      AtIndex(image, crop.x + x, crop.y + y);
    }
    assert slice == seq(crop.width, x requires 0 <= x < crop.width => f(x, y));
  }

  /** The crop loop: appends one slice of the master for each row. */
  method CropImage(image: Image, crop: CropRect) returns (r: Image)
    requires image.Valid() && FitsIn(crop, image)
    ensures r == Cropped(image, crop)
  {
    hide Rows;
    ghost var f := CropPixel(image, crop);
    var cropped: seq<Pixel> := [];
    NoRows(crop.width, f);
    var y: nat := 0;
    while y < crop.height
      invariant y <= crop.height
      invariant cropped == Rows(crop.width, y, f)
    {
      CropRow(image, crop, y);
      var offset := (crop.y + y) * image.width + crop.x;
      cropped := cropped + image.pixels[offset..offset + crop.width];
      y := y + 1;
    }
    r := Image(crop.width, crop.height, cropped);
  }

  lemma NoRows(w: nat, f: (nat, nat) --> Pixel)
    ensures Rows(w, 0, f) == []
  {
  }

  lemma AtIndex(image: Image, x: nat, y: nat)
    requires image.Valid() && x < image.width && y < image.height
    ensures 0 <= y * image.width + x < |image.pixels| && At(image, x, y) == image.pixels[y * image.width + x]
  {
    IndexBounds(x, y, image.width, image.height);
  }

  /** Where pixel (x, y) goes; the inverse of Origin. */
  function Target(w: nat, h: nat, degrees: int, x: nat, y: nat): (p: (nat, nat))
    requires QuarterTurns(degrees) && x < w && y < h
    ensures p.0 < Turned(w, h, degrees).0 && p.1 < Turned(w, h, degrees).1
    ensures Origin(w, h, degrees, p.0, p.1) == (x, y)
  {
    if degrees == 90 then (h - 1 - y, x)
    else if degrees == 180 then (w - 1 - x, h - 1 - y)
    else if degrees == 270 then (y, w - 1 - x)
    else (x, y)
  }

  lemma TargetOfOrigin(w: nat, h: nat, degrees: int, x: nat, y: nat)
    requires QuarterTurns(degrees) && x < Turned(w, h, degrees).0 && y < Turned(w, h, degrees).1
    ensures var p := Origin(w, h, degrees, x, y); Target(w, h, degrees, p.0, p.1) == (x, y)
  {
  }

  function TargetIndex(w: nat, h: nat, degrees: int, x: nat, y: nat): (i: nat)
    requires QuarterTurns(degrees) && x < w && y < h
    ensures i < w * h
  {
    var p := Target(w, h, degrees, x, y);
    var (tw, th) := Turned(w, h, degrees);
    IndexBounds(p.0, p.1, tw, th);
    assert tw * th == w * h;
    p.1 * tw + p.0
  }

  /** Different source pixels go to different places in the target array. */
  lemma TargetInjective(w: nat, h: nat, degrees: int, x: nat, y: nat, x': nat, y': nat)
    requires QuarterTurns(degrees) && x < w && y < h && x' < w && y' < h
    requires TargetIndex(w, h, degrees, x, y) == TargetIndex(w, h, degrees, x', y')
    ensures x == x' && y == y'
  {
    var p, q := Target(w, h, degrees, x, y), Target(w, h, degrees, x', y');
    IndexInjective(p.0, p.1, q.0, q.1, Turned(w, h, degrees).0);
    assert Origin(w, h, degrees, p.0, p.1) == (x, y);
    assert Origin(w, h, degrees, q.0, q.1) == (x', y');
  }

  /** Every place of the target array is written, by exactly one source pixel. */
  lemma EveryTargetWrittenOnce(w: nat, h: nat, degrees: int, i: nat)
    requires QuarterTurns(degrees) && i < w * h
    ensures exists x: nat, y: nat ::
              x < w && y < h && TargetIndex(w, h, degrees, x, y) == i
              && forall x': nat, y': nat :: x' < w && y' < h && TargetIndex(w, h, degrees, x', y') == i ==> x' == x && y' == y
  {
    var (tw, th) := Turned(w, h, degrees);
    assert tw * th == w * h;
    var tx, ty := IndexSurjective(i, tw, th);
    var p := Origin(w, h, degrees, tx, ty);
    TargetOfOrigin(w, h, degrees, tx, ty);
    assert TargetIndex(w, h, degrees, p.0, p.1) == i;
    forall x': nat, y': nat | x' < w && y' < h && TargetIndex(w, h, degrees, x', y') == i ensures x' == p.0 && y' == p.1 {
      TargetInjective(w, h, degrees, x', y', p.0, p.1);
    }
  }

  /** Pixels that the scan over the source has passed. */
  predicate Passed(x: nat, y: nat, toX: nat, toY: nat) {
    y < toY || (y == toY && x < toX)
  }

  ghost predicate Moved(image: Image, degrees: int, target: seq<Pixel>, toX: nat, toY: nat)
    requires image.Valid() && QuarterTurns(degrees) && |target| == |image.pixels|
  {
    forall x: nat, y: nat :: x < image.width && y < image.height && Passed(x, y, toX, toY) ==>
      target[TargetIndex(image.width, image.height, degrees, x, y)] == At(image, x, y)
  }

  lemma MoveOne(image: Image, degrees: int, target: seq<Pixel>, x: nat, y: nat)
    requires image.Valid() && QuarterTurns(degrees) && |target| == |image.pixels|
    requires x < image.width && y < image.height && Moved(image, degrees, target, x, y)
    ensures Moved(image, degrees, target[TargetIndex(image.width, image.height, degrees, x, y) := At(image, x, y)], x + 1, y)
  {
    hide At, TargetIndex;
    var w, h := image.width, image.height;
    var i := TargetIndex(w, h, degrees, x, y);
    var after := target[i := At(image, x, y)];
    forall x': nat, y': nat | x' < w && y' < h && Passed(x', y', x + 1, y)
      ensures after[TargetIndex(w, h, degrees, x', y')] == At(image, x', y')
    {
      if TargetIndex(w, h, degrees, x', y') == i {
        TargetInjective(w, h, degrees, x', y', x, y);
      }
    }
  }

  lemma MovedAt(image: Image, degrees: int, target: seq<Pixel>, x: nat, y: nat)
    requires image.Valid() && QuarterTurns(degrees) && |target| == |image.pixels|
    requires Moved(image, degrees, target, 0, image.height) && x < image.width && y < image.height
    ensures target[TargetIndex(image.width, image.height, degrees, x, y)] == At(image, x, y)
  {
    hide TargetIndex, At;
    assert Passed(x, y, 0, image.height);
  }

  lemma AllMoved(image: Image, degrees: int, target: seq<Pixel>)
    requires image.Valid() && QuarterTurns(degrees) && |target| == |image.pixels|
    requires Moved(image, degrees, target, 0, image.height)
    ensures var (w, h) := Turned(image.width, image.height, degrees);
            Image(w, h, target) == Rotated(image, degrees)
  {
    hide Rotated, TargetIndex, At, Moved, Origin, Target;
    var (w, h) := Turned(image.width, image.height, degrees);
    var moved := Image(w, h, target);
    assert w * h == image.width * image.height;
    var rotated := Rotated(image, degrees);
    forall x: nat, y: nat | x < w && y < h ensures At(moved, x, y) == At(rotated, x, y) {
      RotatedAt(image, degrees, x, y);
      var p := Origin(image.width, image.height, degrees, x, y);
      TargetOfOrigin(image.width, image.height, degrees, x, y);
      TargetIndexIs(image.width, image.height, degrees, p.0, p.1);
      MovedAt(image, degrees, target, p.0, p.1);
      AtIndex(moved, x, y);
    }
    SameImage(moved, rotated);
  }

  /** The rotation loops: scan the source, write each pixel into the target array. */
  method RotateImage(image: Image, degrees: int) returns (r: Image)
    requires image.Valid() && (degrees == 90 || degrees == 180 || degrees == 270)
    ensures r == Rotated(image, degrees)
  {
    hide Rotated, At, Moved, TargetIndex;
    var sourceWidth, sourceHeight := image.width, image.height;
    var targetWidth := if Swaps(degrees) then sourceHeight else sourceWidth;
    var targetHeight := if Swaps(degrees) then sourceWidth else sourceHeight;
    var rotated := new Pixel[|image.pixels|];
    var y: nat := 0;
    NothingMoved(image, degrees, rotated[..]);
    while y < sourceHeight
      invariant y <= sourceHeight && Moved(image, degrees, rotated[..], 0, y)
    {
      var x: nat := 0;
      while x < sourceWidth
        invariant x <= sourceWidth && Moved(image, degrees, rotated[..], x, y)
      {
        var targetX, targetY;
        if degrees == 90 {
          targetX, targetY := sourceHeight - 1 - y, x;
        } else if degrees == 180 {
          targetX, targetY := sourceWidth - 1 - x, sourceHeight - 1 - y;
        } else {
          targetX, targetY := y, sourceWidth - 1 - x;
        }
        TargetIndexIs(sourceWidth, sourceHeight, degrees, x, y);
        AtIndex(image, x, y);
        MoveOne(image, degrees, rotated[..], x, y);
        rotated[targetY * targetWidth + targetX] := image.pixels[y * sourceWidth + x];
        x := x + 1;
      }
      RowMoved(image, degrees, rotated[..], x, y);
      y := y + 1;
    }
    AllMoved(image, degrees, rotated[..]);
    r := Image(targetWidth, targetHeight, rotated[..]);
  }

  lemma NothingMoved(image: Image, degrees: int, target: seq<Pixel>)
    requires image.Valid() && QuarterTurns(degrees) && |target| == |image.pixels|
    ensures Moved(image, degrees, target, 0, 0)
  {
  }

  lemma RowMoved(image: Image, degrees: int, target: seq<Pixel>, x: nat, y: nat)
    requires image.Valid() && QuarterTurns(degrees) && |target| == |image.pixels|
    requires x >= image.width && Moved(image, degrees, target, x, y)
    ensures Moved(image, degrees, target, 0, y + 1)
  {
  }

  lemma TargetIndexIs(w: nat, h: nat, degrees: int, x: nat, y: nat)
    requires QuarterTurns(degrees) && x < w && y < h
    ensures var p := Target(w, h, degrees, x, y);
            TargetIndex(w, h, degrees, x, y) == p.1 * Turned(w, h, degrees).0 + p.0
  {
  }

  /** The tone loop: rewrites every pixel in place. */
  method ToneImage(image: Image, brightness: int, contrast: int) returns (r: Image)
    requires image.Valid()
    ensures r == Toned(image, brightness, contrast)
  {
    hide ToneValue;
    var pixels := new Pixel[|image.pixels|](i requires 0 <= i < |image.pixels| => image.pixels[i]);
    var i := 0;
    while i < pixels.Length
      invariant 0 <= i <= pixels.Length
      invariant forall k :: 0 <= k < i ==> pixels[k] == ToneValue(image.pixels[k], brightness, contrast)
      invariant forall k :: i <= k < pixels.Length ==> pixels[k] == image.pixels[k]
    {
      pixels[i] := ToneValue(pixels[i], brightness, contrast);
      i := i + 1;
    }
    r := Image(image.width, image.height, pixels[..]);
    assert r.pixels == Toned(image, brightness, contrast).pixels;
  }

  // ------------------------------------------------------------- whole pages

  predicate Renderable(page: Page) {
    QuarterTurns(page.rotation) && (page.crop.Some? ==> CropInside(page.crop.value, page.width, page.height))
  }

  predicate SizeOf(image: Image, page: Page) {
    image.Valid() && image.width == page.width && image.height == page.height
  }

  function CroppedFor(image: Image, page: Page): (r: Image)
    requires Renderable(page) && SizeOf(image, page)
    ensures r.Valid()
  {
    if page.crop.Some? then Cropped(image, page.crop.value) else image
  }

  /** Crop, then rotation, then tone. */
  function Finished(image: Image, page: Page): (r: Image)
    requires Renderable(page) && SizeOf(image, page)
    ensures r.Valid()
  {
    Toned(Rotated(CroppedFor(image, page), page.rotation), page.brightness, page.contrast)
  }

  function RenderedPage(files: Files, page: Page): (r: Result<Image>)
    requires Renderable(page)
    ensures r.Ok? ==> r.value.Valid()
  {
    var master :- ReadBoundedFile(files, page.currentMaster, MAX_FIXTURE_BYTES, "page master is unavailable");
    var pixels :- DecodePgm(master, page.width, page.height);
    Ok(Finished(Image(page.width, page.height, pixels), page))
  }

  /** render_page. */
  method RenderPage(files: Files, page: Page) returns (r: Result<Image>)
    requires Renderable(page)
    ensures r == RenderedPage(files, page)
  {
    hide DecodePgm, Rotated, Toned, Cropped;
    var master :- ReadBoundedFile(files, page.currentMaster, MAX_FIXTURE_BYTES, "page master is unavailable");
    var pixels :- ReadPgm(master, page.width, page.height);
    var rendered := Image(page.width, page.height, pixels);
    if page.crop.Some? {
      rendered := CropImage(rendered, page.crop.value);
    }
    RotatedByZero(rendered);
    if page.rotation != 0 {
      rendered := RotateImage(rendered, page.rotation);
    }
    NeutralToneKeepsImage(rendered);
    if page.brightness != 0 || page.contrast != 0 {
      rendered := ToneImage(rendered, page.brightness, page.contrast);
    }
    return Ok(rendered);
  }

  /** Every output pixel is the toned value of one master pixel inside the crop. */
  lemma RenderedPixel(image: Image, page: Page, x: nat, y: nat)
    requires Renderable(page) && SizeOf(image, page)
    requires x < Finished(image, page).width && y < Finished(image, page).height
    ensures var crop := if page.crop.Some? then page.crop.value else CropRect(0, 0, page.width, page.height);
            var (w, h) := Turned(crop.width, crop.height, page.rotation);
            x < w && y < h
            && var p := Origin(crop.width, crop.height, page.rotation, x, y);
               crop.x + p.0 < page.width && crop.y + p.1 < page.height
               && At(Finished(image, page), x, y)
                  == ToneValue(At(image, crop.x + p.0, crop.y + p.1), page.brightness, page.contrast)
  {
    hide At, ToneValue, Rotated, Toned, Cropped;
    var cropped := CroppedFor(image, page);
    var p := Origin(cropped.width, cropped.height, page.rotation, x, y);
    TonedAt(Rotated(cropped, page.rotation), page.brightness, page.contrast, x, y);
    RotatedAt(cropped, page.rotation, x, y);
    if page.crop.Some? {
      CroppedAt(image, page.crop.value, p.0, p.1);
    }
  }

  /** Rotating the page record turns its rendered image, whatever its crop, rotation and tone. */
  lemma RotatedPageRendersRotated(files: Files, page: Page, degrees: int)
    requires Renderable(page) && QuarterTurns(degrees)
    ensures QuarterTurns((page.rotation + degrees) % 360)
    ensures RenderedPage(files, page.(rotation := (page.rotation + degrees) % 360))
            == match RenderedPage(files, page)
               case Ok(image) => Ok(Rotated(image, degrees))
               case Err(e) => Err(e)
  {
    hide DecodePgm, Rotated, Toned, Cropped;
    var turned := page.(rotation := (page.rotation + degrees) % 360);
    var master := ReadBoundedFile(files, page.currentMaster, MAX_FIXTURE_BYTES, "page master is unavailable");
    if master.Ok? && DecodePgm(master.value, page.width, page.height).Ok? {
      var image := Image(page.width, page.height, DecodePgm(master.value, page.width, page.height).value);
      var cropped := CroppedFor(image, page);
      assert CroppedFor(image, turned) == cropped;
      RotationsCompose(cropped, page.rotation, degrees);
      ToneCommutesWithRotation(Rotated(cropped, page.rotation), degrees, page.brightness, page.contrast);
    }
  }

  function DerivativeFrame(image: Image, text: string, fixtureId: string, dpi: U32, source: SourceType): ScanFrame
    requires image.width <= U32_MAX && image.height <= U32_MAX
  {
    ScanFrame(fixtureId, ".pgm", text, image.width, image.height, dpi, Gray8, 8, source)
  }

  /** An exported derivative is again an acceptable frame, exactly when it respects the dimension limit,
      which a page loaded from a manifest need not do; added as a new page it renders to itself. */
  lemma DerivativeCanBeReimported(files: Files, page: Page, fixtureId: string, dpi: U32, source: SourceType,
                                  id: string, master: string)
    requires Renderable(page) && page.width > 0 && page.height > 0
    requires RenderedPage(files, page).Ok? && EncodePgm(RenderedPage(files, page).value).Ok?
    requires IsIdentifier(fixtureId) && dpi != 0
    ensures var image := RenderedPage(files, page).value;
            var text := EncodePgm(image).value;
            image.width <= U32_MAX && image.height <= U32_MAX
            && var frame := DerivativeFrame(image, text, fixtureId, dpi, source);
               (ValidateFrame(frame).Ok? <==> image.width <= MAX_IMAGE_DIMENSION && image.height <= MAX_IMAGE_DIMENSION)
               && RenderedPage(files[master := text], DefaultPage(id, master, frame)) == Ok(image)
  {
    hide DecodePgm, Rotated, Toned, Cropped, PgmText;
    var image := RenderedPage(files, page).value;
    var text := EncodePgm(image).value;
    PgmRoundTrip(image);
    PgmTextIsNotEmpty(image);
    RotatedByZero(image);
    NeutralToneKeepsImage(image);
  }

  lemma PgmTextIsNotEmpty(image: Image)
    requires image.Valid()
    ensures PgmText(image) != ""
  {
  }
}
