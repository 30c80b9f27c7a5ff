/** What rendering does to pixels, in coordinates and in gray values. */
module RenderLaws {
  import opened Arith
  import opened Text
  import opened Pgm
  import opened Pages
  import opened Render

  // ---------------------------------------------------------------- rotation

  /** Row by row from the top, each from the left. */
  function Index(width: nat, x: nat, y: nat): nat {
    y * width + x
  }

  lemma StandsAt(image: Image, x: nat, y: nat)
    requires image.Valid() && x < image.width && y < image.height
    ensures Index(image.width, x, y) < |image.pixels| && At(image, x, y) == image.pixels[Index(image.width, x, y)]
  {
    AtIndex(image, x, y);
  }

  /** Pixel (a, b) of the one picture is pixel (x, y) of the other. */
  predicate Shows(r: Image, a: int, b: int, image: Image, x: int, y: int) {
    0 <= a < r.width && 0 <= b < r.height && 0 <= x < image.width && 0 <= y < image.height
    && Index(r.width, a, b) < |r.pixels| && Index(image.width, x, y) < |image.pixels|
    && r.pixels[Index(r.width, a, b)] == image.pixels[Index(image.width, x, y)]
  }

  lemma ShowsAt(r: Image, a: nat, b: nat, image: Image, x: nat, y: nat)
    requires r.Valid() && image.Valid() && a < r.width && b < r.height && x < image.width && y < image.height
    requires At(r, a, b) == At(image, x, y)
    ensures Shows(r, a, b, image, x, y)
  {
    StandsAt(r, a, b);
    StandsAt(image, x, y);
  }

  /** Turning is clockwise: after a quarter turn, what stood y rows from the top stands y columns from the right. */
  lemma TurnedPixel(image: Image, degrees: int, x: nat, y: nat)
    requires image.Valid() && (degrees == 0 || degrees == 90 || degrees == 180 || degrees == 270)
    requires x < image.width && y < image.height
    ensures var (w, h) := (image.width, image.height);
            var r := Rotated(image, degrees);
            (degrees == 0 ==> r == image)
            && (degrees == 90 ==> r.width == h && r.height == w && Shows(r, h - 1 - y, x, image, x, y))
            && (degrees == 180 ==> r.width == w && r.height == h && Shows(r, w - 1 - x, h - 1 - y, image, x, y))
            && (degrees == 270 ==> r.width == h && r.height == w && Shows(r, y, w - 1 - x, image, x, y))
  {
    hide Rotated, At, Shows;
    var (w, h) := (image.width, image.height);
    var r := Rotated(image, degrees);
    RotatedByZero(image);
    var (a, b) := if degrees == 90 then (h - 1 - y, x) else if degrees == 180 then (w - 1 - x, h - 1 - y)
      else if degrees == 270 then (y, w - 1 - x) else (x, y);
    RotatedAt(image, degrees, a, b);
    ShowsAt(r, a, b, image, x, y);
  }

  // -------------------------------------------------------------------- tone

  /** Two hundred times what (p - 127.5) * (100 + contrast) / 100 + 127.5 + 2.55 * brightness is. */
  lemma ToneInReals(p: Pixel, brightness: int, contrast: int)
    ensures 200.0 * ((p as real - 127.5) * (100.0 + contrast as real) / 100.0 + 127.5 + 2.55 * brightness as real)
            == ((2 * p - 255) * (100 + contrast) + 25500 + 510 * brightness) as real
  {
    var a, b: int := 2 * p - 255, 100 + contrast;
    assert (a * b) as real == a as real * b as real;
    assert p as real - 127.5 == a as real / 2.0 && 100.0 + contrast as real == b as real;
    assert (p as real - 127.5) * (100.0 + contrast as real) == a as real / 2.0 * b as real;
    assert a as real / 2.0 * b as real == (a * b) as real / 2.0;
  }

  /** A gray as the tone makes it of another. */
  ghost predicate IsToned(p: Pixel, brightness: int, contrast: int, r: Pixel) {
    var exact := (p as real - 127.5) * (100.0 + contrast as real) / 100.0 + 127.5 + 2.55 * brightness as real;
    (0.0 <= exact <= 255.0 ==> r as real - 0.5 <= exact < r as real + 0.5)
    && (exact < 0.0 ==> r == 0) && (exact > 255.0 ==> r == 255)
  }

  /** The toned value is the exact one rounded to the nearest gray, half up, and cut off at black and white. */
  lemma ToneIsNearest(p: Pixel, brightness: int, contrast: int)
    ensures IsToned(p, brightness, contrast, ToneValue(p, brightness, contrast))
  {
    ToneInReals(p, brightness, contrast);
    var n := (2 * p - 255) * (100 + contrast) + 25500 + 510 * brightness;
    var exact := (p as real - 127.5) * (100.0 + contrast as real) / 100.0 + 127.5 + 2.55 * brightness as real;
    RoundedIsNearest(n);
    assert 200.0 * exact == n as real;
  }

  lemma RoundedIsNearest(n: int)
    ensures var r := Clamped(RoundedHalfAway(n, 200));
            (0 <= n <= 51000 ==> 200 * r - 100 <= n < 200 * r + 100) && (n < 0 ==> r == 0) && (n > 51000 ==> r == 255)
  {
  }

  // ------------------------------------------------------------- whole pages

  /** Where a clockwise turn of a w x h picture brings pixel (x, y). */
  function Place(w: nat, h: nat, degrees: int, x: nat, y: nat): (int, int) {
    if degrees == 90 then (h - 1 - y, x)
    else if degrees == 180 then (w - 1 - x, h - 1 - y)
    else if degrees == 270 then (y, w - 1 - x)
    else (x, y)
  }

  function WholeOrCrop(page: Page): CropRect {
    if page.crop.Some? then page.crop.value else CropRect(0, 0, page.width, page.height)
  }

  /** Pixel (x, y) of the crop is seen, toned, at its place in the finished picture, which has the size of the turned crop. */
  ghost predicate Seen(master: seq<Pixel>, page: Page, x: nat, y: nat, r: Image) {
    var crop := WholeOrCrop(page);
    var (a, b) := Place(crop.width, crop.height, page.rotation, x, y);
    var i := Index(page.width, crop.x + x, crop.y + y);
    r.width == (if page.rotation == 90 || page.rotation == 270 then crop.height else crop.width)
    && r.height == (if page.rotation == 90 || page.rotation == 270 then crop.width else crop.height)
    && 0 <= a < r.width && 0 <= b < r.height && i < |master| && Index(r.width, a, b) < |r.pixels|
    && IsToned(master[i], page.brightness, page.contrast, r.pixels[Index(r.width, a, b)])
  }

  lemma FinishedShows(image: Image, page: Page, x: nat, y: nat)
    requires Renderable(page) && SizeOf(image, page) && x < WholeOrCrop(page).width && y < WholeOrCrop(page).height
    ensures Seen(image.pixels, page, x, y, Finished(image, page))
  {
    hide Rotated, At, IsToned, ToneValue, Cropped, Toned, Shows, Index;
    var crop, cropped := WholeOrCrop(page), CroppedFor(image, page);
    CroppedShows(image, page, x, y);
    TurnedPixel(cropped, page.rotation, x, y);
    var (a, b) := Place(crop.width, crop.height, page.rotation, x, y);
    var turned := Rotated(cropped, page.rotation);
    PlaceIsThere(cropped, page.rotation, x, y);
    TonedAt(turned, page.brightness, page.contrast, a, b);
    StandsAt(Finished(image, page), a, b);
    StandsAt(image, crop.x + x, crop.y + y);
    ToneIsNearest(At(image, crop.x + x, crop.y + y), page.brightness, page.contrast);
  }

  lemma PlaceIsThere(image: Image, degrees: int, x: nat, y: nat)
    requires image.Valid() && QuarterTurns(degrees) && x < image.width && y < image.height
    ensures var r := Rotated(image, degrees);
            var (a, b) := Place(image.width, image.height, degrees, x, y);
            0 <= a < r.width && 0 <= b < r.height && At(r, a, b) == At(image, x, y)
  {
    hide Rotated, At;
    var (a, b) := Place(image.width, image.height, degrees, x, y);
    RotatedAt(image, degrees, a, b);
  }

  /** Every pixel of the master inside the crop is seen, toned, where the crop and the clockwise turn bring it. */
  lemma MasterPixelIsSeen(files: Files, page: Page, x: nat, y: nat)
    requires Renderable(page) && RenderedPage(files, page).Ok? && x < WholeOrCrop(page).width && y < WholeOrCrop(page).height
    ensures page.currentMaster in files && DecodePgm(files[page.currentMaster], page.width, page.height).Ok?
    ensures Seen(DecodePgm(files[page.currentMaster], page.width, page.height).value, page, x, y,
                 RenderedPage(files, page).value)
  {
    hide DecodePgm, Finished, Seen;
    var image := Image(page.width, page.height, DecodePgm(files[page.currentMaster], page.width, page.height).value);
    FinishedShows(image, page, x, y);
  }

  lemma CroppedShows(image: Image, page: Page, x: nat, y: nat)
    requires Renderable(page) && SizeOf(image, page)
    requires x < CroppedFor(image, page).width && y < CroppedFor(image, page).height
    ensures var crop := if page.crop.Some? then page.crop.value else CropRect(0, 0, page.width, page.height);
            CroppedFor(image, page).width == crop.width && CroppedFor(image, page).height == crop.height
            && crop.x + x < page.width && crop.y + y < page.height
            && At(CroppedFor(image, page), x, y) == At(image, crop.x + x, crop.y + y)
  {
    hide At, Cropped;
    if page.crop.Some? {
      CroppedAt(image, page.crop.value, x, y);
    }
  }
}
