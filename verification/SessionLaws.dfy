/** What each session operation does, field by field, and what two rotations do together. */
module SessionLaws {
  import opened Text
  import opened Pgm
  import opened Pages
  import opened Render
  import opened Manifest
  import opened ManifestReader
  import opened ManifestRoundTrip
  import opened SessionStore
  import opened SessionOps
  import opened SessionRuns

  /** The page that an id names is the first with that id. */
  predicate NamesPage(w: World, id: string, i: nat) {
    i < |w.Pages()| && w.Pages()[i].id == id && forall j :: 0 <= j < i ==> w.Pages()[j].id != id
  }

  predicate HasPage(w: World, id: string) {
    exists i :: 0 <= i < |w.Pages()| && w.Pages()[i].id == id
  }

  /** Nothing but page i is different. */
  predicate OnlyPage(w: World, after: World, i: nat) {
    after.files == w.files && |after.Pages()| == |w.Pages()|
    && after.session == Session(w.session.sessionId, w.session.createdUtc, w.session.providerId, w.session.deviceId, after.Pages())
    && forall j :: 0 <= j < |w.Pages()| && j != i ==> after.Pages()[j] == w.Pages()[j]
  }

  /** Two pages that agree in all but the edits: rotation, crop, brightness, contrast and inclusion. */
  predicate SameScan(p: Page, q: Page) {
    p.id == q.id && p.fixtureId == q.fixtureId && p.currentMaster == q.currentMaster
    && p.preservedMasters == q.preservedMasters && p.revision == q.revision && p.width == q.width && p.height == q.height
    && p.dpi == q.dpi && p.color == q.color && p.bitDepth == q.bitDepth && p.source == q.source
  }

  lemma Found(w: World, id: string)
    ensures IndexOfPage(w.Pages(), id).Some? <==> HasPage(w, id)
    ensures forall i: nat :: NamesPage(w, id, i) ==> IndexOfPage(w.Pages(), id) == Some(i)
  {
  }

  /** Whatever an edit does, it does to the page named, and to nothing else. */
  lemma EditIs(w: World, id: string)
    ensures forall edit: Page -> Page ::
              Edit(w, id, edit).1 == (if !HasPage(w, id) then Err("page does not exist") else Ok(""))
              && (!HasPage(w, id) ==> Edit(w, id, edit).0 == w)
    ensures forall edit: Page -> Page, i: nat :: NamesPage(w, id, i) ==>
              HasPage(w, id) && OnlyPage(w, Edit(w, id, edit).0, i) && Edit(w, id, edit).0.Pages()[i] == edit(w.Pages()[i])
  {
    hide IndexOfPage;
    Found(w, id);
  }

  // -------------------------------------------------------------------- rotate

  lemma TurnedBy(r: U16, degrees: U16)
    ensures 0 <= (r + degrees) % 360 < 360 && ((r + degrees) % 360 - r - degrees) % 360 == 0
  {
    var n := r + degrees;
    assert n % 360 - n == 360 * -(n / 360);
  }

  /** rotate adds a right angle, two or three to the rotation of the page, modulo 360, and changes nothing else. */
  lemma RotateDoes(w: World, id: string, degrees: U16)
    ensures var (after, r) := Apply(w, Rotate(id, degrees));
            r == (if degrees != 90 && degrees != 180 && degrees != 270 then Err("rotation must be 90, 180, or 270 degrees")
                  else if !HasPage(w, id) then Err("page does not exist") else Ok(""))
            && (r.Err? ==> after == w)
            && forall i: nat :: NamesPage(w, id, i) && r.Ok? ==>
                 OnlyPage(w, after, i)
                 && var p, q := w.Pages()[i], after.Pages()[i];
                    SameScan(p, q) && q.crop == p.crop && q.brightness == p.brightness && q.contrast == p.contrast
                    && q.included == p.included
                    && 0 <= q.rotation < 360 && (q.rotation - p.rotation - degrees) % 360 == 0
  {
    hide Edit, OnlyPage, HasPage;
    EditIs(w, id);
    forall i: nat | NamesPage(w, id, i)
      ensures var r := w.Pages()[i].rotation;
              0 <= (r + degrees) % 360 < 360 && ((r + degrees) % 360 - r - degrees) % 360 == 0 {
      TurnedBy(w.Pages()[i].rotation, degrees);
    }
  }

  /** The rendering of the page is the rendering before, turned by so many degrees. */
  lemma RotatePageTurnsIt(w: World, id: string, degrees: U16, i: nat)
    requires NamesPage(w, id, i) && Renderable(w.Pages()[i]) && Apply(w, Rotate(id, degrees)).1.Ok?
    ensures var after := Apply(w, Rotate(id, degrees)).0;
            QuarterTurns(degrees) && i < |after.Pages()| && Renderable(after.Pages()[i])
            && RenderedPage(after.files, after.Pages()[i])
               == match RenderedPage(w.files, w.Pages()[i])
                  case Ok(image) => Ok(Rotated(image, degrees))
                  case Err(e) => Err(e)
  {
    hide IndexOfPage, RenderedPage, Rotated;
    Found(w, id);
    RotatedPageRendersRotated(w.files, w.Pages()[i], degrees);
  }

  /** Two rotations are one by their sum modulo 360, or none where that is nothing. */
  lemma TwoRotationsAreOne(w: World, id: string, a: U16, b: U16)
    requires forall p :: p in w.Pages() ==> p.rotation < 360
    requires Apply(w, Rotate(id, a)).1.Ok?
    requires Apply(Apply(w, Rotate(id, a)).0, Rotate(id, b)).1.Ok?
    ensures var sum := (a + b) % 360;
            Apply(Apply(w, Rotate(id, a)).0, Rotate(id, b)).0 == if sum == 0 then w else Apply(w, Rotate(id, sum)).0
  {
    hide Apply, NamesPage;
    var i := RotationFinds(w, id, a);
    RotatedPage(w, id, a, i);
    var once := Apply(w, Rotate(id, a)).0;
    SameNames(w, once, id, i);
    var _ := RotationFinds(once, id, b);
    RotatedPage(once, id, b, i);
    var sum := (a + b) % 360;
    SumOfTurns(w.Pages()[i].rotation, a, b);
    var p := w.Pages()[i].(rotation := (w.Pages()[i].rotation + sum) % 360);
    assert once.Pages()[i := p] == w.Pages()[i := p];
    if sum == 0 {
      assert w.Pages()[i := p] == w.Pages();
    } else {
      RotatedPage(w, id, sum, i);
    }
  }

  lemma RotationFinds(w: World, id: string, degrees: U16) returns (i: nat)
    requires Apply(w, Rotate(id, degrees)).1.Ok?
    ensures degrees == 90 || degrees == 180 || degrees == 270
    ensures NamesPage(w, id, i) && i < |w.Pages()| && w.Pages()[i].id == id
  {
    hide IndexOfPage;
    Found(w, id);
    i := IndexOfPage(w.Pages(), id).value;
  }

  lemma RotatedPage(w: World, id: string, degrees: U16, i: nat)
    requires (degrees == 90 || degrees == 180 || degrees == 270) && NamesPage(w, id, i)
    ensures i < |w.Pages()|
    ensures var p := w.Pages()[i];
            Apply(w, Rotate(id, degrees))
            == (w.WithPages(w.Pages()[i := p.(rotation := (p.rotation + degrees) % 360)]), Ok(""))
  {
    hide IndexOfPage;
    Found(w, id);
  }

  lemma SameNames(w: World, once: World, id: string, i: nat)
    requires NamesPage(w, id, i) && |once.Pages()| == |w.Pages()|
    requires once.Pages()[i].id == id && forall j :: 0 <= j < |w.Pages()| && j != i ==> once.Pages()[j] == w.Pages()[j]
    ensures NamesPage(once, id, i)
  {
  }

  lemma SumOfTurns(r: int, a: int, b: int)
    requires (a == 90 || a == 180 || a == 270) && (b == 90 || b == 180 || b == 270) && 0 <= r < 360
    ensures ((r + a) % 360 + b) % 360 == (r + (a + b) % 360) % 360
    ensures (a + b) % 360 == 0 || (a + b) % 360 == 90 || (a + b) % 360 == 180 || (a + b) % 360 == 270
    ensures (a + b) % 360 == 0 ==> (r + (a + b) % 360) % 360 == r
  {
    if r + a < 360 {
      assert (r + a) % 360 == r + a;
    } else {
      assert (r + a) % 360 == r + a - 360;
    }
    if a + b < 360 {
      assert (a + b) % 360 == a + b;
    } else {
      assert (a + b) % 360 == a + b - 360;
    }
  }

  // --------------------------------------------------------------------- edits

  /** set_crop takes a non-empty crop inside the page, and changes nothing else. */
  lemma SetCropDoes(w: World, id: string, crop: CropRect)
    ensures var (after, r) := Apply(w, SetCrop(id, crop));
            (!HasPage(w, id) ==> r == Err("page does not exist") && after == w)
            && forall i: nat :: NamesPage(w, id, i) ==>
                 var p := w.Pages()[i];
                 if crop.width > 0 && crop.height > 0 && crop.x + crop.width <= p.width && crop.y + crop.height <= p.height then
                   r == Ok("") && OnlyPage(w, after, i)
                   && var q := after.Pages()[i];
                      SameScan(p, q) && q.crop == Some(crop) && q.rotation == p.rotation && q.brightness == p.brightness
                      && q.contrast == p.contrast && q.included == p.included
                 else r == Err("crop must remain inside the master image") && after == w
  {
    hide IndexOfPage;
    Found(w, id);
  }

  lemma ClearCropDoes(w: World, id: string)
    ensures var (after, r) := Apply(w, ClearCrop(id));
            r == (if HasPage(w, id) then Ok("") else Err("page does not exist")) && (r.Err? ==> after == w)
            && forall i: nat :: NamesPage(w, id, i) ==>
                 OnlyPage(w, after, i)
                 && var p, q := w.Pages()[i], after.Pages()[i];
                    SameScan(p, q) && q.crop == None && q.rotation == p.rotation && q.brightness == p.brightness
                    && q.contrast == p.contrast && q.included == p.included
  {
    hide IndexOfPage;
    Found(w, id);
  }

  /** set_tone takes brightness and contrast from -100 to 100, and changes nothing else. */
  lemma SetToneDoes(w: World, id: string, brightness: I16, contrast: I16)
    ensures var (after, r) := Apply(w, SetTone(id, brightness, contrast));
            r == (if !(-100 <= brightness <= 100 && -100 <= contrast <= 100)
                  then Err("brightness and contrast must be between -100 and 100")
                  else if !HasPage(w, id) then Err("page does not exist") else Ok(""))
            && (r.Err? ==> after == w)
            && forall i: nat :: NamesPage(w, id, i) && r.Ok? ==>
                 OnlyPage(w, after, i)
                 && var p, q := w.Pages()[i], after.Pages()[i];
                    SameScan(p, q) && q.brightness == brightness && q.contrast == contrast && q.crop == p.crop
                    && q.rotation == p.rotation && q.included == p.included
  {
    hide IndexOfPage;
    Found(w, id);
  }

  lemma SetIncludedDoes(w: World, id: string, included: bool)
    ensures var (after, r) := Apply(w, SetIncluded(id, included));
            r == (if HasPage(w, id) then Ok("") else Err("page does not exist")) && (r.Err? ==> after == w)
            && forall i: nat :: NamesPage(w, id, i) ==>
                 OnlyPage(w, after, i)
                 && var p, q := w.Pages()[i], after.Pages()[i];
                    SameScan(p, q) && q.included == included && q.crop == p.crop && q.rotation == p.rotation
                    && q.brightness == p.brightness && q.contrast == p.contrast
  {
    hide IndexOfPage;
    Found(w, id);
  }

  // -------------------------------------------------------------- add and rescan

  /** The digits of a page or revision number: at least four, more only where they are needed. */
  lemma Digits(n: nat)
    ensures var d := Padded(n, 4);
            AllDigits(d) && Value(d) == n && (n < 10000 ==> |d| == 4) && (n >= 10000 ==> |d| > 4 && d[0] != '0')
  {
    ValueOfPadded(n, 4);
    DecLength(n, 4);
    assert Pow10(4) == 10000;
    if n >= 10000 {
      NoLeadingZero(n);
    }
  }

  lemma {:induction false} NoLeadingZero(n: nat)
    requires n > 0
    ensures Dec(n)[0] != '0'
  {
    if n >= 10 {
      NoLeadingZero(n / 10);
    }
  }

  lemma NamesAre(n: nat, revision: nat)
    ensures PageId(n) == "page-" + Padded(n, 4)
    ensures MasterName(PageId(n), revision) == "originals/page-" + Padded(n, 4) + "-r" + Padded(revision, 4) + ".pgm"
  {
    hide Padded;
    MasterIs(PageId(n), revision);
    assert "originals/" + ("page-" + Padded(n, 4)) + "-r" == "originals/page-" + Padded(n, 4) + "-r";
  }

  /** The page that a frame gives: its own data, and no edits. */
  predicate TakenFrom(frame: ScanFrame, q: Page) {
    q.fixtureId == frame.fixtureId && q.width == frame.width && q.height == frame.height && q.dpi == frame.dpi
    && q.color == frame.color && q.bitDepth == frame.bitDepth && q.source == frame.source
    && q.rotation == 0 && q.crop == None && q.brightness == 0 && q.contrast == 0
  }

  /** add_page of a valid frame, if there is room, the master's name is free and the file system plays along: the next number,
      the frame's data, revision 1 under its own name, no history and no edits, included. */
  lemma AddDoes(w: World, frame: ScanFrame, io: PublishIo)
    ensures var (after, r) := Apply(w, AddPage(frame, io));
            var number := Padded(|w.Pages()| + 1, 4);
            var master := "originals/page-" + number + "-r0001.pgm";
            (r.Ok? <==> ValidateFrame(frame).Ok? && |w.Pages()| < 10000 && master !in w.files && io == Moves)
            && (r.Err? ==> after.session == w.session)
            && (r.Ok? ==>
                  r.value == "page-" + number && |after.Pages()| == |w.Pages()| + 1
                  && after.session == Session(w.session.sessionId, w.session.createdUtc, w.session.providerId, w.session.deviceId,
                                              after.Pages())
                  && after.Pages()[..|w.Pages()|] == w.Pages()
                  && after.files == w.files[master := frame.bytes] - {master + ".tmp"}
                  && var q := after.Pages()[|w.Pages()|];
                     TakenFrom(frame, q) && q.id == "page-" + number && q.currentMaster == master
                     && q.preservedMasters == [] && q.revision == 1 && q.included)
  {
    hide ValidateFrame, SafeRelativePath, InOriginals, PageId, MasterName, Padded, IsIdentifier;
    var n := |w.Pages()| + 1;
    FirstMaster(n);
    if ValidateFrame(frame).Ok? && n <= 10000 {
      ValidFrameFacts(frame);
      PageIdIsIdentifier(n);
      MasterNameIsSafe(PageId(n), 1);
    }
  }

  lemma MasterIs(id: string, revision: nat)
    ensures MasterName(id, revision) == "originals/" + id + "-r" + Padded(revision, 4) + ".pgm"
    ensures StageName(MasterName(id, revision)) == MasterName(id, revision) + ".tmp"
  {
    hide Padded;
    assert "originals" + ['/'] + (id + ("-r" + (Padded(revision, 4) + ".pgm")))
        == "originals/" + id + "-r" + Padded(revision, 4) + ".pgm";
  }

  lemma FirstMaster(n: nat)
    ensures PageId(n) == "page-" + Padded(n, 4)
    ensures MasterName(PageId(n), 1) == "originals/page-" + Padded(n, 4) + "-r0001.pgm"
  {
    FirstRevision();
    hide Padded;
    NamesAre(n, 1);
    assert "originals/page-" + Padded(n, 4) + "-r" + Padded(1, 4) + ".pgm"
        == "originals/page-" + Padded(n, 4) + ("-r" + Padded(1, 4) + ".pgm");
  }

  lemma FirstRevision()
    ensures "-r" + Padded(1, 4) + ".pgm" == "-r0001.pgm"
  {
  }

  /** rescan of a valid frame, if the page is there and within its limits, the next master's name is free and the file system
      plays along: the frame's data, the next revision under its own name, the old master in the history, no edits. */
  lemma RescanDoes(w: World, id: string, frame: ScanFrame, io: PublishIo, i: nat)
    requires IsIdentifier(id) && NamesPage(w, id, i)
    ensures var (after, r) := Apply(w, Rescan(id, frame, io));
            var p := w.Pages()[i];
            var master := "originals/" + id + "-r" + Padded(p.revision + 1, 4) + ".pgm";
            (r.Ok? <==> ValidateFrame(frame).Ok? && p.revision < 0xffff_ffff && |p.preservedMasters| < 100000
                        && master !in w.files && io == Moves)
            && (r.Err? ==> after.session == w.session)
            && (r.Ok? ==>
                  after.files == w.files[master := frame.bytes] - {master + ".tmp"}
                  && OnlyPage(w, World(after.session, w.files), i)
                  && var q := after.Pages()[i];
                     TakenFrom(frame, q) && q.id == p.id && q.currentMaster == master && q.revision == p.revision + 1
                     && q.preservedMasters == p.preservedMasters + [p.currentMaster] && q.included == p.included)
  {
    hide ValidateFrame, SafeRelativePath, InOriginals, MasterName, Padded, IsIdentifier, IndexOfPage;
    var p := w.Pages()[i];
    MasterIs(id, p.revision + 1);
    Found(w, id);
    MasterNameIsSafe(id, p.revision + 1);
    if ValidateFrame(frame).Ok? {
      ValidFrameFacts(frame);
    }
  }

  /** A frame is valid exactly with an identifier, the one file type, a size within its limits, eight-bit gray, and a picture that
      decodes to that size. */
  lemma FrameIsValidIff(frame: ScanFrame)
    ensures ValidateFrame(frame).Ok?
            <==> 1 <= |frame.fixtureId| <= 64
                 && (forall i :: 0 <= i < |frame.fixtureId| ==> IsNameChar(frame.fixtureId[i]))
                 && frame.extension == ".pgm" && 1 <= |frame.bytes| <= 1048576
                 && 1 <= frame.width <= 200000 && 1 <= frame.height <= 200000 && frame.dpi > 0
                 && frame.color == Gray8 && frame.bitDepth == 8
                 && DecodePgm(frame.bytes, frame.width, frame.height).Ok?
  {
    hide DecodePgm;
  }

  /** Letters, digits, dash, underscore and dot. */
  predicate IsNameChar(c: char) {
    'A' <= c <= 'Z' || 'a' <= c <= 'z' || '0' <= c <= '9' || c == '-' || c == '_' || c == '.'
  }
}
