/** The mutable scan session: each method does to its fields what Apply says. */
module ScanSession {
  import opened Text
  import opened Pages
  import opened Manifest
  import opened ManifestReader
  import opened ManifestRoundTrip
  import opened SessionStore
  import opened SessionOps
  import opened SessionRuns

  class Session {
    const header: Manifest.Session
    const disk: Disk
    var pages: seq<Page>

    constructor (header: Manifest.Session, disk: Disk)
      ensures this.disk == disk && View() == header && fresh(this)
    {
      this.header := header;
      this.disk := disk;
      this.pages := header.pages;
    }

    function View(): Manifest.Session
      reads this
    {
      header.(pages := pages)
    }

    function Now(): World
      reads this, disk
    {
      World(View(), disk.files)
    }

    /** publish_master: stage, then rename; an existing master is never replaced. */
    method Publish(path: string, bytes: string, io: PublishIo) returns (r: Result<()>)
      modifies disk
      ensures (disk.files, r) == PublishMaster(old(disk.files), path, bytes, io)
      ensures KeepsFiles(old(disk.files), disk.files)
    {
      hide SafeRelativePath, InOriginals;
      PublishKeepsFiles(disk.files, path, bytes, io);
      if !SafeRelativePath(path) || !InOriginals(path) || bytes == "" || |bytes| > Pgm.MAX_FIXTURE_BYTES {
        return Err("master publication is invalid");
      }
      if path in disk.files {
        return Err("master revision already exists");
      }
      var stage := StageName(path);
      ghost var files := disk.files;
      assert |stage| != |path|;
      match io
      case WriteFails(torn) =>
        disk.Write(stage, torn);
        r := Err("master could not be staged");
      case MoveFails =>
        disk.Write(stage, bytes);
        disk.Remove(stage);
        WriteThenRemove(files, stage, bytes);
        r := Err("master could not be published");
      case Moves =>
        disk.Write(stage, bytes);
        disk.Rename(stage, path);
        WriteBothThenRemove(files, stage, bytes, path, bytes);
        r := Ok(());
    }

    method AddPage(frame: ScanFrame, io: PublishIo) returns (r: Result<string>)
      modifies this, disk
      ensures (Now(), r) == Apply(old(Now()), Op.AddPage(frame, io))
    {
      hide ValidateFrame, PublishMaster, KeepsFiles, PageId, MasterName;
      var check := ValidateFrame(frame);
      if check.Err? {
        return Err(check.error);
      }
      if |pages| >= MAX_PAGES {
        return Err("session page limit was reached");
      }
      var id := PageId(|pages| + 1);
      var page := DefaultPage(id, MasterName(id, 1), frame);
      var published := Publish(page.currentMaster, frame.bytes, io);
      if published.Err? {
        return Err(published.error);
      }
      pages := pages + [page];
      r := Ok(id);
    }

    /** The loop of reorder collects the pages by id. */
    method Reorder(ids: seq<string>) returns (r: Result<string>)
      modifies this
      ensures (Now(), r) == Apply(old(Now()), Op.Reorder(ids))
    {
      hide IndexOfPage;
      if |ids| != |pages| || |IdSet(ids)| != |pages| {
        return Err(BAD_ORDER);
      }
      var ordered: seq<Page> := [];
      assert ids[0..] == ids && (Collect(pages, ids).Ok? ==> [] + Collect(pages, ids).value == Collect(pages, ids).value);
      var i := 0;
      while i < |ids|
        invariant 0 <= i <= |ids| && pages == old(pages)
        invariant Collect(pages, ids) == PrependPages(ordered, Collect(pages, ids[i..]))
      {
        assert ids[i..][1..] == ids[i + 1..];
        var found := IndexOfPage(pages, ids[i]);
        if found.None? {
          return Err("page does not exist");
        }
        CollectStep(ordered, pages, ids[i..]);
        ordered := ordered + [pages[found.value]];
        i := i + 1;
      }
      assert ids[i..] == [] && ordered + [] == ordered;
      pages := ordered;
      r := Ok("");
    }

    method Rotate(id: string, degrees: U16) returns (r: Result<string>)
      modifies this
      ensures (Now(), r) == Apply(old(Now()), Op.Rotate(id, degrees))
    {
      hide IndexOfPage;
      if degrees != 90 && degrees != 180 && degrees != 270 {
        return Err("rotation must be 90, 180, or 270 degrees");
      }
      var found := IndexOfPage(pages, id);
      if found.None? {
        return Err("page does not exist");
      }
      var i := found.value;
      pages := pages[i := pages[i].(rotation := (pages[i].rotation + degrees) % 360)];
      r := Ok("");
    }

    method SetCrop(id: string, crop: CropRect) returns (r: Result<string>)
      modifies this
      ensures (Now(), r) == Apply(old(Now()), Op.SetCrop(id, crop))
    {
      hide IndexOfPage, CropInside;
      var found := IndexOfPage(pages, id);
      if found.None? {
        return Err("page does not exist");
      }
      var i := found.value;
      if !CropInside(crop, pages[i].width, pages[i].height) {
        return Err("crop must remain inside the master image");
      }
      pages := pages[i := pages[i].(crop := Some(crop))];
      r := Ok("");
    }

    method ClearCrop(id: string) returns (r: Result<string>)
      modifies this
      ensures (Now(), r) == Apply(old(Now()), Op.ClearCrop(id))
    {
      hide IndexOfPage;
      var found := IndexOfPage(pages, id);
      if found.None? {
        return Err("page does not exist");
      }
      pages := pages[found.value := pages[found.value].(crop := None)];
      r := Ok("");
    }

    method SetTone(id: string, brightness: I16, contrast: I16) returns (r: Result<string>)
      modifies this
      ensures (Now(), r) == Apply(old(Now()), Op.SetTone(id, brightness, contrast))
    {
      hide IndexOfPage;
      if brightness < -100 || brightness > 100 || contrast < -100 || contrast > 100 {
        return Err("brightness and contrast must be between -100 and 100");
      }
      var found := IndexOfPage(pages, id);
      if found.None? {
        return Err("page does not exist");
      }
      var i := found.value;
      pages := pages[i := pages[i].(brightness := brightness, contrast := contrast)];
      r := Ok("");
    }

    method SetIncluded(id: string, included: bool) returns (r: Result<string>)
      modifies this
      ensures (Now(), r) == Apply(old(Now()), Op.SetIncluded(id, included))
    {
      hide IndexOfPage;
      var found := IndexOfPage(pages, id);
      if found.None? {
        return Err("page does not exist");
      }
      pages := pages[found.value := pages[found.value].(included := included)];
      r := Ok("");
    }

    method Rescan(id: string, frame: ScanFrame, io: PublishIo) returns (r: Result<string>)
      modifies this, disk
      ensures (Now(), r) == Apply(old(Now()), Op.Rescan(id, frame, io))
    {
      hide ValidateFrame, PublishMaster, KeepsFiles, PageId, MasterName, IndexOfPage;
      var check := ValidateFrame(frame);
      if check.Err? {
        return Err(check.error);
      }
      var found := IndexOfPage(pages, id);
      if found.None? {
        return Err("page does not exist");
      }
      var page := pages[found.value];
      if page.revision == U32_MAX || |page.preservedMasters| >= MAX_HISTORY {
        return Err("page revision limit was reached");
      }
      var master := MasterName(page.id, page.revision + 1);
      var published := Publish(master, frame.bytes, io);
      if published.Err? {
        return Err(published.error);
      }
      pages := pages[found.value := RescannedPage(page, master, frame)];
      r := Ok("");
    }

    /** save leaves the session itself alone. */
    method Save(io: SaveIo) returns (r: Result<()>)
      modifies disk
      ensures (disk.files, r) == SaveOutcome(old(disk.files), View(), io)
      ensures forall d :: d in disk.crashes && d !in old(disk.crashes) ==> SaveMayLeave(old(disk.files), View(), d)
    {
      r := SessionStore.Save(disk, View(), io);
    }
  }

  function PrependPages(front: seq<Page>, r: Result<seq<Page>>): Result<seq<Page>> {
    match r
    case Ok(rest) => Ok(front + rest)
    case Err(_) => r
  }

  lemma CollectStep(front: seq<Page>, pages: seq<Page>, ids: seq<string>)
    requires ids != [] && IndexOfPage(pages, ids[0]).Some?
    ensures PrependPages(front, Collect(pages, ids))
            == PrependPages(front + [pages[IndexOfPage(pages, ids[0]).value]], Collect(pages, ids[1..]))
  {
    var rest := Collect(pages, ids[1..]);
    if rest.Ok? {
      var page := pages[IndexOfPage(pages, ids[0]).value];
      assert front + ([page] + rest.value) == front + [page] + rest.value;
    }
  }
}
