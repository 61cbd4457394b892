/** Naming and saving one downloaded image: the dated file name, the extension
    chosen from the sniffed format, the choice between writing the new bytes and
    linking to yesterday's identical image, and the "unchanged since" date read
    back from a link target. */
module Images {
  import opened Wrappers
  import opened Text
  import opened Calendar
  import opened Files

  /** `Pattern.IMG_TO_EXT`. */
  const ImgToExt: map<string, string> := map["PNG" := "png", "JPEG" := "jpg", "GIF" := "gif", "WEBP" := "webp"]

  /** The file extension for a format name reported by the image library. */
  function Extension(format: string): (ext: string)
    ensures format in ImgToExt ==> ext == ImgToExt[format]
    ensures format !in ImgToExt ==> ext == Lower(format)
  {
    if format in ImgToExt then ImgToExt[format] else Lower(format)
  }

  /** `'%04d-%02d-%02d-%s.%s' % (year, month, day, id, ext)`. */
  function ImageFilename(d: Date, id: string, ext: string): (name: string)
    requires ValidDate(d)
    ensures name != [] && IsDigit(name[0])
    ensures '/' !in id && '/' !in ext ==> '/' !in name
  {
    var y, m, dd := ZeroPad(d.year, 4), ZeroPad(d.month, 2), ZeroPad(d.day, 2);
    assert |y| == 4 && |m| == 2 && |dd| == 2 by {
      assert d.year < 10000 && d.month < 100 && d.day < 100;
      DecimalLength(d.year, 4);
      DecimalLength(d.month, 2);
      DecimalLength(d.day, 2);
    }
    var name := y + "-" + m + "-" + dd + "-" + id + "." + ext;
    assert '/' !in id && '/' !in ext ==> '/' !in name by {
      if '/' !in id && '/' !in ext {
        forall i | 0 <= i < |name| ensures name[i] != '/' {
          if i < 11 {
            assert name[i] == (y + "-" + m + "-" + dd + "-")[i];
          } else if i < 11 + |id| {
            assert name[i] == id[i - 11];
          } else if i > 11 + |id| {
            assert name[i] == ext[i - 12 - |id|];
          }
        }
      }
    }
    assert name[0] == y[0];
    name
  }

  lemma {:induction false} DecimalLength(n: nat, width: nat)
    requires 1 <= width && n < Pow10(width)
    ensures |NatToDecimal(n)| <= width
  {
    if n >= 10 {
      DecimalLength(n / 10, width - 1);
    }
  }

  function Pow10(k: nat): nat {
    if k == 0 then 1 else 10 * Pow10(k - 1)
  }

  /** What `unchanged_since` records: the date read from a link target, or, when
      the target does not start with a date, the file whose modification time is
      used instead. */
  datatype Since = SinceDate(date: Date) | SinceMtime(path: string)

  /** `datetime.date(*map(int, target.split('-')[:3]))`, falling back to the
      modification time of `prevFull` on any failure. */
  function ParseSince(target: string, prevFull: string): (s: Since)
    ensures s.SinceDate? ==> ValidDate(s.date)
    ensures s.SinceMtime? ==> s.path == prevFull
  {
    var f := SplitAll(target, '-');
    if |f| < 3 then SinceMtime(prevFull)
    else match (ParseInt(f[0]), ParseInt(f[1]), ParseInt(f[2]))
      case (Some(y), Some(m), Some(d)) =>
        if ValidDate(Date(y, m, d)) then SinceDate(Date(y, m, d)) else SinceMtime(prevFull)
      case _ => SinceMtime(prevFull)
  }

  /** A file name this program writes carries its own date back out. */
  lemma ParseSinceOfFilename(d: Date, id: string, ext: string, prevFull: string)
    requires ValidDate(d)
    ensures ParseSince(ImageFilename(d, id, ext), prevFull) == SinceDate(d)
  {
    FilenameFields(d, id, ext);
    ParseIntZeroPad(d.year, 4);
    ParseIntZeroPad(d.month, 2);
    ParseIntZeroPad(d.day, 2);
  }

  /** The first three `-`-separated fields of a file name are its zero-padded
      year, month and day. */
  lemma FilenameFields(d: Date, id: string, ext: string)
    requires ValidDate(d)
    ensures var f := SplitAll(ImageFilename(d, id, ext), '-');
      |f| >= 3 && f[0] == ZeroPad(d.year, 4) && f[1] == ZeroPad(d.month, 2) && f[2] == ZeroPad(d.day, 2)
  {
    var y, m, dd := ZeroPad(d.year, 4), ZeroPad(d.month, 2), ZeroPad(d.day, 2);
    var rest := id + "." + ext;
    assert ImageFilename(d, id, ext) == y + ['-'] + (m + ['-'] + (dd + ['-'] + rest));
    assert '-' !in y && '-' !in m && '-' !in dd by {
      assert forall i :: 0 <= i < |y| ==> IsDigit(y[i]);
      assert forall i :: 0 <= i < |m| ==> IsDigit(m[i]);
      assert forall i :: 0 <= i < |dd| ==> IsDigit(dd[i]);
    }
    SplitAllHead(dd, '-', rest);
    SplitAllHead(m, '-', dd + ['-'] + rest);
    SplitAllHead(y, '-', m + ['-'] + (dd + ['-'] + rest));
  }

  /** Different days never share a file name. */
  lemma ImageFilenameInjective(d1: Date, d2: Date, id: string, ext: string)
    requires ValidDate(d1) && ValidDate(d2)
    requires ImageFilename(d1, id, ext) == ImageFilename(d2, id, ext)
    ensures d1 == d2
  {
    ParseSinceOfFilename(d1, id, ext, "");
    ParseSinceOfFilename(d2, id, ext, "");
  }

  /** The paths `download_to` works with, inside the strip's directory. */
  function TodayPath(basedir: string, now: Date, id: string, ext: string): string
    requires ValidDate(now)
  {
    Join(basedir, ImageFilename(now, id, ext))
  }

  function YesterdayName(now: Date, id: string, ext: string): string
    requires ValidDate(now) && now != FirstDate
  {
    ImageFilename(Yesterday(now), id, ext)
  }

  function YesterdayPath(basedir: string, now: Date, id: string, ext: string): string
    requires ValidDate(now) && now != FirstDate
  {
    Join(basedir, YesterdayName(now, id, ext))
  }

  /** Today's and yesterday's paths are different entries. */
  lemma TodayIsNotYesterday(basedir: string, now: Date, id: string, ext: string)
    requires ValidDate(now) && now != FirstDate
    ensures TodayPath(basedir, now, id, ext) != YesterdayPath(basedir, now, id, ext)
  {
    var a, b := ImageFilename(now, id, ext), YesterdayName(now, id, ext);
    if Join(basedir, a) == Join(basedir, b) {
      JoinInjective(basedir, a, b);
      ImageFilenameInjective(now, Yesterday(now), id, ext);
    }
  }

  /** The filesystem after the save block of `download_to`, the recorded
      `unchanged_since`, and the error raised inside the block, if any. */
  datatype Saved = Saved(fs: Tree, since: Option<Since>, failure: Option<OsError>)

  /** `fs'` differs from `fs` at most at path `p`. */
  predicate OnlyAt(fs: Tree, fs': Tree, p: string) {
    && (forall k :: k in fs && k != p ==> k in fs' && fs'[k] == fs[k])
    && (forall k :: k in fs' && k != p ==> k in fs)
  }

  /** Yesterday's image has exactly today's bytes.  Today's entry is removed when
      it exists and is replaced by a link: to whatever yesterday's link points at
      when yesterday is itself a link (one hop collapsed), else to yesterday's
      file name. */
  function LinkToPrevious(fs: Tree, img: string, last: string, lastBase: string): (r: Saved)
    ensures OnlyAt(fs, r.fs, img)
    ensures r.failure.None? <==> r.since.Some?
    ensures r.failure.None? ==> IsLink(r.fs, img)
    ensures Exists(fs, img) && r.failure.Some? ==> img !in r.fs
  {
    var fs1 := if Exists(fs, img) then fs - {img} else fs;
    assert OnlyAt(fs, fs1, img);
    var target := if IsLink(fs1, last) then fs1[last].target else lastBase;
    var prevFull :=
      if !IsLink(fs1, last) then last
      else if target != [] && target[0] == '/' then target
      else Join(Dirname(last), target);
    match Symlink(fs1, target, img)
    case Err(e) => Saved(fs1, None, Some(e))
    case Ok(fs2) =>
      OnlyAtTrans(fs, fs1, fs2, img);
      Saved(fs2, Some(ParseSince(target, prevFull)), None)
  }

  lemma OnlyAtTrans(fs: Tree, fs1: Tree, fs2: Tree, p: string)
    requires OnlyAt(fs, fs1, p) && OnlyAt(fs1, fs2, p)
    ensures OnlyAt(fs, fs2, p)
  {
  }

  /** True when yesterday's image exists and holds exactly `data`. */
  predicate SameAsYesterday(fs: Tree, basedir: string, now: Date, id: string, ext: string, data: Bytes)
    requires ValidDate(now) && now != FirstDate
  {
    var last := YesterdayPath(basedir, now, id, ext);
    Exists(fs, last) && ReadThrough(fs, last) == data
  }

  /** The save block as the source writes it: new bytes are written with
      `open(img, 'wb')`, which follows a link already standing at today's path. */
  function SaveImageAsWritten(fs: Tree, basedir: string, now: Date, id: string, ext: string, data: Bytes): (r: Saved)
    requires ValidDate(now) && now != FirstDate
    ensures !IsLink(fs, TodayPath(basedir, now, id, ext)) ==> r == SaveImage(fs, basedir, now, id, ext, data)
  {
    var img := TodayPath(basedir, now, id, ext);
    if SameAsYesterday(fs, basedir, now, id, ext, data) then
      LinkToPrevious(fs, img, YesterdayPath(basedir, now, id, ext), YesterdayName(now, id, ext))
    else match WriteFile(fs, img, data)
      case Err(e) => Saved(fs, None, Some(e))
      case Ok(fs2) => Saved(fs2, None, None)
  }

  /** The save block with a link at today's path removed before the new bytes are
      written, so that writing today's image never changes another file. */
  function SaveImage(fs: Tree, basedir: string, now: Date, id: string, ext: string, data: Bytes): (r: Saved)
    requires ValidDate(now) && now != FirstDate
    ensures OnlyAt(fs, r.fs, TodayPath(basedir, now, id, ext))
    ensures r.since.Some? ==> SameAsYesterday(fs, basedir, now, id, ext, data) && r.failure.None?
  {
    var img := TodayPath(basedir, now, id, ext);
    if SameAsYesterday(fs, basedir, now, id, ext, data) then
      LinkToPrevious(fs, img, YesterdayPath(basedir, now, id, ext), YesterdayName(now, id, ext))
    else
      var fs1 := if IsLink(fs, img) then fs - {img} else fs;
      match WriteFile(fs1, img, data)
      case Err(e) => Saved(fs1, None, Some(e))
      case Ok(fs2) => Saved(fs2, None, None)
  }

  /** A directory path that `os.path.join` extends with a single `/`. */
  predicate PlainDir(dir: string) {
    dir != [] && dir[|dir| - 1] != '/'
  }

  /** Linking today's path to a regular file of yesterday's: the only change is
      the new link, and the date comes from yesterday's file name. */
  lemma LinkToPreviousFile(fs: Tree, img: string, last: string, lastBase: string)
    requires img != last && last in fs && fs[last].File? && lastBase != []
    requires img !in fs || Exists(fs, img)
    ensures LinkToPrevious(fs, img, last, lastBase) == Saved(fs[img := Link(lastBase)], Some(ParseSince(lastBase, last)), None)
  {
    var fs1 := if Exists(fs, img) then fs - {img} else fs;
    assert !IsLink(fs1, last) && img !in fs1;
    assert fs1[img := Link(lastBase)] == fs[img := Link(lastBase)];
  }

  /** Yesterday's identical image is a regular file: nothing is written, today's
      path becomes a link to yesterday's file name, reading today's path gives the
      same bytes, and the image counts as unchanged since yesterday. */
  lemma UnchangedImageIsLinked(fs: Tree, basedir: string, now: Date, id: string, ext: string, data: Bytes)
    requires ValidDate(now) && now != FirstDate
    requires PlainDir(basedir) && '/' !in id && '/' !in ext
    requires SameAsYesterday(fs, basedir, now, id, ext, data)
    requires !IsLink(fs, YesterdayPath(basedir, now, id, ext))
    requires var img := TodayPath(basedir, now, id, ext); img !in fs || Exists(fs, img)
    ensures var r := SaveImage(fs, basedir, now, id, ext, data);
      && r.failure == None
      && r.fs == fs[TodayPath(basedir, now, id, ext) := Link(YesterdayName(now, id, ext))]
      && r.since == Some(SinceDate(Yesterday(now)))
      && Exists(r.fs, TodayPath(basedir, now, id, ext))
      && ReadThrough(r.fs, TodayPath(basedir, now, id, ext)) == data
  {
    var img, last, lastBase := TodayPath(basedir, now, id, ext), YesterdayPath(basedir, now, id, ext), YesterdayName(now, id, ext);
    assert img != last by {
      TodayIsNotYesterday(basedir, now, id, ext);
    }
    assert last in fs && fs[last].File? by {
      ExistsIsEntry(fs, last);
    }
    assert Join(Dirname(img), lastBase) == last by {
      DirnameOfJoin(basedir, ImageFilename(now, id, ext));
    }
    assert ParseSince(lastBase, last) == SinceDate(Yesterday(now)) by {
      ParseSinceOfFilename(Yesterday(now), id, ext, last);
    }
    assert SaveImage(fs, basedir, now, id, ext, data) == LinkToPrevious(fs, img, last, lastBase);
    LinkToPreviousFile(fs, img, last, lastBase);
    LinkedFileReads(fs, img, last, lastBase);
    FileResolvesToItself(fs, last);
  }

  /** A new link at `img` naming the regular file `last` reads that file. */
  lemma LinkedFileReads(fs: Tree, img: string, last: string, lastBase: string)
    requires img != last && last in fs && fs[last].File? && Join(Dirname(img), lastBase) == last
    ensures Exists(fs[img := Link(lastBase)], img)
    ensures ReadThrough(fs[img := Link(lastBase)], img) == fs[last].data
  {
    LinkToFile(fs[img := Link(lastBase)], img, last);
  }

  /** Yesterday's identical image is itself a link: today's link points where
      yesterday's does, so the chain is collapsed by exactly one hop, and the date
      is read from that shared target. */
  lemma UnchangedLinkIsCollapsed(fs: Tree, basedir: string, now: Date, id: string, ext: string, data: Bytes)
    requires ValidDate(now) && now != FirstDate
    requires SameAsYesterday(fs, basedir, now, id, ext, data)
    requires IsLink(fs, YesterdayPath(basedir, now, id, ext))
    requires fs[YesterdayPath(basedir, now, id, ext)].target != []
    requires var img := TodayPath(basedir, now, id, ext); img !in fs || Exists(fs, img)
    ensures var r := SaveImage(fs, basedir, now, id, ext, data);
      var last := YesterdayPath(basedir, now, id, ext);
      var target := fs[last].target;
      && r.failure == None
      && r.fs == fs[TodayPath(basedir, now, id, ext) := Link(target)]
      && r.since == Some(ParseSince(target, if target[0] == '/' then target else Join(Dirname(last), target)))
  {
    TodayIsNotYesterday(basedir, now, id, ext);
    LinkToPreviousLink(fs, TodayPath(basedir, now, id, ext), YesterdayPath(basedir, now, id, ext), YesterdayName(now, id, ext));
  }

  /** Linking today's path to yesterday's link: the new link takes over
      yesterday's target. */
  lemma LinkToPreviousLink(fs: Tree, img: string, last: string, lastBase: string)
    requires img != last && IsLink(fs, last) && fs[last].target != []
    requires img !in fs || Exists(fs, img)
    ensures var target := fs[last].target;
      LinkToPrevious(fs, img, last, lastBase)
        == Saved(fs[img := Link(target)], Some(ParseSince(target, if target[0] == '/' then target else Join(Dirname(last), target))), None)
  {
    var fs1 := if Exists(fs, img) then fs - {img} else fs;
    assert fs1[last] == fs[last] && IsLink(fs1, last) && img !in fs1;
    assert fs1[img := Link(fs[last].target)] == fs[img := Link(fs[last].target)];
  }

  /** Today's bytes differ from yesterday's, or there is no yesterday: today's
      path holds exactly the new bytes, no other entry changes and nothing counts
      as unchanged. */
  lemma ChangedImageIsWritten(fs: Tree, basedir: string, now: Date, id: string, ext: string, data: Bytes)
    requires ValidDate(now) && now != FirstDate
    requires !SameAsYesterday(fs, basedir, now, id, ext, data)
    ensures SaveImage(fs, basedir, now, id, ext, data) == Saved(fs[TodayPath(basedir, now, id, ext) := File(data)], None, None)
  {
    var img := TodayPath(basedir, now, id, ext);
    var fs1 := if IsLink(fs, img) then fs - {img} else fs;
    assert Resolve(fs1, img, MaxSymlinks) == Some(img);
    assert fs1[img := File(data)] == fs[img := File(data)];
  }

  /** The source as written: when an earlier run today linked today's path to
      yesterday's file and today's new bytes differ, the write follows that link
      and yesterday's image is overwritten with today's bytes. */
  lemma AsWrittenOverwritesYesterday(fs: Tree, basedir: string, now: Date, id: string, ext: string, data: Bytes, previous: Bytes)
    requires ValidDate(now) && now != FirstDate
    requires PlainDir(basedir) && '/' !in id && '/' !in ext
    requires fs[YesterdayPath(basedir, now, id, ext) := File(previous)] == fs
    requires fs[TodayPath(basedir, now, id, ext) := Link(YesterdayName(now, id, ext))] == fs
    requires previous != data
    ensures var r := SaveImageAsWritten(fs, basedir, now, id, ext, data);
      r.failure == None && r.fs == fs[YesterdayPath(basedir, now, id, ext) := File(data)]
    ensures SaveImage(fs, basedir, now, id, ext, data).fs[YesterdayPath(basedir, now, id, ext)] == File(previous)
  {
    var img, last := TodayPath(basedir, now, id, ext), YesterdayPath(basedir, now, id, ext);
    TodayIsNotYesterday(basedir, now, id, ext);
    assert last in fs && fs[last] == File(previous);
    assert img in fs && fs[img] == Link(YesterdayName(now, id, ext));
    FileResolvesToItself(fs, last);
    DirnameOfJoin(basedir, ImageFilename(now, id, ext));
    assert Resolve(fs, img, MaxSymlinks) == Some(last) by {
      assert Join(Dirname(img), YesterdayName(now, id, ext)) == last;
    }
    ChangedImageIsWritten(fs, basedir, now, id, ext, data);
  }

  /** Two runs on consecutive days with identical bytes: the first writes the
      file, the second only links to it and reports the first day as the date
      the image has been unchanged since. */
  lemma ConsecutiveRunsWithSameBytes(fs: Tree, basedir: string, day: Date, id: string, ext: string, data: Bytes)
    requires ValidDate(day) && day != FirstDate && day != LastDate
    requires PlainDir(basedir) && '/' !in id && '/' !in ext
    requires !SameAsYesterday(fs, basedir, day, id, ext, data)
    requires var next := Tomorrow(day); TodayPath(basedir, next, id, ext) !in fs
    ensures var first := SaveImage(fs, basedir, day, id, ext, data);
      var next := Tomorrow(day);
      var second := SaveImage(first.fs, basedir, next, id, ext, data);
      && first.fs == fs[TodayPath(basedir, day, id, ext) := File(data)]
      && second.failure == None
      && second.fs == first.fs[TodayPath(basedir, next, id, ext) := Link(ImageFilename(day, id, ext))]
      && second.since == Some(SinceDate(day))
      && Exists(second.fs, TodayPath(basedir, next, id, ext))
      && ReadThrough(second.fs, TodayPath(basedir, next, id, ext)) == data
  {
    var next := Tomorrow(day);
    var img, img2 := TodayPath(basedir, day, id, ext), TodayPath(basedir, next, id, ext);
    var fs1 := fs[img := File(data)];
    assert SaveImage(fs, basedir, day, id, ext, data).fs == fs1 by {
      ChangedImageIsWritten(fs, basedir, day, id, ext, data);
    }
    assert YesterdayPath(basedir, next, id, ext) == img && YesterdayName(next, id, ext) == ImageFilename(day, id, ext)
      && Yesterday(next) == day by {
      YesterdayOfTomorrow(day);
    }
    assert img2 != img by {
      TodayIsNotYesterday(basedir, next, id, ext);
    }
    assert SameAsYesterday(fs1, basedir, next, id, ext, data) by {
      FileResolvesToItself(fs1, img);
    }
    UnchangedImageIsLinked(fs1, basedir, next, id, ext, data);
  }

  /** The linking half of the save block, on the filesystem object. */
  method LinkPrevious(fs: FileSystem, img: string, last: string, lastBase: string) returns (since: Option<Since>, failure: Option<OsError>)
    modifies fs
    ensures Saved(fs.entries, since, failure) == LinkToPrevious(old(fs.entries), img, last, lastBase)
  {
    if Exists(fs.entries, img) {
      ExistsIsEntry(fs.entries, img);
      fs.Unlink(img);
    }
    var target, prevFull;
    if IsLink(fs.entries, last) {
      target := fs.entries[last].target;
      prevFull := if target != [] && target[0] == '/' then target else Join(Dirname(last), target);
    } else {
      target := lastBase;
      prevFull := last;
    }
    var linked := fs.MakeSymlink(target, img);
    if linked.Fail? {
      return None, Some(linked.error);
    }
    return Some(ParseSince(target, prevFull)), None;
  }

  /** The save block of `download_to` on the filesystem object: link to
      yesterday's identical image, or write the new bytes. */
  method SaveTo(fs: FileSystem, basedir: string, now: Date, id: string, ext: string, data: Bytes)
    returns (since: Option<Since>, failure: Option<OsError>)
    requires ValidDate(now) && now != FirstDate
    modifies fs
    ensures Saved(fs.entries, since, failure) == SaveImage(old(fs.entries), basedir, now, id, ext, data)
  {
    var img := Join(basedir, ImageFilename(now, id, ext));
    var lastBase := ImageFilename(Yesterday(now), id, ext);
    var last := Join(basedir, lastBase);
    if Exists(fs.entries, last) {
      var oldData := ReadThrough(fs.entries, last);
      if oldData == data {
        since, failure := LinkPrevious(fs, img, last, lastBase);
        return;
      }
    }
    if IsLink(fs.entries, img) {
      fs.Unlink(img);
    }
    var written := fs.Write(img, data);
    // today's path is no longer a link, so the write lands there
    assert written.Pass?;
    return None, None;
  }
}
