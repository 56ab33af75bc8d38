/** `download_image` (src/thumbnail_download.rs): fetching an image into the
    website's directory tree unless it is already there, and answering with
    its path relative to the website root. The file system is a set of
    directories and a map from saved thumbnail paths to the URL they were
    fetched from; the outcomes of the network fetch, of `create_dir_all` and
    of the JPEG save are inputs. */
module ThumbnailDownload {
  import opened Strings
  import opened Paths

  /** Console output: `Starting download`, `Successfully saved thumbnail`,
      the `Error saving thumbnail` line on stderr, and `Skipping already
      saved thumbnail`. */
  datatype LogLine = Starting(path: string) | Saved(path: string) | SaveFailed(path: string) | Skipped(path: string)

  /** The part of the world `download_image` sees and changes. */
  datatype Store = Store(files: map<string, string>, dirs: set<string>, fetched: seq<string>, log: seq<LogLine>)

  datatype Outcome = Outcome(store: Store, result: Result<string>)

  /** `save_path.exists()`: a file or a directory is there. */
  predicate Exists(s: Store, path: string) {
    path in s.files || path in s.dirs
  }

  /** `website_root.join(url_path.trim_start_matches("/"))`, and the path the
      caller gets back for it. */
  function SavePath(websiteRoot: string, urlPath: string): (p: string)
    ensures StripPrefix(p, websiteRoot) == Some(TrimLeadingSlashes(urlPath))
  {
    var trimmed := TrimLeadingSlashes(urlPath);
    StripPrefixOfJoin(websiteRoot, trimmed);
    Join(websiteRoot, trimmed)
  }

  /** `fs::create_dir_all(dir)` that succeeded. */
  function MakeDirs(s: Store, dir: string): (t: Store)
    ensures t == s.(dirs := s.dirs + DirChain(dir))
    ensures |dir| > 0 ==> dir in t.dirs
  {
    s.(dirs := s.dirs + DirChain(dir))
  }

  /** `save_with_format(save_path, Jpeg)`: on success the thumbnail is
      there, on failure only the error line is printed. A failed save is
      taken to write no file, although the library creates the file before
      it encodes. */
  function SaveThumbnail(s: Store, savePath: string, urlText: string, saveOk: bool): (t: Store)
    ensures t.dirs == s.dirs && t.fetched == s.fetched
    ensures saveOk ==> t.files == s.files[savePath := urlText] && t.log == s.log + [Saved(savePath)]
    ensures !saveOk ==> t.files == s.files && t.log == s.log + [SaveFailed(savePath)]
  {
    if saveOk then s.(files := s.files[savePath := urlText], log := s.log + [Saved(savePath)])
    else s.(log := s.log + [SaveFailed(savePath)])
  }

  /** What follows `Starting download`: the fetch, `parent().unwrap()`,
      `create_dir_all(..).unwrap()` and the save. */
  function FetchAndSave(started: Store, savePath: string, urlText: string, fetchOk: bool, createDirOk: bool, saveOk: bool, relative: string): (o: Outcome)
    ensures o.result.Err? <==> !fetchOk || Parent(savePath).None? || !createDirOk
    ensures o.result.Err? ==> o.store == started
    ensures o.result.Ok? ==>
      && o.result.value == relative
      && o.store == SaveThumbnail(MakeDirs(started, Parent(savePath).value), savePath, urlText, saveOk)
  {
    if !fetchOk then Outcome(started, Err(ImageFetchFailed))
    else
      match Parent(savePath)
      case None => Outcome(started, Err(NoParentDirectory))
      case Some(dir) =>
        if !createDirOk then Outcome(started, Err(CreateDirFailed))
        else Outcome(SaveThumbnail(MakeDirs(started, dir), savePath, urlText, saveOk), Ok(relative))
  }

  /** One call of `download_image` as a transition of the store. A panic
      keeps what happened before it: the `Starting download` line and the
      fetch are already done when the fetch, `parent().unwrap()` or
      `create_dir_all` fails. A failed save is only reported; the relative
      path is returned all the same. */
  function Download(s: Store, websiteRoot: string, imageUrl: Url, fetchOk: bool, createDirOk: bool, saveOk: bool): (o: Outcome)
    ensures o.result.Ok? ==> imageUrl.path.Some? && o.result.value == TrimLeadingSlashes(imageUrl.path.value)
    ensures imageUrl.path.None? ==> o == Outcome(s, Err(UnparseableUrl))
  {
    match imageUrl.path
    case None => Outcome(s, Err(UnparseableUrl))
    case Some(path) =>
      var savePath := SavePath(websiteRoot, path);
      DownloadAt(s, savePath, imageUrl.text, StripPrefix(savePath, websiteRoot).value, fetchOk, createDirOk, saveOk)
  }

  /** `download_image` once the save path and the relative path are known:
      skip what exists, otherwise print, fetch and save. */
  function DownloadAt(s: Store, savePath: string, urlText: string, relative: string, fetchOk: bool, createDirOk: bool, saveOk: bool): Outcome {
    if Exists(s, savePath) then Outcome(s.(log := s.log + [Skipped(savePath)]), Ok(relative))
    else
      var started := s.(log := s.log + [Starting(savePath)], fetched := s.fetched + [urlText]);
      FetchAndSave(started, savePath, urlText, fetchOk, createDirOk, saveOk, relative)
  }

  /** Whatever happens, nothing is lost and at least one line is printed. */
  lemma DownloadAtOnlyAdds(s: Store, savePath: string, urlText: string, relative: string, fetchOk: bool, createDirOk: bool, saveOk: bool)
    ensures var t := DownloadAt(s, savePath, urlText, relative, fetchOk, createDirOk, saveOk).store;
      && (forall f :: f in s.files ==> f in t.files && t.files[f] == s.files[f])
      && s.dirs <= t.dirs
      && |s.fetched| <= |t.fetched| && t.fetched[..|s.fetched|] == s.fetched
      && |s.log| < |t.log| && t.log[..|s.log|] == s.log
  {
    var t := DownloadAt(s, savePath, urlText, relative, fetchOk, createDirOk, saveOk).store;
    if Exists(s, savePath) {
      assert t.log[..|s.log|] == s.log;
    } else {
      var started := s.(log := s.log + [Starting(savePath)], fetched := s.fetched + [urlText]);
      FetchAndSaveOnlyAdds(started, savePath, urlText, fetchOk, createDirOk, saveOk, relative);
      assert started.fetched[..|s.fetched|] == s.fetched;
      assert t.log[..|started.log|][..|s.log|] == t.log[..|s.log|];
      assert started.log[..|s.log|] == s.log;
    }
  }

  /** What follows `Starting download` only adds to the store. */
  lemma FetchAndSaveOnlyAdds(started: Store, savePath: string, urlText: string, fetchOk: bool, createDirOk: bool, saveOk: bool, relative: string)
    requires savePath !in started.files
    ensures var t := FetchAndSave(started, savePath, urlText, fetchOk, createDirOk, saveOk, relative).store;
      && (forall f :: f in started.files ==> f in t.files && t.files[f] == started.files[f])
      && started.dirs <= t.dirs
      && t.fetched == started.fetched
      && |started.log| <= |t.log| && t.log[..|started.log|] == started.log
  {
    var o := FetchAndSave(started, savePath, urlText, fetchOk, createDirOk, saveOk, relative);
    if o.result.Ok? {
      assert o.store.log[..|started.log|] == started.log;
    }
  }

  /** A download only adds: no thumbnail, directory, fetch or log line is
      lost, and a saved thumbnail is never replaced. */
  lemma DownloadOnlyAdds(s: Store, websiteRoot: string, imageUrl: Url, fetchOk: bool, createDirOk: bool, saveOk: bool)
    ensures var t := Download(s, websiteRoot, imageUrl, fetchOk, createDirOk, saveOk).store;
      && (forall f :: f in s.files ==> f in t.files && t.files[f] == s.files[f])
      && s.dirs <= t.dirs
      && |s.fetched| <= |t.fetched| && t.fetched[..|s.fetched|] == s.fetched
      && |s.log| <= |t.log| && t.log[..|s.log|] == s.log
  {
    if imageUrl.path.Some? {
      var savePath := SavePath(websiteRoot, imageUrl.path.value);
      DownloadAtOnlyAdds(s, savePath, imageUrl.text, TrimLeadingSlashes(imageUrl.path.value), fetchOk, createDirOk, saveOk);
    } else {
      assert s.fetched[..|s.fetched|] == s.fetched && s.log[..|s.log|] == s.log;
    }
  }

  /** The CDN is asked exactly when the URL parses and nothing is at the save
      path yet. */
  lemma FetchOnlyWhenMissing(s: Store, websiteRoot: string, imageUrl: Url, fetchOk: bool, createDirOk: bool, saveOk: bool)
    ensures var t := Download(s, websiteRoot, imageUrl, fetchOk, createDirOk, saveOk).store;
      |t.fetched| == |s.fetched| + (if imageUrl.path.Some? && !Exists(s, SavePath(websiteRoot, imageUrl.path.value)) then 1 else 0)
  {
  }

  /** Once a thumbnail is saved, downloading the same URL again into the same
      website fetches nothing, changes no file and gives the same path. */
  lemma {:induction false} SecondDownloadSkips(s: Store, websiteRoot: string, imageUrl: Url, fetchOk: bool, createDirOk: bool, fetchOk2: bool, createDirOk2: bool, saveOk2: bool)
    requires Download(s, websiteRoot, imageUrl, fetchOk, createDirOk, true).result.Ok?
    ensures var first := Download(s, websiteRoot, imageUrl, fetchOk, createDirOk, true);
      var second := Download(first.store, websiteRoot, imageUrl, fetchOk2, createDirOk2, saveOk2);
      && second.result == first.result
      && second.store.fetched == first.store.fetched
      && second.store.files == first.store.files
      && second.store.dirs == first.store.dirs
  {
    var first := Download(s, websiteRoot, imageUrl, fetchOk, createDirOk, true);
    var savePath := SavePath(websiteRoot, imageUrl.path.value);
    assert Exists(first.store, savePath);
  }

  /** After a successful save, the thumbnail is at its save path, holding the
      image from its URL, and its directory and every ancestor exist. */
  lemma SavedThumbnailInPlace(s: Store, websiteRoot: string, imageUrl: Url, fetchOk: bool, createDirOk: bool)
    requires imageUrl.path.Some? && !Exists(s, SavePath(websiteRoot, imageUrl.path.value))
    requires Download(s, websiteRoot, imageUrl, fetchOk, createDirOk, true).result.Ok?
    ensures var t := Download(s, websiteRoot, imageUrl, fetchOk, createDirOk, true).store;
      var savePath := SavePath(websiteRoot, imageUrl.path.value);
      && savePath in t.files && t.files[savePath] == imageUrl.text
      && Parent(savePath).Some?
      && DirChain(Parent(savePath).value) <= t.dirs
      && t.log == s.log + [Starting(savePath)] + [Saved(savePath)]
  {
    var savePath := SavePath(websiteRoot, imageUrl.path.value);
    var relative := TrimLeadingSlashes(imageUrl.path.value);
    var started := s.(log := s.log + [Starting(savePath)], fetched := s.fetched + [imageUrl.text]);
    DownloadUnfolds(s, websiteRoot, imageUrl, fetchOk, createDirOk, true);
    assert DownloadAt(s, savePath, imageUrl.text, relative, fetchOk, createDirOk, true)
      == FetchAndSave(started, savePath, imageUrl.text, fetchOk, createDirOk, true, relative);
    SavedAfterStart(started, savePath, imageUrl.text, fetchOk, createDirOk, relative);
  }

  /** A parseable URL is downloaded to its save path under the website root. */
  lemma DownloadUnfolds(s: Store, websiteRoot: string, imageUrl: Url, fetchOk: bool, createDirOk: bool, saveOk: bool)
    requires imageUrl.path.Some?
    ensures Download(s, websiteRoot, imageUrl, fetchOk, createDirOk, saveOk)
      == DownloadAt(s, SavePath(websiteRoot, imageUrl.path.value), imageUrl.text,
                    TrimLeadingSlashes(imageUrl.path.value), fetchOk, createDirOk, saveOk)
  {
  }

  /** A successful save after `Starting download` has been printed. */
  lemma SavedAfterStart(started: Store, savePath: string, urlText: string, fetchOk: bool, createDirOk: bool, relative: string)
    requires FetchAndSave(started, savePath, urlText, fetchOk, createDirOk, true, relative).result.Ok?
    ensures var t := FetchAndSave(started, savePath, urlText, fetchOk, createDirOk, true, relative).store;
      && savePath in t.files && t.files[savePath] == urlText
      && Parent(savePath).Some?
      && DirChain(Parent(savePath).value) <= t.dirs
      && t.log == started.log + [Saved(savePath)]
  {
    var made := MakeDirs(started, Parent(savePath).value);
    assert FetchAndSave(started, savePath, urlText, fetchOk, createDirOk, true, relative).store
      == SaveThumbnail(made, savePath, urlText, true);
  }

  /** The two paths through a download of a parseable URL: an existing save
      path is only reported as skipped and answered with the relative path;
      otherwise the start is printed and the URL fetched, and the call panics
      exactly when the fetch fails, the path has no parent or the directory
      cannot be made, leaving the start line and the fetch behind. */
  lemma DownloadPaths(s: Store, websiteRoot: string, imageUrl: Url, fetchOk: bool, createDirOk: bool, saveOk: bool)
    requires imageUrl.path.Some?
    ensures var o := Download(s, websiteRoot, imageUrl, fetchOk, createDirOk, saveOk);
      var savePath := SavePath(websiteRoot, imageUrl.path.value);
      var started := s.(log := s.log + [Starting(savePath)], fetched := s.fetched + [imageUrl.text]);
      && (Exists(s, savePath) ==>
            o == Outcome(s.(log := s.log + [Skipped(savePath)]), Ok(TrimLeadingSlashes(imageUrl.path.value))))
      && (!Exists(s, savePath) ==>
            && (o.result.Err? <==> !fetchOk || Parent(savePath).None? || !createDirOk)
            && (o.result.Err? ==> o.store == started)
            && (o.result.Ok? ==> o.store == SaveThumbnail(MakeDirs(started, Parent(savePath).value), savePath, imageUrl.text, saveOk)))
  {
  }

  /** The website directory `download_image` works on. */
  class ThumbnailStore {
    var files: map<string, string>
    var dirs: set<string>
    var fetched: seq<string>
    var log: seq<LogLine>

    function Snapshot(): Store
      reads this
    {
      Store(files, dirs, fetched, log)
    }

    /** A website tree with the given thumbnails and directories. */
    constructor(existingFiles: map<string, string>, existingDirs: set<string>)
      ensures Snapshot() == Store(existingFiles, existingDirs, [], [])
    {
      files := existingFiles;
      dirs := existingDirs;
      fetched := [];
      log := [];
    }

    /** `download_image(website_root, image_url)` with the fetch, directory
        creation and save outcomes given. */
    method DownloadImage(websiteRoot: string, imageUrl: Url, fetchOk: bool, createDirOk: bool, saveOk: bool)
      returns (r: Result<string>)
      modifies this
      ensures Outcome(Snapshot(), r) == Download(old(Snapshot()), websiteRoot, imageUrl, fetchOk, createDirOk, saveOk)
    {
      if imageUrl.path.None? {
        return Err(UnparseableUrl);
      }
      ghost var before := Snapshot();
      var urlPath := TrimLeadingSlashes(imageUrl.path.value);
      StripPrefixOfJoin(websiteRoot, urlPath);
      var savePath := Join(websiteRoot, urlPath);
      assert savePath == SavePath(websiteRoot, imageUrl.path.value);
      assert Download(before, websiteRoot, imageUrl, fetchOk, createDirOk, saveOk) ==
        DownloadAt(before, savePath, imageUrl.text, urlPath, fetchOk, createDirOk, saveOk);
      if !(savePath in files || savePath in dirs) {
        log := log + [Starting(savePath)];
        fetched := fetched + [imageUrl.text];
        ghost var started := Snapshot();
        assert DownloadAt(before, savePath, imageUrl.text, urlPath, fetchOk, createDirOk, saveOk) ==
          FetchAndSave(started, savePath, imageUrl.text, fetchOk, createDirOk, saveOk, urlPath);
        if !fetchOk {
          return Err(ImageFetchFailed);
        }
        var parent := Parent(savePath);
        if parent.None? {
          return Err(NoParentDirectory);
        }
        if !createDirOk {
          return Err(CreateDirFailed);
        }
        dirs := dirs + DirChain(parent.value);
        assert Snapshot() == MakeDirs(started, parent.value);
        ghost var made := Snapshot();
        if saveOk {
          files := files[savePath := imageUrl.text];
          log := log + [Saved(savePath)];
        } else {
          log := log + [SaveFailed(savePath)];
        }
        assert Snapshot() == SaveThumbnail(made, savePath, imageUrl.text, saveOk);
      } else {
        log := log + [Skipped(savePath)];
      }
      r := Ok(StripPrefix(savePath, websiteRoot).value);
    }
  }
}
