/**
  The response selection of `HomeController`: which view or redirect each endpoint
  returns, the `Content-Disposition` header, and its two string helpers. The
  registry is passed in as the map it holds and the disk as the set of paths that exist.
*/
module Controllers {
  import opened Wrappers
  import opened JavaText
  import opened JavaFile
  import Services
  import ServiceProperties

  /** `BASE_DIR`. */
  const BaseDirectory := "/root/downloads"
  const ProcessRedirect := "redirect:/downloadPage?id="
  const PageRedirect := "redirect:/download.html?id="
  const ErrorView := "error"
  const ProcessingFailed := "Video processing failed"
  const VideoNotFound := "Video not found"

  const StatusOk := 200
  const StatusNotFound := 404
  const StatusServerError := 500

  /** A view name, with the "error" attribute the handler put into the model, if any. */
  datatype View = View(name: string, error: Option<string>)

  /** A handler either renders a view or lets an exception escape to the framework. */
  datatype Handled = Rendered(view: View) | Propagated(cause: Services.JavaException)

  /** A response: status, `Content-Disposition` header, and the file served as body. */
  datatype Response = Response(status: int, contentDisposition: Option<string>, file: Option<string>)

  /**
    `isValidFilePath`: the absolute form of the path, taken against the working
    directory, starts with `BASE_DIR` as a plain string.
  */
  function IsValidFilePath(workDir: string, filePath: string): (r: bool)
    ensures r <==> var abs := AbsolutePath(workDir, filePath);
                   |abs| >= |BaseDirectory| && abs[..|BaseDirectory|] == BaseDirectory
  {
    StartsWith(AbsolutePath(workDir, filePath), BaseDirectory)
  }

  /** The containment test `isValidFilePath` stands for: `BASE_DIR` itself or a path below it. */
  function IsWithinBaseDir(workDir: string, filePath: string): (r: bool)
    ensures r ==> IsValidFilePath(workDir, filePath)
    ensures r <==> var abs := AbsolutePath(workDir, filePath);
                   abs == BaseDirectory || (|abs| > |BaseDirectory| && StartsWith(abs, BaseDirectory) && abs[|BaseDirectory|] == '/')
  {
    var abs := AbsolutePath(workDir, filePath);
    StartsWithExtended(abs, BaseDirectory, '/');
    abs == BaseDirectory || StartsWith(abs, BaseDirectory + Separator)
  }

  /** The plain prefix test also accepts a sibling directory whose name merely begins with "downloads". */
  lemma PrefixCheckAcceptsSibling(workDir: string)
    ensures IsValidFilePath(workDir, "/root/downloadsX/video.mp4")
    ensures !IsWithinBaseDir(workDir, "/root/downloadsX/video.mp4")
  {
    assert StartsWith("/root/downloadsX/video.mp4", Separator);
    assert "/root/downloadsX/video.mp4"[..|BaseDirectory|] == BaseDirectory;
    assert "/root/downloadsX/video.mp4"[|BaseDirectory|] == 'X';
  }

  /** `processVideo`, lines after the service call: a non-null id redirects, null renders the error view. */
  function ProcessView(id: Option<string>): (v: View)
    ensures v.name == ErrorView <==> id.None?
    ensures id.None? ==> v.error == Some(ProcessingFailed)
    ensures id.Some? ==> v.error.None? && StartsWith(v.name, ProcessRedirect) && v.name[|ProcessRedirect|..] == id.value
  {
    match id
    case Some(v) =>
      StartsWithConcat(ProcessRedirect, v);
      View(ProcessRedirect + v, None)
    case None => View(ErrorView, Some(ProcessingFailed))
  }

  /** `processVideo`: an exception of the service is rethrown wrapped; a returned string is used as the id. */
  function ProcessVideo(result: Services.Completion): (r: Handled)
    ensures r.Propagated? <==> result.Threw?
    ensures result.Threw? ==> r.cause == result.exception
    ensures result.Returned? ==> r.view == ProcessView(Some(result.value)) && r.view.name != ErrorView
  {
    match result
    case Threw(e) => Propagated(e)
    case Returned(id) => Rendered(ProcessView(Some(id)))
  }

  /** `downloadPage`: the error view for an unknown id, otherwise a redirect carrying the id. */
  function DownloadPage(paths: map<string, string>, id: string): (v: View)
    ensures v.name == ErrorView <==> id !in paths
    ensures id !in paths ==> v.error == Some(VideoNotFound)
    ensures id in paths ==> v == View(PageRedirect + id, None)
  {
    match Services.Lookup(paths, id)
    case None => View(ErrorView, Some(VideoNotFound))
    case Some(_) => View(PageRedirect + id, None)
  }

  /** The header value naming the file to save. */
  function ContentDisposition(name: string): string {
    "attachment; filename=\"" + name + "\""
  }

  /**
    `downloadFile`: an unknown id makes `new File(null)` throw, which the generic
    handler turns into 500; a registered path that does not exist is 404; otherwise
    the file is served with its name in the header.
  */
  function DownloadFile(paths: map<string, string>, id: string, onDisk: set<string>): (r: Response)
    ensures id !in paths ==> r == Response(StatusServerError, None, None)
    ensures id in paths && paths[id] !in onDisk ==> r == Response(StatusNotFound, None, None)
    ensures id in paths && paths[id] in onDisk ==>
              r.status == StatusOk && r.file == Some(paths[id]) &&
              r.contentDisposition == Some(ContentDisposition(GetName(paths[id])))
  {
    match Services.Lookup(paths, id)
    case None => Response(StatusServerError, None, None)
    case Some(filePath) =>
      if filePath !in onDisk then Response(StatusNotFound, None, None)
      else Response(StatusOk, Some(ContentDisposition(GetName(filePath))), Some(filePath))
  }

  /** `getFileExtension` on the file name: the text after the last '.', or "" when there is none. */
  function GetFileExtension(fileName: string): (r: string)
    ensures '.' !in fileName ==> r == ""
    ensures '.' in fileName ==> '.' !in r && EndsWith(fileName, "." + r)
  {
    var dotIndex := LastIndexOf(fileName, '.');
    if dotIndex == -1 then "" else fileName[dotIndex + 1..]
  }

  /** The extension joined to a name with a dot is read back. */
  lemma ExtensionOfJoined(stem: string, ext: string)
    requires '.' !in ext
    ensures GetFileExtension(stem + "." + ext) == ext
  {
    var name := stem + "." + ext;
    assert name[|stem|] == '.';
    assert name[|stem| + 1..] == ext;
  }

  /** A name that passes the media filter has extension "mp4", "mkv" or "webm". */
  lemma MediaExtension(name: string)
    requires Services.IsMediaName(name)
    ensures GetFileExtension(name) in ["mp4", "mkv", "webm"]
  {
    if EndsWith(name, ".mp4") {
      assert name == name[..|name| - 4] + "." + "mp4";
      ExtensionOfJoined(name[..|name| - 4], "mp4");
    } else if EndsWith(name, ".mkv") {
      assert name == name[..|name| - 4] + "." + "mkv";
      ExtensionOfJoined(name[..|name| - 4], "mkv");
    } else {
      assert name == name[..|name| - 5] + "." + "webm";
      ExtensionOfJoined(name[..|name| - 5], "webm");
    }
  }

  /**
    The error view of `processVideo` is never reached: the service never returns null,
    so every run that returns redirects, error strings included.
  */
  lemma ProcessVideoNeverShowsError(workDir: string, url: Option<string>, h: Services.Host)
    ensures var handled := ProcessVideo(Services.CompletionOf(Services.Submit(workDir, url, h).value));
            handled.Propagated? ||
            (handled.view.error.None? && StartsWith(handled.view.name, ProcessRedirect) && handled.view.name != ErrorView)
  {
  }

  /**
    A failed download's error text is used as the id of the redirect; looked up,
    it finds nothing (unless some entry happens to have that key), so the download
    page shows "Video not found" and the download is a 500.
  */
  lemma ErrorTextBecomesId(workDir: string, url: Option<string>, h: Services.Host, paths: map<string, string>, m: string, onDisk: set<string>)
    requires Services.Submit(workDir, url, h).value == Services.Ran(Services.Failed(m))
    requires Services.ErrorPrefix + m !in paths
    ensures ProcessVideo(Services.CompletionOf(Services.Submit(workDir, url, h).value))
              == Rendered(View(ProcessRedirect + (Services.ErrorPrefix + m), None))
    ensures var after := Services.RegistryAfter(paths, Services.Submit(workDir, url, h).value);
            && DownloadPage(after, Services.ErrorPrefix + m) == View(ErrorView, Some(VideoNotFound))
            && DownloadFile(after, Services.ErrorPrefix + m, onDisk).status == StatusServerError
  {
    var s := Services.Submit(workDir, url, h).value;
    assert Services.CompletionOf(s) == Services.Returned(Services.ErrorPrefix + m);
    assert Services.RegistryAfter(paths, s) == paths;
  }

  /**
    End to end: after a successful submission the controller redirects with the id,
    the download page redirects to the static page, and the file, once on disk, is
    served with a space-free media name in the header.
  */
  lemma SuccessfulJobIsServed(workDir: string, url: Option<string>, h: Services.Host, paths: map<string, string>,
                              onDisk: set<string>, id: string, path: string)
    requires Services.Submit(workDir, url, h).value == Services.Ran(Services.Registered(id, path))
    requires forall x :: x in h.listing.value ==> '/' !in x
    requires path in onDisk
    ensures ProcessVideo(Services.CompletionOf(Services.Submit(workDir, url, h).value)) == Rendered(View(ProcessRedirect + id, None))
    ensures var after := Services.RegistryAfter(paths, Services.Submit(workDir, url, h).value);
            && DownloadPage(after, id) == View(PageRedirect + id, None)
            && DownloadFile(after, id, onDisk) == Response(StatusOk, Some(ContentDisposition(GetName(path))), Some(path))
    ensures ' ' !in GetName(path)
    ensures GetFileExtension(GetName(path)) in ["mp4", "mkv", "webm"]
  {
    ServiceProperties.RegisteredFileName(workDir, url, h, id, path);
    MediaExtension(GetName(path));
  }

  /** A registered file that exists is served under its own name, whatever directory holds it. */
  lemma DownloadServesName(dir: string, name: string, id: string)
    requires '/' !in name
    ensures var path := dir + Separator + name;
            DownloadFile(map[id := path], id, {path}) == Response(StatusOk, Some(ContentDisposition(name)), Some(path))
  {
    GetNameOfChild(dir, name);
  }
}
