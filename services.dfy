/**
  The video job pipeline of `VideoService`: URL validation, workspace provisioning,
  the downloader command, the outcome of the download, resolution of the single
  output file, and the in-memory registry from video id to file path.

  The file system, the subprocess and `UUID.randomUUID` are not executed: everything
  they would answer for one `processVideo` call is an input (a Host), and the
  actions the call would perform on them are returned, in order, as a trace of Effects.
*/
module Services {
  import opened Wrappers
  import opened JavaText
  import opened JavaFile

  /** `DOWNLOAD_DIR`: the base directory, relative to the working directory. */
  const DownloadDir := "downloads"
  const Downloader := "yt-dlp"
  const OutputTemplate := "%(title)s.%(ext)s"

  const ErrorPrefix := "Error processing video: "
  const InvalidUrlMessage := "Invalid URL: "
  const BaseDirMessage := "Failed to create base directory: "
  const UniqueDirMessage := "Failed to create unique directory: "
  const TimedOutMessage := "Download process timed out."
  const ExitCodeMessage := "Download failed with exit code: "
  const NoSingleFileMessage := "Error: No video file found or multiple files detected."
  const RenameFailedMessage := "Failed to rename the file."
  const TaskErrorPrefix := "Error: "
  /** The class names `toString` puts before an exception's message. */
  const IllegalArgumentName := "java.lang.IllegalArgumentException"
  const RuntimeName := "java.lang.RuntimeException"

  /** How the downloader subprocess ended, as `start`, `waitFor(2, MINUTES)` and `exitValue` report it. */
  datatype ProcessOutcome =
    | StartFailed(message: string)  // `start()` threw an IOException with this message
    | Interrupted(message: string)  // `waitFor` threw an InterruptedException with this message
    | TimedOut                      // `waitFor` returned false: the process is destroyed forcibly
    | Exited(code: int32)           // the process ended with this exit value

  /**
    What the environment answers during one `processVideo` call: whether the base
    directory exists or could be made, the UUID that names the unique directory and
    whether that directory exists or could be made, how the subprocess ends, what
    `listFiles` sees in the unique directory (None for Java's null), whether `renameTo`
    succeeds, and the second UUID that becomes the video id.
  */
  datatype Host = Host(
    baseDirReady: bool,
    dirUuid: string,
    uniqueDirReady: bool,
    outcome: ProcessOutcome,
    listing: Option<seq<string>>,
    renameOk: bool,
    idUuid: string)

  /** An action on the file system or on the subprocess, with absolute paths. */
  datatype Effect =
    | EnsureDir(path: string)              // `exists() || mkdirs()`
    | Launch(command: seq<string>)         // `ProcessBuilder.start()` with this argument list
    | Kill                                 // `destroyForcibly()`
    | Rename(source: string, target: string)  // `renameTo`, attempted

  /** The unchecked exceptions `processVideo` lets escape. */
  datatype JavaException = IllegalArgument(message: string) | Runtime(message: string)

  /** How a call of `processVideo` ends: a returned string or an escaping exception. */
  datatype Completion = Returned(value: string) | Threw(exception: JavaException)

  /** The outcome of `executeDownload`: an entry to register, or the message of the caught exception. */
  datatype Job = Registered(id: string, path: string) | Failed(message: string)

  /** How a submission ends: rejected before the download, or run through `executeDownload`. */
  datatype Submission = Rejected(exception: JavaException) | Ran(job: Job)

  /** A value together with the effects performed while computing it. */
  datatype Traced<T> = Traced(value: T, effects: seq<Effect>)

  /** Java's rendering of a possibly-null string in a concatenation. */
  function Show(s: Option<string>): string {
    match s
    case None => "null"
    case Some(v) => v
  }

  /**
    `validateUrl`: a null URL, an empty one, or one that does not start with "http" is
    refused with an IllegalArgumentException; anything else passes.
  */
  function ValidateUrl(url: Option<string>): (r: Option<JavaException>)
    ensures r.None? <==> url.Some? && |url.value| >= 4 && url.value[..4] == "http"
    ensures r.Some? ==> r.value == IllegalArgument(InvalidUrlMessage + Show(url))
  {
    if url.None? || url.value == "" || !StartsWith(url.value, "http") then
      Some(IllegalArgument(InvalidUrlMessage + Show(url)))
    else
      None
  }

  /** `buildProcess`: the downloader's argument list, with the URL as one final argument. */
  function BuildProcess(url: string, uniqueDir: string): (command: seq<string>)
    ensures |command| == 6
    ensures command[..4] == [Downloader, "-f", "mp4", "-o"]
    ensures command[4] == uniqueDir + Separator + OutputTemplate
    ensures StartsWith(command[4], uniqueDir + Separator) && EndsWith(command[4], OutputTemplate)
    ensures command[5] == url
  {
    [Downloader, "-f", "mp4", "-o", uniqueDir + Separator + OutputTemplate, url]
  }

  /** The `listFiles` filter: names ending, case-sensitively, in ".mp4", ".mkv" or ".webm". */
  predicate IsMediaName(name: string) {
    EndsWith(name, ".mp4") || EndsWith(name, ".mkv") || EndsWith(name, ".webm")
  }

  /** The listing kept by the filter, in listing order. */
  function MediaFiles(names: seq<string>): (r: seq<string>)
    ensures |r| <= |names|
    ensures forall x :: x in r ==> x in names && IsMediaName(x)
    ensures forall x :: x in names && IsMediaName(x) ==> x in r
  {
    if names == [] then []
    else if IsMediaName(names[0]) then [names[0]] + MediaFiles(names[1..])
    else MediaFiles(names[1..])
  }

  /** The filter keeps every media name as often as it is listed, and nothing else. */
  lemma {:induction false} MediaFilesCounts(names: seq<string>)
    ensures forall x :: multiset(MediaFiles(names))[x] == if IsMediaName(x) then multiset(names)[x] else 0
  {
    if names != [] {
      assert names == [names[0]] + names[1..];
      MediaFilesCounts(names[1..]);
    }
  }

  /** `getName().replace(" ", "_")`: every space becomes an underscore, nothing else moves. */
  function NormalizeName(name: string): (r: string)
    ensures |r| == |name|
    ensures ' ' !in r
    ensures forall i :: 0 <= i < |name| && name[i] != ' ' ==> r[i] == name[i]
    ensures forall i :: 0 <= i < |name| && name[i] == ' ' ==> r[i] == '_'
  {
    Replace(name, ' ', '_')
  }

  /**
    What `findDownloadedFile` computes for the unique directory `dir` (absolute): the
    absolute path of the single media file, renamed when its name has spaces, or the
    message of the IOException it throws.
  */
  function Resolution(dir: string, listing: Option<seq<string>>, renameOk: bool): Traced<Result<string, string>> {
    if listing.Some? && |MediaFiles(listing.value)| == 1 then
      var name := MediaFiles(listing.value)[0];
      var newName := NormalizeName(name);
      if newName != name then
        var rename := Rename(dir + Separator + name, dir + Separator + newName);
        if renameOk then Traced(Ok(dir + Separator + newName), [rename])
        else Traced(Err(RenameFailedMessage), [rename])
      else
        Traced(Ok(dir + Separator + name), [])
    else
      Traced(Err(NoSingleFileMessage), [])
  }

  /**
    What `executeDownload` computes: every caught exception becomes Failed with its
    message; a zero exit followed by a successful resolution registers the resolved
    path under the fresh id `h.idUuid`.
  */
  function Download(command: seq<string>, dir: string, h: Host): Traced<Job> {
    match h.outcome
    case StartFailed(m) => Traced(Failed(m), [])
    case Interrupted(m) => Traced(Failed(m), [Launch(command)])
    case TimedOut => Traced(Failed(TimedOutMessage), [Launch(command), Kill])
    case Exited(code) =>
      if code != 0 then Traced(Failed(ExitCodeMessage + IntToString(code)), [Launch(command)])
      else
        var f := Resolution(dir, h.listing, h.renameOk);
        match f.value
        case Ok(path) => Traced(Registered(h.idUuid, path), [Launch(command)] + f.effects)
        case Err(m) => Traced(Failed(m), [Launch(command)] + f.effects)
  }

  /** The string `executeDownload` returns: the id, or the error text. */
  function ResultText(job: Job): string {
    match job
    case Registered(id, _) => id
    case Failed(m) => ErrorPrefix + m
  }

  /** The registry after `executeDownload`: one `put` on success, untouched otherwise. */
  function Register(paths: map<string, string>, job: Job): map<string, string> {
    match job
    case Registered(id, path) => paths[id := path]
    case Failed(_) => paths
  }

  /** The base directory, resolved against the working directory. */
  function BaseDir(workDir: string): string {
    AbsolutePath(workDir, DownloadDir)
  }

  /** `baseDir + File.separator + uuid`, as `createUniqueDirectory` names it before resolving it. */
  function UniqueDirPath(dirUuid: string): string {
    DownloadDir + Separator + dirUuid
  }

  /** What `processVideo` does with `url`, run from working directory `workDir`. */
  function Submit(workDir: string, url: Option<string>, h: Host): Traced<Submission> {
    match ValidateUrl(url)
    case Some(e) => Traced(Rejected(e), [])
    case None =>
      var baseDir := BaseDir(workDir);
      if !h.baseDirReady then
        Traced(Rejected(Runtime(BaseDirMessage + baseDir)), [EnsureDir(baseDir)])
      else
        var uniqueDir := AbsolutePath(workDir, UniqueDirPath(h.dirUuid));
        if !h.uniqueDirReady then
          Traced(Rejected(Runtime(UniqueDirMessage + UniqueDirPath(h.dirUuid))), [EnsureDir(baseDir), EnsureDir(uniqueDir)])
        else
          var d := Download(BuildProcess(url.value, uniqueDir), uniqueDir, h);
          Traced(Ran(d.value), [EnsureDir(baseDir), EnsureDir(uniqueDir)] + d.effects)
  }

  /** The Java-level result of a submission. */
  function CompletionOf(s: Submission): Completion {
    match s
    case Rejected(e) => Threw(e)
    case Ran(job) => Returned(ResultText(job))
  }

  /** The registry after a submission. */
  function RegistryAfter(paths: map<string, string>, s: Submission): map<string, string> {
    match s
    case Rejected(_) => paths
    case Ran(job) => Register(paths, job)
  }

  /**
    `future.get()` rethrows an exception of the task as an ExecutionException whose
    message is the cause's `toString()`: its class name, ": ", its message.
  */
  function ExecutionMessage(e: JavaException): (r: string)
    ensures e.IllegalArgument? <==> StartsWith(r, IllegalArgumentName + ": ")
    ensures e.Runtime? <==> StartsWith(r, RuntimeName + ": ")
    ensures EndsWith(r, e.message)
  {
    match e
    case IllegalArgument(m) =>
      StartsWithConcat(IllegalArgumentName + ": ", m);
      assert (IllegalArgumentName + ": " + m)[10] == 'I' && (RuntimeName + ": ")[10] == 'R';
      IllegalArgumentName + ": " + m
    case Runtime(m) =>
      StartsWithConcat(RuntimeName + ": ", m);
      assert (RuntimeName + ": " + m)[10] == 'R' && (IllegalArgumentName + ": ")[10] == 'I';
      RuntimeName + ": " + m
  }

  /** The entry `processMultipleVideos` lists for one task. */
  function TaskEntry(c: Completion): string {
    match c
    case Returned(v) => v
    case Threw(e) => TaskErrorPrefix + ExecutionMessage(e)
  }

  /** The registry after the submissions of `urls`, taken in order, each with its own Host. */
  function RegisterAll(paths: map<string, string>, workDir: string, urls: seq<Option<string>>, hosts: seq<Host>): map<string, string>
    requires |hosts| == |urls|
    decreases |urls|
  {
    if urls == [] then paths
    else
      var n := |urls| - 1;
      RegistryAfter(RegisterAll(paths, workDir, urls[..n], hosts[..n]), Submit(workDir, urls[n], hosts[n]).value)
  }

  /** One more submission extends RegisterAll by one step. */
  lemma RegisterAllStep(paths: map<string, string>, workDir: string, urls: seq<Option<string>>, hosts: seq<Host>, i: nat)
    requires |hosts| == |urls| && i < |urls|
    ensures RegisterAll(paths, workDir, urls[..i + 1], hosts[..i + 1])
         == RegistryAfter(RegisterAll(paths, workDir, urls[..i], hosts[..i]), Submit(workDir, urls[i], hosts[i]).value)
  {
    assert urls[..i + 1][..i] == urls[..i];
    assert hosts[..i + 1][..i] == hosts[..i];
  }

  /** `videoPaths.get(id)`: the registered path, or null. */
  function Lookup(paths: map<string, string>, id: string): Option<string> {
    if id in paths then Some(paths[id]) else None
  }

  /**
    The service with its registry. Java keeps `videoPaths` in a static map; here one
    object holds it, and `workDir` is the JVM's working directory.
  */
  class VideoService {
    const workDir: string
    var videoPaths: map<string, string>

    constructor (workDir: string)
      ensures this.workDir == workDir
      ensures videoPaths == map[]
    {
      this.workDir := workDir;
      videoPaths := map[];
    }

    /** `getFilePathById`: the registered path, or null for an unknown id. */
    function GetFilePathById(id: string): (r: Option<string>)
      reads this
      ensures r.Some? <==> id in videoPaths
      ensures r.Some? ==> r.value == videoPaths[id]
    {
      Lookup(videoPaths, id)
    }

    /** `findDownloadedFile` on the unique directory `dir` (absolute). */
    static method FindDownloadedFile(dir: string, listing: Option<seq<string>>, renameOk: bool)
      returns (r: Result<string, string>, effects: seq<Effect>)
      ensures Traced(r, effects) == Resolution(dir, listing, renameOk)
    {
      effects := [];
      if listing.Some? && |MediaFiles(listing.value)| == 1 {
        var files := MediaFiles(listing.value);
        var videoFile := dir + Separator + files[0];
        var newFileName := NormalizeName(files[0]);
        if newFileName != files[0] {
          var renamedFile := dir + Separator + newFileName;
          effects := effects + [Rename(videoFile, renamedFile)];
          if !renameOk {
            r := Err(RenameFailedMessage);
            return;
          }
          videoFile := renamedFile;
        }
        r := Ok(videoFile);
      } else {
        r := Err(NoSingleFileMessage);
      }
    }

    /** `executeDownload`: runs `command`, resolves the output in `dir`, registers it. */
    method ExecuteDownload(command: seq<string>, dir: string, h: Host) returns (r: string, effects: seq<Effect>)
      modifies this
      ensures r == ResultText(Download(command, dir, h).value)
      ensures effects == Download(command, dir, h).effects
      ensures videoPaths == Register(old(videoPaths), Download(command, dir, h).value)
    {
      effects := [];
      var failure: Option<string> := None;
      match h.outcome {
        case StartFailed(m) =>
          failure := Some(m);
        case Interrupted(m) =>
          effects := effects + [Launch(command)];
          failure := Some(m);
        case TimedOut =>
          effects := effects + [Launch(command), Kill];
          failure := Some(TimedOutMessage);
        case Exited(code) =>
          effects := effects + [Launch(command)];
          if code != 0 {
            failure := Some(ExitCodeMessage + IntToString(code));
          } else {
            var found, renames := FindDownloadedFile(dir, h.listing, h.renameOk);
            effects := effects + renames;
            match found {
              case Err(m) =>
                failure := Some(m);
              case Ok(filePath) =>
                var videoId := h.idUuid;
                videoPaths := videoPaths[videoId := filePath];
                r := videoId;
            }
          }
      }
      if failure.Some? {
        r := ErrorPrefix + failure.value;
      }
    }

    /** `processVideo`: validate, provision the workspace, build the command, download. */
    method ProcessVideo(url: Option<string>, h: Host) returns (c: Completion, effects: seq<Effect>)
      modifies this
      ensures c == CompletionOf(Submit(workDir, url, h).value)
      ensures effects == Submit(workDir, url, h).effects
      ensures videoPaths == RegistryAfter(old(videoPaths), Submit(workDir, url, h).value)
    {
      var invalid := ValidateUrl(url);
      if invalid.Some? {
        return Threw(invalid.value), [];
      }
      var baseDir := BaseDir(workDir);
      effects := [EnsureDir(baseDir)];
      if !h.baseDirReady {
        return Threw(Runtime(BaseDirMessage + baseDir)), effects;
      }
      var uniqueDirPath := UniqueDirPath(h.dirUuid);
      var uniqueDir := AbsolutePath(workDir, uniqueDirPath);
      effects := effects + [EnsureDir(uniqueDir)];
      if !h.uniqueDirReady {
        return Threw(Runtime(UniqueDirMessage + uniqueDirPath)), effects;
      }
      var command := BuildProcess(url.value, uniqueDir);
      var id, downloadEffects := ExecuteDownload(command, uniqueDir, h);
      c := Returned(id);
      effects := effects + downloadEffects;
    }

    /** The second loop of `processMultipleVideos`: each task's outcome becomes its entry, in order. */
    static method CollectResults(futures: seq<Completion>) returns (downloadedVideos: seq<string>)
      ensures |downloadedVideos| == |futures|
      ensures forall k :: 0 <= k < |futures| ==> downloadedVideos[k] == TaskEntry(futures[k])
    {
      downloadedVideos := [];
      for j := 0 to |futures|
        invariant |downloadedVideos| == j
        invariant forall k :: 0 <= k < j ==> downloadedVideos[k] == TaskEntry(futures[k])
      {
        match futures[j] {
          case Returned(v) =>
            downloadedVideos := downloadedVideos + [v];
          case Threw(e) =>
            downloadedVideos := downloadedVideos + [TaskErrorPrefix + ExecutionMessage(e)];
        }
      }
    }

    /**
      `processMultipleVideos`, with the tasks run one after another: the first loop runs
      each task, the second (CollectResults) turns each outcome into its entry.
    */
    method ProcessMultipleVideos(urls: seq<Option<string>>, hosts: seq<Host>) returns (downloadedVideos: seq<string>)
      requires |hosts| == |urls|
      modifies this
      ensures |downloadedVideos| == |urls|
      ensures forall i :: 0 <= i < |urls| ==>
                downloadedVideos[i] == TaskEntry(CompletionOf(Submit(workDir, urls[i], hosts[i]).value))
      ensures videoPaths == RegisterAll(old(videoPaths), workDir, urls, hosts)
    {
      var futures: seq<Completion> := [];
      var i := 0;
      while i < |urls|
        invariant 0 <= i <= |urls|
        invariant |futures| == i
        invariant forall k :: 0 <= k < i ==> futures[k] == CompletionOf(Submit(workDir, urls[k], hosts[k]).value)
        invariant videoPaths == RegisterAll(old(videoPaths), workDir, urls[..i], hosts[..i])
      {
        RegisterAllStep(old(videoPaths), workDir, urls, hosts, i);
        var c, _ := ProcessVideo(urls[i], hosts[i]);
        futures := futures + [c];
        i := i + 1;
      }
      assert urls[..i] == urls && hosts[..i] == hosts;

      downloadedVideos := CollectResults(futures);
    }
  }
}
