# ZapVideo job pipeline: a Dafny model

ZapVideo is a small web service. It takes a video URL and runs the `yt-dlp` downloader in a fresh directory. It then finds the single file the downloader produced and remembers it under a generated id, so that later requests can fetch that file. This project models two parts of it and proves properties about them:

- **`VideoService`**, the job pipeline and its registry. It covers URL validation, provisioning of the base and unique directories, the downloader's argument list, the outcome of the download (start failure, interruption, timeout, non-zero exit, resolution failure, success), resolution of the output file with its space-to-underscore rename, the in-memory `videoPaths` map, and the batch entry point `processMultipleVideos`.
- **`HomeController`**'s response selection. It covers the redirect or error view of `processVideo` and `downloadPage`, the status and `Content-Disposition` header of `downloadFile`, `getFileExtension` and `isValidFilePath`.

Modules:

- `Wrappers`: `Option` (Java's null) and `Result`.
- `JavaText`: the `String` and `Integer.toString` operations the code uses, including Java's 32-bit `int`.
- `JavaFile`: `File.getAbsolutePath` (Unix resolution against the working directory) and `File.getName`.
- `Services`: the pipeline and registry. It holds the specification functions `ValidateUrl`, `BuildProcess`, `MediaFiles`, `NormalizeName`, `Resolution`, `Download` and `Submit`. It also holds the class `VideoService`, whose field `videoPaths` is the registry and whose methods (`FindDownloadedFile`, `ExecuteDownload`, `ProcessVideo`, `ProcessMultipleVideos`) are proved against those functions.
- `ServiceProperties`: lemmas about the pipeline and registry.
- `Controllers`: the controller's handlers as pure functions over the service's result, the registry map and the set of files on disk, with lemmas that connect them to the pipeline.

Nothing is executed. Everything the file system, the subprocess and `UUID.randomUUID` would answer during one `processVideo` call is an input, a `Host` value:

- whether each directory exists or can be made;
- the UUID that names the unique directory;
- how the process ended:
  - `StartFailed`: `start()` threw;
  - `Interrupted`: `waitFor` threw;
  - `TimedOut`;
  - `Exited(code)`;
- what `listFiles` returns, or null;
- whether `renameTo` succeeds;
- the second UUID, which becomes the id.

The JVM's working directory is the `workDir` of a `VideoService` object. The actions a call performs are returned in order as a trace of `Effect`s:

- `EnsureDir`: a directory is ensured;
- `Launch`: the command is started;
- `Kill`: the process is destroyed forcibly;
- `Rename`: a rename is attempted.

With the trace, "an invalid URL fails before any directory is made or any command is run" is a statement about an empty trace.

Facts about the code that the model keeps as they are:

- The returned id is a second UUID, independent of the UUID that names the unique directory (`VideoService.java` lines 88 and 136). Nothing ties the two together.
- URL validation is `startsWith("http")` only: no host allow-list, and "httpfoo" is accepted.
- More than one matching file is a hard failure, with the same message as zero files or a null listing.
- Errors from the download stage come back as ordinary strings, `"Error processing video: " + message`. They are not a distinguishable fault. The controller then uses such a string as an id.
- The registry has only `put` and `get` in the code. There is no remove or clear.
- Failures in validation or directory provisioning escape `processVideo` as unchecked exceptions. They are not returned.

## Model

| member | source | states |
|---|---|---|
| `JavaText.Replace` | src/main/java/com/john/zapvideo/services/VideoService.java:160 | `replace` keeps the length and replaces every occurrence of the target character, at every index, and nothing else |
| `JavaText.LastIndexOf` | src/main/java/com/john/zapvideo/controllers/HomeController.java:78 | -1 exactly when the character is absent; otherwise an index holding it with no occurrence after it |
| `JavaText.NatToString` | src/main/java/com/john/zapvideo/services/VideoService.java:132 | the decimal rendering is non-empty, all digits, and has no leading zero |
| `JavaText.IntToString` | src/main/java/com/john/zapvideo/services/VideoService.java:132 | the exit code's rendering starts with '-' exactly for negative codes and is digits otherwise, with no leading zero ("0" only for zero) |
| `JavaText.ParseNatToString` | src/main/java/com/john/zapvideo/services/VideoService.java:132 | reading the decimal rendering back gives the number |
| `JavaText.IntToStringRoundTrip` | src/main/java/com/john/zapvideo/services/VideoService.java:132 | reading the rendered exit code back gives the code, so the message determines it |
| `JavaFile.AbsolutePath` | src/main/java/com/john/zapvideo/controllers/HomeController.java:32-33 | an absolute path is kept, the empty path is the working directory, and a relative path is exactly the working directory, one separator and the path (no added separator when the working directory is "/") |
| `JavaFile.GetName` | src/main/java/com/john/zapvideo/controllers/HomeController.java:67 | the file name holds no '/', is a suffix of the path, and is preceded by a '/' when shorter than the path |
| `JavaFile.AbsolutePathIdempotent` | src/main/java/com/john/zapvideo/controllers/HomeController.java:32-33 | under an absolute working directory the result is absolute, and resolving it again gives the same path |
| `JavaFile.AbsolutePathKeepsName` | src/main/java/com/john/zapvideo/services/VideoService.java:164-171 | a plain file name resolved against any working directory is still what `getName` returns |
| `JavaFile.GetNameOfChild` | src/main/java/com/john/zapvideo/services/VideoService.java:164-171 | a name without separator joined to a directory is exactly what `getName` returns |
| `Services.ValidateUrl` | src/main/java/com/john/zapvideo/services/VideoService.java:61-65 | a URL passes exactly when it is non-null and its first four characters are "http"; otherwise IllegalArgumentException with "Invalid URL: " and the URL ("null" for null) |
| `Services.BuildProcess` | src/main/java/com/john/zapvideo/services/VideoService.java:104-111 | six arguments: yt-dlp, -f, mp4, -o, exactly the unique directory, '/' and "%(title)s.%(ext)s", and the URL last and unchanged |
| `Services.MediaFiles` | src/main/java/com/john/zapvideo/services/VideoService.java:157 | the filter keeps exactly the listed names ending in .mp4, .mkv or .webm, and never grows the listing |
| `Services.MediaFilesCounts` | src/main/java/com/john/zapvideo/services/VideoService.java:157 | each media name is kept exactly as many times as it is listed and every other name zero times, so the exactly-one test counts the listed media files |
| `Services.ExecutionMessage` | src/main/java/com/john/zapvideo/services/VideoService.java:28-31 | the message of `future.get()`'s ExecutionException starts with "java.lang.IllegalArgumentException: " or "java.lang.RuntimeException: ", matching the cause's class in both directions, and ends with the cause's message |
| `Services.NormalizeName` | src/main/java/com/john/zapvideo/services/VideoService.java:160 | same length, no space left, every space becomes '_' and every other character stays where it was |
| `Services.VideoService.constructor` | src/main/java/com/john/zapvideo/services/VideoService.java:10 | the registry starts empty |
| `Services.VideoService.GetFilePathById` | src/main/java/com/john/zapvideo/services/VideoService.java:212-214 | a registered id gives its path; an unknown id gives null |
| `Services.VideoService.FindDownloadedFile` | src/main/java/com/john/zapvideo/services/VideoService.java:155-175 | the method, with its reassigned file variable, computes the resolution result and rename trace of `Resolution` |
| `Services.VideoService.ExecuteDownload` | src/main/java/com/john/zapvideo/services/VideoService.java:120-146 | returns the id or the "Error processing video: " text of `Download`, performs its effects, and puts exactly its entry into `videoPaths` on success, leaving the map unchanged otherwise |
| `Services.VideoService.ProcessVideo` | src/main/java/com/john/zapvideo/services/VideoService.java:44-54 | returns or throws as `Submit` says, performs its effects in order, and updates the registry only through a successful download |
| `Services.VideoService.CollectResults` | src/main/java/com/john/zapvideo/services/VideoService.java:25-35 | one entry per task, in task order: the returned string, or "Error: " and the cause of the exception |
| `Services.VideoService.ProcessMultipleVideos` | src/main/java/com/john/zapvideo/services/VideoService.java:18-35 | the result has the length and order of `urls`, entry i belongs to task i, and the registry is the old one after each task's registration in turn |
| `ServiceProperties.ValidationExamples` | src/main/java/com/john/zapvideo/services/VideoService.java:61-65 | "https...", "httpfoo" and "http" pass; null, "", "HTTP://..." and "ftp://..." are refused |
| `ServiceProperties.InvalidUrlFailsFirst` | src/main/java/com/john/zapvideo/services/VideoService.java:44-50 | a refused URL throws with no directory ensured, no command launched, the host's answers unused and the registry unchanged |
| `ServiceProperties.CommandIsolatesUrl` | src/main/java/com/john/zapvideo/services/VideoService.java:104-111 | the first five arguments do not depend on the URL, and the last one is the URL itself |
| `ServiceProperties.NormalizeIdempotent` | src/main/java/com/john/zapvideo/services/VideoService.java:160 | normalising a normalised name changes nothing |
| `ServiceProperties.NormalizeFixesExactlySpaceless` | src/main/java/com/john/zapvideo/services/VideoService.java:160-163 | a name is unchanged by normalisation exactly when it has no space |
| `ServiceProperties.NormalizeKeepsSuffix` | src/main/java/com/john/zapvideo/services/VideoService.java:160 | a suffix without space or underscore is present after normalisation exactly when it was before |
| `ServiceProperties.NormalizeKeepsMedia` | src/main/java/com/john/zapvideo/services/VideoService.java:157-160 | normalisation keeps a name a media name, and makes no other name one |
| `ServiceProperties.ResolutionSucceedsExactly` | src/main/java/com/john/zapvideo/services/VideoService.java:155-174 | resolution succeeds exactly when the listing is non-null with one media name and, if that name has a space, the rename succeeds |
| `ServiceProperties.ResolutionNeedsExactlyOne` | src/main/java/com/john/zapvideo/services/VideoService.java:157-173 | zero media names, several, or a null listing all give the "No video file found or multiple files detected" error |
| `ServiceProperties.ResolvedFile` | src/main/java/com/john/zapvideo/services/VideoService.java:155-171 | the resolved path is the directory, '/', and the one listed media name normalised; that name has no space and keeps its media extension |
| `ServiceProperties.RenameOnlyWhenNeeded` | src/main/java/com/john/zapvideo/services/VideoService.java:162-169 | a rename from the listed name to the normalised one is attempted exactly when the name has a space, and a failed rename is an error |
| `ServiceProperties.TimeoutFails` | src/main/java/com/john/zapvideo/services/VideoService.java:125-128 | a timeout launches, then kills, and returns "Error processing video: Download process timed out." |
| `ServiceProperties.NonZeroExitFails` | src/main/java/com/john/zapvideo/services/VideoService.java:130-133 | a non-zero exit fails without touching the directory, with a message from which the exit code reads back |
| `ServiceProperties.DownloadSucceedsExactly` | src/main/java/com/john/zapvideo/services/VideoService.java:130-141 | a job registers exactly when the exit code is 0 and resolution succeeds, under the fresh id and the resolved path |
| `ServiceProperties.FailureKeepsRegistry` | src/main/java/com/john/zapvideo/services/VideoService.java:142-145 | a failed submission leaves the registry as it was; one that reached the download returns a string starting "Error processing video: " |
| `ServiceProperties.RejectionCauses` | src/main/java/com/john/zapvideo/services/VideoService.java:44-48 | `processVideo` throws exactly when the URL is refused or a directory cannot be provided |
| `ServiceProperties.SubmitSuccess` | src/main/java/com/john/zapvideo/services/VideoService.java:136-141 | on success the id is the second UUID, the file lies in the unique directory, the trace begins base dir, unique dir, launch of the built command, and the registry gains exactly id -> path with every other key unchanged |
| `ServiceProperties.RegisteredFileName` | src/main/java/com/john/zapvideo/services/VideoService.java:160-171 | the registered file's name is a listed media name normalised: no space, media extension kept |
| `ServiceProperties.RegisterAllKeys` | src/main/java/com/john/zapvideo/services/VideoService.java:18-35 | after a batch the registry's keys are the old keys plus exactly the ids of the successful tasks |
| `ServiceProperties.FailedBatchKeepsRegistry` | src/main/java/com/john/zapvideo/services/VideoService.java:18-35 | a batch in which no task succeeds leaves the registry unchanged |
| `ServiceProperties.TaskEntries` | src/main/java/com/john/zapvideo/services/VideoService.java:28-31 | a refused URL is listed as "Error: java.lang.IllegalArgumentException: Invalid URL: " and the URL, a directory that cannot be made as "Error: java.lang.RuntimeException: " and that directory's message |
| `ServiceProperties.DownloadTaskEntries` | src/main/java/com/john/zapvideo/services/VideoService.java:28 | a task that reached the download is listed as the id on success, otherwise as "Error processing video: " and the message, which does not start with the "Error: " of a task that threw |
| `ServiceProperties.ExecutionMessageInjective` | src/main/java/com/john/zapvideo/services/VideoService.java:29-31 | two exceptions with the same message text are the same exception, so a listed error names its cause |
| `Controllers.IsValidFilePath` | src/main/java/com/john/zapvideo/controllers/HomeController.java:28-35 | true exactly when the absolute path's first characters are "/root/downloads", a plain string prefix |
| `Controllers.IsWithinBaseDir` | src/main/java/com/john/zapvideo/controllers/HomeController.java:28-35 | the intended containment: the base directory itself or a path continuing it with '/'; it implies the prefix test |
| `Controllers.PrefixCheckAcceptsSibling` | src/main/java/com/john/zapvideo/controllers/HomeController.java:34 | "/root/downloadsX/video.mp4" passes the prefix test but is not within the base directory |
| `Controllers.ProcessView` | src/main/java/com/john/zapvideo/controllers/HomeController.java:47-52 | the "error" view with "Video processing failed" exactly for a null id; otherwise a redirect "redirect:/downloadPage?id=" from which the id reads back |
| `Controllers.ProcessVideo` | src/main/java/com/john/zapvideo/controllers/HomeController.java:39-53 | an exception of the service propagates, carrying that exception as its cause, exactly when the service threw; a returned string is used as the id and never gives the "error" view |
| `Controllers.DownloadPage` | src/main/java/com/john/zapvideo/controllers/HomeController.java:83-102 | the "error" view with "Video not found" exactly for an unknown id; otherwise "redirect:/download.html?id=" and the id |
| `Controllers.DownloadFile` | src/main/java/com/john/zapvideo/controllers/HomeController.java:56-75 | 500 for an unknown id, 404 for a registered path that does not exist, otherwise 200 serving that path with `attachment; filename="<name>"` |
| `Controllers.GetFileExtension` | src/main/java/com/john/zapvideo/controllers/HomeController.java:76-80 | "" when the name has no '.'; otherwise a text without '.' that the name ends with, after a '.' |
| `Controllers.ExtensionOfJoined` | src/main/java/com/john/zapvideo/controllers/HomeController.java:76-80 | a name made of a stem, '.' and an extension without '.' gives back that extension |
| `Controllers.MediaExtension` | src/main/java/com/john/zapvideo/controllers/HomeController.java:76-80 | every name that passes the media filter has extension mp4, mkv or webm |
| `Controllers.ProcessVideoNeverShowsError` | src/main/java/com/john/zapvideo/controllers/HomeController.java:38-53 | for every URL and host, `processVideo` either rethrows or redirects to the download page; the "error" view is unreachable |
| `Controllers.ErrorTextBecomesId` | src/main/java/com/john/zapvideo/controllers/HomeController.java:47-48 | a failed download's error text becomes the redirect's id, and the download page then shows "Video not found" and a download gives 500 |
| `Controllers.SuccessfulJobIsServed` | src/main/java/com/john/zapvideo/controllers/HomeController.java:56-69 | after a successful job the id redirects to the page, the page redirects to the static download page, and the file is served with 200 and a space-free media name in the header |
| `Controllers.DownloadServesName` | src/test/java/com/john/zapvideo/controllers/HomeControllerTest.java:53-64 | a registered, existing file `dir/name` is served with 200 and `attachment; filename="name"`, as the test expects for "/root/downloads/video_12345.mp4" |

## Left out

- Stream draining (`consumeStream`, two reader threads printing the process output) is not modelled. It is concurrency and console I/O and does not affect any result.
- The `CompletableFuture` tasks of `processMultipleVideos` run one after another in the model. An InterruptedException of `future.get()` itself (the caller's thread interrupted) is not modelled. The effects of the individual tasks are not collected into one trace, because the real tasks interleave.
- Process execution (`start`, the two-minute `waitFor`, `exitValue`, `destroyForcibly`) is the `ProcessOutcome` input plus the `Launch` and `Kill` effects. Wall-clock time is not modelled.
- File-system effects (`exists`, `mkdirs`, `listFiles`, `renameTo`) are `Host` inputs and `Effect`s. `getAbsolutePath` is the pure function `JavaFile.AbsolutePath` of the path and the object's `workDir`. `java.io.File`'s normalisation of duplicate or trailing separators is not modelled: paths are taken as already normal.
- `Controllers.DownloadFile` takes `File.exists` as membership of the path text in the set of existing files.
- `UUID.randomUUID` is the `dirUuid` and `idUuid` inputs, with no format constraint. The UUID-format assertion of the service test needs a live download and randomness, so it is not a property here.
- Spring types (`ResponseEntity`, `FileSystemResource`, `Model`), the MockMvc plumbing of the tests, the `URLEncoder.encode` whose result is only printed, and all console output are left out.
- `deleteVideo` in the controller is left out. It calls `deleteVideoById`, which, like the `addVideoPath` used by the service test, is not defined in `VideoService.java`, so it has no semantics to model.
- `UniqueDirectory.java` is left out. It is never used: an immutable pair of a directory and a uuid, with getters.
- `Controllers.GetFileExtension` takes the file name, i.e. `path.getFileName().toString()`. A path with no file name, where `getFileName()` is null and the call throws, is not modelled.
- The thread safety of the `ConcurrentHashMap` is not modelled: the registry is a map updated by one caller at a time.
- `Services.VideoService.GetFilePathById`: the id is a non-null string. `videoPaths.get(null)` throws NullPointerException on a `ConcurrentHashMap`; no modelled caller passes null, since the controller's `id` parameters are required.
- Strings are sequences of Unicode scalar values, while Java's are UTF-16 code units. For text with characters outside the Basic Multilingual Plane (emoji in a video title, say), Java's `lastIndexOf` returns an index that differs from `JavaText.LastIndexOf`'s. The strings that the model derives from these indices are the same.

## Findings

| source | as written | input that shows it | evidently intended | confidence | as-written member | corrected member |
|---|---|---|---|---|---|---|
| src/main/java/com/john/zapvideo/controllers/HomeController.java:34 | `absolutePath.startsWith("/root/downloads")`, a plain string-prefix test | "/root/downloadsX/video.mp4" is accepted although it lies outside the base directory | accept only the base directory itself or paths below it ("/root/downloads/...") | medium, not executed; the method is private and never called | `Controllers.IsValidFilePath` (counterexample: `Controllers.PrefixCheckAcceptsSibling`) | `Controllers.IsWithinBaseDir` |
