/** Properties of the job pipeline and registry modelled in Services. */
module ServiceProperties {
  import opened Wrappers
  import opened JavaText
  import opened JavaFile
  import opened Services

  // ---------------------------------------------------------------- validation

  /** "https..." and even "httpfoo" pass; null, the empty URL and other schemes do not (case-sensitively). */
  lemma ValidationExamples()
    ensures ValidateUrl(Some("https://www.youtube.com/watch?v=x")).None?
    ensures ValidateUrl(Some("httpfoo")).None?
    ensures ValidateUrl(Some("http")).None?
    ensures ValidateUrl(None) == Some(IllegalArgument("Invalid URL: null"))
    ensures ValidateUrl(Some("")).Some?
    ensures ValidateUrl(Some("HTTP://example.com")).Some?
    ensures ValidateUrl(Some("ftp://example.com")).Some?
  {
    assert "https://www.youtube.com/watch?v=x"[..4] == "http";
    assert "httpfoo"[..4] == "http";
    assert "HTTP://example.com"[0] != 'h';
    assert "ftp://example.com"[0] != 'h';
    assert InvalidUrlMessage + Show(None) == "Invalid URL: null";
  }

  /**
    A refused URL fails before anything else: no directory is ensured, no command is
    built or launched, the registry is untouched, and what the host would have
    answered plays no part.
  */
  lemma InvalidUrlFailsFirst(workDir: string, url: Option<string>, h: Host, paths: map<string, string>)
    requires ValidateUrl(url).Some?
    ensures Submit(workDir, url, h) == Traced(Rejected(IllegalArgument(InvalidUrlMessage + Show(url))), [])
    ensures CompletionOf(Submit(workDir, url, h).value) == Threw(IllegalArgument(InvalidUrlMessage + Show(url)))
    ensures RegistryAfter(paths, Submit(workDir, url, h).value) == paths
  {
  }

  // ---------------------------------------------------------------- command

  /**
    The URL is one discrete argument: whatever it holds, the first five arguments do
    not depend on it and the last one is the URL unchanged.
  */
  lemma CommandIsolatesUrl(url1: string, url2: string, uniqueDir: string)
    ensures BuildProcess(url1, uniqueDir)[..5] == BuildProcess(url2, uniqueDir)[..5]
    ensures BuildProcess(url1, uniqueDir)[5] == url1
  {
  }

  // ---------------------------------------------------------------- name normalisation

  /** Normalising twice is normalising once. */
  lemma {:induction false} NormalizeIdempotent(name: string)
    ensures NormalizeName(NormalizeName(name)) == NormalizeName(name)
  {
    var once := NormalizeName(name);
    assert forall i :: 0 <= i < |once| ==> NormalizeName(once)[i] == once[i];
  }

  /** A name is left as it is exactly when it has no space, so a rename is attempted exactly then. */
  lemma NormalizeFixesExactlySpaceless(name: string)
    ensures NormalizeName(name) == name <==> ' ' !in name
  {
    if ' ' in name {
      var i :| 0 <= i < |name| && name[i] == ' ';
      assert NormalizeName(name)[i] == '_';
    } else {
      assert forall i :: 0 <= i < |name| ==> NormalizeName(name)[i] == name[i];
    }
  }

  /** A suffix with neither space nor underscore survives normalisation, and only then is present after it. */
  lemma NormalizeKeepsSuffix(name: string, suffix: string)
    requires ' ' !in suffix && '_' !in suffix
    ensures EndsWith(NormalizeName(name), suffix) <==> EndsWith(name, suffix)
  {
    var r := NormalizeName(name);
    if |suffix| <= |name| {
      var k := |name| - |suffix|;
      if EndsWith(name, suffix) {
        forall i | 0 <= i < |suffix| ensures r[k..][i] == suffix[i] {
          assert name[k + i] == name[k..][i];
        }
      }
      if EndsWith(r, suffix) {
        forall i | 0 <= i < |suffix| ensures name[k..][i] == suffix[i] {
          assert r[k + i] == r[k..][i];
          assert suffix[i] != '_';
        }
      }
    }
  }

  /** Normalisation keeps the media extension, so the renamed file still passes the filter. */
  lemma NormalizeKeepsMedia(name: string)
    ensures IsMediaName(NormalizeName(name)) <==> IsMediaName(name)
  {
    NormalizeKeepsSuffix(name, ".mp4");
    NormalizeKeepsSuffix(name, ".mkv");
    NormalizeKeepsSuffix(name, ".webm");
  }

  // ---------------------------------------------------------------- resolution

  /** The listing holds exactly one media name. */
  predicate SingleMedia(listing: Option<seq<string>>) {
    listing.Some? && |MediaFiles(listing.value)| == 1
  }

  /** Resolution succeeds exactly when there is one media name and, if it has a space, the rename succeeds. */
  lemma ResolutionSucceedsExactly(dir: string, listing: Option<seq<string>>, renameOk: bool)
    ensures Resolution(dir, listing, renameOk).value.Ok? <==>
              SingleMedia(listing) && (renameOk || ' ' !in MediaFiles(listing.value)[0])
    ensures !SingleMedia(listing) ==> Resolution(dir, listing, renameOk) == Traced(Err(NoSingleFileMessage), [])
  {
    if SingleMedia(listing) {
      NormalizeFixesExactlySpaceless(MediaFiles(listing.value)[0]);
    }
  }

  /** Zero media names, several, or a null listing all fail the same way. */
  lemma ResolutionNeedsExactlyOne(dir: string, names: seq<string>, renameOk: bool)
    ensures |MediaFiles(names)| == 0 ==> Resolution(dir, Some(names), renameOk).value == Err(NoSingleFileMessage)
    ensures |MediaFiles(names)| >= 2 ==> Resolution(dir, Some(names), renameOk).value == Err(NoSingleFileMessage)
    ensures Resolution(dir, None, renameOk).value == Err(NoSingleFileMessage)
  {
  }

  /**
    The resolved file is the one media name of the listing, normalised, inside `dir`;
    it has no space and keeps its extension, and no other listed name is a media name.
  */
  lemma ResolvedFile(dir: string, listing: Option<seq<string>>, renameOk: bool, path: string)
    requires Resolution(dir, listing, renameOk).value == Ok(path)
    ensures SingleMedia(listing)
    ensures var m := MediaFiles(listing.value)[0];
            && m in listing.value && IsMediaName(m)
            && (forall x :: x in listing.value && IsMediaName(x) ==> x == m)
            && path == dir + Separator + NormalizeName(m)
            && ' ' !in NormalizeName(m)
            && IsMediaName(NormalizeName(m))
  {
    var m := MediaFiles(listing.value)[0];
    NormalizeKeepsMedia(m);
    NormalizeFixesExactlySpaceless(m);
    forall x | x in listing.value && IsMediaName(x) ensures x == m {
      assert x in MediaFiles(listing.value);
    }
  }

  /**
    A rename is attempted exactly when the one media name has a space, from its
    listed name to the normalised one; a failed rename is an error.
  */
  lemma RenameOnlyWhenNeeded(dir: string, listing: Option<seq<string>>, renameOk: bool)
    requires SingleMedia(listing)
    ensures var m := MediaFiles(listing.value)[0];
            && (' ' in m ==> Resolution(dir, listing, renameOk).effects
                               == [Rename(dir + Separator + m, dir + Separator + NormalizeName(m))])
            && (' ' !in m ==> Resolution(dir, listing, renameOk).effects == [])
            && (' ' in m && !renameOk ==> Resolution(dir, listing, renameOk).value == Err(RenameFailedMessage))
  {
    NormalizeFixesExactlySpaceless(MediaFiles(listing.value)[0]);
  }

  // ---------------------------------------------------------------- download outcome

  /** A timeout kills the process right after launching it and fails with the timeout message. */
  lemma TimeoutFails(command: seq<string>, dir: string, h: Host)
    requires h.outcome == TimedOut
    ensures Download(command, dir, h) == Traced(Failed(TimedOutMessage), [Launch(command), Kill])
    ensures ResultText(Download(command, dir, h).value) == ErrorPrefix + TimedOutMessage
  {
  }

  /**
    A non-zero exit fails without looking at the directory, and the exit code can be
    read back from the message.
  */
  lemma NonZeroExitFails(command: seq<string>, dir: string, h: Host, code: int32)
    requires h.outcome == Exited(code) && code != 0
    ensures Download(command, dir, h).effects == [Launch(command)]
    ensures Download(command, dir, h).value.Failed?
    ensures var m := Download(command, dir, h).value.message;
            && StartsWith(m, ExitCodeMessage)
            && |m| > |ExitCodeMessage|
            && ParseInt(m[|ExitCodeMessage|..]) == code as int
  {
    var m := Download(command, dir, h).value.message;
    assert m[|ExitCodeMessage|..] == IntToString(code);
    IntToStringRoundTrip(code);
  }

  /** `executeDownload` registers exactly when the process exits with 0 and the output resolves; the id is the fresh UUID. */
  lemma DownloadSucceedsExactly(command: seq<string>, dir: string, h: Host)
    ensures Download(command, dir, h).value.Registered? <==>
              h.outcome == Exited(0) && Resolution(dir, h.listing, h.renameOk).value.Ok?
    ensures Download(command, dir, h).value.Registered? ==>
              Download(command, dir, h).value
                == Registered(h.idUuid, Resolution(dir, h.listing, h.renameOk).value.value)
  {
  }

  // ---------------------------------------------------------------- submission and registry

  /**
    A failed submission leaves the registry as it was; if it got as far as the
    download, the returned string is the error text rather than an exception.
  */
  lemma FailureKeepsRegistry(workDir: string, url: Option<string>, h: Host, paths: map<string, string>)
    requires !(Submit(workDir, url, h).value.Ran? && Submit(workDir, url, h).value.job.Registered?)
    ensures RegistryAfter(paths, Submit(workDir, url, h).value) == paths
    ensures Submit(workDir, url, h).value.Ran? ==>
              CompletionOf(Submit(workDir, url, h).value).Returned? &&
              StartsWith(CompletionOf(Submit(workDir, url, h).value).value, ErrorPrefix)
  {
  }

  /** A rejected submission escapes as an exception: from validation, or from provisioning a directory. */
  lemma RejectionCauses(workDir: string, url: Option<string>, h: Host)
    ensures Submit(workDir, url, h).value.Rejected? <==>
              ValidateUrl(url).Some? || !h.baseDirReady || !h.uniqueDirReady
  {
  }

  /**
    A successful submission: the URL passed, both directories were ready, the process
    was launched with the built command and exited with 0, the id returned is the
    second UUID (not the one naming the directory), the file lies in the unique
    directory, and the registry gains exactly the entry id -> path.
  */
  lemma SubmitSuccess(workDir: string, url: Option<string>, h: Host, paths: map<string, string>, id: string, path: string)
    requires Submit(workDir, url, h).value == Ran(Registered(id, path))
    ensures ValidateUrl(url).None? && h.baseDirReady && h.uniqueDirReady && h.outcome == Exited(0)
    ensures id == h.idUuid
    ensures CompletionOf(Submit(workDir, url, h).value) == Returned(id)
    ensures var uniqueDir := AbsolutePath(workDir, UniqueDirPath(h.dirUuid));
            && StartsWith(path, uniqueDir + Separator)
            && Submit(workDir, url, h).effects[..3]
                 == [EnsureDir(BaseDir(workDir)), EnsureDir(uniqueDir), Launch(BuildProcess(url.value, uniqueDir))]
    ensures var after := RegistryAfter(paths, Submit(workDir, url, h).value);
            && Lookup(after, id) == Some(path)
            && after.Keys == paths.Keys + {id}
            && (forall k :: k != id ==> Lookup(after, k) == Lookup(paths, k))
  {
    var uniqueDir := AbsolutePath(workDir, UniqueDirPath(h.dirUuid));
    var f := Resolution(uniqueDir, h.listing, h.renameOk);
    assert f.value == Ok(path);
    ResolvedFile(uniqueDir, h.listing, h.renameOk, path);
  }

  /**
    When the names a directory listing reports hold no separator, the registered
    file's name is the media name normalised: no space, media extension kept.
  */
  lemma RegisteredFileName(workDir: string, url: Option<string>, h: Host, id: string, path: string)
    requires Submit(workDir, url, h).value == Ran(Registered(id, path))
    requires forall x :: x in h.listing.value ==> '/' !in x
    ensures h.listing.Some?
    ensures exists m :: m in h.listing.value && IsMediaName(m) && GetName(path) == NormalizeName(m)
    ensures ' ' !in GetName(path) && IsMediaName(GetName(path))
  {
    var uniqueDir := AbsolutePath(workDir, UniqueDirPath(h.dirUuid));
    ResolvedFile(uniqueDir, h.listing, h.renameOk, path);
    var m := MediaFiles(h.listing.value)[0];
    assert '/' !in NormalizeName(m) by {
      assert forall i :: 0 <= i < |m| ==> NormalizeName(m)[i] == m[i] || NormalizeName(m)[i] == '_';
    }
    GetNameOfChild(uniqueDir, NormalizeName(m));
  }

  /** The submission ran and registered its output. */
  predicate Succeeded(s: Submission) {
    s.Ran? && s.job.Registered?
  }

  /** The ids registered by the successful submissions among `urls`. */
  function SuccessfulIds(workDir: string, urls: seq<Option<string>>, hosts: seq<Host>): set<string>
    requires |hosts| == |urls|
    decreases |urls|
  {
    if urls == [] then {}
    else
      var n := |urls| - 1;
      var s := Submit(workDir, urls[n], hosts[n]).value;
      SuccessfulIds(workDir, urls[..n], hosts[..n]) + (if Succeeded(s) then {s.job.id} else {})
  }

  /** After a batch the registry holds the old keys and exactly the ids of the successful tasks besides. */
  lemma {:induction false} RegisterAllKeys(paths: map<string, string>, workDir: string, urls: seq<Option<string>>, hosts: seq<Host>)
    requires |hosts| == |urls|
    ensures RegisterAll(paths, workDir, urls, hosts).Keys == paths.Keys + SuccessfulIds(workDir, urls, hosts)
    decreases |urls|
  {
    if urls != [] {
      var n := |urls| - 1;
      RegisterAllKeys(paths, workDir, urls[..n], hosts[..n]);
    }
  }

  /** A batch in which every task fails leaves the registry unchanged. */
  lemma {:induction false} FailedBatchKeepsRegistry(paths: map<string, string>, workDir: string, urls: seq<Option<string>>, hosts: seq<Host>)
    requires |hosts| == |urls|
    requires forall i :: 0 <= i < |urls| ==> !Succeeded(Submit(workDir, urls[i], hosts[i]).value)
    ensures RegisterAll(paths, workDir, urls, hosts) == paths
    decreases |urls|
  {
    if urls != [] {
      var n := |urls| - 1;
      forall i | 0 <= i < n
        ensures !Succeeded(Submit(workDir, urls[..n][i], hosts[..n][i]).value)
      {
        assert urls[..n][i] == urls[i] && hosts[..n][i] == hosts[i];
      }
      FailedBatchKeepsRegistry(paths, workDir, urls[..n], hosts[..n]);
    }
  }

  /**
    What `processMultipleVideos` lists for one task, end to end: a refused URL as
    "Error: java.lang.IllegalArgumentException: Invalid URL: " and the URL, a directory
    that cannot be made as "Error: java.lang.RuntimeException: " and its message.
  */
  lemma TaskEntries(workDir: string, url: Option<string>, h: Host)
    ensures ValidateUrl(url).Some? ==>
              TaskEntry(CompletionOf(Submit(workDir, url, h).value))
                == TaskErrorPrefix + (IllegalArgumentName + ": " + (InvalidUrlMessage + Show(url)))
    ensures ValidateUrl(url).None? && !h.baseDirReady ==>
              TaskEntry(CompletionOf(Submit(workDir, url, h).value))
                == TaskErrorPrefix + (RuntimeName + ": " + (BaseDirMessage + BaseDir(workDir)))
    ensures ValidateUrl(url).None? && h.baseDirReady && !h.uniqueDirReady ==>
              TaskEntry(CompletionOf(Submit(workDir, url, h).value))
                == TaskErrorPrefix + (RuntimeName + ": " + (UniqueDirMessage + UniqueDirPath(h.dirUuid)))
  {
  }

  /**
    A task that reached the download is listed as its own return value: the id on
    success, and otherwise "Error processing video: " and the message, without the
    "Error: " that marks a task that threw.
  */
  lemma DownloadTaskEntries(workDir: string, url: Option<string>, h: Host)
    requires Submit(workDir, url, h).value.Ran?
    ensures var job := Submit(workDir, url, h).value.job;
            && (job.Registered? ==> TaskEntry(CompletionOf(Submit(workDir, url, h).value)) == h.idUuid)
            && (job.Failed? ==>
                  TaskEntry(CompletionOf(Submit(workDir, url, h).value)) == ErrorPrefix + job.message
                  && !StartsWith(TaskEntry(CompletionOf(Submit(workDir, url, h).value)), TaskErrorPrefix))
  {
    var job := Submit(workDir, url, h).value.job;
    if job.Failed? {
      var e := ErrorPrefix + job.message;
      StartsWithConcat(ErrorPrefix, job.message);
      assert e[5] == ' ' && TaskErrorPrefix[5] == ':';
    }
  }

  /** The entry of a task that threw names the exception: distinct exceptions give distinct messages. */
  lemma ExecutionMessageInjective(e1: JavaException, e2: JavaException)
    requires ExecutionMessage(e1) == ExecutionMessage(e2)
    ensures e1 == e2
  {
    var p1 := if e1.IllegalArgument? then IllegalArgumentName + ": " else RuntimeName + ": ";
    var p2 := if e2.IllegalArgument? then IllegalArgumentName + ": " else RuntimeName + ": ";
    assert e1.IllegalArgument? == e2.IllegalArgument?;
    StartsWithConcat(p1, e1.message);
    StartsWithConcat(p2, e2.message);
  }
}
