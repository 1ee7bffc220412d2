/** The ingestion rules of ingestGithubRepo.js: classifying a GitHub compare
    diff, reading owner and repository from a repository URL, deciding from
    the stored watermark whether a pass is skipped, incremental or full,
    driving the store (all deletions first, then remove-then-upsert of every
    changed file with an allowed extension and non-empty content) and
    splitting an uploaded document into pages.

    The GitHub API, raw-content downloads and text extraction are function
    parameters returning `Fetch` values; a `NotOk` result stands for a
    response that is not ok or a call that throws. */
module Ingestion {
  import opened JsLib
  import opened Retrieval

  /** The result of a remote call: not ok (or thrown), or a body. */
  datatype Fetch<T> = NotOk | Ok(body: T)

  /** One entry of the compare response's `files` list. */
  datatype DiffFile = DiffFile(filename: string, status: string)

  /** One entry of the recursive tree listing; `kind` is the entry's `type`. */
  datatype TreeEntry = TreeEntry(path: string, kind: string)

  /** What `getChangedFiles` returns. */
  datatype Changes = Changes(changed: seq<string>, deleted: seq<string>)

  /** The statuses that make a file changed, and the one that makes it deleted. */
  const ChangeStatuses: set<string> := {"modified", "added"}
  const RemovedStatuses: set<string> := {"removed"}

  /** The extensions a repository pass ingests, and those an upload accepts. */
  const AllowedExts: set<string> := {".md", ".txt", ".pdf", ".mdx"}
  const UploadExts: set<string> := {".pdf", ".docx", ".txt", ".md", ".html"}

  /** A store operation the driver performs, in the order it performs them. */
  datatype StoreOp = Remove(docId: string) | Upsert(docId: string, content: string)

  // ---------------------------------------------------------------------------
  // Diff classification

  /** The file names whose status is in `statuses`, in input order. */
  function PathsWith(files: seq<DiffFile>, statuses: set<string>): seq<string> {
    if files == [] then []
    else
      var f := files[|files| - 1];
      PathsWith(files[..|files| - 1], statuses) + (if f.status in statuses then [f.filename] else [])
  }

  /** `json.files || []`. */
  function FilesOrEmpty(files: Option<seq<DiffFile>>): seq<DiffFile> {
    if files.Some? then files.value else []
  }

  /** `getChangedFiles`: a compare response that is not ok throws (None);
      otherwise every file is pushed to `changed` or `deleted` by status. */
  method GetChangedFiles(response: Fetch<Option<seq<DiffFile>>>) returns (r: Option<Changes>)
    ensures r.None? <==> response.NotOk?
    ensures r.Some? ==>
      var files := FilesOrEmpty(response.body);
      r.value == Changes(PathsWith(files, ChangeStatuses), PathsWith(files, RemovedStatuses))
  {
    if response.NotOk? {
      return None;
    }
    var files := FilesOrEmpty(response.body);
    var changed: seq<string> := [];
    var deleted: seq<string> := [];
    var i := 0;
    while i < |files|
      invariant 0 <= i <= |files|
      invariant changed == PathsWith(files[..i], ChangeStatuses)
      invariant deleted == PathsWith(files[..i], RemovedStatuses)
    {
      var file := files[i];
      assert files[..i + 1][..i] == files[..i];
      if file.status == "modified" || file.status == "added" {
        changed := changed + [file.filename];
      } else if file.status == "removed" {
        deleted := deleted + [file.filename];
      }
      i := i + 1;
    }
    assert files[..|files|] == files;
    r := Some(Changes(changed, deleted));
  }

  /** Classification works file by file, so it keeps the input order. */
  lemma {:induction false} PathsWithConcat(a: seq<DiffFile>, b: seq<DiffFile>, statuses: set<string>)
    ensures PathsWith(a + b, statuses) == PathsWith(a, statuses) + PathsWith(b, statuses)
    decreases |b|
  {
    if b == [] {
      assert a + b == a;
    } else {
      assert (a + b)[..|a + b| - 1] == a + b[..|b| - 1];
      PathsWithConcat(a, b[..|b| - 1], statuses);
    }
  }

  /** A file name is selected exactly when some file with that name has a
      selected status. */
  lemma {:induction false} PathsWithMembers(files: seq<DiffFile>, statuses: set<string>)
    ensures forall i :: 0 <= i < |files| && files[i].status in statuses ==>
      files[i].filename in PathsWith(files, statuses)
    ensures forall x :: x in PathsWith(files, statuses) ==>
      exists i :: 0 <= i < |files| && files[i].filename == x && files[i].status in statuses
    decreases |files|
  {
    if files != [] {
      var pre := files[..|files| - 1];
      PathsWithMembers(pre, statuses);
      forall x | x in PathsWith(files, statuses)
        ensures exists i :: 0 <= i < |files| && files[i].filename == x && files[i].status in statuses
      {
        if x in PathsWith(pre, statuses) {
          var i :| 0 <= i < |pre| && pre[i].filename == x && pre[i].status in statuses;
          assert files[i] == pre[i];
        }
      }
    }
  }

  /** Every file lands in at most one list, and in one of them exactly when
      its status is "modified", "added" or "removed"; any other status (such
      as "renamed") is dropped. */
  lemma {:induction false} ClassificationCount(files: seq<DiffFile>)
    ensures |PathsWith(files, ChangeStatuses)| + |PathsWith(files, RemovedStatuses)|
         == |PathsWith(files, ChangeStatuses + RemovedStatuses)|
    ensures |PathsWith(files, ChangeStatuses + RemovedStatuses)| <= |files|
    ensures |PathsWith(files, ChangeStatuses + RemovedStatuses)| == |files|
        <==> forall i :: 0 <= i < |files| ==> files[i].status in ChangeStatuses + RemovedStatuses
    decreases |files|
  {
    if files != [] {
      var pre := files[..|files| - 1];
      ClassificationCount(pre);
      if |PathsWith(files, ChangeStatuses + RemovedStatuses)| == |files| {
        forall i | 0 <= i < |files|
          ensures files[i].status in ChangeStatuses + RemovedStatuses
        {
          if i < |pre| {
            assert files[i] == pre[i];
          }
        }
      }
    }
  }

  // ---------------------------------------------------------------------------
  // Owner and repository

  /** The owner and repository read from a repository URL. */
  datatype RepoRef = RepoRef(owner: string, repo: string)

  /** `replace(/\/$/, "")`: one trailing "/" removed. */
  function StripTrailingSlash(url: string): (r: string)
    ensures |url| > 0 && url[|url| - 1] == '/' ==> r + "/" == url
    ensures (|url| == 0 || url[|url| - 1] != '/') ==> r == url
  {
    if |url| > 0 && url[|url| - 1] == '/' then url[..|url| - 1] else url
  }

  /** A missing value interpolated into a template string. */
  const Undefined: string := "undefined"

  /** `parts[parts.length - 2]` and `parts[parts.length - 1]` of the split URL;
      with a single segment the owner is `undefined` and is interpolated as
      that word into the API URLs. */
  function ParseRepoUrl(url: string): RepoRef {
    var parts := SplitOn(StripTrailingSlash(url), "/");
    RepoRef(if |parts| >= 2 then parts[|parts| - 2] else Undefined, parts[|parts| - 1])
  }

  /** The last character of a join is the last character of its last piece. */
  lemma {:induction false} JoinLastChar(xs: seq<string>, sep: string)
    requires |xs| >= 1 && xs[|xs| - 1] != ""
    ensures var j := Join(xs, sep);
      |j| > 0 && j[|j| - 1] == xs[|xs| - 1][|xs[|xs| - 1]| - 1]
    decreases |xs|
  {
    if |xs| >= 2 {
      JoinLastChar(xs[1..], sep);
    }
  }

  /** Removing one trailing "/" from a join whose last piece is non-empty
      changes nothing, and undoes appending one "/". */
  lemma StripJoined(segments: seq<string>)
    requires |segments| >= 1 && segments[|segments| - 1] != ""
    requires forall k :: 0 <= k < |segments| ==> '/' !in segments[k]
    ensures StripTrailingSlash(Join(segments, "/")) == Join(segments, "/")
    ensures StripTrailingSlash(Join(segments, "/") + "/") == Join(segments, "/")
  {
    var url := Join(segments, "/");
    JoinLastChar(segments, "/");
    var last := segments[|segments| - 1];
    assert last[|last| - 1] in last;
    var u := url + "/";
    assert u[|u| - 1] == '/';
    assert u[..|u| - 1] == url;
  }

  /** A URL made of "/"-free segments, the last one non-empty, with or
      without one trailing "/", gives its last two segments as owner and
      repository ("https://github.com/o/r/" gives o and r). */
  lemma RepoUrlSegments(segments: seq<string>)
    requires |segments| >= 2 && segments[|segments| - 1] != ""
    requires forall k :: 0 <= k < |segments| ==> '/' !in segments[k]
    ensures var url := Join(segments, "/");
      var expected := RepoRef(segments[|segments| - 2], segments[|segments| - 1]);
      ParseRepoUrl(url) == expected && ParseRepoUrl(url + "/") == expected
  {
    StripJoined(segments);
    ParseStripped(Join(segments, "/"), segments);
    ParseStripped(Join(segments, "/") + "/", segments);
  }

  /** A URL that is the "/"-join of "/"-free segments once its trailing "/"
      is stripped parses to its last two segments. */
  lemma ParseStripped(url: string, segments: seq<string>)
    requires |segments| >= 2
    requires forall k :: 0 <= k < |segments| ==> '/' !in segments[k]
    requires StripTrailingSlash(url) == Join(segments, "/")
    ensures ParseRepoUrl(url) == RepoRef(segments[|segments| - 2], segments[|segments| - 1])
  {
    assert "/"[0] == '/';
    SplitOnJoin(segments, "/");
    var parts := SplitOn(StripTrailingSlash(url), "/");
    assert parts == segments;
    assert ParseRepoUrl(url) == RepoRef(parts[|parts| - 2], parts[|parts| - 1]);
  }

  /** A name without "/" is the repository, and the owner is `undefined`. */
  lemma BareRepoName(name: string)
    requires '/' !in name
    ensures ParseRepoUrl(name) == RepoRef(Undefined, name)
  {
    assert "/"[0] == '/';
    if |name| > 0 {
      assert name[|name| - 1] != '/';
    }
    SplitOnJoin([name], "/");
  }

  // ---------------------------------------------------------------------------
  // Watermark

  /** The stored watermark `{repo, commit}`; fields that are absent (or the
      `{}` a failed read gives) are None. */
  datatype Watermark = Watermark(repo: Option<string>, commit: Option<string>)

  /** How a pass proceeds. */
  datatype Plan = Skip | Incremental(base: string) | Full

  /** `state.repo === repo && state.commit === latestSha` skips; a stored
      commit that is truthy (a non-empty string) for the same repository name
      gives an incremental pass from it; anything else a full pass. The
      latest SHA is None when the commit response has no `sha`. */
  function Decide(state: Watermark, repo: string, latest: Option<string>): Plan {
    if state.repo == Some(repo) && state.commit == latest then Skip
    else if state.repo == Some(repo) && state.commit.Some? && state.commit.value != "" then
      Incremental(state.commit.value)
    else Full
  }

  /** The three outcomes of the decision, each characterised both ways. */
  lemma DecideCases(state: Watermark, repo: string, latest: Option<string>)
    ensures Decide(state, repo, latest) == Skip <==> state.repo == Some(repo) && state.commit == latest
    ensures Decide(state, repo, latest).Incremental? <==>
      state.repo == Some(repo) && state.commit != latest && state.commit.Some? && state.commit.value != ""
    ensures Decide(state, repo, latest).Incremental? ==> Decide(state, repo, latest).base == state.commit.value
    ensures Decide(state, repo, latest) == Full <==>
      state.repo != Some(repo) || (state.commit != latest && (state.commit.None? || state.commit == Some("")))
  {
  }

  /** A pass that completes records exactly the watermark the next pass
      skips on, as long as the latest commit stays the same. */
  lemma SavedWatermarkSkips(repo: string, latest: Option<string>)
    ensures Decide(Watermark(Some(repo), latest), repo, latest) == Skip
  {
  }

  // ---------------------------------------------------------------------------
  // The repository pass

  /** How a pass ends: a failed remote call (the promise rejects before any
      store call), a skip, or a completion with the store operations performed
      and the watermark written. */
  datatype Outcome = Failed | Skipped | Completed(ops: seq<StoreOp>, saved: Watermark)

  /** A template-string interpolation of a possibly missing value. */
  function Interpolate(s: Option<string>): string {
    if s.Some? then s.value else Undefined
  }

  /** The paths of the tree's blobs, in tree order. */
  function Blobs(entries: seq<TreeEntry>): seq<string> {
    if entries == [] then []
    else
      var e := entries[|entries| - 1];
      Blobs(entries[..|entries| - 1]) + (if e.kind == "blob" then [e.path] else [])
  }

  /** A path a repository pass ingests by its lower-cased extension. */
  predicate Allowed(path: string) {
    ToLower(ExtName(path)) in AllowedExts
  }

  /** The content a changed path is ingested with: none when its extension
      is not allowed, its download fails or its content is empty. */
  function Ingested(r: RepoRef, branch: string, path: string,
                    content: (string, string, string, string) -> Fetch<string>): (c: Option<string>)
    ensures c.Some? <==> Allowed(path) && content(r.owner, r.repo, branch, path).Ok?
                         && content(r.owner, r.repo, branch, path).body != ""
    ensures c.Some? ==> content(r.owner, r.repo, branch, path) == Ok(c.value)
  {
    if !Allowed(path) then None
    else
      match content(r.owner, r.repo, branch, path)
      case NotOk => None
      case Ok(c) => if |c| > 0 then Some(c) else None
  }

  /** The per-path decision of a pass over repository `r`. */
  function Decider(r: RepoRef, branch: string,
                   content: (string, string, string, string) -> Fetch<string>): string -> Option<string> {
    path => Ingested(r, branch, path, content)
  }

  /** What processing one changed path does: removeDocument then upsert with
      the content it is ingested with, or nothing. */
  function PathOps(path: string, c: Option<string>): seq<StoreOp> {
    if c.Some? then [Remove(path), Upsert(path, c.value)] else []
  }

  /** The operations of the changed-files loop, given the per-path decision. */
  function IngestOps(paths: seq<string>, decide: string -> Option<string>): seq<StoreOp> {
    if paths == [] then []
    else
      var p := paths[|paths| - 1];
      IngestOps(paths[..|paths| - 1], decide) + PathOps(p, decide(p))
  }

  /** The operations of the deleted-files loop. */
  function DeleteOps(paths: seq<string>): (ops: seq<StoreOp>)
    ensures |ops| == |paths| && forall i :: 0 <= i < |paths| ==> ops[i] == Remove(paths[i])
  {
    if paths == [] then [] else DeleteOps(paths[..|paths| - 1]) + [Remove(paths[|paths| - 1])]
  }

  /** The store after one operation. An upsert whose embedding fails
      leaves the store as it was; the call is still made, so the trace keeps
      it. */
  function Step(s: Store, op: StoreOp, embed: seq<string> -> Option<seq<Vector>>): Store {
    match op
    case Remove(d) => Removed(s, d)
    case Upsert(d, content) => Upserted(s, d, content, embed)
  }

  /** The store after a sequence of operations, performed in order. */
  function Applied(s: Store, ops: seq<StoreOp>, embed: seq<string> -> Option<seq<Vector>>): Store
    decreases |ops|
  {
    if ops == [] then s else Step(Applied(s, ops[..|ops| - 1], embed), ops[|ops| - 1], embed)
  }

  /** The store after removing each path in turn. */
  function Removals(s: Store, paths: seq<string>): Store
    decreases |paths|
  {
    if paths == [] then s else Removed(Removals(s, paths[..|paths| - 1]), paths[|paths| - 1])
  }

  /** `ingestChangedFiles` as a function of the remote responses: the
      reference the driver method is proved against. */
  function IngestPass(url: string, branch: string, state: Watermark,
                      latestCommit: (string, string, string) -> Fetch<Option<string>>,
                      compare: (string, string, string, string) -> Fetch<Option<seq<DiffFile>>>,
                      tree: (string, string, string) -> Fetch<Option<seq<TreeEntry>>>,
                      content: (string, string, string, string) -> Fetch<string>): Outcome {
    var r := ParseRepoUrl(url);
    match latestCommit(r.owner, r.repo, branch)
    case NotOk => Failed
    case Ok(latest) =>
      var plan := Decide(state, r.repo, latest);
      if plan == Skip then Skipped
      else
        match PassFiles(r, branch, plan, latest, compare, tree)
        case None => Failed
        case Some(files) =>
          Completed(DeleteOps(files.deleted) + IngestOps(files.changed, Decider(r, branch, content)),
                    Watermark(Some(r.repo), latest))
  }

  /** The changed and deleted paths of a pass that is not skipped: from the
      compare response for an incremental pass, every blob of the tree and
      no deletion for a full one; None when the call the plan needs fails. */
  function PassFiles(r: RepoRef, branch: string, plan: Plan, latest: Option<string>,
                     compare: (string, string, string, string) -> Fetch<Option<seq<DiffFile>>>,
                     tree: (string, string, string) -> Fetch<Option<seq<TreeEntry>>>): Option<Changes>
    requires plan != Skip
  {
    if plan.Incremental? then
      match compare(r.owner, r.repo, plan.base, Interpolate(latest))
      case NotOk => None
      case Ok(files) =>
        var fs := FilesOrEmpty(files);
        Some(Changes(PathsWith(fs, ChangeStatuses), PathsWith(fs, RemovedStatuses)))
    else
      match tree(r.owner, r.repo, branch)
      case Ok(Some(entries)) => Some(Changes(Blobs(entries), []))
      case _ => None
  }

  /** The deleted-files loop: removeDocument for every deleted path, in order. */
  method RemoveDeleted(vs: VectorStore, deletedFiles: seq<string>) returns (ops: seq<StoreOp>)
    requires vs.Valid()
    modifies vs
    ensures vs.Valid()
    ensures ops == DeleteOps(deletedFiles)
    ensures vs.State() == Removals(old(vs.State()), deletedFiles)
  {
    ops := [];
    var i := 0;
    while i < |deletedFiles|
      invariant 0 <= i <= |deletedFiles|
      invariant ops == DeleteOps(deletedFiles[..i])
      invariant vs.State() == Removals(old(vs.State()), deletedFiles[..i])
      invariant vs.Valid()
    {
      assert deletedFiles[..i + 1][..i] == deletedFiles[..i];
      vs.RemoveDocument(deletedFiles[i]);
      ops := ops + [Remove(deletedFiles[i])];
      i := i + 1;
    }
    assert deletedFiles[..|deletedFiles|] == deletedFiles;
  }

  /** One iteration of the changed-files loop: a path whose lower-cased
      extension is allowed and whose download gives non-empty content is
      removed and upserted; an upsert whose embedding fails is caught. */
  method ReingestPath(vs: VectorStore, embed: seq<string> -> Option<seq<Vector>>,
                      r: RepoRef, branch: string, filePath: string,
                      content: (string, string, string, string) -> Fetch<string>)
    returns (ops: seq<StoreOp>)
    requires vs.Valid()
    modifies vs
    ensures vs.Valid()
    ensures ops == PathOps(filePath, Ingested(r, branch, filePath, content))
    ensures vs.State() == Applied(old(vs.State()), ops, embed)
  {
    ops := [];
    var ext := ToLower(ExtName(filePath));
    if ext in AllowedExts {
      var contentRes := content(r.owner, r.repo, branch, filePath);
      if contentRes.Ok? && |contentRes.body| > 0 {
        ghost var s0 := vs.State();
        vs.RemoveDocument(filePath);
        var _ := vs.Upsert(filePath, contentRes.body, embed);
        ops := [Remove(filePath), Upsert(filePath, contentRes.body)];
        RemoveThenUpsertApplied(s0, filePath, contentRes.body, embed);
      }
    }
  }

  /** The changed-files loop, path by path in order. */
  method ReingestChanged(vs: VectorStore, embed: seq<string> -> Option<seq<Vector>>,
                         r: RepoRef, branch: string, changedFiles: seq<string>,
                         content: (string, string, string, string) -> Fetch<string>)
    returns (ops: seq<StoreOp>)
    requires vs.Valid()
    modifies vs
    ensures vs.Valid()
    ensures ops == IngestOps(changedFiles, Decider(r, branch, content))
    ensures vs.State() == Applied(old(vs.State()), ops, embed)
  {
    ghost var s0 := vs.State();
    ops := [];
    var j := 0;
    while j < |changedFiles|
      invariant 0 <= j <= |changedFiles|
      invariant ops == IngestOps(changedFiles[..j], Decider(r, branch, content))
      invariant vs.State() == Applied(s0, ops, embed)
      invariant vs.Valid()
    {
      var filePath := changedFiles[j];
      assert changedFiles[..j + 1][..j] == changedFiles[..j];
      assert Decider(r, branch, content)(filePath) == Ingested(r, branch, filePath, content);
      var pathOps := ReingestPath(vs, embed, r, branch, filePath, content);
      AppliedConcat(s0, ops, pathOps, embed);
      ops := ops + pathOps;
      j := j + 1;
    }
    assert changedFiles[..|changedFiles|] == changedFiles;
  }

  /** `ingestChangedFiles` against the loaded store `vs`: a failed remote
      call or a skip leaves the store alone; otherwise the deletions are
      applied first, then the changed files, and the watermark is produced
      only after both loops. */
  method IngestChangedFiles(vs: VectorStore, embed: seq<string> -> Option<seq<Vector>>,
                            url: string, branch: string, state: Watermark,
                            latestCommit: (string, string, string) -> Fetch<Option<string>>,
                            compare: (string, string, string, string) -> Fetch<Option<seq<DiffFile>>>,
                            tree: (string, string, string) -> Fetch<Option<seq<TreeEntry>>>,
                            content: (string, string, string, string) -> Fetch<string>)
    returns (outcome: Outcome)
    requires vs.Valid()
    modifies vs
    ensures outcome == IngestPass(url, branch, state, latestCommit, compare, tree, content)
    ensures !outcome.Completed? ==> unchanged(vs)
    ensures outcome.Completed? ==> vs.State() == Applied(old(vs.State()), outcome.ops, embed)
    ensures vs.Valid()
  {
    var r := ParseRepoUrl(url);
    var latestRes := latestCommit(r.owner, r.repo, branch);
    if latestRes.NotOk? {
      return Failed;
    }
    var latest := latestRes.body;
    var plan := Decide(state, r.repo, latest);
    if plan == Skip {
      return Skipped;
    }
    var files := FetchPassFiles(r, branch, plan, latest, compare, tree);
    if files.None? {
      return Failed;
    }
    ghost var s0 := vs.State();
    var removals := RemoveDeleted(vs, files.value.deleted);
    DeleteOpsApplied(s0, files.value.deleted, embed);
    var reingests := ReingestChanged(vs, embed, r, branch, files.value.changed, content);
    AppliedConcat(s0, removals, reingests, embed);
    outcome := Completed(removals + reingests, Watermark(Some(r.repo), latest));
  }

  /** The calls that give a pass its changed and deleted paths: the compare
      call, read by `getChangedFiles`, for an incremental pass; the tree
      call for a full one. */
  method FetchPassFiles(r: RepoRef, branch: string, plan: Plan, latest: Option<string>,
                        compare: (string, string, string, string) -> Fetch<Option<seq<DiffFile>>>,
                        tree: (string, string, string) -> Fetch<Option<seq<TreeEntry>>>)
    returns (files: Option<Changes>)
    requires plan != Skip
    ensures files == PassFiles(r, branch, plan, latest, compare, tree)
  {
    if plan.Incremental? {
      files := GetChangedFiles(compare(r.owner, r.repo, plan.base, Interpolate(latest)));
    } else {
      var treeRes := tree(r.owner, r.repo, branch);
      if treeRes.NotOk? || treeRes.body.None? {
        return None;
      }
      files := Some(Changes(Blobs(treeRes.body.value), []));
    }
  }

  /** The changed-files loop works path by path. */
  lemma {:induction false} IngestOpsConcat(a: seq<string>, b: seq<string>, decide: string -> Option<string>)
    ensures IngestOps(a + b, decide) == IngestOps(a, decide) + IngestOps(b, decide)
    decreases |b|
  {
    if b == [] {
      assert a + b == a;
    } else {
      assert (a + b)[..|a + b| - 1] == a + b[..|b| - 1];
      IngestOpsConcat(a, b[..|b| - 1], decide);
    }
  }

  /** Every removal is immediately followed by the upsert of the same path,
      and every upsert immediately follows the removal of its path. */
  predicate RemoveThenUpsert(ops: seq<StoreOp>) {
    && (forall i :: 0 <= i < |ops| && ops[i].Remove? ==>
          i + 1 < |ops| && ops[i + 1].Upsert? && ops[i + 1].docId == ops[i].docId)
    && (forall i :: 0 <= i < |ops| && ops[i].Upsert? ==> 0 < i && ops[i - 1] == Remove(ops[i].docId))
  }

  /** Every upsert is of one of `paths`, with the content decided for it. */
  predicate UpsertsDecided(ops: seq<StoreOp>, paths: seq<string>, decide: string -> Option<string>) {
    forall i :: 0 <= i < |ops| && ops[i].Upsert? ==>
      ops[i].docId in paths && decide(ops[i].docId) == Some(ops[i].content)
  }

  /** The changed-files loop only removes-then-upserts, and only the paths
      the decision accepts, with the decided content. */
  lemma {:induction false} IngestOpsPairs(paths: seq<string>, decide: string -> Option<string>)
    ensures RemoveThenUpsert(IngestOps(paths, decide))
    ensures UpsertsDecided(IngestOps(paths, decide), paths, decide)
    decreases |paths|
  {
    if paths != [] {
      var pre := paths[..|paths| - 1];
      var p := paths[|paths| - 1];
      IngestOpsPairs(pre, decide);
      var a := IngestOps(pre, decide);
      var b := PathOps(p, decide(p));
      var ops := a + b;
      assert ops == IngestOps(paths, decide);
      assert RemoveThenUpsert(a) && UpsertsDecided(a, pre, decide);
      if decide(p).Some? {
        assert b == [Remove(p), Upsert(p, decide(p).value)];
      } else {
        assert b == [];
      }
      forall i | 0 <= i < |ops| && ops[i].Remove?
        ensures i + 1 < |ops| && ops[i + 1].Upsert? && ops[i + 1].docId == ops[i].docId
      {
        if i < |a| {
          assert ops[i] == a[i];
          assert ops[i + 1] == a[i + 1];
        } else {
          assert ops[i] == b[i - |a|];
        }
      }
      forall i | 0 <= i < |ops| && ops[i].Upsert?
        ensures 0 < i && ops[i - 1] == Remove(ops[i].docId)
        ensures ops[i].docId in paths && decide(ops[i].docId) == Some(ops[i].content)
      {
        if i < |a| {
          assert ops[i] == a[i];
          assert ops[i - 1] == a[i - 1];
          assert a[i].docId in pre;
        } else {
          assert ops[i] == b[i - |a|];
        }
      }
    }
  }

  /** Every path the decision accepts is removed and then upserted with the
      decided content. */
  lemma {:induction false} IngestOpsComplete(paths: seq<string>, decide: string -> Option<string>)
    ensures forall k :: 0 <= k < |paths| && decide(paths[k]).Some? ==>
      Upsert(paths[k], decide(paths[k]).value) in IngestOps(paths, decide)
    decreases |paths|
  {
    if paths != [] {
      var pre := paths[..|paths| - 1];
      var p := paths[|paths| - 1];
      IngestOpsComplete(pre, decide);
      var a := IngestOps(pre, decide);
      var b := PathOps(p, decide(p));
      assert IngestOps(paths, decide) == a + b;
      forall k | 0 <= k < |paths| && decide(paths[k]).Some?
        ensures Upsert(paths[k], decide(paths[k]).value) in a + b
      {
        if k < |pre| {
          assert paths[k] == pre[k];
        } else {
          assert b[1] == Upsert(p, decide(p).value);
        }
      }
    }
  }

  /** In a repository pass, every upserted path has an allowed extension and
      the non-empty content its download gave, and every changed path with
      those is upserted with that content. */
  lemma ChangedFilesIngested(r: RepoRef, branch: string, paths: seq<string>,
                             content: (string, string, string, string) -> Fetch<string>)
    ensures var ops := IngestOps(paths, Decider(r, branch, content));
      && (forall i :: 0 <= i < |ops| && ops[i].Upsert? ==>
            Allowed(ops[i].docId) && ops[i].content != ""
            && content(r.owner, r.repo, branch, ops[i].docId) == Ok(ops[i].content))
      && (forall k :: 0 <= k < |paths| && Allowed(paths[k])
                      && content(r.owner, r.repo, branch, paths[k]).Ok?
                      && content(r.owner, r.repo, branch, paths[k]).body != "" ==>
            Upsert(paths[k], content(r.owner, r.repo, branch, paths[k]).body) in ops)
  {
    var decide := Decider(r, branch, content);
    IngestOpsPairs(paths, decide);
    IngestOpsComplete(paths, decide);
    forall x ensures decide(x) == Ingested(r, branch, x, content) { }
  }

  /** A completed pass performs every deletion before any changed path is
      processed, writes the watermark `{repo, commit: latest}`, and a full
      pass deletes nothing. A failed or skipped pass has no operations and
      writes no watermark. */
  lemma PassShape(url: string, branch: string, state: Watermark,
                  latestCommit: (string, string, string) -> Fetch<Option<string>>,
                  compare: (string, string, string, string) -> Fetch<Option<seq<DiffFile>>>,
                  tree: (string, string, string) -> Fetch<Option<seq<TreeEntry>>>,
                  content: (string, string, string, string) -> Fetch<string>)
    ensures var r := ParseRepoUrl(url);
      var outcome := IngestPass(url, branch, state, latestCommit, compare, tree, content);
      var latest := latestCommit(r.owner, r.repo, branch);
      && (latest.NotOk? ==> outcome == Failed)
      && (latest.Ok? ==> (outcome == Skipped <==> Decide(state, r.repo, latest.body) == Skip))
      && (outcome.Completed? ==>
            latest.Ok? && outcome.saved == Watermark(Some(r.repo), latest.body)
            && var plan := Decide(state, r.repo, latest.body);
            && plan != Skip
            && var files := PassFiles(r, branch, plan, latest.body, compare, tree);
            && files.Some?
            && outcome.ops == DeleteOps(files.value.deleted) + IngestOps(files.value.changed, Decider(r, branch, content))
            && (plan == Full ==> files.value.deleted == []))
  {
  }

  /** Deletions come first: the first |d| operations remove the deleted
      paths in order, no upsert comes before them, and after them removals
      only come paired with upserts. */
  lemma DeletionsFirst(d: seq<string>, c: seq<string>, decide: string -> Option<string>)
    ensures var ops := DeleteOps(d) + IngestOps(c, decide);
      && (forall i :: 0 <= i < |d| ==> ops[i] == Remove(d[i]))
      && (forall i :: 0 <= i < |ops| && ops[i].Upsert? ==> |d| < i)
      && RemoveThenUpsert(ops[|d|..])
  {
    IngestOpsPairs(c, decide);
    var a := DeleteOps(d);
    var b := IngestOps(c, decide);
    var ops := a + b;
    assert ops[|d|..] == b;
    forall i | 0 <= i < |d| ensures ops[i] == Remove(d[i]) {
      assert ops[i] == a[i];
    }
    forall i | |d| <= i < |ops| ensures ops[i] == b[i - |d|] {
    }
  }

  // ---------------------------------------------------------------------------
  // What the operations leave in the store

  /** The embedding of a document's chunks succeeds. */
  predicate Embeds(embed: seq<string> -> Option<seq<Vector>>, content: string) {
    embed(Chunks(content, MaxTokens, Overlap)).Some?
  }

  /** An upsert sets the entry of its document exactly when the embedding
      succeeds. */
  lemma UpsertedEntries(s: Store, d: string, c: string, embed: seq<string> -> Option<seq<Vector>>)
    ensures Upserted(s, d, c, embed).metadata == if Embeds(embed, c) then s.metadata[d := c] else s.metadata
  {
  }

  /** `k` has the same entry, or none, in both maps. */
  predicate SameEntry(m1: map<string, string>, m2: map<string, string>, k: string) {
    (k in m1 <==> k in m2) && (k in m1 ==> m1[k] == m2[k])
  }

  /** Performing `a` and then `b` is performing `a + b`. */
  lemma {:induction false} AppliedConcat(s: Store, a: seq<StoreOp>, b: seq<StoreOp>,
                                         embed: seq<string> -> Option<seq<Vector>>)
    ensures Applied(s, a + b, embed) == Applied(Applied(s, a, embed), b, embed)
    decreases |b|
  {
    if b == [] {
      assert a + b == a;
    } else {
      assert (a + b)[..|a + b| - 1] == a + b[..|b| - 1];
      AppliedConcat(s, a, b[..|b| - 1], embed);
    }
  }

  /** A removal followed by an upsert of the same path. */
  lemma RemoveThenUpsertApplied(s: Store, p: string, c: string, embed: seq<string> -> Option<seq<Vector>>)
    ensures Applied(s, [Remove(p), Upsert(p, c)], embed) == Upserted(Removed(s, p), p, c, embed)
  {
    var ops := [Remove(p), Upsert(p, c)];
    assert ops[..1] == [Remove(p)] && ops[..1][..0] == [];
    assert Applied(s, ops[..1], embed) == Removed(s, p);
  }

  /** One more call is one more step. */
  lemma AppliedSnoc(s: Store, ops: seq<StoreOp>, op: StoreOp, embed: seq<string> -> Option<seq<Vector>>)
    ensures Applied(s, ops + [op], embed) == Step(Applied(s, ops, embed), op, embed)
  {
    assert (ops + [op])[..|ops|] == ops;
  }

  /** The deletion operations remove the deleted paths one by one. */
  lemma {:induction false} DeleteOpsApplied(s: Store, paths: seq<string>,
                                            embed: seq<string> -> Option<seq<Vector>>)
    ensures Applied(s, DeleteOps(paths), embed) == Removals(s, paths)
    decreases |paths|
  {
    if paths != [] {
      var ops := DeleteOps(paths);
      assert ops[..|ops| - 1] == DeleteOps(paths[..|paths| - 1]);
      DeleteOpsApplied(s, paths[..|paths| - 1], embed);
    }
  }

  /** After the removals no removed path has an entry, and every other key
      keeps its entry. */
  lemma {:induction false} RemovalsEffect(s: Store, paths: seq<string>)
    ensures forall p :: p in paths ==> p !in Removals(s, paths).metadata
    ensures forall k :: k !in paths ==> SameEntry(Removals(s, paths).metadata, s.metadata, k)
    decreases |paths|
  {
    if paths != [] {
      var pre := paths[..|paths| - 1];
      var last := paths[|paths| - 1];
      assert paths == pre + [last];
      RemovalsEffect(s, pre);
      assert Removals(s, paths).metadata == Removals(s, pre).metadata - {last};
    }
  }

  /** One changed path: its old entry goes, and it holds the new content
      exactly when that content's embedding succeeds; other keys keep their
      entries. */
  lemma PathOpsEffect(s: Store, p: string, c: Option<string>, embed: seq<string> -> Option<seq<Vector>>)
    ensures var m := Applied(s, PathOps(p, c), embed).metadata;
      && (c.None? ==> m == s.metadata)
      && (c.Some? && Embeds(embed, c.value) ==> m == s.metadata[p := c.value])
      && (c.Some? && !Embeds(embed, c.value) ==> m == s.metadata - {p})
  {
    if c.Some? {
      RemoveThenUpsertApplied(s, p, c.value, embed);
      assert Removed(s, p).metadata == s.metadata - {p};
    }
  }

  /** After the changed-files loop, a path accepted with content whose
      embedding succeeds holds that content, one whose embedding fails has
      no entry (its old entry was removed first), and a path the decision
      refuses or the loop does not visit keeps its entry. */
  lemma {:induction false} IngestOpsEffect(s: Store, paths: seq<string>, decide: string -> Option<string>,
                                           embed: seq<string> -> Option<seq<Vector>>)
    ensures var m := Applied(s, IngestOps(paths, decide), embed).metadata;
      && (forall p :: p in paths && decide(p).Some? && Embeds(embed, decide(p).value) ==>
            p in m && m[p] == decide(p).value)
      && (forall p :: p in paths && decide(p).Some? && !Embeds(embed, decide(p).value) ==> p !in m)
      && (forall p :: p in paths && decide(p).None? ==> SameEntry(m, s.metadata, p))
      && (forall k :: k !in paths ==> SameEntry(m, s.metadata, k))
    decreases |paths|
  {
    if paths != [] {
      var pre := paths[..|paths| - 1];
      var last := paths[|paths| - 1];
      assert paths == pre + [last];
      IngestOpsEffect(s, pre, decide, embed);
      var s1 := Applied(s, IngestOps(pre, decide), embed);
      AppliedConcat(s, IngestOps(pre, decide), PathOps(last, decide(last)), embed);
      PathOpsEffect(s1, last, decide(last), embed);
      var m := Applied(s, IngestOps(paths, decide), embed).metadata;
      assert m == Applied(s1, PathOps(last, decide(last)), embed).metadata;
      assert forall k :: k != last ==> SameEntry(m, s1.metadata, k);
      forall p | p in paths && p != last
        ensures p in pre && SameEntry(m, s1.metadata, p)
      {
      }
      forall k | k !in paths
        ensures SameEntry(m, s.metadata, k)
      {
        assert SameEntry(m, s1.metadata, k) && SameEntry(s1.metadata, s.metadata, k);
      }
      if decide(last).None? {
        assert SameEntry(m, s1.metadata, last);
        if last in pre {
          assert SameEntry(s1.metadata, s.metadata, last);
        } else {
          assert SameEntry(s1.metadata, s.metadata, last);
        }
      }
    }
  }

  /** A completed pass, as a whole: a deleted path that no changed path
      brings back has no entry, a changed path accepted with content whose
      embedding succeeds holds that content, one whose embedding fails has
      no entry, and every path the pass does not name keeps its entry. */
  lemma PassStore(s: Store, d: seq<string>, c: seq<string>, decide: string -> Option<string>,
                  embed: seq<string> -> Option<seq<Vector>>)
    ensures var m := Applied(s, DeleteOps(d) + IngestOps(c, decide), embed).metadata;
      && (forall p :: p in d && (p !in c || decide(p).None?) ==> p !in m)
      && (forall p :: p in c && decide(p).Some? && Embeds(embed, decide(p).value) ==>
            p in m && m[p] == decide(p).value)
      && (forall p :: p in c && decide(p).Some? && !Embeds(embed, decide(p).value) ==> p !in m)
      && (forall k :: k !in d && k !in c ==> SameEntry(m, s.metadata, k))
  {
    AppliedConcat(s, DeleteOps(d), IngestOps(c, decide), embed);
    DeleteOpsApplied(s, d, embed);
    RemovalsEffect(s, d);
    IngestOpsEffect(Removals(s, d), c, decide, embed);
  }

  // ---------------------------------------------------------------------------
  // Upload

  /** The pages of an uploaded text: the pieces between runs of two or more
      newlines that are not blank after trimming. */
  function Pages(text: string): seq<string> {
    NonBlank(SplitBlankLines(text))
  }

  /** `filter(p => p.trim().length > 0)`. */
  function NonBlank(ps: seq<string>): seq<string> {
    Filter(ps, (p: string) => Trim(p) != "")
  }

  /** The id of page `i` (counted from 0) of the document with stem `stem`. */
  function PageId(stem: string, i: nat): string {
    stem + "_page_" + NatToString(i + 1)
  }

  /** The upserts of an upload: page i as "<stem>_page_<i+1>", in page order. */
  function PageOps(stem: string, pages: seq<string>): (ops: seq<StoreOp>)
    ensures |ops| == |pages| && forall i :: 0 <= i < |pages| ==> ops[i] == Upsert(PageId(stem, i), pages[i])
  {
    seq(|pages|, i requires 0 <= i < |pages| => Upsert(PageId(stem, i), pages[i]))
  }

  /** The upload calls grow one page at a time. */
  lemma PageOpsSnoc(stem: string, pages: seq<string>, i: nat)
    requires i < |pages|
    ensures PageOps(stem, pages[..i + 1]) == PageOps(stem, pages[..i]) + [Upsert(PageId(stem, i), pages[i])]
  {
  }

  /** The result of `ingestUploadedFile`: its message and the upserts it issues. */
  datatype UploadResult = UploadResult(message: string, ops: seq<StoreOp>)

  /** The upload loop: page i is upserted as "<docId>_page_<i+1>", in page order. */
  method UpsertPages(vs: VectorStore, embed: seq<string> -> Option<seq<Vector>>,
                     docId: string, pages: seq<string>)
    returns (ops: seq<StoreOp>)
    requires vs.Valid()
    modifies vs
    ensures vs.Valid()
    ensures ops == PageOps(docId, pages)
    ensures vs.State() == Applied(old(vs.State()), ops, embed)
  {
    ops := [];
    var i := 0;
    while i < |pages|
      invariant 0 <= i <= |pages|
      invariant ops == PageOps(docId, pages[..i])
      invariant vs.State() == Applied(old(vs.State()), ops, embed)
      invariant vs.Valid()
    {
      var pageId := PageId(docId, i);
      var _ := vs.Upsert(pageId, pages[i], embed);
      PageOpsSnoc(docId, pages, i);
      AppliedSnoc(old(vs.State()), ops, Upsert(pageId, pages[i]), embed);
      ops := ops + [Upsert(pageId, pages[i])];
      i := i + 1;
    }
    assert pages[..|pages|] == pages;
  }

  /** `ingestUploadedFile`: an extension outside the upload set is refused
      with no store call; otherwise page i of the extracted text is upserted
      as "<stem>_page_<i+1>". `extract` gives the text the extractor for a
      (lower-cased) extension produces from the file. */
  method IngestUploadedFile(vs: VectorStore, embed: seq<string> -> Option<seq<Vector>>,
                            filename: string, extract: string -> string)
    returns (result: UploadResult)
    requires vs.Valid()
    modifies vs
    ensures vs.Valid()
    ensures var ext := ToLower(ExtName(filename));
      && (ext !in UploadExts ==> result == UploadResult("Unsupported file type: " + ext, []) && unchanged(vs))
      && (ext in UploadExts ==>
            var pages := Pages(extract(ext));
            && result.message == "Document '" + filename + "' ingested successfully."
            && result.ops == PageOps(Stem(filename), pages)
            && vs.State() == Applied(old(vs.State()), result.ops, embed))
  {
    var ext := ToLower(ExtName(filename));
    if ext !in UploadExts {
      return UploadResult("Unsupported file type: " + ext, []);
    }
    var ops := UpsertPages(vs, embed, Stem(filename), Pages(extract(ext)));
    result := UploadResult("Document '" + filename + "' ingested successfully.", ops);
  }

  /** Page ids of one document are pairwise different. */
  lemma PageIdsDistinct(stem: string, i: nat, j: nat)
    requires i != j
    ensures PageId(stem, i) != PageId(stem, j)
  {
    var p := stem + "_page_";
    if PageId(stem, i) == PageId(stem, j) {
      assert NatToString(i + 1) == PageId(stem, i)[|p|..];
      assert NatToString(j + 1) == PageId(stem, j)[|p|..];
      NatToStringInjective(i + 1, j + 1);
    }
  }

  /** Upserts of `contents[i]` under `ids[i]`, in order. */
  function UpsertOps(ids: seq<string>, contents: seq<string>): (ops: seq<StoreOp>)
    requires |ids| == |contents|
    ensures |ops| == |ids| && forall i :: 0 <= i < |ids| ==> ops[i] == Upsert(ids[i], contents[i])
  {
    seq(|ids|, i requires 0 <= i < |ids| => Upsert(ids[i], contents[i]))
  }

  /** Upserts under pairwise different ids: every document whose embedding
      succeeds is stored with its content, one whose embedding fails leaves
      its id's entry as it was, and every other key keeps its entry. */
  lemma {:induction false} UpsertOpsEffect(s: Store, ids: seq<string>, contents: seq<string>,
                                           embed: seq<string> -> Option<seq<Vector>>)
    requires |ids| == |contents| && NoDuplicates(ids)
    ensures var m := Applied(s, UpsertOps(ids, contents), embed).metadata;
      && (forall i :: 0 <= i < |ids| && Embeds(embed, contents[i]) ==>
            ids[i] in m && m[ids[i]] == contents[i])
      && (forall i :: 0 <= i < |ids| && !Embeds(embed, contents[i]) ==> SameEntry(m, s.metadata, ids[i]))
      && (forall k :: k !in ids ==> SameEntry(m, s.metadata, k))
    decreases |ids|
  {
    if ids != [] {
      var n := |ids| - 1;
      var pre, cpre := ids[..n], contents[..n];
      var ops := UpsertOps(ids, contents);
      assert ops[..n] == UpsertOps(pre, cpre);
      assert NoDuplicates(pre);
      UpsertOpsEffect(s, pre, cpre, embed);
      var s1 := Applied(s, UpsertOps(pre, cpre), embed);
      var last := ids[n];
      assert last !in pre;
      assert ids == pre + [last];
      assert Applied(s, ops, embed) == Upserted(s1, last, contents[n], embed);
      UpsertedEntries(s1, last, contents[n], embed);
      var m := Applied(s, ops, embed).metadata;
      assert forall k :: k != last ==> SameEntry(m, s1.metadata, k);
      assert SameEntry(s1.metadata, s.metadata, last);
      forall i | 0 <= i < |ids| && Embeds(embed, contents[i])
        ensures ids[i] in m && m[ids[i]] == contents[i]
      {
        if i < n {
          assert ids[i] == pre[i] && contents[i] == cpre[i] && ids[i] != last;
          assert SameEntry(m, s1.metadata, ids[i]);
        }
      }
      forall i | 0 <= i < |ids| && !Embeds(embed, contents[i])
        ensures SameEntry(m, s.metadata, ids[i])
      {
        if i < n {
          assert ids[i] == pre[i] && contents[i] == cpre[i] && ids[i] != last;
          assert SameEntry(m, s1.metadata, ids[i]);
          assert SameEntry(s1.metadata, s.metadata, ids[i]);
        }
      }
      forall k | k !in ids
        ensures SameEntry(m, s.metadata, k)
      {
        assert SameEntry(s1.metadata, s.metadata, k);
        assert SameEntry(m, s1.metadata, k);
      }
    }
  }

  /** After the upload loop, every page whose embedding succeeds is stored
      under its page id with its text, a page whose embedding fails leaves
      its id's entry as it was, and every key that is no page id keeps its
      entry. */
  lemma PageOpsEffect(s: Store, stem: string, pages: seq<string>,
                      embed: seq<string> -> Option<seq<Vector>>)
    ensures var m := Applied(s, PageOps(stem, pages), embed).metadata;
      && (forall i :: 0 <= i < |pages| && Embeds(embed, pages[i]) ==>
            PageId(stem, i) in m && m[PageId(stem, i)] == pages[i])
      && (forall i :: 0 <= i < |pages| && !Embeds(embed, pages[i]) ==>
            SameEntry(m, s.metadata, PageId(stem, i)))
      && (forall k :: (forall i :: 0 <= i < |pages| ==> k != PageId(stem, i)) ==>
            SameEntry(m, s.metadata, k))
  {
    var ids := seq(|pages|, i requires 0 <= i < |pages| => PageId(stem, i));
    forall i, j | 0 <= i < j < |ids| ensures ids[i] != ids[j] {
      PageIdsDistinct(stem, i, j);
    }
    assert PageOps(stem, pages) == UpsertOps(ids, pages);
    UpsertOpsEffect(s, ids, pages, embed);
    forall k | forall i :: 0 <= i < |pages| ==> k != PageId(stem, i)
      ensures k !in ids
    {
    }
  }

  /** Every page is non-blank, holds no blank line, and is a piece of the
      split text; the filter keeps every non-blank piece, in order. */
  lemma NonBlankSpec(ps: seq<string>)
    ensures forall k :: 0 <= k < |NonBlank(ps)| ==> Trim(NonBlank(ps)[k]) != "" && NonBlank(ps)[k] in ps
    ensures forall k :: 0 <= k < |ps| && Trim(ps[k]) != "" ==> ps[k] in NonBlank(ps)
    ensures |NonBlank(ps)| <= |ps|
  {
    FilterSpec(ps, (p: string) => Trim(p) != "");
  }

  /** Pages are non-blank and contain no run of two newlines. */
  lemma PagesSpec(text: string)
    ensures forall k :: 0 <= k < |Pages(text)| ==>
      Trim(Pages(text)[k]) != "" && forall j :: !BlankLineAt(Pages(text)[k], j)
  {
    NonBlankSpec(SplitBlankLines(text));
    SplitBlankLinesNoBlankLine(text);
  }
}
