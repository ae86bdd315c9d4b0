/**
 The desktop update agent, owner-app/electron/ownerAgent.ts, as a machine whose steps are the
 pieces of its methods between two awaits.  Polls, applies and discards may fall between any
 two steps; network answers, file failures and external deletions are inputs.
 SHA-256 is an arbitrary function `sha`.
 */
module UpdateAgent {
  import opened Text
  import opened Versions

  type Path = string
  type Bytes = seq<bv8>
  type Digest = string
  type Hash = Bytes -> Digest

  datatype Status = Idle | Checking | Available | Downloading | Staged | Applying | Error

  /** The `owner_app` entry of a manifest; an absent text is "". `path` is where it is staged. */
  datatype Artifact = Artifact(version: string, target: string, targetTrusted: bool, path: Path,
                               sums: string, sumsTrusted: bool)

  /** A download, by what it awaits. */
  datatype Download =
    | WantsManifest
    | WantsBytes(artifact: Artifact)
    | WantsSums(artifact: Artifact, buffer: Bytes)

  datatype Launch = Launch(path: Path, found: Option<Bytes>)

  datatype Agent = Agent(
    configured: bool, current: string,
    status: Status, available: Option<string>, checksumVerified: bool, stagedPath: Option<Path>,
    polls: nat, downloads: map<nat, Download>,
    disk: map<Path, Bytes>, launched: seq<Launch>)

  datatype Write = Written | WriteFailed(left: Option<Bytes>)
  datatype SumsReply = Unreachable | NotListed | Listed(digest: Digest)
  /** How `applyUpdate` goes: no strategy, the script not written, `spawn` throwing, or the installer started. */
  datatype Apply = Unsupported | ScriptFailed | SpawnFailed | Spawned

  datatype Event =
    | PollStart
    | PollAnswer(manifest: Option<Artifact>)
    | DownloadStart(id: nat)
    | ManifestAnswer(id: nat, manifest: Option<Artifact>, dirMade: bool)
    | BytesAnswer(id: nat, body: Option<Bytes>, write: Write, removed: bool)
    | SumsAnswer(id: nat, reply: SumsReply, removed: bool)
    | ApplyNow(how: Apply)
    | DiscardNow(removed: bool)
    | FileLost(path: Path)

  function Init(configured: bool, version: string): Agent {
    Agent(configured, version, Idle, None, false, None, 0, map[], map[], [])
  }

  ghost predicate NewerText(next: string, current: string) {
    Newer(NormalizeVersion(Some(next)), NormalizeVersion(Some(current)))
  }

  /** Can this step happen here?  Answers need their question. */
  predicate Enabled(s: Agent, e: Event) {
    match e
    case PollAnswer(_) => s.polls > 0
    case DownloadStart(id) => id !in s.downloads
    case ManifestAnswer(id, _, _) => id in s.downloads && s.downloads[id].WantsManifest?
    case BytesAnswer(id, _, _, _) => id in s.downloads && s.downloads[id].WantsBytes?
    case SumsAnswer(id, _, _) => id in s.downloads && s.downloads[id].WantsSums?
    case _ => true
  }

  function Failed(s: Agent, id: nat): Agent {
    s.(status := Error, downloads := s.downloads - {id})
  }

  function Removed(disk: map<Path, Bytes>, p: Path, removed: bool): map<Path, Bytes> {
    if removed then disk - {p} else disk
  }

  ghost function Step(s: Agent, e: Event, sha: Hash): Agent
    requires Enabled(s, e)
  {
    match e
    case PollStart =>
      if !s.configured then s.(status := Idle) else s.(status := Checking, polls := s.polls + 1)
    case PollAnswer(manifest) => AfterPoll(s.(polls := s.polls - 1), manifest)
    case DownloadStart(id) =>
      if s.status != Available || !s.configured then s.(status := Error)
      else s.(status := Downloading, downloads := s.downloads[id := WantsManifest])
    case ManifestAnswer(id, manifest, dirMade) =>
      if manifest.None? || manifest.value.target == "" || manifest.value.version == ""
         || !manifest.value.targetTrusted || !dirMade then Failed(s, id)
      else s.(downloads := s.downloads[id := WantsBytes(manifest.value)])
    case BytesAnswer(id, body, write, removed) => AfterBytes(s, id, s.downloads[id].artifact, body, write, removed)
    case SumsAnswer(id, reply, removed) =>
      AfterSums(s, id, s.downloads[id].artifact, s.downloads[id].buffer, reply, removed, sha)
    case ApplyNow(how) => AfterApply(s, how)
    case DiscardNow(removed) =>
      s.(status := if s.available.Some? && s.available.value != "" then Available else Idle,
         stagedPath := None,
         disk := if s.stagedPath.Some? then Removed(s.disk, s.stagedPath.value, removed) else s.disk)
    case FileLost(path) => s.(disk := s.disk - {path})
  }

  function AfterApply(s: Agent, how: Apply): Agent {
    if s.status != Staged || s.stagedPath.None? then s.(status := Error)
    else if how.Unsupported? || how.ScriptFailed? then s.(status := Error)
    else if how.SpawnFailed? then s.(status := Error, stagedPath := None)
    else
      var p := s.stagedPath.value;
      s.(status := Applying, stagedPath := None,
         launched := s.launched + [Launch(p, if p in s.disk then Some(s.disk[p]) else None)])
  }

  ghost function AfterPoll(s: Agent, manifest: Option<Artifact>): Agent {
    match manifest
    case None => s.(status := Error)
    case Some(a) =>
      if a.version == "" || a.target == "" then s.(status := Idle)
      else s.(status := if NewerText(a.version, s.current) then Available else Idle, available := Some(a.version))
  }

  function AfterBytes(s: Agent, id: nat, a: Artifact, body: Option<Bytes>, write: Write, removed: bool): Agent {
    match (body, write)
    case (None, _) => Failed(s, id)
    case (Some(_), WriteFailed(left)) =>
      Failed(s.(disk := if left.Some? then s.disk[a.path := left.value] else s.disk), id)
    case (Some(buffer), Written) =>
      var t := s.(disk := s.disk[a.path := buffer]);
      if a.sums == "" then Failed(t.(disk := Removed(t.disk, a.path, removed)), id)
      else if !a.sumsTrusted then Failed(t, id)
      else t.(downloads := t.downloads[id := WantsSums(a, buffer)])
  }

  function AfterSums(s: Agent, id: nat, a: Artifact, buffer: Bytes, reply: SumsReply, removed: bool, sha: Hash): Agent {
    match reply
    case Unreachable => Failed(s, id)
    case NotListed => Failed(s.(disk := Removed(s.disk, a.path, removed)), id)
    case Listed(digest) =>
      if sha(buffer) != digest then Failed(s.(disk := Removed(s.disk, a.path, removed)), id)
      else s.(stagedPath := Some(a.path), status := Staged, available := Some(a.version),
              checksumVerified := true, downloads := s.downloads - {id})
  }

  // ---------------------------------------------------------------- the agent itself

  /** The fields of the source's class, with the disk and the spawned installers as its world. */
  class OwnerUpdateAgent {
    const configured: bool
    const current: string
    const sha: Hash
    var status: Status
    var available: Option<string>
    var checksumVerified: bool
    var stagedPath: Option<Path>
    var polls: nat
    var downloads: map<nat, Download>
    var disk: map<Path, Bytes>
    var launched: seq<Launch>

    function View(): Agent
      reads this
    {
      Agent(configured, current, status, available, checksumVerified, stagedPath, polls, downloads, disk, launched)
    }

    constructor (configured: bool, version: string, sha: Hash)
      ensures View() == Init(configured, version) && this.sha == sha
    {
      this.configured, this.current, this.sha := configured, version, sha;
      status, available, checksumVerified, stagedPath := Idle, None, false, None;
      polls, downloads, disk, launched := 0, map[], map[], [];
    }

    method CheckForUpdate()
      modifies this
      ensures View() == Step(old(View()), PollStart, sha)
    {
      if !configured {
        status := Idle;
        return;
      }
      status := Checking;
      polls := polls + 1;
    }

    method CheckForUpdateAnswered(manifest: Option<Artifact>)
      requires Enabled(View(), PollAnswer(manifest))
      modifies this
      ensures View() == Step(old(View()), PollAnswer(manifest), sha)
    {
      polls := polls - 1;
      match manifest
      case None => status := Error;
      case Some(a) =>
        if a.version == "" || a.target == "" {
          status := Idle;
          return;
        }
        var greater := IsVersionGreater(Some(a.version), Some(current));
        status := if greater then Available else Idle;
        available := Some(a.version);
    }

    method DownloadUpdate(id: nat)
      requires Enabled(View(), DownloadStart(id))
      modifies this
      ensures View() == Step(old(View()), DownloadStart(id), sha)
    {
      if status != Available || !configured {
        status := Error;
        return;
      }
      status := Downloading;
      downloads := downloads[id := WantsManifest];
    }

    method DownloadFailed(id: nat)
      modifies this`status, this`downloads
      ensures View() == Failed(old(View()), id)
    {
      status := Error;
      downloads := downloads - {id};
    }

    method DownloadManifestAnswered(id: nat, manifest: Option<Artifact>, dirMade: bool)
      requires Enabled(View(), ManifestAnswer(id, manifest, dirMade))
      modifies this
      ensures View() == Step(old(View()), ManifestAnswer(id, manifest, dirMade), sha)
    {
      if manifest.None? || manifest.value.target == "" || manifest.value.version == ""
         || !manifest.value.targetTrusted || !dirMade {
        DownloadFailed(id);
        return;
      }
      downloads := downloads[id := WantsBytes(manifest.value)];
    }

    method DownloadBytesAnswered(id: nat, body: Option<Bytes>, write: Write, removed: bool)
      requires Enabled(View(), BytesAnswer(id, body, write, removed))
      modifies this
      ensures View() == Step(old(View()), BytesAnswer(id, body, write, removed), sha)
    {
      var a := downloads[id].artifact;
      if body.None? {
        DownloadFailed(id);
        return;
      }
      if write.WriteFailed? {
        if write.left.Some? {
          disk := disk[a.path := write.left.value];
        }
        DownloadFailed(id);
        return;
      }
      disk := disk[a.path := body.value];
      if a.sums == "" {
        if removed {
          disk := disk - {a.path};
        }
        DownloadFailed(id);
      } else if !a.sumsTrusted {
        DownloadFailed(id);
      } else {
        downloads := downloads[id := WantsSums(a, body.value)];
      }
    }

    method DownloadSumsAnswered(id: nat, reply: SumsReply, removed: bool)
      requires Enabled(View(), SumsAnswer(id, reply, removed))
      modifies this
      ensures View() == Step(old(View()), SumsAnswer(id, reply, removed), sha)
    {
      var a, buffer := downloads[id].artifact, downloads[id].buffer;
      if reply.Unreachable? {
        DownloadFailed(id);
        return;
      }
      if reply.NotListed? || sha(buffer) != reply.digest {
        if removed {
          disk := disk - {a.path};
        }
        DownloadFailed(id);
        return;
      }
      stagedPath := Some(a.path);
      status, available, checksumVerified := Staged, Some(a.version), true;
      downloads := downloads - {id};
    }

    method ApplyUpdate(how: Apply)
      modifies this
      ensures View() == Step(old(View()), ApplyNow(how), sha)
    {
      if status != Staged || stagedPath.None? {
        status := Error;
        return;
      }
      var p := stagedPath.value;
      status := Applying;
      if how.Unsupported? || how.ScriptFailed? {
        status := Error;
        return;
      }
      stagedPath := None;
      if how.SpawnFailed? {
        status := Error;
        return;
      }
      launched := launched + [Launch(p, if p in disk then Some(disk[p]) else None)];
    }

    method DiscardUpdate(removed: bool)
      modifies this
      ensures View() == Step(old(View()), DiscardNow(removed), sha)
    {
      if stagedPath.Some? && removed {
        disk := disk - {stagedPath.value};
      }
      stagedPath := None;
      status := if available.Some? && available.value != "" then Available else Idle;
    }
  }

  // ---------------------------------------------------------------- runs

  /** `ss` are the states met while the steps `es` happen, from a fresh agent on. */
  ghost predicate Behaviour(ss: seq<Agent>, es: seq<Event>, sha: Hash) {
    && |ss| == |es| + 1
    && ss[0] == Init(ss[0].configured, ss[0].current)
    && forall k :: 0 <= k < |es| ==> Follows(ss, es, sha, k)
  }

  /** The k-th step can happen and leads to the next state. */
  ghost predicate Follows(ss: seq<Agent>, es: seq<Event>, sha: Hash, k: nat)
    requires k < |es| < |ss|
  {
    Enabled(ss[k], es[k]) && ss[k + 1] == Step(ss[k], es[k], sha)
  }

  lemma Extend(ss: seq<Agent>, es: seq<Event>, sha: Hash, e: Event) returns (ss': seq<Agent>, es': seq<Event>)
    requires Behaviour(ss, es, sha) && Enabled(ss[|es|], e)
    ensures es' == es + [e] && ss' == ss + [Step(ss[|es|], e, sha)]
    ensures Behaviour(ss', es', sha) && ss'[|es'|] == Step(ss[|es|], e, sha)
  {
    es' := es + [e];
    ss' := ss + [Step(ss[|es|], e, sha)];
    forall k | 0 <= k < |es'| ensures Follows(ss', es', sha, k) {
      assert k < |es| ==> Follows(ss, es, sha, k);
    }
  }

  /** A poll offers an upgrade and a download of it is accepted. */
  lemma OfferAndDownload(ss: seq<Agent>, es: seq<Event>, sha: Hash, a: Artifact, id: nat)
    returns (ss': seq<Agent>, es': seq<Event>)
    requires Behaviour(ss, es, sha) && NewerText(a.version, ss[|es|].current) && a.version != "" && a.target != ""
    requires ss[|es|].configured && id !in ss[|es|].downloads
    ensures Behaviour(ss', es', sha) && ss <= ss'
    ensures es' == es + [PollStart, PollAnswer(Some(a)), DownloadStart(id)]
    ensures ss'[|es'|] == ss[|es|].(status := Downloading, available := Some(a.version),
                                    downloads := ss[|es|].downloads[id := WantsManifest])
  {
    ss', es' := Extend(ss, es, sha, PollStart);
    ss', es' := Extend(ss', es', sha, PollAnswer(Some(a)));
    ss', es' := Extend(ss', es', sha, DownloadStart(id));
  }
}
