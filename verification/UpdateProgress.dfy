/** What the update agent does achieve: offers, downloads, stages and installs, exactly when. */
module UpdateProgress {
  import opened Text
  import opened Versions
  import opened UpdateAgent
  import opened UpdateSafety

  // ---------------------------------------------------------------- installers

  /** The step hands a staged update to its installer. */
  predicate Installs(s: Agent, e: Event) { e == ApplyNow(Spawned) && s.status == Staged && s.stagedPath.Some? }

  function FoundAt(disk: map<Path, Bytes>, p: Path): Option<Bytes> { if p in disk then Some(disk[p]) else None }

  /** The installers that the first k steps start: each on the path staged then, with what the file held then. */
  function InstallersOf(ss: seq<Agent>, es: seq<Event>, k: nat): seq<Launch>
    requires k <= |es| < |ss|
  {
    if k == 0 then []
    else
      var s := ss[k - 1];
      InstallersOf(ss, es, k - 1) +
      if Installs(s, es[k - 1]) then [Launch(s.stagedPath.value, FoundAt(s.disk, s.stagedPath.value))] else []
  }

  function CountInstalls(ss: seq<Agent>, es: seq<Event>, k: nat): nat
    requires k <= |es| < |ss|
  {
    if k == 0 then 0 else CountInstalls(ss, es, k - 1) + if Installs(ss[k - 1], es[k - 1]) then 1 else 0
  }

  lemma StepInstalls(s: Agent, e: Event, sha: Hash)
    requires Enabled(s, e)
    ensures Installs(s, e) ==>
              var p := s.stagedPath.value;
              Step(s, e, sha) == s.(status := Applying, stagedPath := None,
                                    launched := s.launched + [Launch(p, FoundAt(s.disk, p))])
    ensures !Installs(s, e) ==> Step(s, e, sha).launched == s.launched
  {
  }

  /** In every run the installers started are those of its applications of a staged update, in order. */
  lemma {:induction false} InstallersExactly(ss: seq<Agent>, es: seq<Event>, sha: Hash, k: nat)
    requires Behaviour(ss, es, sha) && k <= |es|
    ensures ss[k].launched == InstallersOf(ss, es, k) && |ss[k].launched| == CountInstalls(ss, es, k)
  {
    if k == 0 {
    } else {
      InstallersExactly(ss, es, sha, k - 1);
      assert Follows(ss, es, sha, k - 1);
      StepInstalls(ss[k - 1], es[k - 1], sha);
      assert InstallersOf(ss, es, k - 1) + [] == InstallersOf(ss, es, k - 1);
    }
  }

  /** A poll, a download whose digest is listed and an application: one installer, on the downloaded bytes. */
  lemma UpdateIsInstalled(sha: Hash, a: Artifact, body: Bytes) returns (ss: seq<Agent>, es: seq<Event>)
    requires a.version == "2.0.0" && a.target != "" && a.targetTrusted && a.sums != "" && a.sumsTrusted
    ensures Behaviour(ss, es, sha) && ss[0] == Init(true, "1.0.0")
    ensures var end := ss[|es|];
            && end.status == Applying && end.stagedPath == None && end.checksumVerified
            && end.available == Some("2.0.0") && end.downloads == map[]
            && end.launched == [Launch(a.path, Some(body))]
  {
    TwoIsNewer();
    ss, es := [Init(true, "1.0.0")], [];
    ss, es := OfferAndDownload(ss, es, sha, a, 0);
    ss, es := DownloadArrives(ss, es, sha, a, body);
    ss, es := Install(ss, es, sha, a.path, body);
  }

  lemma Install(ss: seq<Agent>, es: seq<Event>, sha: Hash, p: Path, body: Bytes)
    returns (ss': seq<Agent>, es': seq<Event>)
    requires Behaviour(ss, es, sha)
    requires var s := ss[|es|]; s.status == Staged && s.stagedPath == Some(p) && p in s.disk && s.disk[p] == body
    ensures Behaviour(ss', es', sha) && ss <= ss'
    ensures ss'[|es'|] == ss[|es|].(status := Applying, stagedPath := None,
                                    launched := ss[|es|].launched + [Launch(p, Some(body))])
  {
    StepInstalls(ss[|es|], ApplyNow(Spawned), sha);
    ss', es' := Extend(ss, es, sha, ApplyNow(Spawned));
  }

  lemma DownloadArrives(ss: seq<Agent>, es: seq<Event>, sha: Hash, a: Artifact, body: Bytes)
    returns (ss': seq<Agent>, es': seq<Event>)
    requires Behaviour(ss, es, sha) && ss[|es|].downloads == map[0 := WantsManifest]
    requires a.version != "" && a.target != "" && a.targetTrusted && a.sums != "" && a.sumsTrusted
    ensures Behaviour(ss', es', sha) && ss <= ss'
    ensures ss'[|es'|] == ss[|es|].(status := Staged, stagedPath := Some(a.path), checksumVerified := true,
                                    available := Some(a.version), downloads := map[],
                                    disk := ss[|es|].disk[a.path := body])
  {
    ss', es' := Extend(ss, es, sha, ManifestAnswer(0, Some(a), true));
    assert ss'[|es'|].downloads == map[0 := WantsBytes(a)];
    ss', es' := Extend(ss', es', sha, BytesAnswer(0, Some(body), Written, true));
    assert ss'[|es'|].downloads == map[0 := WantsSums(a, body)];
    ss', es' := Extend(ss', es', sha, SumsAnswer(0, Listed(sha(body)), true));
  }

  // ---------------------------------------------------------------- offers, downloads, staging

  /** A poll finds a newer version with something to download. */
  ghost predicate FindsUpgrade(s: Agent, e: Event) {
    && e.PollAnswer? && e.manifest.Some?
    && e.manifest.value.version != "" && e.manifest.value.target != ""
    && NewerText(e.manifest.value.version, s.current)
  }

  lemma OthersOfferNothing(s: Agent, e: Event, sha: Hash)
    requires Enabled(s, e) && !e.PollAnswer? && !e.DiscardNow? && s.status != Available
    ensures Step(s, e, sha).status != Available
  {
  }

  /** `available` comes from a poll that finds an upgrade, or a discard after a version was seen; from nothing else. */
  lemma OffersExactly(s: Agent, e: Event, sha: Hash)
    requires Enabled(s, e) && s.status != Available
    ensures Step(s, e, sha).status == Available <==>
            FindsUpgrade(s, e) || (e.DiscardNow? && s.available.Some? && s.available.value != "")
    ensures FindsUpgrade(s, e) ==> Step(s, e, sha).available == Some(e.manifest.value.version)
  {
    if !e.PollAnswer? && !e.DiscardNow? {
      OthersOfferNothing(s, e, sha);
    }
  }

  /**
   A poll ends in an error exactly without a manifest, and idle exactly with one that offers no upgrade;
   it notes the version of any complete one.
   */
  lemma PollEndsExactly(s: Agent, e: Event, sha: Hash)
    requires Enabled(s, e) && e.PollAnswer?
    ensures Step(s, e, sha).status == Error <==> e.manifest.None?
    ensures Step(s, e, sha).status == Idle <==> e.manifest.Some? && !FindsUpgrade(s, e)
    ensures Step(s, e, sha).available ==
            if e.manifest.Some? && e.manifest.value.version != "" && e.manifest.value.target != ""
            then Some(e.manifest.value.version) else s.available
    ensures Step(s, e, sha).downloads == s.downloads && Step(s, e, sha).stagedPath == s.stagedPath
  {
  }

  /** A download is taken up exactly when one is asked for while an update is on offer. */
  lemma AcceptsExactly(s: Agent, e: Event, sha: Hash, id: nat)
    requires Enabled(s, e) && id !in s.downloads
    ensures id in Step(s, e, sha).downloads <==> e == DownloadStart(id) && s.status == Available && s.configured
    ensures id in Step(s, e, sha).downloads ==>
              Step(s, e, sha).status == Downloading && Step(s, e, sha).downloads[id] == WantsManifest
  {
  }

  /** The download's body, verified now, has the digest listed for it. */
  predicate Verifies(s: Agent, e: Event, sha: Hash) {
    e.SumsAnswer? && Enabled(s, e) && e.reply == Listed(sha(s.downloads[e.id].buffer))
  }

  /** An update is staged exactly when a download verifies, and then it is that download's. */
  lemma StagesExactly(s: Agent, e: Event, sha: Hash)
    requires Enabled(s, e)
    ensures s.status != Staged ==> (Step(s, e, sha).status == Staged <==> Verifies(s, e, sha))
    ensures Verifies(s, e, sha) ==>
              var a := s.downloads[e.id].artifact;
              var t := Step(s, e, sha);
              && t.stagedPath == Some(a.path) && t.available == Some(a.version) && t.checksumVerified
              && t.downloads == s.downloads - {e.id} && t.disk == s.disk
  {
  }

  /** A body that fails verification is reported, and gone from the disk where removal works. */
  lemma RejectedIsRemoved(s: Agent, e: Event, sha: Hash)
    requires Enabled(s, e) && e.SumsAnswer? && !Verifies(s, e, sha)
    ensures var t := Step(s, e, sha);
            && t.status == Error && t.downloads == s.downloads - {e.id} && t.stagedPath == s.stagedPath
            && (e.removed && !e.reply.Unreachable? ==> s.downloads[e.id].artifact.path !in t.disk)
            && (!e.removed || e.reply.Unreachable? ==> t.disk == s.disk)
  {
  }

  lemma OnlyAnswersEnd(s: Agent, e: Event, sha: Hash, id: nat)
    requires Enabled(s, e) && id in s.downloads && id !in Step(s, e, sha).downloads
    ensures (e.ManifestAnswer? || e.BytesAnswer? || e.SumsAnswer?) && e.id == id
  {
  }

  lemma FailuresAreReported(s: Agent, e: Event, sha: Hash)
    requires Enabled(s, e) && (e.ManifestAnswer? || e.BytesAnswer?) && e.id !in Step(s, e, sha).downloads
    ensures Step(s, e, sha).status == Error
  {
  }

  /** A download that leaves flight was either staged or reported as failed. */
  lemma DownloadsEndInTwoWays(s: Agent, e: Event, sha: Hash, id: nat)
    requires Enabled(s, e) && id in s.downloads && id !in Step(s, e, sha).downloads
    ensures if Verifies(s, e, sha) then Step(s, e, sha).status == Staged else Step(s, e, sha).status == Error
  {
    OnlyAnswersEnd(s, e, sha, id);
    if e.SumsAnswer? {
      StagesExactly(s, e, sha);
      if !Verifies(s, e, sha) {
        RejectedIsRemoved(s, e, sha);
      }
    } else {
      FailuresAreReported(s, e, sha);
    }
  }

  /** A body goes on to verification exactly when it is written and a trusted checksum list is named. */
  lemma BodyGoesOnExactly(s: Agent, e: Event, sha: Hash)
    requires Enabled(s, e) && e.BytesAnswer?
    ensures var a := s.downloads[e.id].artifact;
            var t := Step(s, e, sha);
            && (e.id in t.downloads <==> e.body.Some? && e.write.Written? && a.sums != "" && a.sumsTrusted)
            && (e.id in t.downloads ==>
                  t.downloads[e.id] == WantsSums(a, e.body.value) && a.path in t.disk && t.disk[a.path] == e.body.value)
  {
  }

  /** A manifest goes on to its body exactly when it is complete, its address is trusted and the directory is there. */
  lemma ManifestGoesOnExactly(s: Agent, e: Event, sha: Hash)
    requires Enabled(s, e) && e.ManifestAnswer?
    ensures var t := Step(s, e, sha);
            && (e.id in t.downloads <==> e.manifest.Some? && e.manifest.value.version != "" && e.manifest.value.target != ""
                                         && e.manifest.value.targetTrusted && e.dirMade)
            && (e.id in t.downloads ==> t.downloads[e.id] == WantsBytes(e.manifest.value))
  {
  }

  /** A discard forgets the staged path, and its file goes where removal works. */
  lemma DiscardDrops(s: Agent, removed: bool, sha: Hash)
    ensures var t := Step(s, DiscardNow(removed), sha);
            && t.stagedPath == None && t.status != Staged
            && (removed && s.stagedPath.Some? ==> s.stagedPath.value !in t.disk)
            && (forall p :: p in s.disk && s.stagedPath != Some(p) ==> p in t.disk && t.disk[p] == s.disk[p])
  {
  }

  // ---------------------------------------------------------------- refusals

  /** A poll starts exactly on a configured agent. */
  lemma PollStartsExactly(s: Agent, sha: Hash)
    ensures Step(s, PollStart, sha) ==
            if s.configured then s.(status := Checking, polls := s.polls + 1) else s.(status := Idle)
  {
  }

  /** A download that is refused, or an application of nothing staged, changes the status only. */
  lemma RefusalsOnlyReport(s: Agent, e: Event, sha: Hash)
    requires Enabled(s, e) && (e.DownloadStart? || e.ApplyNow?)
    requires e.DownloadStart? ==> s.status != Available || !s.configured
    requires e.ApplyNow? ==> s.status != Staged || s.stagedPath.None?
    ensures Step(s, e, sha) == s.(status := Error)
  {
  }

  /** An application that fails reports it and starts nothing; the update stays staged unless `spawn` itself threw. */
  lemma FailedApplyExactly(s: Agent, how: Apply, sha: Hash)
    requires s.status == Staged && s.stagedPath.Some? && !how.Spawned?
    ensures var t := Step(s, ApplyNow(how), sha);
            && t.status == Error && t.launched == s.launched && t.disk == s.disk
            && t.stagedPath == if how.SpawnFailed? then None else s.stagedPath
  {
  }

  /** A body that cannot be written leaves what the failed write left. */
  lemma FailedWriteExactly(s: Agent, e: Event, sha: Hash)
    requires Enabled(s, e) && e.BytesAnswer? && e.body.Some? && e.write.WriteFailed?
    ensures var p := s.downloads[e.id].artifact.path;
            Step(s, e, sha) == s.(status := Error, downloads := s.downloads - {e.id},
                                  disk := if e.write.left.Some? then s.disk[p := e.write.left.value] else s.disk)
  {
  }
}
