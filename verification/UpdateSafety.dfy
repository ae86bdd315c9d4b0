/** What the update agent stages and installs: exactly which steps, and which runs, are safe. */
module UpdateSafety {
  import opened Text
  import opened UpdateAgent

  /** What a checksum answer lists: a digest for the file that asked. */
  function Listing(s: Agent, e: Event): set<(Path, Digest)> {
    if e.SumsAnswer? && e.reply.Listed? && Enabled(s, e) then {(s.downloads[e.id].artifact.path, e.reply.digest)} else {}
  }

  /** Every digest listed for a file in the first k steps. */
  function Listings(ss: seq<Agent>, es: seq<Event>, k: nat): set<(Path, Digest)>
    requires k <= |es| < |ss|
  {
    if k == 0 then {} else Listings(ss, es, k - 1) + Listing(ss[k - 1], es[k - 1])
  }

  /** What may be found at `p` has a digest listed for that file. */
  predicate Genuine(disk: map<Path, Bytes>, p: Path, listed: set<(Path, Digest)>, sha: Hash) {
    p in disk ==> (p, sha(disk[p])) in listed
  }

  predicate StagedIsGenuine(s: Agent, listed: set<(Path, Digest)>, sha: Hash) {
    s.status == Staged ==>
      s.stagedPath.Some? && s.checksumVerified && Genuine(s.disk, s.stagedPath.value, listed, sha)
  }

  predicate LaunchesAreGenuine(s: Agent, listed: set<(Path, Digest)>, sha: Hash) {
    forall k :: 0 <= k < |s.launched| && s.launched[k].found.Some? ==>
      (s.launched[k].path, sha(s.launched[k].found.value)) in listed
  }

  /** `staged` means a verified path with genuine bytes, and installers were started on such bytes only. */
  predicate Safe(s: Agent, listed: set<(Path, Digest)>, sha: Hash) {
    StagedIsGenuine(s, listed, sha) && LaunchesAreGenuine(s, listed, sha)
  }

  // ---------------------------------------------------------------- the two unsafe steps

  /** A body passes verification while its file holds other bytes, of an unlisted digest. */
  predicate StagesUnlisted(s: Agent, e: Event, listed: set<(Path, Digest)>, sha: Hash) {
    && e.SumsAnswer? && Enabled(s, e)
    && e.reply == Listed(sha(s.downloads[e.id].buffer))
    && !Genuine(s.disk, s.downloads[e.id].artifact.path, listed + Listing(s, e), sha)
  }

  /** An accepted body of an unlisted digest is written over the staged file. */
  predicate OverwritesStaged(s: Agent, e: Event, listed: set<(Path, Digest)>, sha: Hash) {
    && s.status == Staged && e.BytesAnswer? && Enabled(s, e) && e.body.Some? && e.write.Written?
    && var a := s.downloads[e.id].artifact;
       a.sums != "" && a.sumsTrusted && s.stagedPath == Some(a.path) && (a.path, sha(e.body.value)) !in listed
  }

  lemma BytesSafety(s: Agent, e: Event, listed: set<(Path, Digest)>, sha: Hash)
    requires Safe(s, listed, sha) && Enabled(s, e) && e.BytesAnswer?
    ensures StagedIsGenuine(Step(s, e, sha), listed, sha) <==> !OverwritesStaged(s, e, listed, sha)
  {
  }

  lemma SumsSafety(s: Agent, e: Event, listed: set<(Path, Digest)>, sha: Hash)
    requires Safe(s, listed, sha) && Enabled(s, e) && e.SumsAnswer?
    ensures StagedIsGenuine(Step(s, e, sha), listed + Listing(s, e), sha) <==> !StagesUnlisted(s, e, listed, sha)
  {
  }

  lemma OtherStepsStayGenuine(s: Agent, e: Event, listed: set<(Path, Digest)>, sha: Hash)
    requires Safe(s, listed, sha) && Enabled(s, e) && !e.BytesAnswer? && !e.SumsAnswer?
    ensures StagedIsGenuine(Step(s, e, sha), listed, sha)
  {
  }

  lemma LaunchesStayGenuine(s: Agent, e: Event, listed: set<(Path, Digest)>, sha: Hash)
    requires Safe(s, listed, sha) && Enabled(s, e)
    ensures LaunchesAreGenuine(Step(s, e, sha), listed + Listing(s, e), sha)
  {
    var t := Step(s, e, sha);
    if e.ApplyNow? {
      assert t == AfterApply(s, e.how);
    } else {
      assert t.launched == s.launched;
    }
  }

  /** Safety is lost by these two steps and by no other. */
  lemma SafetyIsLostExactly(s: Agent, e: Event, listed: set<(Path, Digest)>, sha: Hash)
    requires Safe(s, listed, sha) && Enabled(s, e)
    ensures Safe(Step(s, e, sha), listed + Listing(s, e), sha) <==>
            !StagesUnlisted(s, e, listed, sha) && !OverwritesStaged(s, e, listed, sha)
  {
    LaunchesStayGenuine(s, e, listed, sha);
    assert !e.SumsAnswer? ==> listed + Listing(s, e) == listed;
    if e.BytesAnswer? {
      BytesSafety(s, e, listed, sha);
    } else if e.SumsAnswer? {
      SumsSafety(s, e, listed, sha);
    } else {
      OtherStepsStayGenuine(s, e, listed, sha);
    }
  }

  ghost predicate SafeAt(ss: seq<Agent>, es: seq<Event>, sha: Hash, k: nat)
    requires Behaviour(ss, es, sha) && k < |ss|
  {
    Safe(ss[k], Listings(ss, es, k), sha)
  }

  ghost predicate SafeStep(ss: seq<Agent>, es: seq<Event>, sha: Hash, k: nat)
    requires Behaviour(ss, es, sha) && k < |es|
  {
    var listed := Listings(ss, es, k);
    !StagesUnlisted(ss[k], es[k], listed, sha) && !OverwritesStaged(ss[k], es[k], listed, sha)
  }

  lemma SafeNextExactly(ss: seq<Agent>, es: seq<Event>, sha: Hash, k: nat)
    requires Behaviour(ss, es, sha) && k < |es| && SafeAt(ss, es, sha, k)
    ensures SafeAt(ss, es, sha, k + 1) <==> SafeStep(ss, es, sha, k)
  {
    assert Follows(ss, es, sha, k);
    SafetyIsLostExactly(ss[k], es[k], Listings(ss, es, k), sha);
  }

  lemma FreshIsSafe(ss: seq<Agent>, es: seq<Event>, sha: Hash)
    requires Behaviour(ss, es, sha)
    ensures SafeAt(ss, es, sha, 0)
  {
  }

  ghost predicate SafeUpTo(ss: seq<Agent>, es: seq<Event>, sha: Hash, n: nat)
    requires Behaviour(ss, es, sha) && n < |ss|
  {
    forall k :: 0 <= k <= n ==> SafeAt(ss, es, sha, k)
  }

  ghost predicate SafeSteps(ss: seq<Agent>, es: seq<Event>, sha: Hash, n: nat)
    requires Behaviour(ss, es, sha) && n <= |es|
  {
    forall k :: 0 <= k < n ==> SafeStep(ss, es, sha, k)
  }

  lemma OneMore(ss: seq<Agent>, es: seq<Event>, sha: Hash, n: nat)
    requires Behaviour(ss, es, sha) && 0 < n <= |es|
    ensures SafeUpTo(ss, es, sha, n) <==> SafeUpTo(ss, es, sha, n - 1) && SafeAt(ss, es, sha, n)
    ensures SafeSteps(ss, es, sha, n) <==> SafeSteps(ss, es, sha, n - 1) && SafeStep(ss, es, sha, n - 1)
  {
  }

  /** A run is safe in its first n + 1 states exactly when none of its first n steps is one of the two. */
  lemma {:induction false} SafeRunsExactly(ss: seq<Agent>, es: seq<Event>, sha: Hash, n: nat)
    requires Behaviour(ss, es, sha) && n <= |es|
    ensures SafeUpTo(ss, es, sha, n) <==> SafeSteps(ss, es, sha, n)
  {
    if n == 0 {
      FreshIsSafe(ss, es, sha);
    } else {
      SafeRunsExactly(ss, es, sha, n - 1);
      OneMore(ss, es, sha, n);
      if SafeUpTo(ss, es, sha, n - 1) {
        assert SafeAt(ss, es, sha, n - 1);
        SafeNextExactly(ss, es, sha, n - 1);
      }
    }
  }

  // ---------------------------------------------------------------- downloads that share no file

  predicate Writes(d: Download, p: Path) { !d.WantsManifest? && d.artifact.path == p }

  /** No two downloads in flight write one file, and none writes the staged one. */
  ghost predicate SharesNoFile(s: Agent) {
    && (forall i, j, p :: i in s.downloads && j in s.downloads && Writes(s.downloads[i], p) && Writes(s.downloads[j], p) ==>
          i == j)
    && (s.status == Staged && s.stagedPath.Some? ==>
          forall i :: i in s.downloads ==> !Writes(s.downloads[i], s.stagedPath.value))
  }

  predicate BufferOnDisk(d: Download, disk: map<Path, Bytes>) {
    d.WantsSums? ==> d.artifact.path in disk ==> disk[d.artifact.path] == d.buffer
  }

  /** A body being verified is what its file holds, if the file is there. */
  ghost predicate BuffersOnDisk(s: Agent) {
    forall id :: id in s.downloads ==> BufferOnDisk(s.downloads[id], s.disk)
  }

  /** An answer to a download touches that download's file only. */
  lemma AnswerTouchesOneFile(s: Agent, e: Event, sha: Hash, other: nat)
    requires (e.BytesAnswer? || e.SumsAnswer?) && Enabled(s, e) && other in s.downloads && other != e.id
    requires BufferOnDisk(s.downloads[other], s.disk)
    requires !Writes(s.downloads[other], s.downloads[e.id].artifact.path)
    ensures BufferOnDisk(s.downloads[other], Step(s, e, sha).disk)
  {
  }

  lemma AnswerKeepsOwnBuffer(s: Agent, e: Event, sha: Hash)
    requires (e.BytesAnswer? || e.SumsAnswer?) && Enabled(s, e)
    ensures var t := Step(s, e, sha); e.id in t.downloads ==> BufferOnDisk(t.downloads[e.id], t.disk)
  {
  }

  lemma AnswerKeepsOthers(s: Agent, e: Event, sha: Hash)
    requires (e.BytesAnswer? || e.SumsAnswer?) && Enabled(s, e)
    ensures var t := Step(s, e, sha);
            forall id :: id in t.downloads && id != e.id ==> id in s.downloads && t.downloads[id] == s.downloads[id]
  {
  }

  lemma OtherStepsKeepBuffers(s: Agent, e: Event, sha: Hash)
    requires !e.BytesAnswer? && !e.SumsAnswer?
    requires BuffersOnDisk(s) && Enabled(s, e)
    ensures BuffersOnDisk(Step(s, e, sha))
  {
  }

  lemma StepKeepsBuffers(s: Agent, e: Event, sha: Hash)
    requires BuffersOnDisk(s) && Enabled(s, e) && SharesNoFile(s)
    ensures BuffersOnDisk(Step(s, e, sha))
  {
    if e.BytesAnswer? || e.SumsAnswer? {
      var t := Step(s, e, sha);
      AnswerKeepsOthers(s, e, sha);
      AnswerKeepsOwnBuffer(s, e, sha);
      assert Writes(s.downloads[e.id], s.downloads[e.id].artifact.path);
      forall id | id in t.downloads ensures BufferOnDisk(t.downloads[id], t.disk) {
        if id != e.id {
          AnswerTouchesOneFile(s, e, sha, id);
        }
      }
    } else {
      OtherStepsKeepBuffers(s, e, sha);
    }
  }

  lemma UnsharedStepIsSafe(s: Agent, e: Event, listed: set<(Path, Digest)>, sha: Hash)
    requires BuffersOnDisk(s) && Enabled(s, e) && SharesNoFile(s)
    ensures !StagesUnlisted(s, e, listed, sha) && !OverwritesStaged(s, e, listed, sha)
  {
    if e.SumsAnswer? {
      assert BufferOnDisk(s.downloads[e.id], s.disk);
    } else if e.BytesAnswer? {
      assert Writes(s.downloads[e.id], s.downloads[e.id].artifact.path);
    }
  }

  /**
   In every interleaving in which no two downloads share a file: `staged` means a verified staged path
   whose file, if present, has a digest listed for it, and every installer was started on such a file.
   */
  lemma {:induction false} EveryStateIsSafe(ss: seq<Agent>, es: seq<Event>, sha: Hash, k: nat)
    requires Behaviour(ss, es, sha) && k < |ss| && forall j :: 0 <= j < |ss| ==> SharesNoFile(ss[j])
    ensures Safe(ss[k], Listings(ss, es, k), sha) && BuffersOnDisk(ss[k])
  {
    if k == 0 {
    } else {
      EveryStateIsSafe(ss, es, sha, k - 1);
      var s, e := ss[k - 1], es[k - 1];
      assert Follows(ss, es, sha, k - 1);
      StepKeepsBuffers(s, e, sha);
      UnsharedStepIsSafe(s, e, Listings(ss, es, k - 1), sha);
      SafetyIsLostExactly(s, e, Listings(ss, es, k - 1), sha);
    }
  }

  /** At no moment are two downloads in flight. */
  predicate OneDownload(ss: seq<Agent>) {
    forall k :: 0 <= k < |ss| ==> |ss[k].downloads| <= 1
  }

  lemma OnlyOne<T>(m: map<nat, T>, i: nat, j: nat)
    requires |m| <= 1 && i in m && j in m
    ensures i == j
  {
    SubsetSize({i, j}, m.Keys);
  }

  lemma {:induction false} SubsetSize<T>(a: set<T>, b: set<T>)
    requires a <= b
    ensures |a| <= |b|
    decreases a
  {
    if a == {} {
    } else {
      var x :| x in a;
      SubsetSize(a - {x}, b - {x});
      assert |a| == |a - {x}| + 1 && |b| == |b - {x}| + 1;
    }
  }

  lemma OnlySumsStage(s: Agent, e: Event, sha: Hash)
    requires Enabled(s, e) && !e.SumsAnswer? && Step(s, e, sha).status == Staged
    ensures s.status == Staged && (s.downloads == map[] ==> Step(s, e, sha).downloads == map[])
  {
  }

  lemma SumsLeaveTheRest(s: Agent, e: Event, sha: Hash)
    requires Enabled(s, e) && e.SumsAnswer?
    ensures Step(s, e, sha).downloads == s.downloads - {e.id}
  {
  }

  lemma StagingEmpties(s: Agent, e: Event, sha: Hash)
    requires Enabled(s, e) && |s.downloads| <= 1 && Step(s, e, sha).status == Staged
    requires s.status == Staged ==> s.downloads == map[]
    ensures Step(s, e, sha).downloads == map[]
  {
    if e.SumsAnswer? {
      SumsLeaveTheRest(s, e, sha);
      forall id | id in s.downloads ensures id == e.id {
        OnlyOne(s.downloads, e.id, id);
      }
    } else {
      OnlySumsStage(s, e, sha);
    }
  }

  /** One download at a time shares no file: while an update is staged none is in flight. */
  lemma {:induction false} OneDownloadSharesNoFile(ss: seq<Agent>, es: seq<Event>, sha: Hash, k: nat)
    requires Behaviour(ss, es, sha) && OneDownload(ss) && k < |ss|
    ensures SharesNoFile(ss[k]) && (ss[k].status == Staged ==> ss[k].downloads == map[])
  {
    if k == 0 {
    } else {
      OneDownloadSharesNoFile(ss, es, sha, k - 1);
      assert Follows(ss, es, sha, k - 1);
      if ss[k].status == Staged {
        StagingEmpties(ss[k - 1], es[k - 1], sha);
      }
      var s := ss[k];
      forall i, j | i in s.downloads && j in s.downloads ensures i == j {
        OnlyOne(s.downloads, i, j);
      }
    }
  }

  /** In every interleaving with one download in flight at a time, the same. */
  lemma OneDownloadIsSafe(ss: seq<Agent>, es: seq<Event>, sha: Hash, k: nat)
    requires Behaviour(ss, es, sha) && OneDownload(ss) && k < |ss|
    ensures Safe(ss[k], Listings(ss, es, k), sha)
  {
    forall j | 0 <= j < |ss| ensures SharesNoFile(ss[j]) {
      OneDownloadSharesNoFile(ss, es, sha, j);
    }
    EveryStateIsSafe(ss, es, sha, k);
  }

  // ---------------------------------------------------------------- after the installer was started

  /** A file only changes its bytes when a download's body arrives; otherwise it stays or goes. */
  predicate SameOrGone(later: map<Path, Bytes>, earlier: map<Path, Bytes>, p: Path) {
    p in later ==> p in earlier && later[p] == earlier[p]
  }

  /** A download's body for this file arrives. */
  predicate BodyArrives(s: Agent, e: Event, p: Path) {
    e.BytesAnswer? && Enabled(s, e) && s.downloads[e.id].artifact.path == p
  }

  lemma AnswersRewriteTheirFile(s: Agent, e: Event, sha: Hash, p: Path)
    requires (e.BytesAnswer? || e.SumsAnswer?) && Enabled(s, e) && !BodyArrives(s, e, p)
    ensures SameOrGone(Step(s, e, sha).disk, s.disk, p)
  {
  }

  lemma OnlyBodiesRewrite(s: Agent, e: Event, sha: Hash, p: Path)
    requires Enabled(s, e) && !BodyArrives(s, e, p)
    ensures SameOrGone(Step(s, e, sha).disk, s.disk, p)
  {
    if e.BytesAnswer? || e.SumsAnswer? {
      AnswersRewriteTheirFile(s, e, sha, p);
    }
  }

  /** Until a body for it arrives, a file, the one handed to the installer too, keeps its bytes or is gone. */
  lemma {:induction false} LaunchedFileStays(ss: seq<Agent>, es: seq<Event>, sha: Hash, i: nat, j: nat, p: Path)
    requires Behaviour(ss, es, sha) && i <= j < |ss|
    requires forall k :: i <= k < j ==> !BodyArrives(ss[k], es[k], p)
    ensures SameOrGone(ss[j].disk, ss[i].disk, p)
    decreases j - i
  {
    if i == j {
    } else {
      LaunchedFileStays(ss, es, sha, i, j - 1, p);
      assert Follows(ss, es, sha, j - 1);
      OnlyBodiesRewrite(ss[j - 1], es[j - 1], sha, p);
    }
  }
}
