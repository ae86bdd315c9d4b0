/** Two downloads at once. */
module UpdateRaces {
  import opened Text
  import opened Versions
  import opened UpdateAgent
  import opened UpdateSafety

  /**
   A poll sets the status back to `available` during a download, a second download of the same
   file starts, and the agent stages bytes whose digest nobody listed.
   */
  lemma TwoDownloadsStageWrongBytes(sha: Hash, a: Artifact, good: Bytes, bad: Bytes)
    returns (ss: seq<Agent>, es: seq<Event>)
    requires sha(good) != sha(bad)
    requires NewerText(a.version, "1.0.0")
    requires a.version != "" && a.target != "" && a.targetTrusted && a.sums != "" && a.sumsTrusted
    ensures Behaviour(ss, es, sha)
    ensures var end := ss[|es|];
            && end.status == Staged && end.checksumVerified && end.stagedPath == Some(a.path)
            && a.path in end.disk && end.disk[a.path] == bad && (a.path, sha(bad)) !in Listings(ss, es, |es|)
  {
    ss, es := [Init(true, "1.0.0")], [];
    ss, es := OfferAndDownload(ss, es, sha, a, 0);
    ss, es := OfferAndDownload(ss, es, sha, a, 1);
    assert ss[|es|].downloads == map[0 := WantsManifest, 1 := WantsManifest];
    ss, es := BothManifestsArrive(ss, es, sha, a);
    ss, es := BothBodiesArrive(ss, es, sha, a, good, bad);
    ss, es := StageFirstBody(ss, es, sha, a, good, bad);
  }

  lemma BothManifestsArrive(ss: seq<Agent>, es: seq<Event>, sha: Hash, a: Artifact)
    returns (ss': seq<Agent>, es': seq<Event>)
    requires Behaviour(ss, es, sha) && ss[|es|].downloads == map[0 := WantsManifest, 1 := WantsManifest]
    requires a.version != "" && a.target != "" && a.targetTrusted
    requires forall k :: 0 <= k < |es| ==> !es[k].SumsAnswer?
    ensures Behaviour(ss', es', sha) && ss'[|es'|].downloads == map[0 := WantsBytes(a), 1 := WantsBytes(a)]
    ensures forall k :: 0 <= k < |es'| ==> !es'[k].SumsAnswer?
  {
    ss', es' := Extend(ss, es, sha, ManifestAnswer(0, Some(a), true));
    ss', es' := Extend(ss', es', sha, ManifestAnswer(1, Some(a), true));
  }

  /** Both bodies are written to the one file, the second over the first. */
  lemma BothBodiesArrive(ss: seq<Agent>, es: seq<Event>, sha: Hash, a: Artifact, good: Bytes, bad: Bytes)
    returns (ss': seq<Agent>, es': seq<Event>)
    requires Behaviour(ss, es, sha) && ss[|es|].downloads == map[0 := WantsBytes(a), 1 := WantsBytes(a)]
    requires a.sums != "" && a.sumsTrusted
    requires forall k :: 0 <= k < |es| ==> !es[k].SumsAnswer?
    ensures Behaviour(ss', es', sha) && forall k :: 0 <= k < |es'| ==> !es'[k].SumsAnswer?
    ensures var end := ss'[|es'|];
            && 0 in end.downloads && end.downloads[0] == WantsSums(a, good)
            && a.path in end.disk && end.disk[a.path] == bad
  {
    ss', es' := Extend(ss, es, sha, BytesAnswer(0, Some(good), Written, true));
    ss', es' := Extend(ss', es', sha, BytesAnswer(1, Some(bad), Written, true));
  }

  lemma StageFirstBody(ss: seq<Agent>, es: seq<Event>, sha: Hash, a: Artifact, good: Bytes, bad: Bytes)
    returns (ss': seq<Agent>, es': seq<Event>)
    requires Behaviour(ss, es, sha) && forall k :: 0 <= k < |es| ==> !es[k].SumsAnswer?
    requires sha(good) != sha(bad)
    requires var s := ss[|es|];
             && 0 in s.downloads && s.downloads[0] == WantsSums(a, good)
             && a.path in s.disk && s.disk[a.path] == bad
    ensures Behaviour(ss', es', sha)
    ensures var end := ss'[|es'|];
            && end.status == Staged && end.checksumVerified && end.stagedPath == Some(a.path)
            && a.path in end.disk && end.disk[a.path] == bad && (a.path, sha(bad)) !in Listings(ss', es', |es'|)
  {
    ss', es' := Extend(ss, es, sha, SumsAnswer(0, Listed(sha(good)), true));
    NothingListed(ss', es', |es|);
  }

  lemma {:induction false} NothingListed(ss: seq<Agent>, es: seq<Event>, k: nat)
    requires k <= |es| < |ss| && forall j :: 0 <= j < k ==> !es[j].SumsAnswer?
    ensures Listings(ss, es, k) == {}
  {
    if k == 0 {
    } else {
      NothingListed(ss, es, k - 1);
    }
  }

  /** One download stages the file while another is under way, and the other's body is written over it. */
  lemma SecondBodyOverwritesStaged(sha: Hash, a: Artifact, good: Bytes, bad: Bytes)
    returns (ss: seq<Agent>, es: seq<Event>)
    requires sha(good) != sha(bad)
    requires a.version == "2.0.0" && a.target != "" && a.targetTrusted && a.sums != "" && a.sumsTrusted
    ensures Behaviour(ss, es, sha) && es != []
    ensures var k := |es| - 1;
            && OverwritesStaged(ss[k], es[k], Listings(ss, es, k), sha)
            && ss[|es|].status == Staged && ss[|es|].stagedPath == Some(a.path)
            && a.path in ss[|es|].disk && ss[|es|].disk[a.path] == bad
  {
    TwoIsNewer();
    ss, es := [Init(true, "1.0.0")], [];
    ss, es := OfferAndDownload(ss, es, sha, a, 0);
    ss, es := OfferAndDownload(ss, es, sha, a, 1);
    ss, es := StageGood(ss, es, sha, a, good);
    ss, es := OverwriteStaged(ss, es, sha, a, good, bad);
  }

  lemma OverwriteStaged(ss: seq<Agent>, es: seq<Event>, sha: Hash, a: Artifact, good: Bytes, bad: Bytes)
    returns (ss': seq<Agent>, es': seq<Event>)
    requires Behaviour(ss, es, sha) && sha(good) != sha(bad)
    requires a.version != "" && a.target != "" && a.targetTrusted && a.sums != "" && a.sumsTrusted
    requires Listings(ss, es, |es|) == {(a.path, sha(good))}
    requires var s := ss[|es|];
             s.status == Staged && s.stagedPath == Some(a.path) && 1 in s.downloads && s.downloads[1] == WantsManifest
    ensures Behaviour(ss', es', sha) && es' != []
    ensures var k := |es'| - 1;
            && OverwritesStaged(ss'[k], es'[k], Listings(ss', es', k), sha)
            && ss'[|es'|].status == Staged && ss'[|es'|].stagedPath == Some(a.path)
            && a.path in ss'[|es'|].disk && ss'[|es'|].disk[a.path] == bad
  {
    var s1, e1 := Extend(ss, es, sha, ManifestAnswer(1, Some(a), true));
    assert s1[|e1|].downloads[1] == WantsBytes(a);
    ss', es' := Extend(s1, e1, sha, BytesAnswer(1, Some(bad), Written, true));
    SameListings(ss, es, ss', es', |es|);
    assert Listings(ss', es', |e1|) == Listings(ss', es', |es|) + {};
  }

  /** Listings look at the steps taken only. */
  lemma {:induction false} SameListings(ss: seq<Agent>, es: seq<Event>, ss': seq<Agent>, es': seq<Event>, k: nat)
    requires k <= |es| < |ss| && k <= |es'| < |ss'| && ss <= ss' && es <= es'
    ensures Listings(ss', es', k) == Listings(ss, es, k)
  {
    if k == 0 {
    } else {
      SameListings(ss, es, ss', es', k - 1);
    }
  }

  lemma StageGood(ss: seq<Agent>, es: seq<Event>, sha: Hash, a: Artifact, good: Bytes)
    returns (ss': seq<Agent>, es': seq<Event>)
    requires Behaviour(ss, es, sha) && 0 in ss[|es|].downloads && ss[|es|].downloads[0] == WantsManifest
    requires 1 in ss[|es|].downloads && ss[|es|].downloads[1] == WantsManifest
    requires a.version != "" && a.target != "" && a.targetTrusted && a.sums != "" && a.sumsTrusted
    requires forall k :: 0 <= k < |es| ==> !es[k].SumsAnswer?
    ensures Behaviour(ss', es', sha) && |es'| == |es| + 3
    ensures forall k :: 0 <= k < |es'| - 1 ==> !es'[k].SumsAnswer?
    ensures Listings(ss', es', |es'|) == {(a.path, sha(good))}
    ensures var end := ss'[|es'|];
            && end.status == Staged && end.stagedPath == Some(a.path)
            && 1 in end.downloads && end.downloads[1] == WantsManifest
  {
    ss', es' := Extend(ss, es, sha, ManifestAnswer(0, Some(a), true));
    assert ss'[|es'|].downloads[0] == WantsBytes(a);
    ss', es' := Extend(ss', es', sha, BytesAnswer(0, Some(good), Written, true));
    assert ss'[|es'|].downloads[0] == WantsSums(a, good);
    ss', es' := Extend(ss', es', sha, SumsAnswer(0, Listed(sha(good)), true));
    NothingListed(ss', es', |es'| - 1);
  }
}
