/** What the statuses `available` and `staged` promise about the version. */
module UpdateHonesty {
  import opened Text
  import opened Versions
  import opened UpdateAgent
  import opened UpdateSafety

  /** `available` and `staged` speak of a version newer than the running one. */
  ghost predicate Honest(s: Agent) {
    s.status == Available || s.status == Staged ==> s.available.Some? && NewerText(s.available.value, s.current)
  }

  /** Discarding while the last version seen is not newer. */
  ghost predicate DiscardsOldVersion(s: Agent, e: Event) {
    e.DiscardNow? && s.available.Some? && s.available.value != "" && !NewerText(s.available.value, s.current)
  }

  /** Finishing a download whose own manifest names no newer version: nothing compares it again. */
  ghost predicate StagesOldVersion(s: Agent, e: Event, sha: Hash) {
    e.SumsAnswer? && Enabled(s, e) && e.reply == Listed(sha(s.downloads[e.id].buffer))
    && !NewerText(s.downloads[e.id].artifact.version, s.current)
  }

  lemma PollHonesty(s: Agent, e: Event, sha: Hash)
    requires e.PollAnswer? && Enabled(s, e)
    ensures Honest(Step(s, e, sha))
  {
  }

  lemma DiscardHonesty(s: Agent, e: Event, sha: Hash)
    requires e.DiscardNow?
    ensures Honest(Step(s, e, sha)) <==> !DiscardsOldVersion(s, e)
  {
  }

  lemma SumsHonesty(s: Agent, e: Event, sha: Hash)
    requires e.SumsAnswer? && Enabled(s, e)
    ensures Honest(Step(s, e, sha)) <==> !StagesOldVersion(s, e, sha)
  {
  }

  lemma BytesPromiseNothing(s: Agent, e: Event, sha: Hash)
    requires e.BytesAnswer? && Enabled(s, e)
    ensures var t := Step(s, e, sha);
            t.available == s.available && t.current == s.current && (t.status == s.status || t.status == Error)
  {
  }

  /** The other steps set the status to one that promises nothing, or leave it. */
  lemma OtherStepsPromiseNothing(s: Agent, e: Event, sha: Hash)
    requires !e.PollAnswer? && !e.DiscardNow? && !e.SumsAnswer? && !e.BytesAnswer? && Enabled(s, e)
    ensures var t := Step(s, e, sha);
            && t.available == s.available && t.current == s.current
            && (t.status == s.status || t.status !in {Available, Staged})
  {
  }

  /** Exactly these two steps make the agent offer a version that is no upgrade. */
  lemma HonestyIsLostExactly(s: Agent, e: Event, sha: Hash)
    requires Enabled(s, e) && Honest(s)
    ensures Honest(Step(s, e, sha)) <==> !DiscardsOldVersion(s, e) && !StagesOldVersion(s, e, sha)
  {
    if e.PollAnswer? {
      PollHonesty(s, e, sha);
    } else if e.DiscardNow? {
      DiscardHonesty(s, e, sha);
    } else if e.SumsAnswer? {
      SumsHonesty(s, e, sha);
    } else if e.BytesAnswer? {
      BytesPromiseNothing(s, e, sha);
    } else {
      OtherStepsPromiseNothing(s, e, sha);
    }
  }

  /** An up-to-date agent offers its own version again after a discard. */
  lemma DiscardOffersTheSameVersion(sha: Hash, a: Artifact) returns (ss: seq<Agent>, es: seq<Event>)
    requires a.version == "1.0.0" && a.target != ""
    ensures Behaviour(ss, es, sha) && OneDownload(ss)
    ensures ss[|es|].status == Available && ss[|es|].available == Some(ss[|es|].current)
    ensures !Honest(ss[|es|])
  {
    es := [PollStart, PollAnswer(Some(a)), DiscardNow(true)];
    var s0 := Init(true, "1.0.0");
    var s1 := Step(s0, es[0], sha);
    NewerIsIrreflexive(NormalizeVersion(Some("1.0.0")));
    var s2 := Step(s1, es[1], sha);
    var s3 := Step(s2, es[2], sha);
    ss := [s0, s1, s2, s3];
  }

  /** Offered 2.0.0, the agent downloads when the manifest has gone back to 1.0.0, and stages its own version. */
  lemma StaleManifestIsStaged(sha: Hash, offered: Artifact, stale: Artifact, body: Bytes)
    returns (ss: seq<Agent>, es: seq<Event>)
    requires offered.version == "2.0.0" && offered.target != "" && stale.version == "1.0.0"
    requires stale.target != "" && stale.targetTrusted && stale.sums != "" && stale.sumsTrusted
    ensures Behaviour(ss, es, sha)
    ensures ss[|es|].status == Staged && ss[|es|].available == Some(ss[|es|].current) && !Honest(ss[|es|])
  {
    TwoIsNewer();
    NewerIsIrreflexive(NormalizeVersion(Some("1.0.0")));
    ss, es := [Init(true, "1.0.0")], [];
    ss, es := OfferAndDownload(ss, es, sha, offered, 0);
    ss, es := Extend(ss, es, sha, ManifestAnswer(0, Some(stale), true));
    assert ss[|es|].downloads[0] == WantsBytes(stale);
    ss, es := Extend(ss, es, sha, BytesAnswer(0, Some(body), Written, true));
    assert ss[|es|].downloads[0] == WantsSums(stale, body);
    ss, es := Extend(ss, es, sha, SumsAnswer(0, Listed(sha(body)), true));
  }

  /** A run only ever offers and stages upgrades exactly when none of its steps is one of the two. */
  lemma {:induction false} HonestRunsExactly(ss: seq<Agent>, es: seq<Event>, sha: Hash, n: nat)
    requires Behaviour(ss, es, sha) && n <= |es|
    ensures (forall k :: 0 <= k <= n ==> Honest(ss[k])) <==>
            (forall k :: 0 <= k < n ==> !DiscardsOldVersion(ss[k], es[k]) && !StagesOldVersion(ss[k], es[k], sha))
  {
    if n == 0 {
    } else {
      HonestRunsExactly(ss, es, sha, n - 1);
      assert Follows(ss, es, sha, n - 1);
      if Honest(ss[n - 1]) {
        HonestyIsLostExactly(ss[n - 1], es[n - 1], sha);
      }
    }
  }
}
