/**
 What the found and delete requests achieve under each choice of repairs, as written included, and what a repaired
 server then makes of a report that is sent twice.
 */
module FinderRepairs {
  import opened Common
  import opened Bytes
  import opened Encodings
  import opened Messages
  import opened Finder
  import opened FinderRuns

  /** The digests have 32 bytes, as those of SHA-256. */
  ghost predicate LongDigests(site: Site) {
    forall key, text :: |site.hmac(key, text)| == 32
  }

  // ---------- single reports ----------

  /** While the counter stays a tuple, a report ends in an exception exactly when it does not decode or has 96 bytes. */
  lemma TupleRaisesIff(site: Site, s: Server, r: Request)
    requires r.Found? && !site.repairs.unpackFirst
    ensures Step(site, s, r).0 == s
    ensures Step(site, s, r).1.Raised? <==> r.message.None? || |r.message.value| == MESSAGE_LENGTH
    ensures !Step(site, s, r).1.Raised? ==> Step(site, s, r).1 == FoundReply(false)
  {
  }

  /** A well-formed report with this tag. */
  function Report(mac: string, counter: uint32, payload: seq<byte>, tag: seq<byte>, signature: bool): Request {
    Found(mac, Some(BigEndian(counter, COUNTER_WIDTH) + payload + tag), signature)
  }

  ghost predicate Accepts(site: Site, s: Server, r: Request) {
    Reports(r, Step(site, s, r).1)
  }

  /** The tracker is known and its address and key are hexadecimal. */
  predicate Known(s: Server, mac: string) {
    mac in s.trackers && Unhexlify(mac).Some? && Unhexlify(s.trackers[mac].mfgKey).Some?
  }

  /** Some tag gets a report accepted exactly when both repairs are made, its tracker is known and its counter new. */
  lemma AcceptableIff(site: Site, s: Server, mac: string, counter: uint32, payload: seq<byte>, signature: bool)
    requires LongDigests(site) && |payload| == 80
    ensures (exists tag: seq<byte> :: |tag| == 12 && Accepts(site, s, Report(mac, counter, payload, tag, signature)))
         <==>
              && site.repairs.unpackFirst && site.repairs.truncateTag
              && Known(s, mac) && !HasFinding(s.findings, mac, counter)
  {
    forall tag: seq<byte> | |tag| == 12
      ensures Accepts(site, s, Report(mac, counter, payload, tag, signature)) <==>
                && site.repairs.unpackFirst && Known(s, mac) && !HasFinding(s.findings, mac, counter)
                && tag == ExpectedTag(site.repairs, ReportDigest(site, s, mac, counter, payload))
    {
      ReportSplits(counter, payload, tag);
      ReportsIff(site, s, Report(mac, counter, payload, tag, signature));
    }
    if Known(s, mac) {
      var tag := Take(ReportDigest(site, s, mac, counter, payload), 12);
      assert site.repairs.truncateTag ==>
          (Accepts(site, s, Report(mac, counter, payload, tag, signature)) <==>
             site.repairs.unpackFirst && !HasFinding(s.findings, mac, counter));
    }
  }

  /**
   The whole service for a report: it is answered as a success and the text of the row it adds decodes to it.  The
   repairs this takes, and when the push service needs one more.
   */
  lemma ServedIff(site: Site, s: Server, r: Request)
    requires r.Found? && Accepts(site, s, r)
    ensures HasRow(r) && r.mac in s.trackers && |Step(site, s, r).0.findings| == |s.findings| + 1
    ensures var (s2, resp) := Step(site, s, r);
            var text := ReportText(Unhexlify(r.mac).value, CounterOf(r.message.value), PayloadOf(r.message.value));
            resp == FoundReply(true) && Unbase64(s2.findings[|s.findings|].e2eMessage) == Some(text) <==>
              && site.repairs.storeText
              && (site.repairs.passMessage || s.trackers[r.mac].pushType != Some("firebase"))
  {
    ReportsIff(site, s, r);
    ReportHasEffect(site, s, r);
    var text := ReportText(Unhexlify(r.mac).value, CounterOf(r.message.value), PayloadOf(r.message.value));
    Unbase64Base64(text);
    PrintedBytesDoNotDecode(Base64(text));
  }

  // ---------- runs ----------

  /** Without both repairs no run ever stores a finding or moves a counter. */
  lemma {:induction false} NothingStored(site: Site, t: Run, k: nat)
    requires IsRun(site, t) && k <= |t.reqs|
    requires LongDigests(site) && !(site.repairs.unpackFirst && site.repairs.truncateTag)
    ensures t.states[k].findings == []
    ensures forall m :: m in t.states[k].trackers ==> t.states[k].trackers[m].foundCounter == 0
    ensures forall i :: 0 <= i < k ==> !Reports(t.reqs[i], t.resps[i])
  {
    if k == 0 {
    } else {
      NothingStored(site, t, k - 1);
      if Reports(t.reqs[k - 1], t.resps[k - 1]) {
        AcceptedHasRow(site, t, k - 1);
        assert false;
      }
      MovesAt(site, t, k - 1);
    }
  }

  /** Without its repair no delete takes effect: findings are only ever added. */
  lemma {:induction false} FindingsOnlyGrow(site: Site, t: Run, i: nat, k: nat)
    requires IsRun(site, t) && i <= k <= |t.reqs| && !site.repairs.deleteRows
    ensures t.states[i].findings <= t.states[k].findings
    decreases k
  {
    if i == k {
    } else {
      FindingsOnlyGrow(site, t, i, k - 1);
      FindingMovesAt(site, t, k - 1);
      assert StepAt(site, t, k - 1);
    }
  }

  /**
   A delete with a tracker's latest token ends in one of two exceptions unless both lines are repaired; repairing the
   first alone empties the tracker's findings all the same.  Other trackers keep theirs.
   */
  lemma DeleteAnswer(site: Site, t: Run, k: nat, mac: string, other: string)
    requires IsRun(site, t) && k < |t.reqs| && t.reqs[k].FindingsDelete?
    requires LatestToken(t, k, mac) == Some(t.reqs[k].token)
    ensures t.resps[k] == if !site.repairs.deleteRows then Raised(AttributeError)
                          else if !site.repairs.importResponse then Raised(NameError)
                          else DeleteReply
    ensures RowsOf(t.states[k + 1].findings, other)
         == if site.repairs.deleteRows && other == mac then [] else RowsOf(t.states[k].findings, other)
  {
    DeleteResponse(site, t, k, mac);
    if site.repairs.deleteRows {
      RowsAfterDelete(site, t, k, other);
      OneHolder(site, t, k, t.reqs[k].token, mac, other);
    } else {
      FindingMovesAt(site, t, k);
    }
  }

  lemma DeleteResponse(site: Site, t: Run, k: nat, mac: string)
    requires IsRun(site, t) && k < |t.reqs| && t.reqs[k].FindingsDelete?
    requires LatestToken(t, k, mac) == Some(t.reqs[k].token)
    ensures t.resps[k] == if !site.repairs.deleteRows then Raised(AttributeError)
                          else if !site.repairs.importResponse then Raised(NameError)
                          else DeleteReply
  {
    assert StepAt(site, t, k);
    TokenResolvesIff(site, t, k, t.reqs[k].token, mac);
  }

  lemma OneHolder(site: Site, t: Run, k: nat, token: string, mac: string, other: string)
    requires IsRun(site, t) && k <= |t.reqs| && LatestToken(t, k, mac) == Some(token)
    ensures LatestToken(t, k, other) == Some(token) <==> other == mac
  {
    TokenResolvesIff(site, t, k, token, mac);
    TokenResolvesIff(site, t, k, token, other);
  }

  /** A run continued by one request. */
  lemma Extend(site: Site, t: Run, r: Request) returns (t': Run)
    requires IsRun(site, t) && Fresh(t.states[|t.reqs|], r)
    ensures IsRun(site, t') && t'.reqs == t.reqs + [r] && |t'.states| == |t.states| + 1
    ensures t'.states[..|t.states|] == t.states && t'.resps[..|t.resps|] == t.resps
    ensures Step(site, t.states[|t.reqs|], r) == (t'.states[|t.reqs| + 1], t'.resps[|t.reqs|])
  {
    var (s2, resp) := Step(site, t.states[|t.reqs|], r);
    t' := Run(t.states + [s2], t.reqs + [r], t.resps + [resp]);
    forall n | 0 <= n < |t'.reqs| ensures StepAt(site, t', n) {
      assert n < |t.reqs| ==> StepAt(site, t, n);
    }
  }

  lemma {:induction false} TokenOfPrefix(t: Run, t': Run, k: nat, mac: string)
    requires k <= |t.reqs| == |t.resps| <= |t'.reqs| == |t'.resps|
    requires t'.reqs[..|t.reqs|] == t.reqs && t'.resps[..|t.resps|] == t.resps
    ensures LatestToken(t', k, mac) == LatestToken(t, k, mac)
  {
    if k == 0 {
    } else {
      TokenOfPrefix(t, t', k - 1, mac);
      assert t'.reqs[k - 1] == t.reqs[k - 1] && t'.resps[k - 1] == t.resps[k - 1];
    }
  }

  // ---------- replay ----------

  /** A delete with the tracker's latest token. */
  ghost predicate Clears(t: Run, n: nat, mac: string)
    requires n < |t.reqs| == |t.resps|
  {
    Deletes(t.reqs[n], t.resps[n]) && LatestToken(t, n, mac) == Some(t.reqs[n].token)
  }

  lemma {:induction false} RowsOfHas(findings: seq<Finding>, mac: string, counter: nat)
    ensures HasFinding(findings, mac, counter) <==> exists x :: x in RowsOf(findings, mac) && x.counter == counter
  {
    if findings == [] {
    } else {
      var front, last := findings[..|findings| - 1], findings[|findings| - 1];
      RowsOfHas(front, mac, counter);
      assert findings == front + [last];
      if HasFinding(front, mac, counter) {
        var n :| 0 <= n < |front| && front[n].mac == mac && front[n].counter == counter;
        assert findings[n] == front[n];
      }
      if last.mac == mac {
        assert last in RowsOf(findings, mac);
      }
    }
  }

  /** Something that only a delete with the tracker's latest token can end, and that has ended, met such a delete. */
  lemma FindDelete(t: Run, i: nat, k: nat, mac: string, kept: int -> bool) returns (n: nat)
    requires i < k <= |t.reqs| == |t.resps| && kept(i + 1) && !kept(k)
    requires forall n: nat :: n < |t.reqs| && kept(n) && !Clears(t, n, mac) ==> kept(n + 1)
    ensures i < n < k && Clears(t, n, mac)
  {
    n := FindChange(kept, i + 1, k);
  }

  lemma RowsKept(site: Site, t: Run, mac: string, row: Finding) returns (kept: int -> bool)
    requires |t.states| == |t.reqs| + 1 && |t.reqs| == |t.resps|
    ensures forall n: nat :: n <= |t.reqs| ==> (kept(n) <==> row in AcceptedSince(site, t, n, mac))
    ensures forall n: nat :: n < |t.reqs| && kept(n) && !Clears(t, n, mac) ==> kept(n + 1)
  {
    kept := n => 0 <= n <= |t.reqs| && row in AcceptedSince(site, t, n, mac);
    forall n: nat | n < |t.reqs| && kept(n) && !Clears(t, n, mac) ensures kept(n + 1) {
      NothingLost(site, t, n, mac, row);
    }
  }

  /** The step at which something ceases to hold. */
  lemma {:induction false} FindChange(p: int -> bool, i: nat, k: nat) returns (n: nat)
    requires i <= k && p(i) && !p(k)
    ensures i <= n < k && p(n) && !p(n + 1)
    decreases k
  {
    if i == k {
      assert false;
    } else if p(k - 1) {
      n := k - 1;
    } else {
      n := FindChange(p, i, k - 1);
    }
  }

  lemma ReportAdds(site: Site, t: Run, i: nat)
    requires |t.states| == |t.reqs| + 1 && i < |t.reqs| == |t.resps|
    requires Reports(t.reqs[i], t.resps[i]) && HasRow(t.reqs[i])
    ensures ReportedRow(site, t.reqs[i]) in AcceptedSince(site, t, i + 1, t.reqs[i].mac)
  {
  }

  lemma NothingLost(site: Site, t: Run, n: nat, mac: string, row: Finding)
    requires |t.states| == |t.reqs| + 1 && n < |t.reqs| == |t.resps| && !Clears(t, n, mac)
    ensures row in AcceptedSince(site, t, n, mac) ==> row in AcceptedSince(site, t, n + 1, mac)
  {
  }

  /** Two accepted reports with the same tracker and counter have a delete with the tracker's latest token between. */
  lemma RepeatNeedsDelete(site: Site, t: Run, i: nat, j: nat)
    requires IsRun(site, t) && i < j < |t.reqs|
    requires Reports(t.reqs[i], t.resps[i]) && Reports(t.reqs[j], t.resps[j]) && t.reqs[i].mac == t.reqs[j].mac
    ensures HasRow(t.reqs[i]) && HasRow(t.reqs[j])
    ensures CounterOf(t.reqs[i].message.value) == CounterOf(t.reqs[j].message.value) ==>
              exists n :: i < n < j && Clears(t, n, t.reqs[i].mac)
  {
    AcceptedHasRow(site, t, i);
    AcceptedHasRow(site, t, j);
    var mac, counter := t.reqs[i].mac, CounterOf(t.reqs[i].message.value);
    if CounterOf(t.reqs[j].message.value) == counter {
      FindingsAreAcceptedReports(site, t, j, mac);
      RowsOfHas(t.states[j].findings, mac, counter);
      FindingMovesAt(site, t, j);
      ReportAdds(site, t, i);
      var kept := RowsKept(site, t, mac, ReportedRow(site, t.reqs[i]));
      var n := FindDelete(t, i, j, mac, kept);
    }
  }

  /**
   Replay: an accepted report sent again later is accepted again exactly when no report with its counter was accepted
   since findings were last deleted with the tracker's token.  The stored counter is never compared.
   */
  lemma ReplayIff(site: Site, t: Run, i: nat, k: nat)
    requires IsRun(site, t) && i < k <= |t.reqs| && Reports(t.reqs[i], t.resps[i])
    ensures HasRow(t.reqs[i])
    ensures Accepts(site, t.states[k], t.reqs[i]) <==>
              forall x :: x in AcceptedSince(site, t, k, t.reqs[i].mac) ==>
                            x.counter != CounterOf(t.reqs[i].message.value)
  {
    var r := t.reqs[i];
    AcceptedHasRow(site, t, i);
    KeysNeverChange(site, t, i, k, r.mac);
    assert Verifies(site, t.states[k], r.mac, r.message.value);
    ReportsIff(site, t.states[k], r);
    FindingsAreAcceptedReports(site, t, k, r.mac);
    RowsOfHas(t.states[k].findings, r.mac, CounterOf(r.message.value));
  }

  /** A report of this tracker with this counter and payload. */
  predicate IsReport(r: Request, mac: string, counter: uint32, payload: seq<byte>) {
    && r.Found? && r.mac == mac && r.message.Some? && |r.message.value| == MESSAGE_LENGTH
    && CounterOf(r.message.value) == counter && PayloadOf(r.message.value) == payload
  }

  /** Request `i` of a run from `s0` is such a report, and it is stored. */
  ghost predicate StoredAt(site: Site, t: Run, s0: Server, i: nat, mac: string, counter: uint32, payload: seq<byte>) {
    && IsRun(site, t) && t.states[0] == s0
    && i < |t.reqs| && Reports(t.reqs[i], t.resps[i]) && IsReport(t.reqs[i], mac, counter, payload)
  }

  /** The tracker is known with hexadecimal address and key, or can still be added. */
  predicate Eligible(s0: Server, mac: string) {
    if mac in s0.trackers then Known(s0, mac) else ValidAddress(mac)
  }

  /**
   From every start, a report with this tracker, counter and payload can come to be stored exactly when counter and tag
   are repaired and the tracker is eligible.
   */
  lemma StoringPossibleIff(site: Site, s0: Server, mac: string, counter: uint32, payload: seq<byte>)
    requires LongDigests(site) && Provisioned(s0) && |payload| == 80
    ensures (exists t, i :: StoredAt(site, t, s0, i, mac, counter, payload)) <==>
              site.repairs.unpackFirst && site.repairs.truncateTag && Eligible(s0, mac)
  {
    if t, i :| StoredAt(site, t, s0, i, mac, counter, payload) {
      NeededForStoring(site, t, i);
    }
    if site.repairs.unpackFirst && site.repairs.truncateTag && Eligible(s0, mac) {
      var t, token := StoringRun(site, s0, mac, counter, payload);
    }
  }

  lemma NeededForStoring(site: Site, t: Run, i: nat)
    requires LongDigests(site) && IsRun(site, t) && i < |t.reqs| && Reports(t.reqs[i], t.resps[i])
    ensures site.repairs.unpackFirst && site.repairs.truncateTag && Eligible(t.states[0], t.reqs[i].mac)
  {
    AcceptedHasRow(site, t, i);
    var mac := t.reqs[i].mac;
    if mac in t.states[0].trackers {
      KeysNeverChange(site, t, 0, i, mac);
    } else {
      KnownSinceAdded(site, t, i, mac);
      var n :| 0 <= n < i && Provides(t.reqs[n], t.resps[n]) && t.reqs[n].mac == mac;
      assert StepAt(site, t, n);
    }
  }

  /** And the very same report can be stored twice exactly when moreover deletes are repaired. */
  lemma ReplayPossibleIff(site: Site, s0: Server, mac: string, counter: uint32, payload: seq<byte>)
    requires LongDigests(site) && Provisioned(s0) && |payload| == 80
    ensures (exists t, i, j :: StoredTwice(site, t, s0, i, j, mac, counter, payload)) <==>
              && site.repairs.unpackFirst && site.repairs.truncateTag && site.repairs.deleteRows
              && Eligible(s0, mac)
  {
    if t, i, j :| StoredTwice(site, t, s0, i, j, mac, counter, payload) {
      NeededForStoring(site, t, i);
      DeletesForReplay(site, t, i, j);
    }
    if site.repairs.unpackFirst && site.repairs.truncateTag && site.repairs.deleteRows && Eligible(s0, mac) {
      var t, i, j := ReplayRun(site, s0, mac, counter, payload);
    }
  }

  ghost predicate StoredTwice(site: Site, t: Run, s0: Server, i: nat, j: nat, mac: string, counter: uint32,
                              payload: seq<byte>)
  {
    && StoredAt(site, t, s0, i, mac, counter, payload)
    && i < j < |t.reqs| && t.reqs[j] == t.reqs[i] && Reports(t.reqs[j], t.resps[j])
  }

  lemma DeletesForReplay(site: Site, t: Run, i: nat, j: nat)
    requires IsRun(site, t) && i < j < |t.reqs| && t.reqs[j] == t.reqs[i]
    requires Reports(t.reqs[i], t.resps[i]) && Reports(t.reqs[j], t.resps[j])
    ensures site.repairs.deleteRows
  {
    RepeatNeedsDelete(site, t, i, j);
    var n :| i < n < j && Clears(t, n, t.reqs[i].mac);
    assert StepAt(site, t, n);
  }

  /** The tracker is added if need be. */
  lemma KnownRun(site: Site, s0: Server, mac: string) returns (t: Run)
    requires Provisioned(s0) && Eligible(s0, mac)
    ensures IsRun(site, t) && t.states[0] == s0
    ensures var s := t.states[|t.reqs|]; Known(s, mac) && s.findings == [] && s.sessions == map[] && s.drawn == {}
  {
    t := Run([s0], [], []);
    if mac !in s0.trackers {
      HexlifyUnhexlify(mac);
      t := Extend(site, t, Provision(mac, "00"));
      MovesAt(site, t, 0);
    }
  }

  /** Its owner's session is offered a challenge. */
  lemma OfferedRun(site: Site, s0: Server, mac: string, random: seq<byte>) returns (t: Run)
    requires Provisioned(s0) && Eligible(s0, mac) && |random| == 16
    ensures IsRun(site, t) && t.states[0] == s0
    ensures var s := t.states[|t.reqs|];
            && Known(s, mac) && s.findings == [] && s.drawn == {Base64(random)}
            && 0 in s.sessions && s.sessions[0] == Base64(random)
  {
    var start := KnownRun(site, s0, mac);
    t := Extend(site, start, RegisterGet(0, random));
    MovesAt(site, t, |start.reqs|);
  }

  /** The tracker registers. */
  lemma RegisteredRun(site: Site, s0: Server, mac: string) returns (t: Run, token: string)
    requires Provisioned(s0) && Eligible(s0, mac)
    ensures IsRun(site, t) && t.states[0] == s0 && LatestToken(t, |t.reqs|, mac) == Some(token)
    ensures Known(t.states[|t.reqs|], mac) && t.states[|t.reqs|].findings == []
  {
    var random0, random1 := seq(16, _ => 0), seq(16, _ => 1);
    assert random0[0] != random1[0];
    if Base64(random0) == Base64(random1) {
      Base64Injective(random0, random1);
    }
    var offered := OfferedRun(site, s0, mac, random0);
    var n := |offered.reqs|;
    var r := RightAnswer(site, offered.states[n], mac, random0, random1);
    t := Extend(site, offered, r);
    token := t.resps[n].token;
    MovesAt(site, t, n);
  }

  /** The answer that a session's challenge asks for. */
  lemma RightAnswer(site: Site, s: Server, mac: string, challenge: seq<byte>, random: seq<byte>) returns (r: Request)
    requires Known(s, mac) && 0 in s.sessions && s.sessions[0] == Base64(challenge)
    ensures r.RegisterPost? && r.mac == mac && r.random == random && Registers(r, Step(site, s, r).1)
  {
    var key, macBin := Unhexlify(s.trackers[mac].mfgKey).value, Unhexlify(mac).value;
    Unbase64Base64(challenge);
    r := RegisterPost(0, mac, Some(SetupResponse(site.hmac, key, macBin, challenge)), random);
    RegistersIff(site, s, r);
  }

  /** A report of it is stored. */
  lemma StoringRun(site: Site, s0: Server, mac: string, counter: uint32, payload: seq<byte>)
    returns (t: Run, token: string)
    requires LongDigests(site) && site.repairs.unpackFirst && site.repairs.truncateTag
    requires Provisioned(s0) && Eligible(s0, mac) && |payload| == 80
    ensures |t.reqs| > 0 && StoredAt(site, t, s0, |t.reqs| - 1, mac, counter, payload)
    ensures LatestToken(t, |t.reqs|, mac) == Some(token)
  {
    var before: Run;
    before, token := RegisteredRun(site, s0, mac);
    var r := AcceptedReport(site, before.states[|before.reqs|], mac, counter, payload);
    t := Extend(site, before, r);
    TokenOfPrefix(before, t, |before.reqs|, mac);
  }

  lemma AcceptedReport(site: Site, s: Server, mac: string, counter: uint32, payload: seq<byte>) returns (r: Request)
    requires LongDigests(site) && site.repairs.unpackFirst && site.repairs.truncateTag
    requires Known(s, mac) && !HasFinding(s.findings, mac, counter) && |payload| == 80
    ensures IsReport(r, mac, counter, payload) && Accepts(site, s, r)
  {
    AcceptableIff(site, s, mac, counter, payload, false);
    var tag: seq<byte> :| |tag| == 12 && Accepts(site, s, Report(mac, counter, payload, tag, false));
    ReportSplits(counter, payload, tag);
    r := Report(mac, counter, payload, tag, false);
  }

  /** The owner deletes the finding, and the same report is stored again. */
  lemma ReplayRun(site: Site, s0: Server, mac: string, counter: uint32, payload: seq<byte>)
    returns (t: Run, i: nat, j: nat)
    requires LongDigests(site) && site.repairs.unpackFirst && site.repairs.truncateTag && site.repairs.deleteRows
    requires Provisioned(s0) && Eligible(s0, mac) && |payload| == 80
    ensures StoredTwice(site, t, s0, i, j, mac, counter, payload)
  {
    var stored, token := StoringRun(site, s0, mac, counter, payload);
    var n := |stored.reqs|;
    i, j := n - 1, n + 1;
    TokenResolvesIff(site, stored, n, token, mac);
    var cleared := Extend(site, stored, FindingsDelete(token));
    TokenOfPrefix(stored, cleared, n, mac);
    assert Clears(cleared, n, mac);
    ReplayIff(site, cleared, i, j);
    t := Extend(site, cleared, stored.reqs[i]);
  }
}
