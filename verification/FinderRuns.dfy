/**
 Properties of whole runs of the PrivateFind server from provisioned trackers, for any list of requests handled one
 after the other and for any function in the place of HMAC-SHA-256.
 */
module FinderRuns {
  import opened Common
  import opened Encodings
  import opened Messages
  import opened Finder

  /** `states[k]` is the state before request `reqs[k]`, answered by `resps[k]`. */
  datatype Run = Run(states: seq<Server>, reqs: seq<Request>, resps: seq<Response>)

  ghost predicate StepAt(site: Site, t: Run, k: nat)
    requires |t.states| == |t.reqs| + 1 && |t.resps| == |t.reqs| && k < |t.reqs|
  {
    Fresh(t.states[k], t.reqs[k]) && Step(site, t.states[k], t.reqs[k]) == (t.states[k + 1], t.resps[k])
  }

  ghost predicate IsRun(site: Site, t: Run) {
    && |t.states| == |t.reqs| + 1 && |t.resps| == |t.reqs|
    && Provisioned(t.states[0])
    && forall k :: 0 <= k < |t.reqs| ==> StepAt(site, t, k)
  }

  // ---------- single requests ----------

  /** A successful registration. */
  predicate Registers(r: Request, resp: Response) {
    r.RegisterPost? && resp.AccessToken?
  }

  /** An accepted report; the exception for the missing argument comes when it is already stored. */
  predicate Reports(r: Request, resp: Response) {
    r.Found? && (resp == FoundReply(true) || resp == Raised(TypeError))
  }

  /** A delete that took effect; the exception for the missing import comes when the rows are gone. */
  predicate Deletes(r: Request, resp: Response) {
    r.FindingsDelete? && (resp == DeleteReply || resp == Raised(NameError))
  }

  /** A tracker added by the admin site. */
  predicate Provides(r: Request, resp: Response) {
    r.Provision? && resp == TrackerAdded
  }

  predicate IsFailure(resp: Response) {
    resp.Raised? || resp.InvalidSignature? || resp.DuplicateCounter? || resp == FoundReply(false)
  }

  /**
   A request that fails leaves session, trackers and findings alone, except where the exception comes too late: a
   report already stored, or rows already deleted.
   */
  lemma FailureChangesNothing(site: Site, s: Server, r: Request)
    requires IsFailure(Step(site, s, r).1)
    ensures Step(site, s, r).0 == s <==>
              && !Reports(r, Step(site, s, r).1)
              && (Deletes(r, Step(site, s, r).1) ==>
                    RowsOf(s.findings, GetByToken(s.trackers, r.token).mac) == [])
  {
    if Deletes(r, Step(site, s, r).1) {
      var mac := GetByToken(s.trackers, r.token).mac;
      WithoutNothing(s.findings, mac);
    }
  }

  lemma {:induction false} WithoutNothing(findings: seq<Finding>, mac: string)
    ensures |Without(findings, mac)| + |RowsOf(findings, mac)| == |findings|
    ensures Without(findings, mac) == findings <==> RowsOf(findings, mac) == []
  {
    if findings == [] {
    } else {
      WithoutNothing(findings[..|findings| - 1], mac);
      assert findings == findings[..|findings| - 1] + [findings[|findings| - 1]];
    }
  }

  /** The response a tracker with this key and address owes to a challenge. */
  function SetupResponse(hmac: MacFunction, key: seq<byte>, mac: seq<byte>, challenge: seq<byte>): seq<byte> {
    Take(hmac(key, RegistrationText(mac, challenge)), 16)
  }

  /** A registration succeeds exactly on the setup response to the challenge pending in the session. */
  lemma RegistersIff(site: Site, s: Server, r: Request)
    requires r.RegisterPost?
    ensures Registers(r, Step(site, s, r).1) <==>
              && r.mac in s.trackers && r.session in s.sessions
              && Unbase64(s.sessions[r.session]).Some?
              && Unhexlify(s.trackers[r.mac].mfgKey).Some? && Unhexlify(r.mac).Some?
              && r.response == Some(SetupResponse(site.hmac, Unhexlify(s.trackers[r.mac].mfgKey).value,
                                                  Unhexlify(r.mac).value, Unbase64(s.sessions[r.session]).value))
  {
  }

  /** The report verifies under the key of its tracker. */
  predicate Verifies(site: Site, s: Server, mac: string, message: seq<byte>) {
    && |message| == MESSAGE_LENGTH && mac in s.trackers
    && Unhexlify(mac).Some? && Unhexlify(s.trackers[mac].mfgKey).Some?
    && TagOf(message) == ExpectedTag(site.repairs, ReportDigest(site, s, mac, CounterOf(message), PayloadOf(message)))
  }

  /** The HMAC of a report under the key of its tracker. */
  function ReportDigest(site: Site, s: Server, mac: string, counter: nat, payload: seq<byte>): seq<byte>
    requires mac in s.trackers && Unhexlify(mac).Some? && Unhexlify(s.trackers[mac].mfgKey).Some?
  {
    site.hmac(Unhexlify(s.trackers[mac].mfgKey).value, ReportText(Unhexlify(mac).value, counter, payload))
  }

  /** With the counter unpacked, exactly the verifying reports whose counter is not stored yet are accepted. */
  lemma ReportsIff(site: Site, s: Server, r: Request)
    requires r.Found?
    ensures Reports(r, Step(site, s, r).1) <==>
              && site.repairs.unpackFirst
              && r.message.Some? && Verifies(site, s, r.mac, r.message.value)
              && !HasFinding(s.findings, r.mac, CounterOf(r.message.value))
    ensures Reports(r, Step(site, s, r).1) ==>
              (Step(site, s, r).1.FoundReply? <==>
                 site.repairs.passMessage || s.trackers[r.mac].pushType != Some("firebase"))
  {
    if r.message.Some? && |r.message.value| == MESSAGE_LENGTH {
      ReportRejoins(r.message.value);
    }
  }

  /** A report of 96 bytes for a known tracker whose address is hexadecimal. */
  predicate Arrives(s: Server, r: Request) {
    && r.Found? && r.message.Some? && |r.message.value| == 96 && r.mac in s.trackers && Unhexlify(r.mac).Some?
  }

  /** What a report is answered when it does not get as far as its tag. */
  lemma EarlyAnswers(site: Site, s: Server, r: Request)
    requires r.Found?
    ensures var resp := Step(site, s, r).1;
            && (resp == Raised(BadBase64) <==> r.message.None?)
            && (resp == FoundReply(false) <==> r.message.Some? && |r.message.value| != 96)
            && (resp == Raised(DoesNotExist) <==>
                  r.message.Some? && |r.message.value| == 96 && r.mac !in s.trackers)
            && (resp == Raised(StructError) <==> Arrives(s, r) && !site.repairs.unpackFirst)
            && (resp == Raised(BadHex) <==>
                  && r.message.Some? && |r.message.value| == 96 && r.mac in s.trackers
                  && (Unhexlify(r.mac).None?
                      || (site.repairs.unpackFirst && Unhexlify(s.trackers[r.mac].mfgKey).None?)))
  {
    if r.message.Some? && |r.message.value| == MESSAGE_LENGTH {
      ReportRejoins(r.message.value);
    }
  }

  /** What a report is answered once its tag is compared: each of the five answers with its exact condition. */
  lemma FoundAnswers(site: Site, s: Server, r: Request)
    requires Arrives(s, r) && site.repairs.unpackFirst && Unhexlify(s.trackers[r.mac].mfgKey).Some?
    ensures var resp := Step(site, s, r).1;
            var verifies := Verifies(site, s, r.mac, r.message.value);
            var stored := HasFinding(s.findings, r.mac, CounterOf(r.message.value));
            var silent := site.repairs.passMessage || s.trackers[r.mac].pushType != Some("firebase");
            && (resp == InvalidSignature <==> !verifies && (site.repairs.dropField || r.signature))
            && (resp == Raised(KeyError) <==> !verifies && !site.repairs.dropField && !r.signature)
            && (resp == DuplicateCounter <==> verifies && stored)
            && (resp == FoundReply(true) <==> verifies && !stored && silent)
            && (resp == Raised(TypeError) <==> verifies && !stored && !silent)
  {
    ReportRejoins(r.message.value);
  }

  /** What a registration is answered, in the order in which the code looks: each error with its exact condition. */
  lemma RegistrationAnswers(site: Site, s: Server, r: Request)
    requires r.RegisterPost?
    ensures var resp := Step(site, s, r).1;
            && (resp == Raised(DoesNotExist) <==> r.mac !in s.trackers)
            && (resp == Raised(NoChallenge) <==> r.mac in s.trackers && r.session !in s.sessions)
            && (r.mac in s.trackers && r.session in s.sessions ==>
                  var challenge := Unbase64(s.sessions[r.session]);
                  var hex := Unhexlify(s.trackers[r.mac].mfgKey).Some? && Unhexlify(r.mac).Some?;
                  && (resp == Raised(BadHex) <==> challenge.Some? && !hex)
                  && (resp == Raised(BadBase64) <==> challenge.None? || (hex && r.response.None?))
                  && (resp == Raised(InvalidSetupResponse) <==>
                        && challenge.Some? && hex && r.response.Some?
                        && !Registers(r, resp)))
            && (Registers(r, resp) ==> resp.token == Base64(r.random))
  {
  }

  /** A tracker is added exactly under a new address of 12 lower-case digits, with a key of 1 to 64 characters. */
  lemma AddedIff(site: Site, s: Server, r: Request)
    requires r.Provision?
    ensures var (s2, resp) := Step(site, s, r);
            && (resp == TrackerAdded <==>
                  && r.mac !in s.trackers && |r.mac| == 12
                  && (forall i :: 0 <= i < 12 ==> r.mac[i] in "0123456789abcdef")
                  && 1 <= |r.mfgKey| <= 64)
            && (resp != TrackerAdded ==> resp == Raised(ValidationError) && s2 == s)
  {
    forall c: char ensures c in "0123456789abcdef" <==> IsLowerHexDigit(c) {
      LowerDigits(c);
    }
  }

  /** What one request may do to sessions and drawn keys. */
  ghost predicate SessionMove(s: Server, r: Request, resp: Response, s2: Server) {
    if r.RegisterGet? then
      && r.session in s2.sessions && resp == Challenge(s2.sessions[r.session])
      && (r.session in s.sessions ==> s2.sessions == s.sessions && s2.drawn == s.drawn)
      && (r.session !in s.sessions ==>
            && s2.sessions == s.sessions[r.session := GenerateKey(r.random)]
            && s2.drawn == s.drawn + {GenerateKey(r.random)})
    else if Registers(r, resp) then
      && r.session in s.sessions && s2.sessions == s.sessions - {r.session}
      && resp.token == GenerateKey(r.random) && s2.drawn == s.drawn + {resp.token}
    else s2.sessions == s.sessions && s2.drawn == s.drawn
  }

  /** What one request may do to the trackers: they stay with their keys, and only a registration changes a token. */
  ghost predicate TrackerMove(s: Server, r: Request, resp: Response, s2: Server) {
    && s2.trackers.Keys == s.trackers.Keys + (if Provides(r, resp) then {r.mac} else {})
    && (Provides(r, resp) ==>
          r.mac !in s.trackers && s2.trackers[r.mac] == Tracker(r.mfgKey, None, None, None, 0))
    && (forall m :: m in s.trackers ==> s2.trackers[m].mfgKey == s.trackers[m].mfgKey)
    && (Registers(r, resp) ==> r.mac in s.trackers)
    && (forall m :: m in s.trackers ==>
          s2.trackers[m].accessToken
          == if Registers(r, resp) && r.mac == m then Some(resp.token) else s.trackers[m].accessToken)
    && (Reports(r, resp) ==> r.mac in s.trackers && r.message.Some? && |r.message.value| == MESSAGE_LENGTH)
    && (forall m :: m in s.trackers ==>
          (s2.trackers[m].pushType, s2.trackers[m].pushToken)
          == if resp == PushStored && r.PushToken? && GetByToken(s.trackers, r.token) == One(m)
             then (Some(r.pushType), Some(r.pushToken)) else (s.trackers[m].pushType, s.trackers[m].pushToken))
    && (forall m :: m in s.trackers ==>
          s2.trackers[m].foundCounter
          == if Reports(r, resp) && r.mac == m then CounterOf(r.message.value) else s.trackers[m].foundCounter)
  }

  /** What one request may do to the findings. */
  ghost predicate FindingMove(site: Site, s: Server, r: Request, resp: Response, s2: Server) {
    if Reports(r, resp) then
      && r.message.Some? && |r.message.value| == MESSAGE_LENGTH && Unhexlify(r.mac).Some?
      && s2.findings == s.findings + [RowOf(site.repairs, r.mac, Unhexlify(r.mac).value, r.message.value)]
      && !HasFinding(s.findings, r.mac, CounterOf(r.message.value))
    else if Deletes(r, resp) then
      && GetByToken(s.trackers, r.token).One?
      && s2.findings == Without(s.findings, GetByToken(s.trackers, r.token).mac)
    else s2.findings == s.findings
  }

  lemma ChallengeMoves(site: Site, s: Server, r: Request)
    requires r.RegisterGet?
    ensures var (s2, resp) := Step(site, s, r);
            SessionMove(s, r, resp, s2) && TrackerMove(s, r, resp, s2) && FindingMove(site, s, r, resp, s2)
  {
  }

  lemma RegistrationMoves(site: Site, s: Server, r: Request)
    requires r.RegisterPost?
    ensures var (s2, resp) := Step(site, s, r);
            SessionMove(s, r, resp, s2) && TrackerMove(s, r, resp, s2) && FindingMove(site, s, r, resp, s2)
  {
  }

  /** The report has a row to ask for. */
  predicate HasRow(r: Request) {
    r.Found? && r.message.Some? && |r.message.value| == MESSAGE_LENGTH && Unhexlify(r.mac).Some?
  }

  function ReportedRow(site: Site, r: Request): Finding
    requires HasRow(r)
  {
    RowOf(site.repairs, r.mac, Unhexlify(r.mac).value, r.message.value)
  }

  /** A report is stored as a row and a counter, or changes nothing. */
  ghost predicate ReportEffect(site: Site, s: Server, r: Request, resp: Response, s2: Server)
    requires r.Found?
  {
    if Reports(r, resp) then
      && r.mac in s.trackers && HasRow(r) && !HasFinding(s.findings, r.mac, CounterOf(r.message.value))
      && s2 == s.(findings := s.findings + [ReportedRow(site, r)],
                  trackers := s.trackers[r.mac := s.trackers[r.mac].(foundCounter := CounterOf(r.message.value))])
    else s2 == s && !resp.AccessToken? && !resp.TrackerAdded? && !resp.PushStored?
  }

  lemma ReportHasEffect(site: Site, s: Server, r: Request)
    requires r.Found?
    ensures var (s2, resp) := Step(site, s, r); ReportEffect(site, s, r, resp, s2)
  {
  }

  lemma ReportMoves(site: Site, s: Server, r: Request, resp: Response, s2: Server)
    requires r.Found? && ReportEffect(site, s, r, resp, s2)
    ensures SessionMove(s, r, resp, s2) && TrackerMove(s, r, resp, s2) && FindingMove(site, s, r, resp, s2)
  {
  }

  lemma TokenMoves(site: Site, s: Server, r: Request)
    requires r.FindingsGet? || r.FindingsDelete? || r.PushToken?
    ensures var (s2, resp) := Step(site, s, r);
            SessionMove(s, r, resp, s2) && TrackerMove(s, r, resp, s2) && FindingMove(site, s, r, resp, s2)
  {
  }

  lemma ProvisionMoves(site: Site, s: Server, r: Request)
    requires r.Provision?
    ensures var (s2, resp) := Step(site, s, r);
            SessionMove(s, r, resp, s2) && TrackerMove(s, r, resp, s2) && FindingMove(site, s, r, resp, s2)
  {
  }

  lemma MovesAt(site: Site, t: Run, k: nat)
    requires IsRun(site, t) && k < |t.reqs|
    ensures Fresh(t.states[k], t.reqs[k])
    ensures SessionMove(t.states[k], t.reqs[k], t.resps[k], t.states[k + 1])
    ensures TrackerMove(t.states[k], t.reqs[k], t.resps[k], t.states[k + 1])
    ensures FindingMove(site, t.states[k], t.reqs[k], t.resps[k], t.states[k + 1])
  {
    assert StepAt(site, t, k);
    var s, r := t.states[k], t.reqs[k];
    if r.RegisterGet? {
      ChallengeMoves(site, s, r);
    } else if r.RegisterPost? {
      RegistrationMoves(site, s, r);
    } else if r.Found? {
      ReportHasEffect(site, s, r);
      ReportMoves(site, s, r, t.resps[k], t.states[k + 1]);
    } else if r.Provision? {
      ProvisionMoves(site, s, r);
    } else {
      TokenMoves(site, s, r);
    }
  }

  lemma FindingMovesAt(site: Site, t: Run, k: nat)
    requires IsRun(site, t) && k < |t.reqs|
    ensures FindingMove(site, t.states[k], t.reqs[k], t.resps[k], t.states[k + 1])
  {
    MovesAt(site, t, k);
  }

  // ---------- challenges ----------

  ghost predicate RegistersAt(t: Run, i: nat) {
    i < |t.reqs| && i < |t.resps| && Registers(t.reqs[i], t.resps[i])
  }

  /** The challenge a successful registration answered. */
  function UsedChallenge(t: Run, i: nat): string
    requires |t.states| == |t.reqs| + 1 && i < |t.reqs|
    requires t.reqs[i].RegisterPost? && t.reqs[i].session in t.states[i].sessions
  {
    t.states[i].sessions[t.reqs[i].session]
  }

  /** Pending challenges were drawn, differ from each other and from every challenge already used. */
  ghost predicate ChallengesApart(t: Run, k: nat)
    requires |t.states| == |t.reqs| + 1 && k <= |t.reqs|
  {
    var s := t.states[k];
    && (forall x :: x in s.sessions ==> s.sessions[x] in s.drawn)
    && (forall x, y :: x in s.sessions && y in s.sessions && s.sessions[x] == s.sessions[y] ==> x == y)
    && (forall i: nat :: i < k && RegistersAt(t, i) ==>
          && t.reqs[i].session in t.states[i].sessions
          && UsedChallenge(t, i) in s.drawn
          && forall x :: x in s.sessions ==> s.sessions[x] != UsedChallenge(t, i))
  }

  lemma {:induction false} ChallengesStayApart(site: Site, t: Run, k: nat)
    requires IsRun(site, t) && k <= |t.reqs|
    ensures ChallengesApart(t, k)
  {
    if k == 0 {
    } else {
      ChallengesStayApart(site, t, k - 1);
      MovesAt(site, t, k - 1);
    }
  }

  /** Over all sessions of a run, each challenge backs at most one successful registration. */
  lemma ChallengeUsedOnce(site: Site, t: Run, i: nat, j: nat)
    requires IsRun(site, t) && i < j < |t.reqs| && RegistersAt(t, i) && RegistersAt(t, j)
    ensures t.reqs[i].session in t.states[i].sessions && t.reqs[j].session in t.states[j].sessions
    ensures UsedChallenge(t, i) != UsedChallenge(t, j)
  {
    MovesAt(site, t, i);
    MovesAt(site, t, j);
    ChallengesStayApart(site, t, j);
  }

  /** Until the session registers, asking again gives the same challenge. */
  lemma {:induction false} ChallengeKept(site: Site, t: Run, i: nat, k: nat)
    requires IsRun(site, t) && i < k <= |t.reqs| && t.reqs[i].RegisterGet?
    requires forall m: nat :: i < m < k && RegistersAt(t, m) ==> t.reqs[m].session != t.reqs[i].session
    ensures t.reqs[i].session in t.states[k].sessions
    ensures t.resps[i] == Challenge(t.states[k].sessions[t.reqs[i].session])
    decreases k
  {
    MovesAt(site, t, k - 1);
    if i == k - 1 {
    } else {
      ChallengeKept(site, t, i, k - 1);
      assert RegistersAt(t, k - 1) ==> t.reqs[k - 1].session != t.reqs[i].session;
    }
  }

  lemma RepeatedGetsAgree(site: Site, t: Run, i: nat, j: nat)
    requires IsRun(site, t) && i < j < |t.reqs|
    requires t.reqs[i].RegisterGet? && t.reqs[j].RegisterGet? && t.reqs[i].session == t.reqs[j].session
    requires forall m: nat :: i < m < j && RegistersAt(t, m) ==> t.reqs[m].session != t.reqs[i].session
    ensures t.resps[i] == t.resps[j] && t.resps[i].Challenge?
  {
    ChallengeKept(site, t, i, j);
    MovesAt(site, t, j);
  }

  /** Every pending challenge is the text of 16 bytes. */
  lemma {:induction false} ChallengesDecode(site: Site, t: Run, k: nat, session: nat) returns (challenge: seq<byte>)
    requires IsRun(site, t) && k <= |t.reqs| && session in t.states[k].sessions
    ensures |challenge| == 16 && t.states[k].sessions[session] == Base64(challenge)
    ensures Unbase64(t.states[k].sessions[session]) == Some(challenge)
  {
    if k == 0 {
      assert false;
    } else {
      MovesAt(site, t, k - 1);
      if session in t.states[k - 1].sessions {
        challenge := ChallengesDecode(site, t, k - 1, session);
      } else {
        challenge := t.reqs[k - 1].random;
      }
      Unbase64Base64(challenge);
    }
  }

  // ---------- access tokens ----------

  /** The token most recently issued to the tracker. */
  function LatestToken(t: Run, k: nat, mac: string): Option<string>
    requires k <= |t.reqs| == |t.resps|
  {
    if k == 0 then None
    else if Registers(t.reqs[k - 1], t.resps[k - 1]) && t.reqs[k - 1].mac == mac then Some(t.resps[k - 1].token)
    else LatestToken(t, k - 1, mac)
  }

  lemma {:induction false} TokenIsLatest(site: Site, t: Run, k: nat, mac: string)
    requires IsRun(site, t) && k <= |t.reqs|
    ensures mac in t.states[k].trackers ==> t.states[k].trackers[mac].accessToken == LatestToken(t, k, mac)
    ensures mac !in t.states[k].trackers ==> LatestToken(t, k, mac) == None
  {
    if k == 0 {
    } else {
      TokenIsLatest(site, t, k - 1, mac);
      MovesAt(site, t, k - 1);
    }
  }

  lemma {:induction false} DrawnGrows(site: Site, t: Run, i: nat, k: nat)
    requires IsRun(site, t) && i <= k <= |t.reqs|
    ensures t.states[i].drawn <= t.states[k].drawn
    decreases k
  {
    if i == k {
    } else {
      DrawnGrows(site, t, i, k - 1);
      MovesAt(site, t, k - 1);
    }
  }

  /** No token is issued twice. */
  lemma TokensIssuedOnce(site: Site, t: Run, i: nat, j: nat)
    requires IsRun(site, t) && i < j < |t.reqs| && RegistersAt(t, i) && RegistersAt(t, j)
    ensures t.resps[i].token != t.resps[j].token
  {
    MovesAt(site, t, i);
    MovesAt(site, t, j);
    DrawnGrows(site, t, i + 1, j);
  }

  /** The registration that issued a tracker's latest token, and nothing for that tracker since. */
  lemma {:induction false} FindIssue(t: Run, k: nat, mac: string) returns (i: nat)
    requires |t.states| == |t.reqs| + 1 && |t.resps| == |t.reqs| && k <= |t.reqs| && LatestToken(t, k, mac).Some?
    ensures i < k && RegistersAt(t, i) && t.reqs[i].mac == mac && LatestToken(t, k, mac) == Some(t.resps[i].token)
    ensures forall m: nat :: i < m < k && RegistersAt(t, m) ==> t.reqs[m].mac != mac
  {
    if Registers(t.reqs[k - 1], t.resps[k - 1]) && t.reqs[k - 1].mac == mac {
      i := k - 1;
    } else {
      i := FindIssue(t, k - 1, mac);
    }
  }

  /** Two trackers never have the same latest token. */
  lemma LatestTokensDiffer(site: Site, t: Run, k: nat, m1: string, m2: string)
    requires IsRun(site, t) && k <= |t.reqs|
    requires LatestToken(t, k, m1).Some? && LatestToken(t, k, m1) == LatestToken(t, k, m2)
    ensures m1 == m2
  {
    var i := FindIssue(t, k, m1);
    var j := FindIssue(t, k, m2);
    if i < j {
      TokensIssuedOnce(site, t, i, j);
    } else if j < i {
      TokensIssuedOnce(site, t, j, i);
    }
  }

  /** A token opens a tracker exactly when it is the latest one issued to it; no lookup is ever ambiguous. */
  lemma TokenResolvesIff(site: Site, t: Run, k: nat, token: string, mac: string)
    requires IsRun(site, t) && k <= |t.reqs|
    ensures GetByToken(t.states[k].trackers, token) == One(mac) <==> LatestToken(t, k, mac) == Some(token)
    ensures GetByToken(t.states[k].trackers, token) != Fails(MultipleObjects)
  {
    var trackers := t.states[k].trackers;
    forall m: string ensures m in Holders(trackers, token) <==> LatestToken(t, k, m) == Some(token) {
      TokenIsLatest(site, t, k, m);
    }
    forall m1, m2 | m1 in Holders(trackers, token) && m2 in Holders(trackers, token) ensures m1 == m2 {
      LatestTokensDiffer(site, t, k, m1, m2);
    }
    if m :| m in Holders(trackers, token) {
      assert Holders(trackers, token) == {m};
    }
  }

  /** After a tracker registers again, its earlier token opens nothing. */
  lemma SupersededTokenIsDead(site: Site, t: Run, i: nat, j: nat, k: nat)
    requires IsRun(site, t) && i < j < k <= |t.reqs| && RegistersAt(t, i) && RegistersAt(t, j)
    requires t.reqs[i].mac == t.reqs[j].mac
    ensures GetByToken(t.states[k].trackers, t.resps[i].token) == Fails(DoesNotExist)
  {
    var token, trackers := t.resps[i].token, t.states[k].trackers;
    if m :| m in Holders(trackers, token) {
      TokenIsLatest(site, t, k, m);
      var p := FindIssue(t, k, m);
      if p < i {
        TokensIssuedOnce(site, t, p, i);
      } else if i < p {
        TokensIssuedOnce(site, t, i, p);
      }
    }
  }

  /** The push service named last with the tracker's token of the time; as provisioned before that. */
  ghost function LatestPush(t: Run, k: nat, mac: string): (Option<string>, Option<string>)
    requires |t.states| == |t.reqs| + 1 && k <= |t.reqs| == |t.resps|
  {
    if k == 0 then
      if mac in t.states[0].trackers then (t.states[0].trackers[mac].pushType, t.states[0].trackers[mac].pushToken)
      else (None, None)
    else if t.reqs[k - 1].PushToken? && LatestToken(t, k - 1, mac) == Some(t.reqs[k - 1].token)
    then (Some(t.reqs[k - 1].pushType), Some(t.reqs[k - 1].pushToken))
    else LatestPush(t, k - 1, mac)
  }

  lemma {:induction false} PushIsLatest(site: Site, t: Run, k: nat, mac: string)
    requires IsRun(site, t) && k <= |t.reqs|
    ensures mac in t.states[k].trackers ==>
              (t.states[k].trackers[mac].pushType, t.states[k].trackers[mac].pushToken) == LatestPush(t, k, mac)
    ensures mac !in t.states[k].trackers ==> LatestPush(t, k, mac) == (None, None)
  {
    if k == 0 {
    } else {
      PushIsLatest(site, t, k - 1, mac);
      if mac in t.states[k - 1].trackers {
        PushStep(site, t, k - 1, mac);
      } else {
        TokenIsLatest(site, t, k - 1, mac);
        MovesAt(site, t, k - 1);
      }
    }
  }

  lemma PushStep(site: Site, t: Run, k: nat, mac: string)
    requires IsRun(site, t) && k < |t.reqs| && mac in t.states[k].trackers
    ensures mac in t.states[k + 1].trackers
    ensures (t.states[k + 1].trackers[mac].pushType, t.states[k + 1].trackers[mac].pushToken)
         == if t.reqs[k].PushToken? && LatestToken(t, k, mac) == Some(t.reqs[k].token)
            then (Some(t.reqs[k].pushType), Some(t.reqs[k].pushToken))
            else (t.states[k].trackers[mac].pushType, t.states[k].trackers[mac].pushToken)
  {
    MovesAt(site, t, k);
    if t.reqs[k].PushToken? {
      TokenResolvesIff(site, t, k, t.reqs[k].token, mac);
      PushAnswer(site, t, k);
    }
  }

  lemma PushAnswer(site: Site, t: Run, k: nat)
    requires IsRun(site, t) && k < |t.reqs| && t.reqs[k].PushToken?
    ensures t.resps[k] == PushStored <==> GetByToken(t.states[k].trackers, t.reqs[k].token).One?
  {
    assert StepAt(site, t, k);
  }

  // ---------- findings ----------

  /** No two findings share tracker and counter. */
  ghost predicate Distinct(findings: seq<Finding>) {
    forall i, j :: 0 <= i < j < |findings| ==>
                     findings[i].mac != findings[j].mac || findings[i].counter != findings[j].counter
  }

  lemma {:induction false} WithoutKeeps(findings: seq<Finding>, mac: string, x: Finding)
    ensures x in Without(findings, mac) <==> x in findings && x.mac != mac
  {
    if findings == [] {
    } else {
      var front, last := findings[..|findings| - 1], findings[|findings| - 1];
      WithoutKeeps(front, mac, x);
      assert findings == front + [last];
    }
  }

  lemma {:induction false} WithoutDistinct(findings: seq<Finding>, mac: string)
    requires Distinct(findings)
    ensures Distinct(Without(findings, mac))
  {
    if findings == [] {
    } else {
      var front, last := findings[..|findings| - 1], findings[|findings| - 1];
      WithoutDistinct(front, mac);
      var w := Without(front, mac);
      forall i | 0 <= i < |w| && last.mac != mac
        ensures w[i].mac != last.mac || w[i].counter != last.counter
      {
        WithoutKeeps(front, mac, w[i]);
        var n :| 0 <= n < |front| && front[n] == w[i];
        assert findings[n] == w[i];
      }
    }
  }

  lemma RowsOfAppend(findings: seq<Finding>, x: Finding, mac: string)
    ensures RowsOf(findings + [x], mac) == RowsOf(findings, mac) + if x.mac == mac then [x] else []
  {
    assert (findings + [x])[..|findings|] == findings;
  }

  lemma {:induction false} RowsOfWithout(findings: seq<Finding>, gone: string, mac: string)
    ensures RowsOf(Without(findings, gone), mac) == if mac == gone then [] else RowsOf(findings, mac)
  {
    if findings == [] {
    } else {
      var front, last := findings[..|findings| - 1], findings[|findings| - 1];
      RowsOfWithout(front, gone, mac);
      if last.mac != gone {
        RowsOfAppend(Without(front, gone), last, mac);
      } else {
        assert Without(findings, gone) == Without(front, gone);
      }
    }
  }

  lemma {:induction false} FindingsDistinct(site: Site, t: Run, k: nat)
    requires IsRun(site, t) && k <= |t.reqs|
    ensures Distinct(t.states[k].findings)
  {
    if k == 0 {
    } else {
      FindingsDistinct(site, t, k - 1);
      FindingMovesAt(site, t, k - 1);
      var s, r := t.states[k - 1], t.reqs[k - 1];
      if Deletes(r, t.resps[k - 1]) {
        WithoutDistinct(s.findings, GetByToken(s.trackers, r.token).mac);
      }
    }
  }

  /** The rows of a tracker after a request: none after a delete with its token, one more after an accepted report. */
  ghost function RowsAfter(site: Site, t: Run, k: nat, mac: string, rows: seq<Finding>): seq<Finding>
    requires |t.states| == |t.reqs| + 1 && k < |t.reqs| == |t.resps|
  {
    var r, resp := t.reqs[k], t.resps[k];
    if Deletes(r, resp) && LatestToken(t, k, mac) == Some(r.token) then []
    else rows + if Reports(r, resp) && HasRow(r) && r.mac == mac then [ReportedRow(site, r)] else []
  }

  /** The rows of a tracker's accepted reports since findings were last deleted with its token, in order. */
  ghost function AcceptedSince(site: Site, t: Run, k: nat, mac: string): seq<Finding>
    requires |t.states| == |t.reqs| + 1 && k <= |t.reqs| == |t.resps|
  {
    if k == 0 then [] else RowsAfter(site, t, k - 1, mac, AcceptedSince(site, t, k - 1, mac))
  }

  /** A tracker's findings are exactly its accepted reports since its last delete. */
  lemma {:induction false} FindingsAreAcceptedReports(site: Site, t: Run, k: nat, mac: string)
    requires IsRun(site, t) && k <= |t.reqs|
    ensures RowsOf(t.states[k].findings, mac) == AcceptedSince(site, t, k, mac)
  {
    if k == 0 {
    } else {
      FindingsAreAcceptedReports(site, t, k - 1, mac);
      RowsStep(site, t, k - 1, mac);
    }
  }

  lemma RowsStep(site: Site, t: Run, k: nat, mac: string)
    requires IsRun(site, t) && k < |t.reqs|
    ensures RowsOf(t.states[k + 1].findings, mac) == RowsAfter(site, t, k, mac, RowsOf(t.states[k].findings, mac))
  {
    FindingMovesAt(site, t, k);
    if Reports(t.reqs[k], t.resps[k]) {
      RowsOfAppend(t.states[k].findings, ReportedRow(site, t.reqs[k]), mac);
    } else if Deletes(t.reqs[k], t.resps[k]) {
      RowsAfterDelete(site, t, k, mac);
    }
  }

  lemma RowsAfterDelete(site: Site, t: Run, k: nat, mac: string)
    requires IsRun(site, t) && k < |t.reqs| && Deletes(t.reqs[k], t.resps[k])
    ensures RowsOf(t.states[k + 1].findings, mac)
         == if LatestToken(t, k, mac) == Some(t.reqs[k].token) then [] else RowsOf(t.states[k].findings, mac)
  {
    FindingMovesAt(site, t, k);
    var s, token := t.states[k], t.reqs[k].token;
    TokenResolvesIff(site, t, k, token, mac);
    RowsOfWithout(s.findings, GetByToken(s.trackers, token).mac, mac);
  }

  /**
   Asking for findings with a tracker's latest token returns exactly its accepted reports since its last delete; a
   token that is no tracker's latest, and no other, is answered with the error for an unknown tracker.
   */
  lemma FindingsAnswer(site: Site, t: Run, k: nat, mac: string)
    requires IsRun(site, t) && k < |t.reqs| && t.reqs[k].FindingsGet?
    ensures LatestToken(t, k, mac) == Some(t.reqs[k].token) ==> t.resps[k] == Findings(AcceptedSince(site, t, k, mac))
    ensures t.resps[k].Findings? || t.resps[k] == Raised(DoesNotExist)
    ensures t.resps[k] == Raised(DoesNotExist) <==> forall m :: LatestToken(t, k, m) != Some(t.reqs[k].token)
  {
    assert StepAt(site, t, k);
    var token := t.reqs[k].token;
    forall m: string
      ensures GetByToken(t.states[k].trackers, token) == One(m) <==> LatestToken(t, k, m) == Some(token)
    {
      TokenResolvesIff(site, t, k, token, m);
    }
    TokenResolvesIff(site, t, k, token, mac);
    FindingsAreAcceptedReports(site, t, k, mac);
    if t.resps[k].Findings? {
      var holder := GetByToken(t.states[k].trackers, token).mac;
      assert LatestToken(t, k, holder) == Some(token);
    }
  }

  /** The counter of the tracker's last accepted report, deleted or not; 0 before the first. */
  function LastCounter(t: Run, k: nat, mac: string): nat
    requires k <= |t.reqs| == |t.resps|
  {
    if k == 0 then 0
    else if Reports(t.reqs[k - 1], t.resps[k - 1]) && HasRow(t.reqs[k - 1]) && t.reqs[k - 1].mac == mac
    then CounterOf(t.reqs[k - 1].message.value)
    else LastCounter(t, k - 1, mac)
  }

  lemma {:induction false} FoundCounterIsLast(site: Site, t: Run, k: nat, mac: string)
    requires IsRun(site, t) && k <= |t.reqs|
    ensures mac in t.states[k].trackers ==> t.states[k].trackers[mac].foundCounter == LastCounter(t, k, mac)
    ensures mac !in t.states[k].trackers ==> LastCounter(t, k, mac) == 0
  {
    if k == 0 {
    } else {
      MovesAt(site, t, k - 1);
      FoundCounterIsLast(site, t, k - 1, mac);
    }
  }

  /** A tracker stays known, with the key it came with. */
  lemma {:induction false} KeysNeverChange(site: Site, t: Run, i: nat, k: nat, mac: string)
    requires IsRun(site, t) && i <= k <= |t.reqs| && mac in t.states[i].trackers
    ensures mac in t.states[k].trackers && t.states[k].trackers[mac].mfgKey == t.states[i].trackers[mac].mfgKey
    decreases k
  {
    if i == k {
    } else {
      KeysNeverChange(site, t, i, k - 1, mac);
      MovesAt(site, t, k - 1);
    }
  }

  /** A tracker is known exactly when it was there from the start or was added since. */
  lemma {:induction false} KnownSinceAdded(site: Site, t: Run, k: nat, mac: string)
    requires IsRun(site, t) && k <= |t.reqs|
    ensures mac in t.states[k].trackers <==>
              || mac in t.states[0].trackers
              || exists i :: 0 <= i < k && Provides(t.reqs[i], t.resps[i]) && t.reqs[i].mac == mac
  {
    if k == 0 {
    } else {
      KnownSinceAdded(site, t, k - 1, mac);
      MovesAt(site, t, k - 1);
    }
  }

  /** Request `i` is an accepted report that put this row into the table. */
  ghost predicate CameFrom(site: Site, t: Run, i: nat, row: Finding)
    requires IsRun(site, t)
  {
    && i < |t.reqs| && Reports(t.reqs[i], t.resps[i]) && HasRow(t.reqs[i])
    && row == ReportedRow(site, t.reqs[i])
    && Verifies(site, t.states[i], row.mac, t.reqs[i].message.value)
  }

  lemma {:induction false} FindReport(site: Site, t: Run, k: nat, row: Finding) returns (i: nat)
    requires IsRun(site, t) && k <= |t.reqs| && row in t.states[k].findings
    ensures i < k && CameFrom(site, t, i, row)
  {
    if k == 0 {
      assert false;
    } else {
      FindingMovesAt(site, t, k - 1);
      var s, r, resp := t.states[k - 1], t.reqs[k - 1], t.resps[k - 1];
      if Deletes(r, resp) {
        WithoutKeeps(s.findings, GetByToken(s.trackers, r.token).mac, row);
      }
      if row in s.findings {
        i := FindReport(site, t, k - 1, row);
      } else {
        i := k - 1;
        AcceptedHasRow(site, t, k - 1);
      }
    }
  }

  /** What an accepted report had to be. */
  lemma AcceptedHasRow(site: Site, t: Run, i: nat)
    requires IsRun(site, t) && i < |t.reqs| && Reports(t.reqs[i], t.resps[i])
    ensures HasRow(t.reqs[i]) && Verifies(site, t.states[i], t.reqs[i].mac, t.reqs[i].message.value)
    ensures site.repairs.unpackFirst
  {
    assert StepAt(site, t, i);
    ReportsIff(site, t.states[i], t.reqs[i]);
  }

  /**
   Every finding is authentic: it comes from a report `i` of the run that was accepted for its own tracker and with
   its own 32-bit counter, and the tag of that report verifies under the tracker's present key.  Its text decodes to
   address, counter and payload of that report exactly when the text column is repaired.
   */
  lemma FindingsAuthentic(site: Site, t: Run, k: nat, row: Finding) returns (i: nat)
    requires IsRun(site, t) && k <= |t.reqs| && row in t.states[k].findings
    ensures i < k && Reports(t.reqs[i], t.resps[i]) && HasRow(t.reqs[i]) && t.reqs[i].mac == row.mac
    ensures row.mac in t.states[k].trackers && Unhexlify(t.states[k].trackers[row.mac].mfgKey).Some?
    ensures var m := t.reqs[i].message.value;
            var text := ReportText(Unhexlify(row.mac).value, row.counter, PayloadOf(m));
            && CounterOf(m) == row.counter < 0x1_0000_0000
            && TagOf(m) == Take(site.hmac(Unhexlify(t.states[k].trackers[row.mac].mfgKey).value, text), 12)
            && (Unbase64(row.e2eMessage) == Some(text) <==> site.repairs.storeText)
  {
    i := FindReport(site, t, k, row);
    var m := t.reqs[i].message.value;
    KeysNeverChange(site, t, i, k, row.mac);
    ReportRejoins(m);
    Unbase64Base64(ReportText(Unhexlify(row.mac).value, row.counter, PayloadOf(m)));
    PrintedBytesDoNotDecode(Base64(ReportText(Unhexlify(row.mac).value, row.counter, PayloadOf(m))));
  }

  /** The text column keeps the base64 text itself once repaired; until then its printed form, a letter and quotes. */
  lemma TextColumn(repairs: Repairs, s: string)
    ensures repairs.storeText ==> StoredText(repairs, s) == s
    ensures !repairs.storeText ==>
              var text := StoredText(repairs, s);
              |text| == |s| + 3 && text[0] == 'b' && text[1] == '\'' && text[2..2 + |s|] == s && text[2 + |s|] == '\''
  {
  }

  lemma PrintedBytesDoNotDecode(s: string)
    ensures Unbase64("b'" + s + "'") == None
  {
    assert ("b'" + s + "'")[1] == '\'';
  }
}
