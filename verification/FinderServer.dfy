/**
 The PrivateFind server as it runs: request handlers that update sessions, tracker rows and the table of findings.
 Every handler is proved to take exactly one transition of `Finder`, and the server remembers the run that led to its
 state, so that the theorems of `FinderRuns` apply to it.
 */
module FinderServer {
  import opened Common
  import opened Encodings
  import opened Messages
  import opened Finder
  import opened FinderRuns

  class Backend {
    const hmac: MacFunction
    const repairs: Repairs
    var sessions: map<nat, string>
    var trackers: map<string, Tracker>
    var findings: seq<Finding>
    ghost var drawn: set<string>
    ghost var past: Run

    ghost function Abs(): Server
      reads this
    {
      Server(sessions, trackers, findings, drawn)
    }

    ghost function TheSite(): Site {
      Site(hmac, repairs)
    }

    ghost predicate Valid()
      reads this
    {
      IsRun(TheSite(), past) && past.states[|past.reqs|] == Abs()
    }

    constructor (hmac: MacFunction, repairs: Repairs, trackers: map<string, Tracker>)
      requires forall m :: m in trackers ==> trackers[m].accessToken == None && trackers[m].foundCounter == 0
      ensures Valid() && this.hmac == hmac && this.repairs == repairs
      ensures Abs() == Server(map[], trackers, [], {}) && past.reqs == []
    {
      this.hmac, this.repairs, this.trackers := hmac, repairs, trackers;
      sessions, findings, drawn := map[], [], {};
      past := Run([Server(map[], trackers, [], {})], [], []);
    }

    /** Records that the present state was reached by answering `r` with `resp`. */
    ghost method Record(r: Request, resp: Response)
      requires IsRun(TheSite(), past)
      requires var s := past.states[|past.reqs|]; Fresh(s, r) && Step(TheSite(), s, r) == (Abs(), resp)
      modifies this`past
      ensures Valid() && past.reqs == old(past.reqs) + [r] && past.resps == old(past.resps) + [resp]
    {
      var before := past;
      past := Run(past.states + [Abs()], past.reqs + [r], past.resps + [resp]);
      forall k | 0 <= k < |past.reqs| ensures StepAt(TheSite(), past, k) {
        if k < |before.reqs| {
          assert StepAt(TheSite(), before, k);
        }
      }
    }

    method RegisterViewGet(session: nat, random: seq<byte>) returns (resp: Response)
      requires Valid() && Fresh(Abs(), RegisterGet(session, random))
      modifies this
      ensures Valid() && past.reqs == old(past.reqs) + [RegisterGet(session, random)]
      ensures past.resps == old(past.resps) + [resp]
      ensures (Abs(), resp) == StepRegisterGet(old(Abs()), session, random)
    {
      if session !in sessions {
        var key := GenerateKey(random);
        sessions := sessions[session := key];
        drawn := drawn + {key};
      }
      resp := Challenge(sessions[session]);
      Record(RegisterGet(session, random), resp);
    }

    method RegisterViewPost(session: nat, mac: string, response: Option<seq<byte>>, random: seq<byte>)
      returns (resp: Response)
      requires Valid() && Fresh(Abs(), RegisterPost(session, mac, response, random))
      modifies this
      ensures Valid() && past.reqs == old(past.reqs) + [RegisterPost(session, mac, response, random)]
      ensures past.resps == old(past.resps) + [resp]
      ensures (Abs(), resp) == StepRegisterPost(hmac, old(Abs()), session, mac, response, random)
    {
      resp := Register(session, mac, response, random);
      Record(RegisterPost(session, mac, response, random), resp);
    }

    method Register(session: nat, mac: string, response: Option<seq<byte>>, random: seq<byte>)
      returns (resp: Response)
      modifies this`sessions, this`trackers, this`drawn
      ensures (Abs(), resp) == StepRegisterPost(hmac, old(Abs()), session, mac, response, random)
    {
      if mac !in trackers { return Raised(DoesNotExist); }
      var device := trackers[mac];
      if session !in sessions { return Raised(NoChallenge); }
      var challenge := Unbase64(sessions[session]);
      if challenge.None? { return Raised(BadBase64); }
      var keyBin, macBin := Unhexlify(device.mfgKey), Unhexlify(mac);
      if keyBin.None? || macBin.None? { return Raised(BadHex); }
      var expected := Take(hmac(keyBin.value, RegistrationText(macBin.value, challenge.value)), 16);
      if response.None? { return Raised(BadBase64); }
      if response.value != expected { return Raised(InvalidSetupResponse); }
      sessions := sessions - {session};
      device := device.(accessToken := Some(GenerateKey(random)));
      drawn := drawn + {GenerateKey(random)};
      trackers := trackers[mac := device];
      resp := AccessToken(device.accessToken.value);
    }

    method FoundViewPost(mac: string, message: Option<seq<byte>>, signature: bool) returns (resp: Response)
      requires Valid()
      modifies this
      ensures Valid() && past.reqs == old(past.reqs) + [Found(mac, message, signature)]
      ensures past.resps == old(past.resps) + [resp]
      ensures (Abs(), resp) == StepFound(TheSite(), old(Abs()), mac, message, signature)
    {
      resp := Report(mac, message, signature);
      Record(Found(mac, message, signature), resp);
    }

    method Report(mac: string, message: Option<seq<byte>>, signature: bool) returns (resp: Response)
      modifies this`findings, this`trackers
      ensures (Abs(), resp) == StepFound(TheSite(), old(Abs()), mac, message, signature)
    {
      if message.None? { return Raised(BadBase64); }
      if |message.value| != MESSAGE_LENGTH { return FoundReply(false); }
      var ctr := CounterValue(repairs, message.value);
      if mac !in trackers { return Raised(DoesNotExist); }
      var device := trackers[mac];
      var macBin := Unhexlify(mac);
      if macBin.None? { return Raised(BadHex); }
      var packed := StructPack(ctr);
      if packed.None? { return Raised(StructError); }
      var text := FIN_PREFIX + macBin.value + packed.value + PayloadOf(message.value);
      var keyBin := Unhexlify(device.mfgKey);
      if keyBin.None? { return Raised(BadHex); }
      if TagOf(message.value) != ExpectedTag(repairs, hmac(keyBin.value, text)) {
        if !repairs.dropField && !signature { return Raised(KeyError); }
        return InvalidSignature;
      }
      if HasFinding(findings, mac, ctr.n) { return DuplicateCounter; }
      findings := findings + [Finding(mac, ctr.n, StoredText(repairs, Base64(text)))];
      device := device.(foundCounter := ctr.n);
      trackers := trackers[mac := device];
      if device.pushType == Some("firebase") && !repairs.passMessage { return Raised(TypeError); }
      resp := FoundReply(true);
    }

    /** `Tracker.objects.get(access_token=token)`. */
    method LookUp(token: string) returns (r: Lookup)
      ensures r == GetByToken(trackers, token)
    {
      var holders := Holders(trackers, token);
      if holders == {} { return Fails(DoesNotExist); }
      var m :| m in holders;
      if holders == {m} { r := One(m); } else { r := Fails(MultipleObjects); }
    }

    method FindingsViewGet(token: string) returns (resp: Response)
      requires Valid()
      modifies this`past
      ensures Valid() && past.reqs == old(past.reqs) + [FindingsGet(token)]
      ensures past.resps == old(past.resps) + [resp]
      ensures (Abs(), resp) == StepFindingsGet(old(Abs()), token)
    {
      var row := LookUp(token);
      if row.Fails? {
        resp := Raised(row.error);
      } else {
        var rows := [];
        for i := 0 to |findings|
          invariant rows == RowsOf(findings[..i], row.mac)
        {
          assert findings[..i + 1][..i] == findings[..i];
          if findings[i].mac == row.mac { rows := rows + [findings[i]]; }
        }
        assert findings[..|findings|] == findings;
        resp := Findings(rows);
      }
      Record(FindingsGet(token), resp);
    }

    method FindingsViewDelete(token: string) returns (resp: Response)
      requires Valid()
      modifies this
      ensures Valid() && past.reqs == old(past.reqs) + [FindingsDelete(token)]
      ensures past.resps == old(past.resps) + [resp]
      ensures (Abs(), resp) == StepFindingsDelete(repairs, old(Abs()), token)
    {
      var row := LookUp(token);
      if row.Fails? {
        resp := Raised(row.error);
      } else if !repairs.deleteRows {
        resp := Raised(AttributeError);
      } else {
        DeleteAll(row.mac);
        resp := if repairs.importResponse then DeleteReply else Raised(NameError);
      }
      Record(FindingsDelete(token), resp);
    }

    /** `finding_set.all().delete()` */
    method DeleteAll(mac: string)
      modifies this`findings
      ensures findings == Without(old(findings), mac)
    {
      var kept := [];
      for i := 0 to |findings|
        invariant kept == Without(findings[..i], mac)
      {
        assert findings[..i + 1][..i] == findings[..i];
        if findings[i].mac != mac { kept := kept + [findings[i]]; }
      }
      assert findings[..|findings|] == findings;
      findings := kept;
    }

    method PushTokenViewPost(token: string, pushType: string, pushToken: string) returns (resp: Response)
      requires Valid()
      modifies this
      ensures Valid() && past.reqs == old(past.reqs) + [PushToken(token, pushType, pushToken)]
      ensures past.resps == old(past.resps) + [resp]
      ensures (Abs(), resp) == StepPushToken(old(Abs()), token, pushType, pushToken)
    {
      var row := LookUp(token);
      if row.Fails? {
        resp := Raised(row.error);
      } else {
        var device := trackers[row.mac];
        device := device.(pushType := Some(pushType));
        device := device.(pushToken := Some(pushToken));
        trackers := trackers[row.mac := device];
        resp := PushStored;
      }
      Record(PushToken(token, pushType, pushToken), resp);
    }

    /** The form of the admin site that adds a tracker. */
    method AddTracker(mac: string, mfgKey: string) returns (resp: Response)
      requires Valid()
      modifies this
      ensures Valid() && past.reqs == old(past.reqs) + [Provision(mac, mfgKey)]
      ensures past.resps == old(past.resps) + [resp]
      ensures (Abs(), resp) == StepProvision(old(Abs()), mac, mfgKey)
    {
      if mac in trackers || !ValidAddress(mac) || mfgKey == "" || |mfgKey| > 64 {
        resp := Raised(ValidationError);
      } else {
        trackers := trackers[mac := Tracker(mfgKey, None, None, None, 0)];
        resp := TrackerAdded;
      }
      Record(Provision(mac, mfgKey), resp);
    }
  }
}
