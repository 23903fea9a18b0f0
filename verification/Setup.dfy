/**
 The setup of a tracker from end to end: the server's challenge, the answer computed by the firmware on its
 incremental hash, and the registration.
 */
module Setup {
  import opened Common
  import opened Encodings
  import opened Messages
  import opened Finder
  import opened FinderRuns
  import opened FinderServer
  import Sha256Rounds
  import Hmac

  /** The server's HMAC is HMAC-SHA-256. */
  ghost predicate UsesMac(hmac: MacFunction) {
    forall key, text :: hmac(key, text) == Hmac.FipsMac(key, text)
  }

  /** The server knows the tracker with this key and this device address. */
  predicate Provisions(trackers: map<string, Tracker>, mfgKey: seq<byte>, deviceAddress: seq<byte>)
    requires |deviceAddress| == 8
  {
    var mac := Hexlify(Hmac.BluetoothMac(deviceAddress));
    mac in trackers && trackers[mac].mfgKey == Hexlify(mfgKey)
  }

  /** The notification a tracker sends in answer to a challenge. */
  function Notification(mfgKey: seq<byte>, deviceAddress: seq<byte>, challenge: seq<byte>): seq<byte>
    requires |deviceAddress| == 8
  {
    Hmac.FipsMac(mfgKey, RegistrationText(Hmac.BluetoothMac(deviceAddress), challenge))[..16]
  }

  /** In any reachable state the server accepts a provisioned tracker's answer to the pending challenge. */
  lemma AnswerAccepted(site: Site, t: Run, k: nat, mfgKey: seq<byte>, deviceAddress: seq<byte>,
                       session: nat, random: seq<byte>)
    requires IsRun(site, t) && k <= |t.reqs| && session in t.states[k].sessions
    requires UsesMac(site.hmac) && |deviceAddress| == 8
    requires Provisions(t.states[k].trackers, mfgKey, deviceAddress)
    ensures var challenge := Unbase64(t.states[k].sessions[session]);
            && challenge.Some? && |challenge.value| == 16
            && var r := RegisterPost(session, Hexlify(Hmac.BluetoothMac(deviceAddress)),
                                     Some(Notification(mfgKey, deviceAddress, challenge.value)), random);
               Registers(r, Step(site, t.states[k], r).1)
  {
    var challenge := ChallengesDecode(site, t, k, session);
    var mac := Hmac.BluetoothMac(deviceAddress);
    UnhexlifyHexlify(mac);
    UnhexlifyHexlify(mfgKey);
    var r := RegisterPost(session, Hexlify(mac), Some(Notification(mfgKey, deviceAddress, challenge)), random);
    assert SetupResponse(site.hmac, mfgKey, mac, challenge) == r.response.value;
    RegistersIff(site, t.states[k], r);
  }

  /** The tracker's part, on the firmware's hash. */
  method TrackerAnswers(mfgKey: seq<byte>, deviceAddress: seq<byte>, challenge: seq<byte>)
    returns (notification: seq<byte>)
    requires |mfgKey| == 16 && |deviceAddress| == 8 && |challenge| == 16
    ensures notification == Notification(mfgKey, deviceAddress, challenge)
  {
    notification := Hmac.OnSetupChallenge(Sha256Rounds.FirmwareOps(), mfgKey, deviceAddress, challenge);
    Hmac.FirmwareMac(mfgKey, RegistrationText(Hmac.BluetoothMac(deviceAddress), challenge));
  }

  /** The second half of a setup: the tracker answers the pending challenge and the app posts the answer. */
  method AnswerChallenge(server: Backend, mfgKey: seq<byte>, deviceAddress: seq<byte>, session: nat, random: seq<byte>)
    returns (token: string)
    requires server.Valid() && UsesMac(server.hmac) && session in server.sessions
    requires |mfgKey| == 16 && |deviceAddress| == 8 && Provisions(server.trackers, mfgKey, deviceAddress)
    requires |random| == 16 && GenerateKey(random) !in server.drawn
    modifies server
    ensures server.Valid()
    ensures session !in server.sessions
    ensures GetByToken(server.trackers, token) == One(Hexlify(Hmac.BluetoothMac(deviceAddress)))
  {
    AnswerAccepted(server.TheSite(), server.past, |server.past.reqs|, mfgKey, deviceAddress, session, random);
    var challenge := Unbase64(server.sessions[session]).value;
    var notification := TrackerAnswers(mfgKey, deviceAddress, challenge);
    var mac := Hexlify(Hmac.BluetoothMac(deviceAddress));
    var answer := server.RegisterViewPost(session, mac, Some(notification), random);
    token := answer.token;
    assert LatestToken(server.past, |server.past.reqs|, mac) == Some(token);
    TokenResolvesIff(server.TheSite(), server.past, |server.past.reqs|, token, mac);
  }

  /** The app's part: fetch the challenge, let the tracker answer it, post the answer. */
  method SetUp(server: Backend, mfgKey: seq<byte>, deviceAddress: seq<byte>, session: nat, random1: seq<byte>,
               random2: seq<byte>)
    returns (token: string)
    requires server.Valid() && UsesMac(server.hmac)
    requires |mfgKey| == 16 && |deviceAddress| == 8 && Provisions(server.trackers, mfgKey, deviceAddress)
    requires |random1| == |random2| == 16 && random1 != random2
    requires GenerateKey(random1) !in server.drawn && GenerateKey(random2) !in server.drawn
    modifies server
    ensures server.Valid()
    ensures session !in server.sessions
    ensures GetByToken(server.trackers, token) == One(Hexlify(Hmac.BluetoothMac(deviceAddress)))
  {
    var offered := server.RegisterViewGet(session, random1);
    if GenerateKey(random1) == GenerateKey(random2) {
      Base64Injective(random1, random2);
    }
    token := AnswerChallenge(server, mfgKey, deviceAddress, session, random2);
  }
}
