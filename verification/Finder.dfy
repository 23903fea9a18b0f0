/**
 The PrivateFind server as a state machine on values: sessions, trackers and findings, one transition per request.

 Seven lines of the source do something else than the code around them means.  Each has its own switch in `Repairs`,
 and the server is modelled for every setting of the switches.
 */
module Finder {
  import opened Common
  import opened Bytes
  import opened Messages
  import opened Encodings

  /** HMAC-SHA-256 of a key and a text; the server works for any function. */
  type MacFunction = (seq<byte>, seq<byte>) -> seq<byte>

  datatype Tracker = Tracker(mfgKey: string, accessToken: Option<string>, pushType: Option<string>,
                             pushToken: Option<string>, foundCounter: nat)

  datatype Finding = Finding(mac: string, counter: nat, e2eMessage: string)

  /** `sessions` holds the pending challenge of each session that has one; `drawn` every key generated so far. */
  datatype Server = Server(sessions: map<nat, string>, trackers: map<string, Tracker>, findings: seq<Finding>,
                           drawn: set<string>)

  /** Which lines of views.py are repaired, and how; all false is the server as written. */
  datatype Repairs = Repairs(
    unpackFirst: bool,    // line 49: the counter is the first element of the unpacked tuple
    truncateTag: bool,    // line 63: twelve bytes of the HMAC are compared
    dropField: bool,      // line 64: the log message does not read the field "signature"
    storeText: bool,      // line 67: the base64 bytes are stored as text
    deleteRows: bool,     // line 87: all rows of the set are deleted
    importResponse: bool, // line 88: HttpResponse is imported
    passMessage: bool)    // line 102: the message is passed on to the push service

  datatype Request =
    | RegisterGet(session: nat, random: seq<byte>)
    | RegisterPost(session: nat, mac: string, response: Option<seq<byte>>, random: seq<byte>)
    | Found(mac: string, message: Option<seq<byte>>, signature: bool)
    | FindingsGet(token: string)
    | FindingsDelete(token: string)
    | PushToken(token: string, pushType: string, pushToken: string)
    | Provision(mac: string, mfgKey: string)

  datatype Error =
    | DoesNotExist | MultipleObjects | NoChallenge | BadHex | BadBase64 | InvalidSetupResponse | StructError
    | AttributeError | KeyError | NameError | TypeError | ValidationError

  datatype Response =
    | Challenge(text: string)
    | AccessToken(token: string)
    | FoundReply(success: bool)
    | InvalidSignature
    | DuplicateCounter
    | Findings(rows: seq<Finding>)
    | DeleteReply
    | PushStored
    | TrackerAdded
    | Raised(error: Error)

  /** The slice `[0:n]` of a Python sequence. */
  function Take(b: seq<byte>, n: nat): seq<byte> {
    if |b| <= n then b else b[..n]
  }

  // ---------- registration ----------

  function GenerateKey(random: seq<byte>): string {
    Base64(random)
  }

  function StepRegisterGet(s: Server, session: nat, random: seq<byte>): (Server, Response) {
    if session in s.sessions then (s, Challenge(s.sessions[session]))
    else
      var key := GenerateKey(random);
      (s.(sessions := s.sessions[session := key], drawn := s.drawn + {key}), Challenge(key))
  }

  function StepRegisterPost(hmac: MacFunction, s: Server, session: nat, mac: string, response: Option<seq<byte>>,
                            random: seq<byte>): (Server, Response)
  {
    if mac !in s.trackers then (s, Raised(DoesNotExist))
    else if session !in s.sessions then (s, Raised(NoChallenge))
    else
      var device := s.trackers[mac];
      var challenge := Unbase64(s.sessions[session]);
      var keyBin, macBin := Unhexlify(device.mfgKey), Unhexlify(mac);
      if challenge.None? then (s, Raised(BadBase64))
      else if keyBin.None? || macBin.None? then (s, Raised(BadHex))
      else if response.None? then (s, Raised(BadBase64))
      else
        var expected := Take(hmac(keyBin.value, RegistrationText(macBin.value, challenge.value)), 16);
        if response.value != expected then (s, Raised(InvalidSetupResponse))
        else
          var key := GenerateKey(random);
          (s.(sessions := s.sessions - {session},
              trackers := s.trackers[mac := device.(accessToken := Some(key))],
              drawn := s.drawn + {key}),
           AccessToken(key))
  }

  // ---------- reports ----------

  predicate HasFinding(findings: seq<Finding>, mac: string, counter: nat) {
    exists i :: 0 <= i < |findings| && findings[i].mac == mac && findings[i].counter == counter
  }

  /** The Python values a counter may be. */
  datatype PyValue = PyInt(n: nat) | PyTuple(items: seq<PyValue>)

  /** `struct.unpack("!I", b)` */
  function StructUnpack(b: seq<byte>): PyValue {
    PyTuple([PyInt(FromBigEndian(b))])
  }

  /** `struct.pack("!I", v)`; `None` is `struct.error`. */
  function StructPack(v: PyValue): (r: Option<seq<byte>>)
    ensures r.Some? ==> v.PyInt?
  {
    if v.PyInt? && v.n < 0x1_0000_0000 then Some(BigEndian(v.n, COUNTER_WIDTH)) else None
  }

  /** The value of `ctr` for a report. */
  function CounterValue(repairs: Repairs, message: seq<byte>): PyValue
    requires |message| == MESSAGE_LENGTH
  {
    var unpacked := StructUnpack(message[0..4]);
    if repairs.unpackFirst then unpacked.items[0] else unpacked
  }

  /** What the tag is compared with. */
  function ExpectedTag(repairs: Repairs, digest: seq<byte>): seq<byte> {
    if repairs.truncateTag then Take(digest, 12) else digest
  }

  /** What a text column keeps of base64 bytes; unless they are decoded first, Django stores how Python prints them. */
  function StoredText(repairs: Repairs, base64: string): string {
    if repairs.storeText then base64 else "b'" + base64 + "'"
  }

  /** The row stored for an accepted report. */
  function RowOf(repairs: Repairs, mac: string, macBin: seq<byte>, message: seq<byte>): Finding
    requires |message| == MESSAGE_LENGTH
  {
    var text := ReportText(macBin, CounterOf(message), PayloadOf(message));
    Finding(mac, CounterOf(message), StoredText(repairs, Base64(text)))
  }

  function StepFound(site: Site, s: Server, mac: string, message: Option<seq<byte>>, signature: bool)
    : (Server, Response)
  {
    if message.None? then (s, Raised(BadBase64))
    else if |message.value| != MESSAGE_LENGTH then (s, FoundReply(false))
    else if mac !in s.trackers then (s, Raised(DoesNotExist))
    else
      var device, m := s.trackers[mac], message.value;
      var ctr := CounterValue(site.repairs, m);
      var keyBin, macBin, packed := Unhexlify(device.mfgKey), Unhexlify(mac), StructPack(ctr);
      if macBin.None? then (s, Raised(BadHex))
      else if packed.None? then (s, Raised(StructError))
      else if keyBin.None? then (s, Raised(BadHex))
      else
        var text := FIN_PREFIX + macBin.value + packed.value + PayloadOf(m);
        if TagOf(m) != ExpectedTag(site.repairs, site.hmac(keyBin.value, text)) then
          (s, if site.repairs.dropField || signature then InvalidSignature else Raised(KeyError))
        else if HasFinding(s.findings, mac, ctr.n) then (s, DuplicateCounter)
        else
          (s.(findings := s.findings + [Finding(mac, ctr.n, StoredText(site.repairs, Base64(text)))],
              trackers := s.trackers[mac := device.(foundCounter := ctr.n)]),
           AfterPush(site.repairs, device))
  }

  /** Called without the message, the Firebase function raises an exception; the report is stored by then. */
  function AfterPush(repairs: Repairs, device: Tracker): Response {
    if device.pushType == Some("firebase") && !repairs.passMessage then Raised(TypeError) else FoundReply(true)
  }

  // ---------- access by token ----------

  function Holders(trackers: map<string, Tracker>, token: string): set<string> {
    set m | m in trackers && trackers[m].accessToken == Some(token)
  }

  datatype Lookup = One(mac: string) | Fails(error: Error)

  /** `objects.get`: exactly one row, or an exception. */
  ghost function GetByToken(trackers: map<string, Tracker>, token: string): (r: Lookup)
    ensures r.One? ==> r.mac in trackers && Holders(trackers, token) == {r.mac}
    ensures r == Fails(DoesNotExist) <==> Holders(trackers, token) == {}
    ensures (exists m :: Holders(trackers, token) == {m}) ==> r.One?
    ensures r.Fails? ==> r.error == DoesNotExist || r.error == MultipleObjects
  {
    var holders := Holders(trackers, token);
    if holders == {} then Fails(DoesNotExist)
    else
      var m :| m in holders;
      if holders == {m} then One(m) else Fails(MultipleObjects)
  }

  function RowsOf(findings: seq<Finding>, mac: string): seq<Finding> {
    if findings == [] then []
    else RowsOf(findings[..|findings| - 1], mac)
         + if findings[|findings| - 1].mac == mac then [findings[|findings| - 1]] else []
  }

  function Without(findings: seq<Finding>, mac: string): seq<Finding> {
    if findings == [] then []
    else Without(findings[..|findings| - 1], mac)
         + if findings[|findings| - 1].mac == mac then [] else [findings[|findings| - 1]]
  }

  ghost function StepFindingsGet(s: Server, token: string): (Server, Response) {
    match GetByToken(s.trackers, token)
    case Fails(error) => (s, Raised(error))
    case One(mac) => (s, Findings(RowsOf(s.findings, mac)))
  }

  ghost function StepFindingsDelete(repairs: Repairs, s: Server, token: string): (Server, Response) {
    match GetByToken(s.trackers, token)
    case Fails(error) => (s, Raised(error))
    case One(mac) =>
      if !repairs.deleteRows then (s, Raised(AttributeError))
      else
        (s.(findings := Without(s.findings, mac)), if repairs.importResponse then DeleteReply else Raised(NameError))
  }

  ghost function StepPushToken(s: Server, token: string, pushType: string, pushToken: string): (Server, Response) {
    match GetByToken(s.trackers, token)
    case Fails(error) => (s, Raised(error))
    case One(mac) =>
      (s.(trackers := s.trackers[mac := s.trackers[mac].(pushType := Some(pushType), pushToken := Some(pushToken))]),
       PushStored)
  }

  // ---------- provisioning ----------

  /** What the validator and the length of the column leave of an address. */
  predicate ValidAddress(mac: string) {
    |mac| == 12 && IsLowerHex(mac)
  }

  /** The admin site adds a tracker, with the other fields left blank. */
  function StepProvision(s: Server, mac: string, mfgKey: string): (Server, Response) {
    if mac in s.trackers || !ValidAddress(mac) || mfgKey == "" || |mfgKey| > 64 then (s, Raised(ValidationError))
    else (s.(trackers := s.trackers[mac := Tracker(mfgKey, None, None, None, 0)]), TrackerAdded)
  }

  // ---------- the server ----------

  datatype Site = Site(hmac: MacFunction, repairs: Repairs)

  ghost function Step(site: Site, s: Server, r: Request): (Server, Response) {
    match r
    case RegisterGet(session, random) => StepRegisterGet(s, session, random)
    case RegisterPost(session, mac, response, random) =>
      StepRegisterPost(site.hmac, s, session, mac, response, random)
    case Found(mac, message, signature) => StepFound(site, s, mac, message, signature)
    case FindingsGet(token) => StepFindingsGet(s, token)
    case FindingsDelete(token) => StepFindingsDelete(site.repairs, s, token)
    case PushToken(token, pushType, pushToken) => StepPushToken(s, token, pushType, pushToken)
    case Provision(mac, mfgKey) => StepProvision(s, mac, mfgKey)
  }

  /** The assumption on `generate_key`: the 16 random bytes give a key that was never drawn before. */
  predicate Fresh(s: Server, r: Request) {
    (r.RegisterGet? || r.RegisterPost?) ==> |r.random| == 16 && GenerateKey(r.random) !in s.drawn
  }

  /** The start of a run: any trackers, with no token and no finding, and nothing drawn. */
  predicate Provisioned(s: Server) {
    && s.sessions == map[] && s.findings == [] && s.drawn == {}
    && forall m :: m in s.trackers ==> s.trackers[m].accessToken == None && s.trackers[m].foundCounter == 0
  }
}
