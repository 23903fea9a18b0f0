/**
 The ANT encryption modules as a state machine on values: the static variables of the slave
 negotiation and of the encryption configuration, the calls made into the SoftDevice, and one
 transition function per entry point.

 The SoftDevice is the environment.  Every call into it may return any code; the codes are
 parameters of the transitions (`rc` for one call, `rcs` for a list of calls).
 */
module AntModel {
  import opened Common

  // ---------- constants of the SDK and of ant_parameters.h ----------

  const NRF_SUCCESS: uint32 := 0
  const NRF_ERROR_INVALID_PARAM: uint32 := 7
  const NRF_ERROR_MODULE_NOT_INITIALIZED: uint32 := 0x80
  const ENCRYPTION_DISABLED_MODE: byte := 0
  const ADV_BURST_MODE_ENABLE: byte := 1
  const EXT_PARAM_ALWAYS_SEARCH: bv8 := 1

  // ---------- data ----------

  datatype TrackingState = NotTracking | TrackingEncrypted | Negotiating | TrackingDecrypted | TrackingUnsupported

  datatype ChannelSettings = ChannelSettings(mode: byte, keyIndex: byte, decimationRate: byte)

  datatype BurstSettings = BurstSettings(packetLength: byte, requiredFeature: byte, optionalFeature: byte)

  /** The stack settings: the keys, the optional burst settings and the three optional info items. */
  datatype StackSettings = StackSettings(keys: seq<seq<byte>>, burst: Option<BurstSettings>,
                                         encryptionId: Option<seq<byte>>, userInfo: Option<seq<byte>>,
                                         randomSeed: Option<seq<byte>>)

  datatype ChannelType = Master | Slave | OtherType(code: byte)

  datatype ChannelConfig = ChannelConfig(channel: nat, channelType: ChannelType, extAssign: bv8, rfFreq: byte,
                                         transmissionType: byte, deviceType: byte, deviceNumber: nat,
                                         channelPeriod: nat, networkNumber: byte,
                                         crypto: Option<ChannelSettings>)

  datatype InfoKind = CryptoId | CustomUserData | RngSeed

  /** A call into the SoftDevice. */
  datatype SdCall =
    | CryptoKeySet(index: nat, key: seq<byte>)
    | AdvBurstConfigSet(data: seq<byte>)
    | CryptoInfoSet(kind: InfoKind, info: seq<byte>)
    | CryptoChannelEnable(channel: nat, settings: ChannelSettings)
    | ChannelAssign(channel: nat, channelType: ChannelType, networkNumber: byte, extAssign: bv8)
    | ChannelIdSet(channel: nat, deviceNumber: nat, deviceType: byte, transmissionType: byte)
    | ChannelRadioFreqSet(channel: nat, rfFreq: byte)
    | ChannelPeriodSet(channel: nat, period: nat)

  /** A call that was made, with the code the SoftDevice returned. */
  datatype Issued = Issued(call: SdCall, rc: uint32)

  datatype AntEvent = RxFailGoToSearch | Rx(isBroadcast: bool) | NegotiationSuccess | NegotiationFail | OtherEvent

  datatype UserEvent = ChannelLost | UserNegotiationSuccess | UserNegotiationFail

  /** One run of the user's handler, with the state its channel was in when it ran. */
  datatype Notice = Notice(handler: nat, channel: nat, event: UserEvent, seen: TrackingState)

  datatype State = State(
    chan: seq<TrackingState>,
    conf: seq<ChannelSettings>,
    canEnable: bool,
    configured: bool,
    handler: Option<nat>,
    halted: bool,
    calls: seq<Issued>,
    notices: seq<Notice>)

  /** The table of saved settings covers every channel. */
  predicate WellFormed(s: State) {
    |s.chan| <= |s.conf|
  }

  /** The zero-initialised statics: every channel not tracking, the lock free, nothing configured. */
  function Boot(channels: nat, maxChannels: nat): State {
    State(seq(channels, _ => NotTracking), seq(maxChannels, _ => ChannelSettings(0, 0, 0)),
          true, false, None, false, [], [])
  }

  // ---------- lists of SoftDevice calls with early return ----------

  function ReturnCode(rcs: seq<uint32>, i: nat): uint32 {
    if i < |rcs| then rcs[i] else NRF_SUCCESS
  }

  /** The calls made from position `k` of `plan` up to and including the first failure, and the code returned. */
  function Attempt(plan: seq<SdCall>, rcs: seq<uint32>, k: nat := 0): (seq<Issued>, uint32)
    requires k <= |plan|
    decreases |plan| - k
  {
    if k == |plan| then ([], NRF_SUCCESS)
    else
      var rc := ReturnCode(rcs, k);
      if rc != NRF_SUCCESS then ([Issued(plan[k], rc)], rc)
      else
        var (rest, code) := Attempt(plan, rcs, k + 1);
        ([Issued(plan[k], rc)] + rest, code)
  }

  // ---------- stack configuration ----------

  function KeyCalls(keys: seq<seq<byte>>): seq<SdCall> {
    seq(|keys|, i requires 0 <= i < |keys| => CryptoKeySet(i, keys[i]))
  }

  function BurstData(b: BurstSettings): seq<byte> {
    [ADV_BURST_MODE_ENABLE, b.packetLength, b.requiredFeature, 0, 0, b.optionalFeature, 0, 0]
  }

  function BurstCalls(burst: Option<BurstSettings>): seq<SdCall> {
    if burst.Some? then [AdvBurstConfigSet(BurstData(burst.value))] else []
  }

  function InfoCall(kind: InfoKind, item: Option<seq<byte>>): seq<SdCall> {
    if item.Some? then [CryptoInfoSet(kind, item.value)] else []
  }

  function StackPlan(p: StackSettings): seq<SdCall> {
    KeyCalls(p.keys) + BurstCalls(p.burst) + InfoCall(CryptoId, p.encryptionId)
    + InfoCall(CustomUserData, p.userInfo) + InfoCall(RngSeed, p.randomSeed)
  }

  /** The reset of the slave negotiation: no channel is supported and the lock is free. */
  function SlaveInit(s: State): State {
    s.(chan := seq(|s.chan|, _ => TrackingUnsupported), canEnable := true)
  }

  function StackConfig(s: State, p: StackSettings, rcs: seq<uint32>): (State, uint32) {
    var (issued, code) := Attempt(StackPlan(p), rcs);
    var s1 := s.(calls := s.calls + issued);
    if code != NRF_SUCCESS then (s1, code)
    else (SlaveInit(s1).(handler := None, configured := true), NRF_SUCCESS)
  }

  // ---------- channel configuration ----------

  /** The call that enables encryption on a channel. */
  function Enable(s: State, ch: nat, settings: ChannelSettings, rc: uint32): State {
    s.(calls := s.calls + [Issued(CryptoChannelEnable(ch, settings), rc)])
  }

  function SetTracking(s: State, ch: nat, t: TrackingState): State
    requires ch < |s.chan|
  {
    s.(chan := s.chan[ch := t])
  }

  function ChannelEncryptConfig(s: State, channelType: ChannelType, ch: nat, crypto: Option<ChannelSettings>,
                                rc: uint32): (State, uint32)
    requires WellFormed(s) && ch < |s.chan|
  {
    match crypto
    case None => (SetTracking(s, ch, TrackingUnsupported), NRF_SUCCESS)
    case Some(settings) =>
      if !s.configured then (s, NRF_ERROR_MODULE_NOT_INITIALIZED)
      else match channelType
        case Master => (SetTracking(Enable(s, ch, settings, rc), ch, TrackingUnsupported), rc)
        case Slave =>
          var s1 := s.(conf := s.conf[ch := settings]);
          if settings.mode == ENCRYPTION_DISABLED_MODE
          then (SetTracking(Enable(s1, ch, settings, rc), ch, TrackingUnsupported), rc)
          else (SetTracking(s1, ch, NotTracking), NRF_SUCCESS)
        case OtherType(_) => (s, NRF_ERROR_INVALID_PARAM)
  }

  predicate AlwaysSearch(c: ChannelConfig) {
    c.extAssign & EXT_PARAM_ALWAYS_SEARCH != 0
  }

  function ChannelPlan(c: ChannelConfig): seq<SdCall> {
    [ChannelAssign(c.channel, c.channelType, c.networkNumber, c.extAssign),
     ChannelIdSet(c.channel, c.deviceNumber, c.deviceType, c.transmissionType),
     ChannelRadioFreqSet(c.channel, c.rfFreq)]
    + if AlwaysSearch(c) then [] else [ChannelPeriodSet(c.channel, c.channelPeriod)]
  }

  function ChannelInit(s: State, c: ChannelConfig, rcs: seq<uint32>): (State, uint32)
    requires WellFormed(s) && c.channel < |s.chan|
  {
    var (issued, code) := Attempt(ChannelPlan(c), rcs);
    var s1 := s.(calls := s.calls + issued);
    if code != NRF_SUCCESS then (s1, code)
    else ChannelEncryptConfig(s1, c.channelType, c.channel, c.crypto, ReturnCode(rcs, |ChannelPlan(c)|))
  }

  // ---------- events ----------

  /** Reception of a data message: start negotiating when the channel needs it and the lock is free. */
  function TryEnable(s: State, ch: nat, isBroadcast: bool, rc: uint32): State
    requires WellFormed(s) && ch < |s.chan|
  {
    if isBroadcast && s.chan[ch] != TrackingDecrypted && s.chan[ch] != Negotiating && s.canEnable
    then Enable(SetTracking(s.(canEnable := false), ch, Negotiating), ch, s.conf[ch], rc).(halted := rc != NRF_SUCCESS)
    else s
  }

  function Negotiate(s: State, ch: nat, ev: AntEvent, rc: uint32): State
    requires WellFormed(s) && ch < |s.chan|
  {
    if s.chan[ch] == TrackingUnsupported then s
    else match ev
      case RxFailGoToSearch =>
        SetTracking(if s.chan[ch] == Negotiating then s.(canEnable := true) else s, ch, NotTracking)
      case Rx(isBroadcast) => TryEnable(s, ch, isBroadcast, rc)
      case NegotiationSuccess => SetTracking(s.(canEnable := true), ch, TrackingDecrypted)
      case NegotiationFail => SetTracking(s.(canEnable := true), ch, TrackingEncrypted)
      case OtherEvent => s
  }

  /** The event the user's handler is told about, if any. */
  function UserEventOf(ev: AntEvent): Option<UserEvent> {
    match ev
    case RxFailGoToSearch => Some(ChannelLost)
    case NegotiationSuccess => Some(UserNegotiationSuccess)
    case NegotiationFail => Some(UserNegotiationFail)
    case Rx(_) => None
    case OtherEvent => None
  }

  function Notify(s: State, ch: nat, ev: UserEvent): State
    requires ch < |s.chan|
  {
    if s.handler.Some? then s.(notices := s.notices + [Notice(s.handler.value, ch, ev, s.chan[ch])]) else s
  }

  function HandleEvent(s: State, ch: nat, ev: AntEvent, rc: uint32): State
    requires WellFormed(s) && ch < |s.chan|
  {
    var s1 := Negotiate(s, ch, ev, rc);
    if s1.halted || UserEventOf(ev).None? then s1 else Notify(s1, ch, UserEventOf(ev).value)
  }

  // ---------- one transition per entry point ----------

  datatype Action =
    | Event(channel: nat, event: AntEvent, rc: uint32)
    | ConfigureStack(settings: StackSettings, rcs: seq<uint32>)
    | ConfigureChannel(channelType: ChannelType, channel: nat, crypto: Option<ChannelSettings>, rc: uint32)
    | InitChannel(config: ChannelConfig, rcs: seq<uint32>)
    | RegisterHandler(handler: Option<nat>)

  /** The program is still running and the call names an existing channel. */
  predicate Possible(s: State, a: Action) {
    && !s.halted
    && match a
       case Event(ch, _, _) => ch < |s.chan|
       case ConfigureChannel(_, ch, _, _) => ch < |s.chan|
       case InitChannel(c, _) => c.channel < |s.chan|
       case ConfigureStack(_, _) => true
       case RegisterHandler(_) => true
  }

  function Next(s: State, a: Action): (r: State)
    requires WellFormed(s) && Possible(s, a)
    ensures |r.chan| == |s.chan| && |r.conf| == |s.conf|
  {
    match a
    case Event(ch, ev, rc) => HandleEvent(s, ch, ev, rc)
    case ConfigureStack(p, rcs) => StackConfig(s, p, rcs).0
    case ConfigureChannel(ty, ch, crypto, rc) => ChannelEncryptConfig(s, ty, ch, crypto, rc).0
    case InitChannel(c, rcs) => ChannelInit(s, c, rcs).0
    case RegisterHandler(h) => s.(handler := h)
  }
}
