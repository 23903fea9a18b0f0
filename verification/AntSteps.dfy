/**
 What single transitions of the ANT encryption modules do, said without the transition functions:
 which calls a plan issues, which actions reach a channel, and what each kind of action changes.
 */
module AntSteps {
  import opened Common
  import opened AntModel

  // ---------- plans of SoftDevice calls ----------

  predicate AllSucceed(plan: seq<SdCall>, rcs: seq<uint32>, k: nat := 0) {
    forall i :: k <= i < |plan| ==> ReturnCode(rcs, i) == NRF_SUCCESS
  }

  /** `issued` is what a caller that stops at the first error makes of `plan` from `k` on; `code` is what it returns. */
  ghost predicate StopsAtFirstError(plan: seq<SdCall>, rcs: seq<uint32>, issued: seq<Issued>, code: uint32, k: nat := 0)
    requires k <= |plan|
  {
    && |issued| <= |plan| - k
    && (forall i :: 0 <= i < |issued| ==> issued[i] == Issued(plan[k + i], ReturnCode(rcs, k + i)))
    && (forall i :: 0 <= i < |issued| - 1 ==> issued[i].rc == NRF_SUCCESS)
    && (code == NRF_SUCCESS <==> AllSucceed(plan, rcs, k))
    && (code == NRF_SUCCESS ==> |issued| == |plan| - k)
    && (code != NRF_SUCCESS ==> issued != [] && issued[|issued| - 1].rc == code)
  }

  lemma {:induction false} AttemptStopsAtFirstError(plan: seq<SdCall>, rcs: seq<uint32>, k: nat := 0)
    requires k <= |plan|
    ensures StopsAtFirstError(plan, rcs, Attempt(plan, rcs, k).0, Attempt(plan, rcs, k).1, k)
    decreases |plan| - k
  {
    if k < |plan| && ReturnCode(rcs, k) == NRF_SUCCESS {
      AttemptStopsAtFirstError(plan, rcs, k + 1);
    }
  }

  // ---------- which actions matter to a channel ----------

  /** The whole plan of a stack configuration succeeds. */
  predicate ConfiguresStack(a: Action) {
    a.ConfigureStack? && AllSucceed(StackPlan(a.settings), a.rcs)
  }

  /** A channel configuration with these arguments is not turned away. */
  predicate Accepted(s: State, channelType: ChannelType, crypto: Option<ChannelSettings>) {
    crypto.None? || (s.configured && !channelType.OtherType?)
  }

  /** The action is an effective configuration of channel `ch`. */
  predicate Reconfigures(s: State, a: Action, ch: nat) {
    match a
    case ConfigureChannel(ty, c, crypto, _) => c == ch && Accepted(s, ty, crypto)
    case InitChannel(cfg, rcs) =>
      cfg.channel == ch && AllSucceed(ChannelPlan(cfg), rcs) && Accepted(s, cfg.channelType, cfg.crypto)
    case Event(_, _, _) => false
    case ConfigureStack(_, _) => false
    case RegisterHandler(_) => false
  }

  /** The action configures `ch` as a slave whose encryption is not disabled, with these settings. */
  predicate MakesSlave(s: State, a: Action, ch: nat, settings: ChannelSettings) {
    && s.configured
    && Reconfigures(s, a, ch)
    && settings.mode != ENCRYPTION_DISABLED_MODE
    && match a
       case ConfigureChannel(ty, _, crypto, _) => ty == Slave && crypto == Some(settings)
       case InitChannel(cfg, _) => cfg.channelType == Slave && cfg.crypto == Some(settings)
       case Event(_, _, _) => false
       case ConfigureStack(_, _) => false
       case RegisterHandler(_) => false
  }

  predicate IsEvent(a: Action, ch: nat, ev: AntEvent) {
    a.Event? && a.channel == ch && a.event == ev
  }

  /** The end of a negotiation, good or bad. */
  predicate IsTerminal(a: Action) {
    a.Event? && (a.event == NegotiationSuccess || a.event == NegotiationFail)
  }

  // ---------- what each kind of action changes ----------

  lemma StackConfigEffect(s: State, a: Action)
    requires WellFormed(s) && Possible(s, a) && a.ConfigureStack?
    ensures var r := Next(s, a);
            && r.conf == s.conf && r.notices == s.notices && r.halted == s.halted
            && (ConfiguresStack(a) ==>
                  && r.configured && r.canEnable && r.handler == None
                  && (forall c :: 0 <= c < |r.chan| ==> r.chan[c] == TrackingUnsupported))
            && (!ConfiguresStack(a) ==> r == s.(calls := r.calls))
  {
    AttemptStopsAtFirstError(StackPlan(a.settings), a.rcs);
  }

  lemma ReconfigureEffect(s: State, a: Action, ch: nat)
    requires WellFormed(s) && Possible(s, a) && (a.ConfigureChannel? || a.InitChannel?) && ch < |s.chan|
    ensures var r := Next(s, a);
            && r.canEnable == s.canEnable && r.configured == s.configured && r.handler == s.handler
            && r.notices == s.notices && r.halted == s.halted
            && (!Reconfigures(s, a, ch) ==> r.chan[ch] == s.chan[ch] && r.conf[ch] == s.conf[ch])
            && (Reconfigures(s, a, ch) ==> r.chan[ch] == NotTracking || r.chan[ch] == TrackingUnsupported)
            && (Reconfigures(s, a, ch) && r.chan[ch] == NotTracking ==> MakesSlave(s, a, ch, r.conf[ch]))
            && (Reconfigures(s, a, ch) && !s.configured ==>
                  r.chan[ch] == TrackingUnsupported && r.conf[ch] == s.conf[ch])
            && (forall p :: MakesSlave(s, a, ch, p) ==> r.chan[ch] == NotTracking && r.conf[ch] == p)
  {
    if a.InitChannel? {
      AttemptStopsAtFirstError(ChannelPlan(a.config), a.rcs);
    }
  }

  /** An event touches only its own channel and never a saved setting. */
  lemma EventFrame(s: State, a: Action)
    requires WellFormed(s) && Possible(s, a) && a.Event?
    ensures var r := Next(s, a);
            && r.conf == s.conf && r.configured == s.configured && r.handler == s.handler
            && (forall c :: 0 <= c < |s.chan| && c != a.channel ==> r.chan[c] == s.chan[c])
            && (s.chan[a.channel] == TrackingUnsupported ==>
                  r.chan == s.chan && r.canEnable == s.canEnable && r.calls == s.calls && r.halted == s.halted)
  {
  }

  /** The step is a broadcast on `ch` that took the lock and enabled encryption with these settings. */
  ghost predicate StartsNegotiation(s: State, a: Action, r: State, ch: nat, settings: ChannelSettings) {
    && a.Event? && a.channel == ch && a.event == Rx(true)
    && s.canEnable && !r.canEnable
    && r.calls == s.calls + [Issued(CryptoChannelEnable(ch, settings), a.rc)]
  }

  /** An event issues a SoftDevice call only by starting a negotiation, with the saved settings, on a free lock. */
  lemma EventStartsNegotiation(s: State, a: Action)
    requires WellFormed(s) && Possible(s, a) && a.Event?
    ensures var r := Next(s, a); var ch := a.channel;
            && (r.calls != s.calls <==> StartsNegotiation(s, a, r, ch, s.conf[ch]))
            && (r.calls != s.calls <==>
                  && a.event == Rx(true) && s.canEnable
                  && (s.chan[ch] == NotTracking || s.chan[ch] == TrackingEncrypted))
            && (r.calls != s.calls <==> s.chan[ch] != Negotiating && r.chan[ch] == Negotiating)
            && (r.halted <==> r.calls != s.calls && a.rc != NRF_SUCCESS)
  {
  }

  // ---------- the results of the configuration calls ----------

  /**
   A stack configuration makes the planned calls up to the first error and returns that error; it resets the
   negotiation, drops the handler and marks the stack configured exactly when the whole plan succeeds.
   */
  lemma StackConfigResult(s: State, p: StackSettings, rcs: seq<uint32>) returns (issued: seq<Issued>)
    ensures var (r, code) := StackConfig(s, p, rcs);
            && StopsAtFirstError(StackPlan(p), rcs, issued, code)
            && r.calls == s.calls + issued
            && (code == NRF_SUCCESS <==> AllSucceed(StackPlan(p), rcs))
            && r == if code == NRF_SUCCESS
                    then State(seq(|s.chan|, _ => TrackingUnsupported), s.conf, true, true, None, s.halted,
                               s.calls + issued, s.notices)
                    else s.(calls := s.calls + issued)
  {
    AttemptStopsAtFirstError(StackPlan(p), rcs);
    issued := Attempt(StackPlan(p), rcs).0;
  }

  /** The eight bytes of the burst configuration: enable, the three settings in their places, zero elsewhere. */
  lemma BurstBytes(b: BurstSettings)
    ensures |BurstData(b)| == 8 && BurstData(b)[0] == 1
    ensures BurstData(b)[1] == b.packetLength && BurstData(b)[2] == b.requiredFeature
    ensures BurstData(b)[5] == b.optionalFeature
    ensures forall i :: 0 <= i < 8 && i != 0 && i != 1 && i != 2 && i != 5 ==> BurstData(b)[i] == 0
  {
  }

  /** The position of every call in the plan: keys in index order, then burst settings, then the items present. */
  lemma StackPlanOrder(p: StackSettings)
    ensures var n := |p.keys|; var b := if p.burst.Some? then 1 else 0; var e := if p.encryptionId.Some? then 1 else 0;
            && |StackPlan(p)| == n + b + e + (if p.userInfo.Some? then 1 else 0) + (if p.randomSeed.Some? then 1 else 0)
            && (forall i :: 0 <= i < n ==> StackPlan(p)[i] == CryptoKeySet(i, p.keys[i]))
            && (p.burst.Some? ==>
                  StackPlan(p)[n] == AdvBurstConfigSet([1, p.burst.value.packetLength, p.burst.value.requiredFeature,
                                                        0, 0, p.burst.value.optionalFeature, 0, 0]))
            && (p.encryptionId.Some? ==> StackPlan(p)[n + b] == CryptoInfoSet(CryptoId, p.encryptionId.value))
            && (p.userInfo.Some? ==> StackPlan(p)[n + b + e] == CryptoInfoSet(CustomUserData, p.userInfo.value))
            && (p.randomSeed.Some? ==>
                  StackPlan(p)[|StackPlan(p)| - 1] == CryptoInfoSet(RngSeed, p.randomSeed.value))
  {
  }

  /** The calls that set up a channel, each with its fields; the period is set unless bit 0 of `extAssign` is. */
  lemma ChannelPlanOrder(c: ChannelConfig)
    ensures |ChannelPlan(c)| == if c.extAssign & 1 == 0 then 4 else 3
    ensures ChannelPlan(c)[0] == ChannelAssign(c.channel, c.channelType, c.networkNumber, c.extAssign)
    ensures ChannelPlan(c)[1] == ChannelIdSet(c.channel, c.deviceNumber, c.deviceType, c.transmissionType)
    ensures ChannelPlan(c)[2] == ChannelRadioFreqSet(c.channel, c.rfFreq)
    ensures c.extAssign & 1 == 0 ==> ChannelPlan(c)[3] == ChannelPeriodSet(c.channel, c.channelPeriod)
  {
  }

  /** The calls a channel initialisation makes when nothing fails. */
  function ChannelFullPlan(s: State, c: ChannelConfig): seq<SdCall> {
    ChannelPlan(c)
    + if s.configured && c.crypto.Some?
         && (c.channelType == Master || (c.channelType == Slave && c.crypto.value.mode == ENCRYPTION_DISABLED_MODE))
      then [CryptoChannelEnable(c.channel, c.crypto.value)]
      else []
  }

  /** A channel initialisation makes a prefix of its plan, in order, stopping at the first error. */
  lemma ChannelInitCalls(s: State, c: ChannelConfig, rcs: seq<uint32>) returns (issued: seq<Issued>)
    requires WellFormed(s) && c.channel < |s.chan|
    ensures var (r, code) := ChannelInit(s, c, rcs); var plan := ChannelFullPlan(s, c);
            && r.calls == s.calls + issued && |issued| <= |plan|
            && (forall i :: 0 <= i < |issued| ==> issued[i] == Issued(plan[i], ReturnCode(rcs, i)))
            && (forall i :: 0 <= i < |issued| - 1 ==> issued[i].rc == NRF_SUCCESS)
            && (code == NRF_SUCCESS ==> |issued| == |plan|)
  {
    AttemptStopsAtFirstError(ChannelPlan(c), rcs);
    var (front, code) := Attempt(ChannelPlan(c), rcs);
    var n, plan := |ChannelPlan(c)|, ChannelFullPlan(s, c);
    issued := if code == NRF_SUCCESS && n < |plan|
      then front + [Issued(plan[n], ReturnCode(rcs, n))] else front;
  }

  /**
   A channel initialisation succeeds exactly when every planned call does and the encryption settings are acceptable,
   and on success leaves the channel in the state its type and mode ask for and no other channel changed.
   */
  lemma ChannelInitResult(s: State, c: ChannelConfig, rcs: seq<uint32>)
    requires WellFormed(s) && c.channel < |s.chan|
    ensures var (r, code) := ChannelInit(s, c, rcs); var slave := c.crypto.Some? && c.channelType == Slave;
            && (code == NRF_SUCCESS <==> AllSucceed(ChannelFullPlan(s, c), rcs) && Accepted(s, c.channelType, c.crypto))
            && (code == NRF_SUCCESS ==>
                  && r.chan == s.chan[c.channel := if slave && c.crypto.value.mode != ENCRYPTION_DISABLED_MODE
                                                   then NotTracking else TrackingUnsupported]
                  && (c.crypto.Some? ==> s.configured)
                  && r.conf == if slave then s.conf[c.channel := c.crypto.value] else s.conf)
  {
    AttemptStopsAtFirstError(ChannelPlan(c), rcs);
    FullPlanSucceeds(s, c, rcs);
  }

  lemma FullPlanSucceeds(s: State, c: ChannelConfig, rcs: seq<uint32>)
    ensures var n := |ChannelPlan(c)|;
            AllSucceed(ChannelFullPlan(s, c), rcs) <==>
              && AllSucceed(ChannelPlan(c), rcs)
              && (|ChannelFullPlan(s, c)| > n ==> ReturnCode(rcs, n) == NRF_SUCCESS)
  {
    if !AllSucceed(ChannelPlan(c), rcs) {
      var i :| 0 <= i < |ChannelPlan(c)| && ReturnCode(rcs, i) != NRF_SUCCESS;
    }
  }
}
