/**
 The ANT encryption modules as they run: static variables updated in place.  Every method is proved to take
 exactly one transition of `AntModel`, and the object remembers the run that led to its state, so that the
 theorems of `AntRuns` apply to every object that a program can build.
 */
module AntEncryption {
  import opened Common
  import opened AntModel
  import opened AntRuns

  class Encryption {
    const states: array<TrackingState>
    const conf: array<ChannelSettings>
    var canEnable: bool
    var configured: bool
    var handler: Option<nat>
    var halted: bool
    var calls: seq<Issued>
    var notices: seq<Notice>

    /** The run from boot to the present state, kept by the entry points. */
    ghost var past: Run

    ghost predicate Shaped()
      reads this, states, conf
    {
      states.Length <= conf.Length && states as object != conf as object
    }

    ghost function Abs(): (s: State)
      reads this, states, conf
      ensures |s.chan| == states.Length && |s.conf| == conf.Length
    {
      State(states[..], conf[..], canEnable, configured, handler, halted, calls, notices)
    }

    ghost predicate Valid()
      reads this, states, conf
    {
      && Shaped()
      && IsRun(past)
      && past.states[|past.acts|] == Abs()
    }

    constructor (channels: nat, maxChannels: nat)
      requires channels <= maxChannels
      ensures Valid() && fresh(states) && fresh(conf)
      ensures Abs() == Boot(channels, maxChannels) && past.acts == []
    {
      states := new TrackingState[channels](_ => NotTracking);
      conf := new ChannelSettings[maxChannels](_ => ChannelSettings(0, 0, 0));
      canEnable, configured, handler, halted := true, false, None, false;
      calls, notices := [], [];
      new;
      past := Run([Abs()], []);
      assert states[..] == seq(channels, _ => NotTracking);
      assert conf[..] == seq(maxChannels, _ => ChannelSettings(0, 0, 0));
    }

    /** Records that the present state was reached by action `a`. */
    ghost method Record(a: Action)
      requires Shaped() && IsRun(past)
      requires var s := past.states[|past.acts|]; WellFormed(s) && Possible(s, a) && Abs() == Next(s, a)
      modifies this`past
      ensures Valid() && Abs() == old(Abs())
      ensures past.acts == old(past.acts) + [a]
    {
      var before := past;
      past := Run(past.states + [Abs()], past.acts + [a]);
      forall k | 0 <= k < |past.acts| ensures StepAt(past, k) {
        if k < |before.acts| {
          assert StepAt(before, k);
        }
      }
    }

    // ---------- ant_encrypt_negotiation_slave.c ----------

    method TrackingStateSet(ch: nat, t: TrackingState)
      requires Shaped() && ch < states.Length
      modifies states
      ensures Abs() == SetTracking(old(Abs()), ch, t)
    {
      states[ch] := t;
    }

    method NegotiationSlaveInit()
      requires Shaped()
      modifies this`canEnable, states
      ensures Abs() == SlaveInit(old(Abs()))
    {
      var channel := 0;
      while channel < states.Length
        invariant channel <= states.Length
        invariant forall c :: 0 <= c < channel ==> states[c] == TrackingUnsupported
        invariant conf[..] == old(conf[..])
      {
        TrackingStateSet(channel, TrackingUnsupported);
        channel := channel + 1;
      }
      canEnable := true;
      assert states[..] == seq(states.Length, _ => TrackingUnsupported);
    }

    method TrackingStateGet(ch: nat) returns (t: TrackingState)
      requires ch < states.Length
      ensures t == states[ch]
    {
      t := states[ch];
    }

    method SlaveChannelEncryptConfig(ch: nat, settings: ChannelSettings)
      requires Shaped() && ch < conf.Length
      modifies conf
      ensures Abs() == old(Abs()).(conf := old(Abs()).conf[ch := settings])
    {
      conf[ch] := settings;
    }

    method SlaveEncryptTryEnable(ch: nat, isBroadcast: bool, rc: uint32)
      requires Shaped() && ch < states.Length && !halted
      modifies this`canEnable, this`halted, this`calls, states
      ensures Abs() == TryEnable(old(Abs()), ch, isBroadcast, rc)
    {
      if isBroadcast {
        var trackStat := TrackingStateGet(ch);
        if trackStat != TrackingDecrypted && trackStat != Negotiating && canEnable {
          canEnable := false;
          TrackingStateSet(ch, Negotiating);
          var errCode := ChannelEncryptConfigPerform(ch, conf[ch], rc);
          if errCode != NRF_SUCCESS {
            halted := true;
          }
        }
      }
    }

    method SlaveEncryptNegotiation(ch: nat, ev: AntEvent, rc: uint32)
      requires Shaped() && ch < states.Length && !halted
      modifies this`canEnable, this`halted, this`calls, states
      ensures Abs() == Negotiate(old(Abs()), ch, ev, rc)
    {
      var trackState := TrackingStateGet(ch);
      if trackState == TrackingUnsupported {
        return;
      }
      match ev {
        case RxFailGoToSearch =>
          if trackState == Negotiating {
            canEnable := true;
          }
          TrackingStateSet(ch, NotTracking);
        case Rx(isBroadcast) =>
          SlaveEncryptTryEnable(ch, isBroadcast, rc);
        case NegotiationSuccess =>
          canEnable := true;
          TrackingStateSet(ch, TrackingDecrypted);
        case NegotiationFail =>
          canEnable := true;
          TrackingStateSet(ch, TrackingEncrypted);
        case OtherEvent =>
      }
    }

    // ---------- ant_encrypt_config.c ----------

    /** Any call into the SoftDevice: it is logged with the code the SoftDevice returned. */
    method Sd(call: SdCall, rc: uint32) returns (errCode: uint32)
      modifies this`calls
      ensures calls == old(calls) + [Issued(call, rc)] && errCode == rc
    {
      calls := calls + [Issued(call, rc)];
      errCode := rc;
    }

    method ChannelEncryptConfigPerform(ch: nat, settings: ChannelSettings, rc: uint32) returns (errCode: uint32)
      requires Shaped()
      modifies this`calls
      ensures Abs() == Enable(old(Abs()), ch, settings, rc) && errCode == rc
    {
      errCode := Sd(CryptoChannelEnable(ch, settings), rc);
    }

    method AdvancedBurstConfigApply(b: BurstSettings, rc: uint32) returns (errCode: uint32)
      requires Shaped()
      modifies this`calls
      ensures calls == old(calls) + [Issued(AdvBurstConfigSet(BurstData(b)), rc)] && errCode == rc
    {
      var data := new byte[8][ADV_BURST_MODE_ENABLE, 0, 0, 0, 0, 0, 0, 0];
      data[1] := b.packetLength;
      data[2] := b.requiredFeature;
      data[5] := b.optionalFeature;
      assert data[..] == BurstData(b);
      errCode := Sd(AdvBurstConfigSet(data[..]), rc);
    }

    /** The calls made so far, together with an attempt at the rest of the plan, are an attempt at the whole plan. */
    static ghost predicate Underway(before: seq<Issued>, now: seq<Issued>, plan: seq<SdCall>, rcs: seq<uint32>, k: nat)
    {
      && k <= |plan|
      && before <= now
      && Attempt(plan, rcs) == (now[|before|..] + Attempt(plan, rcs, k).0, Attempt(plan, rcs, k).1)
    }

    /** The attempt at the plan is over: these were its calls and this is its code. */
    static ghost predicate Over(before: seq<Issued>, now: seq<Issued>, plan: seq<SdCall>, rcs: seq<uint32>,
                                code: uint32)
    {
      now == before + Attempt(plan, rcs).0 && code == Attempt(plan, rcs).1
    }

    static lemma AtEnd(before: seq<Issued>, now: seq<Issued>, plan: seq<SdCall>, rcs: seq<uint32>)
      requires Underway(before, now, plan, rcs, |plan|)
      ensures Over(before, now, plan, rcs, NRF_SUCCESS)
    {
      assert before + now[|before|..] == now;
    }

    static lemma AtStart(before: seq<Issued>, plan: seq<SdCall>, rcs: seq<uint32>)
      ensures Underway(before, before, plan, rcs, 0)
    {
      assert before[|before|..] + Attempt(plan, rcs, 0).0 == Attempt(plan, rcs, 0).0;
    }

    /** One more call of the plan: the attempt goes on after a success and is over after an error. */
    static lemma OneMore(before: seq<Issued>, now: seq<Issued>, plan: seq<SdCall>, rcs: seq<uint32>, k: nat,
                         later: seq<Issued>)
      requires Underway(before, now, plan, rcs, k) && k < |plan|
      requires later == now + [Issued(plan[k], ReturnCode(rcs, k))]
      ensures ReturnCode(rcs, k) == NRF_SUCCESS ==> Underway(before, later, plan, rcs, k + 1)
      ensures ReturnCode(rcs, k) != NRF_SUCCESS ==> Over(before, later, plan, rcs, ReturnCode(rcs, k))
    {
      assert later[|before|..] == now[|before|..] + [Issued(plan[k], ReturnCode(rcs, k))];
      assert now[|before|..] + ([Issued(plan[k], ReturnCode(rcs, k))] + Attempt(plan, rcs, k + 1).0)
          == later[|before|..] + Attempt(plan, rcs, k + 1).0;
      assert before + later[|before|..] == later;
    }

    method StackEncryptionConfig(p: StackSettings, rcs: seq<uint32>) returns (errCode: uint32)
      requires Valid() && !halted
      modifies this, states
      ensures Valid() && past.acts == old(past.acts) + [ConfigureStack(p, rcs)]
      ensures (Abs(), errCode) == StackConfig(old(Abs()), p, rcs)
    {
      errCode := ApplyStackPlan(p, rcs);
      if errCode == NRF_SUCCESS {
        NegotiationSlaveInit();
        handler := None;
        configured := true;
      }
      Record(ConfigureStack(p, rcs));
    }

    /** The SoftDevice calls of a stack configuration, in the order of the source, stopping at the first error. */
    method ApplyStackPlan(p: StackSettings, rcs: seq<uint32>) returns (errCode: uint32)
      requires Shaped()
      modifies this`calls
      ensures Over(old(calls), calls, StackPlan(p), rcs, errCode)
    {
      ghost var plan, before := StackPlan(p), calls;
      AtStart(before, plan, rcs);
      errCode := SetKeys(p, rcs, before);
      if errCode != NRF_SUCCESS { return; }
      var k := |p.keys|;
      if p.burst.Some? {
        ghost var now := calls;
        errCode := AdvancedBurstConfigApply(p.burst.value, ReturnCode(rcs, k));
        OneMore(before, now, plan, rcs, k, calls);
        if errCode != NRF_SUCCESS { return; }
        k := k + 1;
      }
      errCode := SetInfo(p, rcs, k, before);
    }

    /** The loop over the keys. */
    method SetKeys(p: StackSettings, rcs: seq<uint32>, ghost before: seq<Issued>) returns (errCode: uint32)
      requires Shaped() && Underway(before, calls, StackPlan(p), rcs, 0)
      modifies this`calls
      ensures errCode == NRF_SUCCESS ==> Underway(before, calls, StackPlan(p), rcs, |p.keys|)
      ensures errCode != NRF_SUCCESS ==> Over(before, calls, StackPlan(p), rcs, errCode)
    {
      ghost var plan := StackPlan(p);
      for i := 0 to |p.keys|
        invariant Underway(before, calls, plan, rcs, i)
      {
        ghost var now := calls;
        errCode := Sd(CryptoKeySet(i, p.keys[i]), ReturnCode(rcs, i));
        assert plan[i] == CryptoKeySet(i, p.keys[i]);
        OneMore(before, now, plan, rcs, i, calls);
        if errCode != NRF_SUCCESS { return; }
      }
      errCode := NRF_SUCCESS;
    }

    /** The loop over the info items; `first` is the position of the first of them in the plan. */
    method SetInfo(p: StackSettings, rcs: seq<uint32>, first: nat, ghost before: seq<Issued>) returns (errCode: uint32)
      requires Shaped() && first == |KeyCalls(p.keys)| + |BurstCalls(p.burst)|
      requires Underway(before, calls, StackPlan(p), rcs, first)
      modifies this`calls
      ensures Over(before, calls, StackPlan(p), rcs, errCode)
    {
      ghost var plan := StackPlan(p);
      var lut := [CryptoId, CustomUserData, RngSeed];
      var items := [p.encryptionId, p.userInfo, p.randomSeed];
      var k := first;
      for i := 0 to |lut|
        invariant Underway(before, calls, plan, rcs, k)
        invariant k == first + InfoCount(items, i)
      {
        if items[i].Some? {
          InfoPosition(p, i);
          ghost var now := calls;
          errCode := Sd(CryptoInfoSet(lut[i], items[i].value), ReturnCode(rcs, k));
          OneMore(before, now, plan, rcs, k, calls);
          if errCode != NRF_SUCCESS { return; }
          k := k + 1;
        }
      }
      errCode := NRF_SUCCESS;
      InfoTotal(p);
      AtEnd(before, calls, plan, rcs);
    }

    static function InfoCount(items: seq<Option<seq<byte>>>, i: nat): nat
      requires i <= |items|
    {
      if i == 0 then 0 else InfoCount(items, i - 1) + if items[i - 1].Some? then 1 else 0
    }

    static lemma InfoPosition(p: StackSettings, i: nat)
      requires i < 3
      requires [p.encryptionId, p.userInfo, p.randomSeed][i].Some?
      ensures var items := [p.encryptionId, p.userInfo, p.randomSeed];
              var k := |KeyCalls(p.keys)| + |BurstCalls(p.burst)| + InfoCount(items, i);
              && k < |StackPlan(p)|
              && StackPlan(p)[k] == CryptoInfoSet([CryptoId, CustomUserData, RngSeed][i], items[i].value)
    {
      var items := [p.encryptionId, p.userInfo, p.randomSeed];
      assert InfoCount(items, 1) == |InfoCall(CryptoId, p.encryptionId)|;
      assert InfoCount(items, 2) == InfoCount(items, 1) + |InfoCall(CustomUserData, p.userInfo)|;
    }

    static lemma InfoTotal(p: StackSettings)
      ensures |KeyCalls(p.keys)| + |BurstCalls(p.burst)| + InfoCount([p.encryptionId, p.userInfo, p.randomSeed], 3)
           == |StackPlan(p)|
    {
      var items := [p.encryptionId, p.userInfo, p.randomSeed];
      assert InfoCount(items, 1) == |InfoCall(CryptoId, p.encryptionId)|;
      assert InfoCount(items, 2) == InfoCount(items, 1) + |InfoCall(CustomUserData, p.userInfo)|;
      assert InfoCount(items, 3) == InfoCount(items, 2) + |InfoCall(RngSeed, p.randomSeed)|;
    }

    method ChannelEncryptConfigApply(channelType: ChannelType, ch: nat, crypto: Option<ChannelSettings>, rc: uint32)
      returns (errCode: uint32)
      requires Shaped() && ch < states.Length
      modifies this`calls, states, conf
      ensures (Abs(), errCode) == ChannelEncryptConfig(old(Abs()), channelType, ch, crypto, rc)
    {
      if crypto.Some? {
        if !configured {
          return NRF_ERROR_MODULE_NOT_INITIALIZED;
        }
        match channelType {
          case Master =>
            errCode := ChannelEncryptConfigPerform(ch, crypto.value, rc);
            TrackingStateSet(ch, TrackingUnsupported);
          case Slave =>
            SlaveChannelEncryptConfig(ch, crypto.value);
            if crypto.value.mode == ENCRYPTION_DISABLED_MODE {
              errCode := ChannelEncryptConfigPerform(ch, crypto.value, rc);
              TrackingStateSet(ch, TrackingUnsupported);
            } else {
              TrackingStateSet(ch, NotTracking);
              errCode := NRF_SUCCESS;
            }
          case OtherType(_) =>
            errCode := NRF_ERROR_INVALID_PARAM;
        }
      } else {
        TrackingStateSet(ch, TrackingUnsupported);
        errCode := NRF_SUCCESS;
      }
    }

    method ChannelEncryptConfigCall(channelType: ChannelType, ch: nat, crypto: Option<ChannelSettings>, rc: uint32)
      returns (errCode: uint32)
      requires Valid() && ch < states.Length && !halted
      modifies this, states, conf
      ensures Valid() && past.acts == old(past.acts) + [ConfigureChannel(channelType, ch, crypto, rc)]
      ensures (Abs(), errCode) == ChannelEncryptConfig(old(Abs()), channelType, ch, crypto, rc)
    {
      errCode := ChannelEncryptConfigApply(channelType, ch, crypto, rc);
      Record(ConfigureChannel(channelType, ch, crypto, rc));
    }

    method UserHandlerTryToRun(ch: nat, ev: UserEvent)
      requires Shaped() && ch < states.Length
      modifies this`notices
      ensures Abs() == Notify(old(Abs()), ch, ev)
    {
      if handler.Some? {
        notices := notices + [Notice(handler.value, ch, ev, states[ch])];
      }
    }

    method EventHandler(ch: nat, ev: AntEvent, rc: uint32)
      requires Valid() && ch < states.Length && !halted
      modifies this, states
      ensures Valid() && past.acts == old(past.acts) + [Event(ch, ev, rc)]
      ensures Abs() == HandleEvent(old(Abs()), ch, ev, rc)
    {
      SlaveEncryptNegotiation(ch, ev, rc);
      if !halted {
        match ev {
          case RxFailGoToSearch => UserHandlerTryToRun(ch, ChannelLost);
          case NegotiationSuccess => UserHandlerTryToRun(ch, UserNegotiationSuccess);
          case NegotiationFail => UserHandlerTryToRun(ch, UserNegotiationFail);
          case Rx(_) =>
          case OtherEvent =>
        }
      }
      Record(Event(ch, ev, rc));
    }

    method EventHandlerRegister(h: Option<nat>)
      requires Valid() && !halted
      modifies this
      ensures Valid() && past.acts == old(past.acts) + [RegisterHandler(h)]
      ensures Abs() == old(Abs()).(handler := h)
    {
      handler := h;
      Record(RegisterHandler(h));
    }

    // ---------- ant_channel_config.c ----------

    method ChannelInitialise(c: ChannelConfig, rcs: seq<uint32>) returns (errCode: uint32)
      requires Valid() && c.channel < states.Length && !halted
      modifies this, states, conf
      ensures Valid() && past.acts == old(past.acts) + [InitChannel(c, rcs)]
      ensures (Abs(), errCode) == ChannelInit(old(Abs()), c, rcs)
    {
      errCode := ApplyChannelPlan(c, rcs);
      if errCode == NRF_SUCCESS {
        var n := if c.extAssign & EXT_PARAM_ALWAYS_SEARCH == 0 then 4 else 3;
        errCode := ChannelEncryptConfigApply(c.channelType, c.channel, c.crypto, ReturnCode(rcs, n));
      }
      Record(InitChannel(c, rcs));
    }

    method ApplyChannelPlan(c: ChannelConfig, rcs: seq<uint32>) returns (errCode: uint32)
      requires Shaped()
      modifies this`calls
      ensures Over(old(calls), calls, ChannelPlan(c), rcs, errCode)
    {
      ghost var plan, before := ChannelPlan(c), calls;
      ghost var now := calls;
      AtStart(before, plan, rcs);
      errCode := Sd(ChannelAssign(c.channel, c.channelType, c.networkNumber, c.extAssign), ReturnCode(rcs, 0));
      OneMore(before, now, plan, rcs, 0, calls);
      if errCode != NRF_SUCCESS { return; }
      now := calls;
      errCode := Sd(ChannelIdSet(c.channel, c.deviceNumber, c.deviceType, c.transmissionType), ReturnCode(rcs, 1));
      OneMore(before, now, plan, rcs, 1, calls);
      if errCode != NRF_SUCCESS { return; }
      now := calls;
      errCode := Sd(ChannelRadioFreqSet(c.channel, c.rfFreq), ReturnCode(rcs, 2));
      OneMore(before, now, plan, rcs, 2, calls);
      if errCode != NRF_SUCCESS { return; }
      if c.extAssign & EXT_PARAM_ALWAYS_SEARCH == 0 {
        now := calls;
        errCode := Sd(ChannelPeriodSet(c.channel, c.channelPeriod), ReturnCode(rcs, 3));
        OneMore(before, now, plan, rcs, 3, calls);
        if errCode != NRF_SUCCESS { return; }
      }
      AtEnd(before, calls, plan, rcs);
    }
  }

  /** Every object driven by an obedient environment has at most one negotiating channel, and then a taken lock. */
  lemma ObjectIsExclusive(e: Encryption, c: nat, d: nat)
    requires e.Valid() && ObedientRun(e.past)
    requires c < e.states.Length && d < e.states.Length
    requires e.states[c] == Negotiating && e.states[d] == Negotiating
    ensures c == d && !e.canEnable
  {
    ObedientRunsAreExclusive(e.past, |e.past.acts|);
    assert e.Abs().chan[c] == Negotiating && e.Abs().chan[d] == Negotiating;
  }
}
