/**
 Which state a channel is in, and what the user and the SoftDevice are told: for every run the tracking state of a
 channel is the one that the last step which concerned it set, with each step's effect written out.
 */
module AntStates {
  import opened Common
  import opened AntModel
  import opened AntSteps
  import opened AntRuns

  /** An event that the negotiation looks at: one of a supported channel. */
  predicate Heeds(s: State, a: Action, ch: nat) {
    a.Event? && a.channel == ch < |s.chan| && s.chan[ch] != TrackingUnsupported
  }

  /** A broadcast that takes the free lock. */
  predicate TakesLock(s: State, a: Action, ch: nat) {
    && Heeds(s, a, ch) && a.event == Rx(true) && s.canEnable
    && (s.chan[ch] == NotTracking || s.chan[ch] == TrackingEncrypted)
  }

  /** The step puts channel `ch` into state `x`. */
  ghost predicate Sets(s: State, a: Action, ch: nat, x: TrackingState) {
    match x
    case NotTracking => (Heeds(s, a, ch) && a.event == RxFailGoToSearch) || exists p :: MakesSlave(s, a, ch, p)
    case TrackingEncrypted => Heeds(s, a, ch) && a.event == NegotiationFail
    case Negotiating => TakesLock(s, a, ch)
    case TrackingDecrypted => Heeds(s, a, ch) && a.event == NegotiationSuccess
    case TrackingUnsupported => ConfiguresStack(a) || (Reconfigures(s, a, ch) && forall p :: !MakesSlave(s, a, ch, p))
  }

  /** The step puts channel `ch` into some state. */
  ghost predicate Touches(s: State, a: Action, ch: nat) {
    exists x :: Sets(s, a, ch, x)
  }

  /** After a step a channel is in the state that the step sets, or else in the state it was in. */
  lemma StepSets(s: State, a: Action, ch: nat)
    requires WellFormed(s) && Possible(s, a) && ch < |s.chan|
    ensures forall x :: Sets(s, a, ch, x) ==> Next(s, a).chan[ch] == x
    ensures !Touches(s, a, ch) ==> Next(s, a).chan[ch] == s.chan[ch]
  {
    match a {
      case Event(_, _, _) => EventSets(s, a, ch);
      case ConfigureStack(_, _) => StackSets(s, a, ch);
      case RegisterHandler(_) =>
      case ConfigureChannel(_, _, _, _) => ConfigurationSets(s, a, ch);
      case InitChannel(_, _) => ConfigurationSets(s, a, ch);
    }
  }

  lemma EventSets(s: State, a: Action, ch: nat)
    requires WellFormed(s) && Possible(s, a) && ch < |s.chan| && a.Event?
    ensures forall x :: Sets(s, a, ch, x) ==> Next(s, a).chan[ch] == x
    ensures !Touches(s, a, ch) ==> Next(s, a).chan[ch] == s.chan[ch]
  {
    EventFrame(s, a);
    if !Touches(s, a, ch) {
      assert !Sets(s, a, ch, NotTracking) && !Sets(s, a, ch, TrackingEncrypted);
      assert !Sets(s, a, ch, Negotiating) && !Sets(s, a, ch, TrackingDecrypted);
    }
  }

  lemma StackSets(s: State, a: Action, ch: nat)
    requires WellFormed(s) && Possible(s, a) && ch < |s.chan| && a.ConfigureStack?
    ensures forall x :: Sets(s, a, ch, x) ==> Next(s, a).chan[ch] == x
    ensures !Touches(s, a, ch) ==> Next(s, a).chan[ch] == s.chan[ch]
  {
    StackConfigEffect(s, a);
    assert ConfiguresStack(a) ==> Sets(s, a, ch, TrackingUnsupported);
  }

  lemma ConfigurationSets(s: State, a: Action, ch: nat)
    requires WellFormed(s) && Possible(s, a) && ch < |s.chan| && (a.ConfigureChannel? || a.InitChannel?)
    ensures forall x :: Sets(s, a, ch, x) ==> Next(s, a).chan[ch] == x
    ensures !Touches(s, a, ch) ==> Next(s, a).chan[ch] == s.chan[ch]
  {
    ReconfigureEffect(s, a, ch);
    if !Touches(s, a, ch) {
      assert !Sets(s, a, ch, NotTracking) && !Sets(s, a, ch, TrackingUnsupported);
    }
  }

  // ---------- runs ----------

  /** Step `j` put channel `ch` into state `x`, and no later step before `k` touched it. */
  ghost predicate SetSince(t: Run, j: nat, k: nat, ch: nat, x: TrackingState)
    requires IsRun(t) && k <= |t.acts|
  {
    && j < k && Sets(t.states[j], t.acts[j], ch, x)
    && forall m :: j < m < k ==> !Touches(t.states[m], t.acts[m], ch)
  }

  ghost predicate NeverTouched(t: Run, k: nat, ch: nat)
    requires IsRun(t) && k <= |t.acts|
  {
    forall m :: 0 <= m < k ==> !Touches(t.states[m], t.acts[m], ch)
  }

  lemma StepSetsAt(t: Run, k: nat, ch: nat)
    requires IsRun(t) && k < |t.acts| && ch < |t.states[0].chan|
    ensures ch < |t.states[k].chan| && ch < |t.states[k + 1].chan|
    ensures forall x :: Sets(t.states[k], t.acts[k], ch, x) ==> t.states[k + 1].chan[ch] == x
    ensures !Touches(t.states[k], t.acts[k], ch) ==> t.states[k + 1].chan[ch] == t.states[k].chan[ch]
  {
    RunShape(t, k);
    RunShape(t, k + 1);
    assert StepAt(t, k);
    StepSets(t.states[k], t.acts[k], ch);
  }

  lemma {:induction false} FindSetter(t: Run, k: nat, ch: nat) returns (j: nat)
    requires IsRun(t) && k <= |t.acts| && ch < |t.states[0].chan|
    ensures ch < |t.states[k].chan|
    ensures || SetSince(t, j, k, ch, t.states[k].chan[ch])
            || (NeverTouched(t, k, ch) && t.states[k].chan[ch] == NotTracking)
  {
    if k == 0 {
      j := 0;
    } else {
      StepSetsAt(t, k - 1, ch);
      if Touches(t.states[k - 1], t.acts[k - 1], ch) {
        j := k - 1;
      } else {
        j := FindSetter(t, k - 1, ch);
      }
    }
  }

  lemma {:induction false} SetStays(t: Run, j: nat, k: nat, ch: nat, x: TrackingState)
    requires IsRun(t) && k <= |t.acts| && ch < |t.states[0].chan| && SetSince(t, j, k, ch, x)
    ensures ch < |t.states[k].chan| && t.states[k].chan[ch] == x
    decreases k
  {
    StepSetsAt(t, k - 1, ch);
    if j == k - 1 {
    } else {
      SetStays(t, j, k - 1, ch, x);
    }
  }

  lemma {:induction false} UntouchedStays(t: Run, k: nat, ch: nat)
    requires IsRun(t) && k <= |t.acts| && ch < |t.states[0].chan| && NeverTouched(t, k, ch)
    ensures ch < |t.states[k].chan| && t.states[k].chan[ch] == NotTracking
  {
    if k == 0 {
    } else {
      StepSetsAt(t, k - 1, ch);
      UntouchedStays(t, k - 1, ch);
    }
  }

  /**
   In every run a channel is in a state exactly when the last step that touched it set that state, or when nothing
   touched it since boot and the state is not tracking.
   */
  lemma ChannelStateIff(t: Run, k: nat, ch: nat, x: TrackingState)
    requires IsRun(t) && k <= |t.acts| && ch < |t.states[k].chan|
    ensures t.states[k].chan[ch] == x <==>
              (exists j: nat :: SetSince(t, j, k, ch, x)) || (x == NotTracking && NeverTouched(t, k, ch))
  {
    RunShape(t, k);
    var i := FindSetter(t, k, ch);
    if j: nat :| SetSince(t, j, k, ch, x) {
      SetStays(t, j, k, ch, x);
    }
    if NeverTouched(t, k, ch) {
      UntouchedStays(t, k, ch);
    }
  }

  // ---------- what is told to whom ----------

  /** The user's handler hears of a loss, a success and a fail, each by its own name, and of nothing else. */
  lemma UserEvents(ev: AntEvent)
    ensures UserEventOf(ev) == Some(ChannelLost) <==> ev == RxFailGoToSearch
    ensures UserEventOf(ev) == Some(UserNegotiationSuccess) <==> ev == NegotiationSuccess
    ensures UserEventOf(ev) == Some(UserNegotiationFail) <==> ev == NegotiationFail
    ensures UserEventOf(ev) == None <==> ev == OtherEvent || ev.Rx?
  {
  }

  /**
   What configuring one channel asks of the SoftDevice and returns.  It is refused with 0x80 before the stack is
   configured and with 7 for a channel that is neither master nor slave; a master, and a slave with encryption
   disabled, are enabled at once and give the code of that call; everything else succeeds without a call.
   */
  lemma ConfigureAnswer(s: State, ty: ChannelType, ch: nat, crypto: Option<ChannelSettings>, rc: uint32)
    requires WellFormed(s) && ch < |s.chan|
    ensures var (r, code) := ChannelEncryptConfig(s, ty, ch, crypto, rc);
            var enables := crypto.Some? && s.configured && (ty == Master || (ty == Slave && crypto.value.mode == 0));
            && (enables ==> r.calls == s.calls + [Issued(CryptoChannelEnable(ch, crypto.value), rc)] && code == rc)
            && (!enables ==> r.calls == s.calls)
            && (!enables ==> code == if crypto.None? then 0 else if !s.configured then 0x80
                                     else if ty.OtherType? then 7 else 0)
            && (crypto.Some? && (!s.configured || ty.OtherType?) ==> r == s)
            && r.conf == if crypto.Some? && s.configured && ty == Slave then s.conf[ch := crypto.value] else s.conf
  {
  }
}
