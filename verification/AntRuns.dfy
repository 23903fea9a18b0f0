/**
 Properties of whole runs of the ANT encryption modules, from boot, under any interleaving of events and
 configuration calls and for any results of the SoftDevice.
 */
module AntRuns {
  import opened Common
  import opened AntModel
  import opened AntSteps

  /** `states[k]` is the state before action `acts[k]`. */
  datatype Run = Run(states: seq<State>, acts: seq<Action>)

  ghost predicate StepAt(t: Run, k: nat)
    requires |t.states| == |t.acts| + 1 && k < |t.acts|
  {
    && WellFormed(t.states[k])
    && Possible(t.states[k], t.acts[k])
    && t.states[k + 1] == Next(t.states[k], t.acts[k])
  }

  ghost predicate IsRun(t: Run) {
    && |t.states| == |t.acts| + 1
    && WellFormed(t.states[0])
    && t.states[0] == Boot(|t.states[0].chan|, |t.states[0].conf|)
    && forall k :: 0 <= k < |t.acts| ==> StepAt(t, k)
  }

  lemma {:induction false} RunShape(t: Run, k: nat)
    requires IsRun(t) && k <= |t.acts|
    ensures WellFormed(t.states[k])
    ensures |t.states[k].chan| == |t.states[0].chan| && |t.states[k].conf| == |t.states[0].conf|
  {
    if k == 0 {
    } else {
      RunShape(t, k - 1);
      assert StepAt(t, k - 1);
    }
  }

  // ---------- mutual exclusion ----------

  ghost predicate SomeNegotiating(s: State) {
    exists c :: 0 <= c < |s.chan| && s.chan[c] == Negotiating
  }

  /** At most one channel negotiates, and while one does the lock is taken. */
  ghost predicate Exclusive(s: State) {
    && (forall c, d :: 0 <= c < |s.chan| && 0 <= d < |s.chan| && s.chan[c] == Negotiating && s.chan[d] == Negotiating
                       ==> c == d)
    && (SomeNegotiating(s) ==> !s.canEnable)
  }

  /** A negotiation is reported over for a supported channel while a different channel is negotiating. */
  ghost predicate Intrudes(s: State, a: Action) {
    && IsTerminal(a) && a.channel < |s.chan| && s.chan[a.channel] != TrackingUnsupported
    && exists c :: 0 <= c < |s.chan| && c != a.channel && s.chan[c] == Negotiating
  }

  /** The environment assumption: a negotiation is reported over only for a negotiating or unsupported channel. */
  predicate Obedient(s: State, a: Action) {
    IsTerminal(a) && a.channel < |s.chan| ==>
      s.chan[a.channel] == Negotiating || s.chan[a.channel] == TrackingUnsupported
  }

  lemma EventExclusiveIff(s: State, a: Action)
    requires WellFormed(s) && Possible(s, a) && Exclusive(s) && a.Event?
    ensures Exclusive(Next(s, a)) <==> !Intrudes(s, a)
  {
    var r, ch := Next(s, a), a.channel;
    EventFrame(s, a);
    EventStartsNegotiation(s, a);
    assert IsTerminal(a) && s.chan[ch] != TrackingUnsupported ==> r.canEnable && r.chan[ch] != Negotiating;
    assert forall c :: 0 <= c < |s.chan| && r.chan[c] == Negotiating ==> s.chan[c] == Negotiating || c == ch;
  }

  lemma StepExclusiveIff(s: State, a: Action)
    requires WellFormed(s) && Possible(s, a) && Exclusive(s)
    ensures Exclusive(Next(s, a)) <==> !Intrudes(s, a)
  {
    match a {
      case Event(_, _, _) => EventExclusiveIff(s, a);
      case ConfigureStack(_, _) => StackConfigEffect(s, a);
      case RegisterHandler(_) =>
      case ConfigureChannel(_, _, _, _) => forall c: nat | c < |s.chan| { ReconfigureEffect(s, a, c); }
      case InitChannel(_, _) => forall c: nat | c < |s.chan| { ReconfigureEffect(s, a, c); }
    }
  }

  /** Mutual exclusion holds throughout a run exactly when no step intrudes on a negotiation. */
  lemma MutualExclusion(t: Run)
    requires IsRun(t)
    ensures (forall k :: 0 <= k <= |t.acts| ==> Exclusive(t.states[k]))
       <==> (forall k :: 0 <= k < |t.acts| ==> !Intrudes(t.states[k], t.acts[k]))
  {
    if forall k :: 0 <= k < |t.acts| ==> !Intrudes(t.states[k], t.acts[k]) {
      forall k: nat | k <= |t.acts| ensures Exclusive(t.states[k]) { ExclusiveUpTo(t, k); }
    }
    if forall k :: 0 <= k <= |t.acts| ==> Exclusive(t.states[k]) {
      forall k | 0 <= k < |t.acts| ensures !Intrudes(t.states[k], t.acts[k]) {
        assert StepAt(t, k);
        StepExclusiveIff(t.states[k], t.acts[k]);
      }
    }
  }

  lemma {:induction false} ExclusiveUpTo(t: Run, k: nat)
    requires IsRun(t) && k <= |t.acts|
    requires forall i :: 0 <= i < k ==> !Intrudes(t.states[i], t.acts[i])
    ensures Exclusive(t.states[k])
  {
    if k == 0 {
    } else {
      ExclusiveUpTo(t, k - 1);
      assert StepAt(t, k - 1);
      StepExclusiveIff(t.states[k - 1], t.acts[k - 1]);
    }
  }

  ghost predicate ObedientRun(t: Run) {
    IsRun(t) && forall k :: 0 <= k < |t.acts| ==> Obedient(t.states[k], t.acts[k])
  }

  /** Under the environment assumption every state of every run is exclusive. */
  lemma {:induction false} ObedientRunsAreExclusive(t: Run, k: nat)
    requires ObedientRun(t) && k <= |t.acts|
    ensures Exclusive(t.states[k])
  {
    if k == 0 {
    } else {
      ObedientRunsAreExclusive(t, k - 1);
      assert StepAt(t, k - 1);
      assert Obedient(t.states[k - 1], t.acts[k - 1]);
      StepExclusiveIff(t.states[k - 1], t.acts[k - 1]);
    }
  }

  /** Without the assumption exclusion fails: two channels negotiate after three events. */
  lemma ExclusionNeedsObedience()
    ensures exists t :: IsRun(t) && !Exclusive(t.states[|t.acts|])
  {
    var s0 := Boot(2, 2);
    var a0, a1 := Event(0, Rx(true), NRF_SUCCESS), Event(1, NegotiationFail, NRF_SUCCESS);
    var a2 := Event(1, Rx(true), NRF_SUCCESS);
    var s1, s2 := IntrudingSteps(s0, a0, a1);
    var s3 := HeardTwice(s2, a2);
    var t := ExtendRun(Run([s0], []), a0, s1);
    t := ExtendRun(t, a1, s2);
    t := ExtendRun(t, a2, s3);
  }

  lemma ExtendRun(t: Run, a: Action, r: State) returns (t': Run)
    requires IsRun(t) && WellFormed(t.states[|t.acts|]) && Possible(t.states[|t.acts|], a)
    requires r == Next(t.states[|t.acts|], a)
    ensures t' == Run(t.states + [r], t.acts + [a]) && IsRun(t')
  {
    t' := Run(t.states + [r], t.acts + [a]);
    forall k | 0 <= k < |t'.acts| ensures StepAt(t', k) {
      assert k < |t.acts| ==> StepAt(t, k);
    }
  }

  lemma IntrudingSteps(s: State, a0: Action, a1: Action) returns (s1: State, s2: State)
    requires WellFormed(s) && !s.halted && s.canEnable && s.chan == [NotTracking, NotTracking]
    requires a0 == Event(0, Rx(true), NRF_SUCCESS) && a1 == Event(1, NegotiationFail, NRF_SUCCESS)
    ensures Possible(s, a0) && s1 == Next(s, a0) && WellFormed(s1)
    ensures Possible(s1, a1) && s2 == Next(s1, a1) && WellFormed(s2) && !s2.halted
    ensures s2.canEnable && s2.chan == [Negotiating, TrackingEncrypted]
  {
    s1 := Next(s, a0);
    assert s1.chan == [Negotiating, NotTracking];
    s2 := Next(s1, a1);
  }

  lemma HeardTwice(s: State, a: Action) returns (r: State)
    requires WellFormed(s) && !s.halted && s.canEnable && s.chan == [Negotiating, TrackingEncrypted]
    requires a == Event(1, Rx(true), NRF_SUCCESS)
    ensures Possible(s, a) && r == Next(s, a) && !Exclusive(r)
  {
    r := Next(s, a);
    assert r.chan[0] == Negotiating && r.chan[1] == Negotiating;
  }

  // ---------- the lock is not leaked ----------

  /** Exclusive, and the lock is taken only on behalf of a negotiating channel. */
  ghost predicate Tight(s: State) {
    Exclusive(s) && (s.canEnable <==> !SomeNegotiating(s))
  }

  /** An effective configuration overwrites the state of a negotiating channel. */
  ghost predicate Orphans(s: State, a: Action) {
    exists c :: 0 <= c < |s.chan| && s.chan[c] == Negotiating && Reconfigures(s, a, c)
  }

  lemma StepTightIff(s: State, a: Action)
    requires WellFormed(s) && Possible(s, a) && Tight(s)
    ensures Tight(Next(s, a)) <==> !Intrudes(s, a) && !Orphans(s, a)
  {
    var r := Next(s, a);
    StepExclusiveIff(s, a);
    match a {
      case Event(ch, ev, _) =>
        EventFrame(s, a);
        EventStartsNegotiation(s, a);
        assert s.chan[ch] == Negotiating && r.chan[ch] != Negotiating ==> r.canEnable;
      case ConfigureStack(_, _) =>
        StackConfigEffect(s, a);
      case RegisterHandler(_) =>
      case ConfigureChannel(_, ch, _, _) =>
        forall c: nat | c < |s.chan| { ReconfigureEffect(s, a, c); }
        TightAfterReconfiguring(s, a, ch, r);
      case InitChannel(c, _) =>
        forall c: nat | c < |s.chan| { ReconfigureEffect(s, a, c); }
        TightAfterReconfiguring(s, a, c.channel, r);
    }
  }

  lemma TightAfterReconfiguring(s: State, a: Action, ch: nat, r: State)
    requires Tight(s) && Exclusive(r) && |r.chan| == |s.chan| && ch < |s.chan| && r.canEnable == s.canEnable
    requires forall c :: 0 <= c < |s.chan| && c != ch ==> !Reconfigures(s, a, c)
    requires forall c: nat :: c < |s.chan| ==>
               if Reconfigures(s, a, c) then r.chan[c] == NotTracking || r.chan[c] == TrackingUnsupported
               else r.chan[c] == s.chan[c]
    ensures Tight(r) <==> !Orphans(s, a)
  {
    if s.chan[ch] == Negotiating && Reconfigures(s, a, ch) {
      assert Orphans(s, a);
      assert !SomeNegotiating(r);
    } else {
      assert !Orphans(s, a);
      if SomeNegotiating(s) {
        var c :| 0 <= c < |s.chan| && s.chan[c] == Negotiating;
        assert r.chan[c] == Negotiating;
      }
    }
  }

  /** The lock is never leaked in a run exactly when no step intrudes on or orphans a negotiation. */
  lemma LockNeverLeaked(t: Run)
    requires IsRun(t)
    ensures (forall k :: 0 <= k <= |t.acts| ==> Tight(t.states[k]))
       <==> (forall k :: 0 <= k < |t.acts| ==> !Intrudes(t.states[k], t.acts[k]) && !Orphans(t.states[k], t.acts[k]))
  {
    if forall k :: 0 <= k < |t.acts| ==> !Intrudes(t.states[k], t.acts[k]) && !Orphans(t.states[k], t.acts[k]) {
      forall k: nat | k <= |t.acts| ensures Tight(t.states[k]) { TightUpTo(t, k); }
    }
    if forall k :: 0 <= k <= |t.acts| ==> Tight(t.states[k]) {
      forall k | 0 <= k < |t.acts| ensures !Intrudes(t.states[k], t.acts[k]) && !Orphans(t.states[k], t.acts[k]) {
        assert StepAt(t, k);
        StepTightIff(t.states[k], t.acts[k]);
      }
    }
  }

  lemma {:induction false} TightUpTo(t: Run, k: nat)
    requires IsRun(t) && k <= |t.acts|
    requires forall i :: 0 <= i < k ==> !Intrudes(t.states[i], t.acts[i]) && !Orphans(t.states[i], t.acts[i])
    ensures Tight(t.states[k])
  {
    if k == 0 {
    } else {
      TightUpTo(t, k - 1);
      assert StepAt(t, k - 1);
      StepTightIff(t.states[k - 1], t.acts[k - 1]);
    }
  }

  /** The lock is taken and nobody negotiates. */
  ghost predicate Leaked(s: State) {
    !s.canEnable && !SomeNegotiating(s)
  }

  /** Reconfiguring a channel during its negotiation does leak the lock. */
  lemma OrphaningLeaks(s: State, a: Action)
    requires WellFormed(s) && Possible(s, a) && Tight(s) && Orphans(s, a)
    ensures Leaked(Next(s, a))
  {
    forall c: nat | c < |s.chan| && (a.ConfigureChannel? || a.InitChannel?) { ReconfigureEffect(s, a, c); }
    var d :| 0 <= d < |s.chan| && s.chan[d] == Negotiating && Reconfigures(s, a, d);
  }

  /** And a program can get there: configure the stack and a slave, hear its master, configure the slave again. */
  lemma LeakReachable()
    ensures exists t :: ObedientRun(t) && t.states[|t.acts|].configured && Leaked(t.states[|t.acts|])
  {
    var t, s := LeakedRun(ChannelSettings(1, 0, 1), ChannelSettings(1, 0, 1));
  }

  /** The leaking run with two settings. */
  lemma LeakedRun(first: ChannelSettings, second: ChannelSettings) returns (t: Run, s3: State)
    requires first.mode != ENCRYPTION_DISABLED_MODE && second.mode != ENCRYPTION_DISABLED_MODE
    ensures ObedientRun(t) && |t.acts| == 4 && t.states[3].chan == [Negotiating] && t.acts[3].ConfigureChannel?
    ensures t.states[4] == s3 && Leaked(s3) && !s3.halted && s3.configured
    ensures s3.chan == [NotTracking] && s3.conf == [second]
    ensures s3.calls == [Issued(CryptoChannelEnable(0, first), NRF_SUCCESS)]
  {
    var configure1 := ConfigureChannel(Slave, 0, Some(first), NRF_SUCCESS);
    var configure2 := ConfigureChannel(Slave, 0, Some(second), NRF_SUCCESS);
    var broadcast := Event(0, Rx(true), NRF_SUCCESS);
    t := ConfiguredRun();
    var s1, s2;
    s1, s2, s3 := LeakSteps(t.states[1], configure1, broadcast, configure2, first, second);
    t := Extend(t, configure1, s1);
    t := Extend(t, broadcast, s2);
    t := Extend(t, configure2, s3);
  }

  lemma ConfiguredRun() returns (t: Run)
    ensures ObedientRun(t) && |t.acts| == 1 && !t.states[1].halted
    ensures t.states[1].configured && t.states[1].canEnable && t.states[1].chan == [TrackingUnsupported]
    ensures WellFormed(t.states[1]) && |t.states[1].conf| == 1 && t.states[1].calls == []
  {
    var a := ConfigureStack(StackSettings([], None, None, None, None), []);
    StackConfigEffect(Boot(1, 1), a);
    t := Extend(Run([Boot(1, 1)], []), a, Next(Boot(1, 1), a));
  }

  lemma Extend(t: Run, a: Action, r: State) returns (t': Run)
    requires ObedientRun(t) && WellFormed(t.states[|t.acts|]) && Possible(t.states[|t.acts|], a)
    requires Obedient(t.states[|t.acts|], a) && r == Next(t.states[|t.acts|], a)
    ensures t' == Run(t.states + [r], t.acts + [a]) && ObedientRun(t')
  {
    t' := ExtendRun(t, a, r);
    forall k | 0 <= k < |t'.acts| ensures Obedient(t'.states[k], t'.acts[k]) {
      assert k < |t.acts| ==> Obedient(t.states[k], t.acts[k]);
    }
  }

  /** A slave configured, heard and configured again, from any state with a free lock and that one channel. */
  lemma LeakSteps(s: State, configure1: Action, broadcast: Action, configure2: Action, first: ChannelSettings,
                  second: ChannelSettings)
    returns (s1: State, s2: State, s3: State)
    requires WellFormed(s) && !s.halted && s.configured && s.canEnable && s.chan == [TrackingUnsupported]
    requires first.mode != ENCRYPTION_DISABLED_MODE && second.mode != ENCRYPTION_DISABLED_MODE
    requires configure1 == ConfigureChannel(Slave, 0, Some(first), NRF_SUCCESS)
    requires configure2 == ConfigureChannel(Slave, 0, Some(second), NRF_SUCCESS)
    requires broadcast == Event(0, Rx(true), NRF_SUCCESS)
    ensures Possible(s, configure1) && s1 == Next(s, configure1) && WellFormed(s1)
    ensures Possible(s1, broadcast) && s2 == Next(s1, broadcast) && WellFormed(s2) && s2.chan == [Negotiating]
    ensures Possible(s2, configure2) && s3 == Next(s2, configure2) && s3.configured && Leaked(s3) && !s3.halted
    ensures s3.chan == [NotTracking] && s3.conf == s.conf[0 := second]
    ensures s3.calls == s.calls + [Issued(CryptoChannelEnable(0, first), NRF_SUCCESS)]
  {
    s1 := Next(s, configure1);
    assert s1.chan == [NotTracking] && s1.conf == s.conf[0 := first];
    s2 := Next(s1, broadcast);
    assert s2.chan == [Negotiating] && !s2.canEnable;
    s3 := Next(s2, configure2);
    assert s3.chan == [NotTracking];
  }

  /** What frees a leaked lock: a stack configuration, or the end of a negotiation reported for a supported channel. */
  predicate Releases(s: State, a: Action) {
    || ConfiguresStack(a)
    || (IsTerminal(a) && a.channel < |s.chan| && s.chan[a.channel] != TrackingUnsupported)
  }

  /** A step ends a leak exactly when it releases the lock; else no channel gets decrypted and no event makes a call. */
  lemma LeakedStep(s: State, a: Action)
    requires WellFormed(s) && Possible(s, a) && Leaked(s)
    ensures Leaked(Next(s, a)) <==> !Releases(s, a)
    ensures Releases(s, a) ==> Tight(Next(s, a)) && Next(s, a).canEnable
    ensures !Releases(s, a) ==>
              && (forall c :: 0 <= c < |s.chan| && Next(s, a).chan[c] == TrackingDecrypted ==>
                              s.chan[c] == TrackingDecrypted)
              && (a.Event? ==> Next(s, a).calls == s.calls)
  {
    match a {
      case Event(_, _, _) =>
        EventFrame(s, a);
        EventStartsNegotiation(s, a);
      case ConfigureStack(_, _) => StackConfigEffect(s, a);
      case RegisterHandler(_) =>
      case ConfigureChannel(_, _, _, _) => forall c: nat | c < |s.chan| { ReconfigureEffect(s, a, c); }
      case InitChannel(_, _) => forall c: nat | c < |s.chan| { ReconfigureEffect(s, a, c); }
    }
  }

  /**
   In every run, whatever the environment does, a leaked lock stays leaked exactly as long as no step releases it, and
   meanwhile no channel becomes decrypted and no event makes a SoftDevice call.
   */
  lemma LeakLastsIff(t: Run, i: nat, k: nat)
    requires IsRun(t) && i <= k <= |t.acts| && Leaked(t.states[i])
    ensures (forall j :: i <= j <= k ==> Leaked(t.states[j]))
       <==> (forall j :: i <= j < k ==> !Releases(t.states[j], t.acts[j]))
    ensures (forall j :: i <= j < k ==> !Releases(t.states[j], t.acts[j])) ==>
              && (forall c :: 0 <= c < |t.states[k].chan| && t.states[k].chan[c] == TrackingDecrypted ==>
                              c < |t.states[i].chan| && t.states[i].chan[c] == TrackingDecrypted)
              && (forall j :: i <= j < k && t.acts[j].Event? ==> t.states[j + 1].calls == t.states[j].calls)
  {
    if forall j :: i <= j <= k ==> Leaked(t.states[j]) {
      forall j | i <= j < k ensures !Releases(t.states[j], t.acts[j]) {
        assert StepAt(t, j) && Leaked(t.states[j]) && Leaked(t.states[j + 1]);
        LeakedStep(t.states[j], t.acts[j]);
      }
    }
    if forall j :: i <= j < k ==> !Releases(t.states[j], t.acts[j]) {
      forall j: nat | i <= j <= k ensures Leaked(t.states[j]) {
        LeakedUpTo(t, i, j);
      }
      LeakedUpTo(t, i, k);
    }
  }

  lemma {:induction false} LeakedUpTo(t: Run, i: nat, k: nat)
    requires IsRun(t) && i <= k <= |t.acts| && Leaked(t.states[i])
    requires forall j :: i <= j < k ==> !Releases(t.states[j], t.acts[j])
    ensures Leaked(t.states[k])
    ensures forall c :: 0 <= c < |t.states[k].chan| && t.states[k].chan[c] == TrackingDecrypted ==>
                          c < |t.states[i].chan| && t.states[i].chan[c] == TrackingDecrypted
    ensures forall j :: i <= j < k && t.acts[j].Event? ==> t.states[j + 1].calls == t.states[j].calls
    decreases k
  {
    if i == k {
    } else {
      LeakedUpTo(t, i, k - 1);
      RunShape(t, i);
      RunShape(t, k - 1);
      assert StepAt(t, k - 1);
      LeakedStep(t.states[k - 1], t.acts[k - 1]);
    }
  }

  // ---------- nothing is stuck ----------

  /** The state after a list of events, each possible and allowed by the environment assumption. */
  ghost predicate Plays(s: State, evs: seq<Action>, r: State)
    decreases |evs|
  {
    if evs == [] then r == s
    else
      && WellFormed(s) && evs[0].Event? && Possible(s, evs[0]) && Obedient(s, evs[0])
      && Plays(Next(s, evs[0]), evs[1..], r)
  }

  /** The event list that gets `ch` negotiating: the end of the holder's negotiation, if any, then a broadcast. */
  lemma CanNegotiate(s: State, ch: nat) returns (evs: seq<Action>, r: State)
    requires WellFormed(s) && !s.halted && Tight(s) && ch < |s.chan|
    requires s.chan[ch] != TrackingUnsupported && s.chan[ch] != TrackingDecrypted
    ensures |evs| <= 2 && Plays(s, evs, r) && WellFormed(r) && !r.halted
    ensures ch < |r.chan| && r.chan[ch] == Negotiating
  {
    var broadcast := Event(ch, Rx(true), NRF_SUCCESS);
    if s.chan[ch] == Negotiating {
      evs, r := [], s;
    } else if s.canEnable {
      evs, r := [broadcast], Next(s, broadcast);
      assert Plays(r, evs[1..], r);
    } else {
      var d :| 0 <= d < |s.chan| && s.chan[d] == Negotiating;
      var over := Event(d, NegotiationFail, NRF_SUCCESS);
      var s1 := Next(s, over);
      EventFrame(s, over);
      evs, r := [over, broadcast], Next(s1, broadcast);
      assert evs[1..] == [broadcast] && evs[1..][1..] == [];
      assert Plays(r, [], r);
      assert Plays(s1, [broadcast], r);
    }
  }

  /** Every supported channel can be decrypted within three events of any reachable state with a tight lock. */
  lemma NotStuck(s: State, ch: nat)
    requires WellFormed(s) && !s.halted && Tight(s) && ch < |s.chan|
    requires s.chan[ch] != TrackingUnsupported
    ensures exists evs, r :: |evs| <= 3 && Plays(s, evs, r) && ch < |r.chan| && r.chan[ch] == TrackingDecrypted
  {
    if s.chan[ch] == TrackingDecrypted {
      assert Plays(s, [], s);
    } else {
      var evs, r := CanNegotiate(s, ch);
      var done, r1 := CanFinish(r, ch);
      PlaysConcat(s, evs, r, [done], r1);
      assert |evs + [done]| <= 3;
    }
  }

  lemma CanFinish(s: State, ch: nat) returns (done: Action, r: State)
    requires WellFormed(s) && !s.halted && ch < |s.chan| && s.chan[ch] == Negotiating
    ensures Plays(s, [done], r) && ch < |r.chan| && r.chan[ch] == TrackingDecrypted
  {
    done := Event(ch, NegotiationSuccess, NRF_SUCCESS);
    r := Next(s, done);
    assert [done][1..] == [];
    assert Plays(r, [], r);
  }

  lemma {:induction false} PlaysConcat(s: State, e1: seq<Action>, m: State, e2: seq<Action>, r: State)
    requires Plays(s, e1, m) && Plays(m, e2, r)
    ensures Plays(s, e1 + e2, r)
    decreases |e1|
  {
    if e1 == [] {
      assert e1 + e2 == e2;
    } else {
      assert (e1 + e2)[1..] == e1[1..] + e2;
      PlaysConcat(Next(s, e1[0]), e1[1..], m, e2, r);
    }
  }

  lemma {:induction false} LeakedPlays(s: State, evs: seq<Action>, r: State, ch: nat)
    requires Plays(s, evs, r) && Leaked(s) && ch < |s.chan| && s.chan[ch] != TrackingDecrypted
    ensures ch < |r.chan| && r.chan[ch] != TrackingDecrypted
    decreases |evs|
  {
    if evs == [] {
    } else {
      LeakedStep(s, evs[0]);
      LeakedPlays(Next(s, evs[0]), evs[1..], r, ch);
    }
  }

  /** From an exclusive state, obedient events can decrypt a supported channel exactly when the lock is not leaked. */
  lemma RecoverableIff(s: State, ch: nat)
    requires WellFormed(s) && !s.halted && Exclusive(s) && ch < |s.chan|
    requires s.chan[ch] != TrackingUnsupported && s.chan[ch] != TrackingDecrypted
    ensures (exists evs, r :: Plays(s, evs, r) && ch < |r.chan| && r.chan[ch] == TrackingDecrypted) <==> !Leaked(s)
  {
    if Leaked(s) {
      forall evs, r | Plays(s, evs, r) ensures ch < |r.chan| && r.chan[ch] != TrackingDecrypted {
        LeakedPlays(s, evs, r, ch);
      }
    } else {
      NotStuck(s, ch);
    }
  }

  // ---------- where "decrypted" comes from ----------

  /** The step ends whatever channel `ch` was doing. */
  predicate Drops(s: State, a: Action, ch: nat) {
    || ConfiguresStack(a)
    || Reconfigures(s, a, ch)
    || IsEvent(a, ch, RxFailGoToSearch)
    || IsEvent(a, ch, NegotiationFail)
  }

  /** Step `i` enabled encryption on `ch` with the settings saved at `k`, and nothing up to `k` dropped the channel. */
  ghost predicate EnabledSince(t: Run, i: nat, k: nat, ch: nat)
    requires IsRun(t) && i < k <= |t.acts| && ch < |t.states[k].conf|
  {
    && StartsNegotiation(t.states[i], t.acts[i], t.states[i + 1], ch, t.states[k].conf[ch])
    && forall m :: i < m < k ==> !Drops(t.states[m], t.acts[m], ch)
  }

  ghost predicate DecryptionEvidence(t: Run, i: nat, j: nat, k: nat, ch: nat)
    requires IsRun(t) && k <= |t.acts| && ch < |t.states[k].conf|
  {
    i < j < k && EnabledSince(t, i, k, ch) && IsEvent(t.acts[j], ch, NegotiationSuccess)
  }

  /** How one channel may move in one step. */
  ghost predicate ChannelMove(s: State, a: Action, r: State, ch: nat) {
    && ch < |s.chan| == |r.chan| && ch < |s.conf| == |r.conf|
    && (Drops(s, a, ch) ==> r.chan[ch] != Negotiating && r.chan[ch] != TrackingDecrypted)
    && (IsEvent(a, ch, RxFailGoToSearch) && s.chan[ch] != TrackingUnsupported ==> r.chan[ch] == NotTracking)
    && (IsEvent(a, ch, NegotiationFail) && s.chan[ch] != TrackingUnsupported ==> r.chan[ch] == TrackingEncrypted)
    && (!Drops(s, a, ch) ==> r.conf[ch] == s.conf[ch])
    && (!Drops(s, a, ch) && s.chan[ch] == TrackingDecrypted ==> r.chan[ch] == TrackingDecrypted)
    && (!Drops(s, a, ch) && s.chan[ch] == Negotiating ==>
          r.chan[ch] == if IsEvent(a, ch, NegotiationSuccess) then TrackingDecrypted else Negotiating)
    && (s.chan[ch] != Negotiating && r.chan[ch] == Negotiating ==> StartsNegotiation(s, a, r, ch, r.conf[ch]))
    && (IsEvent(a, ch, Rx(true)) && r.calls != s.calls ==> r.chan[ch] == Negotiating)
    && (s.chan[ch] != TrackingDecrypted && r.chan[ch] == TrackingDecrypted ==>
          IsEvent(a, ch, NegotiationSuccess) && s.chan[ch] != TrackingUnsupported)
    && (IsEvent(a, ch, NegotiationSuccess) && s.chan[ch] != TrackingUnsupported ==> r.chan[ch] == TrackingDecrypted)
  }

  lemma ChannelMoves(s: State, a: Action, ch: nat)
    requires WellFormed(s) && Possible(s, a) && ch < |s.chan|
    ensures ChannelMove(s, a, Next(s, a), ch)
  {
    match a {
      case Event(c, _, _) =>
        EventFrame(s, a);
        EventStartsNegotiation(s, a);
      case ConfigureStack(_, _) => StackConfigEffect(s, a);
      case RegisterHandler(_) =>
      case ConfigureChannel(_, _, _, _) => ReconfigureEffect(s, a, ch);
      case InitChannel(_, _) => ReconfigureEffect(s, a, ch);
    }
  }

  lemma ChannelMovesAt(t: Run, k: nat, ch: nat)
    requires IsRun(t) && k < |t.acts| && ch < |t.states[0].chan|
    ensures ChannelMove(t.states[k], t.acts[k], t.states[k + 1], ch)
  {
    RunShape(t, k);
    assert StepAt(t, k);
    ChannelMoves(t.states[k], t.acts[k], ch);
  }

  lemma {:induction false} FindEnable(t: Run, k: nat, ch: nat) returns (i: nat)
    requires IsRun(t) && k <= |t.acts| && WellFormed(t.states[k]) && ch < |t.states[k].chan|
    requires t.states[k].chan[ch] == Negotiating
    ensures i < k && EnabledSince(t, i, k, ch)
  {
    RunShape(t, k);
    if k == 0 {
      assert false;
    } else {
      ChannelMovesAt(t, k - 1, ch);
      RunShape(t, k - 1);
      if t.states[k - 1].chan[ch] == Negotiating {
        i := FindEnable(t, k - 1, ch);
      } else {
        i := k - 1;
      }
    }
  }

  lemma {:induction false} FindDecryption(t: Run, k: nat, ch: nat) returns (i: nat, j: nat)
    requires ObedientRun(t) && k <= |t.acts| && WellFormed(t.states[k]) && ch < |t.states[k].chan|
    requires t.states[k].chan[ch] == TrackingDecrypted
    ensures DecryptionEvidence(t, i, j, k, ch)
  {
    RunShape(t, k);
    if k == 0 {
      assert false;
    } else {
      ChannelMovesAt(t, k - 1, ch);
      RunShape(t, k - 1);
      assert Obedient(t.states[k - 1], t.acts[k - 1]);
      if t.states[k - 1].chan[ch] == TrackingDecrypted {
        i, j := FindDecryption(t, k - 1, ch);
      } else {
        i := FindEnable(t, k - 1, ch);
        j := k - 1;
      }
    }
  }

  /** After an enable, an undropped channel is negotiating, or decrypted once a success was reported. */
  lemma {:induction false} EnabledStays(t: Run, i: nat, j: nat, m: nat, k: nat, ch: nat)
    requires IsRun(t) && i < m <= k <= |t.acts| && WellFormed(t.states[k]) && ch < |t.states[k].chan|
    requires DecryptionEvidence(t, i, j, k, ch)
    ensures ch < |t.states[m].chan|
    ensures t.states[m].chan[ch] == Negotiating || t.states[m].chan[ch] == TrackingDecrypted
    ensures j < m ==> t.states[m].chan[ch] == TrackingDecrypted
    decreases m
  {
    RunShape(t, k);
    ChannelMovesAt(t, m - 1, ch);
    if i == m - 1 {
    } else {
      EnabledStays(t, i, j, m - 1, k, ch);
      assert !Drops(t.states[m - 1], t.acts[m - 1], ch);
    }
  }

  /**
   In every obedient run a channel is decrypted exactly when an enable was issued for it with the settings still
   saved for it, a success was reported afterwards, and since that enable the stack was not configured, the channel
   was neither configured nor lost, and no failure was reported for it.
   */
  lemma DecryptedIff(t: Run, k: nat, ch: nat)
    requires ObedientRun(t) && k <= |t.acts| && WellFormed(t.states[k]) && ch < |t.states[k].chan|
    ensures t.states[k].chan[ch] == TrackingDecrypted <==> exists i: nat, j: nat :: DecryptionEvidence(t, i, j, k, ch)
  {
    if t.states[k].chan[ch] == TrackingDecrypted {
      var i, j := FindDecryption(t, k, ch);
    }
    if exists i: nat, j: nat :: DecryptionEvidence(t, i, j, k, ch) {
      var i: nat, j: nat :| DecryptionEvidence(t, i, j, k, ch);
      EnabledStays(t, i, j, k, k, ch);
    }
  }

  /** Step `j` reported a success for `ch` while it was supported, and nothing up to `k` dropped the channel. */
  ghost predicate SuccessSince(t: Run, j: nat, k: nat, ch: nat)
    requires IsRun(t) && k <= |t.acts|
  {
    && j < k && IsEvent(t.acts[j], ch, NegotiationSuccess)
    && ch < |t.states[j].chan| && t.states[j].chan[ch] != TrackingUnsupported
    && forall m :: j < m < k ==> !Drops(t.states[m], t.acts[m], ch)
  }

  lemma {:induction false} FindSuccess(t: Run, k: nat, ch: nat) returns (j: nat)
    requires IsRun(t) && k <= |t.acts| && ch < |t.states[k].chan| && t.states[k].chan[ch] == TrackingDecrypted
    ensures SuccessSince(t, j, k, ch)
  {
    RunShape(t, k);
    if k == 0 {
      assert false;
    } else {
      ChannelMovesAt(t, k - 1, ch);
      if t.states[k - 1].chan[ch] == TrackingDecrypted {
        j := FindSuccess(t, k - 1, ch);
      } else {
        j := k - 1;
      }
    }
  }

  lemma {:induction false} SuccessStays(t: Run, j: nat, m: nat, k: nat, ch: nat)
    requires IsRun(t) && j < m <= k <= |t.acts| && SuccessSince(t, j, k, ch)
    ensures ch < |t.states[m].chan| && t.states[m].chan[ch] == TrackingDecrypted
    decreases m
  {
    RunShape(t, j);
    ChannelMovesAt(t, m - 1, ch);
    if j == m - 1 {
    } else {
      SuccessStays(t, j, m - 1, k, ch);
      assert !Drops(t.states[m - 1], t.acts[m - 1], ch);
    }
  }

  /** In every run, obedient or not, a channel is decrypted exactly when a success came while it was supported. */
  lemma DecryptedIffSuccess(t: Run, k: nat, ch: nat)
    requires IsRun(t) && k <= |t.acts| && ch < |t.states[k].chan|
    ensures t.states[k].chan[ch] == TrackingDecrypted <==> exists j: nat :: SuccessSince(t, j, k, ch)
  {
    if t.states[k].chan[ch] == TrackingDecrypted {
      var j := FindSuccess(t, k, ch);
    }
    if exists j: nat :: SuccessSince(t, j, k, ch) {
      var j: nat :| SuccessSince(t, j, k, ch);
      SuccessStays(t, j, k, k, ch);
    }
  }

  /** Without obedience a channel can be decrypted though nothing was ever enabled. */
  lemma DecryptionNeedsObedience()
    ensures exists t :: IsRun(t) && SomeDecrypted(t.states[|t.acts|]) && t.states[|t.acts|].calls == []
  {
    var s0, a0 := Boot(1, 1), Event(0, NegotiationSuccess, 0);
    var t := Run([s0, Next(s0, a0)], [a0]);
    assert StepAt(t, 0);
    assert t.states[1].chan[0] == TrackingDecrypted;
    assert IsRun(t);
  }

  ghost predicate SomeDecrypted(s: State) {
    exists c :: 0 <= c < |s.chan| && s.chan[c] == TrackingDecrypted
  }

  // ---------- who may negotiate ----------

  /** Step `i` made `ch` a slave with the settings saved at `k`; no later step configured the stack or the channel. */
  ghost predicate SlaveSince(t: Run, i: nat, k: nat, ch: nat)
    requires IsRun(t) && k <= |t.acts| && ch < |t.states[k].conf|
  {
    && i < k
    && MakesSlave(t.states[i], t.acts[i], ch, t.states[k].conf[ch])
    && forall m :: i < m < k ==> !ConfiguresStack(t.acts[m]) && !Reconfigures(t.states[m], t.acts[m], ch)
  }

  /** How the support of one channel may change in one step. */
  ghost predicate SupportMove(s: State, a: Action, r: State, ch: nat) {
    && ch < |s.chan| == |r.chan| && ch < |s.conf| == |r.conf|
    && (r.configured <==> s.configured || ConfiguresStack(a))
    && (ConfiguresStack(a) ==> r.chan[ch] == TrackingUnsupported)
    && (!ConfiguresStack(a) && !Reconfigures(s, a, ch) ==>
          && r.conf[ch] == s.conf[ch]
          && (r.chan[ch] == TrackingUnsupported <==> s.chan[ch] == TrackingUnsupported))
    && (Reconfigures(s, a, ch) && r.chan[ch] != TrackingUnsupported && s.configured ==>
          MakesSlave(s, a, ch, r.conf[ch]))
    && (Reconfigures(s, a, ch) && !s.configured ==> r.chan[ch] == TrackingUnsupported && r.conf[ch] == s.conf[ch])
    && (forall p :: MakesSlave(s, a, ch, p) ==> r.chan[ch] != TrackingUnsupported)
  }

  lemma SupportMovesAt(t: Run, k: nat, ch: nat)
    requires IsRun(t) && k < |t.acts| && ch < |t.states[0].chan|
    ensures SupportMove(t.states[k], t.acts[k], t.states[k + 1], ch)
  {
    RunShape(t, k);
    assert StepAt(t, k);
    var s, a := t.states[k], t.acts[k];
    match a {
      case Event(c, _, _) => EventFrame(s, a);
      case ConfigureStack(_, _) => StackConfigEffect(s, a);
      case RegisterHandler(_) =>
      case ConfigureChannel(_, _, _, _) => ReconfigureEffect(s, a, ch);
      case InitChannel(_, _) => ReconfigureEffect(s, a, ch);
    }
  }

  lemma {:induction false} FindSlave(t: Run, k: nat, ch: nat) returns (i: nat)
    requires IsRun(t) && k <= |t.acts| && WellFormed(t.states[k]) && ch < |t.states[k].chan|
    requires t.states[k].configured && t.states[k].chan[ch] != TrackingUnsupported
    ensures SlaveSince(t, i, k, ch)
  {
    RunShape(t, k);
    if k == 0 {
      assert false;
    } else {
      RunShape(t, k - 1);
      SupportMovesAt(t, k - 1, ch);
      if Reconfigures(t.states[k - 1], t.acts[k - 1], ch) {
        i := k - 1;
      } else {
        i := FindSlave(t, k - 1, ch);
      }
    }
  }

  lemma {:induction false} SlaveStays(t: Run, i: nat, m: nat, k: nat, ch: nat)
    requires IsRun(t) && i < m <= k <= |t.acts| && WellFormed(t.states[k]) && ch < |t.states[k].chan|
    requires SlaveSince(t, i, k, ch)
    ensures ch < |t.states[m].chan| && t.states[m].chan[ch] != TrackingUnsupported
    decreases m
  {
    RunShape(t, k);
    SupportMovesAt(t, m - 1, ch);
    if i == m - 1 {
    } else {
      SlaveStays(t, i, m - 1, k, ch);
    }
  }

  /** No effective configuration of `ch` so far, and no successful stack configuration. */
  ghost predicate Untouched(t: Run, k: nat, ch: nat)
    requires IsRun(t) && k <= |t.acts|
  {
    forall m :: 0 <= m < k ==> !ConfiguresStack(t.acts[m]) && !Reconfigures(t.states[m], t.acts[m], ch)
  }

  /** Before the stack is configured every saved setting is zero and the supported channels are the untouched ones. */
  lemma {:induction false} BeforeConfiguration(t: Run, k: nat, ch: nat)
    requires IsRun(t) && k <= |t.acts| && ch < |t.states[0].chan| && !t.states[k].configured
    ensures ch < |t.states[k].chan| && ch < |t.states[k].conf|
    ensures t.states[k].conf[ch] == ChannelSettings(0, 0, 0)
    ensures t.states[k].chan[ch] != TrackingUnsupported <==> Untouched(t, k, ch)
    ensures forall i: nat :: !SlaveSince(t, i, k, ch)
  {
    if k == 0 {
    } else {
      SupportMovesAt(t, k - 1, ch);
      BeforeConfiguration(t, k - 1, ch);
      forall i: nat | i < k ensures !t.states[i].configured {
        ConfiguredStays(t, i, k);
      }
    }
  }

  lemma {:induction false} ConfiguredStays(t: Run, i: nat, k: nat)
    requires IsRun(t) && i <= k <= |t.acts|
    ensures t.states[i].configured ==> t.states[k].configured
    decreases k
  {
    if i == k {
    } else {
      ConfiguredStays(t, i, k - 1);
      ConfiguredStep(t, k - 1);
    }
  }

  lemma ConfiguredStep(t: Run, k: nat)
    requires IsRun(t) && k < |t.acts|
    ensures t.states[k + 1].configured <==> t.states[k].configured || ConfiguresStack(t.acts[k])
  {
    assert StepAt(t, k);
    var s, a := t.states[k], t.acts[k];
    match a {
      case Event(_, _, _) => EventFrame(s, a);
      case ConfigureStack(_, _) => StackConfigEffect(s, a);
      case RegisterHandler(_) =>
      case ConfigureChannel(_, ch, _, _) => ReconfigureEffect(s, a, ch);
      case InitChannel(c, _) => ReconfigureEffect(s, a, c.channel);
    }
  }

  /**
   In every run the channels that may negotiate are exactly those configured as slaves, with encryption not disabled,
   since the last successful stack configuration and not configured since; and, as long as the stack was never
   configured, those that nothing configured.
   */
  lemma SupportedIff(t: Run, k: nat, ch: nat)
    requires IsRun(t) && k <= |t.acts| && WellFormed(t.states[k]) && ch < |t.states[k].chan|
    ensures t.states[k].chan[ch] != TrackingUnsupported <==>
              (exists i: nat :: SlaveSince(t, i, k, ch)) || (!t.states[k].configured && Untouched(t, k, ch))
    ensures t.states[k].chan[ch] != TrackingUnsupported ==>
              ((exists i: nat :: SlaveSince(t, i, k, ch)) <==> t.states[k].configured)
  {
    RunShape(t, k);
    if !t.states[k].configured {
      BeforeConfiguration(t, k, ch);
    } else {
      if t.states[k].chan[ch] != TrackingUnsupported {
        var i := FindSlave(t, k, ch);
      }
      if exists i: nat :: SlaveSince(t, i, k, ch) {
        var i: nat :| SlaveSince(t, i, k, ch);
        SlaveStays(t, i, k, k, ch);
      }
    }
  }

  /**
   Every enable an event issues carries the settings saved for its channel; they are the settings of a slave with
   encryption not disabled exactly when the stack is configured, and all zero before that.
   */
  lemma EnablesUseSlaveSettings(t: Run, k: nat)
    requires IsRun(t) && k < |t.acts| && t.acts[k].Event?
    requires t.states[k + 1].calls != t.states[k].calls
    ensures var ch, s := t.acts[k].channel, t.states[k];
            && ch < |s.conf|
            && t.states[k + 1].calls == s.calls + [Issued(CryptoChannelEnable(ch, s.conf[ch]), t.acts[k].rc)]
            && ((exists i: nat :: SlaveSince(t, i, k, ch)) <==> s.configured)
            && (s.conf[ch].mode != ENCRYPTION_DISABLED_MODE <==> s.configured)
            && (!s.configured ==> s.conf[ch] == ChannelSettings(0, 0, 0))
  {
    RunShape(t, k);
    assert StepAt(t, k);
    EventStartsNegotiation(t.states[k], t.acts[k]);
    SupportedIff(t, k, t.acts[k].channel);
    if t.states[k].configured {
      var i: nat :| SlaveSince(t, i, k, t.acts[k].channel);
    } else {
      BeforeConfiguration(t, k, t.acts[k].channel);
    }
  }

  /** The failing case: one broadcast after boot enables encryption with zeroed settings. */
  lemma EnableBeforeConfiguration()
    ensures exists t :: ObedientRun(t) && !t.states[|t.acts|].configured
                     && t.states[|t.acts|].calls == [Issued(CryptoChannelEnable(0, ChannelSettings(0, 0, 0)), 0)]
  {
    var s0, a0 := Boot(1, 1), Event(0, Rx(true), 0);
    var t := Run([s0, Next(s0, a0)], [a0]);
    assert StepAt(t, 0);
    assert IsRun(t) && ObedientRun(t);
  }

  /** Over any list of events an unsupported channel stays so, and its events touch neither the lock nor the radio. */
  lemma {:induction false} EventsKeepUnsupported(t: Run, i: nat, k: nat, ch: nat)
    requires IsRun(t) && i <= k <= |t.acts| && ch < |t.states[i].chan| && t.states[i].chan[ch] == TrackingUnsupported
    requires forall j :: i <= j < k ==> t.acts[j].Event?
    ensures ch < |t.states[k].chan| && t.states[k].chan[ch] == TrackingUnsupported
    ensures t.states[k].conf == t.states[i].conf
    ensures forall j :: i <= j < k && t.acts[j].channel == ch ==>
              && t.states[j + 1].calls == t.states[j].calls
              && t.states[j + 1].canEnable == t.states[j].canEnable
              && t.states[j + 1].chan == t.states[j].chan
    decreases k
  {
    if i == k {
    } else {
      EventsKeepUnsupported(t, i, k - 1, ch);
      assert StepAt(t, k - 1);
      EventFrame(t.states[k - 1], t.acts[k - 1]);
    }
  }

  // ---------- the user's handler ----------

  /** The handler in force before step `k`: the latest registration, unless the stack was configured after it. */
  function HandlerInForce(acts: seq<Action>, k: nat): Option<nat>
    requires k <= |acts|
  {
    if k == 0 then None
    else if acts[k - 1].RegisterHandler? then acts[k - 1].handler
    else if ConfiguresStack(acts[k - 1]) then None
    else HandlerInForce(acts, k - 1)
  }

  /** The runs of the handler that a run owes its user: one for each lost, success and fail event, in order. */
  function ExpectedNotices(t: Run, k: nat): seq<Notice>
    requires |t.states| == |t.acts| + 1 && k <= |t.acts|
  {
    if k == 0 then []
    else
      var a := t.acts[k - 1];
      var h := HandlerInForce(t.acts, k - 1);
      ExpectedNotices(t, k - 1)
      + if a.Event? && UserEventOf(a.event).Some? && h.Some? && a.channel < |t.states[k].chan|
        then [Notice(h.value, a.channel, UserEventOf(a.event).value, t.states[k].chan[a.channel])]
        else []
  }

  lemma HandlerStep(s: State, a: Action)
    requires WellFormed(s) && Possible(s, a)
    ensures var r := Next(s, a);
            && r.handler == (if a.RegisterHandler? then a.handler else if ConfiguresStack(a) then None else s.handler)
            && r.notices == s.notices
               + if a.Event? && UserEventOf(a.event).Some? && s.handler.Some?
                 then [Notice(s.handler.value, a.channel, UserEventOf(a.event).value, r.chan[a.channel])]
                 else []
  {
    match a {
      case Event(_, _, _) => EventStartsNegotiation(s, a);
      case ConfigureStack(_, _) => StackConfigEffect(s, a);
      case RegisterHandler(_) =>
      case ConfigureChannel(_, ch, _, _) => ReconfigureEffect(s, a, ch);
      case InitChannel(c, _) => ReconfigureEffect(s, a, c.channel);
    }
  }

  /** The handler's call log is exactly the expected one, each call seeing the state after its event. */
  lemma {:induction false} HandlerLog(t: Run, k: nat)
    requires IsRun(t) && k <= |t.acts|
    ensures t.states[k].handler == HandlerInForce(t.acts, k)
    ensures t.states[k].notices == ExpectedNotices(t, k)
  {
    if k == 0 {
    } else {
      HandlerLog(t, k - 1);
      assert StepAt(t, k - 1);
      HandlerStep(t.states[k - 1], t.acts[k - 1]);
    }
  }
}
