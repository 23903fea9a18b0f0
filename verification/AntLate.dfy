/**
 Late ends of negotiations.  Configuring a channel again makes no call that tells the SoftDevice, so the negotiation it
 was asked for goes on and its end may be reported when the module no longer expects it.  Here the environment is one
 that reports an end only for a negotiation it was asked for and that it has not yet reported over: weaker than
 `Obedient`, which speaks of the state that the module keeps.
 */
module AntLate {
  import opened Common
  import opened AntModel
  import opened AntSteps
  import opened AntRuns

  /** The event is the end of a negotiation or the loss of the channel, which ends it too. */
  predicate EndsNegotiation(a: Action, ch: nat) {
    a.Event? && a.channel == ch && (IsTerminal(a) || a.event == RxFailGoToSearch)
  }

  /** An event enabled encryption on `ch`, and its end was not reported since. */
  predicate Owed(t: Run, k: nat, ch: nat)
    requires |t.states| == |t.acts| + 1 && k <= |t.acts|
  {
    if k == 0 then false
    else if EndsNegotiation(t.acts[k - 1], ch) then false
    else if t.acts[k - 1].Event? && t.acts[k - 1].channel == ch && t.states[k].calls != t.states[k - 1].calls then true
    else Owed(t, k - 1, ch)
  }

  /** The environment may report this after `k` steps. */
  predicate Asked(t: Run, k: nat, a: Action)
    requires |t.states| == |t.acts| + 1 && k <= |t.acts|
  {
    IsTerminal(a) && a.channel < |t.states[k].chan| && t.states[k].chan[a.channel] != TrackingUnsupported ==>
      Owed(t, k, a.channel)
  }

  ghost predicate AskedRun(t: Run) {
    IsRun(t) && forall k :: 0 <= k < |t.acts| ==> Asked(t, k, t.acts[k])
  }

  // ---------- negotiating means owed ----------

  lemma OwedStep(t: Run, k: nat, ch: nat)
    requires IsRun(t) && k < |t.acts| && ch < |t.states[k].chan| && ch < |t.states[k + 1].chan|
    ensures t.states[k + 1].chan[ch] == Negotiating && t.states[k].chan[ch] != Negotiating ==> Owed(t, k + 1, ch)
    ensures t.states[k + 1].chan[ch] == Negotiating && Owed(t, k, ch) ==> Owed(t, k + 1, ch)
  {
    RunShape(t, k);
    ChannelMovesAt(t, k, ch);
    if EndsNegotiation(t.acts[k], ch) {
      assert StepAt(t, k);
      EventFrame(t.states[k], t.acts[k]);
    }
  }

  /** In every run a negotiating channel's negotiation is owed. */
  lemma {:induction false} NegotiatingIsOwed(t: Run, k: nat, ch: nat)
    requires IsRun(t) && k <= |t.acts| && ch < |t.states[k].chan| && t.states[k].chan[ch] == Negotiating
    ensures Owed(t, k, ch)
  {
    if k == 0 {
      assert false;
    } else {
      RunShape(t, k);
      RunShape(t, k - 1);
      OwedStep(t, k - 1, ch);
      if t.states[k - 1].chan[ch] == Negotiating {
        NegotiatingIsOwed(t, k - 1, ch);
      }
    }
  }

  /** So every obedient environment is one that reports only what it was asked for. */
  lemma ObedientIsAsked(t: Run)
    requires ObedientRun(t)
    ensures AskedRun(t)
  {
    forall k | 0 <= k < |t.acts| ensures Asked(t, k, t.acts[k]) {
      var a := t.acts[k];
      assert Obedient(t.states[k], a);
      if IsTerminal(a) && a.channel < |t.states[k].chan| && t.states[k].chan[a.channel] != TrackingUnsupported {
        NegotiatingIsOwed(t, k, a.channel);
      }
    }
  }

  // ---------- exclusion ----------

  /** The stack is configured while the end of a negotiation is still owed. */
  ghost predicate Interrupts(t: Run, k: nat)
    requires |t.states| == |t.acts| + 1 && k < |t.acts|
  {
    ConfiguresStack(t.acts[k]) && exists ch: nat :: Owed(t, k, ch)
  }

  /** At most one negotiation is owed, and none while the lock is free. */
  ghost predicate OwedAlone(t: Run, k: nat)
    requires |t.states| == |t.acts| + 1 && k <= |t.acts|
  {
    && (forall c: nat, d: nat :: Owed(t, k, c) && Owed(t, k, d) ==> c == d)
    && (forall c: nat :: Owed(t, k, c) ==> !t.states[k].canEnable)
  }

  /** What takes the lock and what frees it. */
  lemma LockMoves(s: State, a: Action)
    requires WellFormed(s) && Possible(s, a)
    ensures var r := Next(s, a);
            && (a.Event? && r.calls != s.calls ==> s.canEnable && !r.canEnable && !EndsNegotiation(a, a.channel))
            && (r.canEnable && !s.canEnable ==>
                  || ConfiguresStack(a)
                  || (IsTerminal(a) && s.chan[a.channel] != TrackingUnsupported)
                  || (a.Event? && a.event == RxFailGoToSearch && s.chan[a.channel] == Negotiating))
  {
    match a {
      case Event(_, _, _) => EventStartsNegotiation(s, a);
      case ConfigureStack(_, _) => StackConfigEffect(s, a);
      case RegisterHandler(_) =>
      case ConfigureChannel(_, ch, _, _) => ReconfigureEffect(s, a, ch);
      case InitChannel(c, _) => ReconfigureEffect(s, a, c.channel);
    }
  }

  lemma {:induction false} OwedAloneUpTo(t: Run, k: nat)
    requires AskedRun(t) && k <= |t.acts| && forall j :: 0 <= j < k ==> !Interrupts(t, j)
    ensures OwedAlone(t, k)
  {
    if k == 0 {
    } else {
      OwedAloneUpTo(t, k - 1);
      OwedAloneStep(t, k - 1);
    }
  }

  lemma OwedAloneStep(t: Run, k: nat)
    requires AskedRun(t) && k < |t.acts| && OwedAlone(t, k) && !Interrupts(t, k)
    ensures OwedAlone(t, k + 1)
  {
    var s, a := t.states[k], t.acts[k];
    assert StepAt(t, k) && Asked(t, k, a);
    LockMoves(s, a);
    if a.Event? && s.chan[a.channel] == Negotiating {
      NegotiatingIsOwed(t, k, a.channel);
    }
    var starts := a.Event? && t.states[k + 1].calls != s.calls;
    forall c: nat | Owed(t, k + 1, c)
      ensures if starts then c == a.channel else Owed(t, k, c) && !EndsNegotiation(a, c)
    {
      assert starts ==> !Owed(t, k, c);
    }
  }

  /** As long as the stack is not configured while a negotiation is owed, no two channels negotiate at once. */
  lemma AskedRunsAreExclusive(t: Run, k: nat)
    requires AskedRun(t) && k <= |t.acts| && forall j :: 0 <= j < k ==> !Interrupts(t, j)
    ensures Exclusive(t.states[k])
  {
    OwedAloneUpTo(t, k);
    forall c: nat | c < |t.states[k].chan| && t.states[k].chan[c] == Negotiating ensures Owed(t, k, c) {
      NegotiatingIsOwed(t, k, c);
    }
  }

  /** One channel negotiates while the end of another one's negotiation is owed and would be heeded. */
  ghost predicate Clash(t: Run, k: nat)
    requires |t.states| == |t.acts| + 1 && k <= |t.acts|
  {
    exists c: nat, d: nat ::
      c != d && c < |t.states[k].chan| && t.states[k].chan[c] == Negotiating && OwedHeeded(t, k, d)
  }

  /** The end of a negotiation is owed for a supported channel. */
  predicate OwedHeeded(t: Run, k: nat, ch: nat)
    requires |t.states| == |t.acts| + 1 && k <= |t.acts|
  {
    ch < |t.states[k].chan| && t.states[k].chan[ch] != TrackingUnsupported && Owed(t, k, ch)
  }

  /** The next step can break exclusion exactly in a clash. */
  lemma ClashIff(t: Run)
    requires AskedRun(t) && Exclusive(t.states[|t.acts|]) && !t.states[|t.acts|].halted
    ensures Clash(t, |t.acts|) <==>
              exists a :: && WellFormed(t.states[|t.acts|]) && Possible(t.states[|t.acts|], a) && Asked(t, |t.acts|, a)
                          && !Exclusive(Next(t.states[|t.acts|], a))
  {
    var n := |t.acts|;
    var s := t.states[n];
    RunShape(t, n);
    if Clash(t, n) {
      var c: nat, d: nat :| c != d && c < |s.chan| && s.chan[c] == Negotiating && OwedHeeded(t, n, d);
      var a := Event(d, NegotiationFail, NRF_SUCCESS);
      StepExclusiveIff(s, a);
      assert Intrudes(s, a);
      assert Possible(s, a) && Asked(t, n, a);
    }
    forall a | Possible(s, a) && Asked(t, n, a) && !Exclusive(Next(s, a)) ensures Clash(t, n) {
      StepExclusiveIff(s, a);
      var c :| 0 <= c < |s.chan| && c != a.channel && s.chan[c] == Negotiating;
      assert OwedHeeded(t, n, a.channel);
    }
  }

  // ---------- recovery from a leak ----------

  /** `t'` goes on from `t` with events only. */
  ghost predicate ContinuesByEvents(t: Run, t': Run) {
    && AskedRun(t) && AskedRun(t') && |t.acts| <= |t'.acts|
    && t'.states[..|t.states|] == t.states && t'.acts[..|t.acts|] == t.acts
    && forall k :: |t.acts| <= k < |t'.acts| ==> t'.acts[k].Event?
  }

  lemma {:induction false} OwedOfPrefix(t: Run, t': Run, k: nat, ch: nat)
    requires |t.states| == |t.acts| + 1 && |t'.states| == |t'.acts| + 1 && k <= |t.acts| <= |t'.acts|
    requires t'.states[..|t.states|] == t.states && t'.acts[..|t.acts|] == t.acts
    ensures Owed(t', k, ch) == Owed(t, k, ch)
  {
    if k == 0 {
    } else {
      OwedOfPrefix(t, t', k - 1, ch);
      assert t'.states[k] == t.states[k] && t'.states[k - 1] == t.states[k - 1] && t'.acts[k - 1] == t.acts[k - 1];
    }
  }

  lemma {:induction false} LeakWithoutDebt(t: Run, i: nat, k: nat)
    requires AskedRun(t) && i <= k <= |t.acts| && forall j :: i <= j < k ==> t.acts[j].Event?
    requires Leaked(t.states[i]) && forall ch: nat :: !OwedHeeded(t, i, ch)
    ensures Leaked(t.states[k]) && forall ch: nat :: !OwedHeeded(t, k, ch)
    ensures forall c :: 0 <= c < |t.states[k].chan| && t.states[k].chan[c] == TrackingDecrypted ==>
                          c < |t.states[i].chan| && t.states[i].chan[c] == TrackingDecrypted
    decreases k
  {
    if i == k {
    } else {
      LeakWithoutDebt(t, i, k - 1);
      RunShape(t, k - 1);
      var s, a := t.states[k - 1], t.acts[k - 1];
      assert StepAt(t, k - 1) && Asked(t, k - 1, a);
      LeakedStep(s, a);
      assert !OwedHeeded(t, k - 1, a.channel);
      forall ch: nat ensures !OwedHeeded(t, k, ch) {
        DebtKept(t, k - 1, ch);
        assert !OwedHeeded(t, k - 1, ch);
      }
    }
  }

  lemma DebtKept(t: Run, k: nat, ch: nat)
    requires IsRun(t) && k < |t.acts| && t.acts[k].Event? && t.states[k + 1].calls == t.states[k].calls
    ensures OwedHeeded(t, k + 1, ch) ==> OwedHeeded(t, k, ch)
  {
    assert StepAt(t, k);
    EventFrame(t.states[k], t.acts[k]);
  }

  /** In such an environment events can free a leaked lock exactly when the end of a negotiation is owed and heeded. */
  lemma LeakEndsIff(t: Run)
    requires AskedRun(t) && Leaked(t.states[|t.acts|]) && !t.states[|t.acts|].halted
    ensures (exists t' :: ContinuesByEvents(t, t') && t'.states[|t'.acts|].canEnable) <==>
              exists ch: nat :: OwedHeeded(t, |t.acts|, ch)
  {
    var n := |t.acts|;
    if ch: nat :| OwedHeeded(t, n, ch) {
      var t' := LateEnd(t, ch, NegotiationFail);
      assert ContinuesByEvents(t, t');
    } else {
      forall t' | ContinuesByEvents(t, t') ensures !t'.states[|t'.acts|].canEnable {
        assert t'.states[n] == t.states[n];
        forall ch: nat ensures !OwedHeeded(t', n, ch) {
          OwedOfPrefix(t, t', n, ch);
          assert !OwedHeeded(t, n, ch);
        }
        LeakWithoutDebt(t', n, |t'.acts|);
      }
    }
  }

  /** And events can decrypt a supported channel exactly when the lock is not leaked or such an end is owed. */
  lemma AskedRecoverableIff(t: Run, ch: nat)
    requires AskedRun(t) && Exclusive(t.states[|t.acts|]) && !t.states[|t.acts|].halted
    requires ch < |t.states[|t.acts|].chan|
    requires t.states[|t.acts|].chan[ch] != TrackingUnsupported && t.states[|t.acts|].chan[ch] != TrackingDecrypted
    ensures (exists t' :: ContinuesByEvents(t, t') && Decrypts(t', ch)) <==>
              !Leaked(t.states[|t.acts|]) || exists d: nat :: OwedHeeded(t, |t.acts|, d)
  {
    var n := |t.acts|;
    if !Leaked(t.states[n]) {
      var t' := DecryptingRun(t, ch);
    } else if d: nat :| OwedHeeded(t, n, d) {
      var freed := LateEnd(t, d, NegotiationFail);
      var t' := DecryptingRun(freed, ch);
      ContinuesTransitively(t, freed, t');
    } else {
      forall t' | ContinuesByEvents(t, t') ensures !Decrypts(t', ch) {
        assert t'.states[n] == t.states[n];
        forall d: nat ensures !OwedHeeded(t', n, d) {
          OwedOfPrefix(t, t', n, d);
          assert !OwedHeeded(t, n, d);
        }
        LeakWithoutDebt(t', n, |t'.acts|);
      }
    }
  }

  ghost predicate Decrypts(t: Run, ch: nat)
    requires IsRun(t)
  {
    ch < |t.states[|t.acts|].chan| && t.states[|t.acts|].chan[ch] == TrackingDecrypted
  }

  lemma DecryptingRun(t: Run, ch: nat) returns (t': Run)
    requires AskedRun(t) && !t.states[|t.acts|].halted && ch < |t.states[|t.acts|].chan|
    requires Exclusive(t.states[|t.acts|]) && !Leaked(t.states[|t.acts|])
    requires t.states[|t.acts|].chan[ch] != TrackingUnsupported
    ensures ContinuesByEvents(t, t') && Decrypts(t', ch)
  {
    RunShape(t, |t.acts|);
    NotStuck(t.states[|t.acts|], ch);
    var evs, r :| Plays(t.states[|t.acts|], evs, r) && ch < |r.chan| && r.chan[ch] == TrackingDecrypted;
    t' := PlaysContinue(t, evs, r);
  }

  /** A list of obedient events as the continuation of a run. */
  lemma {:induction false} PlaysContinue(t: Run, evs: seq<Action>, r: State) returns (t': Run)
    requires AskedRun(t) && Plays(t.states[|t.acts|], evs, r)
    ensures ContinuesByEvents(t, t') && t'.states[|t'.acts|] == r
    decreases |evs|
  {
    if evs == [] {
      t' := t;
    } else {
      var a, n := evs[0], |t.acts|;
      if IsTerminal(a) && t.states[n].chan[a.channel] != TrackingUnsupported {
        NegotiatingIsOwed(t, n, a.channel);
      }
      var t1 := ExtendAsked(t, a);
      t' := PlaysContinue(t1, evs[1..], r);
      ContinuesTransitively(t, t1, t');
    }
  }

  lemma ContinuesTransitively(t: Run, t1: Run, t2: Run)
    requires ContinuesByEvents(t, t1) && ContinuesByEvents(t1, t2)
    ensures ContinuesByEvents(t, t2)
  {
    assert t2.states[..|t.states|] == t2.states[..|t1.states|][..|t.states|];
    assert t2.acts[..|t.acts|] == t2.acts[..|t1.acts|][..|t.acts|];
    forall k | |t.acts| <= k < |t2.acts| ensures t2.acts[k].Event? {
      assert k < |t1.acts| ==> t2.acts[k] == t1.acts[k];
    }
  }

  /** The late end itself: it frees the lock. */
  lemma LateEnd(t: Run, ch: nat, ev: AntEvent) returns (t': Run)
    requires AskedRun(t) && !t.states[|t.acts|].halted && OwedHeeded(t, |t.acts|, ch)
    requires ev == NegotiationSuccess || ev == NegotiationFail
    ensures ContinuesByEvents(t, t') && |t'.acts| == |t.acts| + 1
    ensures var s, r := t.states[|t.acts|], t'.states[|t'.acts|];
            && r.canEnable && !r.halted && r.conf == s.conf && r.calls == s.calls
            && r.chan == s.chan[ch := if ev == NegotiationSuccess then TrackingDecrypted else TrackingEncrypted]
  {
    RunShape(t, |t.acts|);
    var s, a := t.states[|t.acts|], Event(ch, ev, NRF_SUCCESS);
    t' := ExtendAsked(t, a);
  }

  lemma ExtendAsked(t: Run, a: Action) returns (t': Run)
    requires AskedRun(t) && WellFormed(t.states[|t.acts|]) && Possible(t.states[|t.acts|], a) && Asked(t, |t.acts|, a)
    ensures AskedRun(t') && t' == Run(t.states + [Next(t.states[|t.acts|], a)], t.acts + [a])
    ensures a.Event? ==> ContinuesByEvents(t, t')
    ensures forall ch: nat :: Owed(t', |t.acts|, ch) == Owed(t, |t.acts|, ch)
  {
    t' := ExtendRun(t, a, Next(t.states[|t.acts|], a));
    forall k | 0 <= k < |t'.acts| ensures Asked(t', k, t'.acts[k]) {
      if t'.acts[k].Event? {
        OwedOfPrefix(t, t', k, t'.acts[k].channel);
      }
      assert k < |t.acts| ==> Asked(t, k, t.acts[k]);
    }
    forall ch: nat ensures Owed(t', |t.acts|, ch) == Owed(t, |t.acts|, ch) {
      OwedOfPrefix(t, t', |t.acts|, ch);
    }
  }

  // ---------- what late ends do ----------

  /** The success at `j` was owed for the enable at `i`, and nothing up to `k` dropped the channel. */
  ghost predicate OwedSuccess(t: Run, i: nat, j: nat, k: nat, ch: nat)
    requires IsRun(t) && k <= |t.acts|
  {
    && SuccessSince(t, j, k, ch) && i < j && EnabledAt(t, i, ch)
    && forall m :: i < m < j ==> !EndsNegotiation(t.acts[m], ch)
  }

  /** Step `i` enabled encryption on `ch`, with the settings saved at that time. */
  ghost predicate EnabledAt(t: Run, i: nat, ch: nat)
    requires IsRun(t) && i < |t.acts|
  {
    ch < |t.states[i].conf| && StartsNegotiation(t.states[i], t.acts[i], t.states[i + 1], ch, t.states[i].conf[ch])
  }

  lemma {:induction false} FindOwedEnable(t: Run, k: nat, ch: nat) returns (i: nat)
    requires IsRun(t) && k <= |t.acts| && Owed(t, k, ch)
    ensures i < k && EnabledAt(t, i, ch) && forall m :: i < m < k ==> !EndsNegotiation(t.acts[m], ch)
  {
    RunShape(t, k - 1);
    assert StepAt(t, k - 1);
    if t.acts[k - 1].Event? && t.acts[k - 1].channel == ch && t.states[k].calls != t.states[k - 1].calls {
      EventStartsNegotiation(t.states[k - 1], t.acts[k - 1]);
      i := k - 1;
    } else {
      i := FindOwedEnable(t, k - 1, ch);
    }
  }

  /** In such an environment a channel is decrypted exactly when an owed success came for it and nothing dropped it. */
  lemma AskedDecryptedIff(t: Run, k: nat, ch: nat)
    requires AskedRun(t) && k <= |t.acts| && ch < |t.states[k].chan|
    ensures t.states[k].chan[ch] == TrackingDecrypted <==> exists i: nat, j: nat :: OwedSuccess(t, i, j, k, ch)
  {
    DecryptedIffSuccess(t, k, ch);
    if t.states[k].chan[ch] == TrackingDecrypted {
      var j: nat :| SuccessSince(t, j, k, ch);
      assert Asked(t, j, t.acts[j]);
      var i := FindOwedEnable(t, j, ch);
      assert OwedSuccess(t, i, j, k, ch);
    }
  }

  /**
   And the settings may be wrong: for any two settings, a slave configured with the first, heard, and configured with
   the second ends up decrypted with the second saved, though the only enable carried the first.
   */
  lemma LateSuccessDecrypts(first: ChannelSettings, second: ChannelSettings)
    requires first.mode != ENCRYPTION_DISABLED_MODE && second.mode != ENCRYPTION_DISABLED_MODE
    ensures exists t :: && AskedRun(t) && t.states[|t.acts|].canEnable
                        && t.states[|t.acts|].chan == [TrackingDecrypted] && t.states[|t.acts|].conf == [second]
                        && t.states[|t.acts|].calls == [Issued(CryptoChannelEnable(0, first), NRF_SUCCESS)]
  {
    var t, s3 := LeakedRun(first, second);
    ObedientIsAsked(t);
    NegotiatingIsOwed(t, 3, 0);
    assert Owed(t, 4, 0);
    var t' := LateEnd(t, 0, NegotiationSuccess);
  }

  // ---------- exclusion can fail ----------

  const EMPTY_STACK := ConfigureStack(StackSettings([], None, None, None, None), [])

  function SlaveAction(ch: nat): Action {
    ConfigureChannel(Slave, ch, Some(ChannelSettings(1, 0, 1)), NRF_SUCCESS)
  }

  /** Two running channels, with this much known of them. */
  ghost predicate Ends(t: Run, chan: seq<TrackingState>, canEnable: bool) {
    && AskedRun(t) && WellFormed(t.states[|t.acts|]) && !t.states[|t.acts|].halted
    && t.states[|t.acts|].chan == chan && t.states[|t.acts|].canEnable == canEnable
  }

  /** Configuring the stack and both channels as slaves, at any time; what was owed stays owed. */
  lemma TwoSlaves(t: Run) returns (t': Run)
    requires AskedRun(t) && WellFormed(t.states[|t.acts|]) && !t.states[|t.acts|].halted
    requires |t.states[|t.acts|].chan| == 2
    ensures Ends(t', [NotTracking, NotTracking], true)
    ensures forall ch: nat :: Owed(t, |t.acts|, ch) ==> Owed(t', |t'.acts|, ch)
  {
    StackConfigEffect(t.states[|t.acts|], EMPTY_STACK);
    var t1 := ExtendAsked(t, EMPTY_STACK);
    assert t1.states[|t1.acts|].chan == [TrackingUnsupported, TrackingUnsupported];
    var t2 := ConfigureSlave(t1, 0);
    t' := ConfigureSlave(t2, 1);
  }

  lemma ConfigureSlave(t: Run, ch: nat) returns (t': Run)
    requires AskedRun(t) && WellFormed(t.states[|t.acts|]) && !t.states[|t.acts|].halted
    requires t.states[|t.acts|].configured && ch < |t.states[|t.acts|].chan|
    ensures Ends(t', t.states[|t.acts|].chan[ch := NotTracking], t.states[|t.acts|].canEnable)
    ensures t'.states[|t'.acts|].configured
    ensures forall c: nat :: Owed(t, |t.acts|, c) ==> Owed(t', |t'.acts|, c)
  {
    t' := ExtendAsked(t, SlaveAction(ch));
    assert !SlaveAction(ch).Event?;
  }

  /** A broadcast on a channel that needs a negotiation, with the lock free. */
  lemma Hear(t: Run, ch: nat) returns (t': Run)
    requires AskedRun(t) && WellFormed(t.states[|t.acts|]) && !t.states[|t.acts|].halted
    requires ch < |t.states[|t.acts|].chan| && t.states[|t.acts|].canEnable
    requires t.states[|t.acts|].chan[ch] == NotTracking || t.states[|t.acts|].chan[ch] == TrackingEncrypted
    ensures Ends(t', t.states[|t.acts|].chan[ch := Negotiating], false)
    ensures forall c: nat :: Owed(t, |t.acts|, c) ==> Owed(t', |t'.acts|, c)
  {
    t' := ExtendAsked(t, Event(ch, Rx(true), NRF_SUCCESS));
  }

  /**
   Exclusion can fail though every end is reported only for a negotiation that was asked for: the stack is configured
   during a negotiation, the other channel starts one, and the late end of the first frees the lock for a new one.
   */
  lemma AskedCanFail()
    ensures exists t :: Ends(t, [Negotiating, Negotiating], false)
  {
    var t := TwoSlaves(Run([Boot(2, 2)], []));
    t := Hear(t, 0);
    NegotiatingIsOwed(t, |t.acts|, 0);
    t := TwoSlaves(t);
    t := Hear(t, 1);
    assert OwedHeeded(t, |t.acts|, 0);
    t := LateEnd(t, 0, NegotiationFail);
    t := Hear(t, 0);
    assert Ends(t, [Negotiating, Negotiating], false);
  }
}
