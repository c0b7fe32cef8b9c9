/** What a store that raises does to the health notifications.

A run whose transition is not committed might as well not have happened. One whose transition is
committed but not settled leaves the state of a run whose notification was tried in vain, although
the notification may have been sent. So a faulty history has the effect of a history without faults. */
module OperationalFaults {
  import opened Domain
  import opened OperationalHealth
  import opened OperationalMonitoring

  datatype FaultyRun = FaultyRun(input: RunInput, saving: Saving) {
    /** The check got into the stored state. */
    predicate Happened() { saving.transition.Commits() }

    /** What was sent or suppressed got into the stored state too. */
    predicate Settled() { saving.transition.Returns? && saving.settlement.Commits() }
  }

  function InVain(input: RunInput): RunInput {
    input.(enabled := true, accepts := false)
  }

  /** The run without faults, if any, that leaves the same state. */
  function Effect(run: FaultyRun): seq<RunInput> {
    if !run.Happened() then [] else if run.Settled() then [run.input] else [InVain(run.input)]
  }

  function Effective(runs: seq<FaultyRun>): seq<RunInput> {
    if runs == [] then [] else Effective(runs[..|runs| - 1]) + Effect(runs[|runs| - 1])
  }

  function StateAfter(runs: seq<FaultyRun>, threshold: nat): State {
    if runs == [] then INITIAL
    else
      var last := runs[|runs| - 1];
      SaveRun(StateAfter(runs[..|runs| - 1], threshold), last.input, last.saving, threshold).state
  }

  /** What run i sent, whether it returned or raised. */
  function SentBy(runs: seq<FaultyRun>, i: nat, threshold: nat): Option<NotificationKind>
    requires i < |runs|
  {
    SaveRun(StateAfter(runs[..i], threshold), runs[i].input, runs[i].saving, threshold).sent
  }

  function InputsOf(runs: seq<FaultyRun>): seq<RunInput> {
    seq(|runs|, i requires 0 <= i < |runs| => runs[i].input)
  }

  // ---------- The effective history ----------

  /** The same check and digest delivery, whatever became of the notification. */
  predicate SameFacts(a: RunInput, b: RunInput) {
    a.check == b.check && a.delivery == b.delivery
  }

  /** Where the elements of the effective history come from. */
  ghost predicate ComesFrom(runs: seq<FaultyRun>, n: nat, k: nat)
    requires n < |Effective(runs)|
  {
    && k < |runs| && runs[k].Happened() && SameFacts(Effective(runs)[n], runs[k].input)
    && |Effective(runs[..k])| == n
  }

  lemma LastEffect(runs: seq<FaultyRun>, run: FaultyRun)
    ensures Effective(runs + [run]) == Effective(runs) + Effect(run)
  {
    assert (runs + [run])[..|runs|] == runs;
  }

  lemma {:induction false} EffectiveComesFrom(runs: seq<FaultyRun>, n: nat) returns (k: nat)
    requires n < |Effective(runs)|
    ensures ComesFrom(runs, n, k)
  {
    var init, last := runs[..|runs| - 1], runs[|runs| - 1];
    assert runs == init + [last];
    LastEffect(init, last);
    if n < |Effective(init)| {
      k := EffectiveComesFrom(init, n);
      assert runs[..k] == init[..k];
    } else {
      k := |init|;
      assert runs[..k] == init;
    }
  }

  lemma {:induction false} EffectiveOfPrefix(runs: seq<FaultyRun>, k: nat)
    requires k <= |runs|
    ensures Effective(runs[..k]) <= Effective(runs)
    decreases |runs| - k
  {
    if k < |runs| {
      EffectiveOfPrefix(runs, k + 1);
      assert runs[..k + 1] == runs[..k] + [runs[k]];
      LastEffect(runs[..k], runs[k]);
    } else {
      assert runs[..k] == runs;
    }
  }

  lemma PrefixesGrow(runs: seq<FaultyRun>, l: nat, k: nat)
    requires l <= k <= |runs|
    ensures |Effective(runs[..l])| <= |Effective(runs[..k])|
  {
    EffectiveOfPrefix(runs[..k], l);
    assert runs[..k][..l] == runs[..l];
  }

  lemma ShorterComesEarlier(runs: seq<FaultyRun>, k: nat, l: nat)
    requires k <= |runs| && l <= |runs| && |Effective(runs[..k])| < |Effective(runs[..l])|
    ensures k < l
  {
    if l <= k {
      PrefixesGrow(runs, l, k);
    }
  }

  /** Leaving runs out leaves the order. */
  lemma EffectiveInOrder(runs: seq<FaultyRun>)
    requires InOrder(InputsOf(runs))
    ensures InOrder(Effective(runs))
  {
    var e := Effective(runs);
    forall i, j | 0 <= i < j < |e|
      ensures e[i].check.timestamp <= e[j].check.timestamp
      ensures e[i].delivery.Some? && e[j].delivery.Some? ==>
          e[i].delivery.value.deliveredAt <= e[j].delivery.value.deliveredAt
    {
      var k := EffectiveComesFrom(runs, i);
      var l := EffectiveComesFrom(runs, j);
      ShorterComesEarlier(runs, k, l);
      assert InputsOf(runs)[k] == runs[k].input && InputsOf(runs)[l] == runs[l].input;
    }
  }

  lemma InVainSettlesNothing(state: State, stored: State, input: RunInput)
    ensures Settle(state, stored, InVain(input)).Ok? && Settle(state, stored, InVain(input)).value.state == state
  {
  }

  lemma SettlementLeaves(state: State, stored: State, input: RunInput, ending: Ending)
    requires Settle(state, stored, input).Ok?
    ensures var saved := SaveSettlement(state, stored, input, ending);
      && saved.state == (if ending.Commits() then Settle(state, stored, input).value.state else state)
      && saved.sent == Settle(state, stored, input).value.sent
  {
  }

  lemma SameTransition(stored: State, input: RunInput, threshold: nat)
    ensures Transitioned(stored, InVain(input), threshold) == Transitioned(stored, input, threshold)
  {
  }

  lemma SavingLeavesItsEffect(stored: State, run: FaultyRun, threshold: nat)
    requires RunWorkflow(stored, run.input, threshold).Ok? && RunWorkflow(stored, InVain(run.input), threshold).Ok?
    ensures var saved := SaveRun(stored, run.input, run.saving, threshold);
      && saved.state == (if Effect(run) == [] then stored else RunWorkflow(stored, Effect(run)[0], threshold).value.state)
      && saved.sent
         == (if run.saving.transition.Returns? then RunWorkflow(stored, run.input, threshold).value.sent else None)
  {
    SameTransition(stored, run.input, threshold);
    var state := Transitioned(stored, run.input, threshold).value;
    InVainSettlesNothing(state, stored, run.input);
    SettlementLeaves(state, stored, run.input, run.saving.settlement);
  }

  /** One run, faults or not, leaves the state its effect leaves. */
  lemma RunLeavesItsEffect(stored: State, before: seq<RunInput>, run: FaultyRun, threshold: nat)
    requires threshold > 0 && Knows(stored, before, threshold) && InOrder(before + [run.input])
    ensures RunWorkflow(stored, run.input, threshold).Ok? && RunWorkflow(stored, InVain(run.input), threshold).Ok?
    ensures var saved := SaveRun(stored, run.input, run.saving, threshold);
      && saved.state == (if Effect(run) == [] then stored else RunWorkflow(stored, Effect(run)[0], threshold).value.state)
      && saved.sent
         == (if run.saving.transition.Returns? then RunWorkflow(stored, run.input, threshold).value.sent else None)
  {
    InVainInOrder(before, run.input);
    ResultKnows(stored, before, run.input, threshold);
    ResultKnows(stored, before, InVain(run.input), threshold);
    SavingLeavesItsEffect(stored, run, threshold);
  }

  lemma InVainInOrder(before: seq<RunInput>, input: RunInput)
    requires InOrder(before + [input])
    ensures InOrder(before + [InVain(input)])
  {
    var a, b := before + [input], before + [InVain(input)];
    forall i | 0 <= i < |a| ensures a[i].check == b[i].check && a[i].delivery == b[i].delivery {
    }
  }

  /** The order of the inputs, with the faults of the earlier runs taken into account. */
  lemma NextInOrder(runs: seq<FaultyRun>, run: FaultyRun)
    requires InOrder(InputsOf(runs + [run]))
    ensures InOrder(InputsOf(runs)) && InOrder(Effective(runs) + [run.input])
  {
    var all := InputsOf(runs + [run]);
    assert forall i :: 0 <= i < |runs| ==> all[i] == InputsOf(runs)[i];
    assert all[|runs|] == run.input;
    var e := Effective(runs) + [run.input];
    EffectiveInOrder(runs);
    forall i | 0 <= i < |Effective(runs)|
      ensures e[i].check.timestamp <= run.input.check.timestamp
      ensures e[i].delivery.Some? && run.input.delivery.Some? ==>
          e[i].delivery.value.deliveredAt <= run.input.delivery.value.deliveredAt
    {
      var k := EffectiveComesFrom(runs, i);
      assert all[k] == runs[k].input;
    }
  }

  /** A faulty history leaves the state of its effective one. */
  lemma {:induction false} StateIsEffective(runs: seq<FaultyRun>, threshold: nat)
    requires threshold > 0 && InOrder(InputsOf(runs))
    ensures InOrder(Effective(runs)) && StateAfter(runs, threshold) == StoredAfter(Effective(runs), threshold)
  {
    if runs != [] {
      var init, last := runs[..|runs| - 1], runs[|runs| - 1];
      assert runs == init + [last];
      NextInOrder(init, last);
      StateIsEffective(init, threshold);
      EffectiveInOrder(runs);
      StoredKnows(Effective(init), threshold);
      RunLeavesItsEffect(StateAfter(init, threshold), Effective(init), last, threshold);
      if last.Happened() {
        assert (Effective(init) + Effect(last))[..|Effective(init)|] == Effective(init);
      } else {
        assert Effective(init) + [] == Effective(init);
      }
    }
  }

  // ---------- What is delivered ----------

  lemma SentIsSentAt(runs: seq<FaultyRun>, i: nat, threshold: nat)
    requires threshold > 0 && i < |runs| && InOrder(InputsOf(runs))
    ensures var history := Effective(runs[..i]) + [runs[i].input];
      && InOrder(history)
      && SentBy(runs, i, threshold)
         == if runs[i].saving.transition.Returns? then SentAt(history, |Effective(runs[..i])|, threshold) else None
  {
    var before := runs[..i];
    assert InOrder(InputsOf(before + [runs[i]])) by {
      assert forall k :: 0 <= k <= i ==> InputsOf(before + [runs[i]])[k] == InputsOf(runs)[k];
    }
    NextInOrder(before, runs[i]);
    StateIsEffective(before, threshold);
    StoredKnows(Effective(before), threshold);
    RunLeavesItsEffect(StateAfter(before, threshold), Effective(before), runs[i], threshold);
    assert (Effective(before) + [runs[i].input])[..|Effective(before)|] == Effective(before);
  }

  /** Exactly what every run of a faulty history sends: nothing unless saving its transition returns, and
  then what it would send at the end of the effective history before it. */
  lemma DeliveriesUnderFaults(runs: seq<FaultyRun>, i: nat, threshold: nat)
    requires threshold > 0 && i < |runs| && InOrder(InputsOf(runs))
    ensures var history, n := Effective(runs[..i]) + [runs[i].input], |Effective(runs[..i])|;
      && (SentBy(runs, i, threshold) == Some(Failure) <==>
            runs[i].saving.transition.Returns? && AnnouncesFailure(history, n, threshold))
      && (SentBy(runs, i, threshold) == Some(Recovery) <==>
            runs[i].saving.transition.Returns? && AnnouncesRecovery(history, n, threshold))
  {
    SentIsSentAt(runs, i, threshold);
    DeliveriesAreExactly(Effective(runs[..i]) + [runs[i].input], |Effective(runs[..i])|, threshold);
  }

  /** A healthy check was stored between runs i and j. */
  ghost predicate RecoveredBetween(runs: seq<FaultyRun>, i: nat, j: nat) {
    exists k :: i < k < j < |runs| && runs[k].Happened() && !runs[k].input.check.Fails()
  }

  lemma FailureIsSentAt(runs: seq<FaultyRun>, i: nat, threshold: nat)
    requires threshold > 0 && i < |runs| && InOrder(InputsOf(runs)) && SentBy(runs, i, threshold) == Some(Failure)
    ensures var history := Effective(runs[..i]) + [runs[i].input];
      InOrder(history) && SentAt(history, |Effective(runs[..i])|, threshold) == Some(Failure)
  {
    SentIsSentAt(runs, i, threshold);
  }

  lemma HistoryExtends(runs: seq<FaultyRun>, i: nat, j: nat)
    requires i < j < |runs| && runs[i].Settled()
    ensures Effective(runs[..i]) + [runs[i].input] <= Effective(runs[..j])
    ensures |Effective(runs[..i + 1])| == |Effective(runs[..i])| + 1
  {
    assert runs[..i + 1] == runs[..i] + [runs[i]];
    LastEffect(runs[..i], runs[i]);
    EffectiveOfPrefix(runs[..j], i + 1);
    assert runs[..j][..i + 1] == runs[..i + 1];
  }

  lemma OriginInPrefix(runs: seq<FaultyRun>, j: nat, n: nat) returns (k: nat)
    requires j <= |runs| && n < |Effective(runs[..j])|
    ensures k < j && runs[k].Happened() && SameFacts(Effective(runs[..j])[n], runs[k].input)
    ensures |Effective(runs[..k])| == n
  {
    k := EffectiveComesFrom(runs[..j], n);
    assert runs[..j][..k] == runs[..k] && runs[..j][k] == runs[k];
  }

  lemma HappeningGrows(runs: seq<FaultyRun>, k: nat)
    requires k < |runs| && runs[k].Happened()
    ensures |Effective(runs[..k + 1])| == |Effective(runs[..k])| + 1
  {
    assert runs[..k + 1] == runs[..k] + [runs[k]];
    LastEffect(runs[..k], runs[k]);
  }

  lemma HealthyIsRecovered(runs: seq<FaultyRun>, i: nat, j: nat, n: nat)
    requires i < j < |runs| && |Effective(runs[..i + 1])| <= n < |Effective(runs[..j])|
    requires !Effective(runs[..j])[n].check.Fails()
    ensures RecoveredBetween(runs, i, j)
  {
    var k := OriginInPrefix(runs, j, n);
    HappeningGrows(runs, k);
    if k <= i {
      PrefixesGrow(runs, k + 1, i + 1);
    }
  }

  lemma SentAtIgnoresLater(a: seq<RunInput>, b: seq<RunInput>, n: nat, threshold: nat)
    requires n < |a| && a <= b
    ensures SentAt(a, n, threshold) == SentAt(b, n, threshold)
  {
    assert a[..n] == b[..n];
  }

  lemma HealthyBetween(a: seq<RunInput>, b: seq<RunInput>, last: RunInput, threshold: nat) returns (n: nat)
    requires threshold > 0 && a != [] && a <= b && InOrder(b + [last])
    requires SentAt(a, |a| - 1, threshold) == Some(Failure) && SentAt(b + [last], |b|, threshold) == Some(Failure)
    ensures |a| <= n < |b| && !b[n].check.Fails()
  {
    SentAtIgnoresLater(a, b + [last], |a| - 1, threshold);
    OneFailurePerStreak(b + [last], |a| - 1, |b|, threshold);
    n :| |a| - 1 < n < |b| && !(b + [last])[n].check.Fails();
  }

  /** Once an acknowledgement was stored, its streak sends no second FAILURE, whatever raises. */
  lemma AcknowledgedOncePerStreak(runs: seq<FaultyRun>, i: nat, j: nat, threshold: nat)
    requires threshold > 0 && i < j < |runs| && InOrder(InputsOf(runs))
    requires SentBy(runs, i, threshold) == Some(Failure) && SentBy(runs, j, threshold) == Some(Failure)
    requires runs[i].Settled()
    ensures RecoveredBetween(runs, i, j)
  {
    FailureIsSentAt(runs, i, threshold);
    FailureIsSentAt(runs, j, threshold);
    HistoryExtends(runs, i, j);
    var n := HealthyBetween(Effective(runs[..i]) + [runs[i].input], Effective(runs[..j]), runs[j].input, threshold);
    HealthyIsRecovered(runs, i, j, n);
  }

  lemma NextHistory(runs: seq<FaultyRun>, i: nat)
    requires i < |runs| && runs[i].Happened() && !runs[i].Settled()
    ensures Effective(runs[..i + 1]) == Effective(runs[..i]) + [InVain(runs[i].input)]
  {
    assert runs[..i + 1] == runs[..i] + [runs[i]];
    LastEffect(runs[..i], runs[i]);
  }

  lemma StillDue(before: seq<RunInput>, input: RunInput, next: RunInput, threshold: nat)
    requires threshold > 0 && AnnouncesFailure(before + [input], |before|, threshold)
    requires next.check.Fails() && next.Delivers()
    ensures AnnouncesFailure(before + [InVain(input)] + [next], |before| + 1, threshold)
  {
    var vain := InVain(input);
    AnnouncementAtEnd(before, input, threshold);
    PendingAfterRun(before, vain, threshold);
    StreakOfLonger(before, vain);
    AnnouncementAtEnd(before + [vain], next, threshold);
  }

  /** A FAILURE that was sent and could not be acknowledged is sent again by the next failing run. */
  lemma UnacknowledgedIsSentAgain(runs: seq<FaultyRun>, i: nat, threshold: nat)
    requires threshold > 0 && i + 1 < |runs| && InOrder(InputsOf(runs))
    requires SentBy(runs, i, threshold) == Some(Failure) && runs[i].saving.settlement.RaisesBeforeCommit?
    requires runs[i + 1].saving.transition.Returns? && runs[i + 1].input.check.Fails() && runs[i + 1].input.Delivers()
    ensures SentBy(runs, i + 1, threshold) == Some(Failure)
  {
    DeliveriesUnderFaults(runs, i, threshold);
    DeliveriesUnderFaults(runs, i + 1, threshold);
    NextHistory(runs, i);
    StillDue(Effective(runs[..i]), runs[i].input, runs[i + 1].input, threshold);
  }
}
