/** What one submission does to the compliance versions, in terms of the versions and the summary alone,
    and which versions are out of its reach. */
module SupplementaryOutcomes {
  import opened Prelude
  import opened Fees
  import opened Supplementary

  /* ---------- one submission ---------- */

  /** Nothing stands in the way of replacing the latest version: all earlier ones have been replaced, no
      manual handling is recorded, and its obligation waits for an invoice or nobody has asked for its
      credits. */
  predicate Replaceable(chain: seq<Version>)
    requires chain != []
  {
    var last := chain[|chain| - 1];
    && (forall i | 0 <= i < |chain| - 1 :: chain[i].superseded)
    && !last.manual
    && (|| (last.obligation.Some? && last.obligation.value.pending && last.obligation.value.invoice.None?)
        || (last.summary.excess == 0 && last.summary.credited >= 10000 && last.credit == Some(NotIssued)))
  }

  lemma CanSupersedeIff(chain: seq<Version>, rate: Rate)
    requires Inv(chain, rate) && chain != [] && !Last(chain).manual
    ensures CanSupersede(chain).Ok? && (CanSupersede(chain).value <==> Replaceable(chain))
  {
    var last := |chain| - 1;
    assert Charged(chain, rate, last) && CreditsOk(chain, last) && !chain[last].byHand;
  }

  /** A submission replaces the latest version exactly when nothing stands in the way. */
  lemma SubmissionSupersedesIff(st: State, s: Summary, rate: Rate, early: bool)
    requires Inv(st.chain, rate) && st.chain != [] && !st.gap
    ensures
      var result, last := Submit(st, s, rate, early), |st.chain| - 1;
      result.Ok? && |result.value.chain| >= |st.chain|
      && (result.value.chain[last].superseded <==> Replaceable(st.chain))
  {
    SubmissionRefusedIff(st, s, rate, early);
    assert !Last(st.chain).superseded;
    if !Last(st.chain).manual {
      CanSupersedeIff(st.chain, rate);
    }
  }

  /** What the new version is charged for: its whole excess if it is the first or replaces the previous
      one, nothing under manual handling, and else the increase. */
  function ChargedAmount(chain: seq<Version>, s: Summary): nat {
    if chain == [] || Replaceable(chain) then s.excess
    else if chain[|chain| - 1].manual || s.excess <= chain[|chain| - 1].summary.excess then 0
    else s.excess - chain[|chain| - 1].summary.excess
  }

  /** The new version: the summary submitted, with an uninvoiced obligation exactly if there is something
      to charge. */
  predicate NewVersion(chain: seq<Version>, s: Summary, rate: Rate, early: bool, v: Version) {
    var amount := ChargedAmount(chain, s);
    && v.summary == s && !v.superseded
    && (v.byHand <==> chain != [] && chain[|chain| - 1].manual)
    && (v.byHand ==> v.manual)
    && (v.manual && !v.byHand ==>
          chain != [] && chain[|chain| - 1].credit == Some(Approved)
            && s.credited < chain[|chain| - 1].summary.credited)
    && v.obligation == if amount > 0 then Some(Obligation(Fee(amount, rate), early, None)) else None
  }

  /** The previous version: replaced, without its obligation and the credits it could have had, or as it
      was but for the status of its credits. */
  predicate PreviousVersion(chain: seq<Version>, v: Version)
    requires chain != []
  {
    var before := chain[|chain| - 1];
    if Replaceable(chain) then
      v == before.(superseded := true, obligation := None, credit := v.credit)
      && (before.summary.credited >= 10000 ==> v.credit == None)
    else
      v == before.(credit := v.credit) && (v.credit.Some? <==> before.credit.Some?)
  }

  /** An accepted submission adds one version and looks at no other than the previous one, or adds none
      and changes nothing. */
  lemma SubmissionOutcome(st: State, s: Summary, rate: Rate, early: bool)
    requires Inv(st.chain, rate) && Submit(st, s, rate, early).Ok?
    ensures
      var after, n := Submit(st, s, rate, early).value, |st.chain|;
      if after.gap then after.chain == st.chain
      else
        && |after.chain| == n + 1 && NewVersion(st.chain, s, rate, early, after.chain[n])
        && (forall i | 0 <= i < n - 1 :: after.chain[i] == st.chain[i])
        && (n > 0 ==> PreviousVersion(st.chain, after.chain[n - 1]))
  {
    if st.chain != [] {
      var last := |st.chain| - 1;
      assert Charged(st.chain, rate, last);
      if !Last(st.chain).manual {
        CanSupersedeIff(st.chain, rate);
        assert !st.chain[last].byHand;
      }
    }
  }

  /** It adds none exactly when only the credited emissions changed and no handler for credits applies. */
  lemma SubmissionGapIff(st: State, s: Summary, rate: Rate, early: bool)
    requires Inv(st.chain, rate) && st.chain != [] && !st.gap
    ensures
      var last := Last(st.chain);
      && Submit(st, s, rate, early).Ok?
      && (Submit(st, s, rate, early).value.gap <==>
          && !last.manual && !Replaceable(st.chain)
          && s.excess == last.summary.excess && s.credited != last.summary.credited
          && if last.credit.Some? then last.summary.credited < 10000
             else last.summary.credited >= 10000 || s.credited < 10000)
  {
    SubmissionLeavesGapIff(st, s, rate, early);
    if !Last(st.chain).manual {
      CanSupersedeIff(st.chain, rate);
    }
  }

  /** Who keeps, loses and gets credits when only they change and the previous version stays. */
  lemma CreditsAfterSubmission(st: State, s: Summary, rate: Rate, early: bool)
    requires Inv(st.chain, rate) && st.chain != [] && !st.gap && !Last(st.chain).manual && !Replaceable(st.chain)
    requires s.excess == Last(st.chain).summary.excess && s.credited != Last(st.chain).summary.credited
    requires Submit(st, s, rate, early).Ok? && !Submit(st, s, rate, early).value.gap
    ensures
      var before, chain, n := Last(st.chain), Submit(st, s, rate, early).value.chain, |st.chain|;
      |chain| == n + 1 &&
      match before.credit
      case None =>
        chain[n - 1].credit == None && before.summary.credited < 10000 <= s.credited
          && chain[n].credit == Some(NotIssued)
      case Some(NotIssued) => chain[n - 1].credit == before.credit && chain[n].credit == None
      case Some(Approved) =>
        && chain[n - 1].credit == before.credit
        && if s.credited > before.summary.credited then chain[n].credit == Some(NotIssued) && !chain[n].manual
           else chain[n].credit == None && chain[n].manual
      case Some(_) => chain[n - 1].credit == Some(Declined) && chain[n].credit == Some(NotIssued)
  {
    CanSupersedeIff(st.chain, rate);
  }

  /** The first submission, and one that replaces its predecessor, have credits of their own from a tonne
      on. */
  lemma OwnCreditsAfterSubmission(st: State, s: Summary, rate: Rate, early: bool)
    requires Inv(st.chain, rate) && Submit(st, s, rate, early).Ok?
    requires st.chain == [] || (!st.gap && Replaceable(st.chain))
    ensures
      var chain := Submit(st, s, rate, early).value.chain;
      |chain| == |st.chain| + 1
      && chain[|st.chain|].credit == if s.credited >= 10000 then Some(NotIssued) else None
  {
    if st.chain != [] {
      CanSupersedeIff(st.chain, rate);
    }
  }

  /* ---------- binding action ---------- */

  /** An invoice was written or asked for, or credits were requested or decided upon. */
  predicate Binding(v: Version) {
    || (v.obligation.Some? && (!v.obligation.value.pending || v.obligation.value.invoice.Some?))
    || (v.credit.Some? && v.credit.value != NotIssued)
  }

  /** What a version that is left alone has at least what it had before. */
  predicate RecordsKept(before: Version, after: Version) {
    && !after.superseded && after.summary == before.summary && after.delta == before.delta
    && (before.obligation.Some? ==>
          after.obligation.Some? && after.obligation.value.fee == before.obligation.value.fee)
    && (before.credit.Some? ==> after.credit.Some?)
  }

  lemma BindingNotReplaceable(chain: seq<Version>, rate: Rate)
    requires Inv(chain, rate) && chain != [] && Binding(Last(chain))
    ensures !Replaceable(chain)
  {
    var last := |chain| - 1;
    assert Charged(chain, rate, last) && CreditsOk(chain, last);
  }

  /** After binding action no step replaces a version or takes a record from it. */
  lemma BindingKept(st: State, step: Step, rate: Rate, i: nat)
    requires Inv(st.chain, rate) && i < |st.chain| && !st.chain[i].superseded && Binding(st.chain[i])
    ensures i < |Next(st, step, rate).chain| && RecordsKept(st.chain[i], Next(st, step, rate).chain[i])
  {
    if step.Submission? && Submit(st, step.summary, rate, step.early).Ok? {
      SubmissionOutcome(st, step.summary, rate, step.early);
      if i == |st.chain| - 1 {
        BindingNotReplaceable(st.chain, rate);
      }
    }
  }

  /** The version has seen binding action in every state of the run but the last. */
  predicate BindingThroughout(st: State, steps: seq<Step>, rate: Rate, i: nat)
    decreases |steps|
  {
    steps == [] ||
    (i < |st.chain| && Binding(st.chain[i]) && BindingThroughout(Next(st, steps[0], rate), steps[1..], rate, i))
  }

  /** Over a run during which the action stays binding, the version is never replaced. */
  lemma {:induction false} BindingRunKept(st: State, steps: seq<Step>, rate: Rate, i: nat)
    requires Inv(st.chain, rate) && i < |st.chain| && !st.chain[i].superseded && BindingThroughout(st, steps, rate, i)
    ensures i < |Run(st, steps, rate).chain| && RecordsKept(st.chain[i], Run(st, steps, rate).chain[i])
    decreases |steps|
  {
    if steps != [] {
      StepKeeps(st, steps[0], rate);
      BindingKept(st, steps[0], rate, i);
      BindingRunKept(Next(st, steps[0], rate), steps[1..], rate, i);
    }
  }

  predicate Invoiced(v: Version) {
    v.obligation.Some? && v.obligation.value.invoice.Some?
  }

  lemma InvoicedStays(st: State, step: Step, rate: Rate, i: nat)
    requires Inv(st.chain, rate) && i < |st.chain| && !st.chain[i].superseded && Invoiced(st.chain[i])
    ensures i < |Next(st, step, rate).chain| && Invoiced(Next(st, step, rate).chain[i])
  {
    if step.Submission? && Submit(st, step.summary, rate, step.early).Ok? {
      SubmissionOutcome(st, step.summary, rate, step.early);
      if i == |st.chain| - 1 {
        BindingNotReplaceable(st.chain, rate);
      }
    }
  }

  /** An invoice binds for good: over every run an invoiced version stays live and charged, whatever is
      submitted later. */
  lemma {:induction false} InvoicedRunKept(st: State, steps: seq<Step>, rate: Rate, i: nat)
    requires Inv(st.chain, rate) && i < |st.chain| && !st.chain[i].superseded && Invoiced(st.chain[i])
    ensures i < |Run(st, steps, rate).chain| && RecordsKept(st.chain[i], Run(st, steps, rate).chain[i])
    ensures Invoiced(Run(st, steps, rate).chain[i])
    decreases |steps|
  {
    if steps != [] {
      StepKeeps(st, steps[0], rate);
      BindingKept(st, steps[0], rate, i);
      InvoicedStays(st, steps[0], rate, i);
      InvoicedRunKept(Next(st, steps[0], rate), steps[1..], rate, i);
    }
  }

  /* ---------- the balance of an invoice ---------- */

  /** The balance shown is the invoice's, to the nearest 0.0001 t; nothing is shown for a missing or
      negative balance, without a rate or without an obligation. */
  lemma InvoiceBalanceShown(chain: seq<Version>, i: nat, rate: Rate)
    requires i < |chain| && (chain[i].obligation.Some? ==> chain[i].obligation.value.invoice.Some?)
    ensures
      var shown := OutstandingTonnes(chain, i, rate);
      if chain[i].obligation.None? || rate == 0 then shown == 0
      else
        match chain[i].obligation.value.invoice.value
        case None => shown == 0
        case Some(cents) =>
          if cents <= 0 then shown == 0 else -(rate as int) <= 2 * (shown * rate - 10000 * cents) <= rate
  {
    if chain[i].obligation.Some? && rate > 0 {
      match chain[i].obligation.value.invoice.value
      case None =>
        ToTonnesNear(0, rate);
        NearestIsUnique(0, rate, 0, ToTonnes(0, rate));
      case Some(cents) =>
        if cents > 0 {
          ToTonnesNear(cents, rate);
        } else {
          ToTonnesNear(0, rate);
          NearestIsUnique(0, rate, 0, ToTonnes(0, rate));
        }
    }
  }
}
